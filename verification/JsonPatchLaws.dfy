/** Laws of patch application: locality, inverses, and how the operations relate. */
module JsonPatchLaws {
  import opened JsonValue
  import opened JsonPointer
  import opened JsonPatch

  // ---------------------------------------------------------------- locality

  /** The operation with the same tokens put in front of each of its pointers. */
  function LiftOp(prefix: Pointer, op: Op): Op {
    match op
    case Add(p, v) => Add(prefix + p, v)
    case Remove(p) => Remove(prefix + p)
    case Replace(p, v) => Replace(prefix + p, v)
    case Move(from, p) => Move(prefix + from, prefix + p)
    case Copy(from, p) => Copy(prefix + from, prefix + p)
    case Test(p, v) => Test(prefix + p, v)
  }

  function Lift(prefix: Pointer, ops: seq<Op>): seq<Op> {
    seq(|ops|, i requires 0 <= i < |ops| => LiftOp(prefix, ops[i]))
  }

  /** The operation changes no container above the document it is written for. */
  predicate Inside(op: Op) {
    match op
    case Add(p, _) => p != []
    case Remove(p) => p != []
    case Replace(_, _) => true
    case Move(from, p) => from != [] && p != []
    case Copy(_, p) => p != []
    case Test(_, _) => true
  }

  ghost predicate AllInside(ops: seq<Op>) {
    forall i | 0 <= i < |ops| :: Inside(ops[i])
  }

  lemma LiftInside(prefix: Pointer, ops: seq<Op>)
    requires AllInside(ops)
    ensures AllInside(Lift(prefix, ops))
  {
    forall i | 0 <= i < |ops| ensures Inside(Lift(prefix, ops)[i]) { assert Inside(ops[i]); }
  }

  lemma {:induction false} EditUnder(j: Json, k: string, p: Pointer, e: Edit)
    requires Child(j, k).Ok?
    ensures EditAt(j, [k] + p, e) ==
            match EditAt(Child(j, k).value, p, e) case Err(x) => Err(x) case Ok(c) => Ok(SetChild(j, k, c))
  {
    assert ([k] + p)[1..] == p;
  }

  lemma {:induction false} AtUnder(j: Json, k: string, p: Pointer)
    requires Child(j, k).Ok?
    ensures At(j, [k] + p) == At(Child(j, k).value, p)
  {
    assert ([k] + p)[1..] == p;
  }

  lemma AddUnder(j: Json, k: string, p: Pointer, v: Json)
    requires Child(j, k).Ok? && p != []
    ensures AddAt(j, [k] + p, v) ==
            match AddAt(Child(j, k).value, p, v) case Err(x) => Err(x) case Ok(c) => Ok(SetChild(j, k, c))
  {
    assert Parent([k] + p) == [k] + Parent(p);
    EditUnder(j, k, Parent(p), Put(Last(p), v));
  }

  lemma RemoveUnder(j: Json, k: string, p: Pointer)
    requires Child(j, k).Ok? && p != []
    ensures RemoveAt(j, [k] + p) ==
            match RemoveAt(Child(j, k).value, p) case Err(x) => Err(x) case Ok(c) => Ok(SetChild(j, k, c))
  {
    assert Parent([k] + p) == [k] + Parent(p);
    EditUnder(j, k, Parent(p), Drop(Last(p)));
  }

  lemma StepUnder(j: Json, k: string, op: Op)
    requires Child(j, k).Ok? && Inside(op)
    ensures var o := Step(Child(j, k).value, op);
            Step(j, LiftOp([k], op)) == Outcome(SetChild(j, k, o.doc), o.status)
  {
    var c := Child(j, k).value;
    SetChildFrame(j, k, c);
    match op
    case Add(p, v) => AddUnder(j, k, p, v);
    case Remove(p) => RemoveUnder(j, k, p);
    case Replace(p, v) => EditUnder(j, k, p, Assign(v));
    case Move(from, p) =>
      AtUnder(j, k, from);
      RemoveUnder(j, k, from);
      if At(c, from).Ok? && RemoveAt(c, from).Ok? {
        var removed := RemoveAt(c, from).value;
        SetChildFrame(j, k, removed);
        AddUnder(SetChild(j, k, removed), k, p, At(c, from).value);
      }
    case Copy(from, p) =>
      AtUnder(j, k, from);
      if At(c, from).Ok? { AddUnder(j, k, p, At(c, from).value); }
    case Test(p, v) => AtUnder(j, k, p);
  }

  /**
   A patch written for a child, failing or not, acts on that child exactly as on the child alone;
   `SetChildFrame` says that nothing beside the child changes.
   */
  lemma {:induction false} Locality(j: Json, k: string, ops: seq<Op>)
    requires Child(j, k).Ok?
    requires AllInside(ops)
    ensures var o := Run(Child(j, k).value, ops);
            Run(j, Lift([k], ops)) == Outcome(SetChild(j, k, o.doc), o.status)
    decreases |ops|
  {
    var c := Child(j, k).value;
    SetChildFrame(j, k, c);
    if ops != [] {
      StepUnder(j, k, ops[0]);
      var o := Step(c, ops[0]);
      var next := SetChild(j, k, o.doc);
      SetChildFrame(j, k, o.doc);
      assert Lift([k], ops)[1..] == Lift([k], ops[1..]);
      if o.status.Done? { Locality(next, k, ops[1..]); }
    }
  }

  /** The general form: the same for any pointer to an existing value. */
  lemma {:induction false} DeepLocality(j: Json, prefix: Pointer, ops: seq<Op>)
    requires At(j, prefix).Ok?
    requires AllInside(ops)
    ensures var o := Run(At(j, prefix).value, ops);
            var r := Run(j, Lift(prefix, ops));
            r.status == o.status && EditAt(j, prefix, Assign(o.doc)) == Ok(r.doc)
  {
    if prefix == [] {
      assert Lift(prefix, ops) == ops by {
        forall i | 0 <= i < |ops| ensures LiftOp([], ops[i]) == ops[i] { LiftNothing(ops[i]); }
      }
    } else {
      var k, rest := prefix[0], prefix[1..];
      var inner := Lift(rest, ops);
      DeepLocality(Child(j, k).value, rest, ops);
      assert Lift(prefix, ops) == Lift([k], inner) by {
        assert prefix == [k] + rest;
        LiftTwice([k], rest, ops);
      }
      LiftInside(rest, ops);
      Locality(j, k, inner);
    }
  }

  lemma LiftNothing(op: Op)
    ensures LiftOp([], op) == op
  {
    match op
    case Add(p, _) => assert [] + p == p;
    case Remove(p) => assert [] + p == p;
    case Replace(p, _) => assert [] + p == p;
    case Move(from, p) => assert [] + p == p && [] + from == from;
    case Copy(from, p) => assert [] + p == p && [] + from == from;
    case Test(p, _) => assert [] + p == p;
  }

  lemma LiftTwice(p: Pointer, q: Pointer, ops: seq<Op>)
    ensures Lift(p, Lift(q, ops)) == Lift(p + q, ops)
  {
    assert forall r: Pointer :: p + (q + r) == (p + q) + r;
  }

  // ---------------------------------------------------------------- inverses

  /** A token that "add" accepts and that denotes a definite place: an absent key or an index. */
  predicate Addable(parent: Json, token: string) {
    match parent
    case Object(m) => token !in m
    case Array(a) => ArrayIndex(token).Ok? && ArrayIndex(token).value <= |a|
    case _ => false
  }

  /** Two edits at one place compose into the two edits of the value there. */
  lemma {:induction false} EditTwice(j: Json, p: Pointer, e: Edit, f: Edit)
    requires EditAt(j, p, e).Ok?
    ensures At(j, p).Ok?
    ensures At(EditAt(j, p, e).value, p) == EditHere(At(j, p).value, e)
    ensures At(EditAt(j, p, e).value, p).Ok?
    ensures EditAt(EditAt(j, p, e).value, p, f) ==
            match EditHere(At(EditAt(j, p, e).value, p).value, f)
            case Err(x) => Err(x)
            case Ok(v) => EditAt(j, p, Assign(v))
  {
    if p != [] {
      var c := Child(j, p[0]).value;
      EditTwice(c, p[1..], e, f);
      SetChildFrame(j, p[0], EditAt(c, p[1..], e).value);
    }
  }

  lemma PutDropHere(parent: Json, token: string, v: Json)
    requires Addable(parent, token)
    ensures PutChild(parent, token, v).Ok?
    ensures DropChild(PutChild(parent, token, v).value, token) == Ok(parent)
  {
    match parent
    case Object(m) => assert m[token := v] - {token} == m;
    case Array(a) =>
      assert ArrayIndex("-").Err? by { assert '-' in "-"; }
      var i := ArrayIndex(token).value;
      var b := a[..i] + [v] + a[i..];
      assert b[..i] + b[i + 1..] == a;
  }

  lemma DropPutHere(parent: Json, token: string, v: Json)
    requires Child(parent, token).Ok?
    ensures DropChild(parent, token).Ok?
    ensures PutChild(DropChild(parent, token).value, token, v) == Ok(SetChild(parent, token, v))
  {
    match parent
    case Object(m) => assert (m - {token})[token := v] == m[token := v];
    case Array(a) =>
      var i := ArrayIndex(token).value;
      var b := a[..i] + a[i + 1..];
      assert b[..i] + [v] + b[i..] == a[i := v];
  }

  /** "add" and then "remove" at the same pointer gives the document back, at any depth. */
  lemma AddThenRemove(j: Json, p: Pointer, v: Json)
    requires p != [] && At(j, Parent(p)).Ok? && Addable(At(j, Parent(p)).value, Last(p))
    ensures Run(j, [Add(p, v), Remove(p)]) == Outcome(j, Done)
  {
    var e, f := Put(Last(p), v), Drop(Last(p));
    PutDropHere(At(j, Parent(p)).value, Last(p), v);
    EditDefined(j, Parent(p), e);
    EditTwice(j, Parent(p), e, f);
    AssignSame(j, Parent(p));
    RunTwo(j, Add(p, v), Remove(p));
  }

  /** "remove" and then "add" of the removed value gives the document back, at any depth. */
  lemma RemoveThenAdd(j: Json, p: Pointer)
    requires p != [] && At(j, p).Ok?
    ensures Run(j, [Remove(p), Add(p, At(j, p).value)]) == Outcome(j, Done)
  {
    AtLast(j, p);
    var e, f := Drop(Last(p)), Put(Last(p), At(j, p).value);
    DropPutHere(At(j, Parent(p)).value, Last(p), At(j, p).value);
    SetChildFrame(At(j, Parent(p)).value, Last(p), At(j, p).value);
    EditDefined(j, Parent(p), e);
    EditTwice(j, Parent(p), e, f);
    AssignSame(j, Parent(p));
    RunTwo(j, Remove(p), Add(p, At(j, p).value));
  }

  /** RFC 6902 section 4.3: "replace" is "remove" followed by "add" at the same place. */
  lemma ReplaceIsRemoveThenAdd(j: Json, p: Pointer, v: Json)
    requires p != [] && At(j, p).Ok?
    ensures Run(j, [Remove(p), Add(p, v)]) == Step(j, Replace(p, v))
    ensures Step(j, Replace(p, v)).status.Done?
    ensures At(Step(j, Replace(p, v)).doc, p) == Ok(v)
  {
    AtLast(j, p);
    var parent := At(j, Parent(p)).value;
    var e, f := Drop(Last(p)), Put(Last(p), v);
    DropPutHere(parent, Last(p), v);
    EditDefined(j, Parent(p), e);
    EditTwice(j, Parent(p), e, f);
    RunTwo(j, Remove(p), Add(p, v));
    AssignLast(j, p, v);
    EditDefined(j, p, Assign(v));
    EditTwice(j, p, Assign(v), Assign(v));
  }

  lemma RunTwo(j: Json, a: Op, b: Op)
    requires Step(j, a).status.Done?
    ensures Run(j, [a, b]) == Step(Step(j, a).doc, b)
  {
    assert [a, b][1..] == [b];
    RunOne(Step(j, a).doc, b);
  }

  // ---------------------------------------------------------------- move, copy, test

  /** "move" is "remove" of the source followed by "add" of the value that stood there. */
  lemma MoveIsRemoveThenAdd(j: Json, from: Pointer, p: Pointer)
    requires At(j, from).Ok?
    ensures Step(j, Move(from, p)) == Run(j, [Remove(from), Add(p, At(j, from).value)])
  {
    if RemoveAt(j, from).Ok? { RunTwo(j, Remove(from), Add(p, At(j, from).value)); }
  }

  /** Moving a value onto its own place changes nothing. */
  lemma MoveToItself(j: Json, p: Pointer)
    requires p != [] && At(j, p).Ok?
    ensures Step(j, Move(p, p)) == Outcome(j, Done)
  {
    RemoveThenAdd(j, p);
    MoveIsRemoveThenAdd(j, p, p);
  }

  /** A copied value can be read, tested and removed again at its new place. */
  lemma CopyThenRemove(j: Json, from: Pointer, p: Pointer)
    requires p != [] && At(j, Parent(p)).Ok? && Addable(At(j, Parent(p)).value, Last(p))
    requires At(j, from).Ok?
    ensures var v := At(j, from).value;
      && Run(j, [Copy(from, p), Remove(p)]) == Outcome(j, Done)
      && At(Step(j, Copy(from, p)).doc, p) == Ok(v)
      && Step(Step(j, Copy(from, p)).doc, Test(p, v)).status == Done
  {
    var v := At(j, from).value;
    AddThenRemove(j, p, v);
    var e := Put(Last(p), v);
    PutDropHere(At(j, Parent(p)).value, Last(p), v);
    EditDefined(j, Parent(p), e);
    RunTwo(j, Copy(from, p), Remove(p));
    RunTwo(j, Add(p, v), Remove(p));
    EditTwice(j, Parent(p), e, e);
    var doc := Step(j, Copy(from, p)).doc;
    AtLast(doc, p);
    EqualReflexive(v);
  }
}
