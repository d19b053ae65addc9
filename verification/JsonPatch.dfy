/**
 Application of JSON Patch operations (RFC 6902), as `patch_inplace` performs it.
 */
module JsonPatch {
  import opened JsonValue
  import opened JsonPointer

  datatype Op =
    | Add(path: Pointer, value: Json)
    | Remove(path: Pointer)
    | Replace(path: Pointer, value: Json)
    | Move(from: Pointer, path: Pointer)
    | Copy(from: Pointer, path: Pointer)
    | Test(path: Pointer, value: Json)

  datatype Status = Done | Failed(error: Error)

  /** The document a patch leaves behind; a failure keeps whatever was done before it. */
  datatype Outcome = Outcome(doc: Json, status: Status)

  // ---------------------------------------------------------------- edits of one place

  datatype Edit = Put(token: string, value: Json) | Drop(token: string) | Assign(value: Json)

  /** What "add" does to the parent of its target. */
  function PutChild(parent: Json, token: string, v: Json): Result<Json> {
    match parent
    case Null => Ok(Object(map[token := v])) // operator[] turns null into an object
    case Object(m) => Ok(Object(m[token := v]))
    case Array(a) =>
      if token == "-" then Ok(Array(a + [v])) else
        var i :- ArrayIndex(token);
        if i > |a| then Err(IndexOutOfRange) else Ok(Array(a[..i] + [v] + a[i..]))
    case _ => Err(PrimitiveParent)
  }

  /** What "remove" does to the parent of its target; a parent that is no container is left alone. */
  function DropChild(parent: Json, token: string): Result<Json> {
    match parent
    case Object(m) =>
      if token in m then Ok(Object(m - {token})) else Err(KeyNotFound)
    case Array(a) =>
      var i :- ArrayIndex(token);
      if i >= |a| then Err(IndexOutOfRange) else Ok(Array(a[..i] + a[i + 1..]))
    case _ => Ok(parent)
  }

  function EditHere(j: Json, e: Edit): Result<Json> {
    match e
    case Put(token, v) => PutChild(j, token, v)
    case Drop(token) => DropChild(j, token)
    case Assign(v) => Ok(v)
  }

  /** The edit at the place a pointer denotes, seen from the root. */
  function EditAt(j: Json, p: Pointer, e: Edit): Result<Json> {
    if p == [] then EditHere(j, e) else
      var child :- Child(j, p[0]);
      var child' :- EditAt(child, p[1..], e);
      Ok(SetChild(j, p[0], child'))
  }

  // ---------------------------------------------------------------- operations

  function Parent(p: Pointer): Pointer
    requires p != []
  {
    p[..|p| - 1]
  }

  function Last(p: Pointer): string
    requires p != []
  {
    p[|p| - 1]
  }

  function AddAt(j: Json, p: Pointer, v: Json): Result<Json> {
    if p == [] then Ok(v) else EditAt(j, Parent(p), Put(Last(p), v))
  }

  function RemoveAt(j: Json, p: Pointer): Result<Json> {
    if p == [] then Err(NoParent) else EditAt(j, Parent(p), Drop(Last(p)))
  }

  function Commit(j: Json, r: Result<Json>): Outcome {
    match r
    case Ok(doc) => Outcome(doc, Done)
    case Err(e) => Outcome(j, Failed(e))
  }

  /** One operation; only a failing "move" can leave a changed document. */
  function Step(j: Json, op: Op): Outcome {
    match op
    case Add(p, v) => Commit(j, AddAt(j, p, v))
    case Remove(p) => Commit(j, RemoveAt(j, p))
    case Replace(p, v) => Commit(j, EditAt(j, p, Assign(v)))
    case Move(from, p) =>
      (match At(j, from)
       case Err(e) => Outcome(j, Failed(e))
       case Ok(v) =>
         match RemoveAt(j, from)
         case Err(e) => Outcome(j, Failed(e))
         case Ok(removed) => Commit(removed, AddAt(removed, p, v)))
    case Copy(from, p) =>
      (match At(j, from)
       case Err(e) => Outcome(j, Failed(e))
       case Ok(v) => Commit(j, AddAt(j, p, v)))
    case Test(p, v) =>
      (match At(j, p)
       case Err(e) => Outcome(j, Failed(if e.OutOfRange() then TestFailed else e))
       case Ok(found) => Outcome(j, if Equal(found, v) then Done else Failed(TestFailed)))
  }

  /** A patch runs its operations in order and stops at the first failure. */
  function Run(j: Json, ops: seq<Op>): Outcome
    decreases |ops|
  {
    if ops == [] then Outcome(j, Done) else
      var o := Step(j, ops[0]);
      if o.status.Failed? then o else Run(o.doc, ops[1..])
  }

  lemma {:induction false} RunConcat(j: Json, a: seq<Op>, b: seq<Op>)
    decreases |a|
    ensures Run(j, a + b) == if Run(j, a).status.Failed? then Run(j, a) else Run(Run(j, a).doc, b)
  {
    if a == [] {
      assert a + b == b;
    } else {
      assert (a + b)[0] == a[0] && (a + b)[1..] == a[1..] + b;
      RunConcat(Step(j, a[0]).doc, a[1..], b);
    }
  }

  lemma RunOne(j: Json, op: Op)
    ensures Run(j, [op]) == Step(j, op)
  {
    assert Run(Step(j, op).doc, [op][1..]) == Outcome(Step(j, op).doc, Done);
  }

  // ---------------------------------------------------------------- following a pointer

  /** A pointer is followed by following all but its last token and then that one. */
  lemma {:induction false} AtLast(j: Json, p: Pointer)
    requires p != []
    ensures At(j, p) ==
            match At(j, Parent(p)) case Err(e) => Err(e) case Ok(parent) => Child(parent, Last(p))
  {
    if |p| == 1 {
      assert p[1..] == [] && Parent(p) == [];
    } else if Child(j, p[0]).Ok? {
      AtLast(Child(j, p[0]).value, p[1..]);
      assert Parent(p)[1..] == Parent(p[1..]);
    }
  }

  lemma {:induction false} AssignLast(j: Json, p: Pointer, v: Json)
    requires p != [] && At(j, p).Ok?
    ensures At(j, Parent(p)).Ok? && Child(At(j, Parent(p)).value, Last(p)).Ok?
    ensures EditAt(j, p, Assign(v)) ==
            EditAt(j, Parent(p), Assign(SetChild(At(j, Parent(p)).value, Last(p), v)))
  {
    AtLast(j, p);
    if |p| == 1 {
      assert p[1..] == [] && Parent(p) == [];
    } else {
      AssignLast(Child(j, p[0]).value, p[1..], v);
      assert Parent(p)[1..] == Parent(p[1..]);
    }
  }

  lemma {:induction false} AtPrefix(j: Json, p: Pointer, i: nat)
    requires i <= |p| && At(j, p[..i]).Err?
    ensures At(j, p) == At(j, p[..i])
    decreases |p| - i
  {
    if i < |p| {
      assert Parent(p[..i + 1]) == p[..i];
      AtLast(j, p[..i + 1]);
      AtPrefix(j, p, i + 1);
    } else {
      assert p[..i] == p;
    }
  }

  lemma {:induction false} EditDefined(j: Json, p: Pointer, e: Edit)
    requires At(j, p).Ok?
    ensures EditAt(j, p, e).Ok? <==> EditHere(At(j, p).value, e).Ok?
    ensures EditAt(j, p, e).Err? ==> EditAt(j, p, e) == EditHere(At(j, p).value, e)
  {
    if p != [] { EditDefined(Child(j, p[0]).value, p[1..], e); }
  }

  /** An edit is made by going to its place, changing the value there, and assigning it. */
  lemma {:induction false} EditByAssign(j: Json, p: Pointer, e: Edit)
    ensures EditAt(j, p, e) ==
            match At(j, p)
            case Err(x) => Err(x)
            case Ok(v) => match EditHere(v, e) case Err(x) => Err(x) case Ok(w) => EditAt(j, p, Assign(w))
  {
    if p != [] && Child(j, p[0]).Ok? { EditByAssign(Child(j, p[0]).value, p[1..], e); }
  }

  lemma {:induction false} AssignSame(j: Json, p: Pointer)
    requires At(j, p).Ok?
    ensures EditAt(j, p, Assign(At(j, p).value)) == Ok(j)
  {
    if p != [] {
      AssignSame(Child(j, p[0]).value, p[1..]);
      SetChildFrame(j, p[0], Child(j, p[0]).value);
    }
  }

  /** The values on the way from the root to the place a pointer denotes. */
  ghost predicate OnTheWay(j: Json, p: Pointer, way: seq<Json>) {
    |way| == |p| + 1 && forall i | 0 <= i <= |p| :: At(j, p[..i]) == Ok(way[i])
  }

  // ---------------------------------------------------------------- the class that is patched

  /** A JSON value whose member functions change it in place. */
  class Document {
    var root: Json

    constructor (j: Json)
      ensures root == j
    {
      root := j;
    }

    /** at: follows the pointer token by token, and remembers the values it comes by. */
    method Follow(p: Pointer) returns (r: Result<seq<Json>>)
      ensures match At(root, p) case Err(e) => r == Err(e) case Ok(_) => r.Ok? && OnTheWay(root, p, r.value)
    {
      var way := [root];
      for i := 0 to |p|
        invariant |way| == i + 1 && forall k | 0 <= k <= i :: At(root, p[..k]) == Ok(way[k])
      {
        var next := Child(way[i], p[i]);
        assert Parent(p[..i + 1]) == p[..i] && Last(p[..i + 1]) == p[i];
        AtLast(root, p[..i + 1]);
        if next.Err? {
          AtPrefix(root, p, i + 1);
          return Err(next.error);
        }
        way := way + [next.value];
      }
      assert p[..|p|] == p;
      r := Ok(way);
    }

    /** Writes through the reference that at has returned: each value on the way has a changed child. */
    method Store(p: Pointer, way: seq<Json>, v: Json)
      requires OnTheWay(root, p, way)
      modifies this
      ensures EditAt(old(root), p, Assign(v)) == Ok(root)
    {
      var i, changed := |p|, v;
      assert p[..|p|] == p;
      while i > 0
        invariant 0 <= i <= |p| && root == old(root)
        invariant EditAt(root, p, Assign(v)) == EditAt(root, p[..i], Assign(changed))
      {
        assert Parent(p[..i]) == p[..i - 1] && Last(p[..i]) == p[i - 1];
        AtLast(root, p[..i]);
        AssignLast(root, p[..i], changed);
        i := i - 1;
        changed := SetChild(way[i], p[i], changed);
      }
      assert p[..0] == [];
      root := changed;
    }

    /** operation_add: checks the first token, takes the parent, then adds to it. */
    method OperationAdd(p: Pointer, v: Json) returns (status: Status)
      modifies this
      ensures Outcome(root, status) == Commit(old(root), AddAt(old(root), p, v))
    {
      if p == [] {
        root := v;
        return Done;
      }
      if |p| > 1 {
        var top := Follow([p[0]]);
        if top.Err? {
          AtOne(root, p[0]);
          return Failed(top.error);
        }
      }
      var token := Last(p);
      EditByAssign(root, Parent(p), Put(token, v));
      var way := Follow(Parent(p));
      if way.Err? { return Failed(way.error); }
      var parent := way.value[|p| - 1];
      assert Parent(p)[..|p| - 1] == Parent(p);
      status := Done;
      match parent
      case Null =>
        Store(Parent(p), way.value, Object(map[token := v]));
      case Object(m) =>
        Store(Parent(p), way.value, Object(m[token := v]));
      case Array(a) =>
        if token == "-" {
          Store(Parent(p), way.value, Array(a + [v]));
        } else {
          var index := ArrayIndex(token);
          if index.Err? { return Failed(index.error); }
          if index.value > |a| { return Failed(IndexOutOfRange); }
          Store(Parent(p), way.value, Array(a[..index.value] + [v] + a[index.value..]));
        }
      case _ =>
        return Failed(PrimitiveParent);
    }

    /** operation_remove: a parent that is no container is left alone. */
    method OperationRemove(p: Pointer) returns (status: Status)
      modifies this
      ensures Outcome(root, status) == Commit(old(root), RemoveAt(old(root), p))
    {
      if p == [] { return Failed(NoParent); }
      var token := Last(p);
      EditByAssign(root, Parent(p), Drop(token));
      var way := Follow(Parent(p));
      if way.Err? { return Failed(way.error); }
      var parent := way.value[|p| - 1];
      assert Parent(p)[..|p| - 1] == Parent(p);
      status := Done;
      match parent
      case Object(m) =>
        if token !in m { return Failed(KeyNotFound); }
        Store(Parent(p), way.value, Object(m - {token}));
      case Array(a) =>
        var index := ArrayIndex(token);
        if index.Err? { return Failed(index.error); }
        if index.value >= |a| { return Failed(IndexOutOfRange); }
        Store(Parent(p), way.value, Array(a[..index.value] + a[index.value + 1..]));
      case _ =>
        AssignSame(root, Parent(p));
    }

    method Apply(op: Op) returns (status: Status)
      modifies this
      ensures Outcome(root, status) == Step(old(root), op)
    {
      match op
      case Add(p, v) =>
        status := OperationAdd(p, v);
      case Remove(p) =>
        status := OperationRemove(p);
      case Replace(p, v) =>
        EditByAssign(root, p, Assign(v));
        var way := Follow(p);
        if way.Err? { return Failed(way.error); }
        Store(p, way.value, v);
        status := Done;
      case Move(from, p) =>
        var v := At(root, from);
        if v.Err? { return Failed(v.error); }
        status := OperationRemove(from);
        if status.Done? { status := OperationAdd(p, v.value); }
      case Copy(from, p) =>
        var v := At(root, from);
        if v.Err? { return Failed(v.error); }
        status := OperationAdd(p, v.value);
      case Test(p, v) =>
        var found := At(root, p);
        if found.Err? && !found.error.OutOfRange() { return Failed(found.error); }
        status := if found.Ok? && Equal(found.value, v) then Done else Failed(TestFailed);
    }

    /** patch_inplace: an exception leaves the operations before it applied. */
    method PatchInplace(ops: seq<Op>) returns (status: Status)
      modifies this
      ensures Outcome(root, status) == Run(old(root), ops)
    {
      var i := 0;
      status := Done;
      while i < |ops| && status.Done?
        invariant i <= |ops|
        invariant status.Done? ==> Run(old(root), ops) == Run(root, ops[i..])
        invariant status.Failed? ==> Run(old(root), ops) == Outcome(root, status)
      {
        status := Apply(ops[i]);
        i := i + 1;
      }
    }

    /** patch: the same on a copy, so a failure yields no document at all. */
    method Patch(ops: seq<Op>) returns (r: Result<Json>)
      ensures r == var o := Run(root, ops); if o.status.Done? then Ok(o.doc) else Err(o.status.error)
    {
      var copy := new Document(root);
      var status := copy.PatchInplace(ops);
      r := if status.Done? then Ok(copy.root) else Err(status.error);
    }
  }
}
