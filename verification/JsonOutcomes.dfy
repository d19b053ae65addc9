/** When each operation of a patch succeeds, and what can be read from the document afterwards. */
module JsonOutcomes {
  import opened JsonValue
  import opened JsonPointer
  import opened JsonPatch
  import opened JsonPatchLaws

  // ---------------------------------------------------------------- test

  /** "test" passes exactly when the place exists and holds a value equal to the given one; it changes nothing. */
  lemma TestOutcome(j: Json, p: Pointer, v: Json)
    ensures Step(j, Test(p, v)).doc == j
    ensures Step(j, Test(p, v)).status.Done? <==> At(j, p).Ok? && Equal(At(j, p).value, v)
  {
  }

  /** A value that has just been added passes exactly the tests for values equal to it. */
  lemma AddThenTest(j: Json, p: Pointer, v: Json, w: Json)
    requires p != [] && At(j, Parent(p)).Ok? && Addable(At(j, Parent(p)).value, Last(p))
    ensures Run(j, [Add(p, v), Test(p, w)]).status.Done? <==> Equal(v, w)
  {
    AddReads(j, p, v);
    RunTwo(j, Add(p, v), Test(p, w));
  }

  /**
   A patch that starts with a test is the rest of it when the test passes. Otherwise nothing is changed, and
   the error is 501, or that of the pointer when it cannot be followed for another reason than its range.
   */
  lemma GuardedPatch(j: Json, p: Pointer, v: Json, ops: seq<Op>)
    ensures Run(j, [Test(p, v)] + ops) ==
            match At(j, p)
            case Ok(found) => if Equal(found, v) then Run(j, ops) else Outcome(j, Failed(TestFailed))
            case Err(e) => Outcome(j, Failed(if e.OutOfRange() then TestFailed else e))
  {
    RunConcat(j, [Test(p, v)], ops);
    RunOne(j, Test(p, v));
  }

  // ---------------------------------------------------------------- add

  /** A container or null takes a new member; an array takes one at its end or at an index in range. */
  predicate Takes(parent: Json, token: string) {
    || parent.Null? || parent.Object?
    || (parent.Array? && (token == "-" || (ArrayIndex(token).Ok? && ArrayIndex(token).value <= |parent.elems|)))
  }

  /** "add" succeeds exactly at the root and where the parent exists and takes the value. */
  lemma AddOutcome(j: Json, p: Pointer, v: Json)
    ensures Step(j, Add(p, v)).status.Done? <==>
            p == [] || (At(j, Parent(p)).Ok? && Takes(At(j, Parent(p)).value, Last(p)))
    ensures Step(j, Add(p, v)).status.Failed? ==> Step(j, Add(p, v)).doc == j
  {
    if p != [] {
      EditByAssign(j, Parent(p), Put(Last(p), v));
      if At(j, Parent(p)).Ok? { EditDefined(j, Parent(p), Put(Last(p), v)); }
    }
  }

  /** The value is found where it was added; with "-" that is behind all other elements. */
  lemma AddReads(j: Json, p: Pointer, v: Json)
    requires p != [] && At(j, Parent(p)).Ok? && Takes(At(j, Parent(p)).value, Last(p))
    ensures Step(j, Add(p, v)).status.Done?
    ensures Last(p) != "-" || !At(j, Parent(p)).value.Array? ==> At(Step(j, Add(p, v)).doc, p) == Ok(v)
    ensures var parent, after := At(j, Parent(p)).value, At(Step(j, Add(p, v)).doc, Parent(p));
            after.Ok? && Grown(parent, after.value, Last(p), v)
  {
    var e := Put(Last(p), v);
    EditByAssign(j, Parent(p), e);
    EditDefined(j, Parent(p), e);
    EditTwice(j, Parent(p), e, e);
    AtLast(Step(j, Add(p, v)).doc, p);
  }

  /** How the parent has changed: one member more or written over, or one element more and the later ones moved. */
  ghost predicate Grown(parent: Json, after: Json, token: string, v: Json) {
    if parent.Array? then
      var n := if token == "-" || ArrayIndex(token).Err? then |parent.elems| else ArrayIndex(token).value;
      && after.Array? && n <= |parent.elems| && |after.elems| == |parent.elems| + 1 && after.elems[n] == v
      && (forall i | 0 <= i < n :: after.elems[i] == parent.elems[i])
      && (forall i | n < i < |after.elems| :: after.elems[i] == parent.elems[i - 1])
    else
      && after.Object? && token in after.members && after.members[token] == v
      && (forall k | k != token :: k in after.members <==> parent.Object? && k in parent.members)
      && (forall k | k != token && k in after.members :: after.members[k] == parent.members[k])
  }

  // ---------------------------------------------------------------- remove

  /** "remove" succeeds exactly below an existing parent whose child exists, or which is no container at all. */
  lemma RemoveOutcome(j: Json, p: Pointer)
    ensures Step(j, Remove(p)).status.Done? <==>
            p != [] && At(j, Parent(p)).Ok? &&
            var parent := At(j, Parent(p)).value;
            (!parent.Array? && !parent.Object?) || Child(parent, Last(p)).Ok?
    ensures Step(j, Remove(p)).status.Failed? ==> Step(j, Remove(p)).doc == j
  {
    if p != [] {
      EditByAssign(j, Parent(p), Drop(Last(p)));
      if At(j, Parent(p)).Ok? { EditDefined(j, Parent(p), Drop(Last(p))); }
    }
  }

  /** The member is gone, or the element is and the later ones have moved up; no container means no change. */
  lemma RemoveReads(j: Json, p: Pointer)
    requires Step(j, Remove(p)).status.Done?
    ensures p != [] && At(j, Parent(p)).Ok?
    ensures var parent, after := At(j, Parent(p)).value, At(Step(j, Remove(p)).doc, Parent(p));
            after.Ok? && Shrunk(parent, after.value, Last(p))
    ensures !At(j, Parent(p)).value.Array? && !At(j, Parent(p)).value.Object? ==> Step(j, Remove(p)).doc == j
  {
    var e := Drop(Last(p));
    EditByAssign(j, Parent(p), e);
    EditDefined(j, Parent(p), e);
    EditTwice(j, Parent(p), e, e);
    AssignSame(j, Parent(p));
  }

  ghost predicate Shrunk(parent: Json, after: Json, token: string) {
    if parent.Array? then
      && after.Array? && ArrayIndex(token).Ok? && ArrayIndex(token).value < |parent.elems| == |after.elems| + 1
      && var n := ArrayIndex(token).value;
      && (forall i | 0 <= i < n :: after.elems[i] == parent.elems[i])
      && (forall i | n <= i < |after.elems| :: after.elems[i] == parent.elems[i + 1])
    else if parent.Object? then
      && after.Object? && token !in after.members
      && (forall k | k != token :: k in after.members <==> k in parent.members)
      && (forall k | k in after.members :: k in parent.members && after.members[k] == parent.members[k])
    else after == parent
  }

  // ---------------------------------------------------------------- replace, copy, move

  /** "replace" succeeds exactly at an existing place, the root included, and the value is found there. */
  lemma ReplaceOutcome(j: Json, p: Pointer, v: Json)
    ensures Step(j, Replace(p, v)).status.Done? <==> At(j, p).Ok?
    ensures At(j, p).Err? ==> Step(j, Replace(p, v)) == Outcome(j, Failed(At(j, p).error))
    ensures At(j, p).Ok? ==> At(Step(j, Replace(p, v)).doc, p) == Ok(v)
  {
    EditByAssign(j, p, Assign(v));
    if At(j, p).Ok? {
      EditDefined(j, p, Assign(v));
      EditTwice(j, p, Assign(v), Assign(v));
    }
  }

  /** "copy" is "add" of the value at its source, and fails where there is none. */
  lemma CopyIsAdd(j: Json, from: Pointer, p: Pointer)
    ensures At(j, from).Ok? ==> Step(j, Copy(from, p)) == Step(j, Add(p, At(j, from).value))
    ensures At(j, from).Err? ==> Step(j, Copy(from, p)) == Outcome(j, Failed(At(j, from).error))
  {
  }

  /** A move whose target does not exist any more has removed its source all the same. */
  lemma FailedMoveRemoves(j: Json, from: Pointer, p: Pointer)
    requires At(j, from).Ok? && Step(j, Remove(from)).status.Done?
    requires Step(Step(j, Remove(from)).doc, Add(p, At(j, from).value)).status.Failed?
    ensures Step(j, Move(from, p)).status.Failed? && Step(j, Move(from, p)).doc == Step(j, Remove(from)).doc
  {
    MoveIsRemoveThenAdd(j, from, p);
    RunTwo(j, Remove(from), Add(p, At(j, from).value));
  }
}
