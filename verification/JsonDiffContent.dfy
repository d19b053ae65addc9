/** What a difference consists of: operations for what has changed, and for nothing else. */
module JsonDiffContent {
  import opened JsonValue
  import opened JsonPointer
  import opened JsonPatch
  import opened JsonPatchLaws
  import opened JsonEquality
  import opened JsonDiff

  // ---------------------------------------------------------------- the result

  /** For a target without numbers the result of the patch is the target itself. */
  lemma DiffPatchExact(s: Json, t: Json)
    requires NumberFree(t)
    ensures Run(s, Diff(s, t)) == Outcome(t, Done)
  {
    DiffPatch(s, t);
    NumberFreeEqual(Run(s, Diff(s, t)).doc, t);
  }

  /** And for any target, the result has the same value at the same places as the target. */
  lemma DiffPatchPlaces(s: Json, t: Json, p: Pointer)
    ensures SameAt(Run(s, Diff(s, t)).doc, t, p)
  {
    DiffPatch(s, t);
    EqualAt(Run(s, Diff(s, t)).doc, t, p);
  }

  // ---------------------------------------------------------------- operations below one token

  predicate IsBelow(op: Op, token: string) { op.path != [] && op.path[0] == token }

  /** The operations whose pointers begin with the token, in their order. */
  function Below(ops: seq<Op>, token: string): seq<Op> {
    if ops == [] then [] else
      var init, last := ops[..|ops| - 1], ops[|ops| - 1];
      Below(init, token) + if IsBelow(last, token) then [last] else []
  }

  lemma {:induction false} BelowConcat(a: seq<Op>, b: seq<Op>, token: string)
    ensures Below(a + b, token) == Below(a, token) + Below(b, token)
    decreases |b|
  {
    if b == [] {
      assert a + b == a;
    } else {
      var init, last := b[..|b| - 1], b[|b| - 1];
      assert (a + b)[..|a + b| - 1] == a + init;
      BelowConcat(a, init, token);
    }
  }

  lemma BelowEnd(front: seq<Op>, op: Op, token: string)
    ensures Below(front + [op], token) == Below(front, token) + if IsBelow(op, token) then [op] else []
  {
    assert (front + [op])[..|front|] == front;
  }

  lemma LiftEnd(k: string, init: seq<Op>, last: Op)
    ensures Lift([k], init + [last]) == Lift([k], init) + [LiftOp([k], last)]
    ensures IsBelow(LiftOp([k], last), k) && forall token | token != k :: !IsBelow(LiftOp([k], last), token)
  {
  }

  lemma {:induction false} BelowLift(k: string, ops: seq<Op>, token: string)
    ensures Below(Lift([k], ops), token) == if token == k then Lift([k], ops) else []
  {
    if ops != [] {
      var init, last := ops[..|ops| - 1], ops[|ops| - 1];
      assert ops == init + [last];
      LiftEnd(k, init, last);
      BelowLift(k, init, token);
      BelowEnd(Lift([k], init), LiftOp([k], last), token);
    }
  }

  lemma BelowOne(op: Op, token: string)
    ensures Below([op], token) == if IsBelow(op, token) then [op] else []
  {
    assert [op][..0] == [];
  }

  lemma BelowMore(front: seq<Op>, k: string, ops: seq<Op>, token: string)
    ensures Below(front + Lift([k], ops), token) == Below(front, token) + if token == k then Lift([k], ops) else []
  {
    BelowConcat(front, Lift([k], ops), token);
    BelowLift(k, ops, token);
  }

  lemma BelowRemoval(k: string, rest: seq<Op>, token: string)
    ensures Below([Remove([k])] + rest, token) == (if token == k then [Remove([k])] else []) + Below(rest, token)
  {
    BelowConcat([Remove([k])], rest, token);
    BelowOne(Remove([k]), token);
  }

  lemma TokensApart(i: nat, j: nat)
    ensures ToString(i) == ToString(j) <==> i == j
  {
    IndexRoundTrip(i);
    IndexRoundTrip(j);
  }

  // ---------------------------------------------------------------- scalars

  /** Values of different kinds, or two unequal scalars: the whole value is replaced, and nothing else is done. */
  lemma DiffReplaces(s: Json, t: Json)
    requires !Equal(s, t) && !(s.Array? && t.Array?) && !(s.Object? && t.Object?)
    ensures Diff(s, t) == [Replace([], t)]
  {
  }

  /** Two containers of one kind are never replaced as a whole. */
  lemma DiffStaysBelow(s: Json, t: Json, i: nat)
    requires (s.Array? && t.Array?) || (s.Object? && t.Object?)
    requires i < |Diff(s, t)|
    ensures Diff(s, t)[i].path != []
  {
    if !Equal(s, t) {
      if s.Array? {
        CommonUnder(s, t, Min(|s.elems|, |t.elems|));
        RemovalsUnder(Min(|s.elems|, |t.elems|), |s.elems|);
        AppendsUnder(t.elems, |s.elems|, |t.elems|);
      } else {
        OldUnder(s, t, SortedKeys(s.members.Keys));
        NewUnder(s, t, SortedKeys(t.members.Keys));
      }
    }
  }

  predicate Under(ops: seq<Op>) { forall i | 0 <= i < |ops| :: ops[i].path != [] }

  lemma {:induction false} CommonUnder(s: Json, t: Json, n: nat)
    requires s.Array? && t.Array? && n <= |s.elems| && n <= |t.elems|
    ensures Under(CommonElements(s, t, n))
  {
    if n > 0 { CommonUnder(s, t, n - 1); }
  }

  lemma {:induction false} RemovalsUnder(lo: nat, hi: nat)
    ensures Under(Removals(lo, hi))
  {
    if lo < hi { RemovalsUnder(lo, hi - 1); }
  }

  lemma {:induction false} AppendsUnder(b: seq<Json>, lo: nat, hi: nat)
    requires hi <= |b|
    ensures Under(Appends(b, lo, hi))
    decreases hi
  {
    if lo < hi { AppendsUnder(b, lo, hi - 1); }
  }

  lemma {:induction false} OldUnder(s: Json, t: Json, keys: seq<string>)
    requires s.Object? && t.Object? && forall k | k in keys :: k in s.members
    ensures Under(OldMembers(s, t, keys))
    decreases |keys|
  {
    if keys != [] { OldUnder(s, t, keys[..|keys| - 1]); }
  }

  lemma {:induction false} NewUnder(s: Json, t: Json, keys: seq<string>)
    requires s.Object? && t.Object? && forall k | k in keys :: k in t.members
    ensures Under(NewMembers(s, t, keys))
    decreases |keys|
  {
    if keys != [] { NewUnder(s, t, keys[..|keys| - 1]); }
  }

  // ---------------------------------------------------------------- objects

  /**
   For each key, the difference of two objects holds the difference of the two members, or one removal, or
   one addition of the target's member; for a key whose members are equal, or of neither, it holds nothing.
   */
  lemma ObjectDiffAt(s: Json, t: Json, k: string)
    requires s.Object? && t.Object?
    ensures Below(Diff(s, t), k) ==
            if k in s.members && k in t.members then Lift([k], Diff(s.members[k], t.members[k]))
            else if k in s.members then [Remove([k])]
            else if k in t.members then [Add([k], t.members[k])]
            else []
  {
    if !Equal(s, t) {
      var olds, news := SortedKeys(s.members.Keys), SortedKeys(t.members.Keys);
      SortedKeysIncrease(s.members.Keys);
      SortedKeysIncrease(t.members.Keys);
      BelowConcat(OldMembers(s, t, olds), NewMembers(s, t, news), k);
      OldBelow(s, t, olds, k);
      NewBelow(s, t, news, k);
    }
  }

  lemma OldStep(s: Json, t: Json, init: seq<string>, last: string, k: string)
    requires s.Object? && t.Object? && last in s.members && forall x | x in init :: x in s.members
    ensures Below(OldMembers(s, t, init + [last]), k) ==
            Below(OldMembers(s, t, init), k) +
            if k != last then []
            else if k in t.members then Lift([k], Diff(s.members[k], t.members[k])) else [Remove([k])]
  {
    assert (init + [last])[..|init|] == init;
    if last in t.members {
      BelowMore(OldMembers(s, t, init), last, Diff(s.members[last], t.members[last]), k);
    } else {
      BelowEnd(OldMembers(s, t, init), Remove([last]), k);
    }
  }

  lemma {:induction false} OldBelow(s: Json, t: Json, keys: seq<string>, k: string)
    requires s.Object? && t.Object? && (forall x | x in keys :: x in s.members) && Increasing(keys)
    ensures Below(OldMembers(s, t, keys), k) ==
            if k !in keys then []
            else if k in t.members then Lift([k], Diff(s.members[k], t.members[k])) else [Remove([k])]
    decreases |keys|
  {
    if keys != [] {
      var init, last := keys[..|keys| - 1], keys[|keys| - 1];
      assert keys == init + [last] && last !in init;
      OldBelow(s, t, init, k);
      OldStep(s, t, init, last, k);
    }
  }

  lemma NewStep(s: Json, t: Json, init: seq<string>, last: string, k: string)
    requires s.Object? && t.Object? && last in t.members && forall x | x in init :: x in t.members
    ensures Below(NewMembers(s, t, init + [last]), k) ==
            Below(NewMembers(s, t, init), k) + if k == last && k !in s.members then [Add([k], t.members[k])] else []
  {
    assert (init + [last])[..|init|] == init;
    if last in s.members {
      assert NewMembers(s, t, init) + [] == NewMembers(s, t, init);
    } else {
      BelowEnd(NewMembers(s, t, init), Add([last], t.members[last]), k);
    }
  }

  lemma {:induction false} NewBelow(s: Json, t: Json, keys: seq<string>, k: string)
    requires s.Object? && t.Object? && (forall x | x in keys :: x in t.members) && Increasing(keys)
    ensures Below(NewMembers(s, t, keys), k) == if k in keys && k !in s.members then [Add([k], t.members[k])] else []
    decreases |keys|
  {
    if keys != [] {
      var init, last := keys[..|keys| - 1], keys[|keys| - 1];
      assert keys == init + [last] && last !in init;
      NewBelow(s, t, init, k);
      NewStep(s, t, init, last, k);
    }
  }

  // ---------------------------------------------------------------- arrays

  /** The same for an index of two arrays. */
  lemma ArrayDiffAt(s: Json, t: Json, i: nat)
    requires s.Array? && t.Array? && !Equal(s, t)
    ensures Below(Diff(s, t), ToString(i)) ==
            if i < |s.elems| && i < |t.elems| then Lift([ToString(i)], Diff(s.elems[i], t.elems[i]))
            else if i < |s.elems| then [Remove([ToString(i)])]
            else []
  {
    var n := Min(|s.elems|, |t.elems|);
    ThreeParts(s, t, ToString(i));
    CommonBelow(s, t, n, i, ToString(i));
    RemovalsBelow(n, |s.elems|, i, ToString(i));
    IndexRoundTrip(i);
    AppendsBelow(t.elems, |s.elems|, |t.elems|, ToString(i));
  }

  /** What the target has more is appended, in its order. */
  lemma ArrayDiffEnd(s: Json, t: Json)
    requires s.Array? && t.Array? && !Equal(s, t)
    ensures var a, b := s.elems, t.elems;
            Below(Diff(s, t), "-") ==
            if |a| < |b| then seq(|b| - |a|, i requires 0 <= i < |b| - |a| => Add(["-"], b[|a| + i])) else []
  {
    ThreeParts(s, t, "-");
    CommonBelowDash(s, t, Min(|s.elems|, |t.elems|));
    RemovalsBelowDash(Min(|s.elems|, |t.elems|), |s.elems|);
    AppendsBelow(t.elems, |s.elems|, |t.elems|, "-");
    AppendsAre(t.elems, |s.elems|, |t.elems|);
  }

  lemma ThreeParts(s: Json, t: Json, token: string)
    requires s.Array? && t.Array? && !Equal(s, t)
    ensures var n := Min(|s.elems|, |t.elems|);
            Below(Diff(s, t), token) ==
            Below(CommonElements(s, t, n), token) + Below(Removals(n, |s.elems|), token)
            + Below(Appends(t.elems, |s.elems|, |t.elems|), token)
  {
    var n := Min(|s.elems|, |t.elems|);
    var common, removals := CommonElements(s, t, n), Removals(n, |s.elems|);
    BelowConcat(common + removals, Appends(t.elems, |s.elems|, |t.elems|), token);
    BelowConcat(common, removals, token);
  }

  lemma CommonStep(s: Json, t: Json, n: nat, token: string)
    requires s.Array? && t.Array? && 0 < n <= |s.elems| && n <= |t.elems|
    ensures var k, ops := ToString(n - 1), Diff(s.elems[n - 1], t.elems[n - 1]);
            Below(CommonElements(s, t, n), token) ==
            Below(CommonElements(s, t, n - 1), token) + if token == k then Lift([k], ops) else []
  {
    BelowMore(CommonElements(s, t, n - 1), ToString(n - 1), Diff(s.elems[n - 1], t.elems[n - 1]), token);
  }

  lemma {:induction false} CommonBelow(s: Json, t: Json, n: nat, i: nat, token: string)
    requires s.Array? && t.Array? && n <= |s.elems| && n <= |t.elems| && token == ToString(i)
    ensures Below(CommonElements(s, t, n), token) ==
            if i < n then Lift([token], Diff(s.elems[i], t.elems[i])) else []
  {
    if n > 0 {
      CommonBelow(s, t, n - 1, i, token);
      CommonStep(s, t, n, token);
      TokensApart(i, n - 1);
    }
  }

  lemma {:induction false} CommonBelowDash(s: Json, t: Json, n: nat)
    requires s.Array? && t.Array? && n <= |s.elems| && n <= |t.elems|
    ensures Below(CommonElements(s, t, n), "-") == []
  {
    if n > 0 {
      CommonBelowDash(s, t, n - 1);
      CommonStep(s, t, n, "-");
      IndexRoundTrip(n - 1);
    }
  }

  lemma RemovalStep(lo: nat, hi: nat, token: string)
    requires lo < hi
    ensures var k := ToString(hi - 1);
            Below(Removals(lo, hi), token) ==
            (if token == k then [Remove([k])] else []) + Below(Removals(lo, hi - 1), token)
  {
    BelowRemoval(ToString(hi - 1), Removals(lo, hi - 1), token);
  }

  lemma {:induction false} RemovalsBelow(lo: nat, hi: nat, i: nat, token: string)
    requires token == ToString(i)
    ensures Below(Removals(lo, hi), token) == if lo <= i < hi then [Remove([token])] else []
  {
    if lo < hi {
      RemovalsBelow(lo, hi - 1, i, token);
      RemovalStep(lo, hi, token);
      TokensApart(i, hi - 1);
    }
  }

  lemma {:induction false} RemovalsBelowDash(lo: nat, hi: nat)
    ensures Below(Removals(lo, hi), "-") == []
  {
    if lo < hi {
      RemovalsBelowDash(lo, hi - 1);
      RemovalStep(lo, hi, "-");
      IndexRoundTrip(hi - 1);
    }
  }

  lemma {:induction false} AppendsBelow(b: seq<Json>, lo: nat, hi: nat, token: string)
    requires hi <= |b|
    ensures Below(Appends(b, lo, hi), token) == if token == "-" then Appends(b, lo, hi) else []
    decreases hi
  {
    if lo < hi {
      AppendsBelow(b, lo, hi - 1, token);
      BelowEnd(Appends(b, lo, hi - 1), Add(["-"], b[hi - 1]), token);
    }
  }

  lemma {:induction false} AppendsAre(b: seq<Json>, lo: nat, hi: nat)
    requires hi <= |b|
    ensures Appends(b, lo, hi) ==
            if lo < hi then seq(hi - lo, i requires 0 <= i < hi - lo => Add(["-"], b[lo + i])) else []
    decreases hi
  {
    if lo < hi { AppendsAre(b, lo, hi - 1); }
  }
}
