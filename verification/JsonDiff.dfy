/**
 Creation of a JSON Patch from two values, and the law that it turns one into the other.
 */
module JsonDiff {
  import opened JsonValue
  import opened JsonPointer
  import opened JsonPatch
  import opened JsonPatchLaws

  // ---------------------------------------------------------------- specification

  function Min(a: nat, b: nat): nat { if a < b then a else b }

  /** The operations that turn `s` into `t`, with pointers relative to `s`. */
  function Diff(s: Json, t: Json): seq<Op>
    decreases s, 1, 0
  {
    if Equal(s, t) then []
    else if s.Array? && t.Array? then
      CommonElements(s, t, Min(|s.elems|, |t.elems|))
      + Removals(Min(|s.elems|, |t.elems|), |s.elems|)
      + Appends(t.elems, |s.elems|, |t.elems|)
    else if s.Object? && t.Object? then
      OldMembers(s, t, SortedKeys(s.members.Keys)) + NewMembers(s, t, SortedKeys(t.members.Keys))
    else
      [Replace([], t)]
  }

  /** Differences of the first `n` elements. */
  function CommonElements(s: Json, t: Json, n: nat): seq<Op>
    requires s.Array? && t.Array? && n <= |s.elems| && n <= |t.elems|
    decreases s, 0, n
  {
    if n == 0 then [] else
      CommonElements(s, t, n - 1) + Lift([ToString(n - 1)], Diff(s.elems[n - 1], t.elems[n - 1]))
  }

  /** Removal of elements `lo` to `hi`, the last one first. */
  function Removals(lo: nat, hi: nat): seq<Op>
  {
    if hi <= lo then [] else [Remove([ToString(hi - 1)])] + Removals(lo, hi - 1)
  }

  /** Appending of elements `lo` to `hi`. */
  function Appends(b: seq<Json>, lo: nat, hi: nat): seq<Op>
    requires hi <= |b|
    decreases hi
  {
    if hi <= lo then [] else Appends(b, lo, hi - 1) + [Add(["-"], b[hi - 1])]
  }

  /** For each key of the source: the difference of the two members, or a removal. */
  function OldMembers(s: Json, t: Json, keys: seq<string>): seq<Op>
    requires s.Object? && t.Object? && forall k | k in keys :: k in s.members
    decreases s, 0, |keys|
  {
    if keys == [] then [] else
      var k := keys[|keys| - 1];
      OldMembers(s, t, keys[..|keys| - 1])
      + if k in t.members then Lift([k], Diff(s.members[k], t.members[k])) else [Remove([k])]
  }

  /** For each key of the target that the source lacks: an addition. */
  function NewMembers(s: Json, t: Json, keys: seq<string>): seq<Op>
    requires s.Object? && t.Object? && forall k | k in keys :: k in t.members
    decreases |keys|
  {
    if keys == [] then [] else
      var k := keys[|keys| - 1];
      NewMembers(s, t, keys[..|keys| - 1])
      + if k in s.members then [] else [Add([k], t.members[k])]
  }

  // ---------------------------------------------------------------- implementation

  /** diff: fills `result` with absolute pointers below `path`. */
  method ComputeDiff(source: Json, target: Json, path: Pointer) returns (result: seq<Op>)
    ensures result == Lift(path, Diff(source, target))
    decreases source, 1, 0
  {
    result := [];
    if Equal(source, target) {
      return;
    }
    if !SameType(source, target) {
      result := result + [Replace(path, target)];
      assert path + [] == path;
      return;
    }
    if source.Array? {
      result := DiffArrays(source, target, path);
    } else if source.Object? {
      result := DiffObjects(source, target, path);
    } else {
      result := result + [Replace(path, target)];
      assert path + [] == path;
    }
  }

  method DiffArrays(source: Json, target: Json, path: Pointer) returns (result: seq<Op>)
    requires source.Array? && target.Array? && !Equal(source, target)
    ensures result == Lift(path, Diff(source, target))
    decreases source, 0, 1
  {
    ghost var common := Min(|source.elems|, |target.elems|);
    var i;
    result, i := DiffCommonElements(source, target, path);
    result, i := InsertRemovals(source.elems, path, result, i);
    LiftConcat(path, CommonElements(source, target, common), Removals(common, |source.elems|));
    ghost var so := CommonElements(source, target, common) + Removals(common, |source.elems|);
    LiftConcat(path, so, Appends(target.elems, |source.elems|, |target.elems|));
    while i < |target.elems|
      invariant |source.elems| <= i && (i <= |target.elems| || i == |source.elems|)
      invariant result == Lift(path, so) + Lift(path, Appends(target.elems, |source.elems|, Min(i, |target.elems|)))
    {
      LiftConcat(path, Appends(target.elems, |source.elems|, i), [Add(["-"], target.elems[i])]);
      result := result + [Add(path + ["-"], target.elems[i])];
      i := i + 1;
    }
  }

  /** First pass: the elements that both arrays have. */
  method DiffCommonElements(source: Json, target: Json, path: Pointer) returns (result: seq<Op>, i: nat)
    requires source.Array? && target.Array?
    ensures i == Min(|source.elems|, |target.elems|)
    ensures result == Lift(path, CommonElements(source, target, i))
    decreases source, 0, 0
  {
    result := [];
    i := 0;
    while i < |source.elems| && i < |target.elems|
      invariant i <= |source.elems| && i <= |target.elems|
      invariant result == Lift(path, CommonElements(source, target, i))
    {
      var inner := ComputeDiff(source.elems[i], target.elems[i], path + [ToString(i)]);
      ghost var ops := Diff(source.elems[i], target.elems[i]);
      LiftTwice(path, [ToString(i)], ops);
      LiftConcat(path, CommonElements(source, target, i), Lift([ToString(i)], ops));
      result := result + inner;
      i := i + 1;
    }
  }

  /** Second pass: every removal is inserted before the ones already made. */
  method InsertRemovals(source: seq<Json>, path: Pointer, before: seq<Op>, start: nat)
    returns (result: seq<Op>, i: nat)
    requires start <= |source|
    ensures i == |source| && result == before + Lift(path, Removals(start, |source|))
  {
    result := before;
    i := start;
    var end := |result|;
    while i < |source|
      invariant start <= i <= |source|
      invariant result == before + Lift(path, Removals(start, i))
    {
      var op := Remove(path + [ToString(i)]);
      result := result[..end] + [op] + result[end..];
      LiftConcat(path, [Remove([ToString(i)])], Removals(start, i));
      assert result == before + ([op] + Lift(path, Removals(start, i)));
      i := i + 1;
    }
  }

  method DiffObjects(source: Json, target: Json, path: Pointer) returns (result: seq<Op>)
    requires source.Object? && target.Object? && !Equal(source, target)
    ensures result == Lift(path, Diff(source, target))
    decreases source, 0, 1
  {
    var first := DiffOldMembers(source, target, path, SortedKeys(source.members.Keys));
    var second := DiffNewMembers(source, target, path, SortedKeys(target.members.Keys));
    LiftConcat(path, OldMembers(source, target, SortedKeys(source.members.Keys)),
               NewMembers(source, target, SortedKeys(target.members.Keys)));
    result := first + second;
  }

  method DiffOldMembers(source: Json, target: Json, path: Pointer, keys: seq<string>) returns (result: seq<Op>)
    requires source.Object? && target.Object? && forall k | k in keys :: k in source.members
    ensures result == Lift(path, OldMembers(source, target, keys))
    decreases source, 0, 0
  {
    result := [];
    for i := 0 to |keys|
      invariant result == Lift(path, OldMembers(source, target, keys[..i]))
    {
      var k := keys[i];
      assert keys[..i + 1][..i] == keys[..i];
      ghost var so := OldMembers(source, target, keys[..i]);
      if k in target.members {
        var inner := ComputeDiff(source.members[k], target.members[k], path + [k]);
        LiftTwice(path, [k], Diff(source.members[k], target.members[k]));
        LiftConcat(path, so, Lift([k], Diff(source.members[k], target.members[k])));
        result := result + inner;
      } else {
        LiftConcat(path, so, [Remove([k])]);
        result := result + [Remove(path + [k])];
      }
    }
    assert keys[..|keys|] == keys;
  }

  method DiffNewMembers(source: Json, target: Json, path: Pointer, keys: seq<string>) returns (result: seq<Op>)
    requires source.Object? && target.Object? && forall k | k in keys :: k in target.members
    ensures result == Lift(path, NewMembers(source, target, keys))
  {
    result := [];
    for i := 0 to |keys|
      invariant result == Lift(path, NewMembers(source, target, keys[..i]))
    {
      var k := keys[i];
      assert keys[..i + 1][..i] == keys[..i];
      ghost var so := NewMembers(source, target, keys[..i]);
      if k !in source.members {
        LiftConcat(path, so, [Add([k], target.members[k])]);
        result := result + [Add(path + [k], target.members[k])];
      }
    }
    assert keys[..|keys|] == keys;
  }

  lemma LiftConcat(p: Pointer, a: seq<Op>, b: seq<Op>)
    ensures Lift(p, a + b) == Lift(p, a) + Lift(p, b)
  {
  }

  // ---------------------------------------------------------------- round trip

  /** Patching the source by the difference raises no error and gives a value equal to the target. */
  lemma {:induction false} DiffPatch(s: Json, t: Json)
    ensures Run(s, Diff(s, t)).status == Done
    ensures Equal(Run(s, Diff(s, t)).doc, t)
    decreases s, 1
  {
    if Equal(s, t) {
    } else if s.Array? && t.Array? {
      DiffPatchArrays(s, t);
    } else if s.Object? && t.Object? {
      DiffPatchObjects(s, t);
    } else {
      RunOne(s, Replace([], t));
      EqualReflexive(t);
    }
  }

  /** The round trip for one pair of values, as used for elements and members. */
  ghost predicate Patches(s: Json, t: Json) {
    var o := Run(s, Diff(s, t));
    o.status == Done && Equal(o.doc, t)
  }

  ghost predicate ElementsPatch(s: Json, t: Json, n: nat)
    requires s.Array? && t.Array? && n <= |s.elems| && n <= |t.elems|
  {
    forall i | 0 <= i < n :: Patches(s.elems[i], t.elems[i])
  }

  ghost predicate MembersPatch(s: Json, t: Json)
    requires s.Object? && t.Object?
  {
    forall k | k in s.members && k in t.members :: Patches(s.members[k], t.members[k])
  }

  lemma {:induction false} DiffPatchArrays(s: Json, t: Json)
    requires s.Array? && t.Array? && !Equal(s, t)
    ensures Patches(s, t)
    decreases s, 0
  {
    var a, b := s.elems, t.elems;
    var n := Min(|a|, |b|);
    forall i | 0 <= i < n ensures Patches(a[i], b[i]) { DiffPatch(a[i], b[i]); }
    var e := RunCommon(s, t, n);
    ArrayPhases(s, t, e);
    EndElements(a, b, e);
  }

  /** The common elements and the rest of the target make an array that equals the target. */
  lemma EndElements(a: seq<Json>, b: seq<Json>, e: seq<Json>)
    requires |e| == |a| && forall i | 0 <= i < Min(|a|, |b|) :: Equal(e[i], b[i])
    ensures Equal(Array(e[..Min(|a|, |b|)] + if |a| <= |b| then b[|a|..|b|] else []), Array(b))
  {
    SameElements(e[..Min(|a|, |b|)] + if |a| <= |b| then b[|a|..|b|] else [], b, Min(|a|, |b|));
  }

  lemma SameElements(e: seq<Json>, b: seq<Json>, n: nat)
    requires |e| == |b| && n <= |b|
    requires forall i | 0 <= i < n :: Equal(e[i], b[i])
    requires forall i | n <= i < |b| :: e[i] == b[i]
    ensures Equal(Array(e), Array(b))
  {
    forall i | n <= i < |b| ensures Equal(e[i], b[i]) { EqualReflexive(b[i]); }
  }

  /** Changes of common elements, then removals from the end, then additions at the end. */
  lemma ArrayPhases(s: Json, t: Json, e: seq<Json>)
    requires s.Array? && t.Array? && !Equal(s, t) && |e| == |s.elems|
    requires Run(s, CommonElements(s, t, Min(|s.elems|, |t.elems|))) == Outcome(Array(e), Done)
    ensures Run(s, Diff(s, t)) == Outcome(Array(e[..Min(|s.elems|, |t.elems|)]
              + if |s.elems| <= |t.elems| then t.elems[|s.elems|..|t.elems|] else []), Done)
  {
    var n, la, lb := Min(|s.elems|, |t.elems|), |s.elems|, |t.elems|;
    RunRemovals(e, n);
    RunAppends(e[..n], t.elems, la, lb);
    RunConcat(s, CommonElements(s, t, n), Removals(n, la));
    RunConcat(s, CommonElements(s, t, n) + Removals(n, la), Appends(t.elems, la, lb));
  }

  lemma {:induction false} RunCommon(s: Json, t: Json, n: nat) returns (e: seq<Json>)
    requires s.Array? && t.Array? && n <= |s.elems| && n <= |t.elems|
    requires ElementsPatch(s, t, n)
    ensures Run(s, CommonElements(s, t, n)) == Outcome(Array(e), Done)
    ensures |e| == |s.elems|
    ensures forall i | 0 <= i < n :: Equal(e[i], t.elems[i])
    ensures forall i | n <= i < |e| :: e[i] == s.elems[i]
    decreases n
  {
    if n == 0 {
      e := s.elems;
    } else {
      var e0 := RunCommon(s, t, n - 1);
      var inner := Diff(s.elems[n - 1], t.elems[n - 1]);
      assert Patches(s.elems[n - 1], t.elems[n - 1]);
      var v := Run(s.elems[n - 1], inner).doc;
      DiffInside(s.elems[n - 1], t.elems[n - 1]);
      RunElement(s, CommonElements(s, t, n - 1), e0, n - 1, inner, v);
      e := e0[n - 1 := v];
    }
  }

  /** After `before` has been run, a patch for element `i` changes that element and no other. */
  lemma RunElement(s: Json, before: seq<Op>, e: seq<Json>, i: nat, ops: seq<Op>, v: Json)
    requires Run(s, before) == Outcome(Array(e), Done)
    requires i < |e| && AllInside(ops) && Run(e[i], ops) == Outcome(v, Done)
    ensures Run(s, before + Lift([ToString(i)], ops)) == Outcome(Array(e[i := v]), Done)
  {
    IndexRoundTrip(i);
    Locality(Array(e), ToString(i), ops);
    RunConcat(s, before, Lift([ToString(i)], ops));
  }

  lemma {:induction false} RunRemovals(e: seq<Json>, lo: nat)
    requires lo <= |e|
    ensures Run(Array(e), Removals(lo, |e|)) == Outcome(Array(e[..lo]), Done)
    decreases |e|
  {
    if lo == |e| {
      assert e[..lo] == e;
    } else {
      var last := |e| - 1;
      IndexRoundTrip(last);
      var op := Remove([ToString(last)]);
      assert Parent(op.path) == [];
      assert e[..last] + e[last + 1..] == e[..last];
      assert Step(Array(e), op) == Outcome(Array(e[..last]), Done);
      assert Removals(lo, |e|)[1..] == Removals(lo, last);
      RunRemovals(e[..last], lo);
      assert e[..last][..lo] == e[..lo];
    }
  }

  lemma {:induction false} RunAppends(e: seq<Json>, b: seq<Json>, lo: nat, hi: nat)
    requires hi <= |b|
    ensures Run(Array(e), Appends(b, lo, hi)) == Outcome(Array(e + if lo <= hi then b[lo..hi] else []), Done)
    decreases hi
  {
    if hi <= lo {
      assert (if lo <= hi then b[lo..hi] else []) == [];
      assert e + [] == e;
    } else {
      RunAppends(e, b, lo, hi - 1);
      RunConcat(Array(e), Appends(b, lo, hi - 1), [Add(["-"], b[hi - 1])]);
      RunAppend(e + b[lo..hi - 1], b[hi - 1]);
      assert e + b[lo..hi - 1] + [b[hi - 1]] == e + b[lo..hi];
    }
  }

  lemma RunAppend(e: seq<Json>, v: Json)
    ensures Run(Array(e), [Add(["-"], v)]) == Outcome(Array(e + [v]), Done)
  {
    var op := Add(["-"], v);
    assert Parent(op.path) == [];
    RunOne(Array(e), op);
  }

  lemma {:induction false} DiffPatchObjects(s: Json, t: Json)
    requires s.Object? && t.Object? && !Equal(s, t)
    ensures Patches(s, t)
    decreases s, 0
  {
    var m, n := s.members, t.members;
    forall k | k in m && k in n ensures Patches(m[k], n[k]) { DiffPatch(m[k], n[k]); }
    var olds, news := SortedKeys(m.Keys), SortedKeys(n.Keys);
    SortedKeysIncrease(m.Keys);
    var d := RunOld(s, t, olds);
    var d' := RunNew(s, t, d, news);
    RunConcat(s, OldMembers(s, t, olds), NewMembers(s, t, news));
    SameMembers(s, t, d, d');
  }

  lemma SameMembers(s: Json, t: Json, d: map<string, Json>, d': map<string, Json>)
    requires s.Object? && t.Object?
    requires forall k :: k in d <==> k in s.members && k in t.members
    requires forall k | k in d :: Equal(d[k], t.members[k])
    requires forall k :: k in d' <==> k in d || (k in t.members && k !in s.members)
    requires forall k | k in d' :: d'[k] == if k in t.members && k !in s.members then t.members[k] else d[k]
    ensures Equal(Object(d'), t)
  {
    forall k | k in d' ensures k in t.members && Equal(d'[k], t.members[k]) {
      if k !in s.members { EqualReflexive(t.members[k]); }
    }
    assert d'.Keys == t.members.Keys;
  }

  lemma {:induction false} RunOld(s: Json, t: Json, keys: seq<string>) returns (d: map<string, Json>)
    requires s.Object? && t.Object? && forall k | k in keys :: k in s.members
    requires Increasing(keys)
    requires MembersPatch(s, t)
    ensures Run(s, OldMembers(s, t, keys)) == Outcome(Object(d), Done)
    ensures forall k :: k in d <==> k in s.members && (k in keys ==> k in t.members)
    ensures forall k | k in d :: if k in keys then Equal(d[k], t.members[k]) else d[k] == s.members[k]
    decreases |keys|
  {
    if keys == [] {
      d := s.members;
    } else {
      var init, k := keys[..|keys| - 1], keys[|keys| - 1];
      assert keys == init + [k];
      var d0 := RunOld(s, t, init);
      if k in t.members {
        var inner := Diff(s.members[k], t.members[k]);
        assert Patches(s.members[k], t.members[k]);
        var v := Run(s.members[k], inner).doc;
        DiffInside(s.members[k], t.members[k]);
        RunMember(s, OldMembers(s, t, init), d0, k, inner, v);
        d := d0[k := v];
      } else {
        RunRemoval(s, OldMembers(s, t, init), d0, k);
        d := d0 - {k};
      }
    }
  }

  /** After `before` has been run, a patch for member `k` changes that member and no other. */
  lemma RunMember(s: Json, before: seq<Op>, d: map<string, Json>, k: string, ops: seq<Op>, v: Json)
    requires Run(s, before) == Outcome(Object(d), Done)
    requires k in d && AllInside(ops) && Run(d[k], ops) == Outcome(v, Done)
    ensures Run(s, before + Lift([k], ops)) == Outcome(Object(d[k := v]), Done)
  {
    Locality(Object(d), k, ops);
    RunConcat(s, before, Lift([k], ops));
  }

  lemma RunRemoval(s: Json, before: seq<Op>, d: map<string, Json>, k: string)
    requires Run(s, before) == Outcome(Object(d), Done)
    requires k in d
    ensures Run(s, before + [Remove([k])]) == Outcome(Object(d - {k}), Done)
  {
    assert Parent([k]) == [];
    RunConcat(s, before, [Remove([k])]);
    RunOne(Object(d), Remove([k]));
  }

  lemma RunAddition(s: Json, before: seq<Op>, d: map<string, Json>, k: string, v: Json)
    requires Run(s, before) == Outcome(Object(d), Done)
    ensures Run(s, before + [Add([k], v)]) == Outcome(Object(d[k := v]), Done)
  {
    assert Parent([k]) == [];
    RunConcat(s, before, [Add([k], v)]);
    RunOne(Object(d), Add([k], v));
  }

  lemma {:induction false} RunNew(s: Json, t: Json, d: map<string, Json>, keys: seq<string>)
    returns (d': map<string, Json>)
    requires s.Object? && t.Object? && forall k | k in keys :: k in t.members
    ensures Run(Object(d), NewMembers(s, t, keys)) == Outcome(Object(d'), Done)
    ensures forall k :: k in d' <==> k in d || (k in keys && k !in s.members)
    ensures forall k | k in d' :: d'[k] == if k in keys && k !in s.members then t.members[k] else d[k]
    decreases |keys|
  {
    if keys == [] {
      d' := d;
    } else {
      var init, k := keys[..|keys| - 1], keys[|keys| - 1];
      assert keys == init + [k];
      var d0 := RunNew(s, t, d, init);
      if k in s.members {
        assert NewMembers(s, t, keys) == NewMembers(s, t, init);
        d' := d0;
      } else {
        RunAddition(Object(d), NewMembers(s, t, init), d0, k, t.members[k]);
        d' := d0[k := t.members[k]];
      }
    }
  }

  /** A difference never adds or removes the very value it is computed for. */
  lemma {:induction false} DiffInside(s: Json, t: Json)
    ensures AllInside(Diff(s, t))
    decreases s, 1, 0
  {
    if Equal(s, t) {
    } else if s.Array? && t.Array? {
      CommonInside(s, t, Min(|s.elems|, |t.elems|));
      RemovalsInside(Min(|s.elems|, |t.elems|), |s.elems|);
      AppendsInside(t.elems, |s.elems|, |t.elems|);
    } else if s.Object? && t.Object? {
      OldInside(s, t, SortedKeys(s.members.Keys));
      NewInside(s, t, SortedKeys(t.members.Keys));
    }
  }

  lemma {:induction false} CommonInside(s: Json, t: Json, n: nat)
    requires s.Array? && t.Array? && n <= |s.elems| && n <= |t.elems|
    ensures AllInside(CommonElements(s, t, n))
    decreases s, 0, n
  {
    if n > 0 {
      CommonInside(s, t, n - 1);
      DiffInside(s.elems[n - 1], t.elems[n - 1]);
      LiftInside([ToString(n - 1)], Diff(s.elems[n - 1], t.elems[n - 1]));
    }
  }

  lemma {:induction false} RemovalsInside(lo: nat, hi: nat)
    ensures AllInside(Removals(lo, hi))
  {
    if lo < hi { RemovalsInside(lo, hi - 1); }
  }

  lemma {:induction false} AppendsInside(b: seq<Json>, lo: nat, hi: nat)
    requires hi <= |b|
    ensures AllInside(Appends(b, lo, hi))
    decreases hi
  {
    if lo < hi { AppendsInside(b, lo, hi - 1); }
  }

  lemma {:induction false} OldInside(s: Json, t: Json, keys: seq<string>)
    requires s.Object? && t.Object? && forall k | k in keys :: k in s.members
    ensures AllInside(OldMembers(s, t, keys))
    decreases s, 0, |keys|
  {
    if keys != [] {
      var k := keys[|keys| - 1];
      OldInside(s, t, keys[..|keys| - 1]);
      if k in t.members {
        DiffInside(s.members[k], t.members[k]);
        LiftInside([k], Diff(s.members[k], t.members[k]));
      }
    }
  }

  lemma {:induction false} NewInside(s: Json, t: Json, keys: seq<string>)
    requires s.Object? && t.Object? && forall k | k in keys :: k in t.members
    ensures AllInside(NewMembers(s, t, keys))
    decreases |keys|
  {
    if keys != [] { NewInside(s, t, keys[..|keys| - 1]); }
  }

  // ---------------------------------------------------------------- consequences

  /** The difference computed for a value deep inside a document patches that value in place. */
  lemma DiffPatchInside(doc: Json, path: Pointer, t: Json)
    requires At(doc, path).Ok?
    ensures var s := At(doc, path).value;
            var o := Run(doc, Lift(path, Diff(s, t)));
      && o.status == Done
      && exists t' :: Equal(t', t) && EditAt(doc, path, Assign(t')) == Ok(o.doc)
  {
    var s := At(doc, path).value;
    DiffPatch(s, t);
    DiffInside(s, t);
    DeepLocality(doc, path, Diff(s, t));
  }

  /** The difference is empty exactly for values that compare equal. */
  lemma {:induction false} EmptyDiff(s: Json, t: Json)
    ensures Diff(s, t) == [] <==> Equal(s, t)
    decreases s, 1
  {
    if Diff(s, t) == [] && !Equal(s, t) {
      if s.Array? && t.Array? { EmptyArrayDiff(s, t); }
      else if s.Object? && t.Object? {
        EmptyObjectDiff(s, t, SortedKeys(s.members.Keys), SortedKeys(t.members.Keys));
      }
    }
  }

  lemma {:induction false} EmptyArrayDiff(s: Json, t: Json)
    requires s.Array? && t.Array?
    requires CommonElements(s, t, Min(|s.elems|, |t.elems|)) == []
    requires Removals(Min(|s.elems|, |t.elems|), |s.elems|) == []
    requires Appends(t.elems, |s.elems|, |t.elems|) == []
    ensures Equal(s, t)
    decreases s, 0
  {
    assert |s.elems| == |t.elems|;
    forall i | 0 <= i < |s.elems| ensures Equal(s.elems[i], t.elems[i]) {
      ElementInDiff(s, t, |s.elems|, i);
      EmptyDiff(s.elems[i], t.elems[i]);
    }
  }

  lemma {:induction false} EmptyObjectDiff(s: Json, t: Json, olds: seq<string>, news: seq<string>)
    requires s.Object? && t.Object?
    requires forall k :: k in olds <==> k in s.members
    requires forall k :: k in news <==> k in t.members
    requires OldMembers(s, t, olds) == [] && NewMembers(s, t, news) == []
    ensures Equal(s, t)
    decreases s, 0
  {
    forall k | k in s.members ensures k in t.members && Equal(s.members[k], t.members[k]) {
      MemberInDiff(s, t, olds, k);
      EmptyDiff(s.members[k], t.members[k]);
    }
    forall k | k in t.members ensures k in s.members { NewMemberInDiff(s, t, news, k); }
    assert s.members.Keys == t.members.Keys;
  }

  lemma {:induction false} ElementInDiff(s: Json, t: Json, n: nat, i: nat)
    requires s.Array? && t.Array? && i < n <= |s.elems| && n <= |t.elems|
    requires CommonElements(s, t, n) == []
    ensures Diff(s.elems[i], t.elems[i]) == []
  {
    var ops := Diff(s.elems[n - 1], t.elems[n - 1]);
    assert |Lift([ToString(n - 1)], ops)| == |ops|;
    if i < n - 1 { ElementInDiff(s, t, n - 1, i); }
  }

  lemma {:induction false} MemberInDiff(s: Json, t: Json, keys: seq<string>, k: string)
    requires s.Object? && t.Object? && forall k | k in keys :: k in s.members
    requires k in keys && OldMembers(s, t, keys) == []
    ensures k in t.members && Diff(s.members[k], t.members[k]) == []
    decreases |keys|
  {
    var init, last := keys[..|keys| - 1], keys[|keys| - 1];
    assert keys == init + [last];
    if last in t.members {
      var ops := Diff(s.members[last], t.members[last]);
      assert |Lift([last], ops)| == |ops|;
    }
    if k != last { MemberInDiff(s, t, init, k); }
  }

  lemma {:induction false} NewMemberInDiff(s: Json, t: Json, keys: seq<string>, k: string)
    requires s.Object? && t.Object? && forall k | k in keys :: k in t.members
    requires k in keys && NewMembers(s, t, keys) == []
    ensures k in s.members
    decreases |keys|
  {
    var init, last := keys[..|keys| - 1], keys[|keys| - 1];
    assert keys == init + [last];
    if k != last { NewMemberInDiff(s, t, init, k); }
  }
}
