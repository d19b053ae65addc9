/** JSON Merge Patch (RFC 7396, section 2), as `merge_patch` performs it. */
module JsonMerge {
  import opened JsonValue

  function MembersOf(j: Json): map<string, Json> {
    if j.Object? then j.members else map[]
  }

  function MemberOrNull(m: map<string, Json>, k: string): Json {
    if k in m then m[k] else Null
  }

  /** The function MergePatch of the RFC, member by member instead of as a loop. */
  function Merge(target: Json, patch: Json): Json
    decreases patch
  {
    if !patch.Object? then patch else
      var base, p := MembersOf(target), patch.members;
      Object(map k | k in base.Keys + p.Keys && !(k in p && p[k].Null?) ::
               if k in p then Merge(MemberOrNull(base, k), p[k]) else base[k])
  }

  /** A JSON value whose member function changes it in place. */
  class Target {
    var value: Json

    constructor (j: Json)
      ensures value == j
    {
      value := j;
    }

    /** merge_patch; members of the patch may be visited in any order. */
    method MergePatch(patch: Json)
      modifies this
      ensures value == Merge(old(value), patch)
      decreases patch
    {
      if !patch.Object? {
        value := patch;
        return;
      }
      ghost var base := MembersOf(value);
      if !value.Object? {
        value := Object(map[]);
      }
      var rest := patch.members.Keys;
      while rest != {}
        invariant rest <= patch.members.Keys && value.Object?
        invariant forall k | k in rest || k !in patch.members ::
          (k in value.members <==> k in base) && (k in base ==> value.members[k] == base[k])
        invariant forall k | k in patch.members.Keys - rest ::
          (k in value.members <==> !patch.members[k].Null?) &&
          (k in value.members ==> value.members[k] == Merge(MemberOrNull(base, k), patch.members[k]))
        decreases rest
      {
        var k :| k in rest;
        if patch.members[k].Null? {
          value := Object(value.members - {k});
        } else {
          var child := new Target(MemberOrNull(value.members, k));
          child.MergePatch(patch.members[k]);
          value := Object(value.members[k := child.value]);
        }
        rest := rest - {k};
      }
      assert value.members == Merge(Object(base), patch).members;
    }
  }

  /** Applying a patch a second time changes nothing. */
  lemma {:induction false} MergeIdempotent(target: Json, patch: Json)
    ensures Merge(Merge(target, patch), patch) == Merge(target, patch)
    decreases patch
  {
    if patch.Object? {
      var once := Merge(target, patch);
      var twice := Merge(once, patch);
      forall k | k in once.members && k in patch.members
        ensures twice.members[k] == once.members[k]
      {
        MergeIdempotent(MemberOrNull(MembersOf(target), k), patch.members[k]);
      }
      assert twice.members == once.members;
    }
  }

  /** No object of the patch, except inside an array, has a member that is null. */
  predicate NullFree(patch: Json) {
    patch.Object? ==> forall k | k in patch.members :: !patch.members[k].Null? && NullFree(patch.members[k])
  }

  /** A patch reproduces itself from nothing exactly when it asks for no removal. */
  lemma {:induction false} MergeIntoNull(patch: Json)
    ensures Merge(Null, patch) == patch <==> NullFree(patch)
  {
    if patch.Object? {
      var made := Merge(Null, patch);
      forall k | k in patch.members
        ensures Merge(Null, patch.members[k]) == patch.members[k] <==> NullFree(patch.members[k])
      {
        MergeIntoNull(patch.members[k]);
      }
      if NullFree(patch) {
        assert made.members == patch.members;
      } else {
        var k :| k in patch.members && (patch.members[k].Null? || !NullFree(patch.members[k]));
        assert k !in made.members || made.members[k] == Merge(Null, patch.members[k]);
      }
    }
  }

  /** Members the patch does not name are kept, and a null member never comes from the patch. */
  lemma MergeKeepsOthers(target: Json, patch: Json, k: string)
    requires patch.Object?
    ensures Merge(target, patch).Object?
    ensures k !in patch.members ==>
      (k in Merge(target, patch).members <==> k in MembersOf(target)) &&
      (k in MembersOf(target) ==> Merge(target, patch).members[k] == MembersOf(target)[k])
    ensures k in patch.members ==>
      (k in Merge(target, patch).members <==> !patch.members[k].Null?) &&
      (k in Merge(target, patch).members ==> !Merge(target, patch).members[k].Null?)
  {
  }

  // ---------------------------------------------------------------- at any depth

  /** The path runs through objects. */
  predicate ObjectsAlong(j: Json, path: seq<string>) {
    j.Object? && (path == [] || (path[0] in j.members && ObjectsAlong(j.members[path[0]], path[1..])))
  }

  /** The members of the object at the end of the path; none when there is no such object. */
  function MembersAt(j: Json, path: seq<string>): map<string, Json>
    decreases |path|
  {
    if !j.Object? then map[]
    else if path == [] then j.members
    else if path[0] in j.members then MembersAt(j.members[path[0]], path[1..])
    else map[]
  }

  /**
   At any depth that the objects of the patch reach, a member it does not name is the target's, one it sets
   to null is absent, and any other is the patch's own, or an object if it is one in the patch.
   */
  lemma {:induction false} MergeAtDepth(target: Json, patch: Json, path: seq<string>, k: string)
    requires ObjectsAlong(patch, path)
    ensures ObjectsAlong(Merge(target, patch), path)
    ensures var t, p, m := MembersAt(target, path), MembersAt(patch, path), MembersAt(Merge(target, patch), path);
      && (k !in p ==> (k in m <==> k in t) && (k in t ==> m[k] == t[k]))
      && (k in p && p[k].Null? ==> k !in m)
      && (k in p && p[k].Object? ==> k in m && m[k].Object?)
      && (k in p && !p[k].Null? && !p[k].Object? ==> k in m && m[k] == p[k])
    decreases |path|
  {
    if path != [] {
      var key, base := path[0], MembersOf(target);
      MergeAtDepth(MemberOrNull(base, key), patch.members[key], path[1..], k);
      assert MembersAt(target, path) == MembersAt(MemberOrNull(base, key), path[1..]);
    }
  }

  /** A patch that is no object takes the place of the target. */
  lemma MergeReplaces(target: Json, patch: Json)
    requires !patch.Object?
    ensures Merge(target, patch) == patch
  {
  }
}
