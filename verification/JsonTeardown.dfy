/** Destruction of a JSON value with an explicit stack instead of recursion. */
module JsonTeardown {
  import opened Basics
  import opened JsonValue
  import opened JsonPointer

  /** Members of an object in the order in which they are visited. */
  function MemberValues(m: map<string, Json>, keys: seq<string>): seq<Json>
    requires forall k | k in keys :: k in m
  {
    seq(|keys|, i requires 0 <= i < |keys| => m[keys[i]])
  }

  function Children(j: Json): seq<Json> {
    match j
    case Array(a) => a
    case Object(m) => MemberValues(m, SortedKeys(m.Keys))
    case _ => []
  }

  /** What is left of a value when its children have been moved out and its container cleared. */
  function Emptied(j: Json): Json {
    match j
    case Array(_) => Array([])
    case Object(_) => Object(map[])
    case _ => j
  }

  lemma ChildSmaller(j: Json, i: nat)
    requires i < |Children(j)|
    ensures Children(j)[i] < j
  {
    if j.Object? {
      var k := SortedKeys(j.members.Keys)[i];
      assert k in SortedKeys(j.members.Keys);
    }
  }

  /** Every value inside `j`, at any depth and each occurrence once: last child first, each before its own inside. */
  function Inside(j: Json): seq<Json>
    decreases j, 1, 0
  {
    InsideFirst(j, |Children(j)|)
  }

  function InsideFirst(j: Json, n: nat): seq<Json>
    requires n <= |Children(j)|
    decreases j, 0, n
  {
    if n == 0 then [] else
      ChildSmaller(j, n - 1);
      [Children(j)[n - 1]] + Inside(Children(j)[n - 1]) + InsideFirst(j, n - 1)
  }

  /** The items of a stack, from the top, each followed by everything inside it. */
  ghost function Pending(stack: seq<Json>): seq<Json> {
    if stack == [] then [] else
      [stack[|stack| - 1]] + Inside(stack[|stack| - 1]) + Pending(stack[..|stack| - 1])
  }

  lemma PendingTop(rest: seq<Json>, top: Json)
    ensures Pending(rest + [top]) == [top] + Inside(top) + Pending(rest)
  {
    assert (rest + [top])[..|rest|] == rest;
  }

  lemma {:induction false} PendingConcat(a: seq<Json>, b: seq<Json>)
    ensures Pending(a + b) == Pending(b) + Pending(a)
    decreases |b|
  {
    if b == [] {
      assert a + b == a;
    } else {
      var rest, top := b[..|b| - 1], b[|b| - 1];
      assert b == rest + [top];
      Regroup(a, rest, [top]);
      PendingTop(a + rest, top);
      PendingConcat(a, rest);
      Regroup([top] + Inside(top), Pending(rest), Pending(a));
    }
  }

  lemma {:induction false} PendingChildren(j: Json, n: nat)
    requires n <= |Children(j)|
    ensures Pending(Children(j)[..n]) == InsideFirst(j, n)
    decreases n
  {
    if n > 0 {
      PendingChildren(j, n - 1);
      assert Children(j)[..n][..n - 1] == Children(j)[..n - 1];
    }
  }

  /** Replacing the top item by its children leaves everything else pending in the same order. */
  lemma TakeTop(taken: seq<Json>, stack: seq<Json>)
    requires stack != []
    ensures var rest, top := stack[..|stack| - 1], stack[|stack| - 1];
      && taken + Pending(stack) == taken + [top] + Pending(rest + Children(top))
      && |Pending(rest + Children(top))| < |Pending(stack)|
  {
    var rest, top := stack[..|stack| - 1], stack[|stack| - 1];
    assert stack == rest + [top];
    PendingTop(rest, top);
    PendingConcat(rest, Children(top));
    PendingOfChildren(top);
    Regroup([top], Inside(top), Pending(rest));
    Regroup(taken, [top], Inside(top) + Pending(rest));
  }

  lemma PendingOfChildren(j: Json)
    ensures Pending(Children(j)) == Inside(j)
  {
    PendingChildren(j, |Children(j)|);
    assert Children(j)[..|Children(j)|] == Children(j);
  }

  /** The recursive destructor of such a value goes no deeper. */
  predicate IsShallow(j: Json) {
    (j.Array? ==> j.elems == []) && (j.Object? ==> j.members == map[])
  }

  /** What is left of each of the items when its destructor runs. */
  ghost predicate Dying(taken: seq<Json>, dying: seq<Json>) {
    |dying| == |taken| && forall i | 0 <= i < |taken| :: dying[i] == Emptied(taken[i]) && IsShallow(dying[i])
  }

  lemma DyingOneMore(taken: seq<Json>, dying: seq<Json>, item: Json, left: Json)
    requires Dying(taken, dying) && left == Emptied(item)
    ensures Dying(taken + [item], dying + [left])
  {
  }

  /** Moves the children of an item out of it, and clears its container. */
  method MoveOut(item: Json) returns (children: seq<Json>, left: Json)
    ensures children == Children(item) && left == Emptied(item)
  {
    children, left := [], item;
    if item.Array? {
      children := item.elems;
      left := Array([]);
    } else if item.Object? {
      children := MemberValues(item.members, SortedKeys(item.members.Keys));
      left := Object(map[]);
    }
  }

  /** json_value::destroy: `taken` lists the items as they leave the stack. */
  method Destroy(j: Json) returns (taken: seq<Json>, dying: seq<Json>)
    ensures taken == Inside(j)
    ensures Dying(taken, dying)
  {
    taken, dying := [], [];
    var stack := Children(j);
    PendingOfChildren(j);
    ghost var all := Inside(j);
    while stack != []
      invariant taken + Pending(stack) == all
      invariant Dying(taken, dying)
      decreases |Pending(stack)|
    {
      var rest, item := stack[..|stack| - 1], stack[|stack| - 1];
      ghost var full, before := item, taken;
      TakeTop(taken, stack);
      taken := taken + [item];
      var children;
      children, item := MoveOut(item);
      stack := rest + children;
      DyingOneMore(before, dying, full, item);
      dying := dying + [item];
    }
  }

  // ---------------------------------------------------------------- every value below, each once

  /** The token by which a pointer goes to a child. */
  function TokenOf(j: Json, i: nat): string
    requires i < |Children(j)|
  {
    if j.Array? then ToString(i) else SortedKeys(j.members.Keys)[i]
  }

  function Below(token: string, places: seq<Pointer>): seq<Pointer> {
    seq(|places|, i requires 0 <= i < |places| => [token] + places[i])
  }

  /** Where the values inside are, in the order in which they are taken. */
  function Places(j: Json): seq<Pointer>
    decreases j, 1, 0
  {
    PlacesFirst(j, |Children(j)|)
  }

  function PlacesFirst(j: Json, n: nat): seq<Pointer>
    requires n <= |Children(j)|
    decreases j, 0, n
  {
    if n == 0 then [] else
      ChildSmaller(j, n - 1);
      var token := TokenOf(j, n - 1);
      [[token]] + Below(token, Places(Children(j)[n - 1])) + PlacesFirst(j, n - 1)
  }

  /** Tokens of children lead to them, and no two children have the same one. */
  lemma TokenLeads(j: Json, i: nat)
    requires i < |Children(j)|
    ensures Child(j, TokenOf(j, i)) == Ok(Children(j)[i])
    ensures forall k | 0 <= k < |Children(j)| && k != i :: TokenOf(j, k) != TokenOf(j, i)
  {
    if j.Array? {
      IndexRoundTrip(i);
      forall k | 0 <= k < |Children(j)| && k != i ensures TokenOf(j, k) != TokenOf(j, i) { IndexRoundTrip(k); }
    } else {
      SortedKeysIncrease(j.members.Keys);
      assert TokenOf(j, i) in SortedKeys(j.members.Keys);
    }
  }

  /** The pointers lead to the values, one by one. */
  ghost predicate Leads(j: Json, places: seq<Pointer>, taken: seq<Json>) {
    |places| == |taken| &&
    forall i | 0 <= i < |places| :: places[i] != [] && At(j, places[i]) == Ok(taken[i])
  }

  ghost predicate Apart(places: seq<Pointer>) {
    forall i, k | 0 <= i < k < |places| :: places[i] != places[k]
  }

  lemma {:induction false} PlacesLead(j: Json)
    ensures Leads(j, Places(j), Inside(j)) && Apart(Places(j))
    decreases j, 1, 0
  {
    PlacesLeadFirst(j, |Children(j)|);
  }

  lemma {:induction false} PlacesLeadFirst(j: Json, n: nat)
    requires n <= |Children(j)|
    ensures Leads(j, PlacesFirst(j, n), InsideFirst(j, n)) && Apart(PlacesFirst(j, n))
    decreases j, 0, n
  {
    if n > 0 {
      ChildSmaller(j, n - 1);
      PlacesLead(Children(j)[n - 1]);
      PlacesLeadFirst(j, n - 1);
      TokenLeads(j, n - 1);
      OtherTokens(j, n - 1, n - 1);
      var child, token := Children(j)[n - 1], TokenOf(j, n - 1);
      BelowLeads(j, token, child);
      LeadsTogether(j, token, child, PlacesFirst(j, n - 1), InsideFirst(j, n - 1));
    }
  }

  predicate Avoid(places: seq<Pointer>, token: string) {
    forall i | 0 <= i < |places| :: places[i] != [] && places[i][0] != token
  }

  /** The places of the first children do not begin with the token of a later one. */
  lemma {:induction false} OtherTokens(j: Json, n: nat, later: nat)
    requires n <= later < |Children(j)|
    ensures Avoid(PlacesFirst(j, n), TokenOf(j, later))
    decreases n
  {
    if n > 0 {
      ChildSmaller(j, n - 1);
      OtherTokens(j, n - 1, later);
      TokenLeads(j, later);
      BelowAvoids(TokenOf(j, n - 1), Places(Children(j)[n - 1]), TokenOf(j, later));
    }
  }

  lemma BelowAvoids(token: string, places: seq<Pointer>, other: string)
    requires token != other
    ensures Avoid([[token]] + Below(token, places), other)
  {
  }

  lemma BelowLeads(j: Json, token: string, child: Json)
    requires Child(j, token) == Ok(child) && Leads(child, Places(child), Inside(child)) && Apart(Places(child))
    ensures Leads(j, [[token]] + Below(token, Places(child)), [child] + Inside(child))
    ensures Apart([[token]] + Below(token, Places(child)))
  {
    var places, taken := [[token]] + Below(token, Places(child)), [child] + Inside(child);
    forall i | 0 <= i < |places| ensures places[i] != [] && At(j, places[i]) == Ok(taken[i]) {
      if i == 0 { AtOne(j, token); } else { AtBelow(j, token, Places(child)[i - 1]); }
    }
    BelowApart(token, Places(child), child, Inside(child));
  }

  lemma AtBelow(j: Json, token: string, p: Pointer)
    requires Child(j, token).Ok?
    ensures At(j, [token] + p) == At(Child(j, token).value, p)
  {
    assert ([token] + p)[1..] == p;
  }

  lemma BelowApart(token: string, places: seq<Pointer>, child: Json, taken: seq<Json>)
    requires Leads(child, places, taken) && Apart(places)
    ensures Apart([[token]] + Below(token, places))
  {
    var all := [[token]] + Below(token, places);
    forall i, k | 0 <= i < k < |all| ensures all[i] != all[k] {
      assert all[k][1..] == places[k - 1];
      if i > 0 { assert all[i][1..] == places[i - 1]; }
    }
  }

  lemma LeadsTogether(j: Json, token: string, child: Json, places: seq<Pointer>, taken: seq<Json>)
    requires Leads(j, [[token]] + Below(token, Places(child)), [child] + Inside(child))
    requires Apart([[token]] + Below(token, Places(child))) && Leads(j, places, taken) && Apart(places)
    requires Avoid(places, token)
    ensures Leads(j, [[token]] + Below(token, Places(child)) + places, [child] + Inside(child) + taken)
    ensures Apart([[token]] + Below(token, Places(child)) + places)
  {
  }

  /** Every pointer that can be followed, but the empty one, is among the places. */
  lemma {:induction false} PlacesAll(j: Json, p: Pointer)
    requires p != [] && At(j, p).Ok?
    ensures p in Places(j)
    decreases j, |p|
  {
    var i := ChildOf(j, p[0]);
    TokenLeads(j, i);
    ChildSmaller(j, i);
    var child := Children(j)[i];
    if p[1..] != [] { PlacesAll(child, p[1..]); }
    PlaceInFirst(j, |Children(j)|, i, p);
  }

  lemma {:induction false} PlaceInFirst(j: Json, n: nat, i: nat, p: Pointer)
    requires i < n <= |Children(j)| && p != [] && p[0] == TokenOf(j, i)
    requires p[1..] == [] || p[1..] in Places(Children(j)[i])
    ensures p in PlacesFirst(j, n)
    decreases n
  {
    ChildSmaller(j, n - 1);
    if i < n - 1 { PlaceInFirst(j, n - 1, i, p); } else { PlaceHere(TokenOf(j, i), Places(Children(j)[i]), p); }
  }

  lemma PlaceHere(token: string, places: seq<Pointer>, p: Pointer)
    requires p != [] && p[0] == token && (p[1..] == [] || p[1..] in places)
    ensures p in [[token]] + Below(token, places)
  {
    if p[1..] == [] {
      assert p == [token] && ([[token]] + Below(token, places))[0] == p;
    } else {
      var k :| 0 <= k < |places| && places[k] == p[1..];
      assert ([[token]] + Below(token, places))[k + 1] == p;
    }
  }

  /** A token that can be followed is that of some child: an index is printed in one way only. */
  lemma ChildOf(j: Json, token: string) returns (i: nat)
    requires Child(j, token).Ok?
    ensures i < |Children(j)| && TokenOf(j, i) == token
  {
    if j.Array? {
      i := ArrayIndex(token).value;
      IndexUnique(token);
    } else {
      assert token in SortedKeys(j.members.Keys);
      i :| 0 <= i < |SortedKeys(j.members.Keys)| && SortedKeys(j.members.Keys)[i] == token;
    }
  }

  /**
   What leaves the stack are the values at all places below the root, each place once: a sequence of
   pointers without repetition leads to them one by one, and every pointer below the root is in it.
   */
  lemma TakenOnce(j: Json, p: Pointer)
    ensures var places := Places(j);
      && Leads(j, places, Inside(j)) && Apart(places)
      && (p in places <==> p != [] && At(j, p).Ok?)
  {
    PlacesLead(j);
    if p != [] && At(j, p).Ok? { PlacesAll(j, p); }
  }
}
