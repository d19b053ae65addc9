/** The map that keeps its entries in the order of insertion, in a vector that is shifted in place. */
module OrderedMap {
  datatype Entry<K, V> = Entry(key: K, value: V)

  datatype Answer<V> = Found(value: V) | OutOfRange

  // ---------------------------------------------------------------- what the operations compute

  /** The position of the first entry with a key, or the end. */
  function Position<K(==), V>(s: seq<Entry<K, V>>, k: K): (i: nat)
    ensures i <= |s|
    ensures i < |s| ==> s[i].key == k
    ensures forall j | 0 <= j < i :: s[j].key != k
  {
    if s == [] || s[0].key == k then 0 else 1 + Position(s[1..], k)
  }

  function Emplaced<K(==), V>(s: seq<Entry<K, V>>, k: K, v: V): seq<Entry<K, V>> {
    if Position(s, k) < |s| then s else s + [Entry(k, v)]
  }

  function EmplacedAll<K(==), V>(s: seq<Entry<K, V>>, more: seq<Entry<K, V>>): seq<Entry<K, V>>
    decreases |more|
  {
    if more == [] then s else EmplacedAll(Emplaced(s, more[0].key, more[0].value), more[1..])
  }

  function Cut<K, V>(s: seq<Entry<K, V>>, first: nat, last: nat): seq<Entry<K, V>>
    requires first <= last <= |s|
  {
    s[..first] + s[last..]
  }

  function Erased<K(==), V>(s: seq<Entry<K, V>>, k: K): seq<Entry<K, V>> {
    var i := Position(s, k);
    if i < |s| then Cut(s, i, i + 1) else s
  }

  // ---------------------------------------------------------------- the container

  class OrderedMap<K(==), V> {
    var entries: seq<Entry<K, V>>

    constructor ()
      ensures entries == []
    {
      entries := [];
    }

    method Find(key: K) returns (it: nat)
      ensures it == Position(entries, key)
    {
      it := 0;
      while it != |entries|
        invariant it <= |entries|
        invariant forall j | 0 <= j < it :: entries[j].key != key
      {
        if entries[it].key == key { break; }
        it := it + 1;
      }
      PositionIs(entries, key, it);
    }

    method Count(key: K) returns (n: nat)
      ensures n == if Position(entries, key) < |entries| then 1 else 0
    {
      for it := 0 to |entries|
        invariant forall j | 0 <= j < it :: entries[j].key != key
      {
        if entries[it].key == key { return 1; }
      }
      n := 0;
    }

    method At(key: K) returns (r: Answer<V>)
      ensures r == var i := Position(entries, key); if i < |entries| then Found(entries[i].value) else OutOfRange
    {
      for it := 0 to |entries|
        invariant forall j | 0 <= j < it :: entries[j].key != key
      {
        if entries[it].key == key {
          PositionIs(entries, key, it);
          return Found(entries[it].value);
        }
      }
      r := OutOfRange;
    }

    method Emplace(key: K, t: V) returns (it: nat, added: bool)
      modifies this
      ensures entries == Emplaced(old(entries), key, t)
      ensures it == Position(old(entries), key) && it < |entries| && added == (it == |old(entries)|)
    {
      it := 0;
      while it != |entries|
        invariant it <= |entries| && entries == old(entries)
        invariant forall j | 0 <= j < it :: entries[j].key != key
      {
        if entries[it].key == key {
          PositionIs(entries, key, it);
          return it, false;
        }
        it := it + 1;
      }
      PositionIs(entries, key, it);
      entries := entries + [Entry(key, t)];
      return |entries| - 1, true;
    }

    method InsertRange(more: seq<Entry<K, V>>)
      modifies this
      ensures entries == EmplacedAll(old(entries), more)
    {
      for i := 0 to |more|
        invariant EmplacedAll(entries, more[i..]) == EmplacedAll(old(entries), more)
      {
        assert more[i..][1..] == more[i + 1..];
        var _, _ := Emplace(more[i].key, more[i].value);
      }
    }

    method EraseKey(key: K) returns (n: nat)
      modifies this
      ensures entries == Erased(old(entries), key)
      ensures n == if Position(old(entries), key) < |old(entries)| then 1 else 0
    {
      for it := 0 to |entries|
        invariant entries == old(entries)
        invariant forall j | 0 <= j < it :: entries[j].key != key
      {
        if entries[it].key == key {
          PositionIs(entries, key, it);
          ShiftDown(it, 1);
          entries := entries[..|entries| - 1];
          return 1;
        }
      }
      n := 0;
    }

    /** The loop that moves every entry behind a gap over it. */
    method ShiftDown(first: nat, gap: nat)
      requires 0 < gap && first + gap <= |entries|
      modifies this
      ensures |entries| == |old(entries)| && entries[..|entries| - gap] == Cut(old(entries), first, first + gap)
    {
      var it := first;
      while it + gap != |entries|
        invariant first <= it <= |entries| - gap && |entries| == |old(entries)|
        invariant forall j | 0 <= j < first :: entries[j] == old(entries)[j]
        invariant forall j | first <= j < it :: entries[j] == old(entries)[j + gap]
        invariant forall j | it <= j < |entries| :: entries[j] == old(entries)[j]
      {
        entries := entries[it := entries[it + gap]];
        it := it + 1;
      }
    }

    method EraseRange(first: nat, last: nat) returns (it: nat)
      requires first <= last <= |entries|
      modifies this
      ensures entries == Cut(old(entries), first, last)
      ensures it == first && entries[it..] == old(entries)[last..]
    {
      if first == last { return first; }
      var affected := last - first;
      ShiftDown(first, affected);
      entries := entries[..|entries| - affected];
      return first;
    }
  }

  lemma {:induction false} PositionIs<K, V>(s: seq<Entry<K, V>>, k: K, i: nat)
    requires i <= |s| && (i < |s| ==> s[i].key == k)
    requires forall j | 0 <= j < i :: s[j].key != k
    ensures Position(s, k) == i
  {
  }

  // ---------------------------------------------------------------- an insertion-ordered map

  /** Distinct keys in order of insertion, and a mathematical map over them. */
  datatype Model<K, V> = Model(order: seq<K>, content: map<K, V>)

  datatype Change<K, V> =
    | Emplace(key: K, value: V)
    | EraseKey(key: K)
    | EraseRange(first: nat, last: nat)

  predicate Legal<K, V>(size: nat, c: Change<K, V>) { c.EraseRange? ==> c.first <= c.last <= size }

  function Keys<K, V>(s: seq<Entry<K, V>>): (order: seq<K>)
    ensures |order| == |s| && forall i | 0 <= i < |s| :: order[i] == s[i].key
  {
    seq(|s|, i requires 0 <= i < |s| => s[i].key)
  }

  predicate Distinct<K(==)>(order: seq<K>) {
    forall i, j | 0 <= i < j < |order| :: order[i] != order[j]
  }

  /** The map holds exactly the keys of the entries, each with the value of its entry. */
  ghost predicate Holds<K(!new), V>(s: seq<Entry<K, V>>, content: map<K, V>) {
    && (forall i | 0 <= i < |s| :: s[i].key in content && content[s[i].key] == s[i].value)
    && (forall k | k in content :: Position(s, k) < |s|)
  }

  ghost predicate Represents<K(!new), V>(s: seq<Entry<K, V>>, m: Model<K, V>) {
    m.order == Keys(s) && Distinct(m.order) && Holds(s, m.content)
  }

  function Without<K(==)>(order: seq<K>, k: K): seq<K> {
    if order == [] then [] else (if order[0] == k then [] else [order[0]]) + Without(order[1..], k)
  }

  /** What a change means for the mathematical map. */
  function Changed<K(==), V>(m: Model<K, V>, c: Change<K, V>): Model<K, V>
    requires Legal(|m.order|, c)
  {
    match c
    case Emplace(k, v) => if k in m.content then m else Model(m.order + [k], m.content[k := v])
    case EraseKey(k) => Model(Without(m.order, k), m.content - {k})
    case EraseRange(first, last) =>
      Model(m.order[..first] + m.order[last..], m.content - Range(m.order, first, last))
  }

  /** What a change does to the vector. */
  function Stepped<K(==), V>(s: seq<Entry<K, V>>, c: Change<K, V>): seq<Entry<K, V>>
    requires Legal(|s|, c)
  {
    match c
    case Emplace(k, v) => Emplaced(s, k, v)
    case EraseKey(k) => Erased(s, k)
    case EraseRange(first, last) => Cut(s, first, last)
  }

  lemma Present<K, V>(s: seq<Entry<K, V>>, k: K, i: nat)
    requires i < |s| && s[i].key == k
    ensures Position(s, k) < |s|
  {
  }

  lemma HoldsMore<K(!new), V>(s: seq<Entry<K, V>>, content: map<K, V>, k: K, v: V)
    requires Holds(s, content) && k !in content
    ensures Holds(s + [Entry(k, v)], content[k := v])
  {
    var t := s + [Entry(k, v)];
    forall x | x in content[k := v] ensures Position(t, x) < |t| {
      if x == k {
        Present(t, k, |s|);
      } else {
        assert t[Position(s, x)].key == x;
        Present(t, x, Position(s, x));
      }
    }
  }

  lemma StepEmplace<K(!new), V>(s: seq<Entry<K, V>>, m: Model<K, V>, k: K, v: V)
    requires Represents(s, m)
    ensures Represents(Emplaced(s, k, v), Changed(m, Emplace(k, v)))
  {
    if Position(s, k) == |s| {
      HoldsMore(s, m.content, k, v);
      assert Keys(s + [Entry(k, v)]) == Keys(s) + [k];
    }
  }

  /** The keys in a range, which are those of its entries. */
  function Range<K>(order: seq<K>, first: nat, last: nat): set<K>
    requires first <= last <= |order|
  {
    set i | first <= i < last :: order[i]
  }

  lemma HoldsLess<K(!new), V>(s: seq<Entry<K, V>>, content: map<K, V>, first: nat, last: nat)
    requires Holds(s, content) && Distinct(Keys(s)) && first <= last <= |s|
    ensures Holds(Cut(s, first, last), content - Range(Keys(s), first, last))
  {
    var t, gone := Cut(s, first, last), Range(Keys(s), first, last);
    forall i | 0 <= i < |t|
      ensures t[i].key in content && t[i].key !in gone && content[t[i].key] == t[i].value
    {
      var j := if i < first then i else i + (last - first);
      assert t[i] == s[j] && Keys(s)[j] == s[j].key;
    }
    forall x | x in content && x !in gone ensures Position(t, x) < |t| {
      var j := Position(s, x);
      assert Keys(s)[j] == x;
      assert !(first <= j < last);
      Present(t, x, if j < first then j else j - (last - first));
    }
  }

  lemma StepCut<K(!new), V>(s: seq<Entry<K, V>>, m: Model<K, V>, first: nat, last: nat)
    requires Represents(s, m) && first <= last <= |s|
    ensures Represents(Cut(s, first, last), Changed(m, EraseRange(first, last)))
  {
    HoldsLess(s, m.content, first, last);
    CutDistinct(m.order, first, last);
    assert Keys(Cut(s, first, last)) == m.order[..first] + m.order[last..];
  }

  lemma CutDistinct<K>(order: seq<K>, first: nat, last: nat)
    requires Distinct(order) && first <= last <= |order|
    ensures Distinct(order[..first] + order[last..])
  {
  }

  /** Leaving out the only place of a key. */
  lemma {:induction false} WithoutOnly<K>(order: seq<K>, k: K, i: nat)
    requires Distinct(order) && i < |order| && order[i] == k
    ensures Without(order, k) == order[..i] + order[i + 1..]
  {
    if i == 0 {
      WithoutNone(order[1..], k);
    } else {
      assert order[1..][i - 1] == k;
      WithoutOnly(order[1..], k, i - 1);
      assert order[1..][..i - 1] == order[1..i] && order[1..][i..] == order[i + 1..];
    }
  }

  lemma {:induction false} WithoutNone<K>(order: seq<K>, k: K)
    requires forall i | 0 <= i < |order| :: order[i] != k
    ensures Without(order, k) == order
  {
    if order != [] { WithoutNone(order[1..], k); }
  }

  lemma StepErase<K(!new), V>(s: seq<Entry<K, V>>, m: Model<K, V>, k: K)
    requires Represents(s, m)
    ensures Represents(Erased(s, k), Changed(m, EraseKey(k)))
  {
    var i := Position(s, k);
    if i < |s| {
      StepCut(s, m, i, i + 1);
      WithoutOnly(m.order, k, i);
      assert Range(m.order, i, i + 1) == {k};
    } else {
      WithoutNone(m.order, k);
      assert m.content - {k} == m.content;
    }
  }

  /** Every operation does to the vector what it means for the map. */
  lemma StepRefines<K(!new), V>(s: seq<Entry<K, V>>, m: Model<K, V>, c: Change<K, V>)
    requires Represents(s, m) && Legal(|s|, c)
    ensures Represents(Stepped(s, c), Changed(m, c))
  {
    match c
    case Emplace(k, v) => StepEmplace(s, m, k, v);
    case EraseKey(k) => StepErase(s, m, k);
    case EraseRange(first, last) => StepCut(s, m, first, last);
  }

  predicate LegalRun<K(==), V>(s: seq<Entry<K, V>>, run: seq<Change<K, V>>)
    decreases |run|
  {
    run == [] || (Legal(|s|, run[0]) && LegalRun(Stepped(s, run[0]), run[1..]))
  }

  function AfterRun<K(==), V>(s: seq<Entry<K, V>>, run: seq<Change<K, V>>): seq<Entry<K, V>>
    requires LegalRun(s, run)
    decreases |run|
  {
    if run == [] then s else AfterRun(Stepped(s, run[0]), run[1..])
  }

  /** The mathematical map under the same run; a range that is not one changes nothing. */
  function ChangedBy<K(==), V>(m: Model<K, V>, run: seq<Change<K, V>>): Model<K, V>
    decreases |run|
  {
    if run == [] then m
    else ChangedBy(if Legal(|m.order|, run[0]) then Changed(m, run[0]) else m, run[1..])
  }

  lemma {:induction false} RunRefines<K(!new), V>(s: seq<Entry<K, V>>, m: Model<K, V>, run: seq<Change<K, V>>)
    requires Represents(s, m) && LegalRun(s, run)
    ensures Represents(AfterRun(s, run), ChangedBy(m, run))
    decreases |run|
  {
    if run != [] {
      StepRefines(s, m, run[0]);
      RunRefines(Stepped(s, run[0]), Changed(m, run[0]), run[1..]);
    }
  }

  /** Lookup answers from the map: the value of a key that is there, nothing for one that is not. */
  lemma LookupRefines<K(!new), V>(s: seq<Entry<K, V>>, m: Model<K, V>, k: K)
    requires Represents(s, m)
    ensures var i := Position(s, k);
      && (i < |s| <==> k in m.content)
      && (i < |s| ==> m.order[i] == k && s[i].value == m.content[k])
  {
    var i := Position(s, k);
    if i < |s| { assert m.order[i] == s[i].key; }
  }

  /** From the empty map on, over any run: distinct keys, and lookups that agree with the mathematical map. */
  lemma AnyRun<K(!new), V>(run: seq<Change<K, V>>, k: K)
    requires LegalRun([], run)
    ensures var s, m := AfterRun([], run), ChangedBy(Model([], map[]), run);
      && Keys(s) == m.order && Distinct(Keys(s)) && |m.content| == |s|
      && (Position(s, k) < |s| <==> k in m.content)
      && (k in m.content ==> s[Position(s, k)].value == m.content[k])
  {
    var s, m := AfterRun([], run), ChangedBy(Model([], map[]), run);
    RunRefines([], Model([], map[]), run);
    LookupRefines(s, m, k);
    Sizes(s, m);
  }

  lemma {:induction false} Sizes<K(!new), V>(s: seq<Entry<K, V>>, m: Model<K, V>)
    requires Represents(s, m)
    ensures |m.content| == |s|
  {
    KeySet(s);
    assert m.content.Keys == set i | 0 <= i < |s| :: s[i].key;
  }

  lemma {:induction false} KeySet<K, V>(s: seq<Entry<K, V>>)
    requires Distinct(Keys(s))
    ensures |set i | 0 <= i < |s| :: s[i].key| == |s|
  {
    if s != [] {
      var n := |s| - 1;
      var rest := s[..n];
      assert Keys(rest) == Keys(s)[..n];
      KeySet(rest);
      assert (set i | 0 <= i < |s| :: s[i].key) == (set i | 0 <= i < |rest| :: rest[i].key) + {s[n].key};
      assert Keys(s)[n] == s[n].key;
    }
  }

  /**
   * A map built from a list of entries is not searched for repeated keys. Erasing a key then takes
   * away its first entry only, so the key is gone exactly when it had no second entry.
   */
  lemma EraseForgets<K(!new), V>(s: seq<Entry<K, V>>, k: K)
    ensures Position(Erased(s, k), k) == |Erased(s, k)| <==>
            forall i, j | 0 <= i < j < |s| :: s[i].key != k || s[j].key != k
  {
    var p, t := Position(s, k), Erased(s, k);
    if p < |s| {
      forall i | 0 <= i < |t| ensures t[i] == if i < p then s[i] else s[i + 1] {
      }
      if i, j :| 0 <= i < j < |s| && s[i].key == k && s[j].key == k {
        assert t[j - 1].key == k;
      }
    }
  }

  /** Inserting a range is a run of single insertions. */
  lemma {:induction false} InsertIsRun<K(!new), V>(s: seq<Entry<K, V>>, more: seq<Entry<K, V>>)
    ensures var run := seq(|more|, i requires 0 <= i < |more| => Emplace(more[i].key, more[i].value));
            LegalRun(s, run) && EmplacedAll(s, more) == AfterRun(s, run)
    decreases |more|
  {
    if more != [] {
      var run := seq(|more|, i requires 0 <= i < |more| => Emplace(more[i].key, more[i].value));
      var rest := seq(|more[1..]|, i requires 0 <= i < |more[1..]| => Emplace(more[1..][i].key, more[1..][i].value));
      assert run[1..] == rest;
      InsertIsRun(Emplaced(s, more[0].key, more[0].value), more[1..]);
    }
  }
}
