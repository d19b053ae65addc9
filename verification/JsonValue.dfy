/** JSON values as the bundled JSON library stores them, and their equality. */
module JsonValue {

  // Object members live in a std::map, so keys are unique and visited in
  // increasing byte order; `SortedKeys` below is that order.
  datatype Json =
    | Null
    | Boolean(b: bool)
    | Integer(i: int)   // number_integer_t, a signed 64-bit integer
    | Unsigned(u: nat)  // number_unsigned_t, an unsigned 64-bit integer
    | Float(r: real)    // number_float_t without NaN and infinities
    | String(s: string)
    | Binary(data: string)
    | Array(elems: seq<Json>)
    | Object(members: map<string, Json>)

  // ---------------------------------------------------------------- equality

  const TWO_TO_THE_53 := 0x20_0000_0000_0000
  const TWO_TO_THE_63 := 0x8000_0000_0000_0000
  const TWO_TO_THE_64 := 0x1_0000_0000_0000_0000

  /** static_cast from the unsigned to the signed 64-bit type (wraps around). */
  function UnsignedToInteger(u: nat): int {
    var w := u % TWO_TO_THE_64;
    if w < TWO_TO_THE_63 then w else w - TWO_TO_THE_64
  }

  /** static_cast from an integer to double: 53 significant bits, ties to even. */
  function IntegerToFloat(i: int): real {
    if i < 0 then -(RoundTo53Bits(-i, 1) as real) else RoundTo53Bits(i, 1) as real
  }

  function RoundTo53Bits(n: nat, unit: nat): nat
    requires unit > 0
    decreases n - unit
  {
    if unit >= n || n < TWO_TO_THE_53 * unit then
      var q, rest := n / unit, n % unit;
      unit * (if 2 * rest > unit || (2 * rest == unit && q % 2 == 1) then q + 1 else q)
    else
      RoundTo53Bits(n, 2 * unit)
  }

  /** Equality of values that are not both arrays and not both objects. */
  predicate SameScalar(a: Json, b: Json) {
    if a.Integer? && b.Float? then IntegerToFloat(a.i) == b.r
    else if a.Float? && b.Integer? then a.r == IntegerToFloat(b.i)
    else if a.Unsigned? && b.Float? then IntegerToFloat(a.u) == b.r
    else if a.Float? && b.Unsigned? then a.r == IntegerToFloat(b.u)
    else if a.Unsigned? && b.Integer? then UnsignedToInteger(a.u) == b.i
    else if a.Integer? && b.Unsigned? then a.i == UnsignedToInteger(b.u)
    else a == b
  }

  /** operator==: numbers of different kinds may be equal, containers compare member by member. */
  predicate Equal(a: Json, b: Json) {
    if a.Array? && b.Array? then
      |a.elems| == |b.elems| && forall i | 0 <= i < |a.elems| :: Equal(a.elems[i], b.elems[i])
    else if a.Object? && b.Object? then
      && a.members.Keys == b.members.Keys
      && forall k | k in a.members :: Equal(a.members[k], b.members[k])
    else
      SameScalar(a, b)
  }

  /** Every value equals itself, though across kinds of numbers the comparison is not transitive. */
  lemma {:induction false} EqualReflexive(a: Json)
    ensures Equal(a, a)
  {
    if a.Array? {
      forall i | 0 <= i < |a.elems| ensures Equal(a.elems[i], a.elems[i]) { EqualReflexive(a.elems[i]); }
    } else if a.Object? {
      forall k | k in a.members ensures Equal(a.members[k], a.members[k]) { EqualReflexive(a.members[k]); }
    }
  }

  /** type(): the stored kind, which tells the three number kinds apart. */
  predicate SameType(a: Json, b: Json) {
    match a
    case Null => b.Null?
    case Boolean(_) => b.Boolean?
    case Integer(_) => b.Integer?
    case Unsigned(_) => b.Unsigned?
    case Float(_) => b.Float?
    case String(_) => b.String?
    case Binary(_) => b.Binary?
    case Array(_) => b.Array?
    case Object(_) => b.Object?
  }

  // ---------------------------------------------------------------- key order

  /** Byte-wise lexicographic order of keys. */
  predicate AtMost(a: string, b: string) {
    a == [] || (b != [] && (a[0] < b[0] || (a[0] == b[0] && AtMost(a[1..], b[1..]))))
  }

  lemma {:induction false} AtMostAntisymmetric(a: string, b: string)
    requires AtMost(a, b) && AtMost(b, a)
    ensures a == b
  {
    if a != [] {
      AtMostAntisymmetric(a[1..], b[1..]);
      assert a == [a[0]] + a[1..] && b == [b[0]] + b[1..];
    }
  }

  lemma {:induction false} AtMostTotal(a: string, b: string)
    ensures AtMost(a, b) || AtMost(b, a)
  {
    if a != [] && b != [] { AtMostTotal(a[1..], b[1..]); }
  }

  lemma {:induction false} AtMostTransitive(a: string, b: string, c: string)
    requires AtMost(a, b) && AtMost(b, c)
    ensures AtMost(a, c)
  {
    if a != [] && a[0] == b[0] == c[0] { AtMostTransitive(a[1..], b[1..], c[1..]); }
  }

  predicate IsFirst(k: string, keys: set<string>) {
    k in keys && forall other | other in keys :: AtMost(k, other)
  }

  lemma {:induction false} FirstExists(keys: set<string>)
    requires keys != {}
    ensures exists k :: IsFirst(k, keys)
  {
    var one :| one in keys;
    var rest := keys - {one};
    AtMostTotal(one, one);
    if rest == {} {
      assert keys == {one};
      assert IsFirst(one, keys);
    } else {
      FirstExists(rest);
      var first :| IsFirst(first, rest);
      AtMostTotal(one, first);
      var k := if AtMost(one, first) then one else first;
      forall other | other in keys ensures AtMost(k, other) {
        if other != one && k == one { AtMostTransitive(one, first, other); }
      }
      assert IsFirst(k, keys);
    }
  }

  function FirstKey(keys: set<string>): (k: string)
    requires keys != {}
    ensures IsFirst(k, keys)
  {
    FirstExists(keys);
    assert forall k, l | IsFirst(k, keys) && IsFirst(l, keys) :: k == l by {
      forall k, l | IsFirst(k, keys) && IsFirst(l, keys) ensures k == l { AtMostAntisymmetric(k, l); }
    }
    var k :| IsFirst(k, keys);
    k
  }

  /** The order in which iterators visit an object's members. */
  function SortedKeys(keys: set<string>): (r: seq<string>)
    ensures forall k :: k in r <==> k in keys
  {
    if keys == {} then [] else
      var k := FirstKey(keys);
      [k] + SortedKeys(keys - {k})
  }

  ghost predicate Increasing(r: seq<string>) {
    forall i, j | 0 <= i < j < |r| :: r[i] != r[j] && AtMost(r[i], r[j])
  }

  /** Each key is visited once, in increasing order. */
  lemma {:induction false} SortedKeysIncrease(keys: set<string>)
    ensures Increasing(SortedKeys(keys))
  {
    if keys != {} {
      var k := FirstKey(keys);
      SortedKeysIncrease(keys - {k});
      forall j | 0 < j < |SortedKeys(keys)|
        ensures SortedKeys(keys)[j] != k && AtMost(k, SortedKeys(keys)[j])
      {
        assert SortedKeys(keys)[j] in SortedKeys(keys - {k});
      }
    }
  }
}
