/** What it means for two JSON values to compare equal. */
module JsonEquality {
  import opened JsonValue
  import opened JsonPointer

  // ---------------------------------------------------------------- values without numbers

  /** No number at any depth. */
  predicate NumberFree(j: Json) {
    match j
    case Integer(_) => false
    case Unsigned(_) => false
    case Float(_) => false
    case Array(a) => forall i | 0 <= i < |a| :: NumberFree(a[i])
    case Object(m) => forall k | k in m :: NumberFree(m[k])
    case _ => true
  }

  /** Without numbers, only the very same value compares equal, on either side. */
  lemma {:induction false} NumberFreeEqual(a: Json, b: Json)
    requires NumberFree(b)
    ensures Equal(a, b) <==> a == b
    ensures Equal(b, a) <==> a == b
    decreases b
  {
    if a.Array? && b.Array? {
      ElementsEqual(a.elems, b.elems, b);
    } else if a.Object? && b.Object? {
      MembersEqual(a.members, b.members, b);
    }
  }

  lemma {:induction false} ElementsEqual(a: seq<Json>, b: seq<Json>, whole: Json)
    requires whole == Array(b) && NumberFree(whole)
    ensures Equal(Array(a), Array(b)) <==> a == b
    ensures Equal(Array(b), Array(a)) <==> a == b
    decreases whole, 0
  {
    if |a| == |b| {
      forall i | 0 <= i < |b|
        ensures Equal(a[i], b[i]) <==> a[i] == b[i]
        ensures Equal(b[i], a[i]) <==> a[i] == b[i]
      {
        NumberFreeEqual(a[i], b[i]);
      }
    }
  }

  lemma {:induction false} MembersEqual(a: map<string, Json>, b: map<string, Json>, whole: Json)
    requires whole == Object(b) && NumberFree(whole)
    ensures Equal(Object(a), Object(b)) <==> a == b
    ensures Equal(Object(b), Object(a)) <==> a == b
    decreases whole, 0
  {
    if a.Keys == b.Keys {
      forall k | k in b
        ensures Equal(a[k], b[k]) <==> a[k] == b[k]
        ensures Equal(b[k], a[k]) <==> a[k] == b[k]
      {
        NumberFreeEqual(a[k], b[k]);
      }
    }
  }

  // ---------------------------------------------------------------- numbers

  predicate IsNumber(j: Json) { j.Integer? || j.Unsigned? || j.Float? }

  /** The number that a value of one of the three kinds stands for. */
  function NumberOf(j: Json): real
    requires IsNumber(j)
  {
    match j
    case Integer(i) => i as real
    case Unsigned(u) => u as real
    case Float(r) => r
  }

  /** Integers that a double holds exactly. */
  predicate IsExact(j: Json) {
    match j
    case Integer(i) => -TWO_TO_THE_53 <= i <= TWO_TO_THE_53
    case Unsigned(u) => u <= TWO_TO_THE_53
    case _ => true
  }

  lemma SmallIsExact(n: nat)
    requires n <= TWO_TO_THE_53
    ensures RoundTo53Bits(n, 1) == n
  {
    if n == TWO_TO_THE_53 {
      assert RoundTo53Bits(n, 1) == RoundTo53Bits(n, 2);
    }
  }

  /** Whatever their kinds, numbers that a double holds exactly are equal as numbers. */
  lemma NumbersEqual(a: Json, b: Json)
    requires IsNumber(a) && IsNumber(b) && IsExact(a) && IsExact(b)
    ensures Equal(a, b) <==> NumberOf(a) == NumberOf(b)
  {
    if a.Integer? { SmallIsExact(if a.i < 0 then -a.i else a.i); }
    if b.Integer? { SmallIsExact(if b.i < 0 then -b.i else b.i); }
    if a.Unsigned? { SmallIsExact(a.u); }
    if b.Unsigned? { SmallIsExact(b.u); }
  }

  /** An unsigned number equals a signed one of the same bits: beyond the signed range the sign is lost. */
  lemma UnsignedEqual(u: nat, i: int)
    requires u < TWO_TO_THE_64
    ensures Equal(Unsigned(u), Integer(i)) <==> i == if u < TWO_TO_THE_63 then u else u - TWO_TO_THE_64
    ensures Equal(Integer(i), Unsigned(u)) <==> Equal(Unsigned(u), Integer(i))
  {
  }

  /** Between two doubles an integer goes to the nearer one, and from the middle to the even one. */
  lemma RoundedEqual(r: real)
    ensures Equal(Integer(TWO_TO_THE_53 + 1), Float(r)) <==> r == TWO_TO_THE_53 as real
    ensures Equal(Integer(TWO_TO_THE_53 + 3), Float(r)) <==> r == (TWO_TO_THE_53 + 4) as real
    ensures Equal(Float(r), Unsigned(4 * TWO_TO_THE_53 + 5)) <==> r == (4 * TWO_TO_THE_53 + 8) as real
  {
    RoundUp(TWO_TO_THE_53 + 1);
    RoundUp(TWO_TO_THE_53 + 3);
    var n := 4 * TWO_TO_THE_53 + 5;
    RoundUp(n);
    assert RoundTo53Bits(n, 2) == RoundTo53Bits(n, 4) == RoundTo53Bits(n, 8);
  }

  lemma RoundUp(n: nat)
    requires n >= TWO_TO_THE_53
    ensures RoundTo53Bits(n, 1) == RoundTo53Bits(n, 2)
  {
  }

  /** Numbers of different kinds make the comparison one that does not carry over. */
  lemma NotTransitive()
    ensures var a, b, c := Integer(TWO_TO_THE_53 + 1), Float(TWO_TO_THE_53 as real), Integer(TWO_TO_THE_53);
      Equal(a, b) && Equal(b, c) && !Equal(a, c)
  {
    RoundedEqual(TWO_TO_THE_53 as real);
    SmallIsExact(TWO_TO_THE_53);
  }

  // ---------------------------------------------------------------- place by place

  /** Two values look the same at one place: as large as each other, or equal when they hold no values. */
  predicate SamePlace(x: Json, y: Json) {
    if x.Array? && y.Array? then |x.elems| == |y.elems|
    else if x.Object? && y.Object? then x.members.Keys == y.members.Keys
    else if IsNumber(x) && IsNumber(y) then Equal(x, y)
    else x == y
  }

  predicate SameAt(a: Json, b: Json, p: Pointer) {
    match (At(a, p), At(b, p))
    case (Ok(x), Ok(y)) => SamePlace(x, y)
    case (Err(_), Err(_)) => true
    case _ => false
  }

  lemma {:induction false} EqualAt(a: Json, b: Json, p: Pointer)
    requires Equal(a, b)
    ensures SameAt(a, b, p)
  {
    if p != [] {
      if Child(a, p[0]).Ok? && Child(b, p[0]).Ok? {
        EqualAt(Child(a, p[0]).value, Child(b, p[0]).value, p[1..]);
      }
    }
  }

  lemma PlaceBelow(a: Json, b: Json, token: string, p: Pointer)
    requires Child(a, token).Ok? && Child(b, token).Ok?
    ensures SameAt(a, b, [token] + p) <==> SameAt(Child(a, token).value, Child(b, token).value, p)
  {
    assert ([token] + p)[1..] == p;
  }

  /**
   Two values compare equal exactly when every pointer can be followed in both or in neither, and finds
   arrays of one length, objects with one set of keys, equal numbers, or the same other value.
   */
  lemma {:induction false} EqualPlaceByPlace(a: Json, b: Json)
    ensures Equal(a, b) <==> forall p: Pointer :: SameAt(a, b, p)
    decreases a
  {
    if Equal(a, b) {
      forall p: Pointer ensures SameAt(a, b, p) { EqualAt(a, b, p); }
    } else if forall p: Pointer :: SameAt(a, b, p) {
      assert SameAt(a, b, []);
      if a.Array? {
        var i :| 0 <= i < |a.elems| && !Equal(a.elems[i], b.elems[i]);
        IndexRoundTrip(i);
        BelowAll(a, b, ToString(i));
        EqualPlaceByPlace(a.elems[i], b.elems[i]);
      } else if a.Object? {
        var k :| k in a.members && !Equal(a.members[k], b.members[k]);
        BelowAll(a, b, k);
        EqualPlaceByPlace(a.members[k], b.members[k]);
      }
    }
  }

  lemma BelowAll(a: Json, b: Json, token: string)
    requires Child(a, token).Ok? && Child(b, token).Ok? && forall p: Pointer :: SameAt(a, b, p)
    ensures forall p: Pointer :: SameAt(Child(a, token).value, Child(b, token).value, p)
  {
    forall p: Pointer ensures SameAt(Child(a, token).value, Child(b, token).value, p) {
      PlaceBelow(a, b, token, p);
    }
  }
}
