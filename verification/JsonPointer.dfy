/**
 JSON pointers as sequences of reference tokens, evaluated as in section 4 of RFC 6901.
 */
module JsonPointer {
  import opened JsonValue

  type Pointer = seq<string>

  // The exceptions the library throws here, by their numbers.
  datatype Error =
    | LeadingZero          // parse_error.106
    | NotANumber           // parse_error.109
    | IndexOutOfRange      // out_of_range.401
    | DashOutOfRange       // out_of_range.402
    | KeyNotFound          // out_of_range.403
    | UnresolvedToken      // out_of_range.404
    | NoParent             // out_of_range.405
    | TestFailed           // other_error.501
    | PrimitiveParent      // JSON_ASSERT(false)
  {
    predicate OutOfRange() {
      IndexOutOfRange? || DashOutOfRange? || KeyNotFound? || UnresolvedToken? || NoParent?
    }
  }

  datatype Result<+T> = Ok(value: T) | Err(error: Error) {
    predicate IsFailure() { Err? }
    function PropagateFailure<U>(): Result<U> requires Err? { Err(error) }
    function Extract(): T requires Ok? { value }
  }

  // ---------------------------------------------------------------- array indices

  predicate IsDigit(c: char) { '0' <= c <= '9' }

  function DigitValue(c: char): (v: nat)
    requires IsDigit(c)
  {
    c as int - '0' as int
  }

  /** std::to_string. */
  function ToString(n: nat): string {
    var last := ('0' as int + n % 10) as char;
    if n < 10 then [last] else ToString(n / 10) + [last]
  }

  /** strtoull on a token made of digits only. */
  function DecimalValue(s: string): nat
    requires forall c | c in s :: IsDigit(c)
  {
    if s == [] then 0
    else DecimalValue(s[..|s| - 1]) * 10 + DigitValue(s[|s| - 1])
  }

  /** array_index: a token without a leading zero, digits to the end. */
  function ArrayIndex(token: string): Result<nat> {
    if |token| > 1 && token[0] == '0' then Err(LeadingZero)
    else if |token| > 1 && !('1' <= token[0] <= '9') then Err(NotANumber)
    else if token == [] || exists c | c in token :: !IsDigit(c) then Err(UnresolvedToken)
    else Ok(DecimalValue(token))
  }

  lemma {:induction false} ToStringDigits(n: nat)
    ensures ToString(n) != []
    ensures forall c | c in ToString(n) :: IsDigit(c)
    ensures ToString(n)[0] == '0' ==> n == 0
    ensures DecimalValue(ToString(n)) == n
  {
    if n >= 10 {
      ToStringDigits(n / 10);
      assert ToString(n)[..|ToString(n)| - 1] == ToString(n / 10);
    } else {
      assert ToString(n)[..0] == [];
    }
  }

  /** A printed index reads back as itself, and it is never the append token. */
  lemma IndexRoundTrip(n: nat)
    ensures ArrayIndex(ToString(n)) == Ok(n)
    ensures ToString(n) != "-"
  {
    ToStringDigits(n);
    assert '-' in "-";
    if n < 10 { assert |ToString(n)| == 1; }
  }

  /** And a token that is read as an index is the printed form of that index. */
  lemma {:induction false} IndexUnique(token: string)
    requires ArrayIndex(token).Ok?
    ensures ToString(ArrayIndex(token).value) == token
  {
    DecimalPrinted(token);
  }

  lemma {:induction false} DecimalPrinted(s: string)
    requires s != [] && (forall c | c in s :: IsDigit(c)) && (|s| > 1 ==> s[0] != '0')
    ensures ToString(DecimalValue(s)) == s
    ensures |s| > 1 ==> DecimalValue(s) >= 10
    ensures s[0] != '0' ==> DecimalValue(s) > 0
  {
    var init, last := s[..|s| - 1], s[|s| - 1];
    assert s == init + [last] && last in s;
    if init == [] {
      assert DecimalValue(s) == DigitValue(last);
    } else {
      DecimalPrinted(init);
      assert DecimalValue(s) / 10 == DecimalValue(init) && DecimalValue(s) % 10 == DigitValue(last);
    }
  }

  // ---------------------------------------------------------------- evaluation

  /** One step of get_checked. */
  function Child(j: Json, token: string): Result<Json> {
    match j
    case Object(m) =>
      if token in m then Ok(m[token]) else Err(KeyNotFound)
    case Array(a) =>
      if token == "-" then Err(DashOutOfRange) else
        var i :- ArrayIndex(token);
        if i < |a| then Ok(a[i]) else Err(IndexOutOfRange)
    case _ =>
      Err(UnresolvedToken)
  }

  /** at(): the value a pointer denotes. */
  function At(j: Json, p: Pointer): Result<Json> {
    if p == [] then Ok(j) else
      var child :- Child(j, p[0]);
      At(child, p[1..])
  }

  lemma AtOne(j: Json, token: string)
    ensures At(j, [token]) == Child(j, token)
  {
    assert [token][1..] == [];
  }

  /** The document after the value at an existing child has been assigned to. */
  function SetChild(j: Json, token: string, v: Json): Json
    requires Child(j, token).Ok?
  {
    match j
    case Object(m) => Object(m[token := v])
    case Array(a) => Array(a[ArrayIndex(token).value := v])
  }

  /** Reading through an assigned child sees the assigned value; nothing beside it changed. */
  lemma SetChildFrame(j: Json, token: string, v: Json)
    requires Child(j, token).Ok?
    ensures var k := SetChild(j, token, v);
      && Child(k, token) == Ok(v)
      && (forall w :: SetChild(k, token, w) == SetChild(j, token, w))
      && (forall other: string | Child(j, other).Ok? && Child(j, other) != Child(k, other) ::
            if j.Array? then ArrayIndex(other) == ArrayIndex(token) else other == token)
      && (j.Object? ==> k.Object? && k.members.Keys == j.members.Keys)
      && (j.Array? ==> k.Array? && |k.elems| == |j.elems|)
    ensures SetChild(j, token, Child(j, token).value) == j
  {
    var k := SetChild(j, token, v);
    match j
    case Object(m) =>
      assert m[token := m[token]] == m;
      forall w ensures SetChild(k, token, w) == SetChild(j, token, w) {
        assert m[token := v][token := w] == m[token := w];
      }
    case Array(a) =>
      var i := ArrayIndex(token).value;
      assert a[i := a[i]] == a;
      forall w ensures SetChild(k, token, w) == SetChild(j, token, w) {
        assert a[i := v][i := w] == a[i := w];
      }
  }
}
