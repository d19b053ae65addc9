/** Metadata of columns and indexes, and when two of them count as the same. */
module Schema {
  import opened Basics
  import opened Text
  import opened Naming

  /** The configurable part of the type mappings (rules.json); nothing is assumed about it. */
  datatype Rules = Rules(sameTypes: map<string, seq<string>>, defaultTypes: map<string, string>)

  datatype IndexKind = Unique | Multiple | Primary

  datatype Index = Index(kind: IndexKind, name: string, columns: seq<string>)

  datatype FieldMeta = FieldMeta(
    fieldName: string,
    cppType: string,
    columnType: Option<string>,
    columnName: Option<string>,
    extra: string,
    isPk: bool,
    autoInc: bool,
    hasIndex: bool,
    notNull: bool,
    defaultValue: string,
    index: Index,
    ignored: bool)
  {
    function ColumnName(): string { columnName.GetOr(CppToDb(fieldName)) }

    function ColumnType(rules: Rules): string { columnType.GetOr(CppTypeToDbType(rules, cppType)) }
  }

  const NO_INDEX := Index(Unique, "", [])

  function CppTypeToDbType(rules: Rules, cppType: string): string {
    if cppType in rules.defaultTypes then rules.defaultTypes[cppType] else cppType
  }

  // ---------------------------------------------------------------- comparison of columns

  /** isSameDbType: synonyms are looked up under the first three characters of the first type. */
  predicate IsSameDbType(rules: Rules, t1: string, t2: string) {
    var key := if |t1| <= 3 then t1 else t1[..3];
    if key in rules.sameTypes && t1 in rules.sameTypes[key] then t2 in rules.sameTypes[key]
    else t1 == t2
  }

  /** isSame, whose path without a return statement is read as false. */
  predicate IsSame(s1: string, s2: string) {
    if s1 == s2 then true
    else if ToLower(s1) == "now()" then ToLower(s2) == "current_timestamp"
    else if ToLower(s2) == "now()" then ToLower(s1) == "current_timestamp"
    else false
  }

  /** What the database keeps of a column. */
  datatype Column = Column(columnType: string, notNull: bool, defaultValue: string, extra: string)

  function ColumnOf(rules: Rules, f: FieldMeta): Column {
    Column(f.ColumnType(rules), f.notNull, f.defaultValue, f.extra)
  }

  /** FieldMeta::operator==, with the right-hand side given by its column. */
  predicate Matches(rules: Rules, f: FieldMeta, name: string, c: Column) {
    && f.ColumnName() == name
    && f.notNull == c.notNull
    && f.extra == c.extra
    && IsSame(f.defaultValue, c.defaultValue)
    && IsSameDbType(rules, f.ColumnType(rules), c.columnType)
  }

  predicate FieldEqual(rules: Rules, f: FieldMeta, g: FieldMeta) {
    Matches(rules, f, g.ColumnName(), ColumnOf(rules, g))
  }

  // ---------------------------------------------------------------- comparison of indexes

  function Elements(s: seq<string>): set<string> { set c | c in s }

  predicate IndexEqual(a: Index, b: Index) {
    var all := Elements(a.columns) + Elements(b.columns);
    a.name == b.name && a.kind == b.kind && |all| == |a.columns| && |all| == |b.columns|
  }

  /** Index::operator==: collects the columns of both indexes in one set. */
  method CompareIndexes(a: Index, b: Index) returns (same: bool)
    ensures same == IndexEqual(a, b)
  {
    if a.name != b.name || a.kind != b.kind { return false; }
    var s: set<string> := {};
    for i := 0 to |a.columns|
      invariant s == Elements(a.columns[..i])
    {
      s := s + {a.columns[i]};
    }
    assert a.columns[..|a.columns|] == a.columns;
    for i := 0 to |b.columns|
      invariant s == Elements(a.columns) + Elements(b.columns[..i])
    {
      s := s + {b.columns[i]};
    }
    assert b.columns[..|b.columns|] == b.columns;
    if |s| != |a.columns| || |s| != |b.columns| { return false; }
    return true;
  }

  ghost predicate Distinct(s: seq<string>) {
    forall i, j | 0 <= i < j < |s| :: s[i] != s[j]
  }

  lemma {:induction false} ElementsCount(s: seq<string>)
    ensures |Elements(s)| <= |s|
    ensures |Elements(s)| == |s| <==> Distinct(s)
  {
    if s != [] {
      var init, last := s[..|s| - 1], s[|s| - 1];
      ElementsCount(init);
      assert s == init + [last];
      if last in init {
        assert Elements(s) == Elements(init);
      } else {
        assert Elements(s) == Elements(init) + {last};
      }
    }
  }

  lemma SubsetCount(a: set<string>, b: set<string>)
    requires a <= b && |a| == |b|
    ensures a == b
  {
    var rest := b - a;
    assert b == a + rest;
  }

  ghost predicate SameIndex(a: Index, b: Index) {
    a.name == b.name && a.kind == b.kind && Elements(a.columns) == Elements(b.columns)
  }

  /** For indexes without repeated columns the comparison is equality up to the order of columns. */
  lemma IndexEqualMeaning(a: Index, b: Index)
    requires Distinct(a.columns) && Distinct(b.columns)
    ensures IndexEqual(a, b) <==> SameIndex(a, b)
  {
    var x, y := Elements(a.columns), Elements(b.columns);
    ElementsCount(a.columns);
    ElementsCount(b.columns);
    if IndexEqual(a, b) {
      SubsetCount(x, x + y);
      SubsetCount(y, x + y);
    } else if x == y {
      assert x + y == x;
    }
  }

  /** An index that lists a column twice does not even compare equal to itself. */
  lemma IndexEqualItself(a: Index)
    ensures IndexEqual(a, a) <==> Distinct(a.columns)
  {
    var x := Elements(a.columns);
    assert x + x == x;
    ElementsCount(a.columns);
  }

  /** With repeated columns the comparison can take different indexes for the same. */
  lemma IndexEqualConfused(p: string, q: string, name: string, kind: IndexKind)
    requires p != q
    ensures var a, b := Index(kind, name, [p, p]), Index(kind, name, [p, q]);
            IndexEqual(a, b) && !SameIndex(a, b)
  {
    var a, b := [p, p], [p, q];
    assert Elements(a) == {p} && Elements(b) == {p, q} by { assert b[0] == p && b[1] == q && a[0] == p; }
    assert {p} + {p, q} == {p, q};
  }

  // ---------------------------------------------------------------- indexes as they are declared

  /** The column names in the texts of an index: a macro may keep several names as one text, "a, b". */
  function NamesIn(texts: seq<string>): seq<string> {
    if texts == [] then [] else Split(texts[0], {',', ' '}) + NamesIn(texts[1..])
  }

  /** The index that a database makes of the text that is printed for this one. */
  function Declared(i: Index): Index { i.(columns := NamesIn(i.columns)) }

  /** A name that a text of its own stands for. */
  predicate IsName(s: string) { s != "" && Free(s, {',', ' '}) }

  lemma SplitName(s: string)
    requires IsName(s)
    ensures Split(s, {',', ' '}) == [s]
  {
    FirstOfFree(s, "", {',', ' '});
    assert s + "" == s && s[..|s|] == s;
  }

  /** Texts that are names are declared as they are. */
  lemma {:induction false} NamesInNames(texts: seq<string>)
    requires forall i | 0 <= i < |texts| :: IsName(texts[i])
    ensures NamesIn(texts) == texts
  {
    if texts != [] {
      SplitName(texts[0]);
      NamesInNames(texts[1..]);
      assert texts == [texts[0]] + texts[1..];
    }
  }

  lemma {:induction false} NamesInOf(texts: seq<string>, n: string)
    ensures n in NamesIn(texts) <==> exists t | t in texts :: n in Split(t, {',', ' '})
  {
    if texts != [] {
      NamesInOf(texts[1..], n);
      assert forall t | t in texts :: t == texts[0] || t in texts[1..];
      assert texts[0] in texts && forall t | t in texts[1..] :: t in texts;
    }
  }

  /** The order of the texts does not matter for the set of names. */
  lemma SameNames(a: seq<string>, b: seq<string>)
    requires Elements(a) == Elements(b)
    ensures Elements(NamesIn(a)) == Elements(NamesIn(b))
  {
    forall n ensures n in NamesIn(a) <==> n in NamesIn(b) {
      NamesInOf(a, n);
      NamesInOf(b, n);
      assert forall t :: t in a <==> t in Elements(a);
      assert forall t :: t in b <==> t in Elements(b);
    }
  }

  /** An index that keeps several names as one text never equals the one that the database makes of it. */
  lemma ListedDiffers(i: Index)
    requires |i.columns| < |NamesIn(i.columns)|
    ensures !IndexEqual(Declared(i), i) && !IndexEqual(i, Declared(i))
  {
  }
}
