/** The batch INSERT statement of a model: its placeholders and the values bound to them. */
module BatchInsert {
  import opened Basics
  import opened Schema

  // ---------------------------------------------------------------- prepared statements

  datatype ParamKind = LongParam | StringParam | TimestampParam

  datatype Param<C> = Param(kind: ParamKind, value: C)

  /** How many placeholders a text has. */
  function Marks(s: string): nat {
    if s == "" then 0 else (if s[0] == '?' then 1 else 0) + Marks(s[1..])
  }

  class Statement<C> {
    var paramBind: seq<Option<Param<C>>>
    ghost var positions: seq<int>  // the arguments of every call that set a value

    constructor (sql: string)
      ensures paramBind == seq(Marks(sql), i => None) && positions == []
    {
      paramBind := seq(Marks(sql), i => None);
      positions := [];
    }

    /** setInt, setString and setTime. */
    method SetParam(columnIndex: int, kind: ParamKind, value: C)
      modifies this
      ensures if 0 < columnIndex <= |old(paramBind)| then
                && paramBind == old(paramBind)[columnIndex - 1 := Some(Param(kind, value))]
                && positions == old(positions) + [columnIndex]
              else paramBind == old(paramBind) && positions == old(positions)
    {
      if columnIndex > 0 && columnIndex <= |paramBind| {
        paramBind := paramBind[columnIndex - 1 := Some(Param(kind, value))];
        positions := positions + [columnIndex];
      }
    }
  }

  // ---------------------------------------------------------------- the text

  function Listed(parts: seq<string>): string {
    if |parts| == 0 then ""
    else if |parts| == 1 then parts[0]
    else Listed(parts[..|parts| - 1]) + ", " + parts[|parts| - 1]
  }

  /** The fields among the first n that are not ignored. */
  function Kept(metadata: seq<FieldMeta>, n: nat): (kept: seq<nat>)
    requires n <= |metadata|
    ensures forall c | 0 <= c < |kept| :: kept[c] < n && !metadata[kept[c]].ignored
  {
    if n == 0 then []
    else Kept(metadata, n - 1) + if metadata[n - 1].ignored then [] else [n - 1]
  }

  function Columns(metadata: seq<FieldMeta>, n: nat): seq<string>
    requires n <= |metadata|
  {
    var kept := Kept(metadata, n);
    seq(|kept|, c requires 0 <= c < |kept| => metadata[kept[c]].ColumnName())
  }

  function RowText(k: nat): string { "(" + Listed(seq(k, c => "?")) + ")" }

  function InsertText(table: string, metadata: seq<FieldMeta>, n: nat): string {
    var columns := Columns(metadata, |metadata|);
    "INSERT INTO " + table + "(" + Listed(columns) + ") VALUES" + Listed(seq(n, r => RowText(|columns|)))
  }

  lemma ListedMore(parts: seq<string>, last: string)
    ensures Listed(parts + [last]) == (if parts == [] then "" else Listed(parts) + ", ") + last
  {
    if parts == [] {
      assert [] + [last] == [last];
    } else {
      assert (parts + [last])[..|parts|] == parts;
    }
  }

  lemma ListedAfter(before: string, parts: seq<string>, last: string)
    ensures before + Listed(parts + [last]) ==
            (before + Listed(parts)) + (if |parts| == 0 then "" else ", ") + last
  {
    ListedMore(parts, last);
    if |parts| > 0 {
      Regroup(before, Listed(parts) + ", ", last);
      Regroup(before, Listed(parts), ", ");
    }
  }

  lemma ColumnsStep(metadata: seq<FieldMeta>, i: nat)
    requires i < |metadata|
    ensures metadata[i].ignored ==> Columns(metadata, i + 1) == Columns(metadata, i)
    ensures !metadata[i].ignored ==> Columns(metadata, i + 1) == Columns(metadata, i) + [metadata[i].ColumnName()]
  {
  }

  lemma PrintedStep(metadata: seq<FieldMeta>, i: nat, sql: string, before: string)
    requires i < |metadata| && !metadata[i].ignored && sql == before + Listed(Columns(metadata, i))
    ensures before + Listed(Columns(metadata, i + 1)) ==
            sql + (if |Kept(metadata, i)| == 0 then "" else ", ") + metadata[i].ColumnName()
  {
    ColumnsStep(metadata, i);
    ListedAfter(before, Columns(metadata, i), metadata[i].ColumnName());
  }

  method PrintColumns(metadata: seq<FieldMeta>, before: string) returns (sql: string, cnt: nat)
    ensures sql == before + Listed(Columns(metadata, |metadata|)) && cnt == |Kept(metadata, |metadata|)|
  {
    sql, cnt := before, 0;
    var isFirst := true;
    for i := 0 to |metadata|
      invariant sql == before + Listed(Columns(metadata, i)) && cnt == |Kept(metadata, i)|
      invariant isFirst == (cnt == 0)
    {
      if metadata[i].ignored {
        ColumnsStep(metadata, i);
        continue;
      }
      PrintedStep(metadata, i, sql, before);
      if !isFirst { sql := sql + ", "; }
      isFirst := false;
      sql := sql + metadata[i].ColumnName();
      cnt := cnt + 1;
    }
  }

  method PrintRow(k: nat, before: string) returns (sql: string)
    ensures sql == before + RowText(k)
  {
    sql := before + "(";
    for i := 0 to k
      invariant sql == before + "(" + (Listed(seq(i, c => "?")) + if 0 < i < k then ", " else "")
    {
      ListedMore(seq(i, c => "?"), "?");
      assert seq(i + 1, c => "?") == seq(i, c => "?") + ["?"];
      sql := sql + "?";
      if i < k - 1 { sql := sql + ", "; }
    }
    sql := sql + ")";
  }

  method PrintRows(n: nat, k: nat, before: string) returns (sql: string)
    ensures sql == before + Listed(seq(n, r => RowText(k)))
  {
    sql := before;
    for j := 0 to n
      invariant sql == before + Listed(seq(j, r => RowText(k)))
    {
      ListedMore(seq(j, r => RowText(k)), RowText(k));
      assert seq(j + 1, r => RowText(k)) == seq(j, r => RowText(k)) + [RowText(k)];
      if j > 0 { sql := sql + ", "; }
      sql := PrintRow(k, sql);
    }
  }

  // ---------------------------------------------------------------- the values

  /** The text behind the last ':'. */
  function CppTypeName(typeName: string): string
    decreases |typeName|
  {
    if forall i | 0 <= i < |typeName| :: typeName[i] != ':' then typeName else CppTypeName(typeName[1..])
  }

  function KindOf(cppType: string): Option<ParamKind> {
    if cppType == "int" then Some(LongParam)
    else if CppTypeName(cppType) == "string" then Some(StringParam)
    else if CppTypeName(cppType) == "Timestamp" then Some(TimestampParam)
    else None
  }

  /** What is bound for a field; nothing when its type is none of the three. */
  function Wanted<C>(field: FieldMeta, value: C): Option<Param<C>> {
    match KindOf(field.cppType)
    case Some(kind) => Some(Param(kind, value))
    case None => None
  }

  function RowValues<C>(metadata: seq<FieldMeta>, row: seq<C>, n: nat): seq<Option<Param<C>>>
    requires n <= |metadata| == |row|
  {
    if n == 0 then []
    else RowValues(metadata, row, n - 1) + if metadata[n - 1].ignored then [] else [Wanted(metadata[n - 1], row[n - 1])]
  }

  predicate Fits<C>(metadata: seq<FieldMeta>, rows: seq<seq<C>>) {
    forall r | 0 <= r < |rows| :: |rows[r]| == |metadata|
  }

  function AllValues<C>(metadata: seq<FieldMeta>, rows: seq<seq<C>>, n: nat): seq<Option<Param<C>>>
    requires Fits(metadata, rows) && n <= |rows|
  {
    if n == 0 then [] else AllValues(metadata, rows, n - 1) + RowValues(metadata, rows[n - 1], |metadata|)
  }

  /** The positions of the values that are there, from the left. */
  function Settled<C>(values: seq<Option<Param<C>>>): seq<int> {
    var n := |values|;
    if n == 0 then [] else Settled(values[..n - 1]) + if values[n - 1].Some? then [n] else []
  }

  /** Each of these positions is listed once. */
  lemma {:induction false} SettledOnce<C>(values: seq<Option<Param<C>>>, p: int)
    ensures multiset(Settled(values))[p] == if 0 < p <= |values| && values[p - 1].Some? then 1 else 0
  {
    var n := |values|;
    if n > 0 { SettledOnce(values[..n - 1], p); }
  }

  lemma SettledNext<C>(values: seq<Option<Param<C>>>, value: Option<Param<C>>)
    ensures Settled(values + [value]) == Settled(values) + if value.Some? then [|values| + 1] else []
  {
    assert (values + [value])[..|values|] == values;
  }

  function Unset<C>(n: nat): seq<Option<Param<C>>> { seq(n, i => None) }

  /** The bindings when the first values are settled and the rest has not been reached. */
  predicate BoundTo<C(==)>(bind: seq<Option<Param<C>>>, values: seq<Option<Param<C>>>) {
    |values| <= |bind| && bind == values + Unset(|bind| - |values|)
  }

  lemma BindNext<C>(bind: seq<Option<Param<C>>>, values: seq<Option<Param<C>>>, value: Option<Param<C>>)
    requires BoundTo(bind, values) && |values| < |bind|
    ensures BoundTo(bind[|values| := value], values + [value]) && bind[|values|] == None
  {
  }

  method BindField<C(==)>(stmt: Statement<C>, cnt: nat, field: FieldMeta, value: C, ghost values: seq<Option<Param<C>>>)
    requires cnt == |values| + 1 && cnt <= |stmt.paramBind| && BoundTo(stmt.paramBind, values)
    requires stmt.positions == Settled(values)
    modifies stmt
    ensures |stmt.paramBind| == |old(stmt.paramBind)|
    ensures var all := values + [Wanted(field, value)]; BoundTo(stmt.paramBind, all) && stmt.positions == Settled(all)
  {
    BindNext(stmt.paramBind, values, Wanted(field, value));
    SettledNext(values, Wanted(field, value));
    assert Wanted(field, value) == None ==> stmt.paramBind[|values| := None] == stmt.paramBind;
    if field.cppType == "int" {
      stmt.SetParam(cnt, LongParam, value);
    } else if CppTypeName(field.cppType) == "string" {
      stmt.SetParam(cnt, StringParam, value);
    } else if CppTypeName(field.cppType) == "Timestamp" {
      stmt.SetParam(cnt, TimestampParam, value);
    }
  }

  lemma {:induction false} RowLength<C>(metadata: seq<FieldMeta>, row: seq<C>, n: nat)
    requires n <= |metadata| == |row|
    ensures |RowValues(metadata, row, n)| == |Kept(metadata, n)|
  {
    if n > 0 { RowLength(metadata, row, n - 1); }
  }

  lemma {:induction false} KeptGrows(metadata: seq<FieldMeta>, n: nat, m: nat)
    requires n <= m <= |metadata|
    ensures |Kept(metadata, n)| <= |Kept(metadata, m)|
    ensures n < m && !metadata[n].ignored ==> |Kept(metadata, n)| < |Kept(metadata, m)|
    decreases m
  {
    if n < m { KeptGrows(metadata, n, m - 1); }
  }

  method BindRow<C(==)>(stmt: Statement<C>, start: nat, metadata: seq<FieldMeta>, row: seq<C>,
                        ghost values: seq<Option<Param<C>>>) returns (cnt: nat)
    requires |metadata| == |row| && start == |values| + 1 && BoundTo(stmt.paramBind, values)
    requires |values| + |Kept(metadata, |metadata|)| <= |stmt.paramBind| && stmt.positions == Settled(values)
    modifies stmt
    ensures |stmt.paramBind| == |old(stmt.paramBind)| && cnt == start + |Kept(metadata, |metadata|)|
    ensures var all := values + RowValues(metadata, row, |metadata|);
            BoundTo(stmt.paramBind, all) && stmt.positions == Settled(all)
  {
    cnt := start;
    assert values + [] == values;
    for i := 0 to |metadata|
      invariant |stmt.paramBind| == |old(stmt.paramBind)| && cnt == start + |Kept(metadata, i)|
      invariant |RowValues(metadata, row, i)| == |Kept(metadata, i)|
      invariant BoundTo(stmt.paramBind, values + RowValues(metadata, row, i))
      invariant stmt.positions == Settled(values + RowValues(metadata, row, i))
    {
      KeptGrows(metadata, i, |metadata|);
      ghost var settled := values + RowValues(metadata, row, i);
      if metadata[i].ignored {
        assert RowValues(metadata, row, i + 1) == RowValues(metadata, row, i);
        continue;
      }
      assert settled + [Wanted(metadata[i], row[i])] == values + RowValues(metadata, row, i + 1);
      BindField(stmt, cnt, metadata[i], row[i], settled);
      cnt := cnt + 1;
    }
  }

  method BindRows<C(==)>(stmt: Statement<C>, metadata: seq<FieldMeta>, rows: seq<seq<C>>)
    requires Fits(metadata, rows) && stmt.positions == [] && BoundTo(stmt.paramBind, [])
    requires |rows| * |Kept(metadata, |metadata|)| <= |stmt.paramBind|
    modifies stmt
    ensures |stmt.paramBind| == |old(stmt.paramBind)|
    ensures BoundTo(stmt.paramBind, AllValues(metadata, rows, |rows|))
    ensures stmt.positions == Settled(AllValues(metadata, rows, |rows|))
  {
    var cnt := 1;
    for j := 0 to |rows|
      invariant |stmt.paramBind| == |old(stmt.paramBind)| && cnt == |AllValues(metadata, rows, j)| + 1
      invariant BoundTo(stmt.paramBind, AllValues(metadata, rows, j))
      invariant stmt.positions == Settled(AllValues(metadata, rows, j))
    {
      RoomForRow(metadata, rows, j);
      cnt := BindRow(stmt, cnt, metadata, rows[j], AllValues(metadata, rows, j));
    }
  }

  lemma RoomForRow<C>(metadata: seq<FieldMeta>, rows: seq<seq<C>>, j: nat)
    requires Fits(metadata, rows) && j < |rows|
    ensures var k := |Kept(metadata, |metadata|)|;
      && |AllValues(metadata, rows, j)| + k <= |rows| * k
      && |AllValues(metadata, rows, j + 1)| == |AllValues(metadata, rows, j)| + k
  {
    AllLength(metadata, rows, j);
    RowLength(metadata, rows[j], |metadata|);
    Later(j, |rows|, |Kept(metadata, |metadata|)|);
  }

  lemma Later(j: nat, n: nat, k: nat)
    requires j < n
    ensures (j + 1) * k == j * k + k <= n * k
  {
    assert n * k == (j + 1) * k + (n - j - 1) * k;
  }

  // ---------------------------------------------------------------- Create

  lemma {:induction false} MarksAppend(a: string, b: string)
    ensures Marks(a + b) == Marks(a) + Marks(b)
    decreases |a|
  {
    if a == "" {
      assert a + b == b;
    } else {
      assert (a + b)[1..] == a[1..] + b;
      MarksAppend(a[1..], b);
    }
  }

  lemma {:induction false} MarksListed(n: nat, part: string)
    ensures Marks(Listed(seq(n, i => part))) == n * Marks(part)
  {
    if n > 0 {
      var fewer := seq(n - 1, i => part);
      assert seq(n, i => part) == fewer + [part];
      ListedMore(fewer, part);
      MarksListed(n - 1, part);
      assert Marks(", ") == 0;
      MarksAppend(Listed(fewer), ", ");
      MarksAppend(if n == 1 then "" else Listed(fewer) + ", ", part);
      Later(n - 1, n, Marks(part));
    }
  }

  lemma MarksOfRow(k: nat)
    ensures Marks(RowText(k)) == k
  {
    MarksListed(k, "?");
    MarksAppend("(", Listed(seq(k, c => "?")));
    MarksAppend("(" + Listed(seq(k, c => "?")), ")");
    assert Marks("(") == 0 && Marks(")") == 0 && Marks("?") == 1;
  }

  /** One placeholder for every row and column, beside those that the names themselves bring in. */
  lemma PlaceholderCount(table: string, metadata: seq<FieldMeta>, n: nat)
    ensures Marks(InsertText(table, metadata, n)) ==
            Marks(table) + Marks(Listed(Columns(metadata, |metadata|))) + n * |Kept(metadata, |metadata|)|
  {
    var columns := Columns(metadata, |metadata|);
    var tuples := Listed(seq(n, r => RowText(|columns|)));
    MarksListed(n, RowText(|columns|));
    MarksOfRow(|columns|);
    MarksAppend("INSERT INTO ", table);
    MarksAppend("INSERT INTO " + table, "(");
    MarksAppend("INSERT INTO " + table + "(", Listed(columns));
    MarksAppend("INSERT INTO " + table + "(" + Listed(columns), ") VALUES");
    MarksAppend("INSERT INTO " + table + "(" + Listed(columns) + ") VALUES", tuples);
    Literals();
  }

  lemma Literals()
    ensures Marks("INSERT INTO ") == 0 && Marks("(") == 0 && Marks(") VALUES") == 0
  {
    NoMarks("INSERT INTO ");
    NoMarks("(");
    NoMarks(") VALUES");
  }

  lemma {:induction false} NoMarks(s: string)
    requires forall i | 0 <= i < |s| :: s[i] != '?'
    ensures Marks(s) == 0
  {
    if s != "" { NoMarks(s[1..]); }
  }

  method Create<C(==)>(table: string, metadata: seq<FieldMeta>, rows: seq<seq<C>>)
    returns (sql: string, stmt: Statement<C>)
    requires Fits(metadata, rows)
    ensures fresh(stmt) && sql == InsertText(table, metadata, |rows|) && |stmt.paramBind| == Marks(sql)
    ensures BoundTo(stmt.paramBind, AllValues(metadata, rows, |rows|))
    ensures stmt.positions == Settled(AllValues(metadata, rows, |rows|))
  {
    var cnt;
    sql, cnt := PrintColumns(metadata, "INSERT INTO " + table + "(");
    sql := sql + ") VALUES";
    sql := PrintRows(|rows|, cnt, sql);
    PlaceholderCount(table, metadata, |rows|);
    stmt := new Statement(sql);
    BindRows(stmt, metadata, rows);
  }

  // ---------------------------------------------------------------- alignment

  lemma {:induction false} RowAligned<C>(metadata: seq<FieldMeta>, row: seq<C>, n: nat, c: nat)
    requires n <= |metadata| == |row| && c < |Kept(metadata, n)|
    ensures |RowValues(metadata, row, n)| == |Kept(metadata, n)|
    ensures var i := Kept(metadata, n)[c]; RowValues(metadata, row, n)[c] == Wanted(metadata[i], row[i])
  {
    RowLength(metadata, row, n);
    RowLength(metadata, row, n - 1);
    if c < |Kept(metadata, n - 1)| { RowAligned(metadata, row, n - 1, c); }
  }

  /** Position r * k + c + 1 holds the value of row r for the column that is printed as number c. */
  lemma Aligned<C>(metadata: seq<FieldMeta>, rows: seq<seq<C>>, r: nat, c: nat)
    requires Fits(metadata, rows) && r < |rows| && c < |Kept(metadata, |metadata|)|
    ensures var k, i := |Columns(metadata, |metadata|)|, Kept(metadata, |metadata|)[c];
            var values := AllValues(metadata, rows, |rows|);
      && Columns(metadata, |metadata|)[c] == metadata[i].ColumnName()
      && |values| == |rows| * k && 0 <= r * k + c < |values| && values[r * k + c] == Wanted(metadata[i], rows[r][i])
      && (metadata[i].cppType == "int" ==> values[r * k + c] == Some(Param(LongParam, rows[r][i])))
      && (KindOf(metadata[i].cppType) == Some(StringParam) ==>
            values[r * k + c] == Some(Param(StringParam, rows[r][i])))
      && (KindOf(metadata[i].cppType) == Some(TimestampParam) ==>
            values[r * k + c] == Some(Param(TimestampParam, rows[r][i])))
      && (KindOf(metadata[i].cppType) == None ==> values[r * k + c] == None)
  {
    AllLength(metadata, rows, |rows|);
    ValueAt(metadata, rows, |rows|, r, c);
  }

  lemma {:induction false} ValueAt<C>(metadata: seq<FieldMeta>, rows: seq<seq<C>>, n: nat, r: nat, c: nat)
    requires Fits(metadata, rows) && r < n <= |rows| && c < |Kept(metadata, |metadata|)|
    ensures var i, p := Kept(metadata, |metadata|)[c], r * |Kept(metadata, |metadata|)| + c;
            var values := AllValues(metadata, rows, n);
            0 <= p < |values| && values[p] == Wanted(metadata[i], rows[r][i])
  {
    RowAligned(metadata, rows[n - 1], |metadata|, c);
    if r < n - 1 {
      ValueAt(metadata, rows, n - 1, r, c);
    } else {
      AllLength(metadata, rows, n - 1);
    }
  }

  lemma {:induction false} AllLength<C>(metadata: seq<FieldMeta>, rows: seq<seq<C>>, n: nat)
    requires Fits(metadata, rows) && n <= |rows|
    ensures |AllValues(metadata, rows, n)| == n * |Kept(metadata, |metadata|)|
  {
    if n > 0 {
      AllLength(metadata, rows, n - 1);
      RowLength(metadata, rows[n - 1], |metadata|);
      Later(n - 1, n, |Kept(metadata, |metadata|)|);
    }
  }

  /** The columns are printed in the order of the metadata. */
  lemma {:induction false} KeptInOrder(metadata: seq<FieldMeta>, n: nat, c: nat, d: nat)
    requires n <= |metadata| && c < d < |Kept(metadata, n)|
    ensures Kept(metadata, n)[c] < Kept(metadata, n)[d]
  {
    if d < |Kept(metadata, n - 1)| { KeptInOrder(metadata, n - 1, c, d); }
  }

  /** Every field that is not ignored is printed, behind those that come before it. */
  lemma {:induction false} KeptComplete(metadata: seq<FieldMeta>, i: nat, n: nat)
    requires i < n <= |metadata| && !metadata[i].ignored
    ensures var c := |Kept(metadata, i)|; c < |Kept(metadata, n)| && Kept(metadata, n)[c] == i
    decreases n
  {
    if i < n - 1 { KeptComplete(metadata, i, n - 1); }
  }

  // ---------------------------------------------------------------- types and text

  /** A qualified name stands for what is behind its last colon. */
  lemma {:induction false} QualifiedName(front: string, name: string)
    requires forall i | 0 <= i < |name| :: name[i] != ':'
    ensures CppTypeName(name) == name
    ensures CppTypeName(front + ":" + name) == name
    decreases |front|
  {
    var whole := front + ":" + name;
    assert whole[|front|] == ':';
    if front == "" {
      assert whole[1..] == name;
    } else {
      assert whole[1..] == front[1..] + ":" + name;
      QualifiedName(front[1..], name);
    }
  }

  /** How the types are bound: integers by their plain name, texts and times under any qualification. */
  lemma KindMeaning(front: string)
    ensures KindOf("int") == Some(LongParam)
    ensures KindOf("string") == Some(StringParam) && KindOf(front + ":" + "string") == Some(StringParam)
    ensures KindOf("Timestamp") == Some(TimestampParam) && KindOf(front + ":" + "Timestamp") == Some(TimestampParam)
    ensures KindOf(front + ":" + "int") == None && KindOf("double") == None
  {
    QualifiedName(front, "string");
    QualifiedName(front, "Timestamp");
    QualifiedName(front, "int");
    QualifiedName(front, "double");
    assert |"int"| == 3 && |"string"| == 6 && |"Timestamp"| == 9 && "double"[0] == 'd' && "string"[0] == 's';
    assert |front + ":" + "string"| >= 7 && |front + ":" + "Timestamp"| >= 10 && |front + ":" + "int"| >= 4;
  }

  /** The statement for two rows of a table with two columns. */
  lemma TextExample(metadata: seq<FieldMeta>)
    requires |metadata| == 2 && !metadata[0].ignored && !metadata[1].ignored
    requires metadata[0].ColumnName() == "a" && metadata[1].ColumnName() == "b"
    ensures InsertText("t", metadata, 2) == "INSERT INTO t(a, b) VALUES(?, ?), (?, ?)"
  {
    ColumnsExample(metadata);
    ListedTwo("a", "b");
    RowExample();
    assert seq(2, r => RowText(2)) == [RowText(2), RowText(2)];
    ListedTwo(RowText(2), RowText(2));
    var front := "INSERT INTO " + "t" + "(" + "a, b" + ") VALUES";
    assert front == "INSERT INTO t(a, b) VALUES" && "(?, ?)" + ", " + "(?, ?)" == "(?, ?), (?, ?)";
    assert "INSERT INTO t(a, b) VALUES" + "(?, ?), (?, ?)" == "INSERT INTO t(a, b) VALUES(?, ?), (?, ?)";
  }

  lemma ColumnsExample(metadata: seq<FieldMeta>)
    requires |metadata| == 2 && !metadata[0].ignored && !metadata[1].ignored
    requires metadata[0].ColumnName() == "a" && metadata[1].ColumnName() == "b"
    ensures Columns(metadata, 2) == ["a", "b"]
  {
    assert Kept(metadata, 0) == [] && Kept(metadata, 1) == [0] && Kept(metadata, 2) == [0, 1];
  }

  lemma RowExample()
    ensures RowText(2) == "(?, ?)"
  {
    ListedTwo("?", "?");
    assert seq(2, c => "?") == ["?", "?"];
    assert "?" + ", " + "?" == "?, ?" && "(" + "?, ?" + ")" == "(?, ?)";
  }

  lemma ListedTwo(a: string, b: string)
    ensures Listed([a, b]) == a + ", " + b
  {
    assert [a, b][..1] == [a];
  }
}
