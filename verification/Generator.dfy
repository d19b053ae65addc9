/** A model that is generated from a table, and the migration that meets the same table again. */
module Generator {
  import opened Basics
  import opened Naming
  import opened Schema
  import opened Tags
  import opened TagProof
  import opened Migration
  import opened BatchInsert

  /** Columns and indexes as they are loaded from the database. */
  datatype DbTable = DbTable(columns: seq<DbColumn>, indices: map<string, Index>)

  /** What a database and the loader guarantee: the first column of the primary key is marked. */
  ghost predicate GoodTable(t: DbTable) {
    && t.columns != []
    && (forall i, j | 0 <= i < j < |t.columns| :: t.columns[i].name != t.columns[j].name)
    && (forall n | n in t.indices :: GoodDbIndex(n, t.indices[n]))
    && (forall i | 0 <= i < |t.columns| :: t.columns[i].isPk <==> IsKeyColumn(t, t.columns[i].name))
    && ("PRIMARY" in t.indices ==> exists i | 0 <= i < |t.columns| :: t.columns[i].isPk)
  }

  ghost predicate GoodDbIndex(n: string, i: Index) {
    i.name == n && i.columns != [] && Distinct(i.columns) && (i.kind.Primary? <==> n == "PRIMARY")
  }

  predicate IsKeyColumn(t: DbTable, name: string) {
    "PRIMARY" in t.indices && t.indices["PRIMARY"].columns != [] && t.indices["PRIMARY"].columns[0] == name
  }

  // ---------------------------------------------------------------- loading

  function LoadedColumn(cpp: string -> string, c: DbColumn): FieldMeta {
    FieldMeta(DbToCpp(c.name, false), cpp(c.columnType), Some(c.columnType), Some(c.name), c.extra, c.isPk, c.autoInc,
              false, c.notNull, c.defaultValue, NO_INDEX, false)
  }

  /** loadFromDB: the columns in order with their positions, and the indexes. */
  ghost predicate IsLoaded(cpp: string -> string, t: DbTable, l: Loaded) {
    && |l.fields| == |t.columns| && l.indices == t.indices
    && (forall i | 0 <= i < |t.columns| :: l.fields[i] == LoadedColumn(cpp, t.columns[i]))
    && (forall n | n in l.position :: l.position[n] < |t.columns| && t.columns[l.position[n]].name == n)
    && (forall i | 0 <= i < |t.columns| :: t.columns[i].name in l.position)
  }

  // ---------------------------------------------------------------- the generated model

  /** add_index and add_unique: the first keeps its columns as one text, the second as a list. */
  function DeclaredByMacro(i: Index): Index {
    if i.kind.Multiple? then i.(columns := [Listed(i.columns)]) else i
  }

  function MacroIndexes(t: DbTable): map<string, Index> {
    map n | n in t.indices && !t.indices[n].kind.Primary? :: DeclaredByMacro(t.indices[n])
  }

  /** The constructor of a model adds the indexes of its fields, by their names, to those of the macros. */
  function WithFieldIndexes(indices: map<string, Index>, fields: seq<FieldMeta>): map<string, Index> {
    if fields == [] then indices else
      var init, f := WithFieldIndexes(indices, fields[..|fields| - 1]), fields[|fields| - 1];
      if !f.hasIndex then init else
        var name := if f.index.kind.Primary? then "PRIMARY" else f.ColumnName();
        init[name := f.index.(name := name)]
  }

  function GeneratedField(cpp: string -> string, c: DbColumn): FieldMeta {
    ParsedField(DbToCpp(c.name, false), cpp(c.columnType), TagText(c))
  }

  function GeneratedFields(cpp: string -> string, columns: seq<DbColumn>): seq<FieldMeta> {
    seq(|columns|, i requires 0 <= i < |columns| => GeneratedField(cpp, columns[i]))
  }

  function GeneratedModel(cpp: string -> string, table: string, defaultTable: string, t: DbTable): ModelMeta {
    var fields := GeneratedFields(cpp, t.columns);
    ModelMeta(table, defaultTable, fields, WithFieldIndexes(MacroIndexes(t), fields))
  }

  // ---------------------------------------------------------------- columns

  ghost predicate AllReadable(columns: seq<DbColumn>) {
    forall i | 0 <= i < |columns| :: Readable(columns[i])
  }

  /** A column that comes back from its tags equals the one that is loaded. */
  lemma ColumnStays(rules: Rules, cpp: string -> string, c: DbColumn)
    requires Readable(c)
    ensures FieldEqual(rules, GeneratedField(cpp, c), LoadedColumn(cpp, c))
    ensures GeneratedField(cpp, c).ColumnName() == c.name
  {
    TagRoundTrip(DbToCpp(c.name, false), cpp(c.columnType), c);
  }

  lemma NoColumnCommand(rules: Rules, cpp: string -> string, c: DbColumn, l: Loaded)
    requires Positioned(l) && c.name in l.position && l.fields[l.position[c.name]] == LoadedColumn(cpp, c)
    requires Readable(c)
    ensures ColumnCmd(rules, GeneratedField(cpp, c), l) == None
  {
    ColumnStays(rules, cpp, c);
  }

  // ---------------------------------------------------------------- indexes

  ghost predicate OthersSame(all: map<string, Index>, indices: map<string, Index>) {
    && (forall n | n in indices :: n in all && all[n] == indices[n])
    && (forall n | n in all && n != "PRIMARY" :: n in indices)
  }

  ghost predicate OfKeyColumn(all: map<string, Index>, columns: seq<DbColumn>) {
    if "PRIMARY" in all then exists i | 0 <= i < |columns| :: KeyIs(all["PRIMARY"], columns[i])
    else forall i | 0 <= i < |columns| :: !columns[i].isPk
  }

  predicate KeyIs(index: Index, c: DbColumn) { c.isPk && index == Index(Primary, "PRIMARY", [c.name]) }

  /** Only a key column brings in an index, and it is the primary one. */
  lemma {:induction false} FieldIndexes(cpp: string -> string, indices: map<string, Index>, columns: seq<DbColumn>)
    requires AllReadable(columns) && "PRIMARY" !in indices
    ensures var all := WithFieldIndexes(indices, GeneratedFields(cpp, columns));
            OthersSame(all, indices) && OfKeyColumn(all, columns)
    decreases |columns|
  {
    if columns != [] {
      var init, c := columns[..|columns| - 1], columns[|columns| - 1];
      assert columns == init + [c];
      FieldIndexes(cpp, indices, init);
      OneMoreField(cpp, indices, init, c);
      var before := WithFieldIndexes(indices, GeneratedFields(cpp, init));
      KeyStays(before, init, c);
      OthersStay(before, indices, c);
    }
  }

  lemma OthersStay(before: map<string, Index>, indices: map<string, Index>, c: DbColumn)
    requires OthersSame(before, indices) && "PRIMARY" !in indices
    ensures OthersSame(if c.isPk then before["PRIMARY" := Index(Primary, "PRIMARY", [c.name])] else before, indices)
  {
  }

  lemma KeyStays(before: map<string, Index>, init: seq<DbColumn>, c: DbColumn)
    requires OfKeyColumn(before, init)
    ensures OfKeyColumn(if c.isPk then before["PRIMARY" := Index(Primary, "PRIMARY", [c.name])] else before, init + [c])
  {
    var columns := init + [c];
    if c.isPk {
      assert KeyIs(Index(Primary, "PRIMARY", [c.name]), columns[|init|]);
    } else if "PRIMARY" in before {
      var i :| 0 <= i < |init| && KeyIs(before["PRIMARY"], init[i]);
      assert columns[i] == init[i];
    }
  }

  lemma KeyReadBack(cpp: string -> string, c: DbColumn)
    requires Readable(c)
    ensures var f := GeneratedField(cpp, c);
      f.hasIndex == c.isPk && (c.isPk ==> f.index == Index(Primary, "", [c.name]))
  {
    TagRoundTrip(DbToCpp(c.name, false), cpp(c.columnType), c);
  }

  lemma OneMoreField(cpp: string -> string, indices: map<string, Index>, init: seq<DbColumn>, c: DbColumn)
    requires Readable(c)
    ensures var before := WithFieldIndexes(indices, GeneratedFields(cpp, init));
            WithFieldIndexes(indices, GeneratedFields(cpp, init + [c])) ==
            if c.isPk then before["PRIMARY" := Index(Primary, "PRIMARY", [c.name])] else before
  {
    KeyReadBack(cpp, c);
    var fields := GeneratedFields(cpp, init + [c]);
    assert fields[..|fields| - 1] == GeneratedFields(cpp, init) && fields[|fields| - 1] == GeneratedField(cpp, c);
  }

  /** The index reads the same in the generated model as in the database. */
  predicate Keeps(i: Index) { i.kind.Unique? || |i.columns| == 1 }

  ghost predicate AllKept(t: DbTable) { forall n | n in t.indices :: Keeps(t.indices[n]) }

  lemma MacroEqual(i: Index)
    requires Distinct(i.columns) && i.columns != [] && !i.kind.Primary?
    ensures IndexEqual(i, DeclaredByMacro(i)) <==> Keeps(i)
  {
    IndexEqualItself(i);
    if i.kind.Multiple? && |i.columns| == 1 { assert DeclaredByMacro(i).columns == i.columns; }
  }

  lemma PrimaryEqual(i: Index, name: string)
    requires i.kind.Primary? && i.name == "PRIMARY" && i.columns != [] && Distinct(i.columns) && i.columns[0] == name
    ensures IndexEqual(i, Index(Primary, "PRIMARY", [name])) <==> Keeps(i)
  {
    IndexEqualItself(i);
    if |i.columns| == 1 { assert i.columns == [name]; }
  }

  lemma IndexesOf(cpp: string -> string, t: DbTable)
    requires GoodTable(t) && AllReadable(t.columns)
    ensures var all := WithFieldIndexes(MacroIndexes(t), GeneratedFields(cpp, t.columns));
      && all.Keys == t.indices.Keys
      && forall n | n in t.indices :: n in all && (IndexEqual(t.indices[n], all[n]) <==> Keeps(t.indices[n]))
  {
    var all := WithFieldIndexes(MacroIndexes(t), GeneratedFields(cpp, t.columns));
    FieldIndexes(cpp, MacroIndexes(t), t.columns);
    forall n ensures n in all <==> n in t.indices { OneIndex(cpp, t, n); }
    forall n | n in t.indices ensures n in all && (IndexEqual(t.indices[n], all[n]) <==> Keeps(t.indices[n])) {
      OneIndex(cpp, t, n);
    }
  }

  lemma OneIndex(cpp: string -> string, t: DbTable, n: string)
    requires GoodTable(t) && AllReadable(t.columns)
    ensures var all := WithFieldIndexes(MacroIndexes(t), GeneratedFields(cpp, t.columns));
      && (n in all <==> n in t.indices)
      && (n in all ==> (IndexEqual(t.indices[n], all[n]) <==> Keeps(t.indices[n])))
  {
    FieldIndexes(cpp, MacroIndexes(t), t.columns);
    if n in t.indices {
      assert GoodDbIndex(n, t.indices[n]);
      if n != "PRIMARY" { MacroEqual(t.indices[n]); }
    }
    if n == "PRIMARY" && n in t.indices {
      var all := WithFieldIndexes(MacroIndexes(t), GeneratedFields(cpp, t.columns));
      assert "PRIMARY" in all;
      var i :| 0 <= i < |t.columns| && KeyIs(all["PRIMARY"], t.columns[i]);
      PrimaryEqual(t.indices[n], t.columns[i].name);
    }
  }

  // ---------------------------------------------------------------- planning against the same table

  /**
   A model generated from a table whose columns come back from their tags, found again under its table
   name, plans nothing exactly when its primary key and each of its plain indexes have one column.
   */
  lemma GeneratedPlansNothing(rules: Rules, cpp: string -> string, table: string, defaultTable: string, t: DbTable,
                              l: Loaded)
    requires GoodTable(t) && AllReadable(t.columns) && IsLoaded(cpp, t, l) && Positioned(l)
    ensures var model := GeneratedModel(cpp, table, defaultTable, t);
            (forall c :: !InPlan(rules, model, UnderTableName, l, c)) <==> AllKept(t)
  {
    var model := GeneratedModel(cpp, table, defaultTable, t);
    IndexesOf(cpp, t);
    forall f | f in model.fields ensures ColumnCmd(rules, f, l) == None {
      var i :| 0 <= i < |t.columns| && model.fields[i] == f;
      assert l.position[t.columns[i].name] == i;
      NoColumnCommand(rules, cpp, t.columns[i], l);
    }
    IndexPlans(model, t);
    assert forall c :: !InColumnPlan(rules, model.fields, l, c);
    PlanOfIndexes(rules, model, t, l);
  }

  lemma PlanOfIndexes(rules: Rules, model: ModelMeta, t: DbTable, l: Loaded)
    requires Positioned(l) && l.fields != [] && l.indices == t.indices
    requires forall c :: !InColumnPlan(rules, model.fields, l, c)
    ensures (forall c :: !InPlan(rules, model, UnderTableName, l, c)) <==>
            forall c :: !InIndexPlan(model.indices, t.indices, c)
  {
    if c :| InIndexPlan(model.indices, t.indices, c) { assert InPlan(rules, model, UnderTableName, l, c); }
  }

  lemma IndexPlans(model: ModelMeta, t: DbTable)
    requires model.indices.Keys == t.indices.Keys
    requires forall n | n in t.indices ::
      n in model.indices && (IndexEqual(t.indices[n], model.indices[n]) <==> Keeps(t.indices[n]))
    ensures (forall c :: !InIndexPlan(model.indices, t.indices, c)) <==> AllKept(t)
  {
    if n :| n in t.indices && !Keeps(t.indices[n]) {
      assert InIndexPlan(model.indices, t.indices, DropCmd(n));
    } else {
      forall c ensures !InIndexPlan(model.indices, t.indices, c) {
        if c.target in t.indices { assert Keeps(t.indices[c.target]); }
      }
    }
  }
}
