/** What a model that has been saved looks like when it is loaded again, and planned for again. */
module SnapshotProof {
  import opened Basics
  import opened Text
  import opened Schema
  import opened Migration
  import opened MigrationRun
  import opened Snapshot
  import opened SnapshotFile
  import opened SnapshotReader

  // ---------------------------------------------------------------- one record

  lemma {:induction false} AbsorbConcat(rules: Rules, l: Loaded, a: seq<Item>, b: seq<Item>)
    ensures AllAbsorbed(rules, l, a + b) == AllAbsorbed(rules, AllAbsorbed(rules, l, a), b)
    decreases |a|
  {
    if a == [] {
      assert a + b == b;
    } else {
      assert (a + b)[1..] == a[1..] + b;
      AbsorbConcat(rules, Absorbed(rules, l, a[0]), a[1..], b);
    }
  }

  lemma AbsorbAppend(rules: Rules, l: Loaded, a: seq<Item>, item: Item)
    ensures AllAbsorbed(rules, l, a + [item]) == Absorbed(rules, AllAbsorbed(rules, l, a), item)
  {
    AbsorbConcat(rules, l, a, [item]);
    assert [item][1..] == [];
  }

  /** A column comes back part by part; its name and type are explicit, and nothing else is set. */
  predicate ReadBack(rules: Rules, l: FieldMeta, f: FieldMeta) {
    && l.fieldName == f.fieldName && l.cppType == f.cppType
    && l.columnName == Some(f.ColumnName()) && l.columnType == Some(f.ColumnType(rules))
    && l.extra == f.extra && l.defaultValue == f.defaultValue
    && l.isPk == f.isPk && l.autoInc == f.autoInc && l.hasIndex == f.hasIndex && l.notNull == f.notNull
    && l.index == NO_INDEX && !l.ignored
  }

  /** Columns come back in order, and each name leads to the last column that bears it. */
  ghost predicate HasColumns(rules: Rules, l: Loaded, fields: seq<FieldMeta>) {
    && |l.fields| == |fields|
    && (forall k | 0 <= k < |fields| :: ReadBack(rules, l.fields[k], fields[k]))
    && (forall n | n in l.position :: l.position[n] < |fields| && fields[l.position[n]].ColumnName() == n)
    && (forall k | 0 <= k < |fields| ::
          fields[k].ColumnName() in l.position && k <= l.position[fields[k].ColumnName()])
  }

  lemma {:induction false} AbsorbColumns(rules: Rules, table: string, fields: seq<FieldMeta>)
    ensures var l := AllAbsorbed(rules, NOTHING.(table := table), ColumnItems(fields));
            l.table == table && l.indices == map[] && HasColumns(rules, l, fields)
    decreases |fields|
  {
    if fields != [] {
      var init, last := fields[..|fields| - 1], fields[|fields| - 1];
      AbsorbColumns(rules, table, init);
      assert fields == init + [last];
      AbsorbLast(rules, NOTHING.(table := table), init, last);
      OneMoreColumn(rules, AllAbsorbed(rules, NOTHING.(table := table), ColumnItems(init)), init, last);
    }
  }

  lemma AbsorbLast(rules: Rules, l: Loaded, init: seq<FieldMeta>, last: FieldMeta)
    ensures AllAbsorbed(rules, l, ColumnItems(init + [last])) ==
            Absorbed(rules, AllAbsorbed(rules, l, ColumnItems(init)), ColumnItem(last))
  {
    assert ColumnItems(init + [last]) == ColumnItems(init) + [ColumnItem(last)];
    AbsorbAppend(rules, l, ColumnItems(init), ColumnItem(last));
  }

  lemma OneMoreColumn(rules: Rules, l: Loaded, init: seq<FieldMeta>, last: FieldMeta)
    requires HasColumns(rules, l, init)
    ensures HasColumns(rules, Absorbed(rules, l, ColumnItem(last)), init + [last])
  {
  }

  ghost predicate HasIndices(l: Loaded, order: seq<Index>) {
    && (forall k | 0 <= k < |order| :: order[k].name in l.indices && l.indices[order[k].name] == order[k])
    && (forall n | n in l.indices :: exists k | 0 <= k < |order| :: order[k].name == n)
  }

  ghost predicate DistinctNames(order: seq<Index>) {
    forall j, k | 0 <= j < k < |order| :: order[j].name != order[k].name
  }

  lemma {:induction false} AbsorbIndices(rules: Rules, l: Loaded, order: seq<Index>)
    requires l.indices == map[] && DistinctNames(order)
    ensures var r := AllAbsorbed(rules, l, IndexItems(order));
            r == l.(indices := r.indices) && HasIndices(r, order)
    decreases |order|
  {
    if order != [] {
      var init, last := order[..|order| - 1], order[|order| - 1];
      AbsorbIndices(rules, l, init);
      assert IndexItems(order) == IndexItems(init) + [IndexItem(last)];
      AbsorbAppend(rules, l, IndexItems(init), IndexItem(last));
      assert order == init + [last];
      OneMoreIndex(rules, AllAbsorbed(rules, l, IndexItems(init)), init, last);
    }
  }

  lemma OneMoreIndex(rules: Rules, l: Loaded, init: seq<Index>, last: Index)
    requires HasIndices(l, init) && DistinctNames(init + [last])
    ensures HasIndices(Absorbed(rules, l, IndexItem(last)), init + [last])
  {
    var order := init + [last];
    var r := Absorbed(rules, l, IndexItem(last));
    forall k | 0 <= k < |order| ensures order[k].name in r.indices && r.indices[order[k].name] == order[k] {
      if k < |init| { assert order[k].name != order[|init|].name; }
    }
    forall n | n in r.indices ensures exists k | 0 <= k < |order| :: order[k].name == n {
      if n == last.name {
        assert order[|init|].name == n;
      } else {
        var k :| 0 <= k < |init| && init[k].name == n;
        assert order[k].name == n;
      }
    }
  }

  /** A record gives back the table name, the columns in their order with their positions, and the indexes. */
  lemma RecordRoundTrip(rules: Rules, r: Record, fields: seq<FieldMeta>, indices: map<string, Index>)
    requires IsBodyOf(r.items, fields, indices)
    ensures var l := LoadedRecord(rules, r);
      l.table == r.table && l.indices == indices && HasColumns(rules, l, fields)
  {
    var order :| Enumerates(order, indices) && r.items == ColumnItems(fields) + IndexItems(order);
    var start := NOTHING.(table := r.table);
    AbsorbColumns(rules, r.table, fields);
    AbsorbConcat(rules, start, ColumnItems(fields), IndexItems(order));
    var columns := AllAbsorbed(rules, start, ColumnItems(fields));
    AbsorbIndices(rules, columns, order);
    SameIndices(LoadedRecord(rules, r), order, indices);
  }

  lemma SameIndices(l: Loaded, order: seq<Index>, indices: map<string, Index>)
    requires HasIndices(l, order) && Enumerates(order, indices)
    ensures l.indices == indices
  {
    assert l.indices.Keys == indices.Keys;
  }

  // ---------------------------------------------------------------- the whole file

  /** Of several records, each is found by its class name. */
  lemma {:induction false} FindByClass(rules: Rules, rs: seq<Record>, k: nat)
    requires k < |rs| && forall j | 0 <= j < k :: rs[j].className != rs[k].className
    ensures FindRecord(rules, rs, rs[k].className) == LoadedRecord(rules, rs[k])
  {
    if k > 0 {
      assert rs[1..][k - 1] == rs[k];
      FindByClass(rules, rs[1..], k - 1);
    }
  }

  lemma {:induction false} FindNoClass(rules: Rules, rs: seq<Record>, className: string)
    requires forall j | 0 <= j < |rs| :: rs[j].className != className
    ensures FindRecord(rules, rs, className) == NOTHING
  {
    if rs != [] { FindNoClass(rules, rs[1..], className); }
  }

  lemma FileAppend(rules: Rules, rs: seq<Record>, r: Record)
    requires RecordsFit(rules, rs) && RecordFits(rules, r)
    ensures RecordsFit(rules, rs + [r])
    ensures FileBytes(rules, rs + [r]) == FileBytes(rules, rs) + RecordBytes(rules, r)
  {
    assert FileChunks(rules, rs + [r]) == FileChunks(rules, rs) + [RecordBytes(rules, r)];
    ConcatAppend(FileChunks(rules, rs), RecordBytes(rules, r));
  }

  /** One model class with its name and its current metadata. */
  datatype ModelClass = ModelClass(className: string, model: ModelMeta)

  ghost predicate Writable(rules: Rules, c: ModelClass) {
    ModelFits(rules, c.className, c.model.table, c.model.fields, c.model.indices)
  }

  /** The record is one that saving the class may give. */
  ghost predicate Saves(c: ModelClass, r: Record) {
    r.className == c.className && r.table == c.model.table && IsBodyOf(r.items, c.model.fields, c.model.indices)
  }

  ghost predicate SavesAll(cs: seq<ModelClass>, rs: seq<Record>) {
    |cs| == |rs| && forall k | 0 <= k < |cs| :: Saves(cs[k], rs[k])
  }

  /** The last two steps of DB::AutoMigrate: empty the file, then append every model. */
  method SaveModels(rules: Rules, file: ModelFile, cs: seq<ModelClass>) returns (ghost rs: seq<Record>)
    requires forall k | 0 <= k < |cs| :: Writable(rules, cs[k])
    modifies file
    ensures SavesAll(cs, rs) && RecordsFit(rules, rs) && file.data == FileBytes(rules, rs)
  {
    file.Truncate();
    rs := [];
    for k := 0 to |cs|
      invariant SavesAll(cs[..k], rs) && RecordsFit(rules, rs) && file.data == FileBytes(rules, rs)
    {
      var c := cs[k];
      assert Writable(rules, c);
      ghost var r := file.SaveModel(rules, c.className, c.model.table, c.model.fields, c.model.indices);
      FileAppend(rules, rs, r);
      rs := rs + [r];
    }
  }

  /** What loading gives for a class that is in the file. */
  ghost predicate IsReload(rules: Rules, model: ModelMeta, l: Loaded) {
    l.table == model.table && l.indices == model.indices && HasColumns(rules, l, model.fields)
  }

  /** Saving all models and loading any one of them gives back that model and nothing of the others. */
  lemma FileRoundTrip(rules: Rules, cs: seq<ModelClass>, rs: seq<Record>, k: nat)
    requires SavesAll(cs, rs) && k < |cs|
    requires forall i, j | 0 <= i < j < |cs| :: cs[i].className != cs[j].className
    ensures IsReload(rules, cs[k].model, FindRecord(rules, rs, cs[k].className))
  {
    assert Saves(cs[k], rs[k]);
    forall j | 0 <= j < k ensures rs[j].className != rs[k].className { assert Saves(cs[j], rs[j]); }
    FindByClass(rules, rs, k);
    RecordRoundTrip(rules, rs[k], cs[k].model.fields, cs[k].model.indices);
  }

  // ---------------------------------------------------------------- the length of a record

  function ColumnLength(rules: Rules, f: FieldMeta): nat {
    6 + |ColumnId(f)| + |DataType(rules, f)| + |f.defaultValue| + |f.extra|
  }

  function IndexLength(i: Index): nat { 4 + |i.name| + |Join(i.columns, '|')| }

  function ColumnsLength(rules: Rules, fields: seq<FieldMeta>): nat {
    if fields == [] then 0
    else ColumnsLength(rules, fields[..|fields| - 1]) + ColumnLength(rules, fields[|fields| - 1])
  }

  /** A sum over the indexes, in whatever order they are taken. */
  ghost function IndexesLength(indices: map<string, Index>): nat
    decreases |indices|
  {
    if indices == map[] then 0 else
      var n :| n in indices;
      IndexLength(indices[n]) + IndexesLength(indices - {n})
  }

  lemma {:induction false} IndexesLengthWithout(indices: map<string, Index>, n: string)
    requires n in indices
    ensures IndexesLength(indices) == IndexLength(indices[n]) + IndexesLength(indices - {n})
    decreases |indices|
  {
    var m :| m in indices && IndexesLength(indices) == IndexLength(indices[m]) + IndexesLength(indices - {m});
    if m != n {
      IndexesLengthWithout(indices - {m}, n);
      IndexesLengthWithout(indices - {n}, m);
      assert indices - {m} - {n} == indices - {n} - {m};
    }
  }

  lemma {:induction false} ColumnItemsLength(rules: Rules, fields: seq<FieldMeta>)
    requires AllFit(rules, ColumnItems(fields))
    ensures |BodyBytes(rules, ColumnItems(fields))| == ColumnsLength(rules, fields)
  {
    if fields != [] {
      var init, last := fields[..|fields| - 1], fields[|fields| - 1];
      assert ColumnItems(fields) == ColumnItems(init) + [ColumnItem(last)];
      ItemAtEnd(rules, ColumnItems(init), ColumnItem(last));
      ColumnItemsLength(rules, init);
    }
  }

  lemma ItemAtEnd(rules: Rules, items: seq<Item>, item: Item)
    requires AllFit(rules, items + [item])
    ensures AllFit(rules, items) && ItemFits(rules, item)
    ensures |BodyBytes(rules, items + [item])| == |BodyBytes(rules, items)| + |ItemBytes(rules, item)|
  {
    assert (items + [item])[|items|] == item;
    assert AllFit(rules, items) by { assert forall k | 0 <= k < |items| :: items[k] == (items + [item])[k]; }
    assert BodyChunks(rules, items + [item]) == BodyChunks(rules, items) + [ItemBytes(rules, item)];
    ConcatAppend(BodyChunks(rules, items), ItemBytes(rules, item));
  }

  lemma EnumeratesWithout(init: seq<Index>, last: Index, indices: map<string, Index>)
    requires Enumerates(init + [last], indices)
    ensures last.name in indices && indices[last.name] == last && Enumerates(init, indices - {last.name})
  {
    var order := init + [last];
    assert order[|init|] == last;
    forall k | 0 <= k < |init| ensures init[k].name in indices - {last.name} && indices[init[k].name] == init[k] {
      assert order[k] == init[k] && order[k].name != order[|init|].name;
    }
    forall n | n in indices - {last.name} ensures exists k | 0 <= k < |init| :: init[k].name == n {
      var k :| 0 <= k < |order| && order[k].name == n;
      assert init[k].name == n;
    }
    forall j, k | 0 <= j < k < |init| ensures init[j].name != init[k].name {
      assert order[j].name != order[k].name;
    }
  }

  lemma {:induction false} IndexItemsLength(rules: Rules, order: seq<Index>, indices: map<string, Index>)
    requires AllFit(rules, IndexItems(order)) && Enumerates(order, indices)
    ensures |BodyBytes(rules, IndexItems(order))| == IndexesLength(indices)
    decreases |order|
  {
    if order == [] {
      assert indices == map[];
    } else {
      var init, last := order[..|order| - 1], order[|order| - 1];
      assert order == init + [last] && IndexItems(order) == IndexItems(init) + [IndexItem(last)];
      ItemAtEnd(rules, IndexItems(init), IndexItem(last));
      EnumeratesWithout(init, last, indices);
      IndexItemsLength(rules, init, indices - {last.name});
      IndexesLengthWithout(indices, last.name);
    }
  }

  lemma BothFit(rules: Rules, a: seq<Item>, b: seq<Item>)
    requires AllFit(rules, a + b)
    ensures AllFit(rules, a) && AllFit(rules, b)
  {
    assert forall k | 0 <= k < |a| :: a[k] == (a + b)[k];
    assert forall k | 0 <= k < |b| :: b[k] == (a + b)[|a| + k];
  }

  /** The body of a saved model has the same length whatever order its indexes are written in. */
  lemma BodyLength(rules: Rules, items: seq<Item>, fields: seq<FieldMeta>, indices: map<string, Index>)
    requires AllFit(rules, items) && IsBodyOf(items, fields, indices)
    ensures |BodyBytes(rules, items)| == ColumnsLength(rules, fields) + IndexesLength(indices)
  {
    var order :| Enumerates(order, indices) && items == ColumnItems(fields) + IndexItems(order);
    var a, b := ColumnItems(fields), IndexItems(order);
    BothFit(rules, a, b);
    BodyConcat(rules, a, b);
    ColumnItemsLength(rules, fields);
    IndexItemsLength(rules, order, indices);
  }

  /** The model can be written, and its length fits into a short. */
  ghost predicate Savable(rules: Rules, c: ModelClass) {
    Writable(rules, c) && ColumnsLength(rules, c.model.fields) + IndexesLength(c.model.indices) <= MAX_SHORT
  }

  ghost predicate AllSavable(rules: Rules, cs: seq<ModelClass>) {
    && (forall j | 0 <= j < |cs| :: Savable(rules, cs[j]))
    && (forall i, j | 0 <= i < j < |cs| :: cs[i].className != cs[j].className)
  }

  lemma SavedShort(rules: Rules, cs: seq<ModelClass>, rs: seq<Record>)
    requires AllSavable(rules, cs) && SavesAll(cs, rs) && RecordsFit(rules, rs)
    ensures RecordsShort(rules, rs)
  {
    forall j | 0 <= j < |rs| ensures RecordShort(rules, rs[j]) {
      assert Saves(cs[j], rs[j]) && RecordFits(rules, rs[j]) && Savable(rules, cs[j]);
      BodyLength(rules, rs[j].items, cs[j].model.fields, cs[j].model.indices);
    }
  }

  /** Writing and reading in one: the bytes of all models, read back for one class. */
  method SaveThenLoad(rules: Rules, cs: seq<ModelClass>, k: nat) returns (l: Loaded)
    requires AllSavable(rules, cs) && k < |cs|
    ensures IsReload(rules, cs[k].model, l)
  {
    var file := new ModelFile();
    assert forall j | 0 <= j < |cs| :: Savable(rules, cs[j]);
    ghost var rs := SaveModels(rules, file, cs);
    SavedShort(rules, cs, rs);
    FileRoundTrip(rules, cs, rs, k);
    var ifs := new Stream(file.data);
    l := LoadFromFile(ifs, cs[k].className, rules, rs);
  }

  // ---------------------------------------------------------------- planning again

  /** A reloaded model is a previous version as the planner expects it. */
  lemma ReloadIsGood(rules: Rules, model: ModelMeta, l: Loaded)
    requires GoodModel(model) && IsReload(rules, model, l)
    requires Distinct(ColumnNames(model.fields)) && forall f | f in model.fields :: f.ColumnName() != ""
    ensures GoodPrevious(l)
  {
    var names := ColumnNames(model.fields);
    forall i | 0 <= i < |l.fields|
      ensures l.fields[i].ColumnName() in l.position && l.position[l.fields[i].ColumnName()] == i
    {
      var n := model.fields[i].ColumnName();
      assert ReadBack(rules, l.fields[i], model.fields[i]);
      var p := l.position[n];
      assert names[i] == names[p];
    }
    forall n | n in l.position ensures n != "" && l.fields[l.position[n]].ColumnName() == n {
      assert model.fields[l.position[n]] in model.fields;
    }
    forall n | n in l.indices ensures l.indices[n].name == n && Distinct(l.indices[n].columns)
                                      && Distinct(NamesIn(l.indices[n].columns)) {
      assert GoodIndex(model, n, model.indices[n]);
    }
  }

  lemma ReloadedFieldEqual(rules: Rules, l: FieldMeta, f: FieldMeta)
    requires ReadBack(rules, l, f)
    ensures FieldEqual(rules, f, l)
  {
  }

  /**
   Planning a model against its own saved record gives no command at all, exactly when each of its
   indexes lists no column twice (or when it has no column, and the planner does not even compare).
   */
  lemma ReplanIsEmpty(rules: Rules, model: ModelMeta, l: Loaded)
    requires IsReload(rules, model, l) && Positioned(l) && Distinct(ColumnNames(model.fields))
    ensures (forall c :: !InPlan(rules, model, InFile, l, c)) <==>
            model.fields == [] || OwnIndexesDistinct(model)
  {
    if model.fields != [] {
      forall f | f in model.fields ensures ColumnCmd(rules, f, l) == None { ReloadedColumn(rules, model, l, f); }
      if forall n | n in model.indices :: Distinct(model.indices[n].columns) {
        forall c ensures !InPlan(rules, model, InFile, l, c) {
          if c.target in model.indices { IndexEqualItself(model.indices[c.target]); }
        }
      } else {
        var n :| n in model.indices && !Distinct(model.indices[n].columns);
        IndexEqualItself(model.indices[n]);
        assert InPlan(rules, model, InFile, l, DropCmd(n));
      }
    }
  }

  lemma ReloadedColumn(rules: Rules, model: ModelMeta, l: Loaded, f: FieldMeta)
    requires IsReload(rules, model, l) && Positioned(l) && Distinct(ColumnNames(model.fields))
    requires f in model.fields
    ensures ColumnCmd(rules, f, l) == None
  {
    var i :| 0 <= i < |model.fields| && model.fields[i] == f;
    var names := ColumnNames(model.fields);
    var p := l.position[f.ColumnName()];
    assert names[i] == names[p];
    assert ReadBack(rules, l.fields[p], f);
    ReloadedFieldEqual(rules, l.fields[p], f);
  }

  /**
   DB::AutoMigrate for models that have not changed since they were saved: the models are saved, one is
   loaded again, and the comparison collects no command.
   */
  method SaveThenCompare(rules: Rules, cs: seq<ModelClass>, k: nat, migrator: Migrator)
    returns (prev: Loaded)
    requires AllSavable(rules, cs) && k < |cs| && migrator.cmds == []
    requires Distinct(ColumnNames(cs[k].model.fields))
    modifies migrator
    ensures IsReload(rules, cs[k].model, prev)
    ensures migrator.cmds == [] <==> cs[k].model.fields == [] || OwnIndexesDistinct(cs[k].model)
  {
    var model := cs[k].model;
    assert Savable(rules, cs[k]);
    var l := SaveThenLoad(rules, cs, k);
    prev := migrator.Compare(rules, model, l, NOTHING, NOTHING);
    PlanOnce(migrator.cmds, rules, model, InFile, l);
    ReplanIsEmpty(rules, model, l);
    NoCommands(migrator.cmds, rules, model, l);
  }

  ghost predicate OwnIndexesDistinct(model: ModelMeta) {
    forall n | n in model.indices :: Distinct(model.indices[n].columns)
  }

  lemma NoCommands(cmds: seq<Cmd>, rules: Rules, model: ModelMeta, l: Loaded)
    requires Positioned(l) && IsPlan(cmds, rules, model, InFile, l)
    ensures cmds == [] <==> forall c :: !InPlan(rules, model, InFile, l, c)
  {
    if cmds == [] {
      forall c ensures !InPlan(rules, model, InFile, l, c) { assert multiset(cmds)[c] == 0; }
    } else {
      assert cmds[0] in cmds && multiset(cmds)[cmds[0]] > 0;
    }
  }
}
