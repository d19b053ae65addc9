/** What a migration achieves, and what the planner compares, in terms of the parts of a column. */
module MigrationMeaning {
  import opened Basics
  import opened Text
  import opened Schema
  import opened Migration
  import opened MigrationRun
  import opened MigrationProof
  import opened MigrationChain

  /** The two spellings of the present time, in any case. */
  predicate BothNow(a: string, b: string) {
    || (ToLower(a) == "now()" && ToLower(b) == "current_timestamp")
    || (ToLower(a) == "current_timestamp" && ToLower(b) == "now()")
  }

  /** The rules list the types together, under the first three characters of the first one. */
  predicate Listed(rules: Rules, a: string, b: string) {
    exists key | key in rules.sameTypes ::
      key <= a && |key| <= 3 && (|key| == 3 || key == a) && a in rules.sameTypes[key] && b in rules.sameTypes[key]
  }

  lemma NowIsApart()
    ensures "now()" != "current_timestamp"
  {
    assert |"now()"| == 5 && |"current_timestamp"| == 17;
  }

  lemma SameDefaults(a: string, b: string)
    ensures IsSame(a, b) <==> a == b || BothNow(a, b)
  {
    NowIsApart();
  }

  lemma SameTypes(rules: Rules, a: string, b: string)
    ensures IsSameDbType(rules, a, b) <==> a == b || Listed(rules, a, b)
  {
    var prefix := if |a| <= 3 then a else a[..3];
    forall key | key in rules.sameTypes && key <= a && |key| <= 3 && (|key| == 3 || key == a) ensures key == prefix {
    }
    assert prefix <= a;
  }

  // ---------------------------------------------------------------- after the migration

  /**
   After a migration that can succeed, in every order, the column of each field may be null just as the
   field says, has its extra text, its default or the other spelling of it, and its type or a synonym of it.
   */
  lemma ColumnsReached(job: Job, t: Table, order: seq<Cmd>, f: FieldMeta)
    requires GoodJob(job) && Schedule(job, order) && CanMigrate(job, t) && f in job.model.fields
    ensures AllKnown(job.model, order)
    ensures var end, n := ExecuteAll(job.rules, job.model, t, order), f.ColumnName();
      && end.Present? && end.name == job.model.table && n in end.columns
      && var column := end.columns[n];
      && column.notNull == f.notNull && column.extra == f.extra
      && (column.defaultValue == f.defaultValue || BothNow(f.defaultValue, column.defaultValue))
      && (column.columnType == f.ColumnType(job.rules)
          || Listed(job.rules, f.ColumnType(job.rules), column.columnType))
  {
    MigrationCorrect(job, t, order);
    var end := ExecuteAll(job.rules, job.model, t, order);
    assert HoldsField(job, end, f);
    var column := end.columns[f.ColumnName()];
    SameDefaults(f.defaultValue, column.defaultValue);
    SameTypes(job.rules, f.ColumnType(job.rules), column.columnType);
  }

  /** The indexes are those of the model, with the same kinds and on the same columns. */
  lemma IndexesReached(job: Job, t: Table, order: seq<Cmd>, n: string)
    requires GoodJob(job) && Schedule(job, order) && CanMigrate(job, t) && TableOk(t)
    ensures AllKnown(job.model, order)
    ensures var end := ExecuteAll(job.rules, job.model, t, order);
      && end.Present? && (n in end.indices <==> n in job.model.indices)
      && (n in end.indices ==>
            && end.indices[n].kind == job.model.indices[n].kind && end.indices[n].name == n
            && forall c :: c in end.indices[n].columns <==> c in NamesIn(job.model.indices[n].columns))
  {
    MigrationCorrect(job, t, order);
    RunKeepsOk(job.rules, job.model, t, order);
    var end := ExecuteAll(job.rules, job.model, t, order);
    assert HoldsIndex(job, end, n);
    if n in end.indices {
      assert IndexOk(end, end.indices[n]) && GoodIndex(job.model, n, job.model.indices[n]);
      IndexEqualMeaning(end.indices[n], Declared(job.model.indices[n]));
      assert forall c :: c in end.indices[n].columns <==> c in Elements(end.indices[n].columns);
      assert forall c :: c in NamesIn(job.model.indices[n].columns)
                         <==> c in Elements(Declared(job.model.indices[n]).columns);
    }
  }

  // ---------------------------------------------------------------- what is planned

  /** A column that is known by its name is changed exactly when one of the four parts differs. */
  lemma KnownColumnPlan(job: Job, f: FieldMeta)
    requires GoodJob(job) && f.ColumnName() in job.prev.position
    ensures var g, c := job.prev.fields[job.prev.position[f.ColumnName()]], ColumnCmd(job.rules, f, job.prev);
      && (c == None || c == Some(Cmd(ChangeColumn, f.ColumnName(), "")))
      && (c == None <==>
            && f.notNull == g.notNull && f.extra == g.extra
            && (f.defaultValue == g.defaultValue || BothNow(f.defaultValue, g.defaultValue))
            && (f.ColumnType(job.rules) == g.ColumnType(job.rules)
                || Listed(job.rules, f.ColumnType(job.rules), g.ColumnType(job.rules))))
  {
    var g := job.prev.fields[job.prev.position[f.ColumnName()]];
    SameDefaults(f.defaultValue, g.defaultValue);
    SameTypes(job.rules, f.ColumnType(job.rules), g.ColumnType(job.rules));
  }

  /** A column that is not known by its name is renamed if its variable is known, and added otherwise. */
  lemma UnknownColumnPlan(job: Job, f: FieldMeta)
    requires GoodJob(job) && f.ColumnName() !in job.prev.position
    ensures var c := ColumnCmd(job.rules, f, job.prev);
      && c.Some? && c.value.target == f.ColumnName()
      && (c.value.action.AddColumn? <==> forall g | g in job.prev.fields :: g.fieldName != f.fieldName)
      && (c.value.action.AddColumn? || exists g | g in job.prev.fields ::
            g.fieldName == f.fieldName && c.value == Cmd(ChangeColumn, f.ColumnName(), g.ColumnName()))
  {
    FindFieldFinds(job.prev.fields, f.fieldName);
  }

  lemma {:induction false} FindFieldFinds(fields: seq<FieldMeta>, name: string)
    ensures FindField(fields, name).None? <==> forall g | g in fields :: g.fieldName != name
  {
    if fields != [] {
      FindFieldFinds(fields[1..], name);
      assert fields[0] in fields && forall g | g in fields :: g == fields[0] || g in fields[1..];
      assert forall g | g in fields[1..] :: g in fields;
    }
  }

  /** An index is dropped when it is gone or differs in kind or columns, and added when it is new or differs. */
  lemma IndexPlan(job: Job, n: string)
    requires GoodJob(job)
    ensures var olds, news := job.prev.indices, job.model.indices;
            var differ := n in olds && n in news &&
                          !(olds[n].kind == news[n].kind && forall c :: c in olds[n].columns <==> c in news[n].columns);
      && (Planned(job, DropCmd(n)) <==> (n in olds && n !in news) || differ)
      && (Planned(job, AddCmd(n)) <==> (n in news && n !in olds) || differ)
  {
    var olds, news := job.prev.indices, job.model.indices;
    if n in olds && n in news {
      assert GoodIndex(job.model, n, news[n]);
      IndexEqualMeaning(olds[n], news[n]);
      assert forall c :: c in olds[n].columns <==> c in Elements(olds[n].columns);
      assert forall c :: c in news[n].columns <==> c in Elements(news[n].columns);
    }
    IndexCmdsPlanned(job, n);
  }

  lemma IndexCmdsPlanned(job: Job, n: string)
    requires GoodJob(job)
    ensures Planned(job, DropCmd(n)) <==> NeedsDrop(n, job.model.indices, job.prev.indices)
    ensures Planned(job, AddCmd(n)) <==> NeedsAdd(n, job.model.indices, job.prev.indices)
  {
    if Planned(job, DropCmd(n)) { PlannedShape(job, DropCmd(n)); }
    if Planned(job, AddCmd(n)) { PlannedShape(job, AddCmd(n)); }
    if NeedsDrop(n, job.model.indices, job.prev.indices) {
      assert InIndexPlan(job.model.indices, job.prev.indices, DropCmd(n));
    }
    if NeedsAdd(n, job.model.indices, job.prev.indices) {
      assert InIndexPlan(job.model.indices, job.prev.indices, AddCmd(n));
    }
  }

  // ---------------------------------------------------------------- where the previous version is found

  /**
   A snapshot of the model comes before anything in the database, and the table's own name before the default
   one. The table is renamed only when it is known by another name, and created only when nothing is found.
   */
  lemma SearchOrder(model: ModelMeta, file: Loaded, byTable: Loaded, byDefault: Loaded)
    ensures var found, prev := Search(file, byTable, byDefault), Previous(file, byTable, byDefault);
            var renames := InTablePlan(model, found, prev, RenameCmd(model));
            var creates := InTablePlan(model, found, prev, CREATE);
      && (file.table != "" ==>
            prev == file && !creates && (renames <==> file.fields != [] && file.table != model.table))
      && (file.table == "" && byTable.fields != [] ==> prev == byTable && !creates && !renames)
      && (file.table == "" && byTable.fields == [] && byDefault.fields != [] ==>
            prev == byDefault && !creates && renames)
      && (file.table == "" && byTable.fields == [] && byDefault.fields == [] ==> creates && !renames)
    ensures RenameCmd(model) == Cmd(ChangeTableName, model.table, model.defaultTable)
  {
  }
}
