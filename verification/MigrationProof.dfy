/** When a migration brings the table to the new model, from any table and for every order its sort may give. */
module MigrationProof {
  import opened Basics
  import opened Schema
  import opened Migration
  import opened MigrationRun

  /** The table is the new model's, as far as the comparison operators can see. */
  ghost predicate IsMigrated(job: Job, t: Table) {
    && t.Present? && t.name == job.model.table
    && (forall f | f in job.model.fields :: HoldsField(job, t, f))
    && (forall n :: HoldsIndex(job, t, n))
  }

  predicate HoldsField(job: Job, t: Table, f: FieldMeta)
    requires t.Present?
  {
    var n := f.ColumnName();
    n in t.columns && Matches(job.rules, f, n, t.columns[n])
  }

  predicate HoldsIndex(job: Job, t: Table, n: string)
    requires t.Present?
  {
    && (n in t.indices <==> n in job.model.indices)
    && (n in t.indices ==> IndexEqual(t.indices[n], Declared(job.model.indices[n])))
  }

  // ---------------------------------------------------------------- what it takes

  /**
   The column of the field is not given up by a renaming, and either its command can be carried out
   on the table as it is or the table has the column already.
   */
  predicate FieldReaches(job: Job, t: Table, f: FieldMeta)
    requires Positioned(job.prev) && t.Present?
  {
    var c := ColumnCmd(job.rules, f, job.prev);
    Mover(job, t, f.ColumnName()).None? &&
    ((c.Some? && ColumnAllowed(t.columns, c.value) && Spaced(job.rules, f)) || HoldsField(job, t, f))
  }

  /** The index with its columns named as after the migration. */
  function Renamed(job: Job, t: Table, index: Index): Index
    requires t.Present?
  {
    index.(columns := seq(|index.columns|, i requires 0 <= i < |index.columns| => NameAfter(job, t, index.columns[i])))
  }

  function NameAfter(job: Job, t: Table, n: string): string
    requires t.Present?
  {
    if Mover(job, t, n).Some? then Mover(job, t, n).value.ColumnName() else n
  }

  /** An index is added where there is none, but never as primary key; one that stays has to be the model's. */
  predicate IndexReaches(job: Job, t: Table, n: string)
    requires t.Present?
  {
    if n !in job.model.indices then n !in t.indices || n in job.prev.indices
    else if IsAdded(job, t, n) then !job.model.indices[n].kind.Primary?
    else n in t.indices && IndexEqual(Renamed(job, t, t.indices[n]), Declared(job.model.indices[n]))
  }

  predicate IsAdded(job: Job, t: Table, n: string)
    requires t.Present?
  {
    NeedsAdd(n, job.model.indices, job.prev.indices) && (n !in t.indices || n in job.prev.indices)
  }

  /** What the outcome depends on; it can be checked on the table as it is before. */
  predicate CanMigrate(job: Job, t: Table)
    requires Positioned(job.prev)
  {
    && Reachable(job, t)
    && (forall f | f in job.model.fields :: FieldReaches(job, t, f))
    && (forall n | n in t.indices :: IndexReaches(job, t, n))
    && (forall n | n in job.model.indices :: IndexReaches(job, t, n))
  }

  // ---------------------------------------------------------------- the end of a run

  lemma MoverPlanned(job: Job, t: Table, order: seq<Cmd>, n: string)
    requires GoodJob(job) && t.Present? && Finished(job, order)
    ensures Away(job, t, order, n) <==> Mover(job, t, n).Some?
    ensures NameNow(job, t, order, n) == NameAfter(job, t, n)
  {
    if Mover(job, t, n).Some? { MoverFacts(job, t, n); }
  }

  lemma MatchesItself(rules: Rules, f: FieldMeta)
    ensures Matches(rules, f, f.ColumnName(), ColumnOf(rules, f))
  {
  }

  lemma FieldAtEnd(job: Job, t: Table, order: seq<Cmd>, end: Table, f: FieldMeta)
    requires GoodJob(job) && t.Present? && Finished(job, order) && end.Present? && f in job.model.fields
    requires ColumnIs(job, t, order, end, f.ColumnName())
    ensures HoldsField(job, end, f) <==> FieldReaches(job, t, f)
  {
    FieldOfIs(job.model.fields, f);
    MoverPlanned(job, t, order, f.ColumnName());
    MatchesItself(job.rules, f);
    ColumnCmdShape(job, f);
    var c := ColumnCmd(job.rules, f, job.prev);
    if c.Some? { assert Planned(job, c.value); }
  }

  lemma NamesAtEnd(job: Job, t: Table, order: seq<Cmd>, index: Index)
    requires GoodJob(job) && t.Present? && Finished(job, order)
    ensures index.(columns := NamesNow(job, t, order, index.columns)) == Renamed(job, t, index)
  {
    forall i | 0 <= i < |index.columns|
      ensures NamesNow(job, t, order, index.columns)[i] == Renamed(job, t, index).columns[i]
    {
      MoverPlanned(job, t, order, index.columns[i]);
    }
  }

  lemma IndexCommands(job: Job, done: seq<Cmd>, n: string)
    requires GoodJob(job) && Finished(job, done)
    ensures AddCmd(n) in done <==> NeedsAdd(n, job.model.indices, job.prev.indices)
    ensures DropCmd(n) in done <==> NeedsDrop(n, job.model.indices, job.prev.indices)
  {
    if Planned(job, AddCmd(n)) { PlannedShape(job, AddCmd(n)); }
    if Planned(job, DropCmd(n)) { PlannedShape(job, DropCmd(n)); }
  }

  /** With all columns of the model in place, only a primary key cannot be added. */
  lemma AddableAtEnd(job: Job, t: Table, order: seq<Cmd>, end: Table, n: string)
    requires GoodJob(job) && t.Present? && ColumnsAre(job, t, order, end)
    requires forall f | f in job.model.fields :: HoldsField(job, end, f)
    requires n in job.model.indices
    ensures Addable(job, t, order, n) <==>
            (n !in t.indices || n in job.prev.indices) && !job.model.indices[n].kind.Primary?
  {
    var columns := NamesIn(job.model.indices[n].columns);
    assert GoodIndex(job.model, n, job.model.indices[n]);
    forall i | 0 <= i < |columns| ensures ColumnAt(job, t, order, columns[i]).Some? {
      assert columns[i] in columns && HasField(job.model.fields, columns[i]);
      assert ColumnIs(job, t, order, end, columns[i]);
    }
  }

  lemma IndexAtEnd(job: Job, t: Table, order: seq<Cmd>, end: Table, n: string)
    requires GoodJob(job) && t.Present? && Finished(job, order)
    requires ColumnsAre(job, t, order, end) && IndexIs(job, t, order, end, n)
    requires forall f | f in job.model.fields :: HoldsField(job, end, f)
    ensures HoldsIndex(job, end, n) <==> IndexReaches(job, t, n)
  {
    IndexCommands(job, order, n);
    if n in job.model.indices {
      AddableAtEnd(job, t, order, end, n);
      assert GoodIndex(job.model, n, job.model.indices[n]);
      IndexEqualItself(Declared(job.model.indices[n]));
    }
    if n in t.indices { NamesAtEnd(job, t, order, t.indices[n]); }
  }

  lemma EndIsMigrated(job: Job, t: Table, order: seq<Cmd>, end: Table)
    requires GoodJob(job) && Reachable(job, t) && Finished(job, order) && StateAt(job, t, order, end)
    ensures IsMigrated(job, end) <==> CanMigrate(job, t)
  {
    forall f | f in job.model.fields ensures HoldsField(job, end, f) <==> FieldReaches(job, t, f) {
      assert ColumnIs(job, t, order, end, f.ColumnName());
      FieldAtEnd(job, t, order, end, f);
    }
    if forall f | f in job.model.fields :: HoldsField(job, end, f) {
      forall n ensures HoldsIndex(job, end, n) <==> IndexReaches(job, t, n) {
        assert IndexIs(job, t, order, end, n);
        IndexAtEnd(job, t, order, end, n);
      }
      NameAtEnd(job, t, order);
      EndTogether(job, t, end);
    }
  }

  lemma NameAtEnd(job: Job, t: Table, order: seq<Cmd>)
    requires GoodJob(job) && Reachable(job, t) && Finished(job, order)
    ensures NameAt(job, t, order) == job.model.table
  {
    var rename := RenameCmd(job.model);
    if InTablePlan(job.model, job.found, job.prev, rename) { assert Planned(job, rename); }
  }

  lemma EndTogether(job: Job, t: Table, end: Table)
    requires GoodJob(job) && Reachable(job, t) && end.Present? && end.name == job.model.table
    requires forall f | f in job.model.fields :: HoldsField(job, end, f) && FieldReaches(job, t, f)
    requires forall n :: HoldsIndex(job, end, n) <==> IndexReaches(job, t, n)
    ensures IsMigrated(job, end) <==> CanMigrate(job, t)
  {
    if IsMigrated(job, end) {
      forall n ensures IndexReaches(job, t, n) { assert HoldsIndex(job, end, n); }
    } else if CanMigrate(job, t) {
      forall n ensures HoldsIndex(job, end, n) {
        assert n !in t.indices && n !in job.model.indices ==> IndexReaches(job, t, n);
      }
      assert IsMigrated(job, end);
    }
  }

  // ---------------------------------------------------------------- main results

  /**
   From any table whatever, and for every order the sort may give: the run ends with the new model's
   table exactly when the table can be found, no column of the model is given up by a renaming, and
   each column and index either is there already or can be put there.
   */
  lemma MigrationCorrect(job: Job, t: Table, order: seq<Cmd>)
    requires GoodJob(job) && Schedule(job, order)
    ensures AllKnown(job.model, order)
    ensures IsMigrated(job, ExecuteAll(job.rules, job.model, t, order)) <==> CanMigrate(job, t)
  {
    ScheduleKnown(job, order);
    if Reachable(job, t) {
      RunState(job, t, order, |order|);
      assert order[..|order|] == order;
      ScheduleFinishes(job, order);
      EndIsMigrated(job, t, order, ExecuteAll(job.rules, job.model, t, order));
    } else {
      OutOfReach(job, t, order);
    }
  }

  /** A renaming that is carried out and gives up a name the model still uses loses that column, in every order. */
  lemma ClashFails(job: Job, t: Table, order: seq<Cmd>, f: FieldMeta, g: FieldMeta)
    requires GoodJob(job) && Reachable(job, t) && Schedule(job, order)
    requires f in job.model.fields && g in job.model.fields && Moves(job, t.columns, f, g.ColumnName())
    ensures AllKnown(job.model, order)
    ensures var end := ExecuteAll(job.rules, job.model, t, order); end.Present? && g.ColumnName() !in end.columns
  {
    ScheduleKnown(job, order);
    RunState(job, t, order, |order|);
    assert order[..|order|] == order;
    ScheduleFinishes(job, order);
    MoverIs(job, t, f, g.ColumnName());
    MoverPlanned(job, t, order, g.ColumnName());
    assert ColumnIs(job, t, order, ExecuteAll(job.rules, job.model, t, order), g.ColumnName());
  }

  /** Columns that the new model neither has nor renames. */
  ghost predicate Unmentioned(job: Job, n: string) {
    !HasField(job.model.fields, n) && forall f | f in job.model.fields :: RenamedFrom(job.prev, f) != Some(n)
  }

  /** A planned command can be carried out on the table as it was before the migration. */
  predicate FitsBefore(job: Job, t: Table, c: Cmd)
    requires Positioned(job.prev) && t.Present? && Known(job.model, c)
  {
    match c.action
    case CreateTable => false
    case ChangeTableName => t.name == c.prev
    case DropIndex => c.target in t.indices
    case AddIndex => c.target in job.model.indices && IsAdded(job, t, c.target)
    case _ => Effective(job, t, c)
  }

  /**
   In every order and after every command, columns that nobody mentions are there unchanged; and when the
   migration can reach the model, a command is carried out exactly when the table was ready for it at the start.
   */
  lemma MigrationSmooth(job: Job, t: Table, order: seq<Cmd>, i: nat)
    requires GoodJob(job) && t.Present? && Schedule(job, order) && i <= |order|
    ensures AllKnown(job.model, order) && AllKnown(job.model, order[..i])
    ensures var now := ExecuteAll(job.rules, job.model, t, order[..i]);
      && now.Present?
      && (forall n | Unmentioned(job, n) ::
            (n in now.columns <==> n in t.columns) && (n in t.columns ==> now.columns[n] == t.columns[n]))
      && (i < |order| && CanMigrate(job, t) ==>
            (Accepts(job.rules, job.model, now, order[i]) <==> FitsBefore(job, t, order[i])))
  {
    ScheduleKnown(job, order);
    var now := ExecuteAll(job.rules, job.model, t, order[..i]);
    if Reachable(job, t) {
      RunState(job, t, order, i);
      forall n | Unmentioned(job, n)
        ensures n in now.columns <==> n in t.columns
        ensures n in t.columns ==> now.columns[n] == t.columns[n]
      {
        assert ColumnIs(job, t, order[..i], now, n);
      }
      if i < |order| && CanMigrate(job, t) {
        NextCommand(job, order, i);
        AcceptedInTurn(job, t, order[..i], now, order[i]);
      }
    } else {
      OutOfReach(job, t, order[..i]);
    }
  }

  lemma AcceptedInTurn(job: Job, t: Table, done: seq<Cmd>, now: Table, c: Cmd)
    requires GoodJob(job) && CanMigrate(job, t) && StateAt(job, t, done, now) && AllPlanned(job, done)
    requires Turn(job, done, c) && Known(job.model, c)
    ensures Accepts(job.rules, job.model, now, c) <==> FitsBefore(job, t, c)
  {
    PlannedShape(job, c);
    if c.Priority() == 1 {
      assert c !in done;
    } else {
      NameReady(job, t, done, c);
      if c.Priority() == 2 {
        ColumnInTurn(job, t, done, now, c);
      } else if c.Priority() == 3 {
        assert AddCmd(c.target) !in done by { assert AddCmd(c.target).Priority() == 4; }
        assert IndexIs(job, t, done, now, c.target);
      } else {
        AddInTurn(job, t, done, now, c);
      }
    }
  }

  lemma ColumnInTurn(job: Job, t: Table, done: seq<Cmd>, now: Table, c: Cmd)
    requires GoodJob(job) && CanMigrate(job, t) && StateAt(job, t, done, now) && now.name == job.model.table
    requires Turn(job, done, c) && Known(job.model, c) && c.Priority() == 2
    ensures Accepts(job.rules, job.model, now, c) <==> Effective(job, t, c)
  {
    var f := TurnOfColumn(job, t, done, c);
    assert ColumnIs(job, t, done, now, c.target) && ColumnIs(job, t, done, now, From(c));
    ColumnAccepted(job, t, done, now, c, f);
    assert FieldReaches(job, t, f);
  }

  lemma AddInTurn(job: Job, t: Table, done: seq<Cmd>, now: Table, c: Cmd)
    requires GoodJob(job) && CanMigrate(job, t) && StateAt(job, t, done, now) && now.name == job.model.table
    requires AllPlanned(job, done) && Turn(job, done, c)
    requires c == AddCmd(c.target) && NeedsAdd(c.target, job.model.indices, job.prev.indices)
    ensures Accepts(job.rules, job.model, now, c) <==> IsAdded(job, t, c.target)
  {
    AddAccepted(job, t, done, now, c);
    var columns := NamesIn(job.model.indices[c.target].columns);
    assert GoodIndex(job.model, c.target, job.model.indices[c.target]) && IndexReaches(job, t, c.target);
    forall i | 0 <= i < |columns| ensures ColumnAt(job, t, done, columns[i]).Some? {
      assert columns[i] in columns;
      var f :| f in job.model.fields && f.ColumnName() == columns[i];
      ColumnsDone(job, t, done, c, f);
    }
  }

  /** Once all column commands have run, every column that can be put there is there. */
  lemma ColumnsDone(job: Job, t: Table, done: seq<Cmd>, c: Cmd, f: FieldMeta)
    requires GoodJob(job) && t.Present? && f in job.model.fields && FieldReaches(job, t, f)
    requires Turn(job, done, c) && c.Priority() > 2
    ensures ColumnAt(job, t, done, f.ColumnName()).Some?
  {
    FieldOfIs(job.model.fields, f);
    ColumnCmdShape(job, f);
    var cmd := ColumnCmd(job.rules, f, job.prev);
    if cmd.Some? { assert Planned(job, cmd.value); }
  }

  // ---------------------------------------------------------------- new tables

  /** The primary index of a model is the one of its key column. */
  ghost predicate KeysIndexed(model: ModelMeta) {
    && ("PRIMARY" in model.indices <==> PrimaryKeys(model.fields) != {})
    && (forall k | PrimaryKeys(model.fields) == {k} ::
          model.indices["PRIMARY"] == Index(Primary, "PRIMARY", [k]))
    && (forall f | f in model.fields :: f.isPk ==> f.notNull)
  }

  ghost predicate NewJob(job: Job) {
    GoodModel(job.model) && KeysIndexed(job.model) && job.found.Nowhere? && job.prev == NOTHING
  }

  lemma OnlyCreate(job: Job, order: seq<Cmd>)
    requires NewJob(job) && Schedule(job, order)
    ensures order == [CREATE]
  {
    assert multiset(order)[CREATE] == 1 && CREATE in order;
    assert multiset(order) == multiset{CREATE};
    assert |order| == |multiset(order)| == 1;
  }

  lemma {:induction false} OnlyKeyIs(fields: seq<FieldMeta>, k: string)
    requires PrimaryKeys(fields) == {k}
    ensures OnlyKey(fields) == [k]
  {
    assert fields[0] in fields;
    if fields[0].isPk {
      assert fields[0].ColumnName() in PrimaryKeys(fields);
    } else {
      assert PrimaryKeys(fields[1..]) == PrimaryKeys(fields) by {
        forall n ensures n in PrimaryKeys(fields[1..]) <==> n in PrimaryKeys(fields) {
          assert forall f | f in fields :: f == fields[0] || f in fields[1..];
          assert forall f | f in fields[1..] :: f in fields;
        }
      }
      OnlyKeyIs(fields[1..], k);
    }
  }

  /** Only the index called PRIMARY is a primary key. */
  predicate OneKey(model: ModelMeta) {
    forall n | n in model.indices && n != "PRIMARY" :: !model.indices[n].kind.Primary?
  }

  lemma CreatedKey(job: Job)
    requires NewJob(job) && Creatable(job.model)
    ensures var indices := Created(job.rules, job.model).indices;
      && ("PRIMARY" in indices <==> "PRIMARY" in job.model.indices)
      && ("PRIMARY" in indices ==> indices["PRIMARY"] == Declared(job.model.indices["PRIMARY"]))
  {
    var keys := PrimaryKeys(job.model.fields);
    if keys != {} {
      var k :| k in keys;
      SingleKey(keys, k);
      OnlyKeyIs(job.model.fields, k);
      assert IsName(k);
      NamesInNames([k]);
    }
  }

  lemma CreatedIndex(job: Job, n: string)
    requires NewJob(job) && Creatable(job.model)
    ensures HoldsIndex(job, Created(job.rules, job.model), n) <==>
            n !in job.model.indices || n == "PRIMARY" || !job.model.indices[n].kind.Primary?
  {
    CreatedKey(job);
    if n in job.model.indices {
      assert GoodIndex(job.model, n, job.model.indices[n]);
      IndexEqualItself(Declared(job.model.indices[n]));
    }
  }

  lemma SingleKey(keys: set<string>, k: string)
    requires k in keys && |keys| <= 1
    ensures keys == {k}
  {
    SubsetCount({k}, keys);
  }

  lemma CreatedField(job: Job, f: FieldMeta)
    requires NewJob(job) && f in job.model.fields
    ensures var columns := Created(job.rules, job.model).columns;
      && f.ColumnName() in columns
      && (Matches(job.rules, f, f.ColumnName(), columns[f.ColumnName()]) <==> f.extra == "")
  {
    FieldOfIs(job.model.fields, f);
    var columns := Created(job.rules, job.model).columns;
    assert f.ColumnName() in columns;
    assert columns[f.ColumnName()] == CreatedColumn(job.rules, f);
  }

  /** The statement leaves nothing out that the model asks for. */
  predicate CanCreate(model: ModelMeta) {
    Creatable(model) && OneKey(model) && forall f | f in model.fields :: f.extra == ""
  }

  lemma CreatedWell(job: Job)
    requires NewJob(job) && Creatable(job.model)
    ensures IsMigrated(job, Created(job.rules, job.model)) <==> CanCreate(job.model)
  {
    var end := Created(job.rules, job.model);
    forall f | f in job.model.fields ensures HoldsField(job, end, f) <==> f.extra == "" { CreatedField(job, f); }
    forall n ensures HoldsIndex(job, end, n) <==>
                     n !in job.model.indices || n == "PRIMARY" || !job.model.indices[n].kind.Primary? {
      CreatedIndex(job, n);
    }
    CreatedTogether(job, end);
  }

  lemma CreatedTogether(job: Job, end: Table)
    requires end.Present? && end.name == job.model.table && Creatable(job.model)
    requires forall f | f in job.model.fields :: (HoldsField(job, end, f) <==> f.extra == "")
    requires forall n :: (HoldsIndex(job, end, n) <==>
      n !in job.model.indices || n == "PRIMARY" || !job.model.indices[n].kind.Primary?)
    ensures IsMigrated(job, end) <==> CanCreate(job.model)
  {
    if !OneKey(job.model) {
      var n :| n in job.model.indices && n != "PRIMARY" && job.model.indices[n].kind.Primary?;
      assert !HoldsIndex(job, end, n);
    }
  }

  lemma ExecuteOne(rules: Rules, model: ModelMeta, t: Table, c: Cmd)
    requires Known(model, c)
    ensures ExecuteAll(rules, model, t, [c]) == Execute(rules, model, t, c)
  {
    assert ExecuteAll(rules, model, t, [c][..0]) == t;
  }

  /**
   A table that did not exist is created as the model wants it exactly when the model has a column,
   at most one key column, no other key, and no column with extra text, which the statement leaves out.
   */
  lemma CreationCorrect(job: Job, order: seq<Cmd>)
    requires NewJob(job) && Schedule(job, order)
    ensures AllKnown(job.model, order)
    ensures IsMigrated(job, ExecuteAll(job.rules, job.model, Absent, order)) <==> CanCreate(job.model)
  {
    OnlyCreate(job, order);
    ExecuteOne(job.rules, job.model, Absent, CREATE);
    if Creatable(job.model) { CreatedWell(job); }
  }

  // ---------------------------------------------------------------- the whole call

  ghost predicate ReadyToMigrate(job: Job, t: Table) {
    if job.found.Nowhere? then NewJob(job) && t.Absent? else GoodJob(job)
  }

  /** What the outcome depends on, and can be checked beforehand. */
  predicate WillMigrate(job: Job, t: Table)
    requires Positioned(job.prev)
  {
    if job.found.Nowhere? then CanCreate(job.model) else CanMigrate(job, t)
  }

  /** Model::AutoMigrate: load, compare, sort, run. */
  method AutoMigrate(rules: Rules, model: ModelMeta, file: Loaded, byTable: Loaded, byDefault: Loaded,
                     migrator: Migrator)
    returns (prev: Loaded)
    requires migrator.cmds == [] && Distinct(ColumnNames(model.fields))
    requires file.table == "" ==> file == NOTHING
    requires Positioned(file) && Positioned(byTable) && Positioned(byDefault)
    requires ReadyToMigrate(Job(rules, model, Search(file, byTable, byDefault), Previous(file, byTable, byDefault)),
                            migrator.table)
    modifies migrator
    ensures prev == Previous(file, byTable, byDefault)
    ensures var job := Job(rules, model, Search(file, byTable, byDefault), prev);
      && Schedule(job, migrator.cmds)
      && (IsMigrated(job, migrator.table) <==> WillMigrate(job, old(migrator.table)))
  {
    ghost var job := Job(rules, model, Search(file, byTable, byDefault), Previous(file, byTable, byDefault));
    ghost var before := migrator.table;
    prev := migrator.Compare(rules, model, file, byTable, byDefault);
    PlanOnce(migrator.cmds, rules, model, job.found, prev);
    PlanKnown(job, migrator.cmds);
    migrator.Migrate(rules, model);
    if job.found.Nowhere? {
      CreationCorrect(job, migrator.cmds);
    } else {
      MigrationCorrect(job, before, migrator.cmds);
    }
  }

  lemma PlanKnown(job: Job, cmds: seq<Cmd>)
    requires GoodJob(job) || NewJob(job)
    requires IsPlan(cmds, job.rules, job.model, job.found, job.prev)
    ensures AllKnown(job.model, cmds)
  {
    forall i | 0 <= i < |cmds| ensures Known(job.model, cmds[i]) {
      assert cmds[i] in cmds && multiset(cmds)[cmds[i]] > 0;
      if GoodJob(job) { PlannedKnown(job, cmds[i]); }
    }
  }
}
