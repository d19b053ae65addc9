/** One migration after the other: what one leaves behind is where the next one starts. */
module MigrationChain {
  import opened Basics
  import opened Schema
  import opened Migration
  import opened MigrationRun
  import opened MigrationProof
  import opened SnapshotProof

  // ---------------------------------------------------------------- tables of a database

  /** The indexes are made of columns of the table, none of them repeated. */
  ghost predicate TableOk(t: Table) {
    t.Present? ==> forall n | n in t.indices :: IndexOk(t, t.indices[n])
  }

  ghost predicate IndexOk(t: Table, index: Index)
    requires t.Present?
  {
    Distinct(index.columns) && forall i | 0 <= i < |index.columns| :: index.columns[i] in t.columns
  }

  lemma RenamedOk(t: Table, t': Table, index: Index, from: string, to: string)
    requires t.Present? && t'.Present? && IndexOk(t, index) && (to == from || to !in t.columns)
    requires to in t'.columns && forall n | n in t.columns && n != from :: n in t'.columns
    ensures IndexOk(t', index.(columns := RenameIn(index.columns, from, to)))
  {
  }

  lemma CreatedOk(rules: Rules, model: ModelMeta)
    requires GoodModel(model)
    ensures TableOk(Created(rules, model))
  {
    var t := Created(rules, model);
    forall n | n in t.indices ensures IndexOk(t, t.indices[n]) {
      var columns := t.indices[n].columns;
      OnlyKeyHas(model.fields);
      if n in model.indices { assert GoodIndex(model, n, model.indices[n]); }
      forall i | 0 <= i < |columns| ensures columns[i] in t.columns {
        assert HasField(model.fields, columns[i]) by { assert columns[i] in columns; }
        CreatedHas(rules, model, columns[i]);
      }
    }
  }

  lemma CreatedHas(rules: Rules, model: ModelMeta, n: string)
    requires HasField(model.fields, n)
    ensures n in Created(rules, model).columns
  {
  }

  lemma {:induction false} OnlyKeyHas(fields: seq<FieldMeta>)
    ensures |OnlyKey(fields)| <= 1 && forall i | 0 <= i < |OnlyKey(fields)| :: HasField(fields, OnlyKey(fields)[i])
  {
    if fields != [] {
      assert fields[0] in fields;
      OnlyKeyHas(fields[1..]);
      assert forall f | f in fields[1..] :: f in fields;
    }
  }

  lemma ExecuteKeepsOk(rules: Rules, model: ModelMeta, t: Table, c: Cmd)
    requires GoodModel(model) && TableOk(t) && Known(model, c)
    ensures TableOk(Execute(rules, model, t, c))
  {
    var t' := Execute(rules, model, t, c);
    if Accepts(rules, model, t, c) {
      match c.action
      case CreateTable => CreatedOk(rules, model);
      case AddIndex =>
        assert GoodIndex(model, c.target, model.indices[c.target]);
        forall n | n in t'.indices ensures IndexOk(t', t'.indices[n]) {
          if n != c.target { assert IndexOk(t, t.indices[n]); }
        }
      case ChangeColumn =>
        forall n | n in t'.indices ensures IndexOk(t', t'.indices[n]) {
          RenamedOk(t, t', t.indices[n], From(c), c.target);
        }
      case _ =>
        forall n | t'.Present? && n in t'.indices ensures IndexOk(t', t'.indices[n]) {
          assert IndexOk(t, t.indices[n]);
        }
    }
  }

  /** Whatever is executed, a table stays one that a database can hold. */
  lemma {:induction false} RunKeepsOk(rules: Rules, model: ModelMeta, t: Table, cmds: seq<Cmd>)
    requires GoodModel(model) && TableOk(t) && AllKnown(model, cmds)
    ensures TableOk(ExecuteAll(rules, model, t, cmds))
    decreases |cmds|
  {
    if cmds != [] {
      var init, last := cmds[..|cmds| - 1], cmds[|cmds| - 1];
      RunKeepsOk(rules, model, t, init);
      ExecuteKeepsOk(rules, model, ExecuteAll(rules, model, t, init), last);
    }
  }

  // ---------------------------------------------------------------- tables as the snapshot describes them

  /**
   The table is the one that the previous version describes, as far as the comparison operators can
   see. It may have more columns: those of variables that were removed earlier.
   */
  ghost predicate InStep(job: Job, t: Table)
    requires Positioned(job.prev)
  {
    && t.Present? && t.name == OldName(job)
    && (forall i | 0 <= i < |job.prev.fields| :: HoldsField(job, t, job.prev.fields[i]))
    && (forall n :: n in t.indices <==> n in job.prev.indices)
    && (forall n | n in t.indices :: IndexEqual(t.indices[n], Declared(job.prev.indices[n])))
  }

  /** The name under which the previous version of the table exists. */
  function OldName(job: Job): string {
    match job.found
    case InFile => job.prev.table
    case UnderDefaultName => job.model.defaultTable
    case _ => job.model.table
  }

  /** A table that has to be renamed has the default name, the only one the plan renames from. */
  predicate NameKnown(job: Job) {
    OldName(job) == job.model.table || OldName(job) == job.model.defaultTable
  }

  /** No name that is given up by a renaming is used by the new model. */
  predicate NoClash(job: Job, t: Table)
    requires t.Present?
  {
    forall f | f in job.model.fields && RenamedFrom(job.prev, f).Some? && f.ColumnName() !in t.columns ::
      !HasField(job.model.fields, RenamedFrom(job.prev, f).value)
  }

  /**
   A column with a command gets it in a well-formed text, and finds its new name free; any other column,
   one that is left from a removed variable for instance, has to be the wanted one already.
   */
  predicate FieldFits(job: Job, t: Table, f: FieldMeta)
    requires Positioned(job.prev) && t.Present?
  {
    || (ColumnCmd(job.rules, f, job.prev).Some? && Spaced(job.rules, f)
        && IsName(f.ColumnName()) && IsName(From(ColumnCmd(job.rules, f, job.prev).value))
        && (f.ColumnName() in job.prev.position || f.ColumnName() !in t.columns))
    || HoldsField(job, t, f)
  }

  predicate NoKeyAdded(job: Job) {
    forall n | n in job.model.indices && NeedsAdd(n, job.model.indices, job.prev.indices) ::
      !job.model.indices[n].kind.Primary?
  }

  lemma NamesReach(job: Job, t: Table)
    requires GoodJob(job) && t.Present? && t.name == OldName(job)
    ensures Reachable(job, t) <==> NameKnown(job)
  {
  }

  /** The columns of the previous version are where the commands expect them. */
  lemma CommandsFit(job: Job, t: Table, f: FieldMeta)
    requires GoodJob(job) && InStep(job, t) && f in job.model.fields && ColumnCmd(job.rules, f, job.prev).Some?
    ensures ColumnAllowed(t.columns, ColumnCmd(job.rules, f, job.prev).value) <==>
            && IsName(f.ColumnName()) && IsName(From(ColumnCmd(job.rules, f, job.prev).value))
            && (f.ColumnName() in job.prev.position || f.ColumnName() !in t.columns)
  {
    ColumnCmdShape(job, f);
    var c := ColumnCmd(job.rules, f, job.prev).value;
    if From(c) in job.prev.position {
      assert HoldsField(job, t, job.prev.fields[job.prev.position[From(c)]]);
    }
  }

  lemma UnclashedStay(job: Job, t: Table, n: string)
    requires GoodJob(job) && t.Present? && NoClash(job, t) && HasField(job.model.fields, n)
    ensures Mover(job, t, n).None?
  {
  }

  lemma FieldsReach(job: Job, t: Table)
    requires GoodJob(job) && InStep(job, t)
    ensures (forall f | f in job.model.fields :: FieldReaches(job, t, f)) <==>
            NoClash(job, t) && forall f | f in job.model.fields :: FieldFits(job, t, f)
  {
    forall f | f in job.model.fields
      ensures FieldReaches(job, t, f) <==> Mover(job, t, f.ColumnName()).None? && FieldFits(job, t, f)
    {
      if ColumnCmd(job.rules, f, job.prev).Some? { CommandsFit(job, t, f); }
    }
    if NoClash(job, t) {
      forall f | f in job.model.fields ensures Mover(job, t, f.ColumnName()).None? {
        UnclashedStay(job, t, f.ColumnName());
      }
    } else {
      ClashBlocks(job, t);
    }
  }

  lemma ClashBlocks(job: Job, t: Table)
    requires GoodJob(job) && InStep(job, t) && !NoClash(job, t)
    ensures exists f | f in job.model.fields :: !FieldReaches(job, t, f)
  {
    var f :| f in job.model.fields && RenamedFrom(job.prev, f).Some? && f.ColumnName() !in t.columns
          && HasField(job.model.fields, RenamedFrom(job.prev, f).value);
    var g :| g in job.model.fields && g.ColumnName() == RenamedFrom(job.prev, f).value;
    OneClashBlocks(job, t, f, g);
  }

  lemma OneClashBlocks(job: Job, t: Table, f: FieldMeta, g: FieldMeta)
    requires GoodJob(job) && InStep(job, t) && f in job.model.fields && g in job.model.fields
    requires RenamedFrom(job.prev, f) == Some(g.ColumnName()) && f.ColumnName() !in t.columns
    ensures !FieldReaches(job, t, f) || !FieldReaches(job, t, g)
  {
    ColumnCmdShape(job, f);
    assert HoldsField(job, t, job.prev.fields[job.prev.position[g.ColumnName()]]);
    if Spaced(job.rules, f) && IsName(f.ColumnName()) && IsName(g.ColumnName()) {
      assert Moves(job, t.columns, f, g.ColumnName());
    }
  }

  /** An index that is kept is made of columns of the new model, and none of them is renamed. */
  lemma KeptIndex(job: Job, t: Table, n: string, now: Index, old_: Index)
    requires GoodJob(job) && t.Present? && NoClash(job, t) && n in job.model.indices
    requires Distinct(now.columns) && Distinct(old_.columns) && Distinct(NamesIn(old_.columns))
    requires IndexEqual(now, Declared(old_)) && IndexEqual(old_, job.model.indices[n])
    ensures IndexEqual(Renamed(job, t, now), Declared(job.model.indices[n]))
  {
    var new_ := Declared(job.model.indices[n]);
    assert GoodIndex(job.model, n, job.model.indices[n]);
    DeclaredEqual(old_, job.model.indices[n]);
    IndexEqualChain(now, Declared(old_), new_);
    forall i | 0 <= i < |now.columns| ensures HasField(job.model.fields, now.columns[i]) {
      assert now.columns[i] in Elements(now.columns) && now.columns[i] in Elements(new_.columns);
    }
    NotRenamed(job, t, now);
  }

  lemma NotRenamed(job: Job, t: Table, index: Index)
    requires GoodJob(job) && t.Present? && NoClash(job, t)
    requires forall i | 0 <= i < |index.columns| :: HasField(job.model.fields, index.columns[i])
    ensures Renamed(job, t, index) == index
  {
    forall i | 0 <= i < |index.columns| ensures NameAfter(job, t, index.columns[i]) == index.columns[i] {
      UnclashedStay(job, t, index.columns[i]);
    }
  }

  /** Indexes that compare equal are declared as indexes that compare equal. */
  lemma DeclaredEqual(a: Index, b: Index)
    requires Distinct(a.columns) && Distinct(b.columns) && IndexEqual(a, b)
    requires Distinct(NamesIn(a.columns)) && Distinct(NamesIn(b.columns))
    ensures IndexEqual(Declared(a), Declared(b))
  {
    IndexEqualMeaning(a, b);
    SameNames(a.columns, b.columns);
    IndexEqualMeaning(Declared(a), Declared(b));
  }

  lemma IndexEqualChain(a: Index, b: Index, c: Index)
    requires Distinct(a.columns) && Distinct(b.columns) && Distinct(c.columns)
    requires IndexEqual(a, b) && IndexEqual(b, c)
    ensures IndexEqual(a, c) && Elements(a.columns) == Elements(c.columns)
  {
    IndexEqualMeaning(a, b);
    IndexEqualMeaning(b, c);
    IndexEqualMeaning(a, c);
  }

  lemma IndexesReach(job: Job, t: Table, n: string)
    requires GoodJob(job) && InStep(job, t) && TableOk(t) && NoClash(job, t)
    ensures IndexReaches(job, t, n) <==>
            (n in job.model.indices && NeedsAdd(n, job.model.indices, job.prev.indices) ==>
               !job.model.indices[n].kind.Primary?)
  {
    if n in job.model.indices && !NeedsAdd(n, job.model.indices, job.prev.indices) {
      assert IndexOk(t, t.indices[n]);
      KeptIndex(job, t, n, t.indices[n], job.prev.indices[n]);
    }
  }

  /** What a migration needs when the previous version describes the table. */
  predicate StepFits(job: Job, t: Table)
    requires Positioned(job.prev) && t.Present?
  {
    && NameKnown(job) && NoClash(job, t) && NoKeyAdded(job)
    && forall f | f in job.model.fields :: FieldFits(job, t, f)
  }

  /**
   From a table that the previous version describes, the migration reaches the new model exactly when the
   table has its new or its default name, no renaming gives up a name that is still used, every column
   fits, and no primary key has to be added.
   */
  lemma InStepOutcome(job: Job, t: Table)
    requires GoodJob(job) && InStep(job, t) && TableOk(t)
    ensures CanMigrate(job, t) <==> StepFits(job, t)
  {
    NamesReach(job, t);
    FieldsReach(job, t);
    if NoClash(job, t) {
      forall n ensures IndexReaches(job, t, n) <==>
                       (n in job.model.indices && NeedsAdd(n, job.model.indices, job.prev.indices) ==>
                          !job.model.indices[n].kind.Primary?) {
        IndexesReach(job, t, n);
      }
      if CanMigrate(job, t) {
        forall n | n in job.model.indices ensures IndexReaches(job, t, n) { }
      }
    }
  }

  /** Every planned column command is well-formed and finds its new name free. */
  predicate ColumnsFit(job: Job, t: Table)
    requires Positioned(job.prev) && t.Present?
  {
    forall f | f in job.model.fields && ColumnCmd(job.rules, f, job.prev).Some? ::
      && Spaced(job.rules, f) && IsName(f.ColumnName()) && IsName(From(ColumnCmd(job.rules, f, job.prev).value))
      && (f.ColumnName() in job.prev.position || f.ColumnName() !in t.columns)
  }

  lemma PlannedFits(job: Job, t: Table, c: Cmd)
    requires GoodJob(job) && InStep(job, t) && Planned(job, c) && NameKnown(job) && ColumnsFit(job, t)
    ensures Known(job.model, c) && FitsBefore(job, t, c)
  {
    PlannedShape(job, c);
    PlannedKnown(job, c);
    if c.Priority() == 2 {
      var f :| f in job.model.fields && ColumnCmd(job.rules, f, job.prev) == Some(c);
      ColumnFits(job, t, c, f);
    }
  }

  lemma ColumnFits(job: Job, t: Table, c: Cmd, f: FieldMeta)
    requires GoodJob(job) && InStep(job, t) && ColumnsFit(job, t)
    requires f in job.model.fields && ColumnCmd(job.rules, f, job.prev) == Some(c)
    ensures HasField(job.model.fields, c.target) && Effective(job, t, c)
    ensures c.action.AddColumn? || c.action.ChangeColumn?
  {
    ColumnCmdShape(job, f);
    FieldOfIs(job.model.fields, f);
    CommandsFit(job, t, f);
  }

  /** A migration that can succeed, and whose column commands fit, carries out every command of every order. */
  lemma EveryCommandRuns(job: Job, t: Table, order: seq<Cmd>, i: nat)
    requires GoodJob(job) && InStep(job, t) && CanMigrate(job, t) && ColumnsFit(job, t)
    requires Schedule(job, order) && i < |order|
    ensures AllKnown(job.model, order) && AllKnown(job.model, order[..i])
    ensures Accepts(job.rules, job.model, ExecuteAll(job.rules, job.model, t, order[..i]), order[i])
  {
    ScheduleKnown(job, order);
    NamesReach(job, t);
    MigrationSmooth(job, t, order, i);
    PlannedFits(job, t, order[i]);
  }

  // ---------------------------------------------------------------- the next migration

  lemma LoadedHolds(job: Job, next: Job, t: Table, i: nat)
    requires IsReload(job.rules, job.model, next.prev) && next.rules == job.rules && t.Present?
    requires i < |job.model.fields| && HoldsField(job, t, job.model.fields[i])
    ensures HoldsField(next, t, next.prev.fields[i])
  {
  }

  /** A table that a migration has brought to its model is in step with the snapshot saved for this model. */
  lemma MigratedInStep(job: Job, end: Table, next: Job)
    requires IsMigrated(job, end)
    requires IsReload(job.rules, job.model, next.prev) && next.found.InFile? && next.rules == job.rules
    requires Positioned(next.prev)
    ensures InStep(next, end)
  {
    forall i | 0 <= i < |next.prev.fields| ensures HoldsField(next, end, next.prev.fields[i]) {
      assert job.model.fields[i] in job.model.fields;
      LoadedHolds(job, next, end, i);
    }
    forall n ensures n in end.indices <==> n in next.prev.indices
             ensures n in end.indices ==> IndexEqual(end.indices[n], Declared(next.prev.indices[n])) {
      assert HoldsIndex(job, end, n);
    }
  }

  /**
   A migration, or the creation of the table, that reaches its model leaves a table from which the next
   migration can start, whatever columns of removed variables it has.
   */
  lemma NextMigration(job: Job, t: Table, order: seq<Cmd>, next: Job)
    requires ReadyToMigrate(job, t) && TableOk(t) && Schedule(job, order)
    requires IsReload(job.rules, job.model, next.prev) && next.found.InFile? && next.rules == job.rules
    requires Positioned(next.prev)
    ensures AllKnown(job.model, order)
    ensures var end := ExecuteAll(job.rules, job.model, t, order);
      && TableOk(end)
      && (IsMigrated(job, end) <==> WillMigrate(job, t))
      && (WillMigrate(job, t) ==> InStep(next, end))
  {
    if job.found.Nowhere? { CreationCorrect(job, order); } else { MigrationCorrect(job, t, order); }
    RunKeepsOk(job.rules, job.model, t, order);
    var end := ExecuteAll(job.rules, job.model, t, order);
    if WillMigrate(job, t) { MigratedInStep(job, end, next); }
  }

  // ---------------------------------------------------------------- any number of versions

  /** A version of the program: its migration, and the order that its sort gives. */
  datatype Release = Release(job: Job, order: seq<Cmd>)

  ghost predicate GoodRelease(r: Release) {
    GoodJob(r.job) && Schedule(r.job, r.order) && AllKnown(r.job.model, r.order)
  }

  function TableAfter(t: Table, r: Release): Table
    requires AllKnown(r.job.model, r.order)
  {
    ExecuteAll(r.job.rules, r.job.model, t, r.order)
  }

  /** The next version starts with the snapshot that was saved for the model of the one before. */
  ghost predicate Succeeds(before: Job, next: Job) {
    IsReload(before.rules, before.model, next.prev) && next.found.InFile? && next.rules == before.rules
  }

  ghost predicate Chained(before: Job, rs: seq<Release>)
    decreases |rs|
  {
    rs == [] || (GoodRelease(rs[0]) && Succeeds(before, rs[0].job) && Chained(rs[0].job, rs[1..]))
  }

  /** Each version meets, with the table it finds, what its migration needs. */
  ghost predicate AllFit(before: Job, t: Table, rs: seq<Release>)
    requires Chained(before, rs)
    decreases |rs|
  {
    rs == [] || (t.Present? && StepFits(rs[0].job, t) && AllFit(rs[0].job, TableAfter(t, rs[0]), rs[1..]))
  }

  /** Each version reaches its model. */
  ghost predicate AllReached(before: Job, t: Table, rs: seq<Release>)
    requires Chained(before, rs)
    decreases |rs|
  {
    rs == [] || (IsMigrated(rs[0].job, TableAfter(t, rs[0])) && AllReached(rs[0].job, TableAfter(t, rs[0]), rs[1..]))
  }

  ghost function TableInTheEnd(before: Job, t: Table, rs: seq<Release>): Table
    requires Chained(before, rs)
    decreases |rs|
  {
    if rs == [] then t else TableInTheEnd(rs[0].job, TableAfter(t, rs[0]), rs[1..])
  }

  /**
   Over any number of versions, each saved after its migration: all of them reach their models exactly when
   each meets its condition, and then the table in the end is the last model's.
   */
  lemma {:induction false} ManyVersions(before: Job, t: Table, rs: seq<Release>)
    requires IsMigrated(before, t) && TableOk(t) && Chained(before, rs)
    ensures AllReached(before, t, rs) <==> AllFit(before, t, rs)
    ensures AllFit(before, t, rs) ==>
      IsMigrated(if rs == [] then before else rs[|rs| - 1].job, TableInTheEnd(before, t, rs))
    decreases |rs|
  {
    if rs != [] {
      var job, end := rs[0].job, TableAfter(t, rs[0]);
      OneVersion(before, t, rs[0]);
      if IsMigrated(job, end) { ManyVersions(job, end, rs[1..]); }
    }
  }

  lemma OneVersion(before: Job, t: Table, r: Release)
    requires IsMigrated(before, t) && TableOk(t) && GoodRelease(r) && Succeeds(before, r.job)
    ensures IsMigrated(r.job, TableAfter(t, r)) <==> StepFits(r.job, t)
    ensures TableOk(TableAfter(t, r))
  {
    MigratedInStep(before, t, r.job);
    InStepOutcome(r.job, t);
    MigrationCorrect(r.job, t, r.order);
    RunKeepsOk(r.job.rules, r.job.model, t, r.order);
  }
}
