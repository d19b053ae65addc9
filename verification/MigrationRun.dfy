/** The table after any part of a migration, described by the table before it and the commands that have run. */
module MigrationRun {
  import opened Basics
  import opened Schema
  import opened Migration

  /** One migration: the new model, and the previous version with the place it was found in. */
  datatype Job = Job(rules: Rules, model: ModelMeta, found: Found, prev: Loaded)

  // ---------------------------------------------------------------- what is given

  ghost predicate GoodModel(model: ModelMeta) {
    && (forall f, g | f in model.fields && g in model.fields && f != g ::
          f.ColumnName() != g.ColumnName() && f.fieldName != g.fieldName)
    && (forall n | n in model.indices :: GoodIndex(model, n, model.indices[n]))
  }

  ghost predicate GoodIndex(model: ModelMeta, n: string, index: Index) {
    && index.name == n && Distinct(index.columns)
    && var names := NamesIn(index.columns);
       names != [] && Distinct(names) && forall c | c in names :: HasField(model.fields, c)
  }

  ghost predicate GoodPrevious(prev: Loaded) {
    && Positioned(prev)
    && (forall n | n in prev.position :: n != "" && prev.fields[prev.position[n]].ColumnName() == n)
    && (forall i | 0 <= i < |prev.fields| ::
          prev.fields[i].ColumnName() in prev.position && prev.position[prev.fields[i].ColumnName()] == i)
    && (forall n | n in prev.indices :: prev.indices[n].name == n && Distinct(prev.indices[n].columns)
                                      && Distinct(NamesIn(prev.indices[n].columns)))
  }

  ghost predicate GoodJob(job: Job) {
    GoodModel(job.model) && GoodPrevious(job.prev) && !job.found.Nowhere? && job.prev.fields != []
  }

  ghost predicate Schedule(job: Job, order: seq<Cmd>)
    requires Positioned(job.prev)
  {
    IsSchedule(order, job.rules, job.model, job.found, job.prev)
  }

  predicate Planned(job: Job, cmd: Cmd)
    requires Positioned(job.prev)
  {
    InPlan(job.rules, job.model, job.found, job.prev, cmd)
  }

  /** The old column name that the plan renames to this field's, if there is one. */
  function RenamedFrom(prev: Loaded, f: FieldMeta): Option<string> {
    if f.ColumnName() in prev.position then None else
      match FindField(prev.fields, f.fieldName)
      case None => None
      case Some(i) => Some(prev.fields[i].ColumnName())
  }

  // ---------------------------------------------------------------- facts about plans

  lemma ColumnCmdShape(job: Job, f: FieldMeta)
    requires GoodJob(job)
    ensures match ColumnCmd(job.rules, f, job.prev)
            case None => f.ColumnName() in job.prev.position
            case Some(c) =>
              && c.target == f.ColumnName() && c.Priority() == 2
              && (RenamedFrom(job.prev, f) == if c.prev == "" then None else Some(c.prev))
              && (c.action.AddColumn? ==> c.target !in job.prev.position && c.prev == "")
              && (c.action.ChangeColumn? && c.prev == "" ==> c.target in job.prev.position)
              && (c.prev != "" ==> c.action.ChangeColumn? && c.target !in job.prev.position
                                   && c.prev in job.prev.position)
  {
  }

  lemma RenamesApart(job: Job, f: FieldMeta, g: FieldMeta)
    requires GoodJob(job) && f in job.model.fields && g in job.model.fields && f != g
    requires RenamedFrom(job.prev, f).Some? && RenamedFrom(job.prev, g).Some?
    ensures RenamedFrom(job.prev, f) != RenamedFrom(job.prev, g)
  {
  }

  lemma {:induction false} FieldOfIs(fields: seq<FieldMeta>, f: FieldMeta)
    requires f in fields
    requires forall g | g in fields && g != f :: g.ColumnName() != f.ColumnName()
    ensures FieldOf(fields, f.ColumnName()) == f
  {
    var init, last := fields[..|fields| - 1], fields[|fields| - 1];
    assert fields == init + [last];
    if last != f { FieldOfIs(init, f); }
  }

  /** A planned command is the renaming of the table, or comes from one field, or from one index. */
  lemma PlannedShape(job: Job, c: Cmd)
    requires GoodJob(job) && Planned(job, c)
    ensures match c.Priority()
            case 1 => c == RenameCmd(job.model)
            case 2 => InColumnPlan(job.rules, job.model.fields, job.prev, c)
            case 3 => c == DropCmd(c.target) && NeedsDrop(c.target, job.model.indices, job.prev.indices)
            case _ => c == AddCmd(c.target) && NeedsAdd(c.target, job.model.indices, job.prev.indices)
  {
    if InColumnPlan(job.rules, job.model.fields, job.prev, c) {
      var f :| f in job.model.fields && ColumnCmd(job.rules, f, job.prev) == Some(c);
      ColumnCmdShape(job, f);
    }
  }

  lemma PlannedKnown(job: Job, c: Cmd)
    requires GoodJob(job) && Planned(job, c)
    ensures Known(job.model, c)
  {
    PlannedShape(job, c);
    if c.Priority() == 2 {
      var f :| f in job.model.fields && ColumnCmd(job.rules, f, job.prev) == Some(c);
      ColumnCmdShape(job, f);
    }
  }

  ghost predicate AllPlanned(job: Job, order: seq<Cmd>)
    requires Positioned(job.prev)
  {
    forall i | 0 <= i < |order| :: Planned(job, order[i])
  }

  lemma ScheduleKnown(job: Job, order: seq<Cmd>)
    requires GoodJob(job) && Schedule(job, order)
    ensures AllPlanned(job, order) && AllKnown(job.model, order)
  {
    forall i | 0 <= i < |order| ensures Planned(job, order[i]) && Known(job.model, order[i]) {
      assert order[i] in order && multiset(order)[order[i]] > 0;
      PlannedKnown(job, order[i]);
    }
  }

  /** When a command's turn comes, just the commands of lower and some of equal priority have run. */
  ghost predicate Turn(job: Job, done: seq<Cmd>, c: Cmd)
    requires Positioned(job.prev)
  {
    && Planned(job, c) && c !in done
    && (forall d | Planned(job, d) && d.Priority() < c.Priority() :: d in done)
    && (forall i | 0 <= i < |done| :: done[i].Priority() <= c.Priority())
  }

  lemma OnlyOnce(order: seq<Cmd>, i: nat)
    requires i < |order| && multiset(order)[order[i]] <= 1
    ensures order[i] !in order[..i]
  {
    var c := order[i];
    assert order == order[..i] + ([c] + order[i + 1..]);
    assert multiset(order) == multiset(order[..i]) + multiset{c} + multiset(order[i + 1..]);
  }

  lemma NextCommand(job: Job, order: seq<Cmd>, i: nat)
    requires GoodJob(job) && Schedule(job, order) && i < |order|
    ensures Turn(job, order[..i], order[i])
  {
    var c := order[i];
    assert c in order && multiset(order)[c] > 0;
    OnlyOnce(order, i);
    forall d | Planned(job, d) && d.Priority() < c.Priority() ensures d in order[..i] {
      EarlierRan(job, order, i, d);
    }
  }

  lemma EarlierRan(job: Job, order: seq<Cmd>, i: nat, d: Cmd)
    requires GoodJob(job) && Schedule(job, order) && i < |order|
    requires Planned(job, d) && d.Priority() < order[i].Priority()
    ensures d in order[..i]
  {
    assert multiset(order)[d] == 1 && d in order;
    var k :| 0 <= k < |order| && order[k] == d;
    assert k < i && order[..i][k] == d;
  }

  // ---------------------------------------------------------------- the table in the middle of a run

  /** The renaming planned for this field takes column `n` away from the table. */
  predicate Moves(job: Job, columns: map<string, Column>, f: FieldMeta, n: string) {
    && RenamedFrom(job.prev, f) == Some(n) && n in columns && f.ColumnName() !in columns
    && IsName(n) && IsName(f.ColumnName()) && Spaced(job.rules, f)
  }

  function MovedBy(job: Job, columns: map<string, Column>, fields: seq<FieldMeta>, n: string): (r: Option<FieldMeta>)
    ensures r.Some? ==> r.value in fields && Moves(job, columns, r.value, n)
    ensures r.None? ==> forall f | f in fields :: !Moves(job, columns, f, n)
  {
    if fields == [] then None
    else if Moves(job, columns, fields[0], n) then Some(fields[0])
    else MovedBy(job, columns, fields[1..], n)
  }

  /** The field whose column the one of name `n` becomes, if it becomes another one. */
  function Mover(job: Job, t: Table, n: string): (r: Option<FieldMeta>)
    requires t.Present?
    ensures r.Some? ==> r.value in job.model.fields && Moves(job, t.columns, r.value, n)
  {
    MovedBy(job, t.columns, job.model.fields, n)
  }

  function MoveCmd(f: FieldMeta, n: string): Cmd { Cmd(ChangeColumn, f.ColumnName(), n) }

  /** The column has been renamed to another one. */
  predicate Away(job: Job, t: Table, done: seq<Cmd>, n: string)
    requires t.Present?
  {
    var f := Mover(job, t, n);
    f.Some? && MoveCmd(f.value, n) in done
  }

  /** The column command can be carried out on the table as it was before the migration. */
  predicate Effective(job: Job, t: Table, c: Cmd)
    requires t.Present? && HasField(job.model.fields, c.target)
  {
    ColumnAllowed(t.columns, c) && Spaced(job.rules, FieldOf(job.model.fields, c.target))
  }

  function CmdFor(job: Job, n: string): Option<Cmd>
    requires Positioned(job.prev) && HasField(job.model.fields, n)
  {
    ColumnCmd(job.rules, FieldOf(job.model.fields, n), job.prev)
  }

  /** The column has been written by the command of its field. */
  predicate Written(job: Job, t: Table, done: seq<Cmd>, n: string)
    requires Positioned(job.prev) && t.Present?
  {
    HasField(job.model.fields, n) &&
    var c := CmdFor(job, n);
    c.Some? && c.value.target == n && c.value in done && Effective(job, t, c.value)
  }

  function ColumnAt(job: Job, t: Table, done: seq<Cmd>, n: string): Option<Column>
    requires Positioned(job.prev) && t.Present?
  {
    if Away(job, t, done, n) then None
    else if Written(job, t, done, n) then Some(ColumnOf(job.rules, FieldOf(job.model.fields, n)))
    else if n in t.columns then Some(t.columns[n])
    else None
  }

  function NameNow(job: Job, t: Table, done: seq<Cmd>, n: string): string
    requires t.Present?
  {
    if Away(job, t, done, n) then Mover(job, t, n).value.ColumnName() else n
  }

  function NamesNow(job: Job, t: Table, done: seq<Cmd>, columns: seq<string>): seq<string>
    requires t.Present?
  {
    seq(|columns|, i requires 0 <= i < |columns| => NameNow(job, t, done, columns[i]))
  }

  /** The planned index can be added when its turn comes. */
  predicate Addable(job: Job, t: Table, done: seq<Cmd>, n: string)
    requires Positioned(job.prev) && t.Present?
  {
    && n in job.model.indices && (n !in t.indices || n in job.prev.indices)
    && !job.model.indices[n].kind.Primary?
    && var names := NamesIn(job.model.indices[n].columns);
       forall i | 0 <= i < |names| :: ColumnAt(job, t, done, names[i]).Some?
  }

  function IndexAt(job: Job, t: Table, done: seq<Cmd>, n: string): Option<Index>
    requires Positioned(job.prev) && t.Present?
  {
    if AddCmd(n) in done && Addable(job, t, done, n) then Some(Declared(job.model.indices[n]))
    else if n in t.indices && DropCmd(n) !in done then
      Some(t.indices[n].(columns := NamesNow(job, t, done, t.indices[n].columns)))
    else None
  }

  function NameAt(job: Job, t: Table, done: seq<Cmd>): string
    requires t.Present?
  {
    if RenameCmd(job.model) in done && t.name == job.model.defaultTable then job.model.table else t.name
  }

  ghost predicate ColumnsAre(job: Job, t: Table, done: seq<Cmd>, now: Table)
    requires Positioned(job.prev) && t.Present?
  {
    now.Present? && forall n :: ColumnIs(job, t, done, now, n)
  }

  predicate ColumnIs(job: Job, t: Table, done: seq<Cmd>, now: Table, n: string)
    requires Positioned(job.prev) && t.Present? && now.Present?
  {
    ColumnAt(job, t, done, n) == if n in now.columns then Some(now.columns[n]) else None
  }

  ghost predicate IndexesAre(job: Job, t: Table, done: seq<Cmd>, now: Table)
    requires Positioned(job.prev) && t.Present?
  {
    now.Present? && forall n :: IndexIs(job, t, done, now, n)
  }

  predicate IndexIs(job: Job, t: Table, done: seq<Cmd>, now: Table, n: string)
    requires Positioned(job.prev) && t.Present? && now.Present?
  {
    IndexAt(job, t, done, n) == if n in now.indices then Some(now.indices[n]) else None
  }

  /** The table is what the commands that have run, in whatever order, make of the one before. */
  ghost predicate StateAt(job: Job, t: Table, done: seq<Cmd>, now: Table)
    requires Positioned(job.prev) && t.Present?
  {
    ColumnsAre(job, t, done, now) && IndexesAre(job, t, done, now) && now.name == NameAt(job, t, done)
  }

  /** The commands find the table: it has the new name, or a renaming from the default name is planned. */
  predicate Reachable(job: Job, t: Table) {
    t.Present? && (t.name == job.model.table ||
      (t.name == job.model.defaultTable && InTablePlan(job.model, job.found, job.prev, RenameCmd(job.model))))
  }

  // ---------------------------------------------------------------- one step

  lemma MoverIs(job: Job, t: Table, f: FieldMeta, n: string)
    requires GoodJob(job) && t.Present? && f in job.model.fields && Moves(job, t.columns, f, n)
    ensures Mover(job, t, n) == Some(f)
  {
    var g := Mover(job, t, n).value;
    if g != f { RenamesApart(job, f, g); }
  }

  /** A column that moves was a column of the previous version, and its new name was none. */
  lemma MoverFacts(job: Job, t: Table, n: string)
    requires GoodJob(job) && t.Present? && Mover(job, t, n).Some?
    ensures var f := Mover(job, t, n).value;
      && n in job.prev.position && n != "" && f.ColumnName() !in job.prev.position
      && n in t.columns && f.ColumnName() !in t.columns
      && ColumnCmd(job.rules, f, job.prev) == Some(MoveCmd(f, n)) && Planned(job, MoveCmd(f, n))
  {
    var f := Mover(job, t, n).value;
    ColumnCmdShape(job, f);
    assert InColumnPlan(job.rules, job.model.fields, job.prev, MoveCmd(f, n));
  }

  /** What is known of a column command and its field. */
  ghost predicate ColumnTurn(job: Job, t: Table, done: seq<Cmd>, c: Cmd, f: FieldMeta) {
    && GoodJob(job) && t.Present? && f in job.model.fields && c !in done
    && c.target == f.ColumnName() && HasField(job.model.fields, c.target)
    && FieldOf(job.model.fields, c.target) == f
    && ColumnCmd(job.rules, f, job.prev) == Some(c)
  }

  lemma Unwritten(job: Job, t: Table, done: seq<Cmd>, c: Cmd, f: FieldMeta)
    requires ColumnTurn(job, t, done, c, f)
    ensures !Written(job, t, done, c.target)
    ensures From(c) in job.prev.position || c.action.AddColumn?
    ensures c.prev != "" ==> !Away(job, t, done, c.prev)
    ensures c.action.AddColumn? || c.prev != "" ==> Mover(job, t, c.target).None?
  {
    ColumnCmdShape(job, f);
    if Mover(job, t, c.target).Some? { MoverFacts(job, t, c.target); }
    if c.prev != "" && Mover(job, t, c.prev).Some? {
      var g := Mover(job, t, c.prev).value;
      if g != f { RenamesApart(job, f, g); }
    }
  }

  /** A column of the previous version is only ever written over where it stands. */
  lemma WrittenOver(job: Job, t: Table, done: seq<Cmd>, n: string)
    requires GoodJob(job) && t.Present? && n in job.prev.position && Written(job, t, done, n)
    ensures n in t.columns
  {
    var f := FieldOf(job.model.fields, n);
    FieldOfHas(job.model.fields, n);
    ColumnCmdShape(job, f);
  }

  lemma {:induction false} FieldOfHas(fields: seq<FieldMeta>, n: string)
    requires HasField(fields, n)
    ensures FieldOf(fields, n) in fields && FieldOf(fields, n).ColumnName() == n
  {
    var init, last := fields[..|fields| - 1], fields[|fields| - 1];
    assert fields == init + [last];
    if last.ColumnName() != n { FieldOfHas(init, n); }
  }

  /** A column command is carried out when it could have been at the start and its column is still there. */
  lemma ColumnAccepted(job: Job, t: Table, done: seq<Cmd>, now: Table, c: Cmd, f: FieldMeta)
    requires ColumnTurn(job, t, done, c, f) && now.Present? && now.name == job.model.table
    requires ColumnIs(job, t, done, now, c.target) && ColumnIs(job, t, done, now, From(c))
    ensures c.action.AddColumn? || c.action.ChangeColumn?
    ensures Accepts(job.rules, job.model, now, c) <==> Effective(job, t, c) && !Away(job, t, done, c.target)
  {
    ColumnCmdShape(job, f);
    Unwritten(job, t, done, c, f);
    if c.prev != "" && Written(job, t, done, c.prev) { WrittenOver(job, t, done, c.prev); }
  }

  /** Whether another column is away or written is not touched. */
  lemma OtherColumns(job: Job, t: Table, done: seq<Cmd>, c: Cmd, f: FieldMeta, n: string)
    requires ColumnTurn(job, t, done, c, f)
    ensures n != c.target ==> (Written(job, t, done + [c], n) <==> Written(job, t, done, n))
    ensures n != c.prev ==> (Away(job, t, done + [c], n) <==> Away(job, t, done, n))
    ensures c.prev != "" ==> (Away(job, t, done + [c], c.prev) <==> Effective(job, t, c))
    ensures Written(job, t, done + [c], c.target) <==> Effective(job, t, c)
  {
    ColumnCmdShape(job, f);
    if c.prev != "" {
      if Effective(job, t, c) { MoverIs(job, t, f, c.prev); }
      if Mover(job, t, c.prev).Some? {
        var g := Mover(job, t, c.prev).value;
        if g != f { RenamesApart(job, f, g); }
      }
    }
  }

  lemma NoEmptyName(job: Job, t: Table, done: seq<Cmd>)
    requires GoodJob(job) && t.Present?
    ensures !Away(job, t, done, "")
  {
    if Mover(job, t, "").Some? { MoverFacts(job, t, ""); }
  }

  lemma StepColumn(job: Job, t: Table, done: seq<Cmd>, now: Table, c: Cmd, f: FieldMeta, n: string)
    requires ColumnTurn(job, t, done, c, f) && now.Present? && now.name == job.model.table && Known(job.model, c)
    requires ColumnIs(job, t, done, now, n)
    requires ColumnIs(job, t, done, now, c.target) && ColumnIs(job, t, done, now, From(c))
    ensures Execute(job.rules, job.model, now, c).Present?
    ensures ColumnIs(job, t, done + [c], Execute(job.rules, job.model, now, c), n)
  {
    ColumnAccepted(job, t, done, now, c, f);
    OtherColumns(job, t, done, c, f, n);
    OtherColumns(job, t, done, c, f, c.target);
    Unwritten(job, t, done, c, f);
    NoEmptyName(job, t, done);
    NoEmptyName(job, t, done + [c]);
    ColumnCmdShape(job, f);
  }

  /** In the name a column has by now, a renaming shows at once. */
  lemma StepName(job: Job, t: Table, done: seq<Cmd>, c: Cmd, f: FieldMeta, n: string)
    requires ColumnTurn(job, t, done, c, f)
    ensures Effective(job, t, c) && c.prev != "" ==>
      NameNow(job, t, done + [c], n) ==
      if NameNow(job, t, done, n) == c.prev then c.target else NameNow(job, t, done, n)
    ensures !Effective(job, t, c) || c.prev == "" ==> NameNow(job, t, done + [c], n) == NameNow(job, t, done, n)
  {
    OtherColumns(job, t, done, c, f, n);
    Unwritten(job, t, done, c, f);
    NoEmptyName(job, t, done);
    NoEmptyName(job, t, done + [c]);
    ColumnCmdShape(job, f);
    if c.prev != "" && Effective(job, t, c) { MoverIs(job, t, f, c.prev); }
    if Mover(job, t, n).Some? { MoverFacts(job, t, n); }
  }

  lemma StepNames(job: Job, t: Table, done: seq<Cmd>, c: Cmd, f: FieldMeta, columns: seq<string>)
    requires ColumnTurn(job, t, done, c, f)
    ensures NamesNow(job, t, done + [c], columns) ==
            if Effective(job, t, c) && c.prev != "" then RenameIn(NamesNow(job, t, done, columns), c.prev, c.target)
            else NamesNow(job, t, done, columns)
  {
    forall i | 0 <= i < |columns|
      ensures NamesNow(job, t, done + [c], columns)[i] ==
              (if Effective(job, t, c) && c.prev != "" then RenameIn(NamesNow(job, t, done, columns), c.prev, c.target)
               else NamesNow(job, t, done, columns))[i]
    {
      StepName(job, t, done, c, f, columns[i]);
    }
  }

  lemma ExecutePrefix(job: Job, t: Table, order: seq<Cmd>, i: nat)
    requires 0 < i <= |order| && AllKnown(job.model, order)
    ensures order[..i] == order[..i - 1] + [order[i - 1]]
    ensures ExecuteAll(job.rules, job.model, t, order[..i]) ==
            Execute(job.rules, job.model, ExecuteAll(job.rules, job.model, t, order[..i - 1]), order[i - 1])
  {
    assert order[..i][..i - 1] == order[..i - 1];
  }

  /** All commands of the plan have run. */
  ghost predicate Finished(job: Job, done: seq<Cmd>)
    requires Positioned(job.prev)
  {
    forall c :: c in done <==> Planned(job, c)
  }

  lemma ScheduleFinishes(job: Job, order: seq<Cmd>)
    requires GoodJob(job) && Schedule(job, order)
    ensures Finished(job, order)
  {
    forall c ensures c in order <==> Planned(job, c) {
      assert c in order <==> multiset(order)[c] > 0;
    }
  }

  lemma RenameToItself(columns: seq<string>, name: string)
    ensures RenameIn(columns, name, name) == columns
  {
  }

  /** No index command has run yet. */
  predicate BeforeIndexes(done: seq<Cmd>, n: string) { AddCmd(n) !in done && DropCmd(n) !in done }

  lemma StepColumnIndex(job: Job, t: Table, done: seq<Cmd>, now: Table, c: Cmd, f: FieldMeta, n: string)
    requires ColumnTurn(job, t, done, c, f) && now.Present? && now.name == job.model.table && Known(job.model, c)
    requires ColumnIs(job, t, done, now, c.target) && ColumnIs(job, t, done, now, From(c))
    requires IndexIs(job, t, done, now, n) && BeforeIndexes(done, n)
    ensures Execute(job.rules, job.model, now, c).Present?
    ensures IndexIs(job, t, done + [c], Execute(job.rules, job.model, now, c), n)
  {
    ColumnAccepted(job, t, done, now, c, f);
    Unwritten(job, t, done, c, f);
    if n in t.indices {
      StepNames(job, t, done, c, f, t.indices[n].columns);
      RenameToItself(NamesNow(job, t, done, t.indices[n].columns), c.target);
    }
  }

  // ---------------------------------------------------------------- the other commands

  lemma WrittenKept(job: Job, t: Table, done: seq<Cmd>, c: Cmd, n: string)
    requires GoodJob(job) && t.Present? && c.Priority() != 2
    ensures Written(job, t, done + [c], n) <==> Written(job, t, done, n)
  {
    if HasField(job.model.fields, n) {
      FieldOfHas(job.model.fields, n);
      ColumnCmdShape(job, FieldOf(job.model.fields, n));
    }
  }

  lemma AwayKept(job: Job, t: Table, done: seq<Cmd>, c: Cmd, n: string)
    requires t.Present? && c.Priority() != 2
    ensures Away(job, t, done + [c], n) <==> Away(job, t, done, n)
  {
  }

  /** Commands that are not about columns leave them as they are. */
  lemma ColumnsKept(job: Job, t: Table, done: seq<Cmd>, c: Cmd, n: string)
    requires GoodJob(job) && t.Present? && c.Priority() != 2
    ensures ColumnAt(job, t, done + [c], n) == ColumnAt(job, t, done, n)
    ensures NameNow(job, t, done + [c], n) == NameNow(job, t, done, n)
  {
    WrittenKept(job, t, done, c, n);
    AwayKept(job, t, done, c, n);
  }

  lemma NamesKept(job: Job, t: Table, done: seq<Cmd>, c: Cmd, columns: seq<string>)
    requires GoodJob(job) && t.Present? && c.Priority() != 2
    ensures NamesNow(job, t, done + [c], columns) == NamesNow(job, t, done, columns)
  {
    forall i | 0 <= i < |columns|
      ensures NamesNow(job, t, done + [c], columns)[i] == NamesNow(job, t, done, columns)[i]
    {
      ColumnsKept(job, t, done, c, columns[i]);
    }
  }

  lemma AddableKept(job: Job, t: Table, done: seq<Cmd>, c: Cmd, n: string)
    requires GoodJob(job) && t.Present? && c.Priority() != 2
    ensures Addable(job, t, done + [c], n) <==> Addable(job, t, done, n)
  {
    if n in job.model.indices {
      var columns := NamesIn(job.model.indices[n].columns);
      forall i | 0 <= i < |columns|
        ensures ColumnAt(job, t, done + [c], columns[i]) == ColumnAt(job, t, done, columns[i])
      {
        ColumnsKept(job, t, done, c, columns[i]);
      }
    }
  }

  /** An index changes by its own commands alone. */
  lemma IndexKept(job: Job, t: Table, done: seq<Cmd>, c: Cmd, n: string)
    requires GoodJob(job) && t.Present? && c.Priority() != 2 && c != AddCmd(n) && c != DropCmd(n)
    ensures IndexAt(job, t, done + [c], n) == IndexAt(job, t, done, n)
  {
    AddableKept(job, t, done, c, n);
    if n in t.indices { NamesKept(job, t, done, c, t.indices[n].columns); }
  }

  lemma AllColumnsKept(job: Job, t: Table, done: seq<Cmd>, c: Cmd, now: Table, later: Table)
    requires GoodJob(job) && t.Present? && c.Priority() != 2
    requires ColumnsAre(job, t, done, now) && later.Present? && later.columns == now.columns
    ensures ColumnsAre(job, t, done + [c], later)
  {
    forall n ensures ColumnIs(job, t, done + [c], later, n) {
      assert ColumnIs(job, t, done, now, n);
      ColumnsKept(job, t, done, c, n);
    }
  }

  lemma StepRename(job: Job, t: Table, done: seq<Cmd>, now: Table, c: Cmd)
    requires GoodJob(job) && t.Present? && StateAt(job, t, done, now) && c == RenameCmd(job.model) && c !in done
    ensures StateAt(job, t, done + [c], Execute(job.rules, job.model, now, c))
  {
    var later := Execute(job.rules, job.model, now, c);
    AllColumnsKept(job, t, done, c, now, later);
    forall n ensures IndexIs(job, t, done + [c], later, n) {
      assert IndexIs(job, t, done, now, n);
      IndexKept(job, t, done, c, n);
    }
  }

  lemma StepDrop(job: Job, t: Table, done: seq<Cmd>, now: Table, c: Cmd)
    requires GoodJob(job) && t.Present? && StateAt(job, t, done, now) && now.name == job.model.table
    requires c == DropCmd(c.target) && AddCmd(c.target) !in done
    ensures StateAt(job, t, done + [c], Execute(job.rules, job.model, now, c))
  {
    var later := Execute(job.rules, job.model, now, c);
    AllColumnsKept(job, t, done, c, now, later);
    forall n ensures IndexIs(job, t, done + [c], later, n) {
      assert IndexIs(job, t, done, now, n);
      if n != c.target { IndexKept(job, t, done, c, n); }
    }
  }

  /** When an index is to be added, it is absent unless the table had it and the previous version had not. */
  lemma AddAbsent(job: Job, t: Table, done: seq<Cmd>, c: Cmd)
    requires GoodJob(job) && t.Present? && AllPlanned(job, done)
    requires c == AddCmd(c.target) && NeedsAdd(c.target, job.model.indices, job.prev.indices) && Turn(job, done, c)
    ensures IndexAt(job, t, done, c.target).None? <==> c.target !in t.indices || c.target in job.prev.indices
  {
    if c.target in job.prev.indices {
      DropPlanned(job, c.target);
    } else if DropCmd(c.target) in done {
      PlannedShape(job, DropCmd(c.target));
    }
  }

  lemma AddAccepted(job: Job, t: Table, done: seq<Cmd>, now: Table, c: Cmd)
    requires GoodJob(job) && t.Present? && StateAt(job, t, done, now) && now.name == job.model.table
    requires AllPlanned(job, done)
    requires c == AddCmd(c.target) && NeedsAdd(c.target, job.model.indices, job.prev.indices) && Turn(job, done, c)
    ensures Accepts(job.rules, job.model, now, c) <==> Addable(job, t, done, c.target)
  {
    var n, index := c.target, Declared(job.model.indices[c.target]);
    assert GoodIndex(job.model, n, job.model.indices[n]) && IndexIs(job, t, done, now, n);
    AddAbsent(job, t, done, c);
    ElementsCount(index.columns);
    IndexColumns(job, t, done, now, index);
  }

  lemma IndexColumns(job: Job, t: Table, done: seq<Cmd>, now: Table, index: Index)
    requires GoodJob(job) && t.Present? && ColumnsAre(job, t, done, now)
    ensures (forall c | c in index.columns :: c in now.columns) <==>
            forall i | 0 <= i < |index.columns| :: ColumnAt(job, t, done, index.columns[i]).Some?
  {
    forall i | 0 <= i < |index.columns|
      ensures index.columns[i] in now.columns <==> ColumnAt(job, t, done, index.columns[i]).Some?
    {
      assert ColumnIs(job, t, done, now, index.columns[i]);
    }
  }

  lemma DropPlanned(job: Job, n: string)
    requires GoodJob(job) && NeedsDrop(n, job.model.indices, job.prev.indices)
    ensures Planned(job, DropCmd(n)) && DropCmd(n).Priority() == 3
  {
    assert InIndexPlan(job.model.indices, job.prev.indices, DropCmd(n));
  }

  lemma StepAdd(job: Job, t: Table, done: seq<Cmd>, now: Table, c: Cmd)
    requires GoodJob(job) && t.Present? && StateAt(job, t, done, now) && now.name == job.model.table
    requires AllPlanned(job, done)
    requires c == AddCmd(c.target) && NeedsAdd(c.target, job.model.indices, job.prev.indices) && Turn(job, done, c)
    ensures StateAt(job, t, done + [c], Execute(job.rules, job.model, now, c))
  {
    var later := Execute(job.rules, job.model, now, c);
    AddAccepted(job, t, done, now, c);
    AllColumnsKept(job, t, done, c, now, later);
    forall n ensures IndexIs(job, t, done + [c], later, n) {
      assert IndexIs(job, t, done, now, n);
      if n != c.target { IndexKept(job, t, done, c, n); } else { StepAddHere(job, t, done, now, later, c); }
    }
  }

  lemma StepAddHere(job: Job, t: Table, done: seq<Cmd>, now: Table, later: Table, c: Cmd)
    requires GoodJob(job) && t.Present? && now.Present? && later.Present? && c == AddCmd(c.target) && c !in done
    requires c.target in job.model.indices && IndexIs(job, t, done, now, c.target)
    requires later.indices == if Addable(job, t, done, c.target)
                              then now.indices[c.target := Declared(job.model.indices[c.target])]
                              else now.indices
    ensures IndexIs(job, t, done + [c], later, c.target)
  {
    AddableKept(job, t, done, c, c.target);
    if c.target in t.indices { NamesKept(job, t, done, c, t.indices[c.target].columns); }
  }

  // ---------------------------------------------------------------- the run

  lemma TurnOfColumn(job: Job, t: Table, done: seq<Cmd>, c: Cmd) returns (f: FieldMeta)
    requires GoodJob(job) && t.Present? && Planned(job, c) && c !in done && c.Priority() == 2
    ensures ColumnTurn(job, t, done, c, f)
  {
    PlannedShape(job, c);
    f :| f in job.model.fields && ColumnCmd(job.rules, f, job.prev) == Some(c);
    ColumnCmdShape(job, f);
    FieldOfIs(job.model.fields, f);
  }

  lemma IndexesLater(job: Job, done: seq<Cmd>, c: Cmd, n: string)
    requires GoodJob(job) && Turn(job, done, c) && c.Priority() == 2
    ensures BeforeIndexes(done, n)
  {
    assert AddCmd(n).Priority() == 4 && DropCmd(n).Priority() == 3;
  }

  lemma StepColumns(job: Job, t: Table, done: seq<Cmd>, now: Table, c: Cmd)
    requires GoodJob(job) && t.Present? && StateAt(job, t, done, now) && now.name == job.model.table
    requires Turn(job, done, c) && c.Priority() == 2 && Known(job.model, c)
    ensures StateAt(job, t, done + [c], Execute(job.rules, job.model, now, c))
  {
    var f := TurnOfColumn(job, t, done, c);
    var later := Execute(job.rules, job.model, now, c);
    assert ColumnIs(job, t, done, now, c.target) && ColumnIs(job, t, done, now, From(c));
    forall n ensures ColumnIs(job, t, done + [c], later, n) {
      assert ColumnIs(job, t, done, now, n);
      StepColumn(job, t, done, now, c, f, n);
    }
    forall n ensures IndexIs(job, t, done + [c], later, n) {
      assert IndexIs(job, t, done, now, n);
      IndexesLater(job, done, c, n);
      StepColumnIndex(job, t, done, now, c, f, n);
    }
    NameKept(job, t, done, c, now);
  }

  lemma NameKept(job: Job, t: Table, done: seq<Cmd>, c: Cmd, now: Table)
    requires t.Present? && now.Present? && now.name == NameAt(job, t, done) && Known(job.model, c)
    requires c.Priority() == 2
    ensures var later := Execute(job.rules, job.model, now, c);
            later.Present? && later.name == NameAt(job, t, done + [c])
  {
    assert c != RenameCmd(job.model) by { assert RenameCmd(job.model).Priority() == 1; }
  }

  lemma NameReady(job: Job, t: Table, done: seq<Cmd>, c: Cmd)
    requires GoodJob(job) && Reachable(job, t) && Turn(job, done, c) && c.Priority() > 1
    ensures NameAt(job, t, done) == job.model.table
  {
    var rename := RenameCmd(job.model);
    if InTablePlan(job.model, job.found, job.prev, rename) { assert Planned(job, rename); }
  }

  lemma StepState(job: Job, t: Table, done: seq<Cmd>, now: Table, c: Cmd)
    requires GoodJob(job) && Reachable(job, t) && StateAt(job, t, done, now) && AllPlanned(job, done)
    requires Turn(job, done, c) && Known(job.model, c)
    ensures StateAt(job, t, done + [c], Execute(job.rules, job.model, now, c))
  {
    PlannedShape(job, c);
    if c.Priority() == 1 {
      StepRename(job, t, done, now, c);
    } else {
      NameReady(job, t, done, c);
      if c.Priority() == 2 {
        StepColumns(job, t, done, now, c);
      } else if c.Priority() == 3 {
        assert AddCmd(c.target) !in done by { assert AddCmd(c.target).Priority() == 4; }
        StepDrop(job, t, done, now, c);
      } else {
        StepAdd(job, t, done, now, c);
      }
    }
  }

  lemma StartState(job: Job, t: Table)
    requires GoodJob(job) && t.Present?
    ensures StateAt(job, t, [], t)
  {
    forall n ensures IndexIs(job, t, [], t, n) {
      if n in t.indices { assert NamesNow(job, t, [], t.indices[n].columns) == t.indices[n].columns; }
    }
    forall n ensures ColumnIs(job, t, [], t, n) { }
  }

  /**
   From any table that the commands can find, and for every order the sort may give: after any number
   of commands the table is what the set of these commands says, whatever their order was.
   */
  lemma {:induction false} RunState(job: Job, t: Table, order: seq<Cmd>, i: nat)
    requires GoodJob(job) && Reachable(job, t) && Schedule(job, order) && i <= |order| && AllKnown(job.model, order)
    ensures StateAt(job, t, order[..i], ExecuteAll(job.rules, job.model, t, order[..i]))
    decreases i
  {
    if i == 0 {
      StartState(job, t);
      assert order[..0] == [];
    } else {
      RunState(job, t, order, i - 1);
      RunOneMore(job, t, order, i);
    }
  }

  lemma RunOneMore(job: Job, t: Table, order: seq<Cmd>, i: nat)
    requires GoodJob(job) && Reachable(job, t) && Schedule(job, order) && 0 < i <= |order| && AllKnown(job.model, order)
    requires StateAt(job, t, order[..i - 1], ExecuteAll(job.rules, job.model, t, order[..i - 1]))
    ensures StateAt(job, t, order[..i], ExecuteAll(job.rules, job.model, t, order[..i]))
  {
    RunNext(job, t, order, i - 1, ExecuteAll(job.rules, job.model, t, order[..i - 1]));
    ExecutePrefix(job, t, order, i);
  }

  lemma RunNext(job: Job, t: Table, order: seq<Cmd>, i: nat, now: Table)
    requires GoodJob(job) && Reachable(job, t) && Schedule(job, order) && i < |order| && AllKnown(job.model, order)
    requires StateAt(job, t, order[..i], now)
    ensures StateAt(job, t, order[..i] + [order[i]], Execute(job.rules, job.model, now, order[i]))
  {
    NextCommand(job, order, i);
    ScheduleKnown(job, order);
    StepState(job, t, order[..i], now, order[i]);
  }

  /** Under another name the table is out of reach of every command. */
  lemma {:induction false} OutOfReach(job: Job, t: Table, order: seq<Cmd>)
    requires GoodJob(job) && !Reachable(job, t)
    requires AllKnown(job.model, order) && AllPlanned(job, order)
    ensures ExecuteAll(job.rules, job.model, t, order) == t
    decreases |order|
  {
    if order != [] {
      var init, last := order[..|order| - 1], order[|order| - 1];
      OutOfReach(job, t, init);
      PlannedShape(job, last);
    }
  }

  // ---------------------------------------------------------------- any two orders

  lemma SameMembers(job: Job, t: Table, a: seq<Cmd>, b: seq<Cmd>, n: string)
    requires GoodJob(job) && t.Present? && forall c :: c in a <==> c in b
    ensures ColumnAt(job, t, a, n) == ColumnAt(job, t, b, n) && NameNow(job, t, a, n) == NameNow(job, t, b, n)
  {
  }

  lemma SameIndexes(job: Job, t: Table, a: seq<Cmd>, b: seq<Cmd>, n: string)
    requires GoodJob(job) && t.Present? && forall c :: c in a <==> c in b
    ensures IndexAt(job, t, a, n) == IndexAt(job, t, b, n)
  {
    forall m ensures ColumnAt(job, t, a, m) == ColumnAt(job, t, b, m)
             ensures NameNow(job, t, a, m) == NameNow(job, t, b, m) {
      SameMembers(job, t, a, b, m);
    }
    if n in t.indices {
      assert NamesNow(job, t, a, t.indices[n].columns) == NamesNow(job, t, b, t.indices[n].columns);
    }
  }

  lemma SameState(job: Job, t: Table, a: seq<Cmd>, b: seq<Cmd>, x: Table, y: Table)
    requires GoodJob(job) && t.Present? && StateAt(job, t, a, x) && StateAt(job, t, b, y)
    requires forall c :: c in a <==> c in b
    ensures x == y
  {
    forall n ensures n in x.columns <==> n in y.columns
             ensures n in x.columns ==> x.columns[n] == y.columns[n] {
      SameMembers(job, t, a, b, n);
      assert ColumnIs(job, t, a, x, n) && ColumnIs(job, t, b, y, n);
    }
    assert x.columns == y.columns;
    forall n ensures n in x.indices <==> n in y.indices
             ensures n in x.indices ==> x.indices[n] == y.indices[n] {
      SameIndexes(job, t, a, b, n);
      assert IndexIs(job, t, a, x, n) && IndexIs(job, t, b, y, n);
    }
    assert x.indices == y.indices;
  }

  /** The sort leaves the order of equal priorities open, and it does not matter: the table is the same. */
  lemma OrderDoesNotMatter(job: Job, t: Table, a: seq<Cmd>, b: seq<Cmd>)
    requires GoodJob(job) && Schedule(job, a) && Schedule(job, b)
    ensures AllKnown(job.model, a) && AllKnown(job.model, b)
    ensures ExecuteAll(job.rules, job.model, t, a) == ExecuteAll(job.rules, job.model, t, b)
  {
    ScheduleKnown(job, a);
    ScheduleKnown(job, b);
    if Reachable(job, t) {
      RunState(job, t, a, |a|);
      RunState(job, t, b, |b|);
      assert a[..|a|] == a && b[..|b|] == b;
      ScheduleFinishes(job, a);
      ScheduleFinishes(job, b);
      SameState(job, t, a, b, ExecuteAll(job.rules, job.model, t, a), ExecuteAll(job.rules, job.model, t, b));
    } else {
      OutOfReach(job, t, a);
      OutOfReach(job, t, b);
    }
  }
}
