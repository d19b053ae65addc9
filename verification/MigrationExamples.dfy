/** Migrations that go wrong, one for each part of the condition. */
module MigrationExamples {
  import opened Basics
  import opened Schema
  import opened Migration
  import opened MigrationRun
  import opened MigrationProof
  import opened MigrationChain

  const NO_RULES := Rules(map[], map[])

  function Typed(fieldName: string, column: string, columnType: string, extra: string): FieldMeta {
    FieldMeta(fieldName, "int", Some(columnType), Some(column), extra, false, false, false, false, "", NO_INDEX, false)
  }

  function Plain(fieldName: string, column: string): FieldMeta { Typed(fieldName, column, "int", "") }

  const X := Plain("x", "a")

  const INT_COLUMN := Column("int", false, "", "")

  function Before(table: string): Loaded { Loaded(table, [X], map["a" := 0], map[]) }

  function TableBefore(table: string): Table { Present(table, map["a" := INT_COLUMN], map[]) }

  /** A new version of the model of variable x, whose snapshot is there. */
  function NewVersion(fields: seq<FieldMeta>, indices: map<string, Index>): Job {
    Job(NO_RULES, ModelMeta("t", "t", fields, indices), InFile, Before("t"))
  }

  lemma BeforeIsGood(table: string)
    ensures GoodPrevious(Before(table))
  {
  }

  /** Starts with the previous version, and a column left from before that version. */
  lemma StartIsInStep(job: Job, t: Table)
    requires job.found.InFile? && job.prev == Before("t") && job.rules == NO_RULES
    requires t.Present? && t.name == "t" && "a" in t.columns && t.columns["a"] == INT_COLUMN && t.indices == map[]
    ensures InStep(job, t) && TableOk(t)
  {
    assert X.ColumnName() == "a" && X.ColumnType(NO_RULES) == "int";
    assert HoldsField(job, t, X);
  }

  // ---------------------------------------------------------------- a name that is used again

  /** Variable x moves from column a to column b, and a new variable y takes column a. */
  const CLASH := NewVersion([Plain("x", "b"), Plain("y", "a")], map[])

  lemma ClashExample(order: seq<Cmd>)
    requires Schedule(CLASH, order)
    ensures GoodJob(CLASH) && InStep(CLASH, TableBefore("t")) && AllKnown(CLASH.model, order)
    ensures !IsMigrated(CLASH, ExecuteAll(NO_RULES, CLASH.model, TableBefore("t"), order))
  {
    ClashIsGood();
    StartIsInStep(CLASH, TableBefore("t"));
    ClashIsClash();
    InStepOutcome(CLASH, TableBefore("t"));
    MigrationCorrect(CLASH, TableBefore("t"), order);
  }

  lemma ClashIsGood()
    ensures GoodJob(CLASH)
  {
    BeforeIsGood("t");
    assert "a" != "b" && "x" != "y";
    assert GoodModel(CLASH.model);
  }

  lemma ClashIsClash()
    ensures !NoClash(CLASH, TableBefore("t"))
  {
    var f, g := CLASH.model.fields[0], CLASH.model.fields[1];
    assert f in CLASH.model.fields && g in CLASH.model.fields;
    assert FindField(CLASH.prev.fields, "x") == Some(0);
    assert "b" != "a" && RenamedFrom(CLASH.prev, f) == Some("a") && HasField(CLASH.model.fields, "a");
  }

  // ---------------------------------------------------------------- a table with another name

  /** The snapshot names the table "old"; the model wants "new" and its default name is "base". */
  const UNKNOWN :=
    Job(NO_RULES, ModelMeta("new", "base", [X], map[]), InFile, Before("old"))

  lemma UnknownNameExample(order: seq<Cmd>)
    requires Schedule(UNKNOWN, order)
    ensures GoodJob(UNKNOWN) && AllKnown(UNKNOWN.model, order)
    ensures !IsMigrated(UNKNOWN, ExecuteAll(NO_RULES, UNKNOWN.model, TableBefore("old"), order))
  {
    assert GoodModel(UNKNOWN.model);
    assert !Reachable(UNKNOWN, TableBefore("old"));
    MigrationCorrect(UNKNOWN, TableBefore("old"), order);
  }

  // ---------------------------------------------------------------- a column that comes back

  /** Version 1 has variables x and y, version 2 only x, and version 3 a new variable z for column b. */
  const OLDER := Loaded("t", [X, Plain("y", "b")], map["a" := 0, "b" := 1], map[])

  const REMOVED := Job(NO_RULES, ModelMeta("t", "t", [X], map[]), InFile, OLDER)

  const READDED := NewVersion([X, Typed("z", "b", "text", "")], map[])

  const TABLE_OF_TWO := Present("t", map["a" := INT_COLUMN, "b" := INT_COLUMN], map[])

  lemma OlderIsGood()
    ensures GoodPrevious(OLDER)
  {
  }

  lemma OlderInStep()
    ensures InStep(REMOVED, TABLE_OF_TWO)
  {
    assert HoldsField(REMOVED, TABLE_OF_TWO, OLDER.fields[0]);
    assert HoldsField(REMOVED, TABLE_OF_TWO, OLDER.fields[1]);
  }

  /** Removing the variable gives no command: the table counts as migrated, and its column stays. */
  lemma RemovedStays(order: seq<Cmd>)
    requires Schedule(REMOVED, order)
    ensures GoodJob(REMOVED) && InStep(REMOVED, TABLE_OF_TWO)
    ensures order == [] && IsMigrated(REMOVED, TABLE_OF_TWO)
  {
    OlderIsGood();
    assert GoodModel(REMOVED.model);
    OlderInStep();
    assert REMOVED.model.fields[0].ColumnName() == "a";
    assert FieldEqual(NO_RULES, X, OLDER.fields[0]);
    assert HoldsField(REMOVED, TABLE_OF_TWO, X);
    assert multiset(order) == multiset{};
  }

  lemma ReaddedIsGood()
    ensures GoodJob(READDED)
  {
    BeforeIsGood("t");
    assert "a" != "b" && "x" != "z";
    assert GoodModel(READDED.model);
  }

  /** The column of the new variable cannot be added, because the old one with another type is still there. */
  lemma ReaddedColumnExample(order: seq<Cmd>)
    requires Schedule(READDED, order)
    ensures GoodJob(READDED) && InStep(READDED, TABLE_OF_TWO) && AllKnown(READDED.model, order)
    ensures !IsMigrated(READDED, ExecuteAll(NO_RULES, READDED.model, TABLE_OF_TWO, order))
  {
    ReaddedIsGood();
    StartIsInStep(READDED, TABLE_OF_TWO);
    var f := READDED.model.fields[1];
    assert f in READDED.model.fields && f.ColumnName() == "b" && f.ColumnType(NO_RULES) == "text";
    assert "text" != "int" && "text"[..3] !in NO_RULES.sameTypes;
    assert !HoldsField(READDED, TABLE_OF_TWO, f) && !FieldFits(READDED, TABLE_OF_TWO, f);
    InStepOutcome(READDED, TABLE_OF_TWO);
    MigrationCorrect(READDED, TABLE_OF_TWO, order);
  }

  // ---------------------------------------------------------------- statements that are not well-formed

  const KEY := Index(Primary, "PRIMARY", ["a"])

  /** Variable x with the tag "pk". */
  const KEY_X := FieldMeta("x", "int", Some("int"), Some("a"), "", true, false, true, true, "", KEY, false)

  /** Column a becomes the primary key. */
  const KEYED := NewVersion([KEY_X], map["PRIMARY" := KEY])

  lemma KeyedIsGood()
    ensures GoodJob(KEYED)
  {
    BeforeIsGood("t");
    assert KEY_X in KEYED.model.fields && KEY_X.ColumnName() == "a";
    assert IsName("a");
    NamesInNames(["a"]);
    assert GoodIndex(KEYED.model, "PRIMARY", KEY);
    assert GoodModel(KEYED.model);
  }

  lemma KeyExample(order: seq<Cmd>)
    requires Schedule(KEYED, order)
    ensures GoodJob(KEYED) && InStep(KEYED, TableBefore("t")) && AllKnown(KEYED.model, order)
    ensures !IsMigrated(KEYED, ExecuteAll(NO_RULES, KEYED.model, TableBefore("t"), order))
  {
    KeyedIsGood();
    StartIsInStep(KEYED, TableBefore("t"));
    assert "PRIMARY" in KEYED.model.indices && NeedsAdd("PRIMARY", KEYED.model.indices, KEYED.prev.indices);
    assert !NoKeyAdded(KEYED);
    InStepOutcome(KEYED, TableBefore("t"));
    MigrationCorrect(KEYED, TableBefore("t"), order);
  }

  /** A new column whose type and comment are printed as "intcomment 'c'". */
  const GLUED := NewVersion([X, Typed("z", "b", "int", "comment 'c'")], map[])

  lemma GluedIsGood()
    ensures GoodJob(GLUED)
  {
    BeforeIsGood("t");
    assert "a" != "b" && "x" != "z";
    assert GoodModel(GLUED.model);
  }

  lemma GluedExample(order: seq<Cmd>)
    requires Schedule(GLUED, order)
    ensures GoodJob(GLUED) && InStep(GLUED, TableBefore("t")) && AllKnown(GLUED.model, order)
    ensures !IsMigrated(GLUED, ExecuteAll(NO_RULES, GLUED.model, TableBefore("t"), order))
  {
    GluedIsGood();
    StartIsInStep(GLUED, TableBefore("t"));
    var f := GLUED.model.fields[1];
    assert f in GLUED.model.fields && f.ColumnName() == "b" && f.ColumnType(NO_RULES) == "int";
    assert !Spaced(NO_RULES, f) by { assert "int"[2] == 't' && "comment 'c'"[0] == 'c'; }
    assert !FieldFits(GLUED, TableBefore("t"), f) by { assert "b" != "a"; }
    InStepOutcome(GLUED, TableBefore("t"));
    MigrationCorrect(GLUED, TableBefore("t"), order);
  }

  // ---------------------------------------------------------------- a new table

  /** The extra text of a column is left out of the statement that creates its table. */
  const CREATED := Job(NO_RULES, ModelMeta("t", "t", [Typed("x", "a", "int", "comment 'c'")], map[]), Nowhere, NOTHING)

  lemma CreationExample(order: seq<Cmd>)
    requires Schedule(CREATED, order)
    ensures NewJob(CREATED) && AllKnown(CREATED.model, order)
    ensures !IsMigrated(CREATED, ExecuteAll(NO_RULES, CREATED.model, Absent, order))
  {
    var f := CREATED.model.fields[0];
    assert f in CREATED.model.fields && f.extra != "" by { assert |f.extra| == 11; }
    assert PrimaryKeys(CREATED.model.fields) == {};
    CreationCorrect(CREATED, order);
  }
}
