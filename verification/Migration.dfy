/** The migration planner, and what its commands do to a table. */
module Migration {
  import opened Basics
  import opened Text
  import opened Schema

  // ---------------------------------------------------------------- commands

  datatype Action = CreateTable | AddColumn | ChangeColumn | AddIndex | ChangeTableName | DropIndex

  datatype Cmd = Cmd(action: Action, target: string, prev: string) {
    function Priority(): nat {
      match action
      case CreateTable => 1
      case ChangeTableName => 1
      case AddColumn => 2
      case ChangeColumn => 2
      case DropIndex => 3
      case AddIndex => 4
    }
  }

  /** The new model: class metadata sorted by offset, and its indexes by name. */
  datatype ModelMeta = ModelMeta(table: string, defaultTable: string, fields: seq<FieldMeta>,
                                 indices: map<string, Index>)

  /** Metadata of the previous version, from the snapshot file or from the database. */
  datatype Loaded = Loaded(table: string, fields: seq<FieldMeta>, position: map<string, nat>,
                           indices: map<string, Index>)

  const NOTHING := Loaded("", [], map[], map[])

  // ---------------------------------------------------------------- the plan

  function FindField(fields: seq<FieldMeta>, name: string): (r: Option<nat>)
    ensures r.Some? ==> r.value < |fields| && fields[r.value].fieldName == name
  {
    if fields == [] then None
    else if fields[0].fieldName == name then Some(0)
    else match FindField(fields[1..], name)
      case None => None
      case Some(i) => Some(i + 1)
  }

  /** The columns are where the name table says. */
  predicate Positioned(prev: Loaded) {
    forall n | n in prev.position :: prev.position[n] < |prev.fields|
  }

  /** The command for one column of the new model, if it needs one. */
  function ColumnCmd(rules: Rules, field: FieldMeta, prev: Loaded): Option<Cmd>
    requires Positioned(prev)
  {
    var name := field.ColumnName();
    if name in prev.position then
      if FieldEqual(rules, field, prev.fields[prev.position[name]]) then None
      else Some(Cmd(ChangeColumn, name, ""))
    else match FindField(prev.fields, field.fieldName)
      case None => Some(Cmd(AddColumn, name, ""))
      case Some(i) => Some(Cmd(ChangeColumn, name, prev.fields[i].ColumnName()))
  }

  predicate InColumnPlan(rules: Rules, fields: seq<FieldMeta>, prev: Loaded, cmd: Cmd)
    requires Positioned(prev)
  {
    exists f | f in fields :: ColumnCmd(rules, f, prev) == Some(cmd)
  }

  predicate NeedsDrop(name: string, new_: map<string, Index>, prev: map<string, Index>) {
    name in prev && (name in new_ ==> !IndexEqual(prev[name], new_[name]))
  }

  predicate NeedsAdd(name: string, new_: map<string, Index>, prev: map<string, Index>) {
    name in new_ && (name in prev ==> !IndexEqual(prev[name], new_[name]))
  }

  function DropCmd(name: string): Cmd { Cmd(DropIndex, name, "") }

  function AddCmd(name: string): Cmd { Cmd(AddIndex, name, "") }

  predicate InIndexPlan(new_: map<string, Index>, prev: map<string, Index>, cmd: Cmd) {
    || (cmd == DropCmd(cmd.target) && NeedsDrop(cmd.target, new_, prev))
    || (cmd == AddCmd(cmd.target) && NeedsAdd(cmd.target, new_, prev))
  }

  function RenameCmd(model: ModelMeta): Cmd { Cmd(ChangeTableName, model.table, model.defaultTable) }

  const CREATE := Cmd(CreateTable, "", "")

  /** What the search for the previous version found; the file comes before the database. */
  datatype Found = InFile | UnderTableName | UnderDefaultName | Nowhere

  function Search(file: Loaded, byTable: Loaded, byDefault: Loaded): Found {
    if file.table != "" then InFile
    else if byTable.fields != [] then UnderTableName
    else if byDefault.fields != [] then UnderDefaultName
    else Nowhere
  }

  function Previous(file: Loaded, byTable: Loaded, byDefault: Loaded): Loaded {
    match Search(file, byTable, byDefault)
    case InFile => file
    case UnderTableName => byTable
    case _ => byDefault
  }

  predicate InTablePlan(model: ModelMeta, found: Found, prev: Loaded, cmd: Cmd) {
    match found
    case InFile => cmd == RenameCmd(model) && prev.fields != [] && prev.table != model.table
    case UnderTableName => false
    case UnderDefaultName => cmd == RenameCmd(model)
    case Nowhere => cmd == CREATE
  }

  /** The command belongs to the migration; the order of its commands is left to the sort. */
  predicate InPlan(rules: Rules, model: ModelMeta, found: Found, prev: Loaded, cmd: Cmd)
    requires Positioned(prev)
  {
    || InTablePlan(model, found, prev, cmd)
    || (prev.fields != [] &&
        (InColumnPlan(rules, model.fields, prev, cmd) || InIndexPlan(model.indices, prev.indices, cmd)))
  }

  // ---------------------------------------------------------------- order of execution

  function One(b: bool): nat { if b then 1 else 0 }

  /** Each command of the migration is listed once, and no other. */
  ghost predicate IsPlan(cmds: seq<Cmd>, rules: Rules, model: ModelMeta, found: Found, prev: Loaded)
    requires Positioned(prev)
  {
    forall c :: multiset(cmds)[c] == One(InPlan(rules, model, found, prev, c))
  }

  /** How often a command is listed for the columns: once for each field that needs it. */
  function ColumnCount(rules: Rules, fields: seq<FieldMeta>, prev: Loaded, cmd: Cmd): nat
    requires Positioned(prev)
  {
    if fields == [] then 0 else
      var init, last := fields[..|fields| - 1], fields[|fields| - 1];
      ColumnCount(rules, init, prev, cmd) + One(ColumnCmd(rules, last, prev) == Some(cmd))
  }

  function PlanCount(rules: Rules, model: ModelMeta, found: Found, prev: Loaded, cmd: Cmd): nat
    requires Positioned(prev)
  {
    One(InTablePlan(model, found, prev, cmd)) +
    if prev.fields == [] then 0 else
      ColumnCount(rules, model.fields, prev, cmd) + One(InIndexPlan(model.indices, prev.indices, cmd))
  }

  ghost predicate ByPriority(cmds: seq<Cmd>) {
    forall i, j | 0 <= i < j < |cmds| :: cmds[i].Priority() <= cmds[j].Priority()
  }

  /** A result the sort may give: ordered by priority and by nothing else. */
  ghost predicate IsSchedule(order: seq<Cmd>, rules: Rules, model: ModelMeta, found: Found, prev: Loaded)
    requires Positioned(prev)
  {
    IsPlan(order, rules, model, found, prev) && ByPriority(order)
  }

  // ---------------------------------------------------------------- the table

  /** The table the model is stored in, as the database sees it. */
  datatype Table =
    | Absent
    | Present(name: string, columns: map<string, Column>, indices: map<string, Index>)

  /** getMetadata: the last column of that name. */
  function FieldOf(fields: seq<FieldMeta>, name: string): FieldMeta
    requires exists f | f in fields :: f.ColumnName() == name
  {
    var last := fields[|fields| - 1];
    if last.ColumnName() == name then last else
      assert forall f | f in fields :: f == last || f in fields[..|fields| - 1];
      FieldOf(fields[..|fields| - 1], name)
  }

  predicate HasField(fields: seq<FieldMeta>, name: string) {
    exists f | f in fields :: f.ColumnName() == name
  }

  function RenameIn(columns: seq<string>, from: string, to: string): seq<string> {
    seq(|columns|, i requires 0 <= i < |columns| => if columns[i] == from then to else columns[i])
  }

  function PrimaryKeys(fields: seq<FieldMeta>): set<string> {
    set f | f in fields && f.isPk :: f.ColumnName()
  }

  /** CREATE TABLE as printed: "extra" is left out, and the key is declared beside its column. */
  function Created(rules: Rules, model: ModelMeta): Table {
    var columns := map f | f in model.fields && HasField(model.fields, f.ColumnName()) ::
                     f.ColumnName() := CreatedColumn(rules, FieldOf(model.fields, f.ColumnName()));
    var others := map n | n in model.indices && n != "PRIMARY" :: CreatedIndex(model.indices[n]);
    var keys := PrimaryKeys(model.fields);
    Present(model.table, columns,
            if keys == {} then others else others["PRIMARY" := Index(Primary, "PRIMARY", OnlyKey(model.fields))])
  }

  /** Any index that is not declared as plain is declared as unique. */
  function CreatedIndex(i: Index): Index { Declared(i).(kind := if i.kind.Multiple? then Multiple else Unique) }

  function CreatedColumn(rules: Rules, f: FieldMeta): Column {
    Column(f.ColumnType(rules), f.isPk || f.notNull, f.defaultValue, "")
  }

  function OnlyKey(fields: seq<FieldMeta>): seq<string> {
    if fields == [] then []
    else if fields[0].isPk then [fields[0].ColumnName()]
    else OnlyKey(fields[1..])
  }

  /** The statement is rejected without a column, with a name of several words, or with two primary keys. */
  predicate Creatable(model: ModelMeta) {
    && model.fields != [] && |PrimaryKeys(model.fields)| <= 1
    && forall f | f in model.fields :: IsName(f.ColumnName())
  }

  predicate IsWordChar(c: char) {
    IsUpper(c) || IsLower(c) || '0' <= c <= '9' || c == '_' || c == '$' || c as int > 127
  }

  /**
   The text that defines a column keeps its words apart: nothing is printed between a default value
   and the extra text, nor between a type and the extra text of a column that may be null.
   */
  predicate Spaced(rules: Rules, f: FieldMeta) {
    var before := if f.defaultValue != "" then f.defaultValue else if f.notNull then " " else f.ColumnType(rules);
    f.extra == "" || before == "" || !IsWordChar(before[|before| - 1]) || !IsWordChar(f.extra[0])
  }

  /** The column that a column command starts from. */
  function From(c: Cmd): string { if c.prev == "" then c.target else c.prev }

  /** The command can be carried out on these columns, as far as their names go; they are printed unquoted. */
  predicate ColumnAllowed(columns: map<string, Column>, c: Cmd) {
    && IsName(c.target) && IsName(From(c))
    && if c.action.AddColumn? then c.target !in columns
       else From(c) in columns && (c.target == From(c) || c.target !in columns)
  }

  predicate IndexAllowed(t: Table, index: Index) {
    && t.Present? && index.columns != []
    && |Elements(index.columns)| == |index.columns|
    && forall c | c in index.columns :: c in t.columns
  }

  predicate Known(model: ModelMeta, cmd: Cmd) {
    && (cmd.action.AddColumn? || cmd.action.ChangeColumn? ==> HasField(model.fields, cmd.target))
    && (cmd.action.AddIndex? ==> cmd.target in model.indices)
  }

  predicate AllKnown(model: ModelMeta, cmds: seq<Cmd>) {
    forall i | 0 <= i < |cmds| :: Known(model, cmds[i])
  }

  /** The database can carry the command out. The statement that adds a primary key is not well-formed. */
  predicate Accepts(rules: Rules, model: ModelMeta, t: Table, cmd: Cmd)
    requires Known(model, cmd)
  {
    match cmd.action
    case CreateTable => t.Absent? && Creatable(model)
    case ChangeTableName => t.Present? && t.name == cmd.prev
    case DropIndex => t.Present? && t.name == model.table && cmd.target in t.indices
    case AddIndex =>
      t.Present? && t.name == model.table && cmd.target !in t.indices &&
      !model.indices[cmd.target].kind.Primary? && IndexAllowed(t, Declared(model.indices[cmd.target]))
    case _ =>
      t.Present? && t.name == model.table &&
      ColumnAllowed(t.columns, cmd) && Spaced(rules, FieldOf(model.fields, cmd.target))
  }

  /** The effect of a command; a rejected one changes nothing, and the migrator does not notice. */
  function Execute(rules: Rules, model: ModelMeta, t: Table, cmd: Cmd): Table
    requires Known(model, cmd)
  {
    if !Accepts(rules, model, t, cmd) then t else
      match cmd.action
      case CreateTable => Created(rules, model)
      case ChangeTableName => t.(name := cmd.target)
      case AddColumn =>
        t.(columns := t.columns[cmd.target := ColumnOf(rules, FieldOf(model.fields, cmd.target))])
      case ChangeColumn =>
        t.(columns := (t.columns - {From(cmd)})[cmd.target := ColumnOf(rules, FieldOf(model.fields, cmd.target))],
           indices := map n | n in t.indices :: // an index follows the columns it is made of
                        t.indices[n].(columns := RenameIn(t.indices[n].columns, From(cmd), cmd.target)))
      case DropIndex => t.(indices := t.indices - {cmd.target})
      case AddIndex => t.(indices := t.indices[cmd.target := Declared(model.indices[cmd.target])])
  }

  function ExecuteAll(rules: Rules, model: ModelMeta, t: Table, cmds: seq<Cmd>): Table
    requires AllKnown(model, cmds)
  {
    if cmds == [] then t else
      var init, last := cmds[..|cmds| - 1], cmds[|cmds| - 1];
      Execute(rules, model, ExecuteAll(rules, model, t, init), last)
  }

  // ---------------------------------------------------------------- implementation

  /** Migrator: collects commands, then sorts them and runs them one by one. */
  class Migrator {
    var cmds: seq<Cmd>
    var table: Table

    constructor (t: Table)
      ensures cmds == [] && table == t
    {
      cmds, table := [], t;
    }

    method AddCommand(cmd: Cmd)
      modifies this`cmds
      ensures cmds == old(cmds) + [cmd]
      ensures forall c :: multiset(cmds)[c] == multiset(old(cmds))[c] + One(c == cmd)
    {
      cmds := cmds + [cmd];
    }

    /** std::sort by priority: any of the least commands may come next. */
    method Sort()
      modifies this`cmds
      ensures multiset(cmds) == multiset(old(cmds)) && ByPriority(cmds)
    {
      var rest := multiset(cmds);
      var sorted: seq<Cmd> := [];
      while rest != multiset{}
        invariant multiset(sorted) + rest == multiset(old(cmds))
        invariant ByPriority(sorted) && Before(sorted, rest)
        decreases |rest|
      {
        LeastExists(rest);
        var cmd :| cmd in rest && forall d | d in rest :: cmd.Priority() <= d.Priority();
        AppendLeast(sorted, rest, cmd);
        rest := rest - multiset{cmd};
        sorted := sorted + [cmd];
      }
      cmds := sorted;
    }

    /** MysqlMigrator::migrate. */
    method Migrate(rules: Rules, model: ModelMeta)
      requires AllKnown(model, cmds)
      modifies this
      ensures multiset(cmds) == multiset(old(cmds)) && ByPriority(cmds)
      ensures AllKnown(model, cmds)
      ensures table == ExecuteAll(rules, model, old(table), cmds)
    {
      Sort();
      var sorted := cmds;
      KnownInAnyOrder(model, old(cmds), sorted);
      for i := 0 to |sorted|
        invariant cmds == sorted
        invariant table == ExecuteAll(rules, model, old(table), sorted[..i])
      {
        assert sorted[..i + 1][..i] == sorted[..i];
        table := Execute(rules, model, table, sorted[i]);
      }
      assert sorted[..|sorted|] == sorted;
    }

    /** Model::AutoMigrate up to the sort: compares the two versions and collects the commands. */
    method Compare(rules: Rules, model: ModelMeta, file: Loaded, byTable: Loaded, byDefault: Loaded)
      returns (prev: Loaded)
      requires cmds == []
      requires file.table == "" ==> file == NOTHING
      requires Positioned(file) && Positioned(byTable) && Positioned(byDefault)
      modifies this`cmds
      ensures prev == Previous(file, byTable, byDefault)
      ensures forall c :: multiset(cmds)[c] == PlanCount(rules, model, Search(file, byTable, byDefault), prev, c)
    {
      prev := FindPrevious(model, file, byTable, byDefault);
      if prev.fields != [] {
        CompareColumns(rules, model, prev);
        CompareOldIndices(model, prev);
        CompareNewIndices(model, prev);
      }
    }

    /** Takes the previous version from the file, else from the database, and plans for the table itself. */
    method FindPrevious(model: ModelMeta, file: Loaded, byTable: Loaded, byDefault: Loaded) returns (prev: Loaded)
      requires cmds == []
      modifies this`cmds
      ensures prev == Previous(file, byTable, byDefault)
      ensures forall c :: multiset(cmds)[c] == One(InTablePlan(model, Search(file, byTable, byDefault), prev, c))
    {
      prev := file;
      if file.table == "" {
        prev := byTable;
        if prev.fields == [] {
          prev := byDefault;
          if prev.fields == [] {
            AddCommand(CREATE);
          } else {
            AddCommand(RenameCmd(model));
          }
        }
      }
      if prev.fields != [] && file.table != "" && file.table != model.table {
        AddCommand(RenameCmd(model));
      }
    }

    method CompareColumns(rules: Rules, model: ModelMeta, prev: Loaded)
      requires Positioned(prev)
      modifies this`cmds
      ensures forall c :: multiset(cmds)[c] == multiset(old(cmds))[c] + ColumnCount(rules, model.fields, prev, c)
    {
      for i := 0 to |model.fields|
        invariant forall c :: (multiset(cmds)[c] ==
          multiset(old(cmds))[c] + ColumnCount(rules, model.fields[..i], prev, c))
      {
        CompareColumn(rules, model.fields[i], prev);
        assert model.fields[..i + 1][..i] == model.fields[..i];
      }
      assert model.fields[..|model.fields|] == model.fields;
    }

    /** Looks a column up by its name, then by the name of its variable. */
    method CompareColumn(rules: Rules, field: FieldMeta, prev: Loaded)
      requires Positioned(prev)
      modifies this`cmds
      ensures forall c :: multiset(cmds)[c] == multiset(old(cmds))[c] + One(ColumnCmd(rules, field, prev) == Some(c))
    {
      var name := field.ColumnName();
      if name !in prev.position {
        var it := FindField(prev.fields, field.fieldName);
        if it.None? {
          AddCommand(Cmd(AddColumn, name, ""));
        } else {
          AddCommand(Cmd(ChangeColumn, name, prev.fields[it.value].ColumnName()));
        }
      } else if !FieldEqual(rules, field, prev.fields[prev.position[name]]) {
        AddCommand(Cmd(ChangeColumn, name, ""));
      }
    }

    /** Visits the indexes of the previous version, a hash map, in any order. */
    method CompareOldIndices(model: ModelMeta, prev: Loaded)
      modifies this`cmds
      ensures forall c :: multiset(cmds)[c] == multiset(old(cmds))[c]
                + One(c.target in prev.indices && InIndexPlan(model.indices, prev.indices, c))
    {
      var rest := prev.indices.Keys;
      while rest != {}
        invariant rest <= prev.indices.Keys
        invariant forall c :: (multiset(cmds)[c] == multiset(old(cmds))[c]
          + One(c.target in prev.indices.Keys - rest && InIndexPlan(model.indices, prev.indices, c)))
        decreases rest
      {
        var name :| name in rest;
        CompareOldIndex(model, prev, name);
        rest := rest - {name};
      }
    }

    /** An index that is gone is dropped; one that changed is dropped and added again. */
    method CompareOldIndex(model: ModelMeta, prev: Loaded, name: string)
      requires name in prev.indices
      modifies this`cmds
      ensures forall c :: multiset(cmds)[c] == multiset(old(cmds))[c]
                + One(c.target == name && InIndexPlan(model.indices, prev.indices, c))
    {
      if name !in model.indices {
        AddCommand(DropCmd(name));
      } else {
        var same := CompareIndexes(prev.indices[name], model.indices[name]);
        if !same {
          AddCommand(DropCmd(name));
          AddCommand(AddCmd(name));
        }
      }
    }

    /** Visits the indexes of the new version in any order. */
    method CompareNewIndices(model: ModelMeta, prev: Loaded)
      modifies this`cmds
      ensures forall c :: multiset(cmds)[c] == multiset(old(cmds))[c]
                + One(c.target !in prev.indices && InIndexPlan(model.indices, prev.indices, c))
    {
      var rest := model.indices.Keys;
      while rest != {}
        invariant rest <= model.indices.Keys
        invariant forall c :: (multiset(cmds)[c] == multiset(old(cmds))[c]
          + One(c.target in model.indices.Keys - rest && c.target !in prev.indices
                && InIndexPlan(model.indices, prev.indices, c)))
        decreases rest
      {
        var name :| name in rest;
        if name !in prev.indices {
          AddCommand(AddCmd(name));
        }
        rest := rest - {name};
      }
    }
  }

  lemma KnownInAnyOrder(model: ModelMeta, a: seq<Cmd>, b: seq<Cmd>)
    requires multiset(a) == multiset(b) && AllKnown(model, a)
    ensures AllKnown(model, b)
  {
    forall i | 0 <= i < |b| ensures Known(model, b[i]) {
      assert b[i] in multiset(b) && b[i] in a;
    }
  }

  lemma PartsDisjoint(rules: Rules, model: ModelMeta, found: Found, prev: Loaded)
    requires Positioned(prev)
    ensures forall c :: InTablePlan(model, found, prev, c) ==>
      !InColumnPlan(rules, model.fields, prev, c) && !InIndexPlan(model.indices, prev.indices, c)
    ensures forall c :: InColumnPlan(rules, model.fields, prev, c) ==> !InIndexPlan(model.indices, prev.indices, c)
  {
    assert forall c :: InTablePlan(model, found, prev, c) ==> c.Priority() == 1;
    assert forall c :: InColumnPlan(rules, model.fields, prev, c) ==> c.Priority() == 2;
    assert forall c :: InIndexPlan(model.indices, prev.indices, c) ==> c.Priority() >= 3;
  }

  ghost predicate Before(sorted: seq<Cmd>, rest: multiset<Cmd>) {
    forall c, d | c in sorted && d in rest :: c.Priority() <= d.Priority()
  }

  lemma AppendLeast(sorted: seq<Cmd>, rest: multiset<Cmd>, cmd: Cmd)
    requires ByPriority(sorted) && Before(sorted, rest)
    requires cmd in rest && forall d | d in rest :: cmd.Priority() <= d.Priority()
    ensures ByPriority(sorted + [cmd]) && Before(sorted + [cmd], rest - multiset{cmd})
    ensures multiset(sorted + [cmd]) + (rest - multiset{cmd}) == multiset(sorted) + rest
  {
    assert multiset(sorted + [cmd]) == multiset(sorted) + multiset{cmd};
  }

  lemma {:induction false} LeastExists(cmds: multiset<Cmd>)
    requires cmds != multiset{}
    ensures exists c | c in cmds :: forall d | d in cmds :: c.Priority() <= d.Priority()
    decreases |cmds|
  {
    var c :| c in cmds;
    var rest := cmds[c := 0];
    if rest == multiset{} {
      assert forall d | d in cmds :: d == c by { assert forall d | d != c :: cmds[d] == rest[d]; }
    } else {
      assert forall d | d in cmds :: d == c || d in rest;
      assert rest < cmds;
      LeastExists(rest);
      var least :| least in rest && forall d | d in rest :: least.Priority() <= d.Priority();
      if c.Priority() <= least.Priority() { assert c in cmds; } else { assert least in cmds; }
    }
  }

  ghost function ColumnNames(fields: seq<FieldMeta>): seq<string> {
    seq(|fields|, i requires 0 <= i < |fields| => fields[i].ColumnName())
  }

  lemma OneMoreColumn(rules: Rules, fields: seq<FieldMeta>, i: nat, prev: Loaded)
    requires Positioned(prev) && i < |fields| && Distinct(ColumnNames(fields))
    ensures forall c :: InColumnPlan(rules, fields[..i + 1], prev, c) <==>
      InColumnPlan(rules, fields[..i], prev, c) || ColumnCmd(rules, fields[i], prev) == Some(c)
    ensures forall c | ColumnCmd(rules, fields[i], prev) == Some(c) :: !InColumnPlan(rules, fields[..i], prev, c)
  {
    var names := ColumnNames(fields);
    assert fields[..i + 1] == fields[..i] + [fields[i]];
    assert forall f | f in fields[..i + 1] :: f in fields[..i] || f == fields[i];
    assert fields[i] in fields[..i + 1];
    forall f | f in fields[..i] ensures f.ColumnName() != fields[i].ColumnName() && f in fields[..i + 1] {
      var k :| 0 <= k < i && fields[k] == f;
      assert names[k] != names[i];
    }
  }

  lemma {:induction false} CountOnce(rules: Rules, fields: seq<FieldMeta>, prev: Loaded, c: Cmd)
    requires Positioned(prev) && Distinct(ColumnNames(fields))
    ensures ColumnCount(rules, fields, prev, c) == One(InColumnPlan(rules, fields, prev, c))
  {
    if fields != [] {
      var n := |fields| - 1;
      var init := fields[..n];
      assert forall i | 0 <= i < n :: ColumnNames(init)[i] == ColumnNames(fields)[i];
      CountOnce(rules, init, prev, c);
      OneMoreColumn(rules, fields, n, prev);
      assert fields[..n + 1] == fields;
    }
  }

  /** With distinct column names each command of the plan is listed once. */
  lemma PlanOnce(cmds: seq<Cmd>, rules: Rules, model: ModelMeta, found: Found, prev: Loaded)
    requires Positioned(prev) && Distinct(ColumnNames(model.fields))
    requires forall c :: multiset(cmds)[c] == PlanCount(rules, model, found, prev, c)
    ensures IsPlan(cmds, rules, model, found, prev)
  {
    PartsDisjoint(rules, model, found, prev);
    forall c ensures multiset(cmds)[c] == One(InPlan(rules, model, found, prev, c)) {
      CountOnce(rules, model.fields, prev, c);
    }
  }

  /**
   An index that keeps several names as one text is dropped and added again whenever the previous version
   comes from the database, although it is there already.
   */
  lemma ListedReplanned(rules: Rules, model: ModelMeta, found: Found, prev: Loaded, n: string)
    requires Positioned(prev) && prev.fields != [] && n in model.indices && n in prev.indices
    requires prev.indices[n] == Declared(model.indices[n])
    requires |model.indices[n].columns| < |NamesIn(model.indices[n].columns)|
    ensures InPlan(rules, model, found, prev, DropCmd(n)) && InPlan(rules, model, found, prev, AddCmd(n))
  {
    ListedDiffers(model.indices[n]);
    assert InIndexPlan(model.indices, prev.indices, DropCmd(n));
    assert InIndexPlan(model.indices, prev.indices, AddCmd(n));
  }
}
