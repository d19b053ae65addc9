/** Reading the snapshot file with a state machine. */
module SnapshotReader {
  import opened Basics
  import opened Text
  import opened Schema
  import opened Migration
  import opened Snapshot

  /** The input file with its cursor. */
  class Stream {
    const data: string
    var pos: nat

    constructor (bytes: string)
      ensures data == bytes && pos == 0
    {
      data := bytes;
      pos := 0;
    }

    ghost function Rest(): string
      reads this
    {
      if pos <= |data| then data[pos..] else ""
    }

    /** read: at most the given number of characters. */
    method Read(n: nat) returns (s: string)
      modifies this
      ensures s == if n <= |old(Rest())| then old(Rest())[..n] else old(Rest())
      ensures Rest() == if n <= |old(Rest())| then old(Rest())[n..] else ""
    {
      if pos >= |data| { return ""; }
      var end := if pos + n <= |data| then pos + n else |data|;
      s := data[pos..end];
      pos := end;
    }

    /** seekg relative to the cursor. */
    method Skip(n: nat)
      modifies this
      ensures Rest() == if n <= |old(Rest())| then old(Rest())[n..] else ""
    {
      pos := pos + n;
    }
  }

  lemma Prefix(a: string, tail: string)
    ensures |a| <= |a + tail| && (a + tail)[..|a|] == a && (a + tail)[|a|..] == tail
  {
  }

  /** A length byte, signed as "char" is. */
  function SignedChar(c: char): int {
    var n := c as int % 256;
    if n < 128 then n else n - 256
  }

  // ---------------------------------------------------------------- parts of a record

  method ReadChar(ifs: Stream, ghost c: char, ghost tail: string) returns (r: char)
    requires ifs.Rest() == [c] + tail
    modifies ifs
    ensures r == c && ifs.Rest() == tail
  {
    var s := ifs.Read(1);
    Prefix([c], tail);
    r := s[0];
  }

  /** A length byte and as many characters. */
  method ReadCounted(ifs: Stream, ghost s: string, ghost tail: string) returns (r: string)
    requires |s| <= MAX_CHAR && ifs.Rest() == Counted(s) + tail
    modifies ifs
    ensures r == s && ifs.Rest() == tail
  {
    assert Counted(s) + tail == [Byte(|s|)] + (s + tail);
    var len := ReadChar(ifs, Byte(|s|), s + tail);
    Prefix(s, tail);
    r := ifs.Read(SignedChar(len));
  }

  /** read_combined: two parts with a bar between them. */
  method ReadCombined(ifs: Stream, ghost p1: string, ghost p2: string, ghost tail: string)
    returns (r1: string, r2: string)
    requires IsPart(p1) && IsPart(p2) && |p1 + ['|'] + p2| <= MAX_CHAR
    requires ifs.Rest() == Counted(p1 + ['|'] + p2) + tail
    modifies ifs
    ensures r1 == p1 && r2 == p2 && ifs.Rest() == tail
  {
    var s := ReadCounted(ifs, p1 + ['|'] + p2, tail);
    SplitPair(p1, p2);
    var v := SplitText(s, {'|'});
    r1, r2 := v[0], v[1];
  }

  lemma SplitPair(p1: string, p2: string)
    requires IsPart(p1) && IsPart(p2)
    ensures Split(p1 + ['|'] + p2, {'|'}) == [p1, p2]
  {
    var parts := [p1, p2];
    assert parts[1..] == [p2];
    assert Join(parts, '|') == p1 + ['|'] + p2;
    SplitJoin(parts, '|');
  }

  method ParseHeader(ifs: Stream, ghost className: string, ghost table: string, ghost modelLen: nat,
                     ghost tail: string)
    returns (readClass: string, readTable: string, readLen: nat)
    requires HeaderFits(className, table) && modelLen <= MAX_SHORT
    requires [HEADER_MARKER] + ifs.Rest() == HeaderBytes(className, table, modelLen) + tail
    modifies ifs
    ensures readClass == className && readTable == table && readLen == modelLen && ifs.Rest() == tail
  {
    ghost var names := table + ['|'] + className;
    ghost var headerLen := Byte(|className| + |table| + 5);
    HeaderAfterMarker(className, table, modelLen, tail, ifs.Rest());
    readLen := ReadShort(ifs, modelLen, [headerLen] + (Counted(names) + tail));
    var _ := ReadChar(ifs, headerLen, Counted(names) + tail);
    readTable, readClass := ReadCombined(ifs, table, className, tail);
  }

  method ReadShort(ifs: Stream, ghost n: nat, ghost tail: string) returns (r: int)
    requires n <= MAX_SHORT && ifs.Rest() == [Short(n)[0]] + ([Short(n)[1]] + tail)
    modifies ifs
    ensures r == n && ifs.Rest() == tail
  {
    var low := ReadChar(ifs, Short(n)[0], [Short(n)[1]] + tail);
    var high := ReadChar(ifs, Short(n)[1], tail);
    r := low as int + 256 * high as int;
  }

  lemma HeaderAfterMarker(className: string, table: string, modelLen: nat, tail: string, rest: string)
    requires HeaderFits(className, table)
    requires [HEADER_MARKER] + rest == HeaderBytes(className, table, modelLen) + tail
    ensures rest == [Short(modelLen)[0]] + ([Short(modelLen)[1]]
                      + ([Byte(|className| + |table| + 5)] + (Counted(table + ['|'] + className) + tail)))
  {
    var all := [HEADER_MARKER] + rest;
    assert all[1..] == rest;
    assert all == [HEADER_MARKER] + ([Short(modelLen)[0]] + ([Short(modelLen)[1]]
                      + ([Byte(|className| + |table| + 5)] + (Counted(table + ['|'] + className) + tail))));
  }

  /** parseColumnField: default and extra are only assigned when they are not empty. */
  method ParseColumnField(ifs: Stream, fieldMeta: FieldMeta, ghost rules: Rules, ghost f: FieldMeta,
                          ghost tail: string)
    returns (r: FieldMeta)
    requires FieldFits(rules, f) && [COLUMN_MARKER] + ifs.Rest() == ColumnBytes(rules, f) + tail
    requires IsBlank(fieldMeta)
    modifies ifs
    ensures r == LoadedField(rules, f) && ifs.Rest() == tail
  {
    ghost var t4 := Counted(f.extra) + tail;
    ghost var t3 := Counted(f.defaultValue) + t4;
    ghost var t2 := [Byte(Flags(f))] + t3;
    ColumnAfterMarker(rules, f, tail, ifs.Rest());
    r := ParseNames(ifs, fieldMeta, rules, f, t2);
    var flags := ReadChar(ifs, Byte(Flags(f)), t3);
    FlagBits(f);
    r := r.(isPk := flags as int / 8 % 2 == 1, autoInc := flags as int / 4 % 2 == 1,
            hasIndex := flags as int / 2 % 2 == 1, notNull := flags as int % 2 == 1);
    var defaultValue := ReadCounted(ifs, f.defaultValue, t4);
    if |defaultValue| > 0 { r := r.(defaultValue := defaultValue); }
    var extra := ReadCounted(ifs, f.extra, tail);
    if |extra| > 0 { r := r.(extra := extra); }
  }

  method ParseNames(ifs: Stream, fieldMeta: FieldMeta, ghost rules: Rules, ghost f: FieldMeta, ghost tail: string)
    returns (r: FieldMeta)
    requires FieldFits(rules, f)
    requires ifs.Rest() == Counted(ColumnId(f)) + (Counted(DataType(rules, f)) + tail)
    modifies ifs
    ensures r == fieldMeta.(fieldName := f.fieldName, columnName := Some(f.ColumnName()),
                            cppType := f.cppType, columnType := Some(f.ColumnType(rules)))
    ensures ifs.Rest() == tail
  {
    var columnName, fieldName := ReadCombined(ifs, f.ColumnName(), f.fieldName, Counted(DataType(rules, f)) + tail);
    var columnType, cppType := ReadCombined(ifs, f.ColumnType(rules), f.cppType, tail);
    r := fieldMeta.(fieldName := fieldName, columnName := Some(columnName),
                    cppType := cppType, columnType := Some(columnType));
  }

  lemma FlagBits(f: FieldMeta)
    ensures var n := Byte(Flags(f)) as int;
      && (n / 8 % 2 == 1 <==> f.isPk) && (n / 4 % 2 == 1 <==> f.autoInc)
      && (n / 2 % 2 == 1 <==> f.hasIndex) && (n % 2 == 1 <==> f.notNull)
  {
  }

  lemma ColumnAfterMarker(rules: Rules, f: FieldMeta, tail: string, rest: string)
    requires FieldFits(rules, f) && [COLUMN_MARKER] + rest == ColumnBytes(rules, f) + tail
    ensures rest == Counted(ColumnId(f)) + (Counted(DataType(rules, f)) + ([Byte(Flags(f))]
                      + (Counted(f.defaultValue) + (Counted(f.extra) + tail))))
  {
    FiveParts(Counted(ColumnId(f)), Counted(DataType(rules, f)), Byte(Flags(f)), Counted(f.defaultValue),
              Counted(f.extra), tail, rest);
  }

  lemma FiveParts(a: string, b: string, c: char, d: string, e: string, tail: string, rest: string)
    requires [COLUMN_MARKER] + rest == [COLUMN_MARKER] + a + b + [c] + d + e + tail
    ensures rest == a + (b + ([c] + (d + (e + tail))))
  {
    var all := [COLUMN_MARKER] + rest;
    assert all[1..] == rest;
    assert all == [COLUMN_MARKER] + (a + (b + ([c] + (d + (e + tail)))));
  }

  /** Nothing is left in the variable from the column before. */
  predicate IsBlank(f: FieldMeta) {
    f.defaultValue == "" && f.extra == "" && f.index == NO_INDEX && !f.ignored
  }

  /** The variable after its contents have been moved into the list of columns. */
  function MovedFrom(f: FieldMeta): FieldMeta {
    f.(fieldName := "", cppType := "", columnName := None, columnType := None,
       defaultValue := "", extra := "", index := f.index.(name := "", columns := []))
  }

  method ParseIndexField(ifs: Stream, ghost i: Index, ghost tail: string) returns (r: Index)
    requires IndexFits(i) && [INDEX_MARKER] + ifs.Rest() == IndexBytes(i) + tail
    modifies ifs
    ensures r == i && ifs.Rest() == tail
  {
    IndexAfterMarker(i, tail, ifs.Rest());
    var kind := ReadKind(ifs, i.kind, Counted(i.name) + (Counted(Join(i.columns, '|')) + tail));
    var name := ReadCounted(ifs, i.name, Counted(Join(i.columns, '|')) + tail);
    var columns := ReadCounted(ifs, Join(i.columns, '|'), tail);
    SplitJoin(i.columns, '|');
    var v := SplitText(columns, {'|'});
    r := Index(kind, name, v);
  }

  method ReadKind(ifs: Stream, ghost kind: IndexKind, ghost tail: string) returns (r: IndexKind)
    requires ifs.Rest() == [KindByte(kind)] + tail
    modifies ifs
    ensures r == kind && ifs.Rest() == tail
  {
    var code := ReadChar(ifs, KindByte(kind), tail);
    r := if code as int == 0 then Unique else if code as int == 1 then Multiple else Primary;
  }

  lemma IndexAfterMarker(i: Index, tail: string, rest: string)
    requires IndexFits(i) && [INDEX_MARKER] + rest == IndexBytes(i) + tail
    ensures rest == [KindByte(i.kind)] + (Counted(i.name) + (Counted(Join(i.columns, '|')) + tail))
  {
    var a, b := Counted(i.name), Counted(Join(i.columns, '|'));
    var all := [INDEX_MARKER] + rest;
    assert all[1..] == rest;
    assert all == [INDEX_MARKER] + ([KindByte(i.kind)] + (a + (b + tail)));
  }

  // ---------------------------------------------------------------- the state machine

  datatype State = ParseMarker | ParseField | ParseSuccess | ParseFailed

  predicate RecordsShort(rules: Rules, rs: seq<Record>) {
    forall k | 0 <= k < |rs| :: RecordShort(rules, rs[k])
  }

  /** What is left to read: the rest of one record's body, and the records behind it. */
  function Left(rules: Rules, body: seq<Item>, rs: seq<Record>): string
    requires AllFit(rules, body) && RecordsShort(rules, rs)
  {
    assert RecordsFit(rules, rs) by { assert forall k | 0 <= k < |rs| :: RecordShort(rules, rs[k]); }
    BodyBytes(rules, body) + FileBytes(rules, rs)
  }

  /** What the machine will have read when it stops. */
  function Outcome(rules: Rules, found: bool, so: Loaded, body: seq<Item>, rs: seq<Record>, className: string): Loaded {
    if found then AllAbsorbed(rules, so, body) else FindRecord(rules, rs, className)
  }

  lemma BodyFirst(rules: Rules, body: seq<Item>)
    requires AllFit(rules, body) && body != []
    ensures AllFit(rules, body[1..])
    ensures BodyBytes(rules, body) == ItemBytes(rules, body[0]) + BodyBytes(rules, body[1..])
  {
    assert BodyChunks(rules, body)[1..] == BodyChunks(rules, body[1..]);
  }

  lemma LeftBody(rules: Rules, body: seq<Item>, rs: seq<Record>)
    requires AllFit(rules, body) && RecordsShort(rules, rs) && body != []
    ensures AllFit(rules, body[1..])
    ensures Left(rules, body, rs) == ItemBytes(rules, body[0]) + Left(rules, body[1..], rs)
  {
    BodyFirst(rules, body);
    assert RecordsFit(rules, rs) by { assert forall k | 0 <= k < |rs| :: RecordShort(rules, rs[k]); }
    Regroup(ItemBytes(rules, body[0]), BodyBytes(rules, body[1..]), FileBytes(rules, rs));
  }

  lemma LeftRecord(rules: Rules, rs: seq<Record>)
    requires RecordsShort(rules, rs) && rs != []
    ensures RecordsShort(rules, rs[1..])
    ensures Left(rules, [], rs) ==
            HeaderBytes(rs[0].className, rs[0].table, |BodyBytes(rules, rs[0].items)|)
            + Left(rules, rs[0].items, rs[1..])
  {
    var r := rs[0];
    assert RecordShort(rules, r);
    assert FileChunks(rules, rs)[1..] == FileChunks(rules, rs[1..]);
    var b, t := BodyBytes(rules, r.items), FileBytes(rules, rs[1..]);
    var h := HeaderBytes(r.className, r.table, |b|);
    assert (h + b) + t == h + (b + t);
    assert Left(rules, [], rs) == FileBytes(rules, rs);
  }

  /** loadFromFile with its local variables. */
  class Loader {
    const ifs: Stream
    const className: string
    var found: bool
    var columnIndex: nat
    var fieldMeta: FieldMeta
    var table: string
    var fields: seq<FieldMeta>
    var indices: map<string, Index>
    var position: map<string, nat>

    constructor (stream: Stream, name: string)
      ensures ifs == stream && className == name && !found && columnIndex == 0 && IsBlank(fieldMeta)
      ensures Loaded(table, fields, position, indices) == NOTHING
    {
      ifs, className, found, columnIndex := stream, name, false, 0;
      fieldMeta := FieldMeta("", "", None, None, "", false, false, false, false, "", NO_INDEX, false);
      table, fields, indices, position := "", [], map[], map[];
    }

    function SoFar(): Loaded
      reads this
    {
      Loaded(table, fields, position, indices)
    }

    /** Between two items: reading on will end with `goal`. */
    ghost predicate Inv(rules: Rules, body: seq<Item>, left: seq<Record>, goal: Loaded)
      reads this
    {
      && AllFit(rules, body) && RecordsShort(rules, left)
      && (!found ==> body == [] && SoFar() == NOTHING)
      && columnIndex == |fields| && IsBlank(fieldMeta)
      && Outcome(rules, found, SoFar(), body, left, className) == goal
    }

    /** A header: of another model, whose record is skipped, or of the one that is looked for. */
    method OnHeader(ghost rules: Rules, ghost left: seq<Record>, ghost goal: Loaded)
      returns (ghost body: seq<Item>)
      requires Inv(rules, [], left, goal) && left != [] && !found
      requires [HEADER_MARKER] + ifs.Rest() == Left(rules, [], left)
      modifies this, ifs
      ensures Inv(rules, body, left[1..], goal) && ifs.Rest() == Left(rules, body, left[1..])
    {
      LeftRecord(rules, left);
      ghost var r := left[0];
      ghost var len := |BodyBytes(rules, r.items)|;
      assert RecordShort(rules, r);
      var readClass, readTable, readLen :=
        ParseHeader(ifs, r.className, r.table, len, Left(rules, r.items, left[1..]));
      if readClass != className {
        Prefix(BodyBytes(rules, r.items), FileBytes(rules, left[1..]));
        ifs.Skip(readLen);
        body := [];
      } else {
        table := readTable;
        found := true;
        body := r.items;
      }
    }

    method OnColumn(ghost rules: Rules, ghost body: seq<Item>, ghost left: seq<Record>, ghost goal: Loaded)
      requires Inv(rules, body, left, goal) && body != [] && body[0].ColumnItem?
      requires [COLUMN_MARKER] + ifs.Rest() == Left(rules, body, left)
      modifies this, ifs
      ensures Inv(rules, body[1..], left, goal) && ifs.Rest() == Left(rules, body[1..], left)
      ensures found
    {
      LeftBody(rules, body, left);
      var f := ParseColumnField(ifs, fieldMeta, rules, body[0].f, Left(rules, body[1..], left));
      position := position[f.columnName.value := columnIndex];
      columnIndex := columnIndex + 1;
      fields := fields + [f];
      fieldMeta := MovedFrom(f);
    }

    method OnIndex(ghost rules: Rules, ghost body: seq<Item>, ghost left: seq<Record>, ghost goal: Loaded)
      requires Inv(rules, body, left, goal) && body != [] && body[0].IndexItem?
      requires [INDEX_MARKER] + ifs.Rest() == Left(rules, body, left)
      modifies this, ifs
      ensures Inv(rules, body[1..], left, goal) && ifs.Rest() == Left(rules, body[1..], left)
      ensures found
    {
      LeftBody(rules, body, left);
      var index := ParseIndexField(ifs, body[0].i, Left(rules, body[1..], left));
      indices := indices[index.name := index];
    }

    /** State PARSE_FIELD: the marker has been read and tells what comes. */
    method OnField(marker: char, ghost rules: Rules, ghost body: seq<Item>, ghost left: seq<Record>, ghost goal: Loaded)
      returns (state: State, ghost body': seq<Item>, ghost left': seq<Record>)
      requires Inv(rules, body, left, goal) && [marker] + ifs.Rest() == Left(rules, body, left)
      modifies this, ifs
      ensures state.ParseMarker? || state.ParseSuccess?
      ensures state.ParseMarker? ==> Inv(rules, body', left', goal) && ifs.Rest() == Left(rules, body', left')
      ensures state.ParseMarker? ==> |left'| < |left| || (left' == left && |body'| < |body|)
      ensures state.ParseSuccess? ==> SoFar() == goal && body' == body && left' == left
    {
      body', left' := body, left;
      FirstMarker(rules, body, left, marker, ifs.Rest());
      if marker == HEADER_MARKER {
        if found { return ParseSuccess, body, left; }
        body' := OnHeader(rules, left, goal);
        left' := left[1..];
        state := ParseMarker;
      } else if marker == COLUMN_MARKER {
        OnColumn(rules, body, left, goal);
        body' := body[1..];
        state := ParseMarker;
      } else if marker == INDEX_MARKER {
        OnIndex(rules, body, left, goal);
        body' := body[1..];
        state := ParseMarker;
      } else {
        state := ParseFailed;
      }
    }

    /** What holds in each state. */
    ghost predicate Ready(state: State, marker: char, rules: Rules, body: seq<Item>, left: seq<Record>, goal: Loaded)
      reads this, ifs
    {
      match state
      case ParseMarker => Inv(rules, body, left, goal) && ifs.Rest() == Left(rules, body, left)
      case ParseField => Inv(rules, body, left, goal) && [marker] + ifs.Rest() == Left(rules, body, left)
      case ParseSuccess => SoFar() == goal
      case ParseFailed => false
    }

    /** One turn of the loop. */
    method Turn(state: State, marker: char, ghost rules: Rules, ghost body: seq<Item>, ghost left: seq<Record>,
                ghost goal: Loaded)
      returns (state': State, marker': char, ghost body': seq<Item>, ghost left': seq<Record>)
      requires Ready(state, marker, rules, body, left, goal) && !state.ParseSuccess?
      modifies this, ifs
      ensures Ready(state', marker', rules, body', left', goal)
      ensures |left'| < |left| || (left' == left && Measure(state', body') < Measure(state, body))
    {
      body', left', marker' := body, left, marker;
      if state.ParseMarker? {
        var more;
        more, marker' := ParseMarkerByte(ifs);
        if more {
          state' := ParseField;
        } else {
          NothingLeft(rules, body, left);
          state' := ParseSuccess;
        }
      } else {
        state', body', left' := OnField(marker, rules, body, left, goal);
      }
    }

    /** The state machine, on a file that saveModel has written. */
    method Load(ghost rules: Rules, ghost rs: seq<Record>)
      requires Ready(ParseMarker, '\0', rules, [], rs, FindRecord(rules, rs, className))
      modifies this, ifs
      ensures SoFar() == FindRecord(rules, rs, className)
    {
      var state := ParseMarker;
      var marker := '\0';
      ghost var body: seq<Item>, left := [], rs;
      ghost var goal := FindRecord(rules, rs, className);
      while !state.ParseFailed? && !state.ParseSuccess?
        invariant Ready(state, marker, rules, body, left, goal)
        decreases |left|, Measure(state, body)
      {
        state, marker, body, left := Turn(state, marker, rules, body, left, goal);
      }
    }
  }

  ghost function Measure(state: State, body: seq<Item>): nat {
    2 * |body| + match state case ParseMarker => 2 case ParseField => 1 case _ => 0
  }

  /** parseMarker. */
  method ParseMarkerByte(ifs: Stream) returns (more: bool, marker: char)
    modifies ifs
    ensures more <==> old(ifs.Rest()) != ""
    ensures more ==> [marker] + ifs.Rest() == old(ifs.Rest())
  {
    var s := ifs.Read(1);
    more := |s| == 1;
    marker := if more then s[0] else '\0';
  }

  /** loadFromFile. */
  method LoadFromFile(ifs: Stream, className: string, ghost rules: Rules, ghost rs: seq<Record>) returns (l: Loaded)
    requires RecordsShort(rules, rs) && RecordsFit(rules, rs) && ifs.Rest() == FileBytes(rules, rs)
    modifies ifs
    ensures l == FindRecord(rules, rs, className)
  {
    var loader := new Loader(ifs, className);
    assert Left(rules, [], rs) == FileBytes(rules, rs);
    loader.Load(rules, rs);
    l := loader.SoFar();
  }

  lemma NothingLeft(rules: Rules, body: seq<Item>, rs: seq<Record>)
    requires AllFit(rules, body) && RecordsShort(rules, rs) && Left(rules, body, rs) == ""
    ensures body == [] && rs == []
  {
    if body != [] {
      LeftBody(rules, body, rs);
    } else if rs != [] {
      LeftRecord(rules, rs);
    }
  }

  /** The first byte tells what comes next. */
  lemma FirstMarker(rules: Rules, body: seq<Item>, rs: seq<Record>, marker: char, rest: string)
    requires AllFit(rules, body) && RecordsShort(rules, rs) && Left(rules, body, rs) == [marker] + rest
    ensures body != [] ==> marker == if body[0].ColumnItem? then COLUMN_MARKER else INDEX_MARKER
    ensures body == [] ==> rs != [] && marker == HEADER_MARKER
  {
    assert ([marker] + rest)[0] == marker;
    if body != [] {
      LeftBody(rules, body, rs);
      assert ItemBytes(rules, body[0])[0] == if body[0].ColumnItem? then COLUMN_MARKER else INDEX_MARKER;
    } else {
      LeftRecord(rules, rs);
    }
  }
}
