/** The snapshot file: the metadata of every model, as written after a migration and read before the next. */
module Snapshot {
  import opened Basics
  import opened Text
  import opened Schema
  import opened Migration

  const HEADER_MARKER := 0xFC as char
  const COLUMN_MARKER := 0xFD as char
  const INDEX_MARKER := 0xFE as char

  // A byte of the file is a character with a code below 256; "char" is signed and "short" has two bytes.
  const MAX_CHAR := 127
  const MAX_SHORT := 32767

  // ---------------------------------------------------------------- the format

  function Byte(n: nat): char
    requires n < 256
  {
    n as char
  }

  /** A short as it lies in memory, low byte first; what does not fit is cut off. */
  function Short(n: nat): string {
    [Byte(n % 256), Byte(n / 256 % 256)]
  }

  function Bit(b: bool): nat { if b then 1 else 0 }

  function Flags(f: FieldMeta): nat {
    Bit(f.isPk) * 8 + Bit(f.autoInc) * 4 + Bit(f.hasIndex) * 2 + Bit(f.notNull)
  }

  function ColumnId(f: FieldMeta): string { f.ColumnName() + ['|'] + f.fieldName }

  function DataType(rules: Rules, f: FieldMeta): string { f.ColumnType(rules) + ['|'] + f.cppType }

  /** A part of a text that is cut at "|" again when it is read. */
  predicate IsPart(s: string) { s != "" && Free(s, {'|'}) }

  predicate HeaderFits(className: string, table: string) {
    IsPart(className) && IsPart(table) && |className| + |table| + 5 <= MAX_CHAR
  }

  predicate FieldFits(rules: Rules, f: FieldMeta) {
    && IsPart(f.ColumnName()) && IsPart(f.fieldName) && |ColumnId(f)| <= MAX_CHAR
    && IsPart(f.ColumnType(rules)) && IsPart(f.cppType) && |DataType(rules, f)| <= MAX_CHAR
    && |f.defaultValue| <= MAX_CHAR && |f.extra| <= MAX_CHAR
  }

  predicate IndexFits(i: Index) {
    && (forall c | 0 <= c < |i.columns| :: IsPart(i.columns[c]))
    && |i.name| + |Join(i.columns, '|')| + 4 <= MAX_CHAR
  }

  /** Length byte and text. */
  function Counted(s: string): string
    requires |s| <= MAX_CHAR
  {
    [Byte(|s|)] + s
  }

  function HeaderFront(className: string, table: string, modelLen: nat): string
    requires HeaderFits(className, table)
  {
    [HEADER_MARKER] + Short(modelLen) + [Byte(|className| + |table| + 5)]
  }

  function HeaderBytes(className: string, table: string, modelLen: nat): string
    requires HeaderFits(className, table)
  {
    HeaderFront(className, table, modelLen) + Counted(table + ['|'] + className)
  }

  function ColumnBytes(rules: Rules, f: FieldMeta): string
    requires FieldFits(rules, f)
  {
    [COLUMN_MARKER] + Counted(ColumnId(f)) + Counted(DataType(rules, f)) + [Byte(Flags(f))]
    + Counted(f.defaultValue) + Counted(f.extra)
  }

  function KindByte(k: IndexKind): char {
    match k case Unique => Byte(0) case Multiple => Byte(1) case Primary => Byte(2)
  }

  function IndexBytes(i: Index): string
    requires IndexFits(i)
  {
    [INDEX_MARKER] + [KindByte(i.kind)] + Counted(i.name) + Counted(Join(i.columns, '|'))
  }

  // ---------------------------------------------------------------- records

  datatype Item = ColumnItem(f: FieldMeta) | IndexItem(i: Index)

  predicate ItemFits(rules: Rules, item: Item) {
    match item case ColumnItem(f) => FieldFits(rules, f) case IndexItem(i) => IndexFits(i)
  }

  predicate AllFit(rules: Rules, items: seq<Item>) {
    forall k | 0 <= k < |items| :: ItemFits(rules, items[k])
  }

  function ItemBytes(rules: Rules, item: Item): string
    requires ItemFits(rules, item)
  {
    match item case ColumnItem(f) => ColumnBytes(rules, f) case IndexItem(i) => IndexBytes(i)
  }

  function BodyChunks(rules: Rules, items: seq<Item>): seq<string>
    requires AllFit(rules, items)
  {
    seq(|items|, k requires 0 <= k < |items| => ItemBytes(rules, items[k]))
  }

  function BodyBytes(rules: Rules, items: seq<Item>): string
    requires AllFit(rules, items)
  {
    Concat(BodyChunks(rules, items))
  }

  /** One model in the file; its indexes come in the order in which their hash map was visited. */
  datatype Record = Record(className: string, table: string, items: seq<Item>)

  /** The record can be written. */
  predicate RecordFits(rules: Rules, r: Record) {
    HeaderFits(r.className, r.table) && AllFit(rules, r.items)
  }

  /** Its length comes back as it was, so that a reader can skip it. */
  predicate RecordShort(rules: Rules, r: Record) {
    RecordFits(rules, r) && |BodyBytes(rules, r.items)| <= MAX_SHORT
  }

  predicate RecordsFit(rules: Rules, rs: seq<Record>) {
    forall k | 0 <= k < |rs| :: RecordFits(rules, rs[k])
  }

  function RecordBytes(rules: Rules, r: Record): string
    requires RecordFits(rules, r)
  {
    HeaderBytes(r.className, r.table, |BodyBytes(rules, r.items)|) + BodyBytes(rules, r.items)
  }

  function FileChunks(rules: Rules, rs: seq<Record>): seq<string>
    requires RecordsFit(rules, rs)
  {
    seq(|rs|, k requires 0 <= k < |rs| => RecordBytes(rules, rs[k]))
  }

  function FileBytes(rules: Rules, rs: seq<Record>): string
    requires RecordsFit(rules, rs)
  {
    Concat(FileChunks(rules, rs))
  }

  // ---------------------------------------------------------------- what reading gives

  /** A column as it comes back: names and types are explicit, and nothing else is set. */
  function LoadedField(rules: Rules, f: FieldMeta): FieldMeta {
    FieldMeta(f.fieldName, f.cppType, Some(f.ColumnType(rules)), Some(f.ColumnName()), f.extra,
              f.isPk, f.autoInc, f.hasIndex, f.notNull, f.defaultValue, NO_INDEX, false)
  }

  function Absorbed(rules: Rules, l: Loaded, item: Item): Loaded {
    match item
    case ColumnItem(f) =>
      l.(fields := l.fields + [LoadedField(rules, f)], position := l.position[f.ColumnName() := |l.fields|])
    case IndexItem(i) =>
      l.(indices := l.indices[i.name := i])
  }

  function AllAbsorbed(rules: Rules, l: Loaded, items: seq<Item>): Loaded
    decreases |items|
  {
    if items == [] then l else AllAbsorbed(rules, Absorbed(rules, l, items[0]), items[1..])
  }

  function LoadedRecord(rules: Rules, r: Record): Loaded {
    AllAbsorbed(rules, NOTHING.(table := r.table), r.items)
  }

  /** The first record of the class, or nothing. */
  function FindRecord(rules: Rules, rs: seq<Record>, className: string): Loaded {
    if rs == [] then NOTHING
    else if rs[0].className == className then LoadedRecord(rules, rs[0])
    else FindRecord(rules, rs[1..], className)
  }

  // ---------------------------------------------------------------- the format, byte by byte

  /** Marker, two bytes of length, the length of the rest, and the table and the class with a bar between them. */
  lemma HeaderLayout(className: string, table: string, modelLen: nat)
    requires HeaderFits(className, table) && modelLen <= MAX_SHORT
    ensures var b, names := HeaderBytes(className, table, modelLen), table + ['|'] + className;
      && |b| == 5 + |names| && b[0] as int == 0xFC && b[1] as int + 256 * b[2] as int == modelLen
      && b[3] as int == |b| - 1 && b[4] as int == |names| && b[5..] == names
  {
    var b, names := HeaderBytes(className, table, modelLen), table + ['|'] + className;
    assert b == [HEADER_MARKER, Short(modelLen)[0], Short(modelLen)[1], Byte(|className| + |table| + 5), Byte(|names|)]
                + names;
  }

  /** The part is there, with its length in front. */
  predicate HasPart(b: string, start: nat, part: string) {
    start + 1 + |part| <= |b| && b[start] as int == |part| && b[start + 1..start + 1 + |part|] == part
  }

  lemma CountedPart(front: string, part: string, rest: string)
    requires |part| <= MAX_CHAR
    ensures HasPart(front + Counted(part) + rest, |front|, part)
  {
    var b := front + Counted(part) + rest;
    assert b[|front|..|front| + 1 + |part|] == Counted(part);
  }

  /** Marker, and five parts: name and variable, both types, four flags in one byte, the default, and the extra text. */
  lemma ColumnLayout(rules: Rules, f: FieldMeta)
    requires FieldFits(rules, f)
    ensures var b := ColumnBytes(rules, f);
            var names, types := f.ColumnName() + ['|'] + f.fieldName, f.ColumnType(rules) + ['|'] + f.cppType;
            var flags := 3 + |names| + |types|;
            var extra := flags + 2 + |f.defaultValue|;
      && |b| == extra + 1 + |f.extra| && b[0] as int == 0xFD
      && HasPart(b, 1, names) && HasPart(b, 2 + |names|, types)
      && FlagsAre(b[flags] as int, f.isPk, f.autoInc, f.hasIndex, f.notNull)
      && HasPart(b, flags + 1, f.defaultValue) && HasPart(b, extra, f.extra)
  {
    FrontLayout(rules, f);
    BackLayout(rules, f);
    FlagsSpread(f);
  }

  lemma FrontLayout(rules: Rules, f: FieldMeta)
    requires FieldFits(rules, f)
    ensures var b := ColumnBytes(rules, f);
      b[0] as int == 0xFD && HasPart(b, 1, ColumnId(f)) && HasPart(b, 2 + |ColumnId(f)|, DataType(rules, f))
  {
    var b, a, t := ColumnBytes(rules, f), Counted(ColumnId(f)), Counted(DataType(rules, f));
    var rest := [Byte(Flags(f))] + Counted(f.defaultValue) + Counted(f.extra);
    CountedPart([COLUMN_MARKER], ColumnId(f), t + rest);
    CountedPart([COLUMN_MARKER] + a, DataType(rules, f), rest);
    Grouped([COLUMN_MARKER], a, t, [Byte(Flags(f))], Counted(f.defaultValue), Counted(f.extra));
  }

  lemma Grouped(m: string, a: string, t: string, flags: string, d: string, e: string)
    ensures m + a + t + flags + d + e == m + a + (t + (flags + d + e))
    ensures m + a + t + flags + d + e == m + a + t + (flags + d + e)
  {
  }

  lemma BackLayout(rules: Rules, f: FieldMeta)
    requires FieldFits(rules, f)
    ensures var b, flags := ColumnBytes(rules, f), 3 + |ColumnId(f)| + |DataType(rules, f)|;
            var extra := flags + 2 + |f.defaultValue|;
      && |b| == extra + 1 + |f.extra| && b[flags] as int == Flags(f)
      && HasPart(b, flags + 1, f.defaultValue) && HasPart(b, extra, f.extra)
  {
    var front := [COLUMN_MARKER] + Counted(ColumnId(f)) + Counted(DataType(rules, f)) + [Byte(Flags(f))];
    var b, d, e := ColumnBytes(rules, f), Counted(f.defaultValue), Counted(f.extra);
    CountedPart(front, f.defaultValue, e);
    CountedPart(front + d, f.extra, "");
    assert b == front + d + e && front + d + e + "" == b;
    assert b[|front| - 1] == front[|front| - 1];
  }

  /** The bits 3, 2, 1 and 0. */
  predicate FlagsAre(n: int, isPk: bool, autoInc: bool, hasIndex: bool, notNull: bool) {
    && (n / 8 % 2 == 1 <==> isPk) && (n / 4 % 2 == 1 <==> autoInc)
    && (n / 2 % 2 == 1 <==> hasIndex) && (n % 2 == 1 <==> notNull) && 0 <= n < 16
  }

  lemma FlagsSpread(f: FieldMeta)
    ensures FlagsAre(Flags(f), f.isPk, f.autoInc, f.hasIndex, f.notNull)
  {
  }

  /** Marker, kind, name, and the columns with bars between them. */
  lemma IndexLayout(i: Index)
    requires IndexFits(i)
    ensures var b, columns := IndexBytes(i), Join(i.columns, '|');
      && |b| == 4 + |i.name| + |columns| && b[0] as int == 0xFE
      && b[1] as int == (match i.kind case Unique => 0 case Multiple => 1 case Primary => 2)
      && b[2] as int == |i.name| && b[3..3 + |i.name|] == i.name
      && b[3 + |i.name|] as int == |columns| && b[4 + |i.name|..] == columns
  {
    var b, columns := IndexBytes(i), Join(i.columns, '|');
    assert b == [INDEX_MARKER, KindByte(i.kind), Byte(|i.name|)] + i.name + [Byte(|columns|)] + columns;
  }
}
