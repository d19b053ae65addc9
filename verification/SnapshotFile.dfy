/** Writing and reading the snapshot file, byte by byte. */
module SnapshotFile {
  import opened Text
  import opened Schema
  import opened ByteArrays
  import opened Snapshot

  // ---------------------------------------------------------------- encoders

  method EncodeHeader(className: string, table: string, modelLen: nat) returns (arr: ByteArray)
    requires HeaderFits(className, table)
    ensures fresh(arr) && arr.buf[..] == HeaderBytes(className, table, modelLen)
  {
    var headerLen := |className| + |table| + 5;
    arr := new ByteArray(headerLen + 1);
    arr.AppendChar(HEADER_MARKER);
    arr.Append(Short(modelLen));
    arr.AppendChar(Byte(headerLen));
    AppendNames(arr, table, className);
  }

  /** One length byte for the table name, a bar and the class name. */
  method AppendNames(arr: ByteArray, table: string, className: string)
    requires HeaderFits(className, table) && arr.wp + |table| + |className| + 2 <= arr.buf.Length
    modifies arr, arr.buf
    ensures arr.wp == old(arr.wp) + |table| + |className| + 2
    ensures arr.Written() == old(arr.Written()) + Counted(table + ['|'] + className)
  {
    arr.AppendChar(Byte(|className| + |table| + 1));
    arr.Append(table);
    arr.Append(['|']);
    arr.Append(className);
  }

  method AppendCounted(arr: ByteArray, s: string)
    requires |s| <= MAX_CHAR && arr.wp + |s| < arr.buf.Length
    modifies arr, arr.buf
    ensures arr.wp == old(arr.wp) + |s| + 1 && arr.Written() == old(arr.Written()) + Counted(s)
  {
    arr.AppendChar(Byte(|s|));
    arr.Append(s);
  }

  method EncodeColumn(rules: Rules, f: FieldMeta) returns (arr: ByteArray)
    requires FieldFits(rules, f)
    ensures fresh(arr) && arr.buf[..] == ColumnBytes(rules, f)
  {
    var columnId, dataType := ColumnId(f), DataType(rules, f);
    arr := new ByteArray(2 + |columnId| + 1 + |dataType| + 2 + |f.defaultValue| + 1 + |f.extra|);
    arr.AppendChar(COLUMN_MARKER);
    AppendCounted(arr, columnId);
    AppendCounted(arr, dataType);
    AppendDetails(arr, f);
  }

  method AppendDetails(arr: ByteArray, f: FieldMeta)
    requires |f.defaultValue| <= MAX_CHAR && |f.extra| <= MAX_CHAR
    requires arr.wp + |f.defaultValue| + |f.extra| + 3 <= arr.buf.Length
    modifies arr, arr.buf
    ensures arr.wp == old(arr.wp) + |f.defaultValue| + |f.extra| + 3
    ensures arr.Written() == old(arr.Written()) + [Byte(Flags(f))] + Counted(f.defaultValue) + Counted(f.extra)
  {
    arr.AppendChar(Byte(Flags(f)));
    AppendCounted(arr, f.defaultValue);
    AppendCounted(arr, f.extra);
  }

  method EncodeIndex(i: Index) returns (arr: ByteArray)
    requires IndexFits(i)
    ensures fresh(arr) && arr.buf[..] == IndexBytes(i)
  {
    var columns := "";
    for c := 0 to |i.columns|
      invariant columns == Join(i.columns[..c], '|')
    {
      JoinOneMore(i.columns[..c], i.columns[c]);
      assert i.columns[..c + 1] == i.columns[..c] + [i.columns[c]];
      if c > 0 { columns := columns + ['|']; }
      columns := columns + i.columns[c];
    }
    assert i.columns[..|i.columns|] == i.columns;
    arr := new ByteArray(2 + 1 + |i.name| + 1 + |columns|);
    arr.Append([INDEX_MARKER, KindByte(i.kind)]);
    AppendCounted(arr, i.name);
    AppendCounted(arr, columns);
    assert [INDEX_MARKER, KindByte(i.kind)] == [INDEX_MARKER] + [KindByte(i.kind)];
  }

  lemma {:induction false} JoinOneMore(parts: seq<string>, last: string)
    ensures Join(parts + [last], '|') == (if parts == [] then "" else Join(parts, '|') + ['|']) + last
  {
    if |parts| > 1 {
      assert (parts + [last])[1..] == parts[1..] + [last];
      JoinOneMore(parts[1..], last);
    } else if |parts| == 1 {
      assert (parts + [last])[1..] == [last];
    }
  }

  // ---------------------------------------------------------------- saving

  function ColumnItems(fields: seq<FieldMeta>): seq<Item> {
    seq(|fields|, k requires 0 <= k < |fields| => ColumnItem(fields[k]))
  }

  function IndexItems(order: seq<Index>): seq<Item> {
    seq(|order|, k requires 0 <= k < |order| => IndexItem(order[k]))
  }

  /** The values of the map, each once, in some order. */
  ghost predicate Enumerates(order: seq<Index>, indices: map<string, Index>) {
    && (forall k | 0 <= k < |order| :: order[k].name in indices && indices[order[k].name] == order[k])
    && (forall j, k | 0 <= j < k < |order| :: order[j].name != order[k].name)
    && (forall n | n in indices :: exists k | 0 <= k < |order| :: order[k].name == n)
  }

  /** The items a model may be saved as: its columns, then its indexes in any order. */
  ghost predicate IsBodyOf(items: seq<Item>, fields: seq<FieldMeta>, indices: map<string, Index>) {
    exists order :: Enumerates(order, indices) && items == ColumnItems(fields) + IndexItems(order)
  }

  predicate AllFieldsFit(rules: Rules, fields: seq<FieldMeta>) {
    forall k | 0 <= k < |fields| :: FieldFits(rules, fields[k])
  }

  ghost predicate ModelFits(rules: Rules, className: string, table: string, fields: seq<FieldMeta>,
                            indices: map<string, Index>)
  {
    && HeaderFits(className, table)
    && AllFieldsFit(rules, fields)
    && (forall n | n in indices :: indices[n].name == n && IndexFits(indices[n]))
  }

  /** The output file, opened for appending. */
  class ModelFile {
    var data: string

    constructor ()
      ensures data == ""
    {
      data := "";
    }

    method Truncate()
      modifies this
      ensures data == ""
    {
      data := "";
    }

    method Write(bytes: string)
      modifies this
      ensures data == old(data) + bytes
    {
      data := data + bytes;
    }

    /** saveModel: encodes columns and indexes, adds up their lengths, and writes header and body. */
    method SaveModel(rules: Rules, className: string, table: string, fields: seq<FieldMeta>,
                     indices: map<string, Index>)
      returns (ghost record: Record)
      requires ModelFits(rules, className, table, fields, indices)
      modifies this
      ensures record.className == className && record.table == table
      ensures IsBodyOf(record.items, fields, indices) && RecordFits(rules, record)
      ensures data == old(data) + RecordBytes(rules, record)
    {
      var cols, inds, modelLen;
      ghost var items;
      cols, inds, modelLen, items := EncodeBody(rules, fields, indices);
      var headerData := EncodeHeader(className, table, modelLen);
      record := Record(className, table, items);
      RecordOf(rules, record, headerData.buf[..], Concat(cols), Concat(inds));
      ThreeParts(data, headerData.buf[..], Concat(cols), Concat(inds));
      Write(headerData.buf[..]);
      WriteAll(cols);
      WriteAll(inds);
    }

    method WriteAll(arrays: seq<string>)
      modifies this
      ensures data == old(data) + Concat(arrays)
    {
      for k := 0 to |arrays|
        invariant data + Concat(arrays[k..]) == old(data) + Concat(arrays)
      {
        ConcatNext(data, arrays, k);
        Write(arrays[k]);
      }
    }
  }

  /** The first two loops of saveModel. */
  method EncodeBody(rules: Rules, fields: seq<FieldMeta>, indices: map<string, Index>)
    returns (cols: seq<string>, inds: seq<string>, modelLen: nat, ghost items: seq<Item>)
    requires AllFieldsFit(rules, fields)
    requires forall n | n in indices :: indices[n].name == n && IndexFits(indices[n])
    ensures IsBodyOf(items, fields, indices) && AllFit(rules, items)
    ensures BodyBytes(rules, items) == Concat(cols) + Concat(inds)
    ensures modelLen == |Concat(cols)| + |Concat(inds)|
  {
    cols, modelLen := EncodeColumns(rules, fields);
    var indsLen;
    ghost var order;
    inds, indsLen, order := EncodeIndexes(rules, indices);
    items := ColumnItems(fields) + IndexItems(order);
    BodyConcat(rules, ColumnItems(fields), IndexItems(order));
    modelLen := modelLen + indsLen;
  }

  lemma RecordOf(rules: Rules, record: Record, header: string, cols: string, inds: string)
    requires RecordFits(rules, record) && BodyBytes(rules, record.items) == cols + inds
    requires header == HeaderBytes(record.className, record.table, |cols| + |inds|)
    ensures RecordBytes(rules, record) == header + (cols + inds)
  {
  }

  lemma ThreeParts(data: string, header: string, cols: string, inds: string)
    ensures data + (header + (cols + inds)) == data + header + cols + inds
  {
  }

  lemma ConcatNext(front: string, arrays: seq<string>, k: nat)
    requires k < |arrays|
    ensures front + Concat(arrays[k..]) == front + arrays[k] + Concat(arrays[k + 1..])
  {
    assert arrays[k..][1..] == arrays[k + 1..];
  }

  lemma BodyConcat(rules: Rules, a: seq<Item>, b: seq<Item>)
    requires AllFit(rules, a) && AllFit(rules, b)
    ensures AllFit(rules, a + b)
    ensures BodyBytes(rules, a + b) == BodyBytes(rules, a) + BodyBytes(rules, b)
  {
    assert BodyChunks(rules, a + b) == BodyChunks(rules, a) + BodyChunks(rules, b);
    ConcatConcat(BodyChunks(rules, a), BodyChunks(rules, b));
  }

  method EncodeColumns(rules: Rules, fields: seq<FieldMeta>) returns (cols: seq<string>, len: nat)
    requires AllFieldsFit(rules, fields)
    ensures AllFit(rules, ColumnItems(fields))
    ensures cols == BodyChunks(rules, ColumnItems(fields)) && len == |Concat(cols)|
  {
    cols, len := [], 0;
    for k := 0 to |fields|
      invariant |cols| == k && len == |Concat(cols)|
      invariant forall j | 0 <= j < k :: cols[j] == ColumnBytes(rules, fields[j])
    {
      var arr := EncodeColumn(rules, fields[k]);
      ConcatAppend(cols, arr.buf[..]);
      cols := cols + [arr.buf[..]];
      len := len + arr.buf.Length;
    }
    ColumnChunks(rules, fields, cols);
  }

  lemma ColumnChunks(rules: Rules, fields: seq<FieldMeta>, cols: seq<string>)
    requires AllFieldsFit(rules, fields) && |cols| == |fields|
    requires forall j | 0 <= j < |cols| :: cols[j] == ColumnBytes(rules, fields[j])
    ensures AllFit(rules, ColumnItems(fields)) && cols == BodyChunks(rules, ColumnItems(fields))
  {
  }

  predicate AllIndexesFit(order: seq<Index>) {
    forall k | 0 <= k < |order| :: IndexFits(order[k])
  }

  lemma IndexChunks(rules: Rules, order: seq<Index>, inds: seq<string>)
    requires AllIndexesFit(order) && |inds| == |order|
    requires forall j | 0 <= j < |inds| :: inds[j] == IndexBytes(order[j])
    ensures AllFit(rules, IndexItems(order)) && inds == BodyChunks(rules, IndexItems(order))
  {
  }

  /** Visits a hash map, so the order is arbitrary. */
  method EncodeIndexes(rules: Rules, indices: map<string, Index>)
    returns (inds: seq<string>, len: nat, ghost order: seq<Index>)
    requires forall n | n in indices :: indices[n].name == n && IndexFits(indices[n])
    ensures Enumerates(order, indices) && AllFit(rules, IndexItems(order))
    ensures inds == BodyChunks(rules, IndexItems(order)) && len == |Concat(inds)|
  {
    inds, len, order := [], 0, [];
    var rest := indices.Keys;
    while rest != {}
      invariant rest <= indices.Keys
      invariant Enumerates(order, indices - rest) && AllIndexesFit(order)
      invariant |inds| == |order| && len == |Concat(inds)|
      invariant forall j | 0 <= j < |inds| :: inds[j] == IndexBytes(order[j])
      decreases rest
    {
      var n :| n in rest;
      var arr := EncodeIndex(indices[n]);
      ConcatAppend(inds, arr.buf[..]);
      EnumeratesMore(order, indices, rest, n);
      inds := inds + [arr.buf[..]];
      len := len + arr.buf.Length;
      order := order + [indices[n]];
      rest := rest - {n};
    }
    assert indices - {} == indices;
    IndexChunks(rules, order, inds);
  }

  lemma EnumeratesMore(order: seq<Index>, indices: map<string, Index>, rest: set<string>, n: string)
    requires rest <= indices.Keys && n in rest && indices[n].name == n && Enumerates(order, indices - rest)
    ensures Enumerates(order + [indices[n]], indices - (rest - {n}))
  {
    var more, left := order + [indices[n]], indices - (rest - {n});
    forall m | m in left ensures exists k | 0 <= k < |more| :: more[k].name == m {
      if m == n {
        assert more[|order|].name == m;
      } else {
        assert m in indices - rest;
        var k :| 0 <= k < |order| && order[k].name == m;
        assert more[k].name == m;
      }
    }
  }
}
