/** The text of a column's tags: how the generator prints it and how a model class parses it. */
module Tags {
  import opened Basics
  import opened Text
  import opened Schema

  // ---------------------------------------------------------------- parsing

  predicate IsPkWord(w: string) { w == "pk" || w == "primary_key" || w == "primary key" }

  predicate IsAutoWord(w: string) { w == "auto_increment" || w == "auto increment" }

  predicate IsKeyword(w: string) {
    IsPkWord(w) || IsAutoWord(w) || w == "ignore" || w == "index" || w == "unique" || w == "not" || w == "default"
  }

  function WithIndex(f: FieldMeta, kind: IndexKind): FieldMeta {
    f.(hasIndex := true, index := Index(kind, f.index.name, f.index.columns + [f.ColumnName()]))
  }

  /** One lower-case word that does not follow "default". */
  function ApplyKeyword(f: FieldMeta, w: string): FieldMeta {
    if IsPkWord(w) then WithIndex(f, Primary).(isPk := true)
    else if IsAutoWord(w) then f.(autoInc := true)
    else if w == "ignore" then f.(ignored := true)
    else if w == "index" then WithIndex(f, Multiple)
    else if w == "unique" then WithIndex(f, Unique)
    else if w == "not" || w == "default" then f
    else f.(extra := f.extra + (if f.extra != "" then " " else "") + w)
  }

  /** The words of one tag without "=". */
  function ApplyWords(f: FieldMeta, words: seq<string>, checkNotNull: bool, checkDefault: bool): FieldMeta
    decreases |words|
  {
    if words == [] then f
    else if checkDefault then ApplyWords(f.(defaultValue := words[0]), words[1..], checkNotNull, true)
    else
      var w := ToLower(words[0]);
      if checkNotNull && w == "null" then ApplyWords(f.(notNull := true), words[1..], false, false)
      else ApplyWords(ApplyKeyword(f, w), words[1..], checkNotNull || w == "not", w == "default")
  }

  /** One tag between commas. */
  function ApplyTag(f: FieldMeta, tag: string): FieldMeta {
    var eq := FirstOf(tag, {'='});
    if eq < |tag| then
      var k := ToLower(Strip(tag[..eq]));
      if k == "name" then f.(columnName := Some(Strip(tag[eq + 1..])))
      else if k == "type" then f.(columnType := Some(Strip(tag[eq + 1..])))
      else f
    else
      ApplyWords(f, Split(Strip(tag), {' '}), false, false)
  }

  function ApplyTags(f: FieldMeta, tags: seq<string>): FieldMeta
    decreases |tags|
  {
    if tags == [] then f else ApplyTags(ApplyTag(f, tags[0]), tags[1..])
  }

  function Finished(f: FieldMeta): FieldMeta {
    f.(ignored := (f.isPk && f.autoInc) || f.ignored, notNull := f.isPk || f.notNull)
  }

  function NewField(fieldName: string, cppType: string): FieldMeta {
    FieldMeta(fieldName, cppType, None, None, "", false, false, false, false, "", NO_INDEX, false)
  }

  function ParsedField(fieldName: string, cppType: string, tag: string): FieldMeta {
    Finished(ApplyTags(NewField(fieldName, cppType), Split(Strip(tag), {','})))
  }

  /** The constructor of FieldMeta from a variable, its type and its tag. */
  method ParseField(fieldName: string, cppType: string, tag: string) returns (f: FieldMeta)
    ensures f == ParsedField(fieldName, cppType, tag)
  {
    f := NewField(fieldName, cppType);
    var stripped := StripText(tag);
    var tags := SplitText(stripped, {','});
    for i := 0 to |tags|
      invariant ApplyTags(f, tags[i..]) == ApplyTags(NewField(fieldName, cppType), tags)
    {
      assert tags[i..][1..] == tags[i + 1..];
      var eq := FirstOf(tags[i], {'='});
      if eq < |tags[i]| {
        var k := StripText(tags[i][..eq]);
        k := ToLower(k);
        var v := StripText(tags[i][eq + 1..]);
        if k == "name" {
          f := f.(columnName := Some(v));
        } else if k == "type" {
          f := f.(columnType := Some(v));
        }
      } else {
        var text := StripText(tags[i]);
        var exts := SplitText(text, {' '});
        f := ParseWords(f, exts);
      }
    }
    f := f.(ignored := (f.isPk && f.autoInc) || f.ignored);
    f := f.(notNull := f.isPk || f.notNull);
  }

  method ParseWords(start: FieldMeta, exts: seq<string>) returns (f: FieldMeta)
    ensures f == ApplyWords(start, exts, false, false)
  {
    f := start;
    var checkNotNull, checkDefault := false, false;
    for i := 0 to |exts|
      invariant ApplyWords(f, exts[i..], checkNotNull, checkDefault) == ApplyWords(start, exts, false, false)
    {
      assert exts[i..][1..] == exts[i + 1..];
      if checkDefault {
        f := f.(defaultValue := exts[i]);
        continue;
      }
      var ext := ToLower(exts[i]);
      if checkNotNull && ext == "null" {
        f := f.(notNull := true);
        checkNotNull := false;
        continue;
      }
      f := ApplyKeyword(f, ext);
      if ext == "not" {
        checkNotNull := true;
      } else if ext == "default" {
        checkDefault := true;
      }
    }
  }

  // ---------------------------------------------------------------- printing

  /** A column as the generator finds it in the database: its name and type are known. */
  datatype DbColumn = DbColumn(name: string, columnType: string, isPk: bool, autoInc: bool, notNull: bool,
                               defaultValue: string, extra: string)

  function Extended(s: string, b: bool, more: string): string { if b then s + more else s }

  function TagText(c: DbColumn): string {
    var names := "name = " + c.name + ", type = " + c.columnType;
    var keys := Extended(Extended(names, c.isPk, ", pk"), c.autoInc, " auto_increment");
    var nulls := Extended(keys, c.notNull, ", not null");
    var values := Extended(nulls, c.defaultValue != "", ", default " + c.defaultValue);
    Extended(values, c.extra != "", ", " + c.extra)
  }

  /** The part of gen that writes the arguments of "tags(...)". */
  method PrintTags(c: DbColumn) returns (ofs: string)
    ensures ofs == TagText(c)
  {
    ofs := "name = " + c.name + ", type = " + c.columnType;
    ghost var names := ofs;
    if c.isPk { ofs := ofs + ", pk"; }
    if c.autoInc { ofs := ofs + " auto_increment"; }
    ghost var keys := ofs;
    assert keys == Extended(Extended(names, c.isPk, ", pk"), c.autoInc, " auto_increment");
    ofs := PrintValues(c, ofs);
  }

  method PrintValues(c: DbColumn, before: string) returns (ofs: string)
    ensures ofs == Extended(Extended(Extended(before, c.notNull, ", not null"),
                                     c.defaultValue != "", ", default " + c.defaultValue),
                            c.extra != "", ", " + c.extra)
  {
    ofs := before;
    if c.notNull { ofs := ofs + ", not null"; }
    ghost var nulls := ofs;
    if |c.defaultValue| > 0 { ofs := ofs + (", default " + c.defaultValue); }
    assert ofs == Extended(nulls, c.defaultValue != "", ", default " + c.defaultValue);
    ghost var values := ofs;
    if |c.extra| > 0 { ofs := ofs + (", " + c.extra); }
    assert ofs == Extended(values, c.extra != "", ", " + c.extra);
  }
}
