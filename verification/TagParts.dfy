/** The tags that are printed for a column, one by one, and what each of them sets when it is parsed. */
module TagParts {
  import opened Basics
  import opened Text
  import opened Naming
  import opened Schema
  import opened Tags

  // ---------------------------------------------------------------- the printed text, tag by tag

  function More(parts: seq<string>, b: bool, part: string): seq<string> { if b then parts + [part] else parts }

  const AUTO := " auto_increment"

  function NameTag(c: DbColumn): string { "name = " + c.name }

  /** Without a primary key the word for counting up lands in the tag of the type. */
  function TypeTag(c: DbColumn): string { " type = " + Extended(c.columnType, c.autoInc && !c.isPk, AUTO) }

  function KeyTag(c: DbColumn): string { Extended(" pk", c.autoInc, AUTO) }

  function DefaultTag(c: DbColumn): string { " default " + c.defaultValue }

  function Names(c: DbColumn): seq<string> { [NameTag(c), TypeTag(c)] }

  function Keys(c: DbColumn): seq<string> { More(Names(c), c.isPk, KeyTag(c)) }

  function Nulls(c: DbColumn): seq<string> { More(Keys(c), c.notNull, " not null") }

  /** All tags but the extra text. */
  function Front(c: DbColumn): seq<string> { More(Nulls(c), c.defaultValue != "", DefaultTag(c)) }

  function AllTags(c: DbColumn): seq<string> { More(Front(c), c.extra != "", " " + c.extra) }

  lemma JoinMore(parts: seq<string>, text: string, b: bool, last: string)
    requires parts != [] && text == Join(parts, ',')
    ensures Extended(text, b, "," + last) == Join(More(parts, b, last), ',')
  {
    if b {
      JoinAppend(parts, last, ',');
      assert text + ([','] + last) == text + [','] + last;
    }
  }

  lemma KeysText(c: DbColumn)
    ensures Extended(Extended("name = " + c.name + ", type = " + c.columnType, c.isPk, ", pk"), c.autoInc, AUTO) ==
            Join(Keys(c), ',')
  {
    var text := "name = " + c.name + ", type = " + c.columnType;
    NamesText(c);
    JoinMore(Names(c), Join(Names(c), ','), c.isPk, KeyTag(c));
    assert ", pk" == "," + " pk";
    if c.isPk && c.autoInc { assert text + "," + (" pk" + AUTO) == text + ", pk" + AUTO; }
  }

  lemma NamesText(c: DbColumn)
    ensures Join(Names(c), ',') ==
            Extended("name = " + c.name + ", type = " + c.columnType, c.autoInc && !c.isPk, AUTO)
  {
    assert Names(c)[1..] == [TypeTag(c)];
    assert ", type = " == "," + " type = ";
  }

  lemma FrontText(c: DbColumn)
    ensures Join(Front(c), ',') ==
            Extended(Extended(Join(Keys(c), ','), c.notNull, ", not null"),
                     c.defaultValue != "", ", default " + c.defaultValue)
  {
    assert ", not null" == "," + " not null";
    JoinMore(Keys(c), Join(Keys(c), ','), c.notNull, " not null");
    assert ", default " + c.defaultValue == "," + DefaultTag(c) by { assert ", default " == "," + " default "; }
    JoinMore(Nulls(c), Join(Nulls(c), ','), c.defaultValue != "", DefaultTag(c));
  }

  /** For every column, the text that is printed is a list of tags. */
  lemma TextIsParts(c: DbColumn)
    ensures TagText(c) == Join(AllTags(c), ',')
  {
    KeysText(c);
    FrontText(c);
    assert ", " + c.extra == "," + (" " + c.extra);
    JoinMore(Front(c), Join(Front(c), ','), c.extra != "", " " + c.extra);
  }

  // ---------------------------------------------------------------- a key and a value

  lemma {:induction false} LowerFixed(s: string)
    requires NoUpper(s)
    ensures ToLower(s) == s
  {
    if s != "" {
      assert NoUpper(s[1..]);
      LowerFixed(s[1..]);
    }
  }

  lemma Blanks()
    ensures AllSpace("") && AllSpace(" ")
  {
  }

  /** Whatever the value is, the tag is cut at the first "=". */
  lemma KeyAndValue(front: string, key: string, value: string)
    requires AllSpace(front) && |key| > 1 && NoUpper(key) && Free(key, {'='}) && IsCut(key)
    ensures var tag := front + key + " " + ("=" + value);
            var eq := FirstOf(tag, {'='});
      && eq < |tag| && ToLower(Strip(tag[..eq])) == key && tag[eq + 1..] == value
  {
    var left := front + key + " ";
    assert Free(left, {'='});
    FirstOfFree(left, "=" + value, {'='});
    var tag := left + ("=" + value);
    assert tag[..|left|] == left && tag[|left| + 1..] == value;
    Blanks();
    StripPadding(front, key, " ");
    LowerFixed(key);
  }

  lemma ApplyName(f: FieldMeta, value: string)
    ensures ApplyTag(f, "name =" + value) == f.(columnName := Some(Strip(value)))
  {
    KeyAndValue("", "name", value);
    assert "" + "name" + " " + ("=" + value) == "name =" + value;
  }

  lemma ApplyType(f: FieldMeta, value: string)
    ensures ApplyTag(f, " type =" + value) == f.(columnType := Some(Strip(value)))
  {
    KeyAndValue(" ", "type", value);
    assert "type"[0] != "name"[0];
    assert " " + "type" + " " + ("=" + value) == " type =" + value;
  }

  // ---------------------------------------------------------------- tags made of words

  /** Words as they are between the blanks of a tag. */
  predicate AreWords(v: seq<string>) {
    forall i | 0 <= i < |v| :: v[i] != "" && Free(v[i], {',', '=', ' '})
  }

  /** Words at the ends of a tag, where white space is stripped. */
  predicate EndWell(v: seq<string>) {
    v != [] && v[0] != "" && !IsSpace(v[0][0]) && v[|v| - 1] != "" && !IsSpace(v[|v| - 1][|v[|v| - 1]| - 1])
  }

  lemma {:induction false} JoinedWords(words: seq<string>)
    requires AreWords(words) && words != []
    ensures var text := Join(words, ' ');
      && text != "" && Free(text, {',', '='})
      && text[0] == words[0][0] && text[|text| - 1] == words[|words| - 1][|words[|words| - 1]| - 1]
  {
    if |words| > 1 {
      JoinedWords(words[1..]);
      assert words[1..][|words| - 2] == words[|words| - 1];
    }
  }

  lemma NoEquals(f: FieldMeta, tag: string)
    requires Free(tag, {'='})
    ensures ApplyTag(f, tag) == ApplyWords(f, Split(Strip(tag), {' '}), false, false)
  {
    FirstOfFree(tag, "", {'='});
    assert tag + "" == tag;
  }

  /** A tag made of words, with a blank in front. */
  lemma WordTag(f: FieldMeta, words: seq<string>)
    requires AreWords(words) && EndWell(words) && |Join(words, ' ')| > 1
    ensures ApplyTag(f, " " + Join(words, ' ')) == ApplyWords(f, words, false, false)
  {
    var text := Join(words, ' ');
    JoinedWords(words);
    NoEquals(f, " " + text);
    StripBlank(text);
    SplitJoin(words, ' ');
  }

  /** One word of a tag, when it is in lower case and no "null" that "not" asked for. */
  lemma WordStep(f: FieldMeta, w: string, rest: seq<string>, checkNotNull: bool)
    requires NoUpper(w) && !(checkNotNull && w == "null")
    ensures ApplyWords(f, [w] + rest, checkNotNull, false) ==
            ApplyWords(ApplyKeyword(f, w), rest, checkNotNull || w == "not", w == "default")
  {
    LowerFixed(w);
    assert ([w] + rest)[0] == w && ([w] + rest)[1..] == rest;
  }

  lemma PkWord(f: FieldMeta, rest: seq<string>)
    ensures ApplyWords(f, ["pk"] + rest, false, false) ==
            ApplyWords(WithIndex(f, Primary).(isPk := true), rest, false, false)
  {
    assert |"pk"| == 2 && |"not"| == 3 && |"default"| == 7;
    WordStep(f, "pk", rest, false);
  }

  lemma AutoIsLower()
    ensures NoUpper("auto_increment")
  {
  }

  lemma AutoIsApart()
    ensures !IsPkWord("auto_increment") && "auto_increment" != "not" && "auto_increment" != "default"
  {
    assert |"auto_increment"| == 14 && |"pk"| == 2 && |"primary_key"| == 11 && |"primary key"| == 11;
    assert |"not"| == 3 && |"default"| == 7;
  }

  lemma AutoWord(f: FieldMeta)
    ensures ApplyWords(f, ["auto_increment"], false, false) == f.(autoInc := true)
  {
    AutoIsLower();
    AutoIsApart();
    WordStep(f, "auto_increment", [], false);
    assert ["auto_increment"] + [] == ["auto_increment"];
  }

  lemma AnnouncersAreNoKeys(w: string)
    requires w == "not" || w == "default"
    ensures !IsPkWord(w) && !IsAutoWord(w) && w != "ignore" && w != "index" && w != "unique"
  {
    assert |"not"| == 3 && |"default"| == 7 && |"pk"| == 2 && |"primary_key"| == 11 && |"primary key"| == 11;
    assert |"auto_increment"| == 14 && |"auto increment"| == 14 && |"ignore"| == 6 && |"index"| == 5 && |"unique"| == 6;
  }

  /** "not" and "default" only announce the word behind them. */
  lemma AnnouncingWord(f: FieldMeta, w: string, next: string)
    requires w == "not" || w == "default"
    ensures ApplyWords(f, [w, next], false, false) == ApplyWords(f, [next], w == "not", w == "default")
  {
    AnnouncersAreNoKeys(w);
    WordStep(f, w, [next], false);
    assert [w] + [next] == [w, next];
  }

  function KeyList(auto: bool): seq<string> { ["pk"] + if auto then ["auto_increment"] else [] }

  lemma ApplyKey(f: FieldMeta, c: DbColumn)
    requires !f.autoInc
    ensures ApplyTag(f, KeyTag(c)) == WithIndex(f, Primary).(isPk := true, autoInc := c.autoInc)
  {
    KeyText(c);
    WordTag(f, KeyList(c.autoInc));
    PkWord(f, if c.autoInc then ["auto_increment"] else []);
    AutoWord(WithIndex(f, Primary).(isPk := true));
  }

  lemma KeyText(c: DbColumn)
    ensures var words := KeyList(c.autoInc);
      " " + Join(words, ' ') == KeyTag(c) && |Join(words, ' ')| > 1 && AreWords(words) && EndWell(words)
  {
    var words := KeyList(c.autoInc);
    assert words[1..] == if c.autoInc then ["auto_increment"] else [];
    AutoIsWord();
    assert AUTO == " " + "auto_increment";
  }

  lemma AutoIsWord()
    ensures AreWords(["auto_increment"]) && EndWell(["auto_increment"])
  {
  }

  lemma ApplyNotNull(f: FieldMeta)
    ensures ApplyTag(f, " not null") == f.(notNull := true)
  {
    var words := ["not", "null"];
    assert words[1..] == ["null"];
    assert " " + Join(words, ' ') == " not null";
    WordTag(f, words);
    AnnouncingWord(f, "not", "null");
    LastNull(f);
  }

  lemma LastNull(f: FieldMeta)
    ensures ApplyWords(f, ["null"], true, false) == f.(notNull := true)
  {
    LowerFixed("null");
    assert ["null"][1..] == [];
  }

  /** A word that stays as it is behind "default". */
  predicate IsDefault(value: string) {
    value != "" && Free(value, {',', '=', ' '}) && !IsSpace(value[|value| - 1])
  }

  lemma ApplyDefault(f: FieldMeta, c: DbColumn)
    requires IsDefault(c.defaultValue)
    ensures ApplyTag(f, DefaultTag(c)) == f.(defaultValue := c.defaultValue)
  {
    var words := ["default", c.defaultValue];
    assert words[1..] == [c.defaultValue];
    assert " " + Join(words, ' ') == DefaultTag(c);
    assert |"default"| == 7 && |"not"| == 3;
    WordTag(f, words);
    AnnouncingWord(f, "default", c.defaultValue);
    LastDefault(f, c.defaultValue);
  }

  lemma LastDefault(f: FieldMeta, value: string)
    ensures ApplyWords(f, [value], false, true) == f.(defaultValue := value)
  {
    assert [value][1..] == [];
  }

  // ---------------------------------------------------------------- all tags but the extra text

  /** Tags are applied one after the other. */
  lemma {:induction false} ApplyAppend(f: FieldMeta, tags: seq<string>, last: string)
    ensures ApplyTags(f, tags + [last]) == ApplyTag(ApplyTags(f, tags), last)
    decreases |tags|
  {
    if tags == [] {
      assert [] + [last] == [last] && [last][1..] == [];
    } else {
      assert (tags + [last])[1..] == tags[1..] + [last];
      ApplyAppend(ApplyTag(f, tags[0]), tags[1..], last);
    }
  }

  lemma ApplyMore(f: FieldMeta, tags: seq<string>, b: bool, last: string)
    ensures ApplyTags(f, More(tags, b, last)) ==
            if b then ApplyTag(ApplyTags(f, tags), last) else ApplyTags(f, tags)
  {
    if b { ApplyAppend(f, tags, last); }
  }

  /** What is read back but for the extra text. */
  function FrontField(fieldName: string, cppType: string, c: DbColumn): FieldMeta {
    var name := Strip(" " + c.name);
    FieldMeta(fieldName, cppType, Some(Strip(" " + Extended(c.columnType, c.autoInc && !c.isPk, AUTO))), Some(name), "",
              c.isPk, c.isPk && c.autoInc, c.isPk, c.notNull, c.defaultValue,
              if c.isPk then Index(Primary, "", [name]) else NO_INDEX, false)
  }

  lemma ApplyTwo(f: FieldMeta, a: string, b: string)
    ensures ApplyTags(f, [a, b]) == ApplyTag(ApplyTag(f, a), b)
  {
    assert [a, b][1..] == [b] && [b][1..] == [];
    assert ApplyTags(ApplyTag(f, a), [b]) == ApplyTag(ApplyTag(f, a), b);
  }

  lemma NamesApplied(f: FieldMeta, c: DbColumn)
    ensures ApplyTags(f, Names(c)) ==
            f.(columnName := Some(Strip(" " + c.name)),
               columnType := Some(Strip(" " + Extended(c.columnType, c.autoInc && !c.isPk, AUTO))))
  {
    var typeText := Extended(c.columnType, c.autoInc && !c.isPk, AUTO);
    ApplyTwo(f, NameTag(c), TypeTag(c));
    assert NameTag(c) == "name =" + (" " + c.name) by { assert "name = " == "name =" + " "; }
    assert TypeTag(c) == " type =" + (" " + typeText) by { assert " type = " == " type =" + " "; }
    ApplyName(f, " " + c.name);
    ApplyType(f.(columnName := Some(Strip(" " + c.name))), " " + typeText);
  }

  lemma FrontApplied(fieldName: string, cppType: string, c: DbColumn)
    requires c.defaultValue == "" || IsDefault(c.defaultValue)
    ensures ApplyTags(NewField(fieldName, cppType), Front(c)) == FrontField(fieldName, cppType, c)
  {
    var f := NewField(fieldName, cppType);
    NamesApplied(f, c);
    KeyApplied(f, c);
    ApplyMore(f, Names(c), c.isPk, KeyTag(c));
    ApplyNotNull(ApplyTags(f, Keys(c)));
    ApplyMore(f, Keys(c), c.notNull, " not null");
    if c.defaultValue != "" { ApplyDefault(ApplyTags(f, Nulls(c)), c); }
    ApplyMore(f, Nulls(c), c.defaultValue != "", DefaultTag(c));
  }

  lemma KeyApplied(f: FieldMeta, c: DbColumn)
    requires !f.autoInc && f.index == NO_INDEX
    ensures var g := ApplyTags(f, Names(c));
            ApplyTag(g, KeyTag(c)) ==
            g.(hasIndex := true, isPk := true, autoInc := c.autoInc, index := Index(Primary, "", [Strip(" " + c.name)]))
  {
    NamesApplied(f, c);
    ApplyKey(ApplyTags(f, Names(c)), c);
    assert NO_INDEX.columns + [Strip(" " + c.name)] == [Strip(" " + c.name)];
  }
}
