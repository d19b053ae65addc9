/** Which columns come back when the tags printed for them are parsed. */
module TagProof {
  import opened Basics
  import opened Text
  import opened Naming
  import opened Schema
  import opened Tags
  import opened TagParts

  // ---------------------------------------------------------------- the condition

  /** A name or a type that is read back as it is. */
  predicate IsValue(s: string) { Free(s, {','}) && IsCut(s) && |s| != 1 }

  /** Lower-case words with single blanks between them, none of which has a meaning of its own. */
  predicate IsExtra(s: string) {
    && |s| > 1 && IsCut(s) && Free(s, {',', '='}) && NoUpper(s)
    && Join(Split(s, {' '}), ' ') == s && AllPlain(Split(s, {' '}))
  }

  predicate AllPlain(words: seq<string>) {
    forall i | 0 <= i < |words| :: !IsKeyword(ToLower(words[i]))
  }

  /** The columns that come back. */
  predicate Readable(c: DbColumn) {
    && IsValue(c.name) && IsValue(c.columnType)
    && (c.autoInc ==> c.isPk) && (c.isPk ==> c.notNull)
    && (c.defaultValue == "" || IsDefault(c.defaultValue))
    && (c.extra == "" || IsExtra(c.extra))
  }

  /** The field that the printed tags are meant to describe. */
  function FieldOfColumn(fieldName: string, cppType: string, c: DbColumn): FieldMeta {
    FieldMeta(fieldName, cppType, Some(c.columnType), Some(c.name), c.extra, c.isPk, c.autoInc, c.isPk, c.notNull,
              c.defaultValue, if c.isPk then Index(Primary, "", [c.name]) else NO_INDEX, c.isPk && c.autoInc)
  }

  // ---------------------------------------------------------------- what parsing can give at all

  predicate CleanValue(v: Option<string>) { v.Some? ==> Free(v.value, {','}) && IsCut(v.value) }

  predicate CleanDefault(s: string) { s == "" || IsDefault(s) }

  predicate CleanExtra(s: string) { Free(s, {',', '='}) && NoUpper(s) }

  predicate Clean(f: FieldMeta) {
    CleanValue(f.columnName) && CleanValue(f.columnType) && CleanDefault(f.defaultValue) && CleanExtra(f.extra)
  }

  lemma {:induction false} LowerIsClean(w: string)
    requires Free(w, {',', '='})
    ensures CleanExtra(ToLower(w))
  {
    if w != "" { LowerIsClean(w[1..]); }
  }

  /** What one word does: it is taken as default, or collected, or it means something or announces the next. */
  lemma WordsNext(f: FieldMeta, words: seq<string>, checkNotNull: bool, checkDefault: bool)
    returns (g: FieldMeta, nextNotNull: bool, nextDefault: bool)
    requires words != []
    ensures ApplyWords(f, words, checkNotNull, checkDefault) == ApplyWords(g, words[1..], nextNotNull, nextDefault)
    ensures g.columnName == f.columnName && g.columnType == f.columnType && (checkDefault ==> nextDefault)
    ensures g.defaultValue == if checkDefault then words[0] else f.defaultValue
    ensures g.extra == f.extra || (!IsKeyword(ToLower(words[0]))
              && g.extra == f.extra + (if f.extra != "" then " " else "") + ToLower(words[0]))
  {
    var w := ToLower(words[0]);
    if checkDefault {
      g, nextNotNull, nextDefault := f.(defaultValue := words[0]), checkNotNull, true;
    } else if checkNotNull && w == "null" {
      g, nextNotNull, nextDefault := f.(notNull := true), false, false;
    } else {
      g, nextNotNull, nextDefault := ApplyKeyword(f, w), checkNotNull || w == "not", w == "default";
      KeywordKeeps(f, w);
    }
  }

  lemma KeywordKeeps(f: FieldMeta, w: string)
    ensures var g := ApplyKeyword(f, w);
      && g.columnName == f.columnName && g.columnType == f.columnType && g.defaultValue == f.defaultValue
      && g.extra == if IsKeyword(w) then f.extra else f.extra + (if f.extra != "" then " " else "") + w
  {
    if !IsKeyword(w) {
      OtherWord(f, w);
    } else if !IsPkWord(w) && !IsAutoWord(w) {
      PlainKeyword(f, w);
    }
  }

  lemma OtherWord(f: FieldMeta, w: string)
    requires !IsKeyword(w)
    ensures ApplyKeyword(f, w) == f.(extra := f.extra + (if f.extra != "" then " " else "") + w)
  {
  }

  lemma PlainKeyword(f: FieldMeta, w: string)
    requires IsKeyword(w) && !IsPkWord(w) && !IsAutoWord(w)
    ensures var g := ApplyKeyword(f, w);
      g.columnName == f.columnName && g.columnType == f.columnType && g.defaultValue == f.defaultValue
      && g.extra == f.extra
  {
  }

  /** Words set neither the name nor the type, and of several defaults the last one is kept. */
  lemma {:induction false} WordsKeep(f: FieldMeta, words: seq<string>, checkNotNull: bool, checkDefault: bool)
    ensures var g := ApplyWords(f, words, checkNotNull, checkDefault);
      && g.columnName == f.columnName && g.columnType == f.columnType
      && (g.defaultValue == f.defaultValue || (words != [] && g.defaultValue == words[|words| - 1]))
      && (words != [] && checkDefault ==> g.defaultValue == words[|words| - 1])
    decreases |words|
  {
    if words != [] {
      var g, nextNotNull, nextDefault := WordsNext(f, words, checkNotNull, checkDefault);
      WordsKeep(g, words[1..], nextNotNull, nextDefault);
    }
  }

  lemma {:induction false} WordsClean(f: FieldMeta, words: seq<string>, checkNotNull: bool, checkDefault: bool)
    requires AreWords(words) && CleanExtra(f.extra)
    ensures CleanExtra(ApplyWords(f, words, checkNotNull, checkDefault).extra)
    decreases |words|
  {
    if words != [] {
      var g, nextNotNull, nextDefault := WordsNext(f, words, checkNotNull, checkDefault);
      LowerIsClean(words[0]);
      assert CleanExtra(g.extra);
      WordsClean(g, words[1..], nextNotNull, nextDefault);
    }
  }

  lemma StripIsCut(s: string, chars: set<char>)
    ensures IsCut(Strip(s)) && (Free(s, chars) ==> Free(Strip(s), chars))
  {
    TrimmedIsCut(s, chars);
  }

  /** The words of a tag without "=". */
  lemma TagWords(tag: string)
    requires Free(tag, {',', '='})
    ensures var words := Split(Strip(tag), {' '});
      AreWords(words) && (words != [] ==> !IsSpace(words[|words| - 1][|words[|words| - 1]| - 1]))
  {
    var text := Strip(tag);
    StripIsCut(tag, {',', '='});
    SplitFree(text, {' '}, {',', '='});
    var words := Split(text, {' '});
    forall i | 0 <= i < |words| ensures words[i] != "" && Free(words[i], {',', '=', ' '}) {
      assert Free(words[i], {',', '='} + {' '});
    }
    if text != "" { SplitEnd(text, {' '}); }
  }

  lemma TagClean(f: FieldMeta, tag: string)
    requires Clean(f) && Free(tag, {','})
    ensures Clean(ApplyTag(f, tag))
  {
    var eq := FirstOf(tag, {'='});
    FirstOfIsFirst(tag, {'='});
    if eq < |tag| {
      StripIsCut(tag[eq + 1..], {','});
    } else {
      assert tag[..eq] == tag;
      WordTagClean(f, tag);
    }
  }

  lemma WordTagClean(f: FieldMeta, tag: string)
    requires Clean(f) && Free(tag, {',', '='})
    ensures Clean(ApplyTag(f, tag))
  {
    NoEquals(f, tag);
    TagWords(tag);
    AllWordsClean(f, Split(Strip(tag), {' '}));
  }

  lemma AllWordsClean(f: FieldMeta, words: seq<string>)
    requires Clean(f) && AreWords(words)
    requires words != [] ==> !IsSpace(words[|words| - 1][|words[|words| - 1]| - 1])
    ensures Clean(ApplyWords(f, words, false, false))
  {
    WordsKeep(f, words, false, false);
    WordsClean(f, words, false, false);
  }

  lemma {:induction false} TagsClean(f: FieldMeta, tags: seq<string>)
    requires Clean(f) && forall i | 0 <= i < |tags| :: Free(tags[i], {','})
    ensures Clean(ApplyTags(f, tags))
    decreases |tags|
  {
    if tags != [] {
      TagClean(f, tags[0]);
      TagsClean(ApplyTag(f, tags[0]), tags[1..]);
    }
  }

  /** Whatever the text is, no comma, and no white space at an end, ever comes out of a tag. */
  lemma ParsedClean(fieldName: string, cppType: string, text: string)
    ensures Clean(ParsedField(fieldName, cppType, text))
  {
    SplitParts(Strip(text), {','});
    TagsClean(NewField(fieldName, cppType), Split(Strip(text), {','}));
  }

  // ---------------------------------------------------------------- the tags of a printed text

  predicate CleanColumn(c: DbColumn) {
    && Free(c.name, {','}) && IsCut(c.name) && Free(c.columnType, {','}) && IsCut(c.columnType)
    && CleanDefault(c.defaultValue) && CleanExtra(c.extra)
  }

  predicate AreTags(v: seq<string>) {
    forall i | 0 <= i < |v| :: v[i] != "" && Free(v[i], {','})
  }

  lemma {:induction false} JoinedTags(v: seq<string>)
    requires AreTags(v) && v != []
    ensures var text := Join(v, ','); text != "" && text[0] == v[0][0] && (|v| > 1 ==> |text| > 2)
    ensures Join(v, ',')[|Join(v, ',')| - 1] == v[|v| - 1][|v[|v| - 1]| - 1]
  {
    if |v| > 1 {
      JoinedTags(v[1..]);
      assert v[1..][|v| - 2] == v[|v| - 1];
    }
  }

  /** White space behind a text is lost before the text is cut at its commas. */
  lemma LastTag(v: seq<string>, last: string)
    requires AreTags(v) && v != [] && !IsSpace(v[0][0]) && Free(last, {','})
    ensures Split(Strip(Join(v + [last], ',')), {','}) == v + if CutEnd(last) == "" then [] else [CutEnd(last)]
  {
    var body := Join(v, ',') + [','] + CutEnd(last);
    StripEnd(v, last);
    if CutEnd(last) == "" {
      assert body == Join(v, ',') + [','];
      SplitJoinEnd(v, ',');
      assert v + [] == v;
    } else {
      JoinAppend(v, CutEnd(last), ',');
      var pad := CutEndIs(last);
      assert forall i | 0 <= i < |CutEnd(last)| :: CutEnd(last)[i] == last[i];
      assert AreTags(v + [CutEnd(last)]);
      SplitJoin(v + [CutEnd(last)], ',');
    }
  }

  lemma StripEnd(v: seq<string>, last: string)
    requires AreTags(v) && v != [] && !IsSpace(v[0][0])
    ensures Strip(Join(v + [last], ',')) == Join(v, ',') + [','] + CutEnd(last)
  {
    JoinAppend(v, last, ',');
    JoinedTags(v);
    var pad := CutEndIs(last);
    var front, body := Join(v, ',') + [','], Join(v, ',') + [','] + CutEnd(last);
    Regroup(front, CutEnd(last), pad);
    StripBehind(body, pad);
  }

  lemma StripBehind(body: string, pad: string)
    requires |body| > 1 && IsCut(body) && AllSpace(pad)
    ensures Strip(body + pad) == body
  {
    Blanks();
    StripPadding("", body, pad);
    assert "" + body + pad == body + pad;
  }

  lemma MoreTags(v: seq<string>, b: bool, last: string)
    requires AreTags(v) && v != [] && (b ==> last != "" && Free(last, {',' }))
    ensures AreTags(More(v, b, last)) && |More(v, b, last)| >= |v| && More(v, b, last)[0] == v[0]
  {
  }

  lemma FrontTags(c: DbColumn)
    requires CleanColumn(c)
    ensures AreTags(Front(c)) && |Front(c)| > 1 && Front(c)[0] == NameTag(c) && !IsSpace(NameTag(c)[0])
  {
    assert AreTags(Names(c));
    MoreTags(Names(c), c.isPk, KeyTag(c));
    MoreTags(Keys(c), c.notNull, " not null");
    MoreTags(Nulls(c), c.defaultValue != "", DefaultTag(c));
  }

  /** Only an empty type at the end has white space that is lost, and it is read as empty all the same. */
  lemma LastOfFront(f: FieldMeta, c: DbColumn)
    requires CleanColumn(c)
    ensures var last := Front(c)[|Front(c)| - 1]; CutEnd(last) != "" && ApplyTag(f, CutEnd(last)) == ApplyTag(f, last)
  {
    var last := Front(c)[|Front(c)| - 1];
    assert last == TypeTag(c) || last == KeyTag(c) || last == " not null" || last == DefaultTag(c);
    if last == " type = " {
      assert last == " type =" + " ";
      Blanks();
      CutEndPadding(" type =", " ");
      assert " type =" + "" == " type =";
      ApplyType(f, "");
      ApplyType(f, " ");
    } else {
      LastEndsWell(c);
    }
  }

  lemma LastEndsWell(c: DbColumn)
    requires CleanColumn(c)
    ensures var last := Front(c)[|Front(c)| - 1]; last != " type = " ==> !IsSpace(last[|last| - 1])
  {
    var last := Front(c)[|Front(c)| - 1];
    if last == TypeTag(c) {
      var text := Extended(c.columnType, c.autoInc && !c.isPk, AUTO);
      if text == "" { assert " type = " + text == " type = "; } else { assert last[|last| - 1] == text[|text| - 1]; }
    }
  }

  /** The field after the tag of the extra text, of which white space at the end of the whole text is lost. */
  function WithExtra(f: FieldMeta, extra: string): FieldMeta {
    if CutEnd(extra) == "" then f else ApplyTag(f, " " + CutEnd(extra))
  }

  /** What the parser makes of a printed text: the front tags, and then the extra text. */
  lemma ParsedText(fieldName: string, cppType: string, c: DbColumn)
    requires CleanColumn(c)
    ensures ParsedField(fieldName, cppType, TagText(c)) ==
            Finished(WithExtra(FrontField(fieldName, cppType, c), c.extra))
  {
    TextIsParts(c);
    FrontApplied(fieldName, cppType, c);
    if c.extra == "" {
      ParsedFront(NewField(fieldName, cppType), c);
      CutEndPadding("", "");
    } else {
      ParsedAll(NewField(fieldName, cppType), c);
    }
  }

  lemma ParsedFront(f: FieldMeta, c: DbColumn)
    requires CleanColumn(c)
    ensures ApplyTags(f, Split(Strip(Join(Front(c), ',')), {','})) == ApplyTags(f, Front(c))
  {
    FrontTags(c);
    var init, last := Front(c)[..|Front(c)| - 1], Front(c)[|Front(c)| - 1];
    assert Front(c) == init + [last];
    assert AreTags(init) && init[0] == NameTag(c);
    LastTag(init, last);
    LastOfFront(ApplyTags(f, init), c);
    ApplyAppend(f, init, last);
    ApplyAppend(f, init, CutEnd(last));
  }

  lemma ParsedAll(f: FieldMeta, c: DbColumn)
    requires CleanColumn(c) && c.extra != ""
    ensures ApplyTags(f, Split(Strip(Join(AllTags(c), ',')), {','})) == WithExtra(ApplyTags(f, Front(c)), c.extra)
  {
    FrontTags(c);
    assert Free(" " + c.extra, {','});
    LastTag(Front(c), " " + c.extra);
    CutBehindBlank(c.extra);
    ApplyAppend(f, Front(c), " " + CutEnd(c.extra));
    assert Front(c) + [] == Front(c);
  }

  lemma {:induction false} CutBehindBlank(s: string)
    ensures CutEnd(" " + s) == if CutEnd(s) == "" then "" else " " + CutEnd(s)
  {
    var pad := CutEndIs(s);
    if CutEnd(s) == "" {
      assert " " + s == "" + (" " + pad);
      CutEndPadding("", " " + pad);
    } else {
      assert " " + s == (" " + CutEnd(s)) + pad;
      CutEndPadding(" " + CutEnd(s), pad);
    }
  }

  // ---------------------------------------------------------------- the extra text

  /** How long the collected text gets at most. */
  function Room(n: nat, words: seq<string>): nat
    decreases |words|
  {
    if words == [] then n else Room((if n > 0 then n + 1 else 0) + |words[0]|, words[1..])
  }

  lemma {:induction false} RoomGrows(n: nat, m: nat, words: seq<string>)
    requires n < m
    ensures Room(n, words) < Room(m, words)
    decreases |words|
  {
    if words != [] {
      RoomGrows((if n > 0 then n + 1 else 0) + |words[0]|, m + 1 + |words[0]|, words[1..]);
    }
  }

  lemma {:induction false} RoomIs(n: nat, words: seq<string>)
    requires AreWords(words)
    ensures Room(n, words) ==
            if words == [] then n else (if n > 0 then n + 1 else 0) + |Join(words, ' ')|
    decreases |words|
  {
    if words != [] { RoomIs((if n > 0 then n + 1 else 0) + |words[0]|, words[1..]); }
  }

  /** The collected text fills its room only if every word is kept. */
  lemma {:induction false} WordsFill(f: FieldMeta, words: seq<string>, checkNotNull: bool, checkDefault: bool)
    requires AreWords(words)
    ensures var n, room := |ApplyWords(f, words, checkNotNull, checkDefault).extra|, Room(|f.extra|, words);
      n <= room && (n == room ==> AllPlain(words))
    decreases |words|
  {
    if words != [] {
      var rest, n := words[1..], |f.extra|;
      var g, nextNotNull, nextDefault := WordsNext(f, words, checkNotNull, checkDefault);
      RoomGrows(n, (if n > 0 then n + 1 else 0) + |words[0]|, rest);
      WordsFill(g, rest, nextNotNull, nextDefault);
      if |ApplyWords(g, rest, nextNotNull, nextDefault).extra| == Room(n, words) { PlainFirst(words); }
    }
  }

  lemma PlainFirst(words: seq<string>)
    requires words != [] && !IsKeyword(ToLower(words[0])) && AllPlain(words[1..])
    ensures AllPlain(words)
  {
    assert words == [words[0]] + words[1..];
  }

  /** The words after those already collected. */
  function Collected(extra: string, words: seq<string>): string {
    if words == [] then extra
    else if extra == "" then Join(words, ' ')
    else extra + " " + Join(words, ' ')
  }

  lemma {:induction false} ExtraWords(f: FieldMeta, words: seq<string>)
    requires AreWords(words) && AllPlain(words) && forall i | 0 <= i < |words| :: NoUpper(words[i])
    ensures ApplyWords(f, words, false, false) == f.(extra := Collected(f.extra, words))
    decreases |words|
  {
    if words != [] {
      var w := words[0];
      LowerFixed(w);
      var g := f.(extra := f.extra + (if f.extra != "" then " " else "") + w);
      assert ApplyKeyword(f, w) == g;
      ExtraWords(g, words[1..]);
      CollectedStep(f.extra, words);
    }
  }

  lemma CollectedStep(extra: string, words: seq<string>)
    requires words != [] && words[0] != ""
    ensures Collected(extra + (if extra != "" then " " else "") + words[0], words[1..]) == Collected(extra, words)
  {
    var front := extra + (if extra != "" then " " else "") + words[0];
    if |words| > 1 {
      var rest := Join(words[1..], ' ');
      assert Join(words, ' ') == words[0] + [' '] + rest;
      assert front + " " + rest == extra + (if extra != "" then " " else "") + (words[0] + [' '] + rest);
      if extra == "" { assert front == words[0]; }
    } else {
      if extra == "" { assert front == words[0]; }
    }
  }

  lemma ExtraApplied(f: FieldMeta, extra: string)
    requires f.extra == "" && IsExtra(extra)
    ensures WithExtra(f, extra) == f.(extra := extra)
  {
    var words := Split(extra, {' '});
    SplitFree(extra, {' '}, {',', '='});
    assert AreWords(words) by {
      forall i | 0 <= i < |words| ensures words[i] != "" && Free(words[i], {',', '=', ' '}) {
        assert Free(words[i], {',', '='} + {' '});
      }
    }
    SplitNoUpper(extra);
    assert " " + extra != "";
    NoEquals(f, " " + extra);
    StripBlank(extra);
    ExtraWords(f, words);
  }

  lemma SplitNoUpper(s: string)
    requires NoUpper(s)
    ensures var v := Split(s, {' '}); forall i | 0 <= i < |v| :: NoUpper(v[i])
  {
    var capitals := set c: char | IsUpper(c);
    assert Free(s, capitals);
    SplitFree(s, {' '}, capitals);
    var v := Split(s, {' '});
    forall i | 0 <= i < |v| ensures NoUpper(v[i]) { assert Free(v[i], capitals + {' '}); }
  }

  /** If the extra text comes back, nothing of it was lost on the way. */
  lemma ExtraKept(f: FieldMeta, extra: string)
    requires f.extra == "" && extra != "" && CleanExtra(extra) && WithExtra(f, extra).extra == extra
    ensures IsExtra(extra)
  {
    var pad := CutEndIs(extra);
    var cut := CutEnd(extra);
    var text := Strip(" " + cut);
    var words := Split(text, {' '});
    assert Free(cut, {',', '='}) by { assert forall i | 0 <= i < |cut| :: cut[i] == extra[i]; }
    NoEquals(f, " " + cut);
    TagWords(" " + cut);
    WordsFill(f, words, false, false);
    RoomIs(0, words);
    JoinSplit(text, ' ');
    StripBlank(cut);
    assert |cut| == |extra| && cut == extra;
    assert |text| == |cut|;
    StripSame(cut);
  }

  lemma StripSame(s: string)
    requires |Strip(" " + s)| == |s|
    ensures Strip(" " + s) == s
  {
    assert (" " + s)[1..] == s;
    TrimmedIsCut(s, {});
  }

  // ---------------------------------------------------------------- main result

  /**
   Parsing the tags that the generator prints for a column gives that column back exactly when the
   name and the type have no comma, no white space at an end, and not just one character; only a
   primary key counts up, and it is never null; the default is one word; and the extra text is made of
   lower-case words without a meaning of their own.
   */
  lemma TagRoundTrip(fieldName: string, cppType: string, c: DbColumn)
    ensures ParsedField(fieldName, cppType, TagText(c)) == FieldOfColumn(fieldName, cppType, c) <==> Readable(c)
  {
    ParsedClean(fieldName, cppType, TagText(c));
    if CleanColumn(c) {
      ParsedText(fieldName, cppType, c);
      RoundTripClean(fieldName, cppType, c);
    }
  }

  lemma RoundTripClean(fieldName: string, cppType: string, c: DbColumn)
    requires CleanColumn(c)
    ensures Finished(WithExtra(FrontField(fieldName, cppType, c), c.extra)) == FieldOfColumn(fieldName, cppType, c)
            <==> Readable(c)
  {
    var f := FrontField(fieldName, cppType, c);
    StripBlank(c.name);
    StripBlank(c.columnType);
    if c.extra == "" {
      assert f.(extra := "") == f;
    } else if IsExtra(c.extra) {
      ExtraApplied(f, c.extra);
    } else if WithExtra(f, c.extra).extra == c.extra {
      ExtraKept(f, c.extra);
    }
    if c.extra == "" || IsExtra(c.extra) { FieldsAgree(fieldName, cppType, c); }
  }

  lemma FieldsAgree(fieldName: string, cppType: string, c: DbColumn)
    requires CleanColumn(c)
    ensures Finished(FrontField(fieldName, cppType, c).(extra := c.extra)) == FieldOfColumn(fieldName, cppType, c)
            <==> IsValue(c.name) && IsValue(c.columnType) && (c.autoInc ==> c.isPk) && (c.isPk ==> c.notNull)
  {
    StripBlank(c.name);
    StripBlank(c.columnType);
  }

  // ---------------------------------------------------------------- columns that do not come back

  /** A name of one character is lost, whatever the rest of the column. */
  lemma ShortNameLost(fieldName: string, cppType: string, c: DbColumn)
    requires |c.name| == 1
    ensures ParsedField(fieldName, cppType, TagText(c)) != FieldOfColumn(fieldName, cppType, c)
  {
    TagRoundTrip(fieldName, cppType, c);
  }

  /** So is a type with a comma in it. */
  lemma DecimalLost(fieldName: string, cppType: string, c: DbColumn)
    requires c.columnType == "decimal(10,2)" || c.columnType == "enum('a','b')"
    ensures ParsedField(fieldName, cppType, TagText(c)) != FieldOfColumn(fieldName, cppType, c)
  {
    assert "decimal(10,2)"[10] == ',' && "enum('a','b')"[8] == ',';
    TagRoundTrip(fieldName, cppType, c);
  }

  /** And an extra text with a capital. */
  lemma OnUpdateLost(fieldName: string, cppType: string, c: DbColumn)
    requires c.extra == "on update CURRENT_TIMESTAMP"
    ensures ParsedField(fieldName, cppType, TagText(c)) != FieldOfColumn(fieldName, cppType, c)
  {
    assert |c.extra| == 27 && IsUpper(c.extra[10]);
    TagRoundTrip(fieldName, cppType, c);
  }
}
