/** What single tags mean, whatever the field they stand at. */
module TagMeaning {
  import opened Basics
  import opened Text
  import opened Naming
  import opened Schema
  import opened Tags
  import opened TagParts

  // ---------------------------------------------------------------- keys

  /** A tag with a key sets the name or the type, in any case of the key, and is ignored with any other key. */
  lemma KeyMeaning(f: FieldMeta, key: string, value: string)
    requires Free(key, {'='})
    ensures ToLower(Strip(key)) == "name" ==> ApplyTag(f, key + ("=" + value)) == f.(columnName := Some(Strip(value)))
    ensures ToLower(Strip(key)) == "type" ==> ApplyTag(f, key + ("=" + value)) == f.(columnType := Some(Strip(value)))
    ensures ToLower(Strip(key)) != "name" && ToLower(Strip(key)) != "type" ==> ApplyTag(f, key + ("=" + value)) == f
  {
    var tag := key + ("=" + value);
    FirstOfFree(key, "=" + value, {'='});
    assert tag[..|key|] == key && tag[|key| + 1..] == value;
    assert "type"[0] != "name"[0];
  }

  // ---------------------------------------------------------------- one word

  /** A lower-case word that can stand alone as a tag. */
  predicate StandsAlone(w: string) {
    |w| > 1 && AreWords([w]) && EndWell([w]) && NoUpper(w) && w != "not" && w != "default"
  }

  lemma WordAlone(f: FieldMeta, w: string)
    requires StandsAlone(w)
    ensures ApplyTag(f, w) == ApplyKeyword(f, w)
  {
    assert Free(w, {'='}) && IsCut(w) by { assert [w][0] == w; }
    NoEquals(f, w);
    CutIsTrimmed(w);
    SplitJoin([w], ' ');
    LowerFixed(w);
    assert [w][1..] == [];
  }

  lemma OneWord(fieldName: string, cppType: string, w: string)
    requires StandsAlone(w)
    ensures ParsedField(fieldName, cppType, w) == Finished(ApplyKeyword(NewField(fieldName, cppType), w))
  {
    assert Free(w, {','}) && IsCut(w) by { assert [w][0] == w; }
    CutIsTrimmed(w);
    SplitJoin([w], ',');
    WordAlone(NewField(fieldName, cppType), w);
    assert ApplyTags(NewField(fieldName, cppType), [w]) == ApplyTag(NewField(fieldName, cppType), w) by {
      assert [w][1..] == [];
    }
  }

  lemma IndexWord(f: FieldMeta)
    ensures StandsAlone("index")
    ensures ApplyKeyword(f, "index") == f.(hasIndex := true,
                                           index := Index(Multiple, f.index.name, f.index.columns + [f.ColumnName()]))
  {
    assert |"index"| == 5 && |"not"| == 3 && |"default"| == 7 && |"pk"| == 2 && |"ignore"| == 6;
    assert |"primary_key"| == 11 && |"primary key"| == 11 && |"auto_increment"| == 14 && |"auto increment"| == 14;
  }

  lemma UniqueWord(f: FieldMeta)
    ensures StandsAlone("unique")
    ensures ApplyKeyword(f, "unique") == f.(hasIndex := true,
                                            index := Index(Unique, f.index.name, f.index.columns + [f.ColumnName()]))
  {
    assert |"unique"| == 6 && |"index"| == 5 && |"not"| == 3 && |"default"| == 7 && |"pk"| == 2;
    assert "unique"[0] != "ignore"[0];
    assert |"primary_key"| == 11 && |"primary key"| == 11 && |"auto_increment"| == 14 && |"auto increment"| == 14;
  }

  lemma IgnoreWord(f: FieldMeta)
    ensures StandsAlone("ignore")
    ensures ApplyKeyword(f, "ignore") == f.(ignored := true)
  {
    assert |"ignore"| == 6 && |"not"| == 3 && |"default"| == 7 && |"pk"| == 2;
    assert |"primary_key"| == 11 && |"primary key"| == 11 && |"auto_increment"| == 14 && |"auto increment"| == 14;
  }

  lemma PkWords(f: FieldMeta, w: string)
    requires w == "pk" || w == "primary_key"
    ensures StandsAlone(w)
    ensures ApplyKeyword(f, w) == f.(isPk := true, hasIndex := true,
                                     index := Index(Primary, f.index.name, f.index.columns + [f.ColumnName()]))
  {
    assert |"not"| == 3 && |"default"| == 7 && |"pk"| == 2 && |"primary_key"| == 11;
  }

  /** The tag "index" gives the field a plain index on its column. */
  lemma IndexTag(fieldName: string, cppType: string)
    ensures var f := ParsedField(fieldName, cppType, "index");
      && f.hasIndex && f.index == Index(Multiple, "", [CppToDb(fieldName)]) && !f.isPk && !f.notNull && !f.ignored
  {
    IndexWord(NewField(fieldName, cppType));
    OneWord(fieldName, cppType, "index");
    assert NO_INDEX.columns + [CppToDb(fieldName)] == [CppToDb(fieldName)];
  }

  /** The tag "unique" gives it a unique one. */
  lemma UniqueTag(fieldName: string, cppType: string)
    ensures var f := ParsedField(fieldName, cppType, "unique");
      && f.hasIndex && f.index == Index(Unique, "", [CppToDb(fieldName)]) && !f.isPk && !f.notNull && !f.ignored
  {
    UniqueWord(NewField(fieldName, cppType));
    OneWord(fieldName, cppType, "unique");
    assert NO_INDEX.columns + [CppToDb(fieldName)] == [CppToDb(fieldName)];
  }

  /** The tag "ignore" keeps the field out of INSERT statements and does nothing else. */
  lemma IgnoreTag(fieldName: string, cppType: string)
    ensures ParsedField(fieldName, cppType, "ignore") == NewField(fieldName, cppType).(ignored := true)
  {
    IgnoreWord(NewField(fieldName, cppType));
    OneWord(fieldName, cppType, "ignore");
  }

  /** Both spellings of a primary key make the field one, which is never null, but is not left out of INSERT. */
  lemma PrimaryTag(fieldName: string, cppType: string, w: string)
    requires w == "pk" || w == "primary_key"
    ensures var f := ParsedField(fieldName, cppType, w);
      && f.isPk && f.notNull && f.hasIndex && f.index == Index(Primary, "", [CppToDb(fieldName)])
      && !f.ignored && !f.autoInc
  {
    PkWords(NewField(fieldName, cppType), w);
    OneWord(fieldName, cppType, w);
    assert NO_INDEX.columns + [CppToDb(fieldName)] == [CppToDb(fieldName)];
  }

  // ---------------------------------------------------------------- the order of tags

  /** An index is on the column name that is known when its tag is read: a name that comes later is not used. */
  lemma NameAndIndex(f: FieldMeta, name: string)
    requires f.index == NO_INDEX && f.columnName == None && IsCut(name) && |name| > 1
    ensures ApplyTags(f, ["name = " + name, "index"]).index.columns == [name]
    ensures ApplyTags(f, ["index", "name = " + name]).index.columns == [CppToDb(f.fieldName)]
    ensures ApplyTags(f, ["index", "name = " + name]).columnName == Some(name)
  {
    var tag, named := "name = " + name, f.(columnName := Some(name));
    assert tag == "name =" + (" " + name) by { assert "name = " == "name =" + " "; }
    StripBlank(name);
    ApplyName(f, " " + name);
    IndexWord(named);
    WordAlone(named, "index");
    ApplyTwo(f, tag, "index");
    IndexWord(f);
    WordAlone(f, "index");
    ApplyName(ApplyKeyword(f, "index"), " " + name);
    ApplyTwo(f, "index", tag);
  }
}
