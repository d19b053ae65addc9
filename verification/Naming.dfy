/** Conversion between names of variables and names in the database. */
module Naming {
  import opened Basics
  import opened Text

  // ---------------------------------------------------------------- cppToDb

  /**
   A text in snake case. `calm` says that the character before the text is there and no capital:
   then a leading capital starts a new word.
   */
  function Snake(s: string, calm: bool): string {
    if s == "" then "" else
      (if calm && IsUpper(s[0]) then "_" else "") + [Lower(s[0])] + Snake(s[1..], !IsUpper(s[0]))
  }

  function CppToDb(name: string): string { Snake(name, false) }

  /** cppToDb: collects a word whenever a capital follows a character that is none. */
  method CppNameToDb(name: string) returns (res: string)
    ensures res == CppToDb(name)
  {
    res := "";
    if name == "" { return; }
    var flag := true;
    var l := 0;
    for i := 0 to |name|
      invariant 0 <= l <= i && (i == 0 ==> flag) && (i > 0 ==> l < i && flag == IsUpper(name[i - 1]))
      invariant (l == 0 ==> res == "") && (l > 0 ==> res != "" && !IsUpper(name[l - 1]) && IsUpper(name[l]))
      invariant forall k | l < k < i :: IsUpper(name[k]) ==> IsUpper(name[k - 1])
      invariant res == Snake(name[..l], false)
    {
      if !IsUpper(name[i]) {
        flag := false;
      }
      if !flag && IsUpper(name[i]) {
        flag := true;
        OneMoreWord(name, l, i);
        var sub := ToLower(name[l..i]);
        if |res| > 0 { res := res + "_"; }
        res := res + sub;
        l := i;
      }
    }
    OneMoreWord(name, l, |name|);
    assert name[..|name|] == name && name[l..|name|] == name[l..];
    var sub := ToLower(name[l..]);
    if |res| > 0 { res := res + "_"; }
    res := res + sub;
  }

  lemma OneMoreWord(name: string, l: nat, i: nat)
    requires l < i <= |name|
    requires l > 0 ==> !IsUpper(name[l - 1]) && IsUpper(name[l])
    requires forall k | l < k < i :: IsUpper(name[k]) ==> IsUpper(name[k - 1])
    ensures Snake(name[..i], false) ==
            Snake(name[..l], false) + (if l > 0 then "_" else "") + ToLower(name[l..i])
    ensures Snake(name[..i], false) != ""
  {
    var a, b := name[..l], name[l..i];
    assert name[..i] == a + b;
    UnbrokenPart(name, l, i);
    SnakeWord(b, l > 0);
    SnakeTwoParts(a, b);
  }

  lemma SnakeTwoParts(a: string, b: string)
    requires a != "" ==> !IsUpper(a[|a| - 1])
    ensures Snake(a + b, false) == Snake(a, false) + Snake(b, a != "")
  {
    SnakeConcat(a, b, false);
  }

  lemma UnbrokenPart(name: string, l: nat, i: nat)
    requires l < i <= |name| && forall k | l < k < i :: IsUpper(name[k]) ==> IsUpper(name[k - 1])
    ensures Unbroken(name[l..i])
  {
    forall k | 0 < k < i - l ensures IsUpper(name[l..i][k]) ==> IsUpper(name[l..i][k - 1]) {
      assert name[l..i][k] == name[l + k] && name[l..i][k - 1] == name[l + k - 1];
    }
  }

  lemma {:induction false} SnakeConcat(a: string, b: string, calm: bool)
    ensures Snake(a + b, calm) ==
            Snake(a, calm) + Snake(b, if a == "" then calm else !IsUpper(a[|a| - 1]))
  {
    if a == "" {
      assert a + b == b;
    } else {
      assert (a + b)[1..] == a[1..] + b;
      SnakeConcat(a[1..], b, !IsUpper(a[0]));
    }
  }

  /** No capital follows a character that is none. */
  predicate Unbroken(w: string) {
    forall k | 0 < k < |w| :: IsUpper(w[k]) ==> IsUpper(w[k - 1])
  }

  lemma UnbrokenRest(w: string)
    requires w != "" && Unbroken(w)
    ensures Unbroken(w[1..]) && (w[1..] != "" && IsUpper(w[1..][0]) ==> IsUpper(w[0]))
  {
    forall k | 0 < k < |w[1..]| ensures IsUpper(w[1..][k]) ==> IsUpper(w[1..][k - 1]) {
      assert w[1..][k] == w[k + 1] && w[1..][k - 1] == w[k];
    }
  }

  lemma {:induction false} SnakeWord(w: string, calm: bool)
    requires w != "" && Unbroken(w) && (calm ==> IsUpper(w[0]))
    ensures Snake(w, calm) == (if calm then "_" else "") + ToLower(w)
  {
    UnbrokenRest(w);
    if w[1..] == "" {
    } else if IsUpper(w[0]) {
      SnakeWord(w[1..], false);
    } else {
      SnakeQuiet(w[1..]);
    }
  }

  lemma {:induction false} SnakeQuiet(w: string)
    requires w != "" && Unbroken(w) && !IsUpper(w[0])
    ensures Snake(w, true) == ToLower(w)
  {
    UnbrokenRest(w);
    if w[1..] != "" { SnakeQuiet(w[1..]); }
  }

  // ---------------------------------------------------------------- dbToCpp

  function Capitalize(s: string): string {
    if s == "" then "" else [Upper(s[0])] + s[1..]
  }

  /** The words with every one after the first, or every one, capitalized. */
  function Words(v: seq<string>, capitalizeFirst: bool): string {
    if v == [] then "" else
      (if capitalizeFirst then Capitalize(v[0]) else v[0]) + Words(v[1..], true)
  }

  function DbToCpp(name: string, capitalizeFirst: bool): string {
    Words(Split(name, {'_'}), capitalizeFirst)
  }

  /** dbToCpp. */
  method DbNameToCpp(name: string, capitalizeFirst: bool := false) returns (res: string)
    ensures res == DbToCpp(name, capitalizeFirst)
  {
    res := "";
    if name == "" { return; }
    var v := SplitText(name, {'_'});
    for i := 0 to |v|
      invariant res + Words(v[i..], capitalizeFirst || i > 0) == Words(v, capitalizeFirst)
    {
      OneMore(v, i, capitalizeFirst || i > 0);
      var word := if capitalizeFirst || i > 0 then Capitalize(v[i]) else v[i];
      Regroup(res, word, Words(v[i + 1..], true));
      res := res + word;
    }
  }

  lemma OneMore(v: seq<string>, i: nat, capitalize: bool)
    requires i < |v|
    ensures Words(v[i..], capitalize) ==
            (if capitalize then Capitalize(v[i]) else v[i]) + Words(v[i + 1..], true)
  {
    assert v[i..][1..] == v[i + 1..];
  }

  /**
   The same, character by character: an underscore makes the next other character start a word,
   which is capitalized when `started` says that there was a word before.
   */
  function Camel(s: string, started: bool, start: bool): string {
    if s == "" then ""
    else if s[0] == '_' then Camel(s[1..], started, true)
    else [if started && start then Upper(s[0]) else s[0]] + Camel(s[1..], true, false)
  }

  lemma {:induction false} CamelWord(w: string, tail: string)
    requires Free(w, {'_'})
    ensures Camel(w + tail, true, false) == w + Camel(tail, true, false)
  {
    if w == "" {
      assert w + tail == tail;
    } else {
      assert (w + tail)[1..] == w[1..] + tail;
      CamelWord(w[1..], tail);
    }
  }

  lemma {:induction false} CamelIsWords(s: string, started: bool)
    ensures Camel(s, started, true) == Words(Split(s, {'_'}), started)
    decreases |s|
  {
    if s != "" {
      if s[0] == '_' {
        CamelIsWords(s[1..], started);
      } else {
        var n := FirstOf(s, {'_'});
        FirstOfIsFirst(s, {'_'});
        assert s == s[..n] + s[n..];
        CamelFirstWord(s[..n], s[n..], started);
        if n < |s| {
          assert s[n..][1..] == s[n + 1..];
          CamelIsWords(s[n + 1..], true);
        }
      }
    }
  }

  lemma CamelFirstWord(w: string, tail: string, started: bool)
    requires w != "" && Free(w, {'_'})
    ensures Camel(w + tail, started, true) == (if started then Capitalize(w) else w) + Camel(tail, true, false)
  {
    assert (w + tail)[1..] == w[1..] + tail;
    CamelWord(w[1..], tail);
  }

  // ---------------------------------------------------------------- round trips

  /** No underscore, no capital in front, no two capitals side by side. */
  predicate CamelName(n: string) {
    && Free(n, {'_'})
    && (n != "" ==> !IsUpper(n[0]))
    && forall i | 0 < i < |n| :: !(IsUpper(n[i - 1]) && IsUpper(n[i]))
  }

  /** Each capital of the text follows a character that is none. */
  predicate Spaced(n: string, calm: bool) {
    n != "" ==> (IsUpper(n[0]) ==> calm) && Spaced(n[1..], !IsUpper(n[0]))
  }

  lemma {:induction false} SpacedPairs(n: string, calm: bool)
    ensures Spaced(n, calm) <==>
            (n != "" && IsUpper(n[0]) ==> calm) && forall i | 0 < i < |n| :: !(IsUpper(n[i - 1]) && IsUpper(n[i]))
  {
    if n != "" {
      SpacedPairs(n[1..], !IsUpper(n[0]));
      assert forall i | 0 < i < |n[1..]| :: n[1..][i] == n[i + 1] && n[1..][i - 1] == n[i];
      if Spaced(n, calm) && |n| > 1 {
        forall i | 0 < i < |n| ensures !(IsUpper(n[i - 1]) && IsUpper(n[i])) {
          if i > 1 { assert n[1..][i - 1] == n[i]; }
        }
      }
    }
  }

  lemma {:induction false} CamelOfSnake(n: string, calm: bool)
    requires Free(n, {'_'})
    ensures Camel(Snake(n, calm), true, false) == n <==> Spaced(n, calm)
  {
    if n != "" {
      var rest := Snake(n[1..], !IsUpper(n[0]));
      CamelOfSnake(n[1..], !IsUpper(n[0]));
      assert n == [n[0]] + n[1..];
      if calm && IsUpper(n[0]) {
        assert Snake(n, calm)[2..] == rest;
        CamelAfterUnderscore(Snake(n, calm));
      } else {
        assert Snake(n, calm)[1..] == rest;
      }
    }
  }

  lemma {:induction false} CamelHasNoUnderscore(s: string, started: bool, start: bool)
    ensures Free(Camel(s, started, start), {'_'})
  {
    if s != "" {
      CamelHasNoUnderscore(s[1..], if s[0] == '_' then started else true, s[0] == '_');
    }
  }

  /** Exactly the plain camel-case names survive the way to the database and back. */
  lemma NameRoundTrip(n: string)
    ensures DbToCpp(CppToDb(n), false) == n <==> CamelName(n)
  {
    CamelIsWords(CppToDb(n), false);
    CamelHasNoUnderscore(CppToDb(n), false, true);
    if n != "" && Free(n, {'_'}) {
      var rest := Snake(n[1..], !IsUpper(n[0]));
      assert CppToDb(n)[1..] == rest;
      CamelOfSnake(n[1..], !IsUpper(n[0]));
      SpacedPairs(n, false);
      assert n == [n[0]] + n[1..];
    }
  }

  /**
   Words of a snake-case name: no capitals, each underscore between two words, a letter a-z after
   it, and no other underscore right after that letter.
   */
  predicate SnakeName(s: string) {
    (s != "" ==> s[0] != '_') && SnakeTail(s)
  }

  predicate NoUpper(s: string) { forall i | 0 <= i < |s| :: !IsUpper(s[i]) }

  predicate SnakeTail(s: string) {
    && NoUpper(s)
    && (forall i | 0 <= i < |s| && s[i] == '_' ::
          i + 1 < |s| && IsLower(s[i + 1]) && (i + 2 < |s| ==> s[i + 2] != '_'))
  }

  lemma SnakeTailRest(s: string, k: nat)
    requires k <= |s| && SnakeTail(s)
    ensures SnakeTail(s[k..])
  {
    forall i | 0 <= i < |s[k..]| && s[k..][i] == '_'
      ensures i + 1 < |s[k..]| && IsLower(s[k..][i + 1]) && (i + 2 < |s[k..]| ==> s[k..][i + 2] != '_')
    {
      assert s[i + k] == '_';
    }
  }

  lemma SnakeCons(c: char, rest: string, calm: bool)
    ensures Snake([c] + rest, calm) == (if calm && IsUpper(c) then "_" else "") + [Lower(c)] + Snake(rest, !IsUpper(c))
  {
    assert ([c] + rest)[1..] == rest;
  }

  lemma CamelAfterUnderscore(s: string)
    requires |s| > 1 && s[0] == '_' && s[1] != '_'
    ensures Camel(s, true, false) == [Upper(s[1])] + Camel(s[2..], true, false)
  {
    assert s[1..][0] == s[1] && s[1..][1..] == s[2..];
  }

  lemma {:induction false} SnakeOfCamel(s: string, calm: bool)
    requires SnakeTail(s) && (s != "" && s[0] == '_' ==> calm)
    ensures Snake(Camel(s, true, false), calm) == s
    decreases |s|
  {
    if s != "" {
      if s[0] == '_' {
        SnakeTailAfter(s);
        SnakeOfCamel(s[2..], false);
        CamelAfterUnderscore(s);
        SnakeCons(Upper(s[1]), Camel(s[2..], true, false), calm);
      } else {
        SnakeTailRest(s, 1);
        SnakeOfCamel(s[1..], true);
        SnakeCons(s[0], Camel(s[1..], true, false), calm);
        assert s == [s[0]] + s[1..];
      }
    }
  }

  lemma SnakeTailAfter(s: string)
    requires SnakeTail(s) && s != "" && s[0] == '_'
    ensures |s| > 1 && IsLower(s[1]) && SnakeTail(s[2..]) && (s[2..] != "" ==> s[2..][0] != '_')
    ensures s == "_" + [s[1]] + s[2..]
  {
    SnakeTailRest(s, 2);
  }

  lemma {:induction false} SnakeShape(c: string, calm: bool)
    requires Free(c, {'_'})
    ensures SnakeTail(Snake(c, calm))
    ensures Snake(c, calm) != "" ==> (Snake(c, calm)[0] == '_' <==> calm && IsUpper(c[0]))
  {
    if c != "" {
      var rest := Snake(c[1..], !IsUpper(c[0]));
      SnakeShape(c[1..], !IsUpper(c[0]));
      var s := Snake(c, calm);
      if calm && IsUpper(c[0]) {
        assert s == "_" + [Lower(c[0])] + rest;
        assert forall i | 2 <= i < |s| :: s[i] == rest[i - 2];
      } else {
        assert s == [Lower(c[0])] + rest;
        assert forall i | 1 <= i < |s| :: s[i] == rest[i - 1];
      }
    }
  }

  /** Exactly the well-formed snake-case names survive the way to a variable name and back. */
  lemma DbNameRoundTrip(s: string)
    ensures CppToDb(DbToCpp(s, false)) == s <==> SnakeName(s)
  {
    CamelIsWords(s, false);
    if SnakeName(s) {
      SnakeOfWholeCamel(s);
    } else {
      var c := Camel(s, false, true);
      CamelHasNoUnderscore(s, false, true);
      SnakeShape(c, false);
    }
  }

  lemma SnakeOfWholeCamel(s: string)
    requires SnakeName(s)
    ensures CppToDb(Camel(s, false, true)) == s
  {
    if s != "" {
      SnakeTailRest(s, 1);
      SnakeOfCamel(s[1..], true);
      SnakeCons(s[0], Camel(s[1..], true, false), false);
      assert s == [s[0]] + s[1..];
    }
  }

  lemma {:induction false} SnakeWithoutCapitals(s: string, calm: bool)
    requires NoUpper(s)
    ensures Snake(s, calm) == s
  {
    if s != "" { SnakeWithoutCapitals(s[1..], true); }
  }

  lemma {:induction false} SnakeHasNoCapitals(s: string, calm: bool)
    ensures NoUpper(Snake(s, calm))
  {
    if s != "" { SnakeHasNoCapitals(s[1..], !IsUpper(s[0])); }
  }

  /** A name that has been converted stays as it is. */
  lemma CppToDbIdempotent(n: string)
    ensures CppToDb(CppToDb(n)) == CppToDb(n)
  {
    SnakeHasNoCapitals(n, false);
    SnakeWithoutCapitals(CppToDb(n), false);
  }

  // ---------------------------------------------------------------- names in two pieces

  /** Two pieces of a name are parted by an underscore exactly at a capital that follows no capital. */
  lemma CppToDbPieces(a: string, b: string)
    requires a != "" && b != ""
    ensures CppToDb(a + b) ==
            if IsUpper(b[0]) && !IsUpper(a[|a| - 1]) then CppToDb(a) + "_" + CppToDb(b) else CppToDb(a) + CppToDb(b)
  {
    SnakeConcat(a, b, false);
    if IsUpper(b[0]) && !IsUpper(a[|a| - 1]) {
      SnakeCalm(b);
      Regroup(CppToDb(a), "_", CppToDb(b));
    } else {
      SnakeSame(b, !IsUpper(a[|a| - 1]));
    }
  }

  lemma SnakeCalm(b: string)
    requires b != "" && IsUpper(b[0])
    ensures Snake(b, true) == "_" + Snake(b, false)
  {
    var rest := Snake(b[1..], !IsUpper(b[0]));
    assert Snake(b, false) == "" + [Lower(b[0])] + rest;
    assert Snake(b, false) == [Lower(b[0])] + rest;
  }

  lemma SnakeSame(b: string, calm: bool)
    requires b != "" && !(calm && IsUpper(b[0]))
    ensures Snake(b, calm) == Snake(b, false)
  {
  }

  /** A single character only changes its case. */
  lemma CppToDbOne(c: char)
    ensures CppToDb([c]) == [Lower(c)] && CppToDb("") == ""
  {
    assert Snake([c][1..], !IsUpper(c)) == "";
    assert Snake([c], false) == "" + [Lower(c)] + "";
  }

  /** The first word stays as it is, or is capitalized when asked; the others always are. */
  lemma DbToCppPieces(a: string, b: string, capitalizeFirst: bool)
    requires a != "" && Free(a, {'_'})
    ensures DbToCpp(a + "_" + b, capitalizeFirst) == DbToCpp(a, capitalizeFirst) + DbToCpp(b, true)
    ensures DbToCpp(a, capitalizeFirst) == if capitalizeFirst then Capitalize(a) else a
  {
    SplitFirst(a, "_" + b, '_');
    assert a + ("_" + b) == a + "_" + b && ("_" + b)[1..] == b;
    WordsFirst(a, Split(b, {'_'}), capitalizeFirst);
    DbToCppWord(a, capitalizeFirst);
  }

  lemma DbToCppWord(a: string, capitalizeFirst: bool)
    requires a != "" && Free(a, {'_'})
    ensures DbToCpp(a, capitalizeFirst) == if capitalizeFirst then Capitalize(a) else a
  {
    SplitFirst(a, "", '_');
    assert a + "" == a && [a] + [] == [a];
    WordsFirst(a, [], capitalizeFirst);
    assert Words([], true) == "";
  }

  lemma WordsFirst(first: string, rest: seq<string>, capitalizeFirst: bool)
    ensures Words([first] + rest, capitalizeFirst) ==
            (if capitalizeFirst then Capitalize(first) else first) + Words(rest, true)
  {
    assert ([first] + rest)[1..] == rest && ([first] + rest)[0] == first;
  }

  /** A class is named as a variable would be, but with a capital. */
  lemma ClassName(name: string)
    ensures DbToCpp(name, true) == Capitalize(DbToCpp(name, false))
  {
    SplitParts(name, {'_'});
    var v := Split(name, {'_'});
    if v != [] {
      assert v[0] != "";
      assert Words(v, false) == v[0] + Words(v[1..], true) && (v[0] + Words(v[1..], true))[0] == v[0][0];
      assert (v[0] + Words(v[1..], true))[1..] == v[0][1..] + Words(v[1..], true);
    }
  }
}
