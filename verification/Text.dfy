/** Character classes of the "C" locale and the string utilities built on them. */
module Text {
  import opened Basics

  predicate IsUpper(c: char) { 'A' <= c <= 'Z' }

  predicate IsLower(c: char) { 'a' <= c <= 'z' }

  predicate IsSpace(c: char) { c == ' ' || '\t' <= c <= '\r' }

  function Lower(c: char): char {
    if IsUpper(c) then (c as int + 32) as char else c
  }

  function Upper(c: char): char {
    if IsLower(c) then (c as int - 32) as char else c
  }

  /** Util::toLowerCase. */
  function ToLower(s: string): (r: string)
    ensures |r| == |s|
  {
    if s == [] then [] else [Lower(s[0])] + ToLower(s[1..])
  }

  predicate AllSpace(s: string) { forall i | 0 <= i < |s| :: IsSpace(s[i]) }

  /** Text without any of the characters. */
  predicate Free(s: string, seps: set<char>) { forall i | 0 <= i < |s| :: s[i] !in seps }

  // ---------------------------------------------------------------- split

  /** find_first_of, with the length of the text when there is none. */
  function FirstOf(s: string, seps: set<char>): (i: nat)
    ensures i <= |s|
  {
    if s == [] || s[0] in seps then 0 else 1 + FirstOf(s[1..], seps)
  }

  lemma {:induction false} FirstOfIsFirst(s: string, seps: set<char>)
    ensures var i := FirstOf(s, seps); Free(s[..i], seps) && (i < |s| ==> s[i] in seps)
  {
    if s != [] && s[0] !in seps {
      FirstOfIsFirst(s[1..], seps);
      var i := FirstOf(s, seps);
      assert s[..i] == [s[0]] + s[1..][..i - 1];
    }
  }

  /** The maximal runs of characters that are no separators. */
  function Split(s: string, seps: set<char>): seq<string> {
    if s == [] then []
    else if s[0] in seps then Split(s[1..], seps)
    else
      var n := FirstOf(s, seps);
      [s[..n]] + if n == |s| then [] else Split(s[n + 1..], seps)
  }

  /** Util::split. */
  method SplitText(str: string, seps: set<char>) returns (arr: seq<string>)
    ensures arr == Split(str, seps)
  {
    arr := [];
    ghost var all := Split(str, seps);
    var l, r := 0, 0;
    while l < |str|
      invariant l <= |str|
      invariant arr + Split(str[l..], seps) == all
    {
      r := l + FirstOf(str[l..], seps);
      SplitNext(str, seps, l, r);
      if r == l {
        l := l + 1;
        continue;
      }
      if r == |str| {
        arr := arr + [str[l..]];
        break;
      }
      assert l < r < |str|;
      AppendOne(arr, str[l..r], Split(str[r + 1..], seps));
      arr := arr + [str[l..r]];
      l := r + 1;
    }
  }

  lemma SplitNext(s: string, seps: set<char>, l: nat, r: nat)
    requires l < |s| && r == l + FirstOf(s[l..], seps)
    ensures r <= |s|
    ensures r == l ==> Split(s[l..], seps) == Split(s[l + 1..], seps)
    ensures l < r == |s| ==> Split(s[l..], seps) == [s[l..]]
    ensures l < r < |s| ==> Split(s[l..], seps) == [s[l..r]] + Split(s[r + 1..], seps)
  {
    var rest, n := s[l..], r - l;
    SplitHead(rest, seps);
    Slices(s, l, r);
  }

  lemma SplitHead(s: string, seps: set<char>)
    requires s != ""
    ensures var n := FirstOf(s, seps);
      && (n == 0 ==> Split(s, seps) == Split(s[1..], seps))
      && (0 < n == |s| ==> Split(s, seps) == [s])
      && (0 < n < |s| ==> Split(s, seps) == [s[..n]] + Split(s[n + 1..], seps))
  {
    assert s[..|s|] == s;
  }

  lemma Slices(s: string, l: nat, r: nat)
    requires l <= r <= |s|
    ensures s[l..][..r - l] == s[l..r]
    ensures r < |s| ==> s[l..][r - l + 1..] == s[r + 1..]
  {
  }

  lemma AppendOne(done: seq<string>, part: string, rest: seq<string>)
    ensures done + ([part] + rest) == done + [part] + rest
  {
  }

  function Join(parts: seq<string>, sep: char): string {
    if parts == [] then ""
    else if |parts| == 1 then parts[0]
    else parts[0] + [sep] + Join(parts[1..], sep)
  }

  /** Parts that are not empty and free of the separator come back from their joined text. */
  lemma {:induction false} SplitJoin(parts: seq<string>, sep: char)
    requires forall i | 0 <= i < |parts| :: parts[i] != "" && Free(parts[i], {sep})
    ensures Split(Join(parts, sep), {sep}) == parts
  {
    if |parts| == 1 {
      SplitFirst(parts[0], "", sep);
      assert parts[0] + "" == parts[0];
    } else if |parts| > 1 {
      var rest := Join(parts[1..], sep);
      SplitFirst(parts[0], [sep] + rest, sep);
      assert ([sep] + rest)[1..] == rest;
      assert parts[0] + ([sep] + rest) == parts[0] + [sep] + rest;
      SplitJoin(parts[1..], sep);
    }
  }

  /** A part in front of a separator is the first one. */
  lemma SplitFirst(p: string, tail: string, sep: char)
    requires p != "" && Free(p, {sep}) && (tail != "" ==> tail[0] == sep)
    ensures Split(p + tail, {sep}) == [p] + if tail == "" then [] else Split(tail[1..], {sep})
  {
    var s := p + tail;
    FirstOfFree(p, tail, {sep});
    assert s[0] == p[0];
    assert s[..|p|] == p;
    if tail != "" { assert s[|p| + 1..] == tail[1..]; }
  }

  lemma {:induction false} FirstOfFree(p: string, tail: string, seps: set<char>)
    requires Free(p, seps) && (tail != "" ==> tail[0] in seps)
    ensures FirstOf(p + tail, seps) == |p|
  {
    if p == "" {
      assert p + tail == tail;
    } else {
      assert (p + tail)[1..] == p[1..] + tail;
      FirstOfFree(p[1..], tail, seps);
    }
  }

  function Without(s: string, seps: set<char>): string {
    if s == [] then [] else (if s[0] in seps then [] else [s[0]]) + Without(s[1..], seps)
  }

  function Concat(parts: seq<string>): string {
    if parts == [] then [] else parts[0] + Concat(parts[1..])
  }

  lemma {:induction false} ConcatAppend(parts: seq<string>, last: string)
    ensures Concat(parts + [last]) == Concat(parts) + last
  {
    if parts == [] {
      assert [] + [last] == [last] && [last][1..] == [];
    } else {
      assert (parts + [last])[1..] == parts[1..] + [last];
      ConcatAppend(parts[1..], last);
    }
  }

  lemma {:induction false} ConcatConcat(a: seq<string>, b: seq<string>)
    ensures Concat(a + b) == Concat(a) + Concat(b)
  {
    if a == [] {
      assert a + b == b;
    } else {
      assert (a + b)[1..] == a[1..] + b;
      ConcatConcat(a[1..], b);
    }
  }

  lemma {:induction false} WithoutConcat(a: string, b: string, seps: set<char>)
    ensures Without(a + b, seps) == Without(a, seps) + Without(b, seps)
  {
    if a == "" {
      assert a + b == b;
    } else {
      assert (a + b)[1..] == a[1..] + b;
      WithoutConcat(a[1..], b, seps);
    }
  }

  lemma {:induction false} WithoutFree(s: string, seps: set<char>)
    requires Free(s, seps)
    ensures Without(s, seps) == s
  {
    if s != "" { WithoutFree(s[1..], seps); }
  }

  lemma WithoutFirst(s: string, seps: set<char>, n: nat)
    requires n <= |s| && Free(s[..n], seps) && (n < |s| ==> s[n] in seps)
    ensures Without(s, seps) == s[..n] + if n == |s| then "" else Without(s[n + 1..], seps)
  {
    WithoutFree(s[..n], seps);
    assert s == s[..n] + s[n..];
    WithoutConcat(s[..n], s[n..], seps);
    if n < |s| { assert s[n..][1..] == s[n + 1..]; }
  }

  ghost predicate AllParts(v: seq<string>, seps: set<char>) {
    forall i | 0 <= i < |v| :: v[i] != "" && Free(v[i], seps)
  }

  /** On any text the parts are not empty and hold no separator. */
  lemma {:induction false} SplitParts(s: string, seps: set<char>)
    ensures AllParts(Split(s, seps), seps)
  {
    if s != [] {
      if s[0] in seps {
        SplitParts(s[1..], seps);
      } else {
        var n := FirstOf(s, seps);
        FirstOfIsFirst(s, seps);
        if n < |s| { SplitParts(s[n + 1..], seps); }
      }
    }
  }

  /** Splitting loses nothing but separators. */
  lemma {:induction false} SplitKeeps(s: string, seps: set<char>)
    ensures Concat(Split(s, seps)) == Without(s, seps)
  {
    if s != [] {
      if s[0] in seps {
        SplitKeeps(s[1..], seps);
      } else {
        var n := FirstOf(s, seps);
        FirstOfIsFirst(s, seps);
        WithoutFirst(s, seps, n);
        var rest := if n == |s| then [] else Split(s[n + 1..], seps);
        if n < |s| { SplitKeeps(s[n + 1..], seps); }
        assert ([s[..n]] + rest)[1..] == rest;
      }
    }
  }

  // ---------------------------------------------------------------- strip

  /** The text without the white space around it. */
  function Trimmed(s: string): string {
    if s == "" then ""
    else if IsSpace(s[0]) then Trimmed(s[1..])
    else if IsSpace(s[|s| - 1]) then Trimmed(s[..|s| - 1])
    else s
  }

  /** What strip returns: it loses a single character that ends the text. */
  function Strip(s: string): string {
    if |Trimmed(s)| == 1 && !IsSpace(s[|s| - 1]) then "" else Trimmed(s)
  }

  /** Util::strip. */
  method StripText(str: string) returns (r: string)
    ensures r == Strip(str)
  {
    var i, j := 0, |str| - 1;
    if j < i { return ""; }
    while i < j && IsSpace(str[i])
      invariant 0 <= i <= j == |str| - 1
      invariant Trimmed(str[i..]) == Trimmed(str)
    {
      assert str[i..][1..] == str[i + 1..];
      i := i + 1;
    }
    if i == j {
      TrimmedOne(str[i..]);
      return "";
    }
    assert str[i..] == str[i..j + 1];
    while j > i && IsSpace(str[j])
      invariant i <= j < |str| && !IsSpace(str[i])
      invariant j < |str| - 1 ==> IsSpace(str[|str| - 1])
      invariant Trimmed(str[i..j + 1]) == Trimmed(str)
    {
      assert str[i..j + 1][..j - i] == str[i..j];
      j := j - 1;
    }
    assert str[i..j + 1][j - i] == str[j];
    CutIsTrimmed(str[i..j + 1]);
    return str[i..j + 1];
  }

  lemma TrimmedOne(s: string)
    requires |s| == 1
    ensures Trimmed(s) == if IsSpace(s[0]) then "" else s
  {
    assert s[1..] == "";
  }

  lemma {:induction false} TrimmedPadding(a: string, w: string, b: string)
    requires AllSpace(a) && AllSpace(b) && w != "" && !IsSpace(w[0]) && !IsSpace(w[|w| - 1])
    ensures Trimmed(a + w + b) == w
    decreases |a| + |b|
  {
    var s := a + w + b;
    if a != "" {
      assert s[0] == a[0] && s[1..] == a[1..] + w + b;
      TrimmedPadding(a[1..], w, b);
    } else if b != "" {
      assert s[|s| - 1] == b[|b| - 1] && s[..|s| - 1] == a + w + b[..|b| - 1];
      TrimmedPadding(a, w, b[..|b| - 1]);
    } else {
      assert s == w;
    }
  }

  /** Padding is removed, except that one character without padding behind it is lost with it. */
  lemma StripPadding(a: string, w: string, b: string)
    requires AllSpace(a) && AllSpace(b) && w != "" && !IsSpace(w[0]) && !IsSpace(w[|w| - 1])
    ensures Strip(a + w + b) == w <==> |w| > 1 || b != ""
  {
    TrimmedPadding(a, w, b);
    var s := a + w + b;
    assert s[|s| - 1] == if b == "" then w[|w| - 1] else b[|b| - 1];
  }

  // ---------------------------------------------------------------- white space at the ends

  /** No white space at either end. */
  predicate IsCut(s: string) { s != "" ==> !IsSpace(s[0]) && !IsSpace(s[|s| - 1]) }

  lemma {:induction false} TrimmedIsCut(s: string, chars: set<char>)
    ensures IsCut(Trimmed(s)) && |Trimmed(s)| <= |s|
    ensures |Trimmed(s)| == |s| ==> Trimmed(s) == s
    ensures Free(s, chars) ==> Free(Trimmed(s), chars)
  {
    if s != "" {
      if IsSpace(s[0]) {
        TrimmedIsCut(s[1..], chars);
      } else if IsSpace(s[|s| - 1]) {
        TrimmedIsCut(s[..|s| - 1], chars);
      }
    }
  }

  lemma {:induction false} CutIsTrimmed(s: string)
    requires IsCut(s)
    ensures Trimmed(s) == s
  {
  }

  /** Behind a blank, text comes back unless there is white space around it or it is one character. */
  lemma StripBlank(s: string)
    ensures Strip(" " + s) == s <==> IsCut(s) && |s| != 1
    ensures |Strip(" " + s)| <= |s|
  {
    assert (" " + s)[1..] == s;
    TrimmedIsCut(s, {});
    if IsCut(s) { CutIsTrimmed(s); }
    if s != "" { assert (" " + s)[|s|] == s[|s| - 1]; }
  }

  /** The text without the white space behind it. */
  function CutEnd(s: string): string {
    if s == "" || !IsSpace(s[|s| - 1]) then s else CutEnd(s[..|s| - 1])
  }

  lemma {:induction false} CutEndIs(s: string) returns (pad: string)
    ensures s == CutEnd(s) + pad && AllSpace(pad)
    ensures CutEnd(s) != "" ==> !IsSpace(CutEnd(s)[|CutEnd(s)| - 1])
  {
    if s == "" || !IsSpace(s[|s| - 1]) {
      pad := "";
    } else {
      var last := s[|s| - 1];
      pad := CutEndIs(s[..|s| - 1]);
      assert s == s[..|s| - 1] + [last] && s == CutEnd(s) + (pad + [last]);
      pad := pad + [last];
    }
  }

  lemma {:induction false} CutEndPadding(s: string, pad: string)
    requires AllSpace(pad) && (s != "" ==> !IsSpace(s[|s| - 1]))
    ensures CutEnd(s + pad) == s
    decreases |pad|
  {
    if pad == "" {
      assert s + pad == s;
    } else {
      assert (s + pad)[..|s + pad| - 1] == s + pad[..|pad| - 1];
      CutEndPadding(s, pad[..|pad| - 1]);
    }
  }

  // ---------------------------------------------------------------- parts of a text

  /** The parts have no character that the text has not. */
  lemma {:induction false} SplitFree(s: string, seps: set<char>, chars: set<char>)
    requires Free(s, chars)
    ensures AllParts(Split(s, seps), chars + seps)
  {
    SplitParts(s, seps);
    if s != [] {
      if s[0] in seps {
        SplitFree(s[1..], seps, chars);
      } else {
        var n := FirstOf(s, seps);
        if n < |s| { SplitFree(s[n + 1..], seps, chars); }
      }
    }
  }

  /** A text that does not end with a separator ends with its last part. */
  lemma {:induction false} SplitEnd(s: string, seps: set<char>)
    requires s != "" && s[|s| - 1] !in seps
    ensures var v := Split(s, seps); v != [] && v[|v| - 1] != "" && v[|v| - 1][|v[|v| - 1]| - 1] == s[|s| - 1]
  {
    if s[0] in seps {
      SplitEnd(s[1..], seps);
    } else {
      var n := FirstOf(s, seps);
      FirstOfIsFirst(s, seps);
      if n < |s| { SplitEnd(s[n + 1..], seps); }
    }
  }

  /** Splitting and joining again can only lose characters, and if it loses none it gives the text back. */
  lemma {:induction false} JoinSplit(s: string, sep: char)
    ensures |Join(Split(s, {sep}), sep)| <= |s|
    ensures |Join(Split(s, {sep}), sep)| == |s| ==> Join(Split(s, {sep}), sep) == s
  {
    if s != [] {
      if s[0] == sep {
        JoinSplit(s[1..], sep);
      } else {
        var n := FirstOf(s, {sep});
        FirstOfIsFirst(s, {sep});
        if n == |s| {
          assert s[..n] == s;
        } else {
          JoinSplit(s[n + 1..], sep);
          assert s == s[..n] + [sep] + s[n + 1..];
          JoinFirst(s[..n], Split(s[n + 1..], {sep}), sep);
        }
      }
    }
  }

  lemma JoinFirst(first: string, rest: seq<string>, sep: char)
    ensures Join([first] + rest, sep) == if rest == [] then first else first + [sep] + Join(rest, sep)
  {
    assert ([first] + rest)[1..] == rest;
  }

  lemma {:induction false} JoinAppend(parts: seq<string>, last: string, sep: char)
    requires parts != []
    ensures Join(parts + [last], sep) == Join(parts, sep) + [sep] + last
  {
    if |parts| > 1 {
      assert (parts + [last])[1..] == parts[1..] + [last];
      JoinAppend(parts[1..], last, sep);
    } else {
      assert (parts + [last])[1..] == [last];
    }
  }

  /** A separator at the end adds no part. */
  lemma {:induction false} SplitJoinEnd(parts: seq<string>, sep: char)
    requires parts != [] && forall i | 0 <= i < |parts| :: parts[i] != "" && Free(parts[i], {sep})
    ensures Split(Join(parts, sep) + [sep], {sep}) == parts
  {
    if |parts| == 1 {
      SplitFirst(parts[0], [sep], sep);
      assert [sep][1..] == "";
    } else {
      var front, rest := parts[0] + [sep], Join(parts[1..], sep);
      SplitFirst(parts[0], [sep] + (rest + [sep]), sep);
      assert ([sep] + (rest + [sep]))[1..] == rest + [sep];
      Regroup(front, rest, [sep]);
      Regroup(parts[0], [sep], rest + [sep]);
      SplitJoinEnd(parts[1..], sep);
    }
  }
}
