/** Character and string helpers shared by the C# services and the Python
    scripts: ASCII lower-casing, substring search, whitespace trimming,
    splitting and joining. Strings are sequences of characters; only the
    ASCII range is case-folded. */
module Text {

  /** ASCII lower-casing of one character (C# ToLower / Python lower on ASCII). */
  function Lower(c: char): (r: char)
    ensures 'A' <= c <= 'Z' ==> r as int == c as int + 32
    ensures !('A' <= c <= 'Z') ==> r == c
  {
    if 'A' <= c <= 'Z' then (c as int + 32) as char else c
  }

  function LowerStr(s: string): (r: string)
    ensures |r| == |s|
    ensures forall i :: 0 <= i < |s| ==> r[i] == Lower(s[i])
  {
    if s == [] then [] else [Lower(s[0])] + LowerStr(s[1..])
  }

  lemma LowerIdempotent(c: char)
    ensures Lower(Lower(c)) == Lower(c)
  {
  }

  lemma {:induction false} LowerStrIdempotent(s: string)
    ensures LowerStr(LowerStr(s)) == LowerStr(s)
  {
    var once := LowerStr(s);
    var twice := LowerStr(once);
    forall i | 0 <= i < |s| ensures twice[i] == once[i] {
      LowerIdempotent(s[i]);
    }
  }

  lemma LowerStrConcat(a: string, b: string)
    ensures LowerStr(a + b) == LowerStr(a) + LowerStr(b)
  {
    var l := LowerStr(a + b);
    var r := LowerStr(a) + LowerStr(b);
    assert |l| == |r|;
    forall i | 0 <= i < |l| ensures l[i] == r[i] {
      if i < |a| { assert (a + b)[i] == a[i]; } else { assert (a + b)[i] == b[i - |a|]; }
    }
  }

  /** Substring test: `needle` occurs in `hay` at some position
      (C# string.Contains, Python `needle in hay`). */
  predicate Contains(hay: string, needle: string)
    decreases |hay|
  {
    needle <= hay || (hay != [] && Contains(hay[1..], needle))
  }

  /** Contains agrees with the positional reading: some slice of `hay` is `needle`. */
  lemma {:induction false} ContainsAt(hay: string, needle: string, i: nat)
    requires i + |needle| <= |hay| && hay[i..i + |needle|] == needle
    ensures Contains(hay, needle)
    decreases i
  {
    if i == 0 {
      assert needle <= hay;
    } else {
      assert hay[1..][i - 1..i - 1 + |needle|] == needle;
      ContainsAt(hay[1..], needle, i - 1);
    }
  }

  /** What occurs in a string occurs in any extension of it. */
  lemma {:induction false} ContainsAppend(a: string, b: string, needle: string)
    requires Contains(a, needle)
    ensures Contains(a + b, needle)
    decreases |a|
  {
    if !(needle <= a) {
      ContainsAppend(a[1..], b, needle);
      assert (a + b)[1..] == a[1..] + b;
    }
  }

  lemma {:induction false} ContainsPrepend(a: string, b: string, needle: string)
    requires Contains(b, needle)
    ensures Contains(a + b, needle)
    decreases |a|
  {
    if a == [] {
      assert a + b == b;
    } else {
      ContainsPrepend(a[1..], b, needle);
      assert (a + b)[1..] == a[1..] + b;
    }
  }

  lemma ContainsSelf(s: string)
    ensures Contains(s, s)
  {
  }

  /** Case-insensitive containment: both sides are lower-cased first
      (C# `a.ToLower().Contains(b.ToLower())`, StringComparison.OrdinalIgnoreCase,
      Python `b.lower() in a.lower()`). */
  predicate ContainsIgnoreCase(hay: string, needle: string)
  {
    Contains(LowerStr(hay), LowerStr(needle))
  }

  lemma {:induction false} ContainsIgnoreCaseOfLower(hay: string, needle: string)
    ensures ContainsIgnoreCase(hay, needle) <==> ContainsIgnoreCase(LowerStr(hay), LowerStr(needle))
  {
    LowerStrIdempotent(hay);
    LowerStrIdempotent(needle);
  }

  /** Equality ignoring case (StringComparison.OrdinalIgnoreCase on ASCII). */
  predicate EqualsIgnoreCase(a: string, b: string)
  {
    LowerStr(a) == LowerStr(b)
  }

  /** Whitespace as Python's str.isspace sees it in the ASCII range (what
      str.strip, str.split and the `\s` of regular expressions skip): space,
      tab, newline, carriage return, vertical tab, form feed and the four
      separators \x1c to \x1f. */
  predicate IsSpace(c: char)
  {
    c == ' ' || c == '\t' || c == '\n' || c == '\r' || c == '\U{B}' || c == '\U{C}'
    || ('\U{1C}' <= c <= '\U{1F}')
  }

  function TrimStart(s: string): (r: string)
    ensures r == [] || !IsSpace(r[0])
  {
    if s != [] && IsSpace(s[0]) then TrimStart(s[1..]) else s
  }

  /** TrimStart removes a leading run of whitespace and nothing else. */
  lemma {:induction false} TrimStartSuffix(s: string)
    ensures var r := TrimStart(s);
            |r| <= |s| && r == s[|s| - |r|..] && forall i :: 0 <= i < |s| - |r| ==> IsSpace(s[i])
  {
    if s != [] && IsSpace(s[0]) {
      TrimStartSuffix(s[1..]);
    }
  }

  function TrimEnd(s: string): (r: string)
    ensures r == [] || !IsSpace(r[|r| - 1])
  {
    if s != [] && IsSpace(s[|s| - 1]) then TrimEnd(s[..|s| - 1]) else s
  }

  /** TrimEnd removes a trailing run of whitespace and nothing else. */
  lemma {:induction false} TrimEndPrefix(s: string)
    ensures var r := TrimEnd(s);
            |r| <= |s| && r == s[..|r|] && forall i :: |r| <= i < |s| ==> IsSpace(s[i])
  {
    if s != [] && IsSpace(s[|s| - 1]) {
      TrimEndPrefix(s[..|s| - 1]);
    }
  }

  /** Python str.strip(). */
  function Strip(s: string): (r: string)
    ensures r == [] || (!IsSpace(r[0]) && !IsSpace(r[|r| - 1]))
  {
    var t := TrimStart(s);
    TrimEndPrefix(t);
    TrimEnd(t)
  }

  /** Strip keeps a middle slice of its input. */
  lemma StripSlice(s: string) returns (off: nat)
    ensures off + |Strip(s)| <= |s| && Strip(s) == s[off..off + |Strip(s)|]
  {
    TrimStartSuffix(s);
    TrimEndPrefix(TrimStart(s));
    off := |s| - |TrimStart(s)|;
  }

  /** A string without surrounding whitespace is its own strip. */
  lemma StripClean(c: string)
    requires c != [] && !IsSpace(c[0]) && !IsSpace(c[|c| - 1])
    ensures Strip(c) == c
  {
  }

  lemma {:induction false} TrimStartBlank(s: string)
    requires forall j :: 0 <= j < |s| ==> IsSpace(s[j])
    ensures TrimStart(s) == []
    decreases |s|
  {
    if s != [] {
      TrimStartBlank(s[1..]);
    }
  }

  /** A string of whitespace strips to nothing. */
  lemma StripBlank(s: string)
    requires forall j :: 0 <= j < |s| ==> IsSpace(s[j])
    ensures Strip(s) == []
  {
    TrimStartBlank(s);
  }

  /** Python `re.split('[...]', s)` over a set of single-character separators:
      every separator occurrence cuts, so empty pieces are kept. */
  function SplitOn(s: string, seps: set<char>): (r: seq<string>)
    ensures |r| >= 1
    ensures forall i, j :: 0 <= i < |r| && 0 <= j < |r[i]| ==> r[i][j] !in seps
    decreases |s|
  {
    if s == [] then [[]]
    else
      var rest := SplitOn(s[1..], seps);
      if s[0] in seps then [[]] + rest
      else [[s[0]] + rest[0]] + rest[1..]
  }

  /** Number of separator characters in `s`. */
  function CountIn(s: string, seps: set<char>): nat
  {
    if s == [] then 0 else (if s[0] in seps then 1 else 0) + CountIn(s[1..], seps)
  }

  lemma {:induction false} SplitOnCount(s: string, seps: set<char>)
    ensures |SplitOn(s, seps)| == CountIn(s, seps) + 1
    decreases |s|
  {
    if s != [] { SplitOnCount(s[1..], seps); }
  }

  /** Joining the pieces back with one separator character restores the
      input when that character is the only separator. */
  lemma {:induction false} SplitOnJoin(s: string, c: char)
    ensures Join(SplitOn(s, {c}), [c]) == s
    decreases |s|
  {
    if s != [] {
      SplitOnJoin(s[1..], c);
      var rest := SplitOn(s[1..], {c});
      if s[0] != c {
        JoinConsHead(s[0], rest, [c]);
      }
    }
  }

  lemma JoinConsHead(x: char, parts: seq<string>, sep: string)
    requires |parts| >= 1
    ensures Join([[x] + parts[0]] + parts[1..], sep) == [x] + Join(parts, sep)
  {
    if |parts| == 1 {
    } else {
      assert ([[x] + parts[0]] + parts[1..])[1..] == parts[1..];
    }
  }

  /** A piece free of separators splits to itself. */
  lemma {:induction false} SplitOnPlain(a: string, seps: set<char>)
    requires forall j :: 0 <= j < |a| ==> a[j] !in seps
    ensures SplitOn(a, seps) == [a]
    decreases |a|
  {
    if a != [] {
      SplitOnPlain(a[1..], seps);
      assert [a[0]] + a[1..] == a;
    }
  }

  /** A separator-free piece followed by a separator splits off as the first piece. */
  lemma {:induction false} SplitOnHead(a: string, c: char, rest: string, seps: set<char>)
    requires c in seps && forall j :: 0 <= j < |a| ==> a[j] !in seps
    ensures SplitOn(a + [c] + rest, seps) == [a] + SplitOn(rest, seps)
    decreases |a|
  {
    if a == [] {
      assert a + [c] + rest == [c] + rest;
      assert ([c] + rest)[1..] == rest;
    } else {
      var s := a + [c] + rest;
      assert s[1..] == a[1..] + [c] + rest;
      SplitOnHead(a[1..], c, rest, seps);
      assert [a[0]] + a[1..] == a;
    }
  }

  /** Splitting undoes joining with one of the separators, when no piece
      contains a separator. */
  lemma {:induction false} SplitOnOfJoin(items: seq<string>, c: char, seps: set<char>)
    requires c in seps && |items| >= 1
    requires forall i, j :: 0 <= i < |items| && 0 <= j < |items[i]| ==> items[i][j] !in seps
    ensures SplitOn(Join(items, [c]), seps) == items
    decreases |items|
  {
    if |items| == 1 {
      SplitOnPlain(items[0], seps);
    } else {
      SplitOnOfJoin(items[1..], c, seps);
      SplitOnHead(items[0], c, Join(items[1..], [c]), seps);
    }
  }

  /** Python `sep.join(parts)`. */
  function Join(parts: seq<string>, sep: string): string
  {
    if parts == [] then []
    else if |parts| == 1 then parts[0]
    else parts[0] + sep + Join(parts[1..], sep)
  }

  /** The summed length of the parts. */
  function TotalLength(parts: seq<string>): nat
  {
    if parts == [] then 0 else |parts[0]| + TotalLength(parts[1..])
  }

  lemma {:induction false} JoinLength(parts: seq<string>, sep: string)
    requires |parts| >= 1
    ensures |Join(parts, sep)| == TotalLength(parts) + (|parts| - 1) * |sep|
    decreases |parts|
  {
    if |parts| > 1 {
      JoinLength(parts[1..], sep);
    }
  }

  /** Every part occurs in the joined string. */
  lemma {:induction false} JoinContains(parts: seq<string>, sep: string, i: nat)
    requires i < |parts|
    ensures Contains(Join(parts, sep), parts[i])
    decreases |parts|
  {
    if |parts| == 1 {
      ContainsSelf(parts[0]);
    } else if i == 0 {
      ContainsSelf(parts[0]);
      ContainsAppend(parts[0], sep + Join(parts[1..], sep), parts[0]);
      assert parts[0] + sep + Join(parts[1..], sep) == parts[0] + (sep + Join(parts[1..], sep));
    } else {
      JoinContains(parts[1..], sep, i - 1);
      ContainsPrepend(parts[0] + sep, Join(parts[1..], sep), parts[i]);
    }
  }

  /** The pieces that are not empty, in order. */
  function NonEmpty(pieces: seq<string>): (r: seq<string>)
    ensures forall i :: 0 <= i < |r| ==> r[i] != [] && r[i] in pieces
    ensures |r| <= |pieces|
  {
    if pieces == [] then []
    else if pieces[0] == [] then NonEmpty(pieces[1..])
    else [pieces[0]] + NonEmpty(pieces[1..])
  }

  /** Every non-empty piece survives. */
  lemma {:induction false} NonEmptyKeeps(pieces: seq<string>)
    ensures forall i :: 0 <= i < |pieces| && pieces[i] != [] ==> pieces[i] in NonEmpty(pieces)
  {
    if pieces != [] {
      NonEmptyKeeps(pieces[1..]);
      forall i | 0 < i < |pieces| && pieces[i] != [] ensures pieces[i] in NonEmpty(pieces) {
        assert pieces[i] == pieces[1..][i - 1];
      }
    }
  }

  /** Nothing survives exactly when every piece is empty. */
  lemma {:induction false} NonEmptyNone(pieces: seq<string>)
    ensures NonEmpty(pieces) == [] <==> forall i :: 0 <= i < |pieces| ==> pieces[i] == []
  {
    if pieces != [] {
      NonEmptyNone(pieces[1..]);
      assert forall i :: 1 <= i < |pieces| ==> pieces[i] == pieces[1..][i - 1];
    }
  }

  const Whitespace: set<char> := {' ', '\t', '\n', '\r', '\U{B}', '\U{C}', '\U{1C}', '\U{1D}', '\U{1E}', '\U{1F}'}

  /** Python str.split() with no argument: the maximal runs of non-whitespace. */
  function Words(s: string): (r: seq<string>)
    ensures forall i :: 0 <= i < |r| ==> r[i] != []
    ensures forall i, j :: 0 <= i < |r| && 0 <= j < |r[i]| ==> !IsSpace(r[i][j])
  {
    NonEmpty(SplitOn(s, Whitespace))
  }

  /** A list of non-empty pieces passes the filter unchanged. */
  lemma {:induction false} NonEmptyOfFull(pieces: seq<string>)
    requires forall i :: 0 <= i < |pieces| ==> pieces[i] != []
    ensures NonEmpty(pieces) == pieces
  {
    if pieces != [] {
      NonEmptyOfFull(pieces[1..]);
      assert [pieces[0]] + pieces[1..] == pieces;
    }
  }

  /** `str.split()` undoes `" ".join(items)` when the items are non-empty
      and hold no whitespace. */
  lemma WordsOfJoin(items: seq<string>)
    requires forall i :: 0 <= i < |items| ==> items[i] != []
    requires forall i, j :: 0 <= i < |items| && 0 <= j < |items[i]| ==> items[i][j] !in Whitespace
    ensures Words(Join(items, " ")) == items
  {
    if items == [] {
      assert SplitOn([], Whitespace) == [[]];
    } else {
      SplitOnOfJoin(items, ' ', Whitespace);
      NonEmptyOfFull(items);
    }
  }
}
