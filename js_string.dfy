/** The three JavaScript string built-ins the components rely on:
    `String.prototype.split` with a one-character separator,
    `String.prototype.trim` and `Array.prototype.join`.
    Strings are sequences of characters; see README for the UTF-16 caveat. */
module JsString {

  /** ECMAScript WhiteSpace and LineTerminator code points: the set `trim` strips. */
  predicate IsWhitespace(c: char)
  {
    c == '\t' || c == '\n' || c == '\U{000B}' || c == '\U{000C}' || c == '\r' ||
    c == ' ' || c == '\U{00A0}' || c == '\U{1680}' ||
    ('\U{2000}' <= c <= '\U{200A}') ||
    c == '\U{2028}' || c == '\U{2029}' || c == '\U{202F}' || c == '\U{205F}' ||
    c == '\U{3000}' || c == '\U{FEFF}'
  }

  /** What the whitespace set means for the text this application trims:
      the usual blanks are in it; separators, letters and digits are not. */
  lemma WhitespaceChars(c: char)
    ensures c == ' ' || c == '\t' || c == '\n' || c == '\r' ==> IsWhitespace(c)
    ensures IsWhitespace(c) ==> c != ',' && c != 'T'
    ensures IsWhitespace(c) ==> !('a' <= c <= 'z' || 'A' <= c <= 'Z' || '0' <= c <= '9')
  {
  }

  predicate AllWhitespace(s: string)
  {
    forall k :: 0 <= k < |s| ==> IsWhitespace(s[k])
  }

  /** Neither end of `s` is whitespace. */
  predicate IsTrimmed(s: string)
  {
    s == [] || (!IsWhitespace(s[0]) && !IsWhitespace(s[|s| - 1]))
  }

  // ---------------------------------------------------------------- join

  /** `xs.join(sep)`: the pieces with `sep` between neighbours; `[]` joins to "". */
  function Join(xs: seq<string>, sep: string): (r: string)
    ensures xs == [] ==> r == []
    ensures xs != [] ==> xs[0] <= r
    ensures |xs| == 1 ==> r == xs[0]
  {
    if |xs| == 0 then []
    else if |xs| == 1 then xs[0]
    else xs[0] + sep + Join(xs[1..], sep)
  }

  /** With two or more pieces, the first piece and `sep` come before the join of the rest. */
  lemma JoinCons(xs: seq<string>, sep: string)
    requires |xs| >= 2
    ensures Join(xs, sep) == xs[0] + sep + Join(xs[1..], sep)
  {
  }

  /** Joining two non-empty runs of pieces is joining each run and putting `sep` between. */
  lemma {:induction false} JoinAppend(xs: seq<string>, ys: seq<string>, sep: string)
    requires xs != [] && ys != []
    ensures Join(xs + ys, sep) == Join(xs, sep) + sep + Join(ys, sep)
    decreases |xs|
  {
    if |xs| == 1 {
      assert (xs + ys)[0] == xs[0] && (xs + ys)[1..] == ys;
    } else {
      assert (xs + ys)[0] == xs[0] && (xs + ys)[1..] == xs[1..] + ys;
      JoinAppend(xs[1..], ys, sep);
      assert Join(xs + ys, sep) == xs[0] + sep + (Join(xs[1..], sep) + sep + Join(ys, sep));
    }
  }

  // ---------------------------------------------------------------- split

  /** `s.split(sep)` for a one-character separator: always at least one piece,
      and no piece holds the separator. */
  function Split(s: string, sep: char): (r: seq<string>)
    ensures |r| >= 1
    ensures forall k :: 0 <= k < |r| ==> sep !in r[k]
    decreases |s|
  {
    if s == [] then [[]]
    else
      var rest := Split(s[1..], sep);
      if s[0] == sep then [[]] + rest
      else [[s[0]] + rest[0]] + rest[1..]
  }

  /** Joining the pieces of a split with the separator gives the string back. */
  lemma {:induction false} JoinSplit(s: string, sep: char)
    ensures Join(Split(s, sep), [sep]) == s
    decreases |s|
  {
    if s != [] {
      var rest := Split(s[1..], sep);
      JoinSplit(s[1..], sep);
      if s[0] == sep {
        assert s == [sep] + s[1..];
        assert ([[]] + rest)[1..] == rest;
      } else {
        var r := [[s[0]] + rest[0]] + rest[1..];
        assert r[1..] == rest[1..];
        assert s == [s[0]] + s[1..];
      }
    }
  }

  /** A separator-free prefix glues onto the first piece of what follows it. */
  lemma {:induction false} SplitAfterPlainPrefix(x: string, s: string, sep: char)
    requires sep !in x
    ensures Split(x + s, sep) == [x + Split(s, sep)[0]] + Split(s, sep)[1..]
    decreases |x|
  {
    var ps := Split(s, sep);
    if x != [] {
      assert x[0] in x;
      assert (x + s)[1..] == x[1..] + s;
      assert (x + s)[0] == x[0];
      SplitAfterPlainPrefix(x[1..], s, sep);
      var rest := Split(x[1..] + s, sep);
      assert rest[0] == x[1..] + ps[0] && rest[1..] == ps[1..];
      assert Split(x + s, sep) == [[x[0]] + rest[0]] + rest[1..];
      assert [x[0]] + (x[1..] + ps[0]) == x + ps[0];
    } else {
      assert x + s == s;
      assert x + ps[0] == ps[0];
      assert ps == [ps[0]] + ps[1..];
    }
  }

  /** Split is the inverse of Join on separator-free pieces. */
  lemma {:induction false} SplitJoin(ps: seq<string>, sep: char)
    requires |ps| >= 1
    requires forall k :: 0 <= k < |ps| ==> sep !in ps[k]
    ensures Split(Join(ps, [sep]), sep) == ps
    decreases |ps|
  {
    if |ps| == 1 {
      assert Join(ps, [sep]) == ps[0];
      SplitAfterPlainPrefix(ps[0], [], sep);
      assert ps[0] + [] == ps[0];
      assert Split([], sep) == [[]];
      assert ps == [ps[0]];
    } else {
      var tail := Join(ps[1..], [sep]);
      assert Join(ps, [sep]) == ps[0] + ([sep] + tail);
      SplitAfterPlainPrefix(ps[0], [sep] + tail, sep);
      assert ([sep] + tail)[1..] == tail;
      SplitJoin(ps[1..], sep);
      assert Split([sep] + tail, sep) == [[]] + ps[1..];
      assert ([[]] + ps[1..])[0] == [] && ([[]] + ps[1..])[1..] == ps[1..];
      assert ps[0] + [] == ps[0];
      assert ps == [ps[0]] + ps[1..];
    }
  }

  /** `s.split(sep)[0]`: everything before the first separator. */
  function FirstPiece(s: string, sep: char): (r: string)
    ensures sep !in r
    ensures r <= s
    ensures |r| < |s| ==> s[|r|] == sep
  {
    var ps := Split(s, sep);
    FirstPieceIsPrefix(s, sep);
    ps[0]
  }

  lemma {:induction false} FirstPieceIsPrefix(s: string, sep: char)
    ensures Split(s, sep)[0] <= s
    ensures |Split(s, sep)[0]| < |s| ==> s[|Split(s, sep)[0]|] == sep
    decreases |s|
  {
    if s != [] {
      FirstPieceIsPrefix(s[1..], sep);
    }
  }

  // ---------------------------------------------------------------- trim

  /** How many whitespace characters open `s`. */
  function LeadingBlanks(s: string): (n: nat)
    ensures n <= |s|
    ensures forall k :: 0 <= k < n ==> IsWhitespace(s[k])
    ensures n < |s| ==> !IsWhitespace(s[n])
    decreases |s|
  {
    if s != [] && IsWhitespace(s[0]) then
      var m := LeadingBlanks(s[1..]);
      assert forall k :: 1 <= k < 1 + m ==> s[k] == s[1..][k - 1];
      1 + m
    else 0
  }

  /** Where the content of `s` ends: everything from there on is whitespace. */
  function ContentEnd(s: string): (n: nat)
    ensures n <= |s|
    ensures forall k :: n <= k < |s| ==> IsWhitespace(s[k])
    ensures n > 0 ==> !IsWhitespace(s[n - 1])
    decreases |s|
  {
    if s != [] && IsWhitespace(s[|s| - 1]) then
      var u := s[..|s| - 1];
      var m := ContentEnd(u);
      assert forall k :: m <= k < |s| - 1 ==> s[k] == u[k];
      m
    else |s|
  }

  /** `s.trim()`: drop the leading, then the trailing whitespace. */
  function Trim(s: string): (r: string)
    ensures IsTrimmed(r)
  {
    var t := s[LeadingBlanks(s)..];
    var r := t[..ContentEnd(t)];
    assert r != [] ==> r[0] == t[0] && r[|r| - 1] == t[ContentEnd(t) - 1];
    r
  }

  /** Trimming only removes characters. */
  lemma TrimKeepsOut(s: string, c: char)
    requires c !in s
    ensures c !in Trim(s)
  {
    var t := s[LeadingBlanks(s)..];
    assert forall k :: 0 <= k < ContentEnd(t) ==> Trim(s)[k] == s[LeadingBlanks(s) + k];
  }

  /** The leading blank run is unique. */
  lemma LeadingBlanksUnique(s: string, i: nat)
    requires i <= |s|
    requires forall k :: 0 <= k < i ==> IsWhitespace(s[k])
    requires i < |s| ==> !IsWhitespace(s[i])
    ensures LeadingBlanks(s) == i
  {
  }

  /** The trailing blank run is unique. */
  lemma ContentEndUnique(t: string, m: nat)
    requires m <= |t|
    requires forall k :: m <= k < |t| ==> IsWhitespace(t[k])
    requires m > 0 ==> !IsWhitespace(t[m - 1])
    ensures ContentEnd(t) == m
  {
  }

  /** An independent description of `trim`: any split of `s` into whitespace,
      a trimmed middle and whitespace has that middle as its trim. */
  lemma TrimCharacterized(s: string, i: nat, j: nat)
    requires i <= j <= |s|
    requires AllWhitespace(s[..i]) && AllWhitespace(s[j..])
    requires IsTrimmed(s[i..j])
    ensures Trim(s) == s[i..j]
  {
    if i == j {
      TrimOfBlank(s, i);
    } else {
      TrimOfNonBlank(s, i, j);
    }
  }

  lemma TrimOfBlank(s: string, i: nat)
    requires i <= |s|
    requires AllWhitespace(s[..i]) && AllWhitespace(s[i..])
    ensures Trim(s) == []
  {
    forall k | 0 <= k < |s| ensures IsWhitespace(s[k]) {
      if k < i { assert s[..i][k] == s[k]; } else { assert s[i..][k - i] == s[k]; }
    }
    LeadingBlanksUnique(s, |s|);
  }

  lemma TrimOfNonBlank(s: string, i: nat, j: nat)
    requires i < j <= |s|
    requires AllWhitespace(s[..i]) && AllWhitespace(s[j..])
    requires IsTrimmed(s[i..j])
    ensures Trim(s) == s[i..j]
  {
    forall k | 0 <= k < i ensures IsWhitespace(s[k]) {
      assert s[..i][k] == s[k];
    }
    assert s[i..j][0] == s[i];
    LeadingBlanksUnique(s, i);
    var t := s[i..];
    TrimEndOfNonBlank(s, i, j, t);
    assert t[..j - i] == s[i..j];
  }

  lemma TrimEndOfNonBlank(s: string, i: nat, j: nat, t: string)
    requires i < j <= |s| && t == s[i..]
    requires AllWhitespace(s[j..])
    requires IsTrimmed(s[i..j])
    ensures ContentEnd(t) == j - i
  {
    forall k | j - i <= k < |t| ensures IsWhitespace(t[k]) {
      assert s[j..][k - (j - i)] == t[k];
    }
    assert t[j - i - 1] == s[i..j][j - i - 1];
    ContentEndUnique(t, j - i);
  }

  /** A string that is already trimmed is its own trim. */
  lemma TrimTrimmed(s: string)
    requires IsTrimmed(s)
    ensures Trim(s) == s
  {
    assert s[..0] == [] && s[|s|..] == [];
    assert s[0..|s|] == s;
    TrimCharacterized(s, 0, |s|);
  }

  /** Leading blanks never change the trim. */
  lemma TrimAfterBlank(c: char, s: string)
    requires IsWhitespace(c)
    ensures Trim([c] + s) == Trim(s)
  {
    assert ([c] + s)[1..] == s;
    assert ([c] + s)[1 + LeadingBlanks(s)..] == s[LeadingBlanks(s)..];
  }
}
