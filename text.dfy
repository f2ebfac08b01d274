/**
 * The string vocabulary the routing engine is written in: JavaScript's
 * whitespace and line-terminator classes, ASCII case folding (what a
 * regular expression with the `i` flag and without the `u` flag does),
 * `startsWith`/`endsWith`/`includes`, `trim`, `split` and `join`.
 */
module Text {
  import opened Wrappers

  // ---- Character classes

  /** `\s` in a JavaScript regular expression, which is also the set `String.prototype.trim` removes. */
  predicate IsSpace(c: char) {
    || c == ' ' || c == '\t' || c == '\n' || c == '\r' || c == '\U{B}' || c == '\U{C}'
    || c == '\U{A0}' || c == '\U{1680}' || ('\U{2000}' <= c <= '\U{200A}')
    || c == '\U{2028}' || c == '\U{2029}' || c == '\U{202F}' || c == '\U{205F}'
    || c == '\U{3000}' || c == '\U{FEFF}'
  }

  /** The characters `.` does not match and after which a multiline `^` matches. */
  predicate IsLineTerminator(c: char) {
    c == '\n' || c == '\r' || c == '\U{2028}' || c == '\U{2029}'
  }

  /** `[^\S\r\n]`: whitespace other than carriage return and line feed. */
  predicate IsInlineSpace(c: char) {
    IsSpace(c) && c != '\r' && c != '\n'
  }

  /** `\w`, which stays ASCII under the `i` flag without `u`. */
  predicate IsWordChar(c: char) {
    ('a' <= c <= 'z') || ('A' <= c <= 'Z') || ('0' <= c <= '9') || c == '_'
  }

  /** Case folding as a non-Unicode case-insensitive regular expression does it: only ASCII letters fold. */
  function FoldCase(c: char): char {
    if 'A' <= c <= 'Z' then (c as int + 32) as char else c
  }

  /** `toLowerCase`, restricted to ASCII letters. */
  function Lower(s: string): (r: string)
    ensures |r| == |s|
  {
    seq(|s|, i requires 0 <= i < |s| => FoldCase(s[i]))
  }

  /** Multiline `^`: the start of the text or just after a line terminator. */
  predicate LineStart(t: string, i: int) {
    0 <= i <= |t| && (i == 0 || IsLineTerminator(t[i - 1]))
  }

  predicate NoLineTerminator(u: string) {
    forall k | 0 <= k < |u| :: !IsLineTerminator(u[k])
  }

  predicate AllSpace(u: string) {
    forall k | 0 <= k < |u| :: IsSpace(u[k])
  }

  // ---- Prefixes, suffixes, substrings

  predicate StartsWith(s: string, p: string) {
    |p| <= |s| && s[..|p|] == p
  }

  predicate EndsWith(s: string, x: string) {
    |x| <= |s| && s[|s| - |x|..] == x
  }

  predicate OccursAt(s: string, w: string, i: int) {
    0 <= i <= |s| - |w| && s[i..i + |w|] == w
  }

  /** `s.includes(w)`, which is also what a regular expression made of the literal `w` tests. */
  predicate Contains(s: string, w: string) {
    exists i | 0 <= i <= |s| :: OccursAt(s, w, i)
  }

  /** `w` (given in lower case) occurs at `p`, compared ASCII-case-insensitively. */
  predicate WordAt(t: string, p: int, w: string) {
    0 <= p && p + |w| <= |t| && Lower(t[p..p + |w|]) == w
  }

  lemma PrefixOfAppend(x: string, y: string)
    ensures StartsWith(x + y, x)
  {
    assert (x + y)[..|x|] == x;
  }

  lemma StartsWithTrans(s: string, p: string, q: string)
    requires StartsWith(s, p) && StartsWith(p, q)
    ensures StartsWith(s, q)
  {
    assert s[..|q|] == p[..|q|];
  }

  lemma StartsWithAppend(s: string, t: string, p: string)
    requires StartsWith(s, p)
    ensures StartsWith(s + t, p)
  {
    assert (s + t)[..|p|] == s[..|p|];
  }

  lemma AppendAssoc(x: string, y: string, z: string)
    ensures x + (y + z) == x + y + z
  {
  }

  /** A common head keeps one string a prefix of another. */
  lemma StartsWithPrepend(x: string, s: string, p: string)
    requires StartsWith(s, p)
    ensures StartsWith(x + s, x + p)
  {
    assert (x + s)[..|x + p|] == x + s[..|p|];
  }

  lemma EndsWithAppend(s: string, x: string)
    ensures EndsWith(s + x, x)
  {
    assert (s + x)[|s|..] == x;
  }

  /** Every character of a slice is a character of the whole. */
  lemma SliceChars(s: string, a: int, b: int)
    requires 0 <= a <= b <= |s|
    ensures forall c :: c in s[a..b] ==> c in s
  {
    forall c | c in s[a..b] ensures c in s {
      var k :| 0 <= k < b - a && s[a..b][k] == c;
      assert s[a + k] == c;
    }
  }

  // ---- Scanning

  /** The first index at or after `i` that is not whitespace (greedy `\s*`). */
  function SkipSpace(t: string, i: nat): (j: nat)
    requires i <= |t|
    ensures i <= j <= |t|
    ensures forall k | i <= k < j :: IsSpace(t[k])
    ensures j == |t| || !IsSpace(t[j])
    decreases |t| - i
  {
    if i < |t| && IsSpace(t[i]) then SkipSpace(t, i + 1) else i
  }

  /** The first index at or after `i` that is not `[^\S\r\n]` (greedy `[^\S\r\n]*`). */
  function SkipInlineSpace(t: string, i: nat): (j: nat)
    requires i <= |t|
    ensures i <= j <= |t|
    ensures forall k | i <= k < j :: IsInlineSpace(t[k])
    ensures j == |t| || !IsInlineSpace(t[j])
    decreases |t| - i
  {
    if i < |t| && IsInlineSpace(t[i]) then SkipInlineSpace(t, i + 1) else i
  }

  /** The first occurrence of `w` at or after `i`. */
  function FindFrom(t: string, w: string, i: nat): (r: Option<nat>)
    requires i <= |t|
    ensures r.Some? ==> i <= r.value && OccursAt(t, w, r.value)
    ensures r.Some? ==> forall k | i <= k < r.value :: !OccursAt(t, w, k)
    ensures r.None? ==> forall k | i <= k <= |t| :: !OccursAt(t, w, k)
    decreases |t| - i
  {
    if OccursAt(t, w, i) then Some(i)
    else if i == |t| then None
    else FindFrom(t, w, i + 1)
  }

  // ---- trim

  /** The end of `s[a..b]` once trailing whitespace is dropped. */
  function TrimmedEnd(s: string, a: nat, b: nat): (e: nat)
    requires a <= b <= |s|
    ensures a <= e <= b
    ensures e == a || !IsSpace(s[e - 1])
    ensures forall k | e <= k < b :: IsSpace(s[k])
    decreases b
  {
    if b > a && IsSpace(s[b - 1]) then TrimmedEnd(s, a, b - 1) else b
  }

  /** `String.prototype.trim`. */
  function Trim(s: string): (r: string)
    ensures r == [] || (!IsSpace(r[0]) && !IsSpace(r[|r| - 1]))
    ensures exists a, b | 0 <= a <= b <= |s| :: r == s[a..b] && AllSpace(s[..a]) && AllSpace(s[b..])
  {
    var a := SkipSpace(s, 0);
    var b := TrimmedEnd(s, a, |s|);
    assert AllSpace(s[..a]) && AllSpace(s[b..]);
    s[a..b]
  }

  /** Trimming keeps only characters of the input. */
  lemma TrimChars(s: string)
    ensures forall c :: c in Trim(s) ==> c in s
  {
    var a, b :| 0 <= a <= b <= |s| && Trim(s) == s[a..b];
    SliceChars(s, a, b);
  }

  /** A string with no whitespace at either end is its own trim. */
  lemma {:induction false} TrimIdentity(s: string)
    requires s == [] || (!IsSpace(s[0]) && !IsSpace(s[|s| - 1]))
    ensures Trim(s) == s
  {
    var a := SkipSpace(s, 0);
    assert a == 0;
    assert TrimmedEnd(s, a, |s|) == |s|;
  }

  lemma TrimIdempotent(s: string)
    ensures Trim(Trim(s)) == Trim(s)
  {
    TrimIdentity(Trim(s));
  }

  // ---- replace, split, join

  /** `s.replace(/<from>/g, <to>)` for a single character. */
  function ReplaceChar(s: string, from: char, to: char): (r: string)
    ensures |r| == |s|
    ensures from != to ==> from !in r
    ensures forall c :: c in r ==> c in s || c == to
    ensures from !in s ==> r == s
  {
    seq(|s|, i requires 0 <= i < |s| => if s[i] == from then to else s[i])
  }

  /** `s.split(sep)` for a one-character separator: always at least one piece. */
  function SplitOn(s: string, sep: char): (parts: seq<string>)
    ensures |parts| >= 1
    ensures forall x | x in parts :: sep !in x
    decreases |s|
  {
    if |s| == 0 then [""]
    else
      var rest := SplitOn(s[1..], sep);
      if s[0] == sep then [""] + rest
      else [[s[0]] + rest[0]] + rest[1..]
  }

  /** The pieces are made of characters of the string. */
  lemma {:induction false} SplitChars(s: string, sep: char)
    ensures forall x, c | x in SplitOn(s, sep) && c in x :: c in s
    decreases |s|
  {
    if |s| > 0 {
      SplitChars(s[1..], sep);
      var rest := SplitOn(s[1..], sep);
      forall x, c | x in SplitOn(s, sep) && c in x ensures c in s {
        if s[0] != sep && x == [s[0]] + rest[0] {
          assert rest[0] in rest;
          if c != s[0] {
            assert c in rest[0];
          }
        } else {
          if s[0] == sep {
            assert x == "" || x in rest;
          } else {
            assert x in rest[1..];
          }
          assert c in s[1..];
        }
      }
    }
  }

  /** `parts.filter(Boolean)` on strings: drop the empty ones. */
  function NonEmpty(parts: seq<string>): (r: seq<string>)
    ensures forall x | x in r :: x != "" && x in parts
  {
    if parts == [] then []
    else if parts[0] == "" then NonEmpty(parts[1..])
    else [parts[0]] + NonEmpty(parts[1..])
  }

  /** `parts.join(sep)`. */
  function Join(parts: seq<string>, sep: string): string {
    if parts == [] then ""
    else if |parts| == 1 then parts[0]
    else parts[0] + sep + Join(parts[1..], sep)
  }

  /** A string without the separator is a single piece. */
  lemma {:induction false} SplitWithoutSeparator(s: string, sep: char)
    requires sep !in s
    ensures SplitOn(s, sep) == [s]
    decreases |s|
  {
    if |s| > 0 {
      SplitWithoutSeparator(s[1..], sep);
      assert [s[0]] + s[1..] == s;
    }
  }

  /** A string ended by its only separator splits into itself and an empty piece. */
  lemma {:induction false} SplitTrailingSeparator(s: string, sep: char)
    requires sep !in s
    ensures SplitOn(s + [sep], sep) == [s, ""]
    decreases |s|
  {
    if |s| == 0 {
      assert s + [sep] == [sep];
      assert SplitOn([sep][1..], sep) == [""];
    } else {
      SplitTrailingSeparator(s[1..], sep);
      assert (s + [sep])[1..] == s[1..] + [sep];
      assert [s[0]] + s[1..] == s;
    }
  }

  /** Joining keeps out a character that neither the pieces nor the separator contain. */
  lemma {:induction false} JoinAvoids(parts: seq<string>, sep: string, c: char)
    requires c !in sep
    requires forall x | x in parts :: c !in x
    ensures c !in Join(parts, sep)
    decreases |parts|
  {
    if |parts| > 1 {
      JoinAvoids(parts[1..], sep, c);
    }
  }

  /** `SplitOn` of a string with a known first character, one step unfolded. */
  lemma SplitCons(c: char, x: string, sep: char)
    ensures SplitOn([c] + x, sep) ==
      if c == sep then [""] + SplitOn(x, sep)
      else [[c] + SplitOn(x, sep)[0]] + SplitOn(x, sep)[1..]
  {
    assert ([c] + x)[0] == c && ([c] + x)[1..] == x;
  }

  /** Putting a piece in front of the first of two lists of pieces. */
  lemma ExtendFirst(head: string, left: seq<string>, right: seq<string>)
    requires |left| >= 1
    ensures [head + left[0]] + (left + right)[1..] == ([head + left[0]] + left[1..]) + right
    ensures (left + right)[0] == left[0]
  {
    assert (left + right)[1..] == left[1..] + right;
  }

  /**
   * The step of `SplitAroundSeparator` for a character that is not the
   * separator: it joins the first piece.
   */
  lemma SplitAroundStepChar(c: char, a: string, p: string, right: seq<string>, sep: char)
    requires c != sep
    requires SplitOn(p, sep) == SplitOn(a, sep) + right
    ensures SplitOn([c] + p, sep) == SplitOn([c] + a, sep) + right
  {
    SplitCons(c, p, sep);
    SplitCons(c, a, sep);
    ExtendFirst([c], SplitOn(a, sep), right);
  }

  /** The step of `SplitAroundSeparator` for the separator itself: it opens an empty piece. */
  lemma SplitAroundStepSep(a: string, p: string, right: seq<string>, sep: char)
    requires SplitOn(p, sep) == SplitOn(a, sep) + right
    ensures SplitOn([sep] + p, sep) == SplitOn([sep] + a, sep) + right
  {
    SplitCons(sep, p, sep);
    SplitCons(sep, a, sep);
    var left := SplitOn(a, sep);
    assert [""] + (left + right) == ([""] + left) + right;
  }

  /** Splitting at a separator between two strings splits each side separately. */
  lemma {:induction false} SplitAroundSeparator(a: string, b: string, sep: char)
    ensures SplitOn(a + [sep] + b, sep) == SplitOn(a, sep) + SplitOn(b, sep)
    decreases |a|
  {
    if |a| == 0 {
      assert a + [sep] + b == [sep] + b;
      SplitCons(sep, b, sep);
    } else {
      var c, rest := a[0], a[1..];
      var p := rest + [sep] + b;
      assert a == [c] + rest;
      assert a + [sep] + b == [c] + p;
      SplitAroundSeparator(rest, b, sep);
      if c == sep {
        SplitAroundStepSep(rest, p, SplitOn(b, sep), sep);
      } else {
        SplitAroundStepChar(c, rest, p, SplitOn(b, sep), sep);
      }
    }
  }

  lemma {:induction false} NonEmptyAppend(x: seq<string>, y: seq<string>)
    ensures NonEmpty(x + y) == NonEmpty(x) + NonEmpty(y)
    decreases |x|
  {
    if x == [] {
      assert x + y == y;
    } else {
      NonEmptyAppend(x[1..], y);
      assert (x + y)[0] == x[0] && (x + y)[1..] == x[1..] + y;
      if x[0] == "" {
        assert NonEmpty(x + y) == NonEmpty(x[1..] + y);
      } else {
        assert NonEmpty(x + y) == [x[0]] + NonEmpty(x[1..] + y);
        assert NonEmpty(x) == [x[0]] + NonEmpty(x[1..]);
      }
    }
  }

  lemma ReplaceCharAppend(a: string, b: string, from: char, to: char)
    ensures ReplaceChar(a + b, from, to) == ReplaceChar(a, from, to) + ReplaceChar(b, from, to)
  {
  }
}
