/**
 * The java.lang.String and java.util.regex behaviour the core relies on.
 * A Java string is a sequence of UTF-16 code units; a Dafny char is a Unicode scalar value.
 * The two agree on text inside the Basic Multilingual Plane, which is what is modelled: a
 * supplementary character counts 1 here and 2 in Java.
 */
module JavaText {

  /** String.trim() removes every leading and trailing unit at or below U+0020. */
  predicate IsTrimSpace(c: char) { c <= ' ' }

  /** The regex class \s of java.util.regex (without UNICODE_CHARACTER_CLASS). */
  predicate IsRegexSpace(c: char) {
    c == ' ' || c == '\t' || c == '\n' || c == '\U{000B}' || c == '\U{000C}' || c == '\r'
  }

  /** Character.isWhitespace: Unicode space separators other than the no-break ones, and nine controls. */
  predicate IsWhitespace(c: char) {
    ('\t' <= c <= '\r') || ('\U{001C}' <= c <= ' ') || c == '\U{1680}'
    || ('\U{2000}' <= c <= '\U{2006}') || ('\U{2008}' <= c <= '\U{200A}')
    || c == '\U{2028}' || c == '\U{2029}' || c == '\U{205F}' || c == '\U{3000}'
  }

  /** String.isBlank(): empty, or whitespace only. */
  predicate IsBlank(s: string) {
    forall i :: 0 <= i < |s| ==> IsWhitespace(s[i])
  }

  lemma RegexSpaceIsTrimmed(c: char)
    ensures IsRegexSpace(c) ==> IsTrimSpace(c)
  {
  }

  /** The suffix of s that starts at its first unit above U+0020. */
  function TrimStart(s: string): (t: string)
    ensures |t| <= |s| && t == s[|s| - |t|..]
    ensures t == "" || !IsTrimSpace(t[0])
    ensures forall i :: 0 <= i < |s| - |t| ==> IsTrimSpace(s[i])
  {
    if |s| > 0 && IsTrimSpace(s[0]) then TrimStart(s[1..]) else s
  }

  /** The prefix of s that ends at its last unit above U+0020. */
  function TrimEnd(s: string): (t: string)
    ensures |t| <= |s| && t == s[..|t|]
    ensures t == "" || !IsTrimSpace(t[|t| - 1])
    ensures forall i :: |t| <= i < |s| ==> IsTrimSpace(s[i])
  {
    if |s| > 0 && IsTrimSpace(s[|s| - 1]) then TrimEnd(s[..|s| - 1]) else s
  }

  /** String.trim(). */
  function Trim(s: string): (t: string)
    ensures |t| <= |s|
    ensures t == "" || (!IsTrimSpace(t[0]) && !IsTrimSpace(t[|t| - 1]))
  {
    TrimEnd(TrimStart(s))
  }

  /** A string that starts and ends above U+0020 is its own trim. */
  lemma TrimFixed(t: string)
    requires t == "" || (!IsTrimSpace(t[0]) && !IsTrimSpace(t[|t| - 1]))
    ensures Trim(t) == t
  {
  }

  /** trim() is idempotent. */
  lemma TrimIdempotent(s: string)
    ensures Trim(Trim(s)) == Trim(s)
  {
    TrimFixed(Trim(s));
  }

  /** Units at or below U+0020 in front of a suffix do not change its trim. */
  lemma {:induction false} TrimSkipsLeading(s: string, i: nat, j: nat)
    requires i <= j <= |s|
    requires forall k :: i <= k < j ==> IsTrimSpace(s[k])
    ensures Trim(s[i..]) == Trim(s[j..])
  {
    TrimStartSkips(s, i, j);
  }

  lemma {:induction false} TrimStartSkips(s: string, i: nat, j: nat)
    requires i <= j <= |s|
    requires forall k :: i <= k < j ==> IsTrimSpace(s[k])
    ensures TrimStart(s[i..]) == TrimStart(s[j..])
    decreases j - i
  {
    if i < j {
      assert s[i..][0] == s[i];
      assert s[i..][1..] == s[i + 1..];
      TrimStartSkips(s, i + 1, j);
    }
  }

  /** ASCII-only lower-casing, as the regex flag (?i) and this model's equalsIgnoreCase use it. */
  function LowerAscii(c: char): (d: char)
    ensures 'A' <= c <= 'Z' ==> 'a' <= d <= 'z' && d as int == c as int + 32
    ensures !('A' <= c <= 'Z') ==> d == c
  {
    if 'A' <= c <= 'Z' then (c as int + 32) as char else c
  }

  /** String.equalsIgnoreCase, for ASCII case pairs. */
  predicate EqualsIgnoreCase(a: string, b: string) {
    |a| == |b| && forall k :: 0 <= k < |a| ==> LowerAscii(a[k]) == LowerAscii(b[k])
  }

  /** 1 when position |t| - 1 begins a run of units outside \s, else 0. */
  function StartsRunAtEnd(t: string): nat
    requires |t| > 0
  {
    if !IsRegexSpace(t[|t| - 1]) && (|t| == 1 || IsRegexSpace(t[|t| - 2])) then 1 else 0
  }

  /** The number of maximal runs of units outside \s. */
  function Runs(t: string): nat {
    if |t| == 0 then 0 else Runs(t[..|t| - 1]) + StartsRunAtEnd(t)
  }

  /**
   * The length of t.split("\\s+"): the input itself when nothing matches (so "" has one
   * element), a leading empty element when t starts with \s, and trailing empty elements dropped.
   */
  function SplitLength(t: string): nat {
    if t == "" then 1
    else Runs(t) + (if IsRegexSpace(t[0]) && Runs(t) > 0 then 1 else 0)
  }

  /** Runs add up across a \s unit. */
  lemma {:induction false} RunsAppend(x: string, y: string)
    requires |x| > 0 && IsRegexSpace(x[|x| - 1])
    ensures Runs(x + y) == Runs(x) + Runs(y)
    decreases |y|
  {
    if |y| == 0 {
      assert x + y == x;
    } else {
      var y' := y[..|y| - 1];
      assert (x + y)[..|x + y| - 1] == x + y';
      RunsAppend(x, y');
      assert StartsRunAtEnd(x + y) == StartsRunAtEnd(y);
    }
  }

  /** A run of units outside \s is one run. */
  lemma {:induction false} RunsOfWord(w: string)
    requires |w| > 0 && forall k :: 0 <= k < |w| ==> !IsRegexSpace(w[k])
    ensures Runs(w) == 1
    decreases |w|
  {
    if |w| > 1 {
      RunsOfWord(w[..|w| - 1]);
    }
  }

  /** A string without \s is one element of split("\\s+"), whatever its length. */
  lemma SplitLengthOfWord(w: string)
    requires forall k :: 0 <= k < |w| ==> !IsRegexSpace(w[k])
    ensures SplitLength(w) == 1
  {
    if |w| > 0 {
      RunsOfWord(w);
    }
  }

  /** Joining a word to a string with one space adds one element to split("\\s+"). */
  lemma SplitLengthJoin(w: string, rest: string)
    requires |w| > 0 && forall k :: 0 <= k < |w| ==> !IsRegexSpace(w[k])
    requires |rest| > 0 && !IsRegexSpace(rest[0])
    ensures SplitLength(w + " " + rest) == 1 + SplitLength(rest)
  {
    var x := w + " ";
    assert w + " " + rest == x + rest;
    RunsAppend(x, rest);
    assert x[..|x| - 1] == w;
    RunsOfWord(w);
    assert Runs(x) == 1;
    assert StartsRunAtEnd([rest[0]]) == 1;
    RunsAtLeastOne(rest);
  }

  lemma {:induction false} RunsAtLeastOne(t: string)
    requires |t| > 0 && !IsRegexSpace(t[0])
    ensures Runs(t) >= 1
    decreases |t|
  {
    if |t| > 1 {
      assert t[..|t| - 1][0] == t[0];
      RunsAtLeastOne(t[..|t| - 1]);
    }
  }

  /** The decimal digits of n, as StringBuilder.append(int) writes a non-negative int. */
  function DecimalString(n: nat): (s: string)
    ensures |s| > 0
    ensures forall k :: 0 <= k < |s| ==> '0' <= s[k] <= '9'
  {
    if n < 10 then [('0' as int + n) as char]
    else DecimalString(n / 10) + [('0' as int + n % 10) as char]
  }

  /** Collectors.joining(sep) over parts. */
  function Join(parts: seq<string>, sep: string): string {
    if |parts| == 0 then ""
    else if |parts| == 1 then parts[0]
    else parts[0] + sep + Join(parts[1..], sep)
  }

  /** Splits s at every occurrence of c, keeping empty pieces: the inverse of Join with [c]. */
  function SplitAt(s: string, c: char): (parts: seq<string>)
    ensures |parts| > 0
    decreases |s|
  {
    if |s| == 0 then [""]
    else
      var tail := SplitAt(s[1..], c);
      if s[0] == c then [""] + tail else [[s[0]] + tail[0]] + tail[1..]
  }

  lemma {:induction false} SplitAtWord(w: string, c: char, s: string)
    requires forall k :: 0 <= k < |w| ==> w[k] != c
    ensures SplitAt(w + [c] + s, c) == [w] + SplitAt(s, c)
    decreases |w|
  {
    if |w| == 0 {
      assert w + [c] + s == [c] + s;
      assert ([c] + s)[1..] == s;
    } else {
      assert (w + [c] + s)[1..] == w[1..] + [c] + s;
      SplitAtWord(w[1..], c, s);
      assert [w[0]] + w[1..] == w;
    }
  }

  lemma {:induction false} SplitAtNoSeparator(w: string, c: char)
    requires forall k :: 0 <= k < |w| ==> w[k] != c
    ensures SplitAt(w, c) == [w]
    decreases |w|
  {
    if |w| > 0 {
      SplitAtNoSeparator(w[1..], c);
      assert [w[0]] + w[1..] == w;
    }
  }

  /** Splitting a join at its one-unit separator gives the parts back, when no part holds it. */
  lemma {:induction false} SplitJoinRoundTrip(parts: seq<string>, c: char)
    requires |parts| > 0
    requires forall i, k :: 0 <= i < |parts| && 0 <= k < |parts[i]| ==> parts[i][k] != c
    ensures SplitAt(Join(parts, [c]), c) == parts
    decreases |parts|
  {
    if |parts| == 1 {
      SplitAtNoSeparator(parts[0], c);
    } else {
      SplitJoinRoundTrip(parts[1..], c);
      SplitAtWord(parts[0], c, Join(parts[1..], [c]));
    }
  }
}
