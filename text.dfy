/**
 * The Python string operations the scripts rely on, on `seq<char>`:
 * `str.find`, `str.replace(p, "")`, `str.split(" ")`, `int(...)` on a token
 * and `str(int(...))` for integer output, plus joining fields with spaces.
 */
module Text {
  import opened Wrappers

  predicate IsDigit(c: char) { '0' <= c <= '9' }

  predicate AllDigits(s: string) { forall i :: 0 <= i < |s| ==> IsDigit(s[i]) }

  predicate NoSpace(s: string) { forall i :: 0 <= i < |s| ==> s[i] != ' ' }

  /** `s` holds no newline. */
  predicate OneLine(s: string) { forall i :: 0 <= i < |s| ==> s[i] != '\n' }

  /** `pat` occurs in `s` starting at index `i`. */
  predicate OccursAt(s: string, i: nat, pat: string) {
    i + |pat| <= |s| && s[i..i + |pat|] == pat
  }

  /** No occurrence of `pat` in `s` starts before index `n`. */
  predicate NoneBefore(s: string, n: nat, pat: string) {
    forall i: nat :: i < n ==> !OccursAt(s, i, pat)
  }

  predicate Contains(s: string, pat: string) {
    exists i: nat :: i <= |s| && OccursAt(s, i, pat)
  }

  /** `s.find(pat, from)`: the lowest index at or after `from` where `pat` occurs, or -1. */
  function FindFrom(s: string, pat: string, from: nat): (r: int)
    requires from <= |s|
    ensures r == -1 || (from <= r && OccursAt(s, r, pat))
    ensures r == -1 ==> forall i: nat :: from <= i ==> !OccursAt(s, i, pat)
    ensures r >= 0 ==> forall i: nat :: from <= i < r ==> !OccursAt(s, i, pat)
    decreases |s| - from
  {
    if from + |pat| > |s| then -1
    else if OccursAt(s, from, pat) then from
    else FindFrom(s, pat, from + 1)
  }

  /** `s.find(pat)`. */
  function Find(s: string, pat: string): int {
    FindFrom(s, pat, 0)
  }

  /**
   * `s.replace(pat, "")` for a non-empty `pat`: scanning left to right, every
   * occurrence that does not overlap an earlier removed one is removed.
   */
  function RemoveAll(s: string, pat: string): (r: string)
    requires |pat| > 0
    ensures |r| <= |s|
    decreases |s|
  {
    if |s| < |pat| then s
    else if s[..|pat|] == pat then RemoveAll(s[|pat|..], pat)
    else [s[0]] + RemoveAll(s[1..], pat)
  }

  /** `s.split(" ")`: the pieces between single spaces, empty pieces included. */
  function Split(s: string): (r: seq<string>)
    ensures |r| >= 1
    ensures forall m :: 0 <= m < |r| ==> NoSpace(r[m])
  {
    if s == [] then [[]]
    else if s[0] == ' ' then [[]] + Split(s[1..])
    else
      var t := Split(s[1..]);
      [[s[0]] + t[0]] + t[1..]
  }

  /** The pieces joined with single spaces, the inverse of `Split`. */
  function JoinSpaces(ts: seq<string>): string {
    if |ts| == 0 then []
    else if |ts| == 1 then ts[0]
    else ts[0] + " " + JoinSpaces(ts[1..])
  }

  function DigitValue(c: char): nat
    requires IsDigit(c)
  {
    c as int - '0' as int
  }

  /** The value of a decimal digit string (leading zeros allowed, as `int("007")`). */
  function DigitsValue(s: string): nat
    requires AllDigits(s)
  {
    if s == [] then 0 else DigitsValue(s[..|s| - 1]) * 10 + DigitValue(s[|s| - 1])
  }

  /** A decimal integer with an optional leading minus sign; `None` where `int()` raises. */
  function ParseSigned(s: string): Option<int> {
    if |s| > 0 && AllDigits(s) then Some(DigitsValue(s) as int)
    else if |s| > 1 && s[0] == '-' && AllDigits(s[1..]) then Some(-(DigitsValue(s[1..]) as int))
    else None
  }

  /** A minus sign or a digit, then digits, with at most one newline at the very end. */
  predicate Numeral(tok: string) {
    |tok| > 0 && (IsDigit(tok[0]) || tok[0] == '-') &&
    forall i :: 0 < i < |tok| ==> IsDigit(tok[i]) || (i == |tok| - 1 && tok[i] == '\n')
  }

  /** `int(tok)` on a token, which may still carry the line's trailing newline. */
  function ParseInt(tok: string): (r: Option<int>)
    ensures r.Some? ==> Numeral(tok)
    ensures r.Some? && IsDigit(tok[0]) ==> r.value >= 0
    ensures r.Some? && tok[0] == '-' ==> r.value <= 0
  {
    if |tok| > 0 && tok[|tok| - 1] == '\n' then ParseSigned(tok[..|tok| - 1]) else ParseSigned(tok)
  }

  function DigitChar(d: nat): (c: char)
    requires d < 10
    ensures IsDigit(c) && DigitValue(c) == d
  {
    ('0' as int + d) as char
  }

  /** `str(n)` for a natural number. */
  function NatToString(n: nat): (s: string)
    ensures |s| > 0 && AllDigits(s)
    ensures s[0] == '0' <==> n == 0
    ensures |s| == 1 <==> n < 10
  {
    if n < 10 then [DigitChar(n)] else NatToString(n / 10) + [DigitChar(n % 10)]
  }

  /**
   * `str(x)` for an integer: a minus sign exactly for a negative `x`, then
   * digits with no leading zero, except for `x == 0` itself.
   */
  function IntToString(x: int): (s: string)
    ensures |s| > 0 && NoSpace(s) && OneLine(s)
    ensures s[0] == '-' <==> x < 0
    ensures var digits := if x < 0 then s[1..] else s;
            |digits| > 0 && AllDigits(digits) && (digits[0] == '0' <==> x == 0) && (digits[0] == '0' ==> |digits| == 1)
  {
    if x < 0 then "-" + NatToString(-x) else NatToString(x)
  }

  // ---------------------------------------------------------------- lemmas

  lemma {:induction false} NatToStringRoundTrip(n: nat)
    ensures DigitsValue(NatToString(n)) == n
  {
    if n >= 10 {
      var s := NatToString(n);
      assert s[..|s| - 1] == NatToString(n / 10);
      NatToStringRoundTrip(n / 10);
    }
  }

  /** `int(str(x)) == x`. */
  lemma IntToStringRoundTrip(x: int)
    ensures ParseInt(IntToString(x)) == Some(x)
  {
    var s := IntToString(x);
    assert s[|s| - 1] != '\n';
    var n: nat := if x < 0 then -x else x;
    NatToStringRoundTrip(n);
    ParseSignedNumeral(NatToString(n));
  }

  /** A digit string, with or without a leading minus sign, parses to its signed value. */
  lemma ParseSignedNumeral(d: string)
    requires |d| > 0 && AllDigits(d)
    ensures ParseSigned(d) == Some(DigitsValue(d) as int)
    ensures ParseSigned("-" + d) == Some(-(DigitsValue(d) as int))
  {
    var s := "-" + d;
    assert s[1..] == d && !IsDigit(s[0]);
  }

  /** A number written by `str()` at the end of a log line reads back with `int()`, newline and all. */
  lemma IntToStringLineRoundTrip(x: int)
    ensures ParseInt(IntToString(x) + "\n") == Some(x)
  {
    var s := IntToString(x);
    assert (s + "\n")[..|s|] == s;
    IntToStringRoundTrip(x);
  }

  /** A digit string parses to its value, with or without a trailing newline. */
  lemma ParseIntOfDigits(d: string)
    requires |d| > 0 && AllDigits(d)
    ensures ParseInt(d) == Some(DigitsValue(d))
    ensures ParseInt(d + "\n") == Some(DigitsValue(d))
  {
    assert (d + "\n")[..|d|] == d;
  }

  /** Splitting after a space-free prefix extends the first piece only. */
  lemma {:induction false} SplitAfterWord(t: string, y: string)
    requires NoSpace(t)
    ensures Split(t + y) == [t + Split(y)[0]] + Split(y)[1..]
  {
    if t != [] {
      var s := t + y;
      assert s[0] == t[0] && s[0] != ' ' && s[1..] == t[1..] + y;
      SplitAfterWord(t[1..], y);
      var u := Split(s[1..]);
      assert Split(s) == [[t[0]] + u[0]] + u[1..];
      assert u[0] == t[1..] + Split(y)[0] && u[1..] == Split(y)[1..];
      assert [t[0]] + (t[1..] + Split(y)[0]) == t + Split(y)[0];
    } else {
      assert t + y == y && t + Split(y)[0] == Split(y)[0];
      assert Split(y) == [Split(y)[0]] + Split(y)[1..];
    }
  }

  /** Pieces without a newline joined with spaces hold no newline. */
  lemma {:induction false} JoinSpacesOneLine(ts: seq<string>)
    requires forall m :: 0 <= m < |ts| ==> OneLine(ts[m])
    ensures OneLine(JoinSpaces(ts))
    decreases |ts|
  {
    if |ts| > 1 {
      JoinSpacesOneLine(ts[1..]);
      var j := JoinSpaces(ts);
      assert j == ts[0] + " " + JoinSpaces(ts[1..]);
      forall i | 0 <= i < |j| ensures j[i] != '\n' {
        if i > |ts[0]| {
          assert j[i] == JoinSpaces(ts[1..])[i - |ts[0]| - 1];
        }
      }
    }
  }

  /** Joining a piece in front of at least one more puts a single space between them. */
  lemma JoinSpacesCons(h: string, ts: seq<string>)
    requires |ts| >= 1
    ensures JoinSpaces([h] + ts) == h + " " + JoinSpaces(ts)
  {
    assert ([h] + ts)[1..] == ts;
  }

  /** `" ".join(s.split(" ")) == s`: the pieces are exactly the text between the spaces. */
  lemma {:induction false} JoinSplit(s: string)
    ensures JoinSpaces(Split(s)) == s
    decreases |s|
  {
    if s != [] {
      var t := Split(s[1..]);
      JoinSplit(s[1..]);
      if s[0] == ' ' {
        JoinSpacesCons([], t);
        assert JoinSpaces(Split(s)) == [] + " " + s[1..];
      } else if |t| == 1 {
        assert Split(s) == [[s[0]] + t[0]];
        assert JoinSpaces(t) == t[0];
      } else {
        var rest := t[1..];
        assert t == [t[0]] + rest;
        JoinSpacesCons(t[0], rest);
        JoinSpacesCons([s[0]] + t[0], rest);
        assert JoinSpaces(Split(s)) == [s[0]] + (t[0] + " " + JoinSpaces(rest));
      }
      assert s == [s[0]] + s[1..];
    }
  }

  /** `" ".join(ts).split(" ") == ts` when no piece holds a space. */
  lemma {:induction false} SplitJoinSpaces(ts: seq<string>)
    requires |ts| >= 1
    requires forall m :: 0 <= m < |ts| ==> NoSpace(ts[m])
    ensures Split(JoinSpaces(ts)) == ts
  {
    if |ts| == 1 {
      SplitAfterWord(ts[0], []);
      assert ts[0] + [] == ts[0] && Split([]) == [[]];
      assert Split(ts[0]) == [ts[0]];
    } else {
      SplitJoinSpaces(ts[1..]);
      var y := " " + JoinSpaces(ts[1..]);
      assert ts[0] + " " + JoinSpaces(ts[1..]) == ts[0] + y;
      SplitAfterWord(ts[0], y);
      assert y[0] == ' ' && y[1..] == JoinSpaces(ts[1..]);
      assert Split(y) == [[]] + Split(y[1..]);
      assert Split(y)[0] == [] && Split(y)[1..] == ts[1..];
      assert Split(JoinSpaces(ts)) == [ts[0] + []] + ts[1..];
      assert ts[0] + [] == ts[0];
      assert ts == [ts[0]] + ts[1..];
    }
  }

  /** Before the first occurrence of `pat` nothing is removed. */
  lemma {:induction false} RemoveAllUpTo(s: string, pat: string, n: nat)
    requires |pat| > 0 && n <= |s|
    requires NoneBefore(s, n, pat)
    ensures RemoveAll(s, pat) == s[..n] + RemoveAll(s[n..], pat)
    decreases n
  {
    if n == 0 {
      assert s[..0] == [] && s[0..] == s;
    } else if |s| < |pat| {
      assert s[..n] + s[n..] == s;
    } else {
      assert !OccursAt(s, 0, pat) && s[0..|pat|] == s[..|pat|];
      var t := s[1..];
      assert RemoveAll(s, pat) == [s[0]] + RemoveAll(t, pat);
      NoneBeforeTail(s, n, pat);
      RemoveAllUpTo(t, pat, n - 1);
      assert t[..n - 1] == s[1..n] && t[n - 1..] == s[n..];
      assert s[..n] == [s[0]] + s[1..n];
    }
  }

  /** Dropping the first character moves every occurrence one place left. */
  lemma NoneBeforeTail(s: string, n: nat, pat: string)
    requires 0 < n <= |s|
    requires NoneBefore(s, n, pat)
    ensures NoneBefore(s[1..], n - 1, pat)
  {
    var t := s[1..];
    forall i: nat | i < n - 1 ensures !OccursAt(t, i, pat) {
      assert !OccursAt(s, i + 1, pat);
      if i + |pat| <= |t| {
        assert t[i..i + |pat|] == s[i + 1..i + 1 + |pat|];
      }
    }
  }

  /**
   * `replace` by repeated `find`: with no occurrence the text is unchanged;
   * otherwise the text before the first occurrence is kept, the occurrence is
   * dropped and the removal goes on after it.
   */
  lemma RemoveAllByFind(s: string, pat: string)
    requires |pat| > 0
    ensures Find(s, pat) < 0 ==> RemoveAll(s, pat) == s
    ensures var i := Find(s, pat);
            i >= 0 ==> i + |pat| <= |s| && RemoveAll(s, pat) == s[..i] + RemoveAll(s[i + |pat|..], pat)
  {
    var i := Find(s, pat);
    if i < 0 {
      assert NoneBefore(s, |s|, pat);
      RemoveAllAbsent(s, pat);
    } else {
      assert NoneBefore(s, i, pat);
      RemoveAllAtFirst(s, pat, i);
    }
  }

  /** With no occurrence of `pat` nothing is removed. */
  lemma RemoveAllAbsent(s: string, pat: string)
    requires |pat| > 0 && NoneBefore(s, |s|, pat)
    ensures RemoveAll(s, pat) == s
  {
    RemoveAllUpTo(s, pat, |s|);
    assert s[..|s|] == s;
  }

  /** The first occurrence of `pat` is removed and the text before it kept. */
  lemma RemoveAllAtFirst(s: string, pat: string, i: nat)
    requires |pat| > 0 && OccursAt(s, i, pat) && NoneBefore(s, i, pat)
    ensures RemoveAll(s, pat) == s[..i] + RemoveAll(s[i + |pat|..], pat)
  {
    RemoveAllUpTo(s, pat, i);
    var u := s[i..];
    assert u[..|pat|] == s[i..i + |pat|] == pat;
    assert u[|pat|..] == s[i + |pat|..];
  }

  /** Removing the occurrences of `pat` from `pat + x` removes the leading one and goes on with `x`. */
  lemma RemoveAllLeading(pat: string, x: string)
    requires |pat| > 0
    ensures RemoveAll(pat + x, pat) == RemoveAll(x, pat)
  {
    assert (pat + x)[..|pat|] == pat && (pat + x)[|pat|..] == x;
  }

  /** No occurrence of a pattern that starts with a non-digit can start inside a digit string. */
  lemma {:induction false} RemoveAllSkipsDigits(d: string, rest: string, pat: string)
    requires |pat| > 0 && !IsDigit(pat[0])
    requires AllDigits(d)
    ensures RemoveAll(d + rest, pat) == d + RemoveAll(rest, pat)
    decreases |d|
  {
    if d == [] {
      assert d + rest == rest;
    } else {
      var s := d + rest;
      if |s| >= |pat| {
        assert s[0] == d[0] && s[..|pat|][0] == s[0];
        assert s[..|pat|] != pat;
        assert s[1..] == d[1..] + rest;
        RemoveAllSkipsDigits(d[1..], rest, pat);
        assert d == [d[0]] + d[1..];
      }
    }
  }

  /** A space that does not start `pat` survives at the head of the text. */
  lemma RemoveAllKeepsLeadingSpace(rest: string, pat: string)
    requires |pat| > 0 && pat[0] != ' '
    requires |rest| > 0 && rest[0] == ' '
    ensures |RemoveAll(rest, pat)| > 0 && RemoveAll(rest, pat)[0] == ' '
  {
    if |rest| >= |pat| {
      assert rest[..|pat|][0] == ' ';
    }
  }
}
