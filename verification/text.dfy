/**
  The Python string operations the curator relies on: `str.strip()`,
  `str.split(c)` with a one-character separator, `sep.join(parts)` and the
  decimal rendering of an `int` inside an f-string.
 */
module Text {

  /** Python's `str.isspace()` for one character; the regular-expression class
      `\s` of a `str` pattern matches exactly the same characters. */
  predicate IsSpace(c: char) {
      || ('\t' <= c <= '\r')
      || ('\U{1c}' <= c <= '\U{1f}')
      || c == ' '
      || c == '\U{85}'
      || c == '\U{a0}'
      || c == '\U{1680}'
      || ('\U{2000}' <= c <= '\U{200a}')
      || c == '\U{2028}'
      || c == '\U{2029}'
      || c == '\U{202f}'
      || c == '\U{205f}'
      || c == '\U{3000}'
  }

  predicate AllSpace(s: string) {
    forall k :: 0 <= k < |s| ==> IsSpace(s[k])
  }

  /** `s.lstrip()`. */
  function LStrip(s: string): (r: string)
    ensures |r| <= |s|
  {
    if s != [] && IsSpace(s[0]) then LStrip(s[1..]) else s
  }

  /** `s.rstrip()`. */
  function RStrip(s: string): (r: string)
    ensures |r| <= |s|
  {
    if s != [] && IsSpace(s[|s| - 1]) then RStrip(s[..|s| - 1]) else s
  }

  /** `lstrip()` drops the leading whitespace and nothing else: what it keeps
      is a suffix, what it cuts is whitespace, and what it keeps does not
      start with whitespace. */
  lemma {:induction false} LStripCuts(s: string)
    ensures var r := LStrip(s);
      && r == s[|s| - |r|..]
      && (forall k :: 0 <= k < |s| - |r| ==> IsSpace(s[k]))
      && (r == [] || !IsSpace(r[0]))
    decreases |s|
  {
    if s != [] && IsSpace(s[0]) {
      LStripCuts(s[1..]);
      var r := LStrip(s);
      assert r == LStrip(s[1..]);
      assert s[1..][|s| - 1 - |r|..] == s[|s| - |r|..];
      forall k | 1 <= k < |s| - |r| ensures IsSpace(s[k]) {
        assert s[k] == s[1..][k - 1];
      }
    }
  }

  /** `rstrip()` drops the trailing whitespace and nothing else. */
  lemma {:induction false} RStripCuts(s: string)
    ensures var r := RStrip(s);
      && r == s[..|r|]
      && (forall k :: |r| <= k < |s| ==> IsSpace(s[k]))
      && (r == [] || !IsSpace(r[|r| - 1]))
    decreases |s|
  {
    if s != [] && IsSpace(s[|s| - 1]) {
      var init := s[..|s| - 1];
      RStripCuts(init);
      var r := RStrip(s);
      assert r == RStrip(init);
      assert r == init[..|r|];
      assert init[..|r|] == s[..|r|];
      forall k | |r| <= k < |s| ensures IsSpace(s[k]) {
        if k < |s| - 1 {
          assert s[k] == init[k];
        }
      }
    }
  }

  /** `s.strip()`. */
  function Strip(s: string): string {
    LStrip(RStrip(s))
  }

  /** What `strip()` leaves neither starts nor ends with whitespace. */
  lemma {:induction false} StripEnds(s: string)
    ensures var r := Strip(s); r == [] || (!IsSpace(r[0]) && !IsSpace(r[|r| - 1]))
  {
    var t := RStrip(s);
    var r := LStrip(t);
    RStripCuts(s);
    LStripCuts(t);
    if r != [] {
      assert r[|r| - 1] == t[|t| - 1];
    }
  }

  /** What `strip()` cuts is whitespace at the two ends and nothing else:
      the result is `s[i..j]`, and `s[..i]` and `s[j..]` are all whitespace. */
  lemma {:induction false} StripCuts(s: string) returns (i: nat, j: nat)
    ensures i <= j <= |s| && Strip(s) == s[i..j]
    ensures AllSpace(s[..i]) && AllSpace(s[j..])
  {
    var t := RStrip(s);
    var r := LStrip(t);
    RStripCuts(s);
    LStripCuts(t);
    i, j := |t| - |r|, |t|;
    assert t == s[..j];
    assert r == t[i..];
    assert t[i..] == s[i..j];
    AllSpaceSlice(t, 0, i);
    assert t[0..i] == s[..i];
    AllSpaceSlice(s, j, |s|);
    assert s[j..|s|] == s[j..];
  }

  lemma {:induction false} AllSpaceSlice(s: string, i: int, j: int)
    requires 0 <= i <= j <= |s|
    requires forall k :: i <= k < j ==> IsSpace(s[k])
    ensures AllSpace(s[i..j])
  {
  }

  /** A string that neither starts nor ends with whitespace is its own strip. */
  lemma {:induction false} StripOfTrimmed(s: string)
    requires s != [] && !IsSpace(s[0]) && !IsSpace(s[|s| - 1])
    ensures Strip(s) == s
  {
  }

  /** `sep.join(parts)`. */
  function Join(sep: string, parts: seq<string>): string
  {
    if |parts| == 0 then ""
    else if |parts| == 1 then parts[0]
    else parts[0] + sep + Join(sep, parts[1..])
  }

  /** `s.split(c)` with an explicit one-character separator: the pieces
      between the occurrences of `c`, so never an empty list. */
  function Split(s: string, c: char): (r: seq<string>)
    ensures |r| >= 1
    ensures forall k :: 0 <= k < |r| ==> c !in r[k]
    decreases |s|
  {
    if s == [] then [[]]
    else
      var rest := Split(s[1..], c);
      if s[0] == c then [[]] + rest
      else [[s[0]] + rest[0]] + rest[1..]
  }

  /** Joining the pieces of a split with the separator gives back the string. */
  lemma {:induction false} JoinSplit(s: string, c: char)
    ensures Join([c], Split(s, c)) == s
    decreases |s|
  {
    if s != [] {
      var rest := Split(s[1..], c);
      JoinSplit(s[1..], c);
      if s[0] == c {
        assert Split(s, c) == [[]] + rest;
        assert s == [c] + s[1..];
      } else {
        var r := Split(s, c);
        assert r == [[s[0]] + rest[0]] + rest[1..];
        if |rest| == 1 {
          assert s[1..] == rest[0];
        } else {
          assert r[1..] == rest[1..];
          assert Join([c], rest) == rest[0] + [c] + Join([c], rest[1..]);
        }
        assert s == [s[0]] + s[1..];
      }
    }
  }

  /** Splitting a separator-free prefix off the front of a string. */
  lemma {:induction false} SplitPrefix(p: string, rest: string, c: char)
    requires c !in p
    ensures Split(p + rest, c) == [p + Split(rest, c)[0]] + Split(rest, c)[1..]
    decreases |p|
  {
    if p != [] {
      assert (p + rest)[1..] == p[1..] + rest;
      assert (p + rest)[0] == p[0];
      SplitPrefix(p[1..], rest, c);
      assert [p[0]] + (p[1..] + Split(rest, c)[0]) == p + Split(rest, c)[0];
    } else {
      var pieces := Split(rest, c);
      assert p + rest == rest;
      assert p + pieces[0] == pieces[0];
      assert pieces == [pieces[0]] + pieces[1..];
    }
  }

  /** Splitting a join of separator-free parts gives back the parts: the join
      loses nothing, and the pieces come back one per part, in order. */
  lemma {:induction false} SplitJoin(parts: seq<string>, c: char)
    requires |parts| >= 1
    requires forall k :: 0 <= k < |parts| ==> c !in parts[k]
    ensures Split(Join([c], parts), c) == parts
    decreases |parts|
  {
    if |parts| == 1 {
      var none: string := [];
      SplitPrefix(parts[0], none, c);
      assert Split(none, c) == [none];
      assert parts[0] + none == parts[0];
      assert Split(parts[0], c) == [parts[0]];
    } else {
      var tail := Join([c], parts[1..]);
      SplitJoin(parts[1..], c);
      assert Join([c], parts) == parts[0] + ([c] + tail);
      SplitPrefix(parts[0], [c] + tail, c);
      var sepTail := [c] + tail;
      assert sepTail[0] == c && sepTail[1..] == tail;
      var pieces := Split(sepTail, c);
      assert pieces == [[]] + parts[1..];
      assert parts[0] + pieces[0] == parts[0];
      assert pieces[1..] == parts[1..];
      assert parts == [parts[0]] + parts[1..];
    }
  }

  /** A character that occurs neither in the separator nor in any part does
      not occur in the join. */
  lemma {:induction false} JoinExcludes(sep: string, parts: seq<string>, c: char)
    requires c !in sep
    requires forall k :: 0 <= k < |parts| ==> c !in parts[k]
    ensures c !in Join(sep, parts)
    decreases |parts|
  {
    if |parts| > 1 {
      JoinExcludes(sep, parts[1..], c);
    }
  }

  /** Joining with a separator that starts with `c`, seen as joining with `c`
      alone once the rest of the separator is glued to the later parts. */
  function PrefixLater(glue: string, parts: seq<string>): (r: seq<string>)
    requires |parts| >= 1
    ensures |r| == |parts| && r[0] == parts[0]
    ensures forall k :: 1 <= k < |parts| ==> r[k] == glue + parts[k]
  {
    [parts[0]] + seq(|parts| - 1, k requires 0 <= k < |parts| - 1 => glue + parts[k + 1])
  }

  lemma {:induction false} JoinRegroup(c: char, glue: string, parts: seq<string>)
    requires |parts| >= 1
    ensures Join([c] + glue, parts) == Join([c], PrefixLater(glue, parts))
    decreases |parts|
  {
    if |parts| > 1 {
      var q1 := PrefixLater(glue, parts[1..]);
      JoinRegroup(c, glue, parts[1..]);
      var q := PrefixLater(glue, parts);
      assert q[1..] == [glue + q1[0]] + q1[1..];
      JoinGlueFirst(c, glue, q1);
      assert Join([c], q) == parts[0] + [c] + Join([c], q[1..]);
    }
  }

  /** Gluing a string to the first part glues it to the front of the join. */
  lemma {:induction false} JoinGlueFirst(c: char, glue: string, parts: seq<string>)
    requires |parts| >= 1
    ensures Join([c], [glue + parts[0]] + parts[1..]) == glue + Join([c], parts)
  {
  }

  // ---------------------------------------------------------------------------
  // Decimal rendering of integers, as `f"{n}"` produces it.

  predicate IsDigit(c: char) {
    '0' <= c <= '9'
  }

  function DigitChar(d: nat): (c: char)
    requires d < 10
    ensures IsDigit(c) && c as int - '0' as int == d
  {
    ('0' as int + d) as char
  }

  /** The decimal digits of `n`, most significant first, without leading zeros. */
  function NatToDecimal(n: nat): (r: string)
    ensures |r| >= 1 && forall k :: 0 <= k < |r| ==> IsDigit(r[k])
    ensures |r| > 1 ==> r[0] != '0'
  {
    if n < 10 then [DigitChar(n)] else NatToDecimal(n / 10) + [DigitChar(n % 10)]
  }

  /** `str(i)` for a Python int: a minus sign before the digits of a negative number. */
  function IntToDecimal(i: int): (r: string)
    ensures |r| >= 1
    ensures forall k :: 0 <= k < |r| ==> IsDigit(r[k]) || r[k] == '-'
    ensures (r[0] == '-') == (i < 0)
  {
    if i < 0 then "-" + NatToDecimal(-i) else NatToDecimal(i)
  }

  /** The number a string of decimal digits denotes: the inverse of NatToDecimal. */
  function DecimalValue(s: string): nat
    requires forall k :: 0 <= k < |s| ==> IsDigit(s[k])
  {
    if s == [] then 0
    else 10 * DecimalValue(s[..|s| - 1]) + DigitValue(s[|s| - 1])
  }

  function DigitValue(c: char): (d: nat)
    requires IsDigit(c)
    ensures d < 10 && DigitChar(d) == c
  {
    c as int - '0' as int
  }

  lemma {:induction false} DecimalRoundTrip(n: nat)
    ensures DecimalValue(NatToDecimal(n)) == n
  {
    if n >= 10 {
      DecimalRoundTrip(n / 10);
      var r := NatToDecimal(n);
      assert r[..|r| - 1] == NatToDecimal(n / 10);
    }
  }
}
