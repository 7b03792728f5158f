/** The Python string operations the chat and ingestion code uses, written out: substring test
    (`pat in s`), character replacement, `"\n".join` and decimal formatting
    of a non-negative integer (`f"{i}"`). Splitting at newlines, counting a
    character and reading a decimal back are not used by that code: they are
    the inverse and measuring functions in which the properties of the joined
    context and of the ids are stated. */
module Text {

  /** `pat` occurs in `s` starting at position `i`. */
  ghost predicate OccursAt(pat: string, s: string, i: int)
  {
    0 <= i <= |s| - |pat| && s[i..i + |pat|] == pat
  }

  /** `pat` occurs contiguously somewhere in `s`. */
  ghost predicate Occurs(pat: string, s: string)
  {
    exists i :: OccursAt(pat, s, i)
  }

  /** Python's `pat in s` on two strings, searched left to right. */
  function ContainsSubstring(pat: string, s: string): bool
    decreases |s|
  {
    if pat <= s then true
    else if |s| == 0 then false
    else ContainsSubstring(pat, s[1..])
  }

  /** The search answers exactly the question "does `pat` occur in `s`". */
  lemma {:induction false} ContainsSubstringCorrect(pat: string, s: string)
    ensures ContainsSubstring(pat, s) <==> Occurs(pat, s)
    decreases |s|
  {
    if pat <= s {
      assert s[0..|pat|] == pat;
      assert OccursAt(pat, s, 0);
    } else if |s| == 0 {
    } else {
      ContainsSubstringCorrect(pat, s[1..]);
      var t := s[1..];
      if Occurs(pat, s) {
        var i :| OccursAt(pat, s, i);
        assert t[i - 1..i - 1 + |pat|] == s[i..i + |pat|];
        assert OccursAt(pat, t, i - 1);
      }
      if Occurs(pat, t) {
        var j :| OccursAt(pat, t, j);
        assert s[j + 1..j + 1 + |pat|] == t[j..j + |pat|];
        assert OccursAt(pat, s, j + 1);
      }
    }
  }

  /** `s.replace("\n", " ")`. */
  function ReplaceNewlines(s: string): (r: string)
    ensures |r| == |s|
    ensures forall i :: 0 <= i < |s| ==> r[i] == (if s[i] == '\n' then ' ' else s[i])
  {
    if |s| == 0 then ""
    else [if s[0] == '\n' then ' ' else s[0]] + ReplaceNewlines(s[1..])
  }

  /** How many times `c` occurs in `s`. */
  function CountChar(s: string, c: char): nat
  {
    if |s| == 0 then 0
    else (if s[0] == c then 1 else 0) + CountChar(s[1..], c)
  }

  lemma {:induction false} CountCharAppend(a: string, b: string, c: char)
    ensures CountChar(a + b, c) == CountChar(a, c) + CountChar(b, c)
  {
    if |a| == 0 {
      assert a + b == b;
    } else {
      assert (a + b)[1..] == a[1..] + b;
      CountCharAppend(a[1..], b, c);
    }
  }

  lemma {:induction false} CountCharZero(s: string, c: char)
    ensures CountChar(s, c) == 0 <==> c !in s
  {
    if |s| > 0 {
      CountCharZero(s[1..], c);
      assert s == [s[0]] + s[1..];
    }
  }

  /** The summed length of some strings. */
  function TotalLength(parts: seq<string>): nat
  {
    if |parts| == 0 then 0 else |parts[0]| + TotalLength(parts[1..])
  }

  /** `"\n".join(parts)`. */
  function JoinLines(parts: seq<string>): (r: string)
    ensures |parts| >= 1 ==> |r| == TotalLength(parts) + |parts| - 1
    ensures |parts| >= 1 ==> parts[0] <= r
    ensures |parts| == 0 ==> r == ""
  {
    if |parts| == 0 then ""
    else if |parts| == 1 then parts[0]
    else parts[0] + "\n" + JoinLines(parts[1..])
  }

  /** The pieces of `s` between newlines, always at least one (as Python's
      `s.split("\n")` would give them). */
  function SplitLines(s: string): (r: seq<string>)
    ensures |r| >= 1
    ensures forall k :: 0 <= k < |r| ==> '\n' !in r[k]
    decreases |s|
  {
    if |s| == 0 then [""]
    else
      var rest := SplitLines(s[1..]);
      if s[0] == '\n' then [""] + rest
      else [[s[0]] + rest[0]] + rest[1..]
  }

  lemma {:induction false} SplitLinesSingle(a: string)
    requires '\n' !in a
    ensures SplitLines(a) == [a]
    decreases |a|
  {
    if |a| > 0 {
      SplitLinesSingle(a[1..]);
      assert [a[0]] + a[1..] == a;
    }
  }

  lemma {:induction false} SplitLinesCons(a: string, b: string)
    requires '\n' !in a
    ensures SplitLines(a + "\n" + b) == [a] + SplitLines(b)
    decreases |a|
  {
    var s := a + "\n" + b;
    if |a| == 0 {
      assert s[1..] == b;
    } else {
      assert s[1..] == a[1..] + "\n" + b;
      SplitLinesCons(a[1..], b);
      assert [a[0]] + a[1..] == a;
    }
  }

  /** Splitting a join of newline-free pieces gives the pieces back. */
  lemma {:induction false} SplitJoinLines(parts: seq<string>)
    requires |parts| >= 1
    requires forall k :: 0 <= k < |parts| ==> '\n' !in parts[k]
    ensures SplitLines(JoinLines(parts)) == parts
  {
    if |parts| == 1 {
      SplitLinesSingle(parts[0]);
    } else {
      SplitLinesCons(parts[0], JoinLines(parts[1..]));
      SplitJoinLines(parts[1..]);
      assert [parts[0]] + parts[1..] == parts;
    }
  }

  /** Joining the pieces of a split gives the string back. */
  lemma {:induction false} JoinSplitLines(s: string)
    ensures JoinLines(SplitLines(s)) == s
    decreases |s|
  {
    if |s| > 0 {
      var rest := SplitLines(s[1..]);
      JoinSplitLines(s[1..]);
      if s[0] == '\n' {
        assert ([""] + rest)[1..] == rest;
      } else if |rest| == 1 {
      } else {
        var r := [[s[0]] + rest[0]] + rest[1..];
        assert r[1..] == rest[1..];
        assert JoinLines(rest) == rest[0] + "\n" + JoinLines(rest[1..]);
        assert [s[0]] + s[1..] == s;
      }
    }
  }

  /** A join of n newline-free pieces holds exactly n - 1 newlines. */
  lemma {:induction false} JoinLinesNewlineCount(parts: seq<string>)
    requires |parts| >= 1
    requires forall k :: 0 <= k < |parts| ==> '\n' !in parts[k]
    ensures CountChar(JoinLines(parts), '\n') == |parts| - 1
  {
    CountCharZero(parts[0], '\n');
    if |parts| > 1 {
      JoinLinesNewlineCount(parts[1..]);
      CountCharAppend(parts[0] + "\n", JoinLines(parts[1..]), '\n');
      CountCharAppend(parts[0], "\n", '\n');
    }
  }

  /** The character of a decimal digit. */
  function DigitChar(d: nat): (c: char)
    requires d < 10
    ensures '0' <= c <= '9'
  {
    ('0' as int + d) as char
  }

  /** The value of a decimal digit character (0 for any other character). */
  function DigitValue(c: char): (d: nat)
    ensures d < 10
  {
    if '0' <= c <= '9' then c as int - '0' as int else 0
  }

  predicate IsDigitString(s: string)
  {
    |s| >= 1 && forall i :: 0 <= i < |s| ==> '0' <= s[i] <= '9'
  }

  /** A digit string with no leading zero, unless it is "0" itself. */
  predicate IsCanonicalDecimal(s: string)
  {
    IsDigitString(s) && (s[0] == '0' ==> |s| == 1)
  }

  /** Decimal formatting of a non-negative integer, as Python's `str(n)`:
      no sign, no leading zeros. */
  function NatToDecimal(n: nat): (s: string)
    ensures IsCanonicalDecimal(s)
    ensures s[0] == '0' ==> n == 0
  {
    if n < 10 then [DigitChar(n)]
    else NatToDecimal(n / 10) + [DigitChar(n % 10)]
  }

  /** Reading a decimal digit string back as a number. */
  function DecimalToNat(s: string): nat
  {
    if |s| == 0 then 0
    else DecimalToNat(s[..|s| - 1]) * 10 + DigitValue(s[|s| - 1])
  }

  lemma {:induction false} DecimalRoundTrip(n: nat)
    ensures DecimalToNat(NatToDecimal(n)) == n
  {
    var s := NatToDecimal(n);
    if n < 10 {
      assert s[..0] == "";
    } else {
      DecimalRoundTrip(n / 10);
      assert s[..|s| - 1] == NatToDecimal(n / 10);
    }
  }

  /** Different numbers are written differently. */
  lemma {:induction false} NatToDecimalInjective(m: nat, n: nat)
    ensures NatToDecimal(m) == NatToDecimal(n) <==> m == n
  {
    DecimalRoundTrip(m);
    DecimalRoundTrip(n);
  }
}
