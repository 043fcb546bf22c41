/**
 * The string operations the profiling dump and its converter rely on: decimal rendering of
 * unsigned integers (ostream << uint64_t), and Python's str.split(sep), str.strip(),
 * str.startswith() and the `in` test on strings (debug/process_debug.py:19, 22, 25).
 */
module Text {

  // ------------------------------------------------------------ decimal integers

  predicate IsDigit(c: char)
  {
    '0' <= c <= '9'
  }

  predicate AllDigits(s: string)
  {
    forall i :: 0 <= i < |s| ==> IsDigit(s[i])
  }

  function DigitChar(d: nat): (c: char)
    requires d < 10
    ensures IsDigit(c)
  {
    ['0', '1', '2', '3', '4', '5', '6', '7', '8', '9'][d]
  }

  function DigitOf(c: char): (d: nat)
    requires IsDigit(c)
    ensures d < 10
  {
    c as int - '0' as int
  }

  /** How an ostream writes an unsigned integer: its decimal digits, no sign, no padding. */
  function Decimal(n: nat): (s: string)
    ensures |s| > 0 && AllDigits(s)
    decreases n
  {
    if n < 10 then [DigitChar(n)] else Decimal(n / 10) + [DigitChar(n % 10)]
  }

  /** The value of a non-empty string of decimal digits. */
  function DigitsValue(s: string): nat
    requires AllDigits(s)
  {
    if |s| == 0 then 0 else DigitsValue(s[..|s| - 1]) * 10 + DigitOf(s[|s| - 1])
  }

  /** 10^k */
  function Pow10(k: nat): (p: nat)
    ensures p > 0
  {
    if k == 0 then 1 else 10 * Pow10(k - 1)
  }

  /** A number below 10^k is written with at most k digits. */
  lemma {:induction false} DecimalLength(n: nat, k: nat)
    requires 0 < k && n < Pow10(k)
    ensures |Decimal(n)| <= k
    decreases n
  {
    if n >= 10 {
      assert k > 1;
      DecimalLength(n / 10, k - 1);
    }
  }

  /** Reading back what Decimal wrote gives the number. */
  lemma {:induction false} DecimalRoundTrip(n: nat)
    ensures DigitsValue(Decimal(n)) == n
    decreases n
  {
    var s := Decimal(n);
    if n < 10 {
      assert s[..0] == [];
    } else {
      DecimalRoundTrip(n / 10);
      assert s[..|s| - 1] == Decimal(n / 10);
    }
  }

  // ------------------------------------------------------------ Python string tests

  /** line.startswith(p) */
  predicate StartsWith(s: string, p: string)
  {
    |p| <= |s| && s[..|p|] == p
  }

  /** p occurs in s at index i. */
  predicate OccursAt(s: string, p: string, i: int)
  {
    0 <= i <= |s| - |p| && s[i..i + |p|] == p
  }

  /** p in line */
  predicate Contains(s: string, p: string)
  {
    exists i :: 0 <= i <= |s| - |p| && OccursAt(s, p, i)
  }

  /** No two adjacent '-'. */
  predicate NoDoubleDash(s: string)
  {
    forall i :: 0 <= i < |s| - 1 && s[i] == '-' ==> s[i + 1] != '-'
  }

  /** A text without two adjacent dashes does not contain "----". */
  lemma NoDashRun(s: string)
    requires NoDoubleDash(s)
    ensures !Contains(s, "----")
  {
    forall i | 0 <= i <= |s| - 4
      ensures !OccursAt(s, "----", i)
    {
      if s[i] == '-' {
        assert s[i..i + 4][1] == s[i + 1] != '-';
      }
    }
  }

  /** Decimal digits hold no dash at all. */
  lemma DigitsNoDash(s: string)
    requires AllDigits(s)
    ensures NoDoubleDash(s)
  {
    assert forall i :: 0 <= i < |s| ==> s[i] != '-';
  }

  /** Gluing two dash-free texts keeps it dash-free when the seam is not two dashes. */
  lemma NoDoubleDashAppend(a: string, b: string)
    requires NoDoubleDash(a) && NoDoubleDash(b)
    requires |a| == 0 || |b| == 0 || a[|a| - 1] != '-' || b[0] != '-'
    ensures NoDoubleDash(a + b)
  {
    var s := a + b;
    forall i | 0 <= i < |s| - 1 && s[i] == '-'
      ensures s[i + 1] != '-'
    {
      if i + 1 < |a| {
        assert s[i] == a[i] && s[i + 1] == a[i + 1];
      } else if i >= |a| {
        assert s[i] == b[i - |a|] && s[i + 1] == b[i - |a| + 1];
      }
    }
  }

  // ------------------------------------------------------------ str.split(sep)

  /**
   * Python's s.split(c) for a one-character separator: the pieces between separators,
   * always at least one, empty pieces kept.
   */
  function Split(s: string, c: char): (parts: seq<string>)
    ensures |parts| >= 1
  {
    if |s| == 0 then [""]
    else if s[0] == c then [""] + Split(s[1..], c)
    else var rest := Split(s[1..], c); [[s[0]] + rest[0]] + rest[1..]
  }

  /** Text before the first separator becomes the front of the first piece. */
  lemma {:induction false} SplitPrefix(p: string, x: string, c: char)
    requires c !in p
    ensures Split(p + x, c) == [p + Split(x, c)[0]] + Split(x, c)[1..]
  {
    if |p| > 0 {
      assert p[0] in p && (p + x)[0] == p[0];
      SplitPrefix(p[1..], x, c);
      assert (p + x)[1..] == p[1..] + x;
      assert [p[0]] + (p[1..] + Split(x, c)[0]) == p + Split(x, c)[0];
    } else {
      assert p + x == x && p + Split(x, c)[0] == Split(x, c)[0];
    }
  }

  /** A separator right after a separator-free text ends the first piece there. */
  lemma SplitAt(p: string, x: string, c: char)
    requires c !in p
    ensures Split(p + [c] + x, c) == [p] + Split(x, c)
  {
    SplitPrefix(p, [c] + x, c);
    assert p + [c] + x == p + ([c] + x);
    assert ([c] + x)[1..] == x;
    assert Split([c] + x, c) == [""] + Split(x, c);
    assert p + "" == p;
  }

  /** Without a separator the text is its only piece. */
  lemma SplitNone(s: string, c: char)
    requires c !in s
    ensures Split(s, c) == [s]
  {
    SplitPrefix(s, "", c);
    assert s + "" == s;
  }

  // ------------------------------------------------------------ str.strip()

  /** The whitespace str.strip() removes, restricted to ASCII. */
  predicate IsSpace(c: char)
  {
    c == ' ' || c == '\t' || c == '\n' || c == '\r' || c == '\U{000B}' || c == '\U{000C}'
  }

  function StripLeft(s: string): (r: string)
    ensures |r| <= |s| && r == s[|s| - |r|..]
    ensures |r| == 0 || !IsSpace(r[0])
  {
    if |s| > 0 && IsSpace(s[0]) then StripLeft(s[1..]) else s
  }

  function StripRight(s: string): (r: string)
    ensures |r| <= |s| && r == s[..|r|]
    ensures |r| == 0 || !IsSpace(r[|r| - 1])
  {
    if |s| > 0 && IsSpace(s[|s| - 1]) then StripRight(s[..|s| - 1]) else s
  }

  /** s.strip() */
  function Strip(s: string): string
  {
    StripRight(StripLeft(s))
  }

  predicate AllSpace(s: string)
  {
    forall i :: 0 <= i < |s| ==> IsSpace(s[i])
  }

  lemma {:induction false} StripLeftPadded(pre: string, f: string)
    requires AllSpace(pre) && (|f| == 0 || !IsSpace(f[0]))
    ensures StripLeft(pre + f) == f
  {
    if |pre| > 0 {
      assert (pre + f)[1..] == pre[1..] + f;
      StripLeftPadded(pre[1..], f);
    } else {
      assert pre + f == f;
    }
  }

  lemma {:induction false} StripRightPadded(f: string, post: string)
    requires AllSpace(post) && (|f| == 0 || !IsSpace(f[|f| - 1]))
    ensures StripRight(f + post) == f
  {
    if |post| > 0 {
      assert (f + post)[..|f + post| - 1] == f + post[..|post| - 1];
      StripRightPadded(f, post[..|post| - 1]);
    } else {
      assert f + post == f;
    }
  }

  /** Stripping a field padded with whitespace gives the field back. */
  lemma StripPadded(pre: string, f: string, post: string)
    requires AllSpace(pre) && AllSpace(post)
    requires |f| > 0 && !IsSpace(f[0]) && !IsSpace(f[|f| - 1])
    ensures Strip(pre + f + post) == f
  {
    assert pre + f + post == pre + (f + post);
    StripLeftPadded(pre, f + post);
    StripRightPadded(f, post);
  }
}
