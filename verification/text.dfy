/** String helpers the matcher relies on: Python slicing and decimal rendering of offsets. */
module Text {
  import opened Wrappers

  function Min(a: int, b: int): int { if a <= b then a else b }
  function Max(a: int, b: int): int { if a >= b then a else b }

  /** Python's normalisation of one slice bound: negative bounds count from the end, then clamp. */
  function SliceBound(i: int, n: nat): (b: nat)
    ensures b <= n
    ensures 0 <= i <= n ==> b == i
    ensures i > n ==> b == n
    ensures i < 0 ==> b == Max(0, n + i)
  {
    if i < 0 then (if n + i < 0 then 0 else n + i)
    else if i > n then n
    else i
  }

  /** `s[a:b]` with Python semantics (step 1). */
  function PySlice(s: string, a: int, b: int): (r: string)
    ensures |r| <= |s|
    ensures 0 <= a <= b <= |s| ==> r == s[a..b]
    ensures 0 <= b <= a ==> r == []
  {
    var lo := SliceBound(a, |s|);
    var hi := SliceBound(b, |s|);
    if lo >= hi then [] else s[lo..hi]
  }

  predicate IsDigit(c: char) { '0' <= c <= '9' }

  predicate AllDigits(s: string) { forall i :: 0 <= i < |s| ==> IsDigit(s[i]) }

  function DigitChar(d: nat): (c: char)
    requires d < 10
    ensures IsDigit(c)
  {
    ['0', '1', '2', '3', '4', '5', '6', '7', '8', '9'][d]
  }

  function DigitValue(c: char): (d: nat)
    requires IsDigit(c)
    ensures d < 10 && DigitChar(d) == c
  {
    (c as int - '0' as int) as nat
  }

  /** `str(n)` for a non-negative Python int: decimal digits, no leading zero. */
  function NatToString(n: nat): (s: string)
    ensures |s| > 0 && AllDigits(s)
    ensures |s| > 1 ==> s[0] != '0'
  {
    if n < 10 then [DigitChar(n)] else NatToString(n / 10) + [DigitChar(n % 10)]
  }

  /** Reads a string of decimal digits as a number. */
  function ParseDigits(s: string): nat
    requires AllDigits(s)
  {
    if |s| == 0 then 0 else 10 * ParseDigits(s[..|s| - 1]) + DigitValue(s[|s| - 1])
  }

  lemma {:induction false} ParseNatToString(n: nat)
    ensures ParseDigits(NatToString(n)) == n
  {
    var s := NatToString(n);
    if n >= 10 {
      ParseNatToString(n / 10);
      assert s[..|s| - 1] == NatToString(n / 10);
    }
  }

  /** Number of leading decimal digits of `s`. */
  function DigitPrefix(s: string): (k: nat)
    ensures k <= |s| && AllDigits(s[..k])
    ensures k < |s| ==> !IsDigit(s[k])
  {
    if |s| == 0 || !IsDigit(s[0]) then 0
    else
      var k := 1 + DigitPrefix(s[1..]);
      assert s[..k] == [s[0]] + s[1..][..k - 1];
      k
  }

  const PositionSeparator: string := " - "

  /** The candidate position reported to callers: `f'{start} - {end}'`. */
  function PositionString(start: nat, end: nat): string
  {
    NatToString(start) + PositionSeparator + NatToString(end)
  }

  /** Reads a position string back into its two offsets, if it has that shape. */
  function ParsePosition(s: string): Option<(nat, nat)>
  {
    var k := DigitPrefix(s);
    var rest := s[k..];
    if 0 < k && |rest| > |PositionSeparator| && rest[..|PositionSeparator|] == PositionSeparator
       && AllDigits(rest[|PositionSeparator|..])
    then Some((ParseDigits(s[..k]), ParseDigits(rest[|PositionSeparator|..])))
    else None
  }

  lemma {:induction false} DigitPrefixOfDigits(d: string, t: string)
    requires AllDigits(d)
    requires |t| > 0 && !IsDigit(t[0])
    ensures DigitPrefix(d + t) == |d|
  {
    if |d| > 0 {
      assert (d + t)[1..] == d[1..] + t;
      DigitPrefixOfDigits(d[1..], t);
    } else {
      assert d + t == t;
    }
  }

  /** The position string determines both offsets: reading it back yields them. */
  lemma PositionRoundTrip(start: nat, end: nat)
    ensures ParsePosition(PositionString(start, end)) == Some((start, end))
  {
    var a, b := NatToString(start), NatToString(end);
    var s := PositionString(start, end);
    assert s == a + (PositionSeparator + b);
    DigitPrefixOfDigits(a, PositionSeparator + b);
    assert s[..|a|] == a;
    assert s[|a|..] == PositionSeparator + b;
    assert (PositionSeparator + b)[|PositionSeparator|..] == b;
    ParseNatToString(start);
    ParseNatToString(end);
  }

  /** Distinct offset pairs never render to the same position string. */
  lemma PositionInjective(s1: nat, e1: nat, s2: nat, e2: nat)
    requires PositionString(s1, e1) == PositionString(s2, e2)
    ensures s1 == s2 && e1 == e2
  {
    PositionRoundTrip(s1, e1);
    PositionRoundTrip(s2, e2);
  }
}
