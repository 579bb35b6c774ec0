/**
 * String and sequence operations with Python's semantics: `s[::-1]`, `s[:end]` with a
 * possibly negative `end`, `str.find`, `str.strip`, `int()` on a decimal literal and
 * `str()` of a natural number.
 */
module Text {
  import opened Wrappers

  /** `s[::-1]`. */
  function Reverse<T>(s: seq<T>): (r: seq<T>)
    ensures |r| == |s|
    ensures forall i :: 0 <= i < |s| ==> r[i] == s[|s| - 1 - i]
  {
    if s == [] then [] else Reverse(s[1..]) + [s[0]]
  }

  /** `s.find(c)`: the first index holding `c`, or -1 when there is none. */
  function Find(s: string, c: char): (r: int)
    ensures -1 <= r < |s|
    ensures r == -1 <==> c !in s
    ensures 0 <= r ==> s[r] == c && c !in s[..r]
  {
    if s == [] then -1
    else if s[0] == c then 0
    else
      var k := Find(s[1..], c);
      assert k >= 0 ==> s[..k + 1] == [s[0]] + s[1..][..k];
      if k == -1 then -1 else k + 1
  }

  /** The index Python's `s[:end]` stops at: a negative `end` counts from the back, and both ends are clamped. */
  function SliceEnd(length: nat, end: int): (k: nat)
    ensures k <= length
    ensures 0 <= end <= length ==> k == end
    ensures -(length as int) <= end < 0 ==> k == length + end
  {
    if end < 0 then (if length + end < 0 then 0 else length + end)
    else if end > length then length
    else end
  }

  /** `s[:end]`. */
  function SliceTo<T>(s: seq<T>, end: int): seq<T>
  {
    s[..SliceEnd(|s|, end)]
  }

  /** The characters `str.strip()` removes from byte strings. */
  predicate IsSpace(c: char)
  {
    c == ' ' || c == '\t' || c == '\n' || c == '\r' || c == '\U{0B}' || c == '\U{0C}'
  }

  function StripLeft(s: string): (r: string)
    ensures |r| <= |s| && r == s[|s| - |r|..]
    ensures r == [] || !IsSpace(r[0])
    ensures forall k :: 0 <= k < |s| - |r| ==> IsSpace(s[k])
  {
    if s != [] && IsSpace(s[0]) then StripLeft(s[1..]) else s
  }

  function StripRight(s: string): (r: string)
    ensures |r| <= |s| && r == s[..|r|]
    ensures r == [] || !IsSpace(r[|r| - 1])
    ensures forall k :: |r| <= k < |s| ==> IsSpace(s[k])
  {
    if s != [] && IsSpace(s[|s| - 1]) then StripRight(s[..|s| - 1]) else s
  }

  /** `s.strip()`. */
  function Strip(s: string): (r: string)
    ensures |r| <= |s|
    ensures r == [] || (!IsSpace(r[0]) && !IsSpace(r[|r| - 1]))
  {
    StripRight(StripLeft(s))
  }

  predicate IsDigit(c: char)
  {
    '0' <= c <= '9'
  }

  predicate AllDigits(s: string)
  {
    forall i :: 0 <= i < |s| ==> IsDigit(s[i])
  }

  function DigitValue(c: char): nat
    requires IsDigit(c)
  {
    (c as int - '0' as int) as nat
  }

  function DigitChar(d: nat): (c: char)
    requires d < 10
    ensures IsDigit(c) && DigitValue(c) == d
  {
    ('0' as int + d) as char
  }

  /** The value of a string of decimal digits, most significant first. */
  function DigitsValue(s: string): nat
    requires AllDigits(s)
  {
    if s == [] then 0 else 10 * DigitsValue(s[..|s| - 1]) + DigitValue(s[|s| - 1])
  }

  /** `int(s)` on a stripped string of decimal digits without a sign; `None` stands for ValueError. */
  function ParseNat(s: string): (r: Option<nat>)
    ensures r.Some? <==> s != [] && AllDigits(s)
  {
    if s != [] && AllDigits(s) then Some(DigitsValue(s)) else None
  }

  /** A leading '+' or '-'. */
  predicate IsSign(c: char)
  {
    c == '+' || c == '-'
  }

  /**
   * `int(s)` on a stripped string: an optional '+' or '-', whitespace after the sign (which
   * Python 2's `int` skips), then decimal digits; `None` stands for ValueError.
   */
  function ParseInt(s: string): (r: Option<int>)
    ensures s == [] || !IsSign(s[0]) ==> (r.Some? <==> s != [] && AllDigits(s))
    ensures s != [] && AllDigits(s) ==> r == Some(DigitsValue(s))
    ensures s != [] && IsSign(s[0]) ==>
      var digits := StripLeft(s[1..]);
      && (r.Some? <==> digits != [] && AllDigits(digits))
      && (r.Some? ==> r.value == if s[0] == '-' then -(DigitsValue(digits) as int) else DigitsValue(digits))
  {
    if |s| > 0 && IsSign(s[0]) then
      match ParseNat(StripLeft(s[1..]))
      case None => None
      case Some(n) => Some(if s[0] == '-' then -(n as int) else n)
    else
      match ParseNat(s)
      case None => None
      case Some(n) => Some(n)
  }

  /** `" 3".lstrip()` is `"3"`. */
  lemma StripSpaceThree()
    ensures StripLeft([' ', '3']) == ['3']
  {
    assert [' ', '3'][1..] == ['3'];
  }

  /** `int("3")` is 3. */
  lemma ParseThree()
    ensures ParseNat(['3']) == Some(3)
  {
    assert ['3'][..0] == [];
  }

  /** Whitespace between the sign and the digits is skipped: `int("- 3")` is -3 and `int("+ 3")` is 3. */
  lemma SpaceAfterSign(sign: char)
    requires IsSign(sign)
    ensures ParseInt([sign, ' ', '3']) == Some(if sign == '-' then -3 else 3)
  {
    assert [sign, ' ', '3'][1..] == [' ', '3'];
    StripSpaceThree();
    ParseThree();
  }

  /** `str(n)` for a natural number: decimal digits without leading zeros. */
  function NatToString(n: nat): (s: string)
    ensures s != [] && AllDigits(s)
  {
    if n < 10 then [DigitChar(n)] else NatToString(n / 10) + [DigitChar(n % 10)]
  }

  /** `str` and `int` are inverse on naturals. */
  lemma {:induction false} ParseNatToString(n: nat)
    ensures ParseNat(NatToString(n)) == Some(n)
  {
    var s := NatToString(n);
    if n < 10 {
      assert s[..|s| - 1] == [];
      assert DigitsValue(s) == 10 * DigitsValue([]) + DigitValue(s[0]);
    } else {
      ParseNatToString(n / 10);
      assert s[..|s| - 1] == NatToString(n / 10);
    }
  }

  function Pow10(k: nat): (p: nat)
    ensures p >= 1
  {
    if k == 0 then 1 else 10 * Pow10(k - 1)
  }

  /** A number at least 10^k needs more than k digits. */
  lemma {:induction false} NatToStringLength(n: nat, k: nat)
    requires n >= Pow10(k)
    ensures |NatToString(n)| > k
  {
    if k > 0 {
      NatToStringLength(n / 10, k - 1);
    }
  }

  /** `t in s` for strings: `t` occurs in `s` as a contiguous substring. */
  predicate Contains(s: string, t: string)
  {
    exists i :: 0 <= i <= |s| && t <= s[i..]
  }

  lemma NotContainsLonger(s: string, t: string)
    requires |t| > |s|
    ensures !Contains(s, t)
  {
  }
}
