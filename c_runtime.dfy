/** The C arithmetic and C library behaviour the editor relies on: truncating
    integer division, the long-to-int conversion, strtol in base 16, strlen
    over a NUL-terminated buffer, and the printable-character filter used when
    bytes are shown in the ASCII column. */
module CRuntime {

  const NUL: char := '\0'
  const ESC: char := '\U{1B}'
  const DEL: char := '\U{7F}'

  const INT_MIN: int := -0x8000_0000
  const INT_MAX: int := 0x7FFF_FFFF
  const LONG_MAX: int := 0x7FFF_FFFF_FFFF_FFFF

  /** C's `/` on int for a positive divisor: the quotient truncated toward zero. */
  function CDiv(a: int, b: int): (q: int)
    requires b > 0
    ensures a >= 0 ==> 0 <= a - q * b < b
    ensures a < 0 ==> -b < a - q * b <= 0
  {
    if a >= 0 then a / b else -((-a) / b)
  }

  /** C's `%` on int for a positive divisor: the remainder takes the sign of `a`. */
  function CMod(a: int, b: int): (r: int)
    requires b > 0
    ensures a == CDiv(a, b) * b + r
    ensures -b < r < b
    ensures a >= 0 ==> r >= 0
    ensures a <= 0 ==> r <= 0
  {
    a - CDiv(a, b) * b
  }

  /** Conversion of a long to a 32-bit int, which gcc defines as reduction
      modulo 2^32 into [INT_MIN, INT_MAX]. */
  function ToInt32(v: int): (r: int)
    ensures INT_MIN <= r <= INT_MAX
    ensures (v - r) % 0x1_0000_0000 == 0
    ensures INT_MIN <= v <= INT_MAX ==> r == v
  {
    var m := v % 0x1_0000_0000;
    if m <= INT_MAX then m else m - 0x1_0000_0000
  }

  predicate IsHexDigit(c: char) {
    ('0' <= c <= '9') || ('a' <= c <= 'f') || ('A' <= c <= 'F')
  }

  /** The value strtol gives a single hexadecimal digit. */
  function HexDigitValue(c: char): (v: nat)
    requires IsHexDigit(c)
    ensures v < 16
    ensures '0' <= c <= '9' ==> v == c as int - '0' as int
    ensures 'a' <= c <= 'f' ==> v == c as int - 'a' as int + 10
    ensures 'A' <= c <= 'F' ==> v == c as int - 'A' as int + 10
  {
    if '0' <= c <= '9' then c as int - '0' as int
    else if 'a' <= c <= 'f' then c as int - 'a' as int + 10
    else c as int - 'A' as int + 10
  }

  predicate AllHex(ds: seq<char>) {
    forall i :: 0 <= i < |ds| ==> IsHexDigit(ds[i])
  }

  /** 16 to the power n. */
  function Pow16(n: nat): (p: nat)
    ensures p >= 1
  {
    if n == 0 then 1 else 16 * Pow16(n - 1)
  }

  /** The number a string of hexadecimal digits denotes, most significant
      first: below 16^|ds|, with the last digit as its low nibble. */
  function HexValue(ds: seq<char>): (v: nat)
    requires AllHex(ds)
    ensures v < Pow16(|ds|)
    ensures ds != [] ==> v % 16 == HexDigitValue(ds[|ds| - 1])
  {
    if ds == [] then 0
    else
      var high, low := HexValue(ds[..|ds| - 1]), HexDigitValue(ds[|ds| - 1]);
      assert 16 * high + low < 16 * Pow16(|ds| - 1) by {
        assert 16 * high <= 16 * (Pow16(|ds| - 1) - 1);
      }
      16 * high + low
  }

  /** Length of the longest prefix of `s` made of hexadecimal digits. */
  function HexRun(s: seq<char>): (n: nat)
    ensures n <= |s|
    ensures AllHex(s[..n])
    ensures n < |s| ==> !IsHexDigit(s[n])
  {
    if s == [] || !IsHexDigit(s[0]) then 0
    else
      var m := HexRun(s[1..]);
      assert s[..1 + m] == [s[0]] + s[1..][..m];
      1 + m
  }

  /** The value of the longest hexadecimal prefix of `s`: below 16 to the
      power of the prefix's length, and 0 when `s` does not start with a
      digit. */
  function HexPrefixValue(s: seq<char>): (v: nat)
    ensures v < Pow16(HexRun(s))
    ensures HexRun(s) == 0 ==> v == 0
  {
    HexValue(s[..HexRun(s)])
  }

  /** strtol(s, NULL, 16) for a string that starts with a hexadecimal digit:
      a "0x" or "0X" prefix is skipped when a digit follows it, and a value
      that does not fit in a long saturates at LONG_MAX. */
  function Strtol16(s: seq<char>): (r: int)
    requires |s| > 0 && IsHexDigit(s[0])
    ensures 0 <= r <= LONG_MAX
    ensures HexPrefixValue(DigitsAfterPrefix(s)) <= LONG_MAX ==> r == HexPrefixValue(DigitsAfterPrefix(s))
    ensures HexPrefixValue(DigitsAfterPrefix(s)) > LONG_MAX ==> r == LONG_MAX
  {
    var v := HexPrefixValue(DigitsAfterPrefix(s));
    if v > LONG_MAX then LONG_MAX else v
  }

  /** The digits strtol in base 16 reads: `s` itself, or what follows a "0x"
      or "0X" prefix when a hexadecimal digit comes next. For `s` starting with a
      digit the text read starts with a digit too, so strtol always reads at
      least one digit. */
  function DigitsAfterPrefix(s: seq<char>): (r: seq<char>)
    ensures r != s ==> |r| == |s| - 2 && s[0] == '0' && (s[1] == 'x' || s[1] == 'X')
    ensures |s| > 0 && IsHexDigit(s[0]) ==> |r| > 0 && IsHexDigit(r[0])
  {
    if |s| >= 3 && s[0] == '0' && (s[1] == 'x' || s[1] == 'X') && IsHexDigit(s[2]) then s[2..] else s
  }

  /** strtol skips a leading "0x" or "0X" exactly when a hexadecimal digit
      follows it, and then reads from the third character on. */
  lemma PrefixSkipped(s: seq<char>)
    ensures var r := DigitsAfterPrefix(s);
      && (r == s || r == s[2..])
      && (r != s <==> |s| >= 3 && s[0] == '0' && (s[1] == 'x' || s[1] == 'X') && IsHexDigit(s[2]))
  {
  }

  /** The value of a run of digits does not depend on what follows the run. */
  lemma HexPrefixOfDigits(ds: seq<char>, rest: seq<char>)
    requires AllHex(ds)
    requires rest == [] || !IsHexDigit(rest[0])
    ensures HexRun(ds + rest) == |ds|
    ensures HexPrefixValue(ds + rest) == HexValue(ds)
  {
    HexRunOfDigits(ds, rest);
    assert (ds + rest)[..|ds|] == ds;
  }

  lemma {:induction false} HexRunOfDigits(ds: seq<char>, rest: seq<char>)
    requires AllHex(ds)
    requires rest == [] || !IsHexDigit(rest[0])
    ensures HexRun(ds + rest) == |ds|
  {
    if ds != [] {
      assert (ds + rest)[1..] == ds[1..] + rest;
      HexRunOfDigits(ds[1..], rest);
    }
  }

  /** Length of the C string held in `a`: the index of its first NUL, or |a|
      when there is none. */
  function StrLen(a: seq<char>): (n: nat)
    ensures n <= |a|
    ensures forall k :: 0 <= k < n ==> a[k] != NUL
    ensures n < |a| ==> a[n] == NUL
  {
    if a == [] || a[0] == NUL then 0 else 1 + StrLen(a[1..])
  }

  /** The first NUL determines strlen. */
  lemma {:induction false} StrLenAt(a: seq<char>, n: nat)
    requires n < |a| && a[n] == NUL
    requires forall k :: 0 <= k < n ==> a[k] != NUL
    ensures StrLen(a) == n
  {
    if n > 0 {
      StrLenAt(a[1..], n - 1);
    }
  }

  /** REMOVE_TERMINATORS: how a byte is shown in the ASCII column; bytes
      outside the printable range ' '..'~' are shown as a space. Drawing is
      outside this model, so nothing else here uses it. */
  function Printable(c: bv8): (r: char)
    ensures ' ' <= r <= '~'
    ensures ' ' as int <= c as int <= '~' as int ==> r as int == c as int
    ensures !(' ' as int <= c as int <= '~' as int) ==> r == ' '
  {
    if ' ' as int <= c as int <= '~' as int then (c as int) as char else ' '
  }
}
