/**
 The pieces of the C library the explorer builds its messages with:
 `snprintf` writing into a fixed-size buffer, and `%d` decimal formatting.
 A string's length is its byte count.
 */
module CText {
  import opened Collaborators

  /**
   `snprintf(buf + pos, size - pos, "%s", s)` on a buffer of `size` bytes
   whose text so far is `text`, written at its end (`pos == |text|`). It
   copies as much of `s` as still leaves room for the terminating NUL, and
   returns `|s|`, the length it would have written had there been room.
   */
  function Snprintf(text: string, pos: nat, size: nat, s: string): (r: (string, nat))
    requires pos == |text| < size
    ensures r.1 == |s|
    ensures |r.0| < size
    ensures text <= r.0 <= text + s
    ensures r.0 == text + s <==> pos + |s| < size
  {
    var room := size - 1 - pos;
    if |s| <= room then (text + s, |s|) else (text + s[..room], |s|)
  }

  function DigitChar(d: nat): (c: char)
    requires d < 10
  {
    "0123456789"[d]
  }

  predicate IsDigit(c: char) {
    '0' <= c <= '9'
  }

  function DigitValue(c: char): (d: nat)
    requires IsDigit(c)
  {
    (c - '0') as nat
  }

  /** The decimal digits of `n`, most significant first, without leading zeros. */
  function NatToDecimal(n: nat): (r: string)
    decreases n
  {
    if n < 10 then [DigitChar(n)] else NatToDecimal(n / 10) + [DigitChar(n % 10)]
  }

  /** `%d`: a minus sign for negative values, then the digits of the magnitude. */
  function IntToDecimal(n: int): (r: string) {
    if n < 0 then "-" + NatToDecimal(-n) else NatToDecimal(n)
  }

  /** The value of a string of decimal digits, most significant first. */
  function DecimalValue(s: string): (n: nat)
    requires forall i :: 0 <= i < |s| ==> IsDigit(s[i])
  {
    if |s| == 0 then 0 else DecimalValue(s[..|s| - 1]) * 10 + DigitValue(s[|s| - 1])
  }

  predicate AllDigits(s: string) {
    forall i :: 0 <= i < |s| ==> IsDigit(s[i])
  }

  /** Reads back what `%d` writes: an optional minus sign and at least one digit. */
  function ParseInt(s: string): (r: Option<int>) {
    if |s| > 0 && s[0] == '-' then
      if |s| > 1 && AllDigits(s[1..]) then Some(-(DecimalValue(s[1..]) as int)) else None
    else if |s| > 0 && AllDigits(s) then Some(DecimalValue(s))
    else None
  }

  function Pow10(k: nat): (p: nat) {
    if k == 0 then 1 else 10 * Pow10(k - 1)
  }

  /** The formatted digits are digits, and there is at least one of them. */
  lemma {:induction false} NatToDecimalDigits(n: nat)
    ensures |NatToDecimal(n)| > 0
    ensures AllDigits(NatToDecimal(n))
    decreases n
  {
    if n >= 10 {
      NatToDecimalDigits(n / 10);
    }
  }

  /** Reading the digits of `n` gives back `n`. */
  lemma {:induction false} NatToDecimalRoundTrip(n: nat)
    ensures AllDigits(NatToDecimal(n))
    ensures DecimalValue(NatToDecimal(n)) == n
    decreases n
  {
    NatToDecimalDigits(n);
    if n >= 10 {
      NatToDecimalRoundTrip(n / 10);
      var s := NatToDecimal(n);
      assert s[..|s| - 1] == NatToDecimal(n / 10);
    }
  }

  /** `%d` is read back exactly, for negative numbers too. */
  lemma IntToDecimalRoundTrip(n: int)
    ensures ParseInt(IntToDecimal(n)) == Some(n)
  {
    if n < 0 {
      NegativeRoundTrip(n);
    } else {
      var d := NatToDecimal(n);
      NatToDecimalRoundTrip(n);
      NatToDecimalDigits(n);
      assert IsDigit(d[0]);
    }
  }

  lemma NegativeRoundTrip(n: int)
    requires n < 0
    ensures ParseInt(IntToDecimal(n)) == Some(n)
  {
    var d := NatToDecimal(-n);
    NatToDecimalRoundTrip(-n);
    NatToDecimalDigits(-n);
    var s := "-" + d;
    assert s[1..] == d;
    assert |s| > 1 && s[0] == '-';
  }

  /** A number below 10^k has at most k digits. */
  lemma {:induction false} NatToDecimalLength(n: nat, k: nat)
    requires k > 0 && n < Pow10(k)
    ensures |NatToDecimal(n)| <= k
    decreases k
  {
    if n >= 10 {
      assert k > 1;
      NatToDecimalLength(n / 10, k - 1);
    }
  }

  /** `%d` of a C `int` takes at most eleven bytes: a sign and ten digits. */
  lemma IntToDecimalLength(n: Int32)
    ensures 0 < |IntToDecimal(n)| <= 11
  {
    var m: int := n;
    assert Pow10(10) == 10_000_000_000;
    if m < 0 {
      NatToDecimalLength(-m, 10);
      NatToDecimalDigits(-m);
    } else {
      NatToDecimalLength(m, 10);
      NatToDecimalDigits(m);
    }
  }

  /** The formatted number contains no space, so a phrase can be split after it. */
  lemma DecimalHasNoSpace(n: int)
    ensures ' ' !in IntToDecimal(n)
  {
    NatToDecimalDigits(if n < 0 then -n else n);
  }
}
