/** The pieces of C's `snprintf` that the compass handler relies on: decimal
    rendering for `%d` and `%ld`, zero padding for `%02ld`, truncation to the
    destination buffer, and reading a NUL-terminated string back out of a
    buffer. Text is a sequence of bytes, one Dafny `char` per C `char`. */
module CFormat {

  const NUL: char := '\0'

  datatype Option<T> = None | Some(value: T)

  predicate IsDigit(c: char) { '0' <= c <= '9' }

  predicate AllDigits(s: string) { forall i | 0 <= i < |s| :: IsDigit(s[i]) }

  predicate NoNul(s: string) { forall i | 0 <= i < |s| :: s[i] != NUL }

  function Pow10(k: nat): (p: nat)
    ensures p >= 1
    ensures k >= 1 ==> p >= 10 && p % 10 == 0
  {
    if k == 0 then 1 else 10 * Pow10(k - 1)
  }

  /** The character of a single decimal digit. */
  function DigitChar(d: nat): (c: char)
    requires d < 10
    ensures IsDigit(c) && c as int - '0' as int == d
  {
    ('0' as int + d) as char
  }

  function DigitValue(c: char): (d: nat)
    requires IsDigit(c)
    ensures d < 10 && DigitChar(d) == c
  {
    c as int - '0' as int
  }

  /** `%ld` of a non-negative value: its decimal digits, most significant
      first, with no leading zero. */
  function NatToDec(n: nat): string
    decreases n
  {
    if n < 10 then [DigitChar(n)] else NatToDec(n / 10) + [DigitChar(n % 10)]
  }

  /** `%d` / `%ld` of any value: a minus sign for negative values. */
  function IntToDec(i: int): string
  {
    if i < 0 then "-" + NatToDec(-i) else NatToDec(i)
  }

  /** `%02ld` of a non-negative value: padded on the left with zeros to a
      width of at least two. */
  function ZeroPad2(n: nat): string
  {
    if n < 10 then "0" + NatToDec(n) else NatToDec(n)
  }

  /** The value a string of decimal digits denotes. */
  function DecValue(s: string): nat
    requires AllDigits(s)
  {
    if s == [] then 0 else DecValue(s[..|s| - 1]) * 10 + DigitValue(s[|s| - 1])
  }

  /** Reads back a signed decimal as `%d` writes it. */
  function ParseInt(s: string): Option<int>
  {
    if |s| >= 2 && s[0] == '-' && AllDigits(s[1..]) then Some(-(DecValue(s[1..]) as int))
    else if |s| >= 1 && AllDigits(s) then Some(DecValue(s))
    else None
  }

  /** What `snprintf(buf, size, ...)` leaves in `buf` before the terminating
      NUL, for the fully formatted text `s`: at most `size - 1` bytes of it. */
  function Clip(s: string, size: nat): (r: string)
    requires size > 0
    ensures |r| <= size - 1 && r <= s
    ensures |r| == |s| <==> |s| < size
    ensures |s| >= size ==> |r| == size - 1
  {
    if |s| < size then s else s[..size - 1]
  }

  /** The C string stored in a buffer: every byte before the first NUL. */
  function CStr(a: seq<char>): (s: string)
    ensures NoNul(s) && s <= a
    ensures |s| < |a| ==> a[|s|] == NUL
  {
    if a == [] || a[0] == NUL then [] else [a[0]] + CStr(a[1..])
  }

  /** Number of leading decimal digits of `s`. */
  function DigitSpan(s: string): (k: nat)
    ensures k <= |s| && AllDigits(s[..k])
    ensures k < |s| ==> !IsDigit(s[k])
  {
    if s == [] || !IsDigit(s[0]) then 0 else 1 + DigitSpan(s[1..])
  }

  // ---------------------------------------------------------------------
  // Decimal rendering and reading back

  lemma {:induction false} NatToDecDigits(n: nat)
    ensures AllDigits(NatToDec(n)) && |NatToDec(n)| >= 1
    ensures |NatToDec(n)| > 1 ==> NatToDec(n)[0] != '0'
    decreases n
  {
    if n >= 10 {
      NatToDecDigits(n / 10);
      var s := NatToDec(n / 10);
      assert NatToDec(n) == s + [DigitChar(n % 10)];
      if |s| == 1 {
        assert s[0] == DigitChar(n / 10);
      }
    }
  }

  /** Reading the digits `%ld` writes gives back the value printed. */
  lemma {:induction false} NatToDecRoundTrip(n: nat)
    ensures AllDigits(NatToDec(n)) && DecValue(NatToDec(n)) == n
    decreases n
  {
    NatToDecDigits(n);
    if n >= 10 {
      NatToDecRoundTrip(n / 10);
      var s := NatToDec(n);
      assert s[..|s| - 1] == NatToDec(n / 10);
    }
  }

  /** `%ld` needs at most `k` digits exactly for values below 10^k. */
  lemma {:induction false} NatToDecLength(n: nat, k: nat)
    requires k >= 1
    ensures |NatToDec(n)| <= k <==> n < Pow10(k)
    decreases n
  {
    if n >= 10 {
      NatToDecDigits(n / 10);
      if k == 1 {
        assert Pow10(1) == 10;
      } else {
        NatToDecLength(n / 10, k - 1);
      }
    } else {
    }
  }

  /** `%d` reads back to the value printed. */
  lemma IntToDecRoundTrip(i: int)
    ensures ParseInt(IntToDec(i)) == Some(i)
  {
    NatToDecRoundTrip(if i < 0 then -i else i);
    if i < 0 {
      assert IntToDec(i)[1..] == NatToDec(-i);
    }
  }

  /** `%02ld` of a value below 100 is exactly two digits that read back to
      that value. */
  lemma ZeroPad2TwoDigits(n: nat)
    requires n < 100
    ensures |ZeroPad2(n)| == 2 && AllDigits(ZeroPad2(n))
    ensures ZeroPad2(n) == [DigitChar(n / 10), DigitChar(n % 10)]
    ensures DecValue(ZeroPad2(n)) == n
  {
    NatToDecRoundTrip(n);
    if n >= 10 {
      assert NatToDec(n / 10) == [DigitChar(n / 10)];
    }
  }

  /** A digit run followed by a non-digit (or by nothing) is read in full. */
  lemma {:induction false} DigitSpanOf(d: string, t: string)
    requires AllDigits(d)
    requires t == [] || !IsDigit(t[0])
    ensures DigitSpan(d + t) == |d|
    decreases |d|
  {
    if d != [] {
      assert (d + t)[1..] == d[1..] + t;
      DigitSpanOf(d[1..], t);
    } else {
      assert d + t == t;
    }
  }

  /** A buffer holding `s` then NUL shows exactly `s` as a C string, whatever
      follows the terminator. */
  lemma {:induction false} CStrOfTerminated(s: string, rest: seq<char>)
    requires NoNul(s)
    ensures CStr(s + [NUL] + rest) == s
    decreases |s|
  {
    if s != [] {
      assert (s + [NUL] + rest)[1..] == s[1..] + [NUL] + rest;
      CStrOfTerminated(s[1..], rest);
    }
  }

  lemma NatToDecNoNul(n: nat)
    ensures NoNul(NatToDec(n))
  {
  }
}
