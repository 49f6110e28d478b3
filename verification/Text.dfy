// Vocabulary shared by the archive, the command line and the console.

/** The conventional option and result types. */
module Wrappers {
  datatype Option<+T> = None | Some(value: T)

  datatype Result<+T, +E> = Ok(value: T) | Err(error: E)
}

/** Counting distinct numbers. */
module Counting {
  /** Distinct numbers below `n` are at most `n` many. */
  lemma {:induction false} DistinctBelow(s: seq<nat>, n: nat)
    requires forall k :: 0 <= k < |s| ==> s[k] < n
    requires forall j, k :: 0 <= j < k < |s| ==> s[j] != s[k]
    ensures |s| <= n
    decreases n
  {
    if k :| 0 <= k < |s| && s[k] == n - 1 {
      DistinctBelow(s[..k] + s[k + 1..], n - 1);
    } else if s != [] {
      assert s[0] < n;
      DistinctBelow(s, n - 1);
    }
  }
}

/** 32-bit words. */
module Words {
  const LIMIT := 0x1_0000_0000
  type uint32 = n: nat | n < 0x1_0000_0000

  /** Conversion to 32 bits. */
  function Wrap32(n: nat): uint32 {
    n % 0x1_0000_0000
  }
}

/** Decimal and hexadecimal numerals, as fmt's `%d` and `%0wX` print them. */
module Numerals {
  import opened Wrappers

  /** A byte is kept as the character with its code, so that ASCII text and
      binary data share one type. */
  type byte = c: char | c as int < 0x100

  predicate IsDigit(c: char) {
    '0' <= c <= '9'
  }

  function DecimalDigit(d: nat): (c: byte)
    requires d < 10
    ensures IsDigit(c)
    ensures DigitValue(c) == d
  {
    (('0' as int) + d) as char
  }

  function DigitValue(c: char): (d: nat)
    requires IsDigit(c)
    ensures d < 10
  {
    (c as int) - ('0' as int)
  }

  predicate AllDigits(s: string) {
    forall k :: 0 <= k < |s| ==> IsDigit(s[k])
  }

  /** `%d` of a non-negative number. */
  function Decimal(n: nat): (s: string)
    ensures s != "" && AllDigits(s)
    ensures s[0] == '0' ==> n == 0 && s == "0"
  {
    if n < 10 then [DecimalDigit(n)] else Decimal(n / 10) + [DecimalDigit(n % 10)]
  }

  /** The number a string of digits denotes. */
  function DecimalValue(s: string): nat
    requires AllDigits(s)
  {
    if s == "" then 0
    else DecimalValue(s[..|s| - 1]) * 10 + DigitValue(s[|s| - 1])
  }

  lemma {:induction false} DecimalRoundTrip(n: nat)
    ensures DecimalValue(Decimal(n)) == n
  {
    if n >= 10 {
      DecimalRoundTrip(n / 10);
      assert Decimal(n)[..|Decimal(n)| - 1] == Decimal(n / 10);
    } else {
      assert Decimal(n)[..0] == "";
    }
  }

  lemma {:induction false} DecimalInjective(m: nat, n: nat)
    requires Decimal(m) == Decimal(n)
    ensures m == n
  {
    DecimalRoundTrip(m);
    DecimalRoundTrip(n);
  }

  lemma {:induction false} NonzeroValue(s: string)
    requires s != "" && AllDigits(s) && s[0] != '0'
    ensures DecimalValue(s) != 0
  {
    var front := s[..|s| - 1];
    if front == "" {
      assert DecimalValue(s) == DigitValue(s[0]);
    } else {
      assert front[0] == s[0];
      NonzeroValue(front);
    }
  }

  lemma {:induction false} DigitRoundTrip(c: char)
    requires IsDigit(c)
    ensures DecimalDigit(DigitValue(c)) == c
  {
  }

  lemma {:induction false} DecimalStep(n: nat, d: nat)
    requires n != 0 && d < 10
    ensures Decimal(n * 10 + d) == Decimal(n) + [DecimalDigit(d)]
  {
    hide DecimalDigit;
    var m := n * 10 + d;
    assert m / 10 == n && m % 10 == d;
  }

  /** A numeral without a leading zero is the print of its value. */
  lemma {:induction false} CanonicalDecimal(s: string)
    requires s != "" && AllDigits(s)
    requires s[0] == '0' ==> |s| == 1
    ensures Decimal(DecimalValue(s)) == s
  {
    var front, c := s[..|s| - 1], s[|s| - 1];
    assert s == front + [c];
    assert DecimalValue("") == 0;
    assert DecimalValue(s) == DecimalValue(front) * 10 + DigitValue(c);
    DigitRoundTrip(c);
    hide DecimalValue, DigitValue, DecimalDigit;
    if front == "" {
      assert DecimalValue(s) == DigitValue(c);
    } else {
      hide Decimal;
      assert front[0] == s[0];
      CanonicalDecimal(front);
      NonzeroValue(front);
      DecimalStep(DecimalValue(front), DigitValue(c));
    }
  }

  predicate IsUpperHex(c: char) {
    '0' <= c <= '9' || 'A' <= c <= 'F'
  }

  function HexDigit(d: nat): (c: byte)
    requires d < 16
    ensures HexValue(c) == Some(d) && IsUpperHex(c)
  {
    if d < 10 then (('0' as int) + d) as char else (('A' as int) + d - 10) as char
  }

  /** Readers accept either case. */
  function HexValue(c: char): (v: Option<nat>)
    ensures v.Some? ==> v.value < 16
  {
    if '0' <= c <= '9' then Some((c as int) - ('0' as int))
    else if 'A' <= c <= 'F' then Some((c as int) - ('A' as int) + 10)
    else if 'a' <= c <= 'f' then Some((c as int) - ('a' as int) + 10)
    else None
  }

  /** `%0wX`: upper-case hexadecimal, zero-padded to at least `width` digits. */
  function HexPad(n: nat, width: nat): (s: seq<byte>)
    ensures |s| >= width
    ensures forall k :: 0 <= k < |s| ==> HexValue(s[k]).Some? && IsUpperHex(s[k])
    decreases n, width
  {
    if n == 0 && width == 0 then []
    else HexPad(n / 16, if width == 0 then 0 else width - 1) + [HexDigit(n % 16)]
  }

  function ParseHex(s: seq<char>): Option<nat> {
    if s == [] then Some(0)
    else
      match (ParseHex(s[..|s| - 1]), HexValue(s[|s| - 1]))
      case (Some(hi), Some(lo)) => Some(hi * 16 + lo)
      case _ => None
  }

  lemma {:induction false} ParseHexAppend(s: seq<char>, c: char)
    requires ParseHex(s).Some? && HexValue(c).Some?
    ensures ParseHex(s + [c]) == Some(ParseHex(s).value * 16 + HexValue(c).value)
  {
    hide HexValue;
    assert (s + [c])[..|s|] == s;
  }

  function Pow16(w: nat): (p: nat)
    ensures p >= 1
  {
    if w == 0 then 1 else 16 * Pow16(w - 1)
  }

  lemma {:induction false} HexRoundTrip(n: nat, width: nat)
    ensures ParseHex(HexPad(n, width)) == Some(n)
    decreases n, width
  {
    hide HexDigit, HexValue;
    if n != 0 || width != 0 {
      var w := if width == 0 then 0 else width - 1;
      HexRoundTrip(n / 16, w);
      ParseHexAppend(HexPad(n / 16, w), HexDigit(n % 16));
    }
  }

  /** The width is exact precisely for the numbers that fit it. */
  lemma {:induction false} HexWidth(n: nat, width: nat)
    ensures |HexPad(n, width)| == width <==> n < Pow16(width)
    decreases width
  {
    if width > 0 {
      HexWidth(n / 16, width - 1);
    }
  }

  /** A parsed value is bounded by the number of digits read. */
  lemma {:induction false} ParseHexBound(s: seq<char>)
    requires ParseHex(s).Some?
    ensures ParseHex(s).value < Pow16(|s|)
  {
    if s != [] {
      ParseHexBound(s[..|s| - 1]);
    }
  }
}
