/** Decimal text as JavaScript prints and reads it: `String(n)`, `Number(s)` on digits, and `padStart`. */
module Decimal {

  predicate IsDigit(c: char) {
    '0' <= c <= '9'
  }

  predicate AllDigits(s: string) {
    forall i :: 0 <= i < |s| ==> IsDigit(s[i])
  }

  function DigitChar(d: int): char
    requires 0 <= d < 10
  {
    (('0' as int) + d) as char
  }

  function DigitValue(c: char): int
    requires IsDigit(c)
  {
    (c as int) - ('0' as int)
  }

  /** `String(n)` for a natural number: no leading zeros, no sign. */
  function Print(n: nat): string {
    if n < 10 then [DigitChar(n)] else Print(n / 10) + [DigitChar(n % 10)]
  }

  /** `Number(s)` for a string of digits; the empty string reads as 0. */
  function Parse(s: string): nat
    requires AllDigits(s)
  {
    if s == [] then 0 else 10 * Parse(s[..|s| - 1]) + DigitValue(s[|s| - 1])
  }

  /** `s.padStart(width, '0')`. */
  function PadZeros(s: string, width: nat): string
    decreases width - |s|
  {
    if |s| >= width then s else PadZeros("0" + s, width)
  }

  lemma {:induction false} ParsePrint(n: nat)
    ensures AllDigits(Print(n))
    ensures Parse(Print(n)) == n
  {
    if n >= 10 {
      ParsePrint(n / 10);
      assert Print(n)[..|Print(n)| - 1] == Print(n / 10);
    }
  }

  /** Printing is the inverse of reading on digit strings without a leading zero. */
  lemma {:induction false} PrintParse(s: string)
    requires s != [] && AllDigits(s)
    requires |s| > 1 ==> s[0] != '0'
    ensures Print(Parse(s)) == s
    ensures |s| > 1 ==> Parse(s) >= 10
  {
    var front, last := s[..|s| - 1], s[|s| - 1];
    assert s == front + [last];
    if |s| > 1 {
      assert front[0] == s[0];
      if |front| == 1 {
        assert front[..0] == [];
      }
      PrintParse(front);
      assert Parse(front) >= 1;
    } else {
      assert front == [];
    }
  }

  lemma {:induction false} ParseLeadingZero(s: string)
    requires AllDigits(s)
    ensures AllDigits("0" + s)
    ensures Parse("0" + s) == Parse(s)
  {
    var z := "0" + s;
    if s == [] {
      assert z[..0] == [];
    } else {
      ParseLeadingZero(s[..|s| - 1]);
      assert z[..|z| - 1] == "0" + s[..|s| - 1];
    }
  }

  /** Zero padding changes neither the value read back nor, beyond the width, the text. */
  lemma {:induction false} ParsePadZeros(s: string, width: nat)
    requires AllDigits(s)
    ensures AllDigits(PadZeros(s, width))
    ensures Parse(PadZeros(s, width)) == Parse(s)
    ensures |PadZeros(s, width)| == if |s| < width then width else |s|
    decreases width - |s|
  {
    if |s| < width {
      ParseLeadingZero(s);
      ParsePadZeros("0" + s, width);
    }
  }

  lemma TwoDigits(s: string)
    requires |s| == 2 && AllDigits(s)
    ensures Parse(s) == 10 * DigitValue(s[0]) + DigitValue(s[1])
    ensures PadZeros(Print(Parse(s)), 2) == s
  {
    assert s[..1][..0] == [];
    assert Parse(s[..1]) == DigitValue(s[0]);
    if s[0] == '0' {
      assert Print(Parse(s)) == [s[1]];
      assert PadZeros([s[1]], 2) == PadZeros("0" + [s[1]], 2);
      assert "0" + [s[1]] == s;
    } else {
      PrintParse(s);
    }
  }

  lemma PrintOneOrTwo(n: nat)
    requires n < 100
    ensures AllDigits(PadZeros(Print(n), 2)) && |PadZeros(Print(n), 2)| == 2
    ensures Parse(PadZeros(Print(n), 2)) == n
  {
    ParsePrint(n);
    ParsePadZeros(Print(n), 2);
  }

  lemma PrintLengthThree(n: nat)
    ensures |Print(n)| <= 3 <==> n < 1000
  {
    if n >= 10 {
      assert |Print(n)| == 1 + |Print(n / 10)|;
      if n >= 100 {
        assert |Print(n / 10)| == 1 + |Print(n / 10 / 10)|;
        if n >= 1000 {
          assert |Print(n / 10 / 10)| == 1 + |Print(n / 10 / 10 / 10)|;
        }
      }
    }
  }

  /** Four printed digits are exactly the numbers from 1000 to 9999. */
  lemma PrintLengthFour(n: nat)
    ensures |Print(n)| == 4 <==> 1000 <= n <= 9999
  {
    if n >= 10 {
      assert |Print(n)| == 1 + |Print(n / 10)|;
      if n >= 100 {
        assert |Print(n / 10)| == 1 + |Print(n / 10 / 10)|;
        if n >= 1000 {
          assert |Print(n / 10 / 10)| == 1 + |Print(n / 10 / 10 / 10)|;
          assert (n / 10 / 10 / 10 < 10) <==> n <= 9999;
          if n > 9999 {
            assert |Print(n / 10 / 10 / 10)| == 1 + |Print(n / 10 / 10 / 10 / 10)|;
            assert |Print(n / 10 / 10 / 10 / 10)| >= 1;
          }
        }
      }
    }
  }
}
