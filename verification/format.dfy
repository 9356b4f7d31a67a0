/** The text each checksum field is built from: Rust's fixed-point `{:.k}`
    formatting of a scaled integer, with the decimal point removed
    (`replace(".", "")`) and leading zeros stripped
    (`trim_start_matches('0')`). */
module Format {

  function Pow10(k: nat): (r: nat)
    ensures r >= 1
  {
    if k == 0 then 1 else 10 * Pow10(k - 1)
  }

  function DigitChar(d: nat): (c: char)
    requires d < 10
    ensures '0' <= c <= '9'
    ensures c == '0' <==> d == 0
  {
    ('0' as int + d) as char
  }

  predicate IsDigits(s: string) {
    forall i :: 0 <= i < |s| ==> '0' <= s[i] <= '9'
  }

  lemma IsDigitsAppend(a: string, b: string)
    requires IsDigits(a) && IsDigits(b)
    ensures IsDigits(a + b)
  {
    forall i | 0 <= i < |a + b|
      ensures '0' <= (a + b)[i] <= '9'
    {
      if i >= |a| {
        assert (a + b)[i] == b[i - |a|];
      }
    }
  }

  /** Decimal digits of `n` without leading zeros; empty for zero. */
  function Digits(n: nat): (r: string)
    ensures IsDigits(r)
  {
    if n == 0 then "" else Digits(n / 10) + [DigitChar(n % 10)]
  }

  /** Rust's `{}` of an unsigned integer: `Digits`, or "0" for zero. */
  function Decimal(n: nat): string {
    if n == 0 then "0" else Digits(n)
  }

  function Zeros(k: nat): (r: string)
    ensures |r| == k
    ensures forall i :: 0 <= i < k ==> r[i] == '0'
  {
    seq(k, _ => '0')
  }

  /** The last `k` decimal digits of `n`, zero-padded to exactly `k`. */
  function FixedDigits(n: nat, k: nat): (r: string)
    ensures |r| == k
  {
    if k == 0 then "" else FixedDigits(n / 10, k - 1) + [DigitChar(n % 10)]
  }

  lemma {:induction false} FixedDigitsAreDigits(n: nat, k: nat)
    ensures IsDigits(FixedDigits(n, k))
  {
    if k > 0 {
      FixedDigitsAreDigits(n / 10, k - 1);
    }
  }

  /** Below 10^k, the digits of `r` padded with zeros to width `k` are its
      `k`-digit form. */
  lemma {:induction false} PaddedDigits(r: nat, k: nat)
    requires r < Pow10(k)
    ensures |Digits(r)| <= k
    ensures Zeros(k - |Digits(r)|) + Digits(r) == FixedDigits(r, k)
  {
    if k > 0 {
      PaddedDigits(r / 10, k - 1);
      if r == 0 {
        assert Zeros(k - 1) + "0" == Zeros(k);
      } else {
        assert Zeros(k - |Digits(r)|) == Zeros(k - 1 - |Digits(r / 10)|);
      }
    }
  }

  /** The same for Rust's rendering, which writes zero as "0". */
  lemma PaddedDecimal(r: nat, k: nat)
    requires k >= 1 && r < Pow10(k)
    ensures |Decimal(r)| <= k
    ensures Zeros(k - |Decimal(r)|) + Decimal(r) == FixedDigits(r, k)
  {
    PaddedDigits(r, k);
    if r == 0 {
      assert Zeros(k - 1) + "0" == Zeros(k);
    }
  }

  /** `Digits` of a positive number starts with a non-zero digit. */
  lemma {:induction false} DigitsLeadNonZero(n: nat)
    requires n > 0
    ensures |Digits(n)| > 0 && Digits(n)[0] != '0'
  {
    if n / 10 > 0 {
      DigitsLeadNonZero(n / 10);
    }
  }

  /** `replace(".", "")`. */
  function RemoveDots(s: string): string {
    if |s| == 0 then ""
    else (if s[0] == '.' then "" else [s[0]]) + RemoveDots(s[1..])
  }

  /** A string without a point is left as it is. */
  lemma {:induction false} RemoveDotsKeepsDigits(s: string)
    requires IsDigits(s)
    ensures RemoveDots(s) == s
  {
    if |s| > 0 {
      assert s[0] != '.';
      assert IsDigits(s[1..]) by {
        forall i | 0 <= i < |s[1..]|
          ensures '0' <= s[1..][i] <= '9'
        {
          assert s[1..][i] == s[i + 1];
        }
      }
      RemoveDotsKeepsDigits(s[1..]);
      assert [s[0]] + s[1..] == s;
    }
  }

  lemma {:induction false} RemoveDotsAppend(a: string, b: string)
    ensures RemoveDots(a + b) == RemoveDots(a) + RemoveDots(b)
  {
    if |a| > 0 {
      assert (a + b)[1..] == a[1..] + b;
      RemoveDotsAppend(a[1..], b);
    } else {
      assert a + b == b;
    }
  }

  /** `trim_start_matches('0')`. */
  function TrimLeadingZeros(s: string): (r: string)
    ensures |s| > 0 && s[0] != '0' ==> r == s
  {
    if |s| > 0 && s[0] == '0' then TrimLeadingZeros(s[1..]) else s
  }

  lemma {:induction false} TrimZerosPrefix(k: nat, s: string)
    ensures TrimLeadingZeros(Zeros(k) + s) == TrimLeadingZeros(s)
  {
    if k > 0 {
      assert (Zeros(k) + s)[1..] == Zeros(k - 1) + s;
      TrimZerosPrefix(k - 1, s);
    } else {
      assert Zeros(k) + s == s;
    }
  }

  /** Trimming the `k`-digit form of `r` gives back its digits. */
  lemma TrimFixedDigits(r: nat, k: nat)
    requires r < Pow10(k)
    ensures TrimLeadingZeros(FixedDigits(r, k)) == Digits(r)
  {
    PaddedDigits(r, k);
    TrimZerosPrefix(k - |Digits(r)|, Digits(r));
    if r > 0 {
      DigitsLeadNonZero(r);
    }
  }

  /** Integer part and fraction of `n * 10^-k`: `n` div and mod `10^k`. */
  function Whole(n: nat, k: nat): nat {
    if k == 0 then n else Whole(n / 10, k - 1)
  }

  function Frac(n: nat, k: nat): nat {
    if k == 0 then 0 else 10 * Frac(n / 10, k - 1) + n % 10
  }

  lemma {:induction false} SplitFixed(n: nat, k: nat)
    ensures Frac(n, k) < Pow10(k)
    ensures Whole(n, k) <= n
    ensures Whole(n, k) == 0 ==> n == Frac(n, k)
  {
    if k > 0 {
      SplitFixed(n / 10, k - 1);
    }
  }

  /** Writing the integer part followed by the `k`-digit fraction spells `n`
      when the integer part is not zero. */
  lemma {:induction false} DigitsOfSplit(n: nat, k: nat)
    requires Whole(n, k) > 0
    ensures Digits(n) == Digits(Whole(n, k)) + FixedDigits(Frac(n, k), k)
  {
    SplitFixed(n, k);
    if k > 0 {
      DigitsOfSplit(n / 10, k - 1);
      var f := Frac(n, k);
      assert f / 10 == Frac(n / 10, k - 1) && f % 10 == n % 10;
    }
  }

  /** Rust's `{:.k}` of the value `n * 10^-k`: the integer part, a point,
      and exactly `k` fraction digits. */
  function FormatFixed(n: nat, k: nat): (r: string)
    requires k >= 1
    ensures r == Decimal(Whole(n, k)) + "." + FixedDigits(Frac(n, k), k)
    ensures |r| > k + 1 && r[|r| - k - 1] == '.'
    ensures IsDigits(r[..|r| - k - 1]) && IsDigits(r[|r| - k..])
    ensures DigitsValue(r[..|r| - k - 1]) * Pow10(k) + DigitsValue(r[|r| - k..]) == n
  {
    SplitFixed(n, k);
    var frac := Decimal(Frac(n, k));
    PaddedDecimal(Frac(n, k), k);
    FixedPointValue(n, k);
    var w := Decimal(Whole(n, k));
    var f := Zeros(k - |frac|) + frac;
    assert f == FixedDigits(Frac(n, k), k);
    var r := w + "." + f;
    assert r[..|r| - k - 1] == w && r[|r| - k..] == f;
    r
  }

  /** The integer part and the `k`-digit fraction read back as `n`. */
  lemma FixedPointValue(n: nat, k: nat)
    ensures IsDigits(Decimal(Whole(n, k))) && IsDigits(FixedDigits(Frac(n, k), k))
    ensures |Decimal(Whole(n, k))| > 0
    ensures DigitsValue(Decimal(Whole(n, k))) * Pow10(k) + DigitsValue(FixedDigits(Frac(n, k), k)) == n
  {
    var q := Whole(n, k);
    DecimalValue(q);
    FixedDigitsAreDigits(Frac(n, k), k);
    FixedDigitsValue(n, k);
    FracDigits(n, k);
    WholeFrac(n, k);
  }

  /** Only the last `k` digits of `n` matter to its `k`-digit form. */
  lemma {:induction false} FracDigits(n: nat, k: nat)
    ensures FixedDigits(Frac(n, k), k) == FixedDigits(n, k)
  {
    if k > 0 {
      FracDigits(n / 10, k - 1);
      var f := Frac(n, k);
      assert f / 10 == Frac(n / 10, k - 1) && f % 10 == n % 10;
    }
  }

  lemma DecimalValue(q: nat)
    ensures IsDigits(Decimal(q)) && |Decimal(q)| > 0 && DigitsValue(Decimal(q)) == q
  {
    if q == 0 {
      assert Decimal(q)[..0] == "";
    } else {
      DigitsRoundTrip(q);
      DigitsLeadNonZero(q);
    }
  }

  /** The `k`-digit form of `n` reads back as the fraction `n mod 10^k`. */
  lemma {:induction false} FixedDigitsValue(n: nat, k: nat)
    ensures IsDigits(FixedDigits(n, k)) && DigitsValue(FixedDigits(n, k)) == Frac(n, k)
  {
    FixedDigitsAreDigits(n, k);
    if k > 0 {
      FixedDigitsValue(n / 10, k - 1);
      var s := FixedDigits(n, k);
      assert s[..|s| - 1] == FixedDigits(n / 10, k - 1);
    }
  }

  /** `n` is its integer part times `10^k` plus its fraction. */
  lemma {:induction false} WholeFrac(n: nat, k: nat)
    ensures n == Whole(n, k) * Pow10(k) + Frac(n, k)
  {
    if k > 0 {
      WholeFrac(n / 10, k - 1);
      var w := Whole(n / 10, k - 1);
      assert n / 10 == w * Pow10(k - 1) + Frac(n / 10, k - 1);
      assert Pow10(k) == 10 * Pow10(k - 1);
      calc {
        Whole(n, k) * Pow10(k) + Frac(n, k);
        w * (10 * Pow10(k - 1)) + 10 * Frac(n / 10, k - 1) + n % 10;
        { assert w * (10 * Pow10(k - 1)) == 10 * (w * Pow10(k - 1)); }
        10 * (w * Pow10(k - 1) + Frac(n / 10, k - 1)) + n % 10;
        10 * (n / 10) + n % 10;
      }
    }
  }

  /** One checksum field (order_book.rs:152-159). */
  function CanonicalField(n: nat, k: nat): (r: string)
    requires k >= 1
    ensures r == Digits(n)
    ensures IsDigits(r) && DigitsValue(r) == n
    ensures r == "" <==> n == 0
  {
    FieldIsDigits(n, k);
    DigitsRoundTrip(n);
    TrimLeadingZeros(RemoveDots(FormatFixed(n, k)))
  }

  /** Without its point, the fixed-point text is the integer part followed
      by the `k`-digit fraction. */
  lemma FormatFixedWithoutDot(n: nat, k: nat)
    requires k >= 1
    ensures RemoveDots(FormatFixed(n, k)) == Decimal(Whole(n, k)) + FixedDigits(Frac(n, k), k)
  {
    var q := Whole(n, k);
    var r := Frac(n, k);
    var a := Decimal(q);
    var b := FixedDigits(r, k);
    assert FormatFixed(n, k) == (a + ".") + b;
    RemoveDotsAppend(a + ".", b);
    RemoveDotsAppend(a, ".");
    assert IsDigits(a);
    FixedDigitsAreDigits(r, k);
    RemoveDotsKeepsDigits(a);
    RemoveDotsKeepsDigits(b);
    assert RemoveDots(".") == "";
    assert RemoveDots(a + ".") == a;
    assert RemoveDots((a + ".") + b) == a + b;
  }

  /** Below 1, the text is "0" and the fraction, and trimming leaves the
      fraction's digits. */
  lemma TrimFraction(r: nat, k: nat)
    requires r < Pow10(k)
    ensures TrimLeadingZeros(Decimal(0) + FixedDigits(r, k)) == Digits(r)
  {
    assert Decimal(0) == Zeros(1);
    TrimZerosPrefix(1, FixedDigits(r, k));
    TrimFixedDigits(r, k);
  }

  /** Removing the point and the leading zeros from the fixed-point text of
      `n * 10^-k` leaves exactly the digits of the scaled integer `n`; in
      particular zero gives the empty string. */
  lemma FieldIsDigits(n: nat, k: nat)
    requires k >= 1
    ensures TrimLeadingZeros(RemoveDots(FormatFixed(n, k))) == Digits(n)
  {
    var q := Whole(n, k);
    var r := Frac(n, k);
    SplitFixed(n, k);
    FormatFixedWithoutDot(n, k);
    if q == 0 {
      TrimFraction(r, k);
    } else {
      DigitsLeadNonZero(q);
      DigitsOfSplit(n, k);
      assert (Digits(q) + FixedDigits(r, k))[0] == Digits(q)[0];
    }
  }

  /** Reads a digit string back as a number. */
  function DigitsValue(s: string): nat
    requires IsDigits(s)
  {
    if |s| == 0 then 0 else 10 * DigitsValue(s[..|s| - 1]) + (s[|s| - 1] as int - '0' as int)
  }

  /** `Digits` loses nothing: reading it back gives the number. */
  lemma {:induction false} DigitsRoundTrip(n: nat)
    ensures IsDigits(Digits(n)) && DigitsValue(Digits(n)) == n
  {
    if n > 0 {
      DigitsRoundTrip(n / 10);
      var s := Digits(n);
      assert s[..|s| - 1] == Digits(n / 10);
    }
  }
}
