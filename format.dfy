/** Decimal formatting of non-negative integers, as the layout pass uses it:
    `strconv.Itoa` and `%d` (the shortest decimal numeral) and `%06d`
    (the same numeral left-padded with '0' to at least six characters). */
module Format {

  /** Width that `pad` pads play orders to. */
  const PadWidth: nat := 6

  predicate IsDigit(c: char) {
    '0' <= c <= '9'
  }

  predicate IsDigits(s: string) {
    forall k :: 0 <= k < |s| ==> IsDigit(s[k])
  }

  function DigitChar(d: nat): (c: char)
    requires d < 10
    ensures IsDigit(c)
  {
    ('0' as int + d) as char
  }

  function DigitValue(c: char): (d: nat)
    requires IsDigit(c)
    ensures d < 10
  {
    c as int - '0' as int
  }

  function Pow10(w: nat): (p: nat)
    ensures p >= 1
  {
    if w == 0 then 1 else 10 * Pow10(w - 1)
  }

  /** The number a string of decimal digits denotes; leading zeros are allowed. */
  function ValueOf(s: string): nat
    requires IsDigits(s)
  {
    if s == [] then 0 else 10 * ValueOf(s[..|s| - 1]) + DigitValue(s[|s| - 1])
  }

  /** The shortest decimal numeral of `n` (`strconv.Itoa`, `fmt`'s `%d`):
      it starts with '0' only when it is the numeral of zero. */
  function Decimal(n: nat): (s: string)
    ensures |s| >= 1 && IsDigits(s)
    ensures s[0] == '0' <==> n == 0
  {
    if n < 10 then [DigitChar(n)] else Decimal(n / 10) + [DigitChar(n % 10)]
  }

  function Zeros(k: nat): (s: string)
    ensures |s| == k && IsDigits(s)
    ensures forall i :: 0 <= i < k ==> s[i] == '0'
  {
    if k == 0 then [] else ['0'] + Zeros(k - 1)
  }

  /** `fmt.Sprintf("%06d", n)` for non-negative `n`: the decimal numeral,
      left-padded with zeros to six characters and never truncated. */
  function Pad(n: nat): (r: string)
    ensures |r| == if |Decimal(n)| < PadWidth then PadWidth else |Decimal(n)|
  {
    var d := Decimal(n);
    if |d| < PadWidth then Zeros(PadWidth - |d|) + d else d
  }

  lemma DigitRoundTrip(d: nat)
    requires d < 10
    ensures DigitValue(DigitChar(d)) == d
  {
  }

  /** Reading back the numeral that `Decimal` prints gives the number. */
  lemma {:induction false} DecimalValue(n: nat)
    ensures ValueOf(Decimal(n)) == n
  {
    var s := Decimal(n);
    if n < 10 {
      DigitRoundTrip(n);
    } else {
      DecimalValue(n / 10);
      assert s[..|s| - 1] == Decimal(n / 10);
      DigitRoundTrip(n % 10);
    }
  }

  /** A numeral without a leading zero denotes a positive number. */
  lemma {:induction false} NoLeadingZeroPositive(s: string)
    requires |s| >= 1 && IsDigits(s) && s[0] != '0'
    ensures ValueOf(s) >= 1
  {
    if |s| > 1 {
      NoLeadingZeroPositive(s[..|s| - 1]);
    }
  }

  /** The other direction of the round trip: every canonical numeral (no
      leading zero unless it is "0") is what `Decimal` prints for its value. */
  lemma {:induction false} DecimalOfValue(s: string)
    requires |s| >= 1 && IsDigits(s)
    requires s[0] == '0' ==> |s| == 1
    ensures Decimal(ValueOf(s)) == s
  {
    var init, last := s[..|s| - 1], s[|s| - 1];
    if |s| == 1 {
      assert s == [last];
    } else {
      var m := ValueOf(init);
      NoLeadingZeroPositive(init);
      DecimalOfValue(init);
      AppendDigit(m, DigitValue(last));
      assert Decimal(ValueOf(s)) == Decimal(m) + [DigitChar(DigitValue(last))];
      assert s == init + [last];
    }
  }

  /** Appending digit `d` to the numeral of `m` gives `10 * m + d`. */
  lemma AppendDigit(m: nat, d: nat)
    requires d < 10
    ensures (10 * m + d) / 10 == m && (10 * m + d) % 10 == d
  {
  }

  /** `Decimal` prints distinct numbers as distinct numerals. */
  lemma DecimalInjective(m: nat, n: nat)
    ensures Decimal(m) == Decimal(n) <==> m == n
  {
    DecimalValue(m);
    DecimalValue(n);
  }

  /** A numeral of `n` fits in `w` characters exactly when `n < 10^w`. */
  lemma {:induction false} DecimalLength(n: nat, w: nat)
    requires w >= 1
    ensures |Decimal(n)| <= w <==> n < Pow10(w)
  {
    if n >= 10 {
      if w == 1 {
        assert |Decimal(n / 10)| >= 1;
      } else {
        DecimalLength(n / 10, w - 1);
        assert n / 10 < Pow10(w - 1) <==> n < 10 * Pow10(w - 1);
      }
    } else if w > 1 {
      assert Pow10(w) == 10 * Pow10(w - 1);
    }
  }

  /** Leading zeros do not change the value of a numeral. */
  lemma {:induction false} LeadingZerosValue(k: nat, s: string)
    requires IsDigits(s)
    ensures IsDigits(Zeros(k) + s) && ValueOf(Zeros(k) + s) == ValueOf(s)
  {
    var t := Zeros(k) + s;
    if s == [] {
      assert t == Zeros(k);
      if k > 0 {
        assert t[..|t| - 1] == Zeros(k - 1) + [];
        LeadingZerosValue(k - 1, []);
      }
    } else {
      assert t[..|t| - 1] == Zeros(k) + s[..|s| - 1];
      LeadingZerosValue(k, s[..|s| - 1]);
    }
  }

  /** Every padded play order is a string of digits, at least six long,
      whose value is the play order. */
  lemma PadValue(n: nat)
    ensures |Pad(n)| >= PadWidth && IsDigits(Pad(n)) && ValueOf(Pad(n)) == n
  {
    var d := Decimal(n);
    DecimalValue(n);
    if |d| < PadWidth {
      LeadingZerosValue(PadWidth - |d|, d);
    }
  }

  /** Below one million, `pad` gives exactly six digits denoting `n`. */
  lemma PadSmall(n: nat)
    requires n < 1000000
    ensures |Pad(n)| == 6 && IsDigits(Pad(n)) && ValueOf(Pad(n)) == n
  {
    DecimalLength(n, 6);
    PadValue(n);
  }

  /** From one million upwards, `pad` gives the plain, untruncated numeral. */
  lemma PadLarge(n: nat)
    requires n >= 1000000
    ensures Pad(n) == Decimal(n) && |Pad(n)| > 6
  {
    DecimalLength(n, 6);
  }

  /** Distinct play orders are padded to distinct strings. */
  lemma PadInjective(m: nat, n: nat)
    ensures Pad(m) == Pad(n) <==> m == n
  {
    PadValue(m);
    PadValue(n);
  }

  /** Values `TestPad` expects: four and five leading zeros. */
  lemma PadExamplesOneTwo()
    ensures Pad(1) == "000001" && Pad(12) == "000012"
  {
  }

  /** Values `TestPad` expects: three and two leading zeros. */
  lemma PadExamplesThreeFour()
    ensures Pad(123) == "000123" && Pad(1234) == "001234"
  {
  }

  /** Value `TestPad` expects: one leading zero. */
  lemma PadExampleFive()
    ensures Pad(12345) == "012345"
  {
    assert Decimal(12345) == "12345";
  }

  /** Value `TestPad` expects: no leading zero at full width. */
  lemma PadExampleSix()
    ensures Pad(123456) == "123456"
  {
    assert Decimal(12345) == "12345";
    assert Decimal(123456) == Decimal(12345) + "6";
  }
}
