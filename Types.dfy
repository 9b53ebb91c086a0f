/**
 * The records exchanged between the form, the donation store and the
 * spreadsheet endpoint (types.ts), and the decimal text of an amount.
 *
 * Amounts are JavaScript numbers in the application; here they are exact
 * integers counting satang (hundredths of a baht), so a value of 100.5 baht is
 * 10050. `AmountText` is the text JavaScript prints for such a value.
 */
module Types {
  import opened Wrappers
  import Text

  /** A donation as stored by the endpoint (types.ts `Donation`). */
  datatype Donation = Donation(
    id: string,
    fullName: string,
    amount: int,
    donationDate: string,       // YYYY-MM-DD
    wantsTaxDeduction: bool,
    nationalId: Option<string>, // optional property
    slipUrl: string)

  /** The encoded slip image sent with a new donation (`SlipUploadPayload`). */
  datatype SlipUpload = SlipUpload(base64: string, mimeType: string, name: string)

  /** A submission: a donation without id and slip URL, plus the slip itself (`NewDonationPayload`). */
  datatype NewDonation = NewDonation(
    fullName: string,
    amount: int,
    donationDate: string,
    wantsTaxDeduction: bool,
    nationalId: Option<string>,
    slip: SlipUpload)

  /** What the slip reader produced: it failed (it throws), or it returned the
      `SlipData` fields, each possibly null. */
  datatype SlipReading = ReadFailed | SlipData(amount: Option<int>, date: Option<string>)

  // ---------------------------------------------------------------------------
  // Decimal text of numbers

  predicate IsDigit(c: char) { '0' <= c <= '9' }

  predicate AllDigits(s: string) {
    forall i :: 0 <= i < |s| ==> IsDigit(s[i])
  }

  function DigitChar(d: nat): (c: char)
    requires d < 10
    ensures IsDigit(c) && c as int - '0' as int == d
  {
    ('0' as int + d) as char
  }

  function DigitValue(c: char): (d: nat)
    requires IsDigit(c)
    ensures d < 10 && DigitChar(d) == c
  {
    (c - '0') as nat
  }

  /** The decimal numeral of `n`, without leading zeros. */
  function NatText(n: nat): (s: string)
    ensures |s| >= 1 && AllDigits(s)
  {
    if n < 10 then [DigitChar(n)] else NatText(n / 10) + [DigitChar(n % 10)]
  }

  /** The number an all-digit string denotes. */
  function DigitsValue(s: string): nat
    requires AllDigits(s)
  {
    if |s| == 0 then 0 else DigitsValue(s[..|s| - 1]) * 10 + DigitValue(s[|s| - 1])
  }

  lemma {:induction false} DigitsValueOfNatText(n: nat)
    ensures DigitsValue(NatText(n)) == n
  {
    if n >= 10 {
      var s := NatText(n);
      assert s[..|s| - 1] == NatText(n / 10);
      DigitsValueOfNatText(n / 10);
    }
  }

  /** The fractional part of an amount: nothing for whole baht, otherwise a
      point and one or two digits, with no trailing zero. */
  function CentsText(c: nat): string
    requires c < 100
  {
    if c == 0 then ""
    else if c % 10 == 0 then "." + [DigitChar(c / 10)]
    else "." + [DigitChar(c / 10), DigitChar(c % 10)]
  }

  function Abs(a: int): nat { if a < 0 then -a else a }

  /** `String(amount)` for an amount of `a` satang: an optional minus sign, the
      whole baht, and the satang as a fraction without trailing zeros. */
  function AmountText(a: int): (s: string)
    ensures |s| >= 1
    ensures forall i :: 0 <= i < |s| ==> IsDigit(s[i]) || s[i] == '-' || s[i] == '.'
    ensures (s[0] == '-') == (a < 0)
  {
    (if a < 0 then "-" else "") + NatText(Abs(a) / 100) + CentsText(Abs(a) % 100)
  }

  /** The position of the first `.` in `s`, or `|s|` when there is none. */
  function PointIndex(s: string): (k: nat)
    ensures k <= |s| && '.' !in s[..k] && (k < |s| ==> s[k] == '.')
  {
    if |s| == 0 || s[0] == '.' then 0 else PointIndex(s[1..]) + 1
  }

  /** The satang denoted by the one or two digits after the point. */
  function FractionValue(f: string): nat
    requires 1 <= |f| <= 2 && AllDigits(f)
  {
    if |f| == 1 then DigitValue(f[0]) * 10 else DigitValue(f[0]) * 10 + DigitValue(f[1])
  }

  /** Reads the digits before the point and, when there was a point, the one
      or two digits after it, as satang. */
  function ReadParts(whole: string, fraction: Option<string>): Option<int> {
    if |whole| == 0 || !AllDigits(whole) then None
    else match fraction
      case None => Some(DigitsValue(whole) * 100)
      case Some(f) =>
        if 1 <= |f| <= 2 && AllDigits(f) then Some(DigitsValue(whole) * 100 + FractionValue(f)) else None
  }

  /** Reads an unsigned amount `digits` or `digits.d` or `digits.dd` as satang. */
  function ReadUnsigned(s: string): Option<int> {
    var k := PointIndex(s);
    ReadParts(s[..k], if k == |s| then None else Some(s[k + 1..]))
  }

  /** Reads back the amount text of a donation: an optional minus sign and an unsigned amount. */
  function ReadAmount(s: string): Option<int> {
    if |s| > 0 && s[0] == '-' then
      match ReadUnsigned(s[1..])
      case Some(v) => Some(-v)
      case None => None
    else
      match ReadUnsigned(s)
      case Some(v) => Some(v)
      case None => None
  }

  lemma PointIndexAfter(whole: string, t: string)
    requires '.' !in whole
    ensures PointIndex(whole + t) == |whole| + PointIndex(t)
  {
    if |whole| > 0 {
      assert (whole + t)[1..] == whole[1..] + t;
      PointIndexAfter(whole[1..], t);
    } else {
      assert whole + t == t;
    }
  }

  lemma SlicesAroundPoint(whole: string, t: string)
    requires |t| >= 1
    ensures (whole + t)[..|whole|] == whole && (whole + t)[|whole| + 1..] == t[1..]
  {
  }

  lemma ReadSplitAmount(s: string, whole: string, f: string)
    requires |whole| >= 1 && AllDigits(whole)
    requires 1 <= |f| <= 2 && AllDigits(f)
    requires |s| > |whole| && PointIndex(s) == |whole| && s[..|whole|] == whole && s[|whole| + 1..] == f
    ensures ReadUnsigned(s) == Some(DigitsValue(whole) * 100 + FractionValue(f))
  {
    assert ReadUnsigned(s) == ReadParts(whole, Some(f));
  }

  /** Reading whole baht followed by a point and one or two digits. */
  lemma ReadWithFraction(s: string, whole: string, t: string)
    requires |whole| >= 1 && AllDigits(whole)
    requires 2 <= |t| <= 3 && t[0] == '.' && AllDigits(t[1..])
    requires s == whole + t
    ensures ReadUnsigned(s) == Some(DigitsValue(whole) * 100 + FractionValue(t[1..]))
  {
    assert PointIndex(s) == |whole| by {
      assert '.' !in whole;
      PointIndexAfter(whole, t);
    }
    assert s[..|whole|] == whole && s[|whole| + 1..] == t[1..] by {
      SlicesAroundPoint(whole, t);
    }
    ReadSplitAmount(s, whole, t[1..]);
  }

  /** Reading whole baht alone. */
  lemma ReadWhole(whole: string)
    requires |whole| >= 1 && AllDigits(whole)
    ensures ReadUnsigned(whole) == Some(DigitsValue(whole) * 100)
  {
    assert '.' !in whole;
    PointIndexAfter(whole, "");
    assert whole + "" == whole;
  }

  /** The fractional text of a non-zero number of satang: a point and one or two digits denoting it. */
  lemma CentsFraction(c: nat)
    requires 0 < c < 100
    ensures 2 <= |CentsText(c)| <= 3 && CentsText(c)[0] == '.'
    ensures AllDigits(CentsText(c)[1..]) && FractionValue(CentsText(c)[1..]) == c
  {
    var d, e := c / 10, c % 10;
    var t := CentsText(c);
    if e == 0 {
      assert t[1..] == [DigitChar(d)];
    } else {
      assert t[1..] == [DigitChar(d), DigitChar(e)];
    }
  }

  lemma ReadUnsignedOfFraction(s: string, whole: string, t: string, c: nat)
    requires |whole| >= 1 && AllDigits(whole) && 0 < c < 100
    requires t == CentsText(c) && s == whole + t
    ensures ReadUnsigned(s) == Some(DigitsValue(whole) * 100 + c)
  {
    CentsFraction(c);
    ReadWithFraction(s, whole, t);
  }

  lemma ReadUnsignedOfCents(s: string, whole: string, c: nat)
    requires |whole| >= 1 && AllDigits(whole) && c < 100
    requires s == whole + CentsText(c)
    ensures ReadUnsigned(s) == Some(DigitsValue(whole) * 100 + c)
  {
    if c == 0 {
      assert s == whole;
      ReadWhole(whole);
    } else {
      ReadUnsignedOfFraction(s, whole, CentsText(c), c);
    }
  }

  lemma ReadUnsignedOfText(s: string, n: nat)
    requires s == NatText(n / 100) + CentsText(n % 100)
    ensures ReadUnsigned(s) == Some(n)
  {
    DigitsValueOfNatText(n / 100);
    ReadUnsignedOfCents(s, NatText(n / 100), n % 100);
  }

  /** Reading `-u` negates what reading `u` gives. */
  lemma ReadNegative(s: string, u: string, v: int)
    requires s == "-" + u && ReadUnsigned(u) == Some(v)
    ensures ReadAmount(s) == Some(-v)
  {
    assert s[1..] == u;
  }

  /** The text of a negative amount reads back as that amount. */
  lemma ReadNegativeAmount(a: int)
    requires a < 0
    ensures ReadAmount(AmountText(a)) == Some(a)
  {
    var u := NatText(Abs(a) / 100) + CentsText(Abs(a) % 100);
    ReadUnsignedOfText(u, Abs(a));
    assert AmountText(a) == "-" + u;
    ReadNegative(AmountText(a), u, Abs(a));
  }

  /** The text of an amount of zero or more reads back as that amount. */
  lemma ReadNonNegativeAmount(a: int)
    requires a >= 0
    ensures ReadAmount(AmountText(a)) == Some(a)
  {
    var u := NatText(a / 100) + CentsText(a % 100);
    ReadUnsignedOfText(u, a);
    assert Abs(a) == a && AmountText(a) == "" + u;
    assert "" + u == u;
  }

  /** Round trip: reading the text of an amount gives back the amount. */
  lemma ReadAmountText(a: int)
    ensures ReadAmount(AmountText(a)) == Some(a)
  {
    if a < 0 {
      ReadNegativeAmount(a);
    } else {
      ReadNonNegativeAmount(a);
    }
  }
}
