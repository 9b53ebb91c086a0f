/**
 * The donation form (components/DonationForm.tsx): the checks a submission must
 * pass, the file name given to the uploaded slip, the submission it sends, and
 * the form's state as the slip reader and the submit handler change it.
 *
 * What the browser and the services supply is passed in: the file the user
 * picked, the preview URL, what the slip reader returned, the data URL of the
 * file, the value `parseFloat` gives for the amount text (in satang), the clock
 * reading and today's date, and the error (if any) the submission was rejected
 * with.
 */
module DonationForm {
  import opened Wrappers
  import opened Types
  import Text

  const NotCertifiedMessage: string := "กรุณายืนยันความถูกต้องของข้อมูล"
  const NoSlipMessage: string := "กรุณาอัปโหลดสลิปการโอนเงิน"
  const BadAmountMessage: string := "กรุณากรอกจำนวนเงินให้ถูกต้อง"
  const BadTaxIdMessage: string := "กรุณากรอกเลขบัตรประชาชน 13 หลักให้ถูกต้อง"
  const AmountUnreadMessage: string := "ไม่สามารถอ่านจำนวนเงินจากสลิปได้ กรุณากรอกด้วยตนเอง"
  const SlipUnreadMessage: string := "ไม่สามารถอ่านข้อมูลจากสลิปได้ กรุณากรอกข้อมูลด้วยตนเอง"
  const UnknownErrorMessage: string := "An unknown error occurred."
  const TaxDeductedLabel: string := "ลดหย่อนภาษี"
  const NotDeductedLabel: string := "ไม่ลดหย่อน"
  const DefaultExtension: string := "jpg"

  // ---------------------------------------------------------------------------
  // The submit checks

  /** The four checks of a submission, in the order they are made. */
  datatype FormError = NotCertified | NoSlip | BadAmount | BadTaxId

  function Message(e: FormError): string {
    match e
    case NotCertified => NotCertifiedMessage
    case NoSlip => NoSlipMessage
    case BadAmount => BadAmountMessage
    case BadTaxId => BadTaxIdMessage
  }

  /** The first check a submission fails, if any: the certification box, the
      slip, the amount (empty text, or a value of zero or less) and, when a tax
      deduction is asked for, a national ID of exactly 13 characters. */
  function Validate(isCertified: bool, hasSlip: bool, amount: string, parsedAmount: int,
                    wantsTaxDeduction: bool, taxNationalId: string): (r: Option<FormError>)
    ensures r == Some(NotCertified) <==> !isCertified
    ensures r == Some(NoSlip) <==> isCertified && !hasSlip
    ensures r == Some(BadAmount) <==> isCertified && hasSlip && (amount == "" || parsedAmount <= 0)
    ensures r == Some(BadTaxId) <==>
      isCertified && hasSlip && amount != "" && parsedAmount > 0 && wantsTaxDeduction && |taxNationalId| != 13
    ensures r.None? <==>
      isCertified && hasSlip && amount != "" && parsedAmount > 0 && (wantsTaxDeduction ==> |taxNationalId| == 13)
  {
    if !isCertified then Some(NotCertified)
    else if !hasSlip then Some(NoSlip)
    else if amount == "" || parsedAmount <= 0 then Some(BadAmount)
    else if wantsTaxDeduction && |taxNationalId| != 13 then Some(BadTaxId)
    else None
  }

  /** Each failed check shows its own message. */
  lemma MessagesDistinct(e1: FormError, e2: FormError)
    requires e1 != e2
    ensures Message(e1) != Message(e2)
  {
    assert |NotCertifiedMessage| == 31 && |NoSlipMessage| == 26;
    assert |BadAmountMessage| == 28 && |BadTaxIdMessage| == 41;
  }

  // ---------------------------------------------------------------------------
  // The slip's file name

  /** Replaces every run of whitespace with a single `-`. */
  function DashRuns(s: string): (r: string)
    ensures Text.NoWhitespace(r)
    decreases |s|
  {
    if |s| == 0 then ""
    else if Text.IsWhitespace(s[0]) then "-" + DashRuns(Text.TrimStart(s[1..]))
    else [s[0]] + DashRuns(s[1..])
  }

  /** A leading word goes through unchanged. */
  lemma {:induction false} DashRunsWord(w: string, x: string)
    requires Text.NoWhitespace(w)
    ensures DashRuns(w + x) == w + DashRuns(x)
    decreases |w|
  {
    if |w| == 0 {
      assert w + x == x;
    } else {
      assert (w + x)[1..] == w[1..] + x;
      DashRunsWord(w[1..], x);
      assert w + DashRuns(x) == [w[0]] + (w[1..] + DashRuns(x));
    }
  }

  /** On a text with no whitespace at either end, the words come out with one
      `-` between consecutive words. */
  lemma {:induction false} DashRunsTrimmed(t: string)
    requires |t| > 0 ==> !Text.IsWhitespace(t[0]) && !Text.IsWhitespace(t[|t| - 1])
    ensures DashRuns(t) == Text.Join(Text.Words(t), '-')
    decreases |t|
  {
    if |t| > 0 {
      assert Text.TrimStart(t) == t;
      var k := Text.WordLength(t);
      var w, rest := t[..k], t[k..];
      assert t == w + rest;
      assert Text.Words(t) == [w] + Text.Words(rest);
      DashRunsWord(w, rest);
      if |rest| == 0 {
        assert Text.Words(rest) == [];
      } else {
        var u := Text.TrimStart(rest[1..]);
        assert Text.TrimStart(rest) == u;
        Text.TrimStartSuffix(rest[1..]);
        assert rest[|rest| - 1] == t[|t| - 1];
        assert |u| > 0 && u[|u| - 1] == t[|t| - 1];
        DashRunsTrimmed(u);
        Text.WordsTrimStart(rest);
        assert Text.TrimStart(u) == u;
        assert |Text.Words(u)| > 0;
        Text.JoinCons(w, Text.Words(u), '-');
      }
    }
  }

  /** Replacing the whitespace runs of the trimmed name joins its words with `-`. */
  lemma DashRunsOfTrim(s: string)
    ensures DashRuns(Text.Trim(s)) == Text.Join(Text.Words(s), '-')
  {
    DashRunsTrimmed(Text.Trim(s));
    Text.WordsTrim(s);
  }

  /** `fullName.trim().replace(/\s+/g, '-')`: the words of the name, with one
      `-` between consecutive words. */
  function SanitizeName(fullName: string): (r: string)
    ensures r == Text.Join(Text.Words(fullName), '-')
    ensures Text.NoWhitespace(r)
  {
    DashRunsOfTrim(fullName);
    DashRuns(Text.Trim(fullName))
  }

  /** The characters of `s` that are not whitespace, in order. */
  function NonBlank(s: string): string {
    if |s| == 0 then "" else (if Text.IsWhitespace(s[0]) then "" else [s[0]]) + NonBlank(s[1..])
  }

  /** `s` with every `c` removed. */
  function Without(s: string, c: char): string {
    if |s| == 0 then "" else (if s[0] == c then "" else [s[0]]) + Without(s[1..], c)
  }

  lemma {:induction false} NonBlankTrimStart(s: string)
    ensures NonBlank(Text.TrimStart(s)) == NonBlank(s)
  {
    if |s| > 0 && Text.IsWhitespace(s[0]) {
      NonBlankTrimStart(s[1..]);
    }
  }

  /** Only whitespace is dropped: the other characters stay, in order. */
  lemma {:induction false} DashRunsKeepsText(s: string)
    requires '-' !in s
    ensures Without(DashRuns(s), '-') == NonBlank(s)
    decreases |s|
  {
    if |s| > 0 {
      if Text.IsWhitespace(s[0]) {
        var t := Text.TrimStart(s[1..]);
        Text.TrimStartSuffix(s[1..]);
        assert '-' !in t;
        DashRunsKeepsText(t);
        NonBlankTrimStart(s[1..]);
        assert ("-" + DashRuns(t))[1..] == DashRuns(t);
      } else {
        DashRunsKeepsText(s[1..]);
        assert ([s[0]] + DashRuns(s[1..]))[1..] == DashRuns(s[1..]);
      }
    }
  }

  /** When the text holds no `-` of its own, no two `-` are adjacent in the
      result, and the result starts with `-` only if the text starts with
      whitespace. */
  lemma {:induction false} DashRunsSingle(s: string)
    requires '-' !in s
    ensures forall i :: 0 <= i < |DashRuns(s)| - 1 ==> !(DashRuns(s)[i] == '-' && DashRuns(s)[i + 1] == '-')
    ensures |DashRuns(s)| > 0 && DashRuns(s)[0] == '-' ==> |s| > 0 && Text.IsWhitespace(s[0])
    decreases |s|
  {
    if |s| > 0 {
      var r := DashRuns(s);
      if Text.IsWhitespace(s[0]) {
        var t := Text.TrimStart(s[1..]);
        Text.TrimStartSuffix(s[1..]);
        assert '-' !in t;
        DashRunsSingle(t);
        assert r == "-" + DashRuns(t);
      } else {
        DashRunsSingle(s[1..]);
        assert r == [s[0]] + DashRuns(s[1..]);
      }
    }
  }

  lemma {:induction false} DashRunsPlain(s: string)
    requires Text.NoWhitespace(s)
    ensures DashRuns(s) == s
  {
    if |s| > 0 {
      DashRunsPlain(s[1..]);
    }
  }

  lemma TrimPlain(s: string)
    requires Text.NoWhitespace(s)
    ensures Text.Trim(s) == s
  {
    assert Text.TrimStart(s) == s;
  }

  /** A name without whitespace is used as it is. */
  lemma SanitizePlain(fullName: string)
    requires Text.NoWhitespace(fullName)
    ensures SanitizeName(fullName) == fullName
  {
    TrimPlain(fullName);
    DashRunsPlain(fullName);
  }

  /** Sanitizing twice is sanitizing once. */
  lemma SanitizeIdempotent(fullName: string)
    ensures SanitizeName(SanitizeName(fullName)) == SanitizeName(fullName)
  {
    SanitizePlain(SanitizeName(fullName));
  }

  /** `name.split('.').pop() || 'jpg'`: the text after the last point of the
      file name, or `jpg` when that text is empty. */
  function FileExtension(name: string): (r: string)
    ensures r != "" && '.' !in r
    ensures Text.LastPiece(name, '.') != "" ==> r == Text.LastPiece(name, '.')
    ensures Text.LastPiece(name, '.') == "" ==> r == DefaultExtension
  {
    var p := Text.LastPiece(name, '.');
    if p == "" then
      assert DefaultExtension == ['j', 'p', 'g'];
      DefaultExtension
    else p
  }

  function TaxStatus(wantsTaxDeduction: bool): string {
    if wantsTaxDeduction then TaxDeductedLabel else NotDeductedLabel
  }

  /** `${name}_${amount}B_${taxStatus}_${date}_${timestamp}.${extension}`, with
      the name sanitized and every `:` of the clock reading replaced by `-`. */
  function SlipFileName(fullName: string, amount: string, wantsTaxDeduction: bool, donationDate: string,
                        clock: string, fileName: string): string
  {
    SanitizeName(fullName) + "_" + amount + "B_" + TaxStatus(wantsTaxDeduction) + "_" + donationDate
      + "_" + Text.ReplaceChar(clock, ':', '-') + "." + FileExtension(fileName)
  }

  /** The slip keeps its extension: the extension of the new name is the
      extension of the picked file, and the clock part holds no `:`. */
  lemma SlipFileNameExtension(fullName: string, amount: string, wantsTaxDeduction: bool,
                              donationDate: string, clock: string, fileName: string)
    ensures FileExtension(SlipFileName(fullName, amount, wantsTaxDeduction, donationDate, clock, fileName))
         == FileExtension(fileName)
    ensures ':' !in Text.ReplaceChar(clock, ':', '-')
  {
    var e := FileExtension(fileName);
    var p := SanitizeName(fullName) + "_" + amount + "B_" + TaxStatus(wantsTaxDeduction) + "_" + donationDate
      + "_" + Text.ReplaceChar(clock, ':', '-');
    assert SlipFileName(fullName, amount, wantsTaxDeduction, donationDate, clock, fileName) == p + ['.'] + e;
    Text.LastPieceAfterSeparator(p, e, '.');
  }

  /** `dataUrl.split(',')[1]`: the encoded bytes of a data URL. A text without a
      comma, which a file reader does not produce, gives the empty text. */
  function Base64Part(dataUrl: string): string {
    var parts := Text.Split(dataUrl, ',');
    if |parts| >= 2 then parts[1] else ""
  }

  /** The encoded bytes of `header,data` are `data`. */
  lemma Base64OfDataUrl(header: string, data: string)
    requires ',' !in header && ',' !in data
    ensures Base64Part(header + "," + data) == data
  {
    var parts := [header, data];
    assert Text.Join(parts, ',') == header + "," + data by {
      assert parts[1..] == [data];
    }
    Text.SplitJoin(parts, ',');
  }

  // ---------------------------------------------------------------------------
  // The form's state

  /** The file the user picked: its name and its MIME type. */
  datatype SlipFile = SlipFile(name: string, mimeType: string)

  /** What the form holds, apart from the loading flags and the error. */
  datatype Inputs = Inputs(
    fullName: string,
    amount: string,
    donationDate: string,
    initialNationalId: string,
    isCertified: bool,
    wantsTaxDeduction: bool,
    taxNationalId: string,
    slipFile: Option<SlipFile>,
    slipPreview: Option<string>,
    isAmountLocked: bool)

  /** An empty form, dated `today`. */
  function Blank(today: string): Inputs {
    Inputs("", "", today, "", false, false, "", None, None, false)
  }

  /** The first check the inputs fail. */
  function Check(i: Inputs, parsedAmount: int): Option<FormError> {
    Validate(i.isCertified, i.slipFile.Some?, i.amount, parsedAmount, i.wantsTaxDeduction, i.taxNationalId)
  }

  /** The submission the form sends: the name as typed, the parsed amount, the
      national ID only when a deduction is asked for, and the slip under its new name. */
  function Payload(i: Inputs, parsedAmount: int, clock: string, dataUrl: string): (r: NewDonation)
    requires i.slipFile.Some?
    ensures r.fullName == i.fullName && r.amount == parsedAmount && r.donationDate == i.donationDate
    ensures r.wantsTaxDeduction == i.wantsTaxDeduction
    ensures r.nationalId == if i.wantsTaxDeduction then Some(i.taxNationalId) else None
    ensures r.slip.base64 == Base64Part(dataUrl) && r.slip.mimeType == i.slipFile.value.mimeType
    ensures r.slip.name
      == SlipFileName(i.fullName, i.amount, i.wantsTaxDeduction, i.donationDate, clock, i.slipFile.value.name)
  {
    var file := i.slipFile.value;
    NewDonation(
      i.fullName, parsedAmount, i.donationDate, i.wantsTaxDeduction,
      if i.wantsTaxDeduction then Some(i.taxNationalId) else None,
      SlipUpload(Base64Part(dataUrl), file.mimeType,
        SlipFileName(i.fullName, i.amount, i.wantsTaxDeduction, i.donationDate, clock, file.name)))
  }

  /** What a submission that passed the checks carries: a positive amount, a
      13-character national ID exactly when a deduction is asked for, and a
      slip name with the picked file's extension. */
  lemma ValidatedPayload(i: Inputs, parsedAmount: int, clock: string, dataUrl: string)
    requires Check(i, parsedAmount).None?
    ensures i.slipFile.Some?
    ensures Payload(i, parsedAmount, clock, dataUrl).amount > 0
    ensures Payload(i, parsedAmount, clock, dataUrl).nationalId.Some? ==>
      |Payload(i, parsedAmount, clock, dataUrl).nationalId.value| == 13
    ensures FileExtension(Payload(i, parsedAmount, clock, dataUrl).slip.name) == FileExtension(i.slipFile.value.name)
  {
    var file := i.slipFile.value;
    SlipFileNameExtension(i.fullName, i.amount, i.wantsTaxDeduction, i.donationDate, clock, file.name);
  }

  /** The amount the slip reader locks the field to: a reading whose amount is
      present and not zero. */
  function LockedAmount(reading: SlipReading): (r: Option<int>)
    ensures r.Some? ==> r.value != 0
    ensures r.Some? <==> reading.SlipData? && reading.amount.Some? && reading.amount.value != 0
  {
    if reading.SlipData? && reading.amount.Some? && reading.amount.value != 0 then reading.amount else None
  }

  /** The date the slip reader fills in: a reading whose date is present and not empty. */
  function ReadDate(reading: SlipReading): (r: Option<string>)
    ensures r.Some? ==> r.value != ""
    ensures r.Some? <==> reading.SlipData? && reading.date.Some? && reading.date.value != ""
  {
    if reading.SlipData? && reading.date.Some? && reading.date.value != "" then reading.date else None
  }

  /** The amount text a lock leaves in the field reads back as the amount the slip reader found. */
  lemma LockedAmountReadsBack(reading: SlipReading)
    requires LockedAmount(reading).Some?
    ensures ReadAmount(AmountText(LockedAmount(reading).value)) == LockedAmount(reading)
  {
    ReadAmountText(LockedAmount(reading).value);
  }

  class Form {
    var fullName: string
    var amount: string
    var donationDate: string
    var initialNationalId: string
    var isCertified: bool
    var wantsTaxDeduction: bool
    var taxNationalId: string
    var slipFile: Option<SlipFile>
    var slipPreview: Option<string>
    var isAmountLocked: bool
    var isLoading: bool
    var ocrLoading: bool
    var error: Option<string>

    function Current(): Inputs
      reads this
    {
      Inputs(fullName, amount, donationDate, initialNationalId, isCertified, wantsTaxDeduction,
        taxNationalId, slipFile, slipPreview, isAmountLocked)
    }

    /** A fresh form: empty, dated today, nothing loading, no error. */
    constructor (today: string)
      ensures Current() == Blank(today)
      ensures !isLoading && !ocrLoading && error.None?
    {
      fullName := "";
      amount := "";
      donationDate := today;
      initialNationalId := "";
      isCertified := false;
      wantsTaxDeduction := false;
      taxNationalId := "";
      slipFile := None;
      slipPreview := None;
      isAmountLocked := false;
      isLoading := false;
      ocrLoading := false;
      error := None;
    }

    /** Typing in the amount field, which is read-only while locked. */
    method EditAmount(text: string)
      modifies this`amount
      ensures amount == if isAmountLocked then old(amount) else text
    {
      if !isAmountLocked {
        amount := text;
      }
    }

    /** `handleFileChange`: with no file nothing happens. Otherwise the file and
        its preview are kept, the error is cleared and the amount unlocked; an
        amount the reader found is written out and locked, a missing one (or a
        reader failure) sets an error instead; a date the reader found replaces
        the donation date. */
    method HandleFileChange(file: Option<SlipFile>, previewUrl: string, reading: SlipReading)
      modifies this`slipFile, this`slipPreview, this`ocrLoading, this`error, this`isAmountLocked,
        this`amount, this`donationDate
      ensures file.None? ==>
        Current() == old(Current()) && error == old(error) && ocrLoading == old(ocrLoading)
      ensures file.Some? ==> slipFile == file && slipPreview == Some(previewUrl) && !ocrLoading
      ensures file.Some? ==> isAmountLocked == LockedAmount(reading).Some?
      ensures file.Some? && LockedAmount(reading).Some? ==>
        amount == AmountText(LockedAmount(reading).value) && error.None?
      ensures file.Some? && LockedAmount(reading).None? ==>
        amount == old(amount) && error == Some(if reading.ReadFailed? then SlipUnreadMessage else AmountUnreadMessage)
      ensures file.Some? ==> donationDate == ReadDate(reading).GetOr(old(donationDate))
    {
      if file.None? {
        return;
      }
      slipFile := file;
      slipPreview := Some(previewUrl);
      ocrLoading := true;
      error := None;
      isAmountLocked := false;
      match reading {
        case ReadFailed =>
          error := Some(SlipUnreadMessage);
        case SlipData(a, d) =>
          if a.Some? && a.value != 0 {
            amount := AmountText(a.value);
            isAmountLocked := true;
          } else {
            error := Some(AmountUnreadMessage);
          }
          if d.Some? && d.value != "" {
            donationDate := d.value;
          }
      }
      ocrLoading := false;
    }

    /** The reset after an accepted submission: every input back to its default. */
    method Reset(today: string)
      modifies this`fullName, this`amount, this`donationDate, this`initialNationalId, this`isCertified,
        this`wantsTaxDeduction, this`taxNationalId, this`slipFile, this`slipPreview, this`isAmountLocked
      ensures Current() == Blank(today)
    {
      fullName := "";
      amount := "";
      donationDate := today;
      initialNationalId := "";
      isCertified := false;
      wantsTaxDeduction := false;
      taxNationalId := "";
      slipFile := None;
      slipPreview := None;
      isAmountLocked := false;
    }

    /** `handleSubmit`. A failed check sets its message and changes nothing else.
        Otherwise the submission is sent (unless the slip could not be read, an
        error that is not an `Error` and so shows the generic message); when it is
        accepted the form is emptied and dated `today`, when it is rejected the
        inputs stay and the rejection's message is shown. Returns what was sent. */
    method HandleSubmit(parsedAmount: int, clock: string, today: string,
                        dataUrl: Option<string>, rejection: Option<string>)
      returns (sent: Option<NewDonation>)
      modifies this`fullName, this`amount, this`donationDate, this`initialNationalId, this`isCertified,
        this`wantsTaxDeduction, this`taxNationalId, this`slipFile, this`slipPreview, this`isAmountLocked,
        this`isLoading, this`error
      ensures Check(old(Current()), parsedAmount).Some? ==>
        sent.None? && Current() == old(Current()) && isLoading == old(isLoading)
        && error == Some(Message(Check(old(Current()), parsedAmount).value))
      ensures Check(old(Current()), parsedAmount).None? && dataUrl.None? ==>
        sent.None? && Current() == old(Current()) && !isLoading && error == Some(UnknownErrorMessage)
      ensures Check(old(Current()), parsedAmount).None? && dataUrl.Some? ==>
        old(slipFile).Some? && sent == Some(Payload(old(Current()), parsedAmount, clock, dataUrl.value)) && !isLoading
      ensures Check(old(Current()), parsedAmount).None? && dataUrl.Some? && rejection.None? ==>
        Current() == Blank(today) && error.None?
      ensures Check(old(Current()), parsedAmount).None? && dataUrl.Some? && rejection.Some? ==>
        Current() == old(Current()) && error == rejection
    {
      var before := Current();
      error := None;
      var failure := Check(Current(), parsedAmount);
      if failure.Some? {
        error := Some(Message(failure.value));
        return None;
      }
      isLoading := true;
      if dataUrl.None? {
        error := Some(UnknownErrorMessage);
        isLoading := false;
        return None;
      }
      assert before.slipFile.Some?;
      sent := Some(Payload(before, parsedAmount, clock, dataUrl.value));
      if rejection.None? {
        Reset(today);
      } else {
        error := rejection;
      }
      isLoading := false;
    }
  }
}
