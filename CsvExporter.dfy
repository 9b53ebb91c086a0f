/**
 * The CSV text built by `exportDonationsToCSV` (services/csvExporter.ts): a
 * fixed header line, then one line per donation in list order, lines joined by
 * a line feed. Only the full name is quoted, with every `"` in it doubled;
 * every other field is written as it is.
 *
 * Beside the exporter sits a reader for that text (RFC 4180 style: a field
 * that starts with `"` is quoted and `""` inside it stands for `"`), and the
 * lemmas that reading an export gives the donations back.
 */
module CsvExporter {
  import opened Wrappers
  import opened Types
  import Text

  const HeaderFields: seq<string> :=
    ["ID", "Full Name", "Amount", "Donation Date", "Wants Tax Deduction", "National ID", "Slip URL"]

  /** The first line: the header names joined by commas. */
  function Header(): string {
    Text.Join(HeaderFields, ',')
  }

  // ---------------------------------------------------------------------------
  // Quoting the full name

  /** `name.replace(/"/g, '""')`: a name without quotes is left as it is. */
  function EscapeQuotes(name: string): (r: string)
    ensures |r| >= |name|
    ensures '"' !in name ==> r == name
  {
    if |name| == 0 then ""
    else (if name[0] == '"' then "\"\"" else [name[0]]) + EscapeQuotes(name[1..])
  }

  /** The full-name field: the escaped name between two quotes. */
  function QuoteName(name: string): (r: string)
    ensures |r| >= |name| + 2 && r[0] == '"' && r[|r| - 1] == '"'
  {
    "\"" + EscapeQuotes(name) + "\""
  }

  /** Undoes the doubling: every `""` becomes `"`. */
  function UnescapeQuotes(t: string): string {
    if |t| == 0 then ""
    else if |t| >= 2 && t[0] == '"' && t[1] == '"' then "\"" + UnescapeQuotes(t[2..])
    else [t[0]] + UnescapeQuotes(t[1..])
  }

  /** Every quote in `t` is one of a doubled pair: `t` has no lone quote. */
  predicate QuotesPaired(t: string) {
    if |t| == 0 then true
    else if t[0] == '"' then |t| >= 2 && t[1] == '"' && QuotesPaired(t[2..])
    else QuotesPaired(t[1..])
  }

  /** Round trip: undoing the doubling gives back the name. */
  lemma {:induction false} UnescapeEscape(name: string)
    ensures UnescapeQuotes(EscapeQuotes(name)) == name
  {
    if |name| > 0 {
      var e := EscapeQuotes(name);
      UnescapeEscape(name[1..]);
      if name[0] == '"' {
        assert e[2..] == EscapeQuotes(name[1..]);
      } else {
        assert e[1..] == EscapeQuotes(name[1..]);
      }
      assert name == [name[0]] + name[1..];
    }
  }

  /** The escaped name has no lone quote. */
  lemma {:induction false} EscapedQuotesPaired(name: string)
    ensures QuotesPaired(EscapeQuotes(name))
  {
    if |name| > 0 {
      var e := EscapeQuotes(name);
      EscapedQuotesPaired(name[1..]);
      if name[0] == '"' {
        assert e[2..] == EscapeQuotes(name[1..]);
      } else {
        assert e[1..] == EscapeQuotes(name[1..]);
      }
    }
  }

  /** Conversely, every text without a lone quote is the escaping of exactly one name. */
  lemma {:induction false} EscapeUnescape(t: string)
    requires QuotesPaired(t)
    ensures EscapeQuotes(UnescapeQuotes(t)) == t
  {
    if |t| > 0 {
      if t[0] == '"' {
        EscapeUnescape(t[2..]);
        assert t == "\"\"" + t[2..];
      } else {
        EscapeUnescape(t[1..]);
        assert t == [t[0]] + t[1..];
      }
    }
  }

  /** Escaping adds quotes only: any other character is in the escaped name exactly when it is in the name. */
  lemma {:induction false} EscapeKeepsOtherChars(name: string, c: char)
    requires c != '"'
    ensures c in EscapeQuotes(name) <==> c in name
  {
    if |name| > 0 {
      EscapeKeepsOtherChars(name[1..], c);
      assert name == [name[0]] + name[1..];
    }
  }

  // ---------------------------------------------------------------------------
  // Rows and the whole text

  function BoolText(b: bool): string { if b then "true" else "false" }

  /** `donation.nationalId || ''`: absent and empty both give an empty field. */
  function NationalIdText(id: Option<string>): string {
    match id
    case Some(s) => s
    case None => ""
  }

  /** The values of one row, in header order: one per header name. */
  function RowValues(d: Donation): (r: seq<string>)
    ensures |r| == |HeaderFields|
  {
    [d.id, QuoteName(d.fullName), AmountText(d.amount), d.donationDate,
     BoolText(d.wantsTaxDeduction), NationalIdText(d.nationalId), d.slipUrl]
  }

  function Row(d: Donation): string {
    Text.Join(RowValues(d), ',')
  }

  /** The data lines: line `i` is the row of donation `i`. */
  function Rows(ds: seq<Donation>): seq<string> {
    seq(|ds|, i requires 0 <= i < |ds| => Row(ds[i]))
  }

  /** The header line, then the data lines. */
  function CsvLines(ds: seq<Donation>): seq<string> {
    [Header()] + Rows(ds)
  }

  /** The exported text, or nothing at all for an empty list. */
  function CsvText(ds: seq<Donation>): (r: Option<string>)
    ensures r.None? <==> |ds| == 0
  {
    if |ds| == 0 then None else Some(Text.Join(CsvLines(ds), '\n'))
  }

  /** `exportDonationsToCSV` up to the final `join`: no output for an empty
      list, otherwise the header line followed by one pushed row per donation. */
  method ExportDonationsToCsv(donations: seq<Donation>) returns (csv: Option<string>)
    ensures csv.None? <==> |donations| == 0
    ensures csv == CsvText(donations)
  {
    if |donations| == 0 {
      return None;
    }
    var rows := PushRows([Header()], donations);
    csv := Some(Text.Join(rows, '\n'));
  }

  /** The `for (const donation of donations)` loop of the export: after the
      lines already there, the row of each donation, in list order. */
  method PushRows(start: seq<string>, donations: seq<Donation>) returns (rows: seq<string>)
    ensures rows == start + Rows(donations)
  {
    rows := start;
    for i := 0 to |donations|
      invariant rows == start + Rows(donations[..i])
    {
      RowsGrow(donations, i);
      rows := rows + [Row(donations[i])];
    }
    assert donations[..|donations|] == donations;
  }

  lemma RowsGrow(ds: seq<Donation>, i: nat)
    requires i < |ds|
    ensures Rows(ds[..i + 1]) == Rows(ds[..i]) + [Row(ds[i])]
  {
    var a, b := Rows(ds[..i + 1]), Rows(ds[..i]) + [Row(ds[i])];
    assert |a| == |b|;
    forall k | 0 <= k < |a| ensures a[k] == b[k] {
      assert ds[..i + 1][k] == ds[k];
      if k < i {
        assert ds[..i][k] == ds[k];
      }
    }
  }

  // ---------------------------------------------------------------------------
  // Reading the text back

  /** Reads a quoted field's content; `s` is the text after the opening quote.
      Gives the unescaped content and the text after the closing quote. */
  function ReadQuoted(s: string): (r: (string, string))
    ensures |r.1| <= |s|
  {
    if |s| == 0 then ("", "")
    else if s[0] == '"' then
      if |s| >= 2 && s[1] == '"' then
        var (f, rest) := ReadQuoted(s[2..]);
        ("\"" + f, rest)
      else ("", s[1..])
    else
      var (f, rest) := ReadQuoted(s[1..]);
      ([s[0]] + f, rest)
  }

  /** The position of the first comma in `s`, or `|s|`. */
  function CommaIndex(s: string): (k: nat)
    ensures k <= |s| && ',' !in s[..k] && (k < |s| ==> s[k] == ',')
  {
    if |s| == 0 || s[0] == ',' then 0 else CommaIndex(s[1..]) + 1
  }

  /** The fields of one line. */
  function ParseLine(s: string): (r: seq<string>)
    ensures |r| >= 1
    decreases |s|
  {
    if |s| > 0 && s[0] == '"' then
      var (f, rest) := ReadQuoted(s[1..]);
      if |rest| > 0 && rest[0] == ',' then [f] + ParseLine(rest[1..]) else [f]
    else
      var k := CommaIndex(s);
      if k < |s| then [s[..k]] + ParseLine(s[k + 1..]) else [s]
  }

  /** A field written without quotes reads back as itself. */
  predicate PlainCell(v: string) {
    ',' !in v && (|v| == 0 || v[0] != '"')
  }

  /** `v` is how the exporter writes the field `f`: as it is, or quoted. */
  predicate Encodes(v: string, f: string) {
    (PlainCell(v) && v == f) || v == QuoteName(f)
  }

  lemma {:induction false} ReadQuotedEscaped(name: string, rest: string)
    requires |rest| == 0 || rest[0] != '"'
    ensures ReadQuoted(EscapeQuotes(name) + "\"" + rest) == (name, rest)
  {
    var s := EscapeQuotes(name) + "\"" + rest;
    if |name| == 0 {
      assert s == "\"" + rest;
      assert s[1..] == rest;
    } else {
      ReadQuotedEscaped(name[1..], rest);
      var tail := EscapeQuotes(name[1..]) + "\"" + rest;
      if name[0] == '"' {
        assert s == "\"\"" + tail;
        assert s[2..] == tail;
      } else {
        assert s == [name[0]] + tail;
        assert s[1..] == tail;
      }
      assert name == [name[0]] + name[1..];
    }
  }

  lemma CommaIndexAfterPlain(p: string, t: string)
    requires ',' !in p
    ensures CommaIndex(p + t) == |p| + CommaIndex(t)
  {
    if |p| > 0 {
      assert (p + t)[1..] == p[1..] + t;
      CommaIndexAfterPlain(p[1..], t);
    } else {
      assert p + t == t;
    }
  }

  /** One field, then the rest of the line. */
  lemma ParseCell(v: string, f: string, rest: string, s: string)
    requires Encodes(v, f)
    requires s == v + "," + rest
    ensures ParseLine(s) == [f] + ParseLine(rest)
  {
    if v == QuoteName(f) {
      assert s[0] == '"';
      assert s[1..] == EscapeQuotes(f) + "\"" + ("," + rest);
      ReadQuotedEscaped(f, "," + rest);
      assert ("," + rest)[1..] == rest;
    } else {
      assert s[0] != '"' by {
        if |v| == 0 { assert s[0] == ','; } else { assert s[0] == v[0]; }
      }
      assert s == v + ("," + rest);
      CommaIndexAfterPlain(v, "," + rest);
      assert CommaIndex(s) == |v|;
      assert s[..|v|] == v;
      assert s[|v| + 1..] == rest;
    }
  }

  /** The last field of a line. */
  lemma ParseLastCell(v: string, f: string)
    requires Encodes(v, f)
    ensures ParseLine(v) == [f]
  {
    if v == QuoteName(f) {
      assert v[1..] == EscapeQuotes(f) + "\"" + "";
      ReadQuotedEscaped(f, "");
    } else {
      CommaIndexAfterPlain(v, "");
      assert v + "" == v;
    }
  }

  /** Reading a line of encoded fields gives back the fields. */
  lemma {:induction false} ParseJoin(values: seq<string>, fields: seq<string>)
    requires |values| == |fields| >= 1
    requires forall i :: 0 <= i < |values| ==> Encodes(values[i], fields[i])
    ensures ParseLine(Text.Join(values, ',')) == fields
  {
    if |values| == 1 {
      ParseLastCell(values[0], fields[0]);
    } else {
      ParseJoin(values[1..], fields[1..]);
      var rest := Text.Join(values[1..], ',');
      assert Text.Join(values, ',') == values[0] + "," + rest;
      ParseCell(values[0], fields[0], rest, Text.Join(values, ','));
      assert fields == [fields[0]] + fields[1..];
    }
  }

  /** The fields a row holds: the values with the name unquoted. */
  function RowFields(d: Donation): seq<string> {
    [d.id, d.fullName, AmountText(d.amount), d.donationDate,
     BoolText(d.wantsTaxDeduction), NationalIdText(d.nationalId), d.slipUrl]
  }

  /** The unquoted fields of `d` hold no comma and do not start with a quote. */
  predicate PlainFields(d: Donation) {
    PlainCell(d.id) && PlainCell(d.donationDate)
    && PlainCell(NationalIdText(d.nationalId)) && PlainCell(d.slipUrl)
  }

  lemma AmountCellPlain(a: int)
    ensures PlainCell(AmountText(a))
  {
    var t := AmountText(a);
    assert forall i :: 0 <= i < |t| ==> t[i] != ',' && t[i] != '"';
  }

  /** Reading a row gives the donation's fields in header order, the name unquoted. */
  lemma ParseRow(d: Donation)
    requires PlainFields(d)
    ensures ParseLine(Row(d)) == RowFields(d)
  {
    var v, f := RowValues(d), RowFields(d);
    AmountCellPlain(d.amount);
    forall i | 0 <= i < |v|
      ensures Encodes(v[i], f[i])
    {
      if i == 1 {
        assert v[1] == QuoteName(f[1]);
      } else {
        assert PlainCell(v[i]) && v[i] == f[i];
      }
    }
    ParseJoin(v, f);
  }

  /** A donation from the seven fields of a row, or nothing when the amount or
      the tax flag cannot be read. An empty national-id field reads as absent. */
  function ReadRecord(fields: seq<string>): Option<Donation> {
    if |fields| != 7 then None
    else
      match ReadAmount(fields[2])
      case None => None
      case Some(amount) =>
        if fields[4] != "true" && fields[4] != "false" then None
        else Some(Donation(fields[0], fields[1], amount, fields[3], fields[4] == "true",
                           if fields[5] == "" then None else Some(fields[5]), fields[6]))
  }

  /** What survives the export: an empty national id becomes an absent one. */
  function Exported(d: Donation): Donation {
    if d.nationalId == Some("") then d.(nationalId := None) else d
  }

  /** Round trip of one row: reading it gives back the donation. */
  lemma ReadRow(d: Donation)
    requires PlainFields(d)
    ensures ReadRecord(ParseLine(Row(d))) == Some(Exported(d))
  {
    ParseRow(d);
    ReadAmountText(d.amount);
  }

  // ---------------------------------------------------------------------------
  // Lines of the whole text

  lemma HeaderHasNoLineFeed()
    ensures '\n' !in Header()
  {
    forall i | 0 <= i < |HeaderFields| ensures '\n' !in HeaderFields[i] {
    }
    Text.JoinExcludes(HeaderFields, ',', '\n');
  }

  /** The header line splits at its commas into exactly the seven column names, in order. */
  lemma HeaderNames()
    ensures |HeaderFields| == 7
    ensures Text.Split(Header(), ',') == HeaderFields
  {
    forall i | 0 <= i < |HeaderFields| ensures ',' !in HeaderFields[i] {
    }
    Text.SplitJoin(HeaderFields, ',');
  }

  /** No field of `d` holds a line feed. */
  predicate NoLineFeeds(d: Donation) {
    '\n' !in d.id && '\n' !in d.fullName && '\n' !in d.donationDate
    && '\n' !in NationalIdText(d.nationalId) && '\n' !in d.slipUrl
  }

  lemma RowHasNoLineFeed(d: Donation)
    requires NoLineFeeds(d)
    ensures '\n' !in Row(d) && |Row(d)| > 0
  {
    var v := RowValues(d);
    EscapeKeepsOtherChars(d.fullName, '\n');
    var a := AmountText(d.amount);
    assert '\n' !in a by {
      assert forall i :: 0 <= i < |a| ==> a[i] != '\n';
    }
    forall i | 0 <= i < |v|
      ensures '\n' !in v[i]
    {
      if i == 1 {
        assert v[1] == "\"" + EscapeQuotes(d.fullName) + "\"";
      }
    }
    Text.JoinExcludes(v, ',', '\n');
    assert Row(d) == v[0] + [','] + Text.Join(v[1..], ',');
  }

  /** The first of the lines of a text made of a line `h` with no line feed,
      a line feed and further lines is `h`. */
  lemma FirstLineOf(h: string, rows: seq<string>)
    requires '\n' !in h && |rows| > 0
    ensures Text.Split(Text.Join([h] + rows, '\n'), '\n')[0] == h
  {
    var rest := Text.Join(rows, '\n');
    Text.JoinCons(h, rows, '\n');
    Text.SplitLeadingSeparator(rest, '\n');
    Text.SplitAfterPlainPrefix(h, ['\n'] + rest, '\n');
    assert h + "" == h;
  }

  /** The first line of any export is the header, whatever the donations hold. */
  lemma FirstLineIsHeader(ds: seq<Donation>)
    requires |ds| > 0
    ensures Text.Split(CsvText(ds).value, '\n')[0] == Header()
  {
    HeaderHasNoLineFeed();
    FirstLineOf(Header(), Rows(ds));
  }

  /** A line `h` with no line feed and the rows of donations whose fields hold
      none are the lines their join splits back into. */
  lemma SplitLines(h: string, ds: seq<Donation>)
    requires '\n' !in h
    requires forall i :: 0 <= i < |ds| ==> NoLineFeeds(ds[i])
    ensures Text.Split(Text.Join([h] + Rows(ds), '\n'), '\n') == [h] + Rows(ds)
  {
    var lines := [h] + Rows(ds);
    forall i | 0 <= i < |lines| ensures '\n' !in lines[i] {
      if i > 0 {
        RowHasNoLineFeed(ds[i - 1]);
      }
    }
    Text.SplitJoin(lines, '\n');
  }

  /** When no field holds a line feed, the export splits into exactly the
      header and one row per donation, in list order: `|ds| + 1` lines. */
  lemma ExportLines(ds: seq<Donation>)
    requires |ds| > 0
    requires forall i :: 0 <= i < |ds| ==> NoLineFeeds(ds[i])
    ensures Text.Split(CsvText(ds).value, '\n') == CsvLines(ds)
    ensures |CsvLines(ds)| == |ds| + 1
    ensures forall i :: 0 <= i < |ds| ==> CsvLines(ds)[i + 1] == Row(ds[i])
  {
    HeaderHasNoLineFeed();
    SplitLines(Header(), ds);
  }

  /** Lines joined by line feeds end with the last line's last character. */
  lemma LastCharOfRows(h: string, ds: seq<Donation>)
    requires |ds| > 0 && NoLineFeeds(ds[|ds| - 1])
    ensures var t := Text.Join([h] + Rows(ds), '\n'); |t| > 0 && t[|t| - 1] != '\n'
  {
    var lines := [h] + Rows(ds);
    assert lines[|lines| - 1] == Row(ds[|ds| - 1]);
    RowHasNoLineFeed(ds[|ds| - 1]);
    JoinLastChar(lines, '\n');
  }

  /** When no field holds a line feed, the export does not end with one. */
  lemma NoTrailingLineFeed(ds: seq<Donation>)
    requires |ds| > 0
    requires forall i :: 0 <= i < |ds| ==> NoLineFeeds(ds[i])
    ensures var t := CsvText(ds).value; |t| > 0 && t[|t| - 1] != '\n'
  {
    LastCharOfRows(Header(), ds);
  }

  /** A join ends with the last character of its last part. */
  lemma JoinLastChar(parts: seq<string>, sep: char)
    requires |parts| >= 1 && |parts[|parts| - 1]| > 0
    ensures var j := Text.Join(parts, sep); var l := parts[|parts| - 1];
      |j| > 0 && j[|j| - 1] == l[|l| - 1]
  {
    JoinEndsWithLast(parts, sep);
    var j, l := Text.Join(parts, sep), parts[|parts| - 1];
    assert j[|j| - 1] == j[|j| - |l|..][|l| - 1];
  }

  lemma {:induction false} JoinEndsWithLast(parts: seq<string>, sep: char)
    requires |parts| >= 1 && |parts[|parts| - 1]| > 0
    ensures var j := Text.Join(parts, sep); var l := parts[|parts| - 1];
      |j| >= |l| && j[|j| - |l|..] == l
  {
    if |parts| > 1 {
      JoinEndsWithLast(parts[1..], sep);
    }
  }

  /** Reads every data line back into a donation. */
  function ReadLines(lines: seq<string>): Option<seq<Donation>> {
    if |lines| == 0 then Some([])
    else
      match ReadRecord(ParseLine(lines[0]))
      case None => None
      case Some(d) =>
        match ReadLines(lines[1..])
        case None => None
        case Some(rest) => Some([d] + rest)
  }

  /** Reads an export: the header line, then one donation per line. */
  function ReadCsv(text: string): Option<seq<Donation>> {
    var lines := Text.Split(text, '\n');
    if lines[0] != Header() then None else ReadLines(lines[1..])
  }

  /** What reading the export of `ds` can give back: each donation as exported. */
  function ExportedAll(ds: seq<Donation>): (r: seq<Donation>)
    ensures |r| == |ds| && forall i :: 0 <= i < |ds| ==> r[i] == Exported(ds[i])
  {
    if |ds| == 0 then [] else [Exported(ds[0])] + ExportedAll(ds[1..])
  }

  lemma {:induction false} ReadRows(ds: seq<Donation>, rows: seq<string>)
    requires |rows| == |ds|
    requires forall i :: 0 <= i < |ds| ==> PlainFields(ds[i]) && rows[i] == Row(ds[i])
    ensures ReadLines(rows) == Some(ExportedAll(ds))
  {
    if |ds| > 0 {
      ReadRow(ds[0]);
      ReadRows(ds[1..], rows[1..]);
    }
  }

  /** The lines of a header line `h` and the rows of donations whose fields
      are plain split back apart, and the rows read back as those donations. */
  lemma ReadBackLines(h: string, ds: seq<Donation>)
    requires '\n' !in h
    requires forall i :: 0 <= i < |ds| ==> PlainFields(ds[i]) && NoLineFeeds(ds[i])
    ensures Text.Split(Text.Join([h] + Rows(ds), '\n'), '\n') == [h] + Rows(ds)
    ensures ReadLines(Rows(ds)) == Some(ExportedAll(ds))
  {
    SplitLines(h, ds);
    ReadRows(ds, Rows(ds));
  }

  lemma ReadCsvOfLines(text: string, rows: seq<string>, ds: seq<Donation>)
    requires Text.Split(text, '\n') == [Header()] + rows
    requires ReadLines(rows) == Some(ds)
    ensures ReadCsv(text) == Some(ds)
  {
    assert ([Header()] + rows)[1..] == rows;
  }

  /** Round trip of the whole export: reading it gives back every donation, in
      list order, provided the unquoted fields hold no comma, do not start with
      a quote, and no field holds a line feed. */
  lemma ReadExport(ds: seq<Donation>)
    requires |ds| > 0
    requires forall i :: 0 <= i < |ds| ==> PlainFields(ds[i]) && NoLineFeeds(ds[i])
    ensures ReadCsv(CsvText(ds).value) == Some(ExportedAll(ds))
  {
    HeaderHasNoLineFeed();
    ReadBackLines(Header(), ds);
    ReadCsvOfLines(CsvText(ds).value, Rows(ds), ExportedAll(ds));
  }
}
