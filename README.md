# Donation tracker core, modelled in Dafny

This project models the rule-bearing core of a small donation-tracking web
application. Donors fill in a form with their name, the amount, the transfer
date, an optional 13-digit national ID for a tax deduction, and a photo of
the bank-transfer slip. A slip reader (OCR) may pre-fill the amount and the
date. Donations go to a spreadsheet endpoint. The application shows totals,
a table of the ten most recent donations, and a CSV export.

Four pieces are modelled:

* **The CSV export** (`CsvExporter`). It writes a header line, then one row
  per donation in list order. Only the full name is quoted, with every `"`
  doubled. An empty list gives no output. The export is the imperative method
  `ExportDonationsToCsv`; its `for` loop over the donations is the method
  `PushRows`, proved with a loop invariant. A reader for
  the exported text is modelled beside it, so the escaping and the whole
  export can be stated as round trips.
* **The donation form** (`DonationForm`).
  * The submit checks: certification, slip, amount and tax ID, in that order.
    Only the first failing check reports its message.
  * The slip's new file name: the name is trimmed and each whitespace run
    becomes `-`, and the file's extension is kept.
  * The submission payload.
  * The form's state as the class `Form`: the slip-reader handler (which
    locks or unlocks the amount), the submit handler, and the reset.
* **The donation store** (`DonationStore`).
  * The class `Store` holds `donations`, `isLoading` and `error`.
  * A load replaces the list with the data sorted newest first.
  * An add puts the server's record in front of the list or rethrows.
  * `clearError` removes the error.
  * The total and today's total are folds over the list.
* **The recent-donations table** (`RecentDonationsTable`). It sorts a copy of
  the list newest first and shows the first ten, or a message when the list
  is empty.

Shared modules:

* `Types`: the records, and the decimal text of an amount with its reader.
* `DateOrder`: the stable newest-first sort that both the store and the
  table use.
* `Text`: the JavaScript string operations the code relies on (`join`,
  `split`, `trim`, `\s`, `replace`, `split(...).pop()`).

Amounts are exact integers counting satang (hundredths of a baht).
`AmountText` is the text JavaScript's `String(number)` gives for such a value.

Everything that comes from outside the core is passed in as a parameter:

* the endpoint's replies;
* what the slip reader returned;
* the file the user picked and its data URL;
* the value `parseFloat` gives for the amount text;
* the clock reading and today's date;
* the endpoint URL.

## Model

| member | source | states |
|---|---|---|
| Text.SplitJoin | services/csvExporter.ts:20-35 | Splitting a join at the separator gives back the parts, when no part holds the separator |
| Text.JoinSplit | services/csvExporter.ts:35 | Joining the pieces of a split gives back the text |
| Text.SplitPiecesPlain | services/csvExporter.ts:35 | No piece of a split holds the separator |
| Text.ReplaceChar | components/DonationForm.tsx:97 | `replace(/:/g, '-')`: same length, and every `:` and only a `:` becomes `-` |
| Text.LastPieceShape | components/DonationForm.tsx:98 | `split('.').pop()` is a point-free suffix of the name, preceded by a point unless it is the whole name |
| Text.AfterLastSeparator | components/DonationForm.tsx:98 | The position after the last point: nothing from there on is a point, and the character before it is one |
| Text.LastPieceAfterSeparator | components/DonationForm.tsx:98-99 | The last piece of `p.e` is `e` whenever `e` holds no point |
| Text.LastPiece | components/DonationForm.tsx:98 | `split('.').pop()` holds no point |
| Text.Join | services/csvExporter.ts:20-35 | `join`: the parts with one separator between consecutive parts; `SplitJoin` and `JoinSplit` state it against `split` |
| Text.Split | services/csvExporter.ts:35 | `split` always gives at least one piece |
| Text.IsWhitespace | components/DonationForm.tsx:94 | The characters JavaScript's `\s` matches and `trim` removes |
| Text.TrimStart | components/DonationForm.tsx:94 | `trimStart` leaves no more than the text, and what it leaves does not start with whitespace |
| Text.TrimEnd | components/DonationForm.tsx:94 | `trimEnd` leaves no more than the text, and what it leaves does not end with whitespace |
| Text.TrimStartSuffix | components/DonationForm.tsx:94 | `trimStart` drops a prefix that is all whitespace and keeps the rest |
| Text.TrimEndPrefix | components/DonationForm.tsx:94 | `trimEnd` drops a suffix that is all whitespace and keeps the rest |
| Text.Trim | components/DonationForm.tsx:94 | `trim` keeps a contiguous slice of the text, drops only whitespace before and after it, and the slice neither starts nor ends with whitespace |
| Text.WordLength | components/DonationForm.tsx:94 | The leading run of a text up to its first whitespace, or all of it: it holds no whitespace and is followed by whitespace or the end |
| Text.Words | components/DonationForm.tsx:94 | The words a `\s+` split leaves between the whitespace runs: each non-empty and without whitespace |
| Text.WordLengthAt | components/DonationForm.tsx:94 | A whitespace-free prefix followed by whitespace or the end is the leading run |
| Text.WordsTrimStart | components/DonationForm.tsx:94 | Leading whitespace does not change the words |
| Text.TrimStartAppend | components/DonationForm.tsx:94 | Trimming the front of a concatenation stops in the first part unless that part is all whitespace |
| Text.WordsAppendBlank | components/DonationForm.tsx:94 | Trailing whitespace does not change the words |
| Text.WordsTrim | components/DonationForm.tsx:94 | `trim` keeps the words of the text |
| Text.JoinExcludes | services/csvExporter.ts:32-35 | A character other than the separator is in a join only if it is in a part |
| Types.AmountText | services/csvExporter.ts:26 | `String(amount)` is non-empty, made of digits, `-` and `.`, and starts with `-` exactly for negative amounts |
| Types.ReadAmountText | components/DonationForm.tsx:53 | Round trip: reading the text of any amount gives back that amount |
| Types.ReadNegativeAmount | components/DonationForm.tsx:53 | The text of a negative amount reads back as that amount |
| Types.ReadNonNegativeAmount | components/DonationForm.tsx:53 | The text of an amount of zero or more reads back as that amount |
| Types.CentsFraction | services/csvExporter.ts:26 | The satang of an amount that is not whole baht are written as a point and one or two digits that denote them |
| Types.DigitsValueOfNatText | services/csvExporter.ts:26 | The digits of a natural number denote that number |
| DateOrder.Insert | hooks/useDonations.ts:38 | Inserting into a newest-first list keeps it newest first and adds exactly that record |
| DateOrder.SortedCons | hooks/useDonations.ts:38 | A record dated no earlier than the head of a newest-first list can go in front of it |
| DateOrder.KeepHead | hooks/useDonations.ts:38 | When the inserted record is dated earlier than the head, the head stays first and the result is newest first with that record added |
| DateOrder.DateKey | components/RecentDonationsTable.tsx:24 | The sort key: the number the date's digits form, which orders zero-padded dates as their timestamps do |
| DateOrder.SortByDateDesc | components/RecentDonationsTable.tsx:24 | The sort's result is newest first and is a permutation of the input (its stability is `SortStable`) |
| DateOrder.WithKeyCons | components/RecentDonationsTable.tsx:24 | The donations with a given date key of a list with a new head: the head when it has that key, then those of the rest |
| DateOrder.InsertBehindHead | components/RecentDonationsTable.tsx:24 | A donation dated earlier than the head of a newest-first list is inserted behind that head |
| DateOrder.InsertWithKey | components/RecentDonationsTable.tsx:24 | Inserting a donation puts it in front of every donation with the same date key and leaves their order |
| DateOrder.SortStable | components/RecentDonationsTable.tsx:24 | Stability: the donations with the same date key come out of the sort in their input order |
| CsvExporter.ExportDonationsToCsv | services/csvExporter.ts:5-35 | No output exactly for an empty list; otherwise the header line followed by row `i` for donation `i`, joined by line feeds |
| CsvExporter.PushRows | services/csvExporter.ts:22-33 | The loop leaves the lines already pushed in place and appends the row of each donation, in list order |
| CsvExporter.EscapeQuotes | services/csvExporter.ts:25 | Doubling the quotes never shortens the name and leaves a name without quotes as it is |
| CsvExporter.QuoteName | services/csvExporter.ts:25 | The name field starts and ends with a quote and is at least two characters longer than the name |
| CsvExporter.RowValues | services/csvExporter.ts:23-31 | One value per header column |
| CsvExporter.BoolText | services/csvExporter.ts:28 | The `true` or `false` text of the tax flag; `ReadRow` states that it reads back as the flag |
| CsvExporter.NationalIdText | services/csvExporter.ts:29 | `donation.nationalId || ''`: an absent ID gives an empty field; `ReadRow` states that the field reads back, an empty one as absent |
| CsvExporter.Rows | services/csvExporter.ts:22-33 | The pushed data lines, one row per donation in list order; `PushRows` builds them and `ExportLines` and `ReadRows` state what they hold |
| CsvExporter.CsvLines | services/csvExporter.ts:20-33 | The `csvRows` array: the header line, then the data lines; `SplitLines` and `FirstLineIsHeader` state that the export splits back into them |
| CsvExporter.CsvText | services/csvExporter.ts:5-35 | There is no text exactly for an empty list |
| CsvExporter.Header | services/csvExporter.ts:10-20 | The header line: the seven column names joined by commas; `HeaderNames` states that it splits back into them |
| CsvExporter.Row | services/csvExporter.ts:23-32 | A donation's line: its values joined by commas; `ParseRow` and `ReadRow` state that it reads back as the donation |
| CsvExporter.UnescapeEscape | services/csvExporter.ts:25 | Un-doubling the quotes of the escaped name gives back the name |
| CsvExporter.EscapedQuotesPaired | services/csvExporter.ts:25 | The escaped name contains no lone quote |
| CsvExporter.EscapeUnescape | services/csvExporter.ts:25 | Every text without a lone quote is the escaping of the name it un-doubles to, so escaping is a bijection onto such texts |
| CsvExporter.EscapeKeepsOtherChars | services/csvExporter.ts:25 | Escaping adds only quotes: any other character is in the escaped name exactly when it is in the name |
| CsvExporter.HeaderNames | services/csvExporter.ts:10-20 | The header line splits at its commas into exactly the seven column names, in order |
| CsvExporter.HeaderHasNoLineFeed | services/csvExporter.ts:10-20 | The header line holds no line feed |
| CsvExporter.FirstLineOf | services/csvExporter.ts:20-35 | Joined by line feeds, a first line holding no line feed is the first line the text splits into |
| CsvExporter.FirstLineIsHeader | services/csvExporter.ts:20-35 | The first line of every export is the header line, whatever the donations hold |
| CsvExporter.SplitLines | services/csvExporter.ts:20-35 | A first line with no line feed and the rows of donations whose fields hold none split back into exactly those lines |
| CsvExporter.ExportLines | services/csvExporter.ts:20-35 | When no field holds a line feed, the export has exactly `|donations| + 1` lines, and line `i + 1` is the row of donation `i` |
| CsvExporter.LastCharOfRows | services/csvExporter.ts:32-35 | Lines ending with the row of a donation whose fields hold no line feed join into a non-empty text that does not end with a line feed |
| CsvExporter.JoinLastChar | services/csvExporter.ts:35 | A join ends with the last character of its last part |
| CsvExporter.NoTrailingLineFeed | services/csvExporter.ts:35 | When no field holds a line feed, a non-empty export does not end with a line feed |
| CsvExporter.JoinEndsWithLast | services/csvExporter.ts:35 | A join ends with its last part |
| CsvExporter.RowHasNoLineFeed | services/csvExporter.ts:23-32 | A row of a donation whose fields hold no line feed is non-empty and holds no line feed |
| CsvExporter.AmountCellPlain | services/csvExporter.ts:26 | The amount field holds no comma and no quote |
| CsvExporter.ReadQuoted | services/csvExporter.ts:25 | The text left after a quoted field is no longer than the text read |
| CsvExporter.ReadQuotedEscaped | services/csvExporter.ts:25 | Reading the quoted name field gives back the name and stops right after the closing quote |
| CsvExporter.CommaIndex | services/csvExporter.ts:32 | The first comma of a text, or its length when it has none |
| CsvExporter.CommaIndexAfterPlain | services/csvExporter.ts:32 | A comma-free prefix moves the first comma by its length |
| CsvExporter.ParseLine | services/csvExporter.ts:32 | A line always reads as at least one field |
| CsvExporter.ParseCell | services/csvExporter.ts:23-32 | A field written as the exporter writes it, followed by a comma, reads back as that field |
| CsvExporter.ParseLastCell | services/csvExporter.ts:23-32 | The last field of a row reads back as that field |
| CsvExporter.ParseJoin | services/csvExporter.ts:32 | A line of encoded fields reads back as the fields |
| CsvExporter.ParseRow | services/csvExporter.ts:23-32 | A row reads back as the donation's seven fields in header order, the name unquoted, an absent or empty national ID as an empty field |
| CsvExporter.ReadRow | services/csvExporter.ts:22-33 | Round trip of one row: reading it gives back the donation (an empty national ID comes back as absent) |
| CsvExporter.ExportedAll | services/csvExporter.ts:22-33 | What an export can give back: each donation in list order, as the row writes it |
| CsvExporter.ReadRows | services/csvExporter.ts:22-33 | Reading the data lines gives back every donation in list order |
| CsvExporter.ReadBackLines | services/csvExporter.ts:20-35 | For any first line without a line feed, the joined lines split back apart and the data lines read back as the donations |
| CsvExporter.ReadExport | services/csvExporter.ts:5-35 | Round trip of the whole export: reading it gives back every donation, in list order |
| DonationStore.FetchFailure | hooks/useDonations.ts:31-37 | A thrown `fetch` or `json()` error gives its own message; a response that is not ok gives `Network response was not ok: ` followed by its status text; a body with a non-empty `error` gives that error; a body without one is the only success |
| DonationStore.AddFailure | hooks/useDonations.ts:50-80 | An add throws the URL message for a non-https URL; otherwise a thrown `fetch`, `text()` or `JSON.parse` error is rethrown with its own message, a body with a non-empty `error` throws that error, and a body without one is the only success |
| DonationStore.IsHttps | hooks/useDonations.ts:22 | `startsWith('https')`: the URL's first five characters are `https` |
| DonationStore.Store.constructor | hooks/useDonations.ts:17-19 | The store starts with no donations, loading, and no error |
| DonationStore.Store.FetchDonations | hooks/useDonations.ts:21-44 | A non-https URL only sets the URL message. A successful load clears the error and sets the list to the data sorted newest first. A failed load sets the message and keeps the list. Loading is over on every path |
| DonationStore.Store.AddDonation | hooks/useDonations.ts:50-80 | On success the server's record is put in front of the list; otherwise the list is unchanged and the error is returned as thrown; the store's error and loading flag are not touched |
| DonationStore.Store.ClearError | hooks/useDonations.ts:82-84 | The error is null and nothing else changes |
| DonationStore.DatedOn | hooks/useDonations.ts:87-88 | The filter keeps every record dated today, as many times as it occurs in the list, and no other record; `DatedOnAppend` states that it keeps list order |
| DonationStore.Total | hooks/useDonations.ts:91 | The sum of the amounts; `TotalAppend`, `TotalRemove` and `TotalPermutation` state how it behaves |
| DonationStore.TodayTotal | hooks/useDonations.ts:86-89 | The sum of the amounts dated today; `OtherDayAddsNothing`, `TodayAddsAmount` and `TodayAtMostTotal` state how it behaves |
| DonationStore.TotalAppend | hooks/useDonations.ts:91 | The total of a concatenation is the sum of the totals |
| DonationStore.TotalRemove | hooks/useDonations.ts:91 | Taking one record out of the list takes its amount out of the total |
| DonationStore.TotalPermutation | hooks/useDonations.ts:91 | The total does not depend on the order of the list |
| DonationStore.DatedOnAppend | hooks/useDonations.ts:87-88 | Filtering a concatenation concatenates the filtered parts |
| DonationStore.OtherDayAddsNothing | hooks/useDonations.ts:86-89 | A record dated any other day contributes nothing to today's total, wherever it is in the list |
| DonationStore.TodayAddsAmount | hooks/useDonations.ts:86-89 | A record dated today adds exactly its amount to today's total |
| DonationStore.TodayAtMostTotal | hooks/useDonations.ts:86-91 | With no negative amount, 0 ≤ today's total ≤ the total |
| DonationStore.SortKeepsTotal | hooks/useDonations.ts:38-91 | Sorting the loaded data does not change the total |
| DonationStore.PrependShape | hooks/useDonations.ts:73 | After an add the record is at index 0, the length grows by one, the old list follows from index 1, and the total grows by the record's amount |
| DonationStore.PrependKeepsOrder | hooks/useDonations.ts:38-73 | Adding keeps a newest-first list newest first exactly when the new record is dated no earlier than the current first one |
| DonationForm.Validate | components/DonationForm.tsx:73-88 | Each check fails exactly when the earlier ones pass and its own condition fails, and only the first failing check is reported; a submission passes exactly when all four hold |
| DonationForm.MessagesDistinct | components/DonationForm.tsx:73-88 | The four checks show four different messages |
| DonationForm.Message | components/DonationForm.tsx:73-88 | The four Thai messages the checks set; `MessagesDistinct` states that they differ |
| DonationForm.DashRuns | components/DonationForm.tsx:94 | Replacing the whitespace runs leaves no whitespace (its exact result on a trimmed text is `DashRunsTrimmed`) |
| DonationForm.DashRunsWord | components/DonationForm.tsx:94 | A leading whitespace-free word goes through the replacement unchanged |
| DonationForm.DashRunsTrimmed | components/DonationForm.tsx:94 | On a text that neither starts nor ends with whitespace, the replacement gives its words with one `-` between consecutive words |
| DonationForm.DashRunsOfTrim | components/DonationForm.tsx:94 | Trimming and then replacing the whitespace runs gives the words of the name joined by `-` |
| DonationForm.SanitizeName | components/DonationForm.tsx:94 | For every name, the sanitized name is the name's words (maximal runs without whitespace) with one `-` between consecutive words and nothing before the first or after the last; it holds no whitespace |
| DonationForm.DashRunsKeepsText | components/DonationForm.tsx:94 | Only whitespace is dropped: removing the dashes gives the name's non-whitespace characters in order |
| DonationForm.DashRunsSingle | components/DonationForm.tsx:94 | When the text holds no `-` of its own, no two dashes of the result are adjacent, and the result starts with `-` only if the text starts with whitespace |
| DonationForm.NonBlankTrimStart | components/DonationForm.tsx:94 | Trimming keeps every non-whitespace character |
| DonationForm.DashRunsPlain | components/DonationForm.tsx:94 | A text without whitespace is unchanged by the replacement |
| DonationForm.TrimPlain | components/DonationForm.tsx:94 | A text without whitespace is unchanged by `trim` |
| DonationForm.SanitizePlain | components/DonationForm.tsx:94 | A name without whitespace is used as it is |
| DonationForm.SanitizeIdempotent | components/DonationForm.tsx:94 | Sanitizing twice is the same as sanitizing once |
| DonationForm.FileExtension | components/DonationForm.tsx:98 | The extension is the text after the last point of the file name when that text is non-empty, and `jpg` otherwise; either way it is non-empty and holds no point |
| DonationForm.TaxStatus | components/DonationForm.tsx:95 | The Thai label for a deduction asked for or not |
| DonationForm.SlipFileName | components/DonationForm.tsx:94-99 | The new file name from its six parts; `SlipFileNameExtension` states its extension and clock part |
| DonationForm.Base64Part | components/DonationForm.tsx:110 | The second piece of the data URL split at commas, or empty; `Base64OfDataUrl` states what it gives |
| DonationForm.Check | components/DonationForm.tsx:73-88 | The four checks applied to the form's inputs; `Validate` states them |
| DonationForm.Blank | components/DonationForm.tsx:116-125 | The inputs' defaults, dated today; `Form.constructor` and `Form.Reset` state that a new and a reset form hold them |
| DonationForm.SlipFileNameExtension | components/DonationForm.tsx:94-99 | The new file name has the picked file's extension, and its clock part holds no `:` |
| DonationForm.Base64OfDataUrl | components/DonationForm.tsx:110 | The part after the comma of a data URL `header,data` is `data` |
| DonationForm.Payload | components/DonationForm.tsx:103-114 | The payload carries the name as typed, the parsed amount, the date and the tax flag; the national ID when a deduction is asked for and none otherwise; and the slip as the data URL's part after the comma, the picked file's MIME type and the new file name |
| DonationForm.ValidatedPayload | components/DonationForm.tsx:81-114 | A payload that passed the checks has a slip, a positive amount, a 13-character national ID whenever it has one, and a slip name with the picked file's extension |
| DonationForm.LockedAmount | components/DonationForm.tsx:52 | The reader locks the amount exactly when it read an amount that is present and not zero |
| DonationForm.ReadDate | components/DonationForm.tsx:58 | The reader fills in the date exactly when it read a date that is present and not empty |
| DonationForm.LockedAmountReadsBack | components/DonationForm.tsx:52-53 | The text a lock writes into the amount field reads back as the amount the reader found |
| DonationForm.Form.constructor | components/DonationForm.tsx:26-39 | A new form is empty, dated today, with nothing loading and no error |
| DonationForm.Form.EditAmount | components/DonationForm.tsx:152-161 | Typing changes the amount only while it is not locked |
| DonationForm.Form.HandleFileChange | components/DonationForm.tsx:41-67 | With no file nothing changes. Otherwise the slip and preview are kept and the amount is unlocked. A found amount is written out and locked with no error; a missing amount, or a reader failure, sets its message and leaves the amount editable and unchanged. A found date replaces the donation date. No other input changes |
| DonationForm.Form.Reset | components/DonationForm.tsx:116-125 | Every input goes back to its default, dated today; the flags and the error are kept |
| DonationForm.Form.HandleSubmit | components/DonationForm.tsx:69-131 | A failed check sets its message and changes nothing else. An unreadable slip sets the generic message. An accepted submission sends the payload and empties the form; a rejected one keeps the inputs and shows the rejection. Loading is over after any submission that passed the checks |
| RecentDonationsTable.RecentView | components/RecentDonationsTable.tsx:24-42 | The empty-state message is shown exactly for an empty list; otherwise the table's rows are the first ten of the sorted copy |
| RecentDonationsTable.Shown | components/RecentDonationsTable.tsx:24-42 | The first ten of the sorted copy; `ShownRows`, `ShownAndOmitted` and `NoLaterOmitted` state what they are |
| RecentDonationsTable.Omitted | components/RecentDonationsTable.tsx:24-42 | The sorted donations past the tenth row, which the table does not render; `ShownAndOmitted` and `NoLaterOmitted` state what they are |
| RecentDonationsTable.ShownRows | components/RecentDonationsTable.tsx:24-42 | With `n` donations exactly `min(n, 10)` rows are shown, never more than ten, newest first |
| RecentDonationsTable.ShownAndOmitted | components/RecentDonationsTable.tsx:24-42 | Shown and omitted rows together are the input, each record once; every shown row comes from the input, and ten or fewer donations are all shown |
| RecentDonationsTable.NoLaterOmitted | components/RecentDonationsTable.tsx:24-42 | No omitted record is dated later than any shown record |
| RecentDonationsTable.SortSorted | components/RecentDonationsTable.tsx:24 | Sorting a list that is already newest first leaves it as it is |
| RecentDonationsTable.ShownOfSorted | components/RecentDonationsTable.tsx:24-42 | For a newest-first list, such as the store's list right after a load, the table shows its first ten donations |

## Left out

- The HTTP calls to the spreadsheet endpoint (hooks/useDonations.ts:30,56-67) are network I/O. Their outcomes are the inputs `FetchReply` and `AddReply`, and the body that is posted is not modelled.
- A load reply whose `data` is missing or is not a list is not modelled. Neither is the `An unknown error occurred during fetch.` message, which needs a rejection that is not an `Error`.
- The endpoint URL is a constructor parameter; in the application it is a constant, so only one branch of the https guard is live there.
- The slip reader (services/geminiService.ts) calls an external model. What it returned is the input `SlipReading`. It always returns an object or throws, so a null result is not modelled.
- The file reader, `URL.createObjectURL` and the data URL are browser I/O. The data URL and the preview URL are parameters, and a reader failure is `None`.
- The Blob, the download link and `alert` in the exporter (services/csvExporter.ts:36-47) are DOM side effects. The model returns the text, or nothing for an empty list.
- Currency and date formatting in the table and statistics use locale libraries and are not modelled.
- `new Date()` and `toLocaleString('sv-SE')` read the clock. Today's date and the clock text are parameters.
- The loading flags between the awaits of an async handler, and races between overlapping slip readings, are concurrency. Each handler is one atomic step.
- App.tsx, the statistics and header components and the UI primitives hold no rules and are not part of this model.
- Types.AmountText: amounts are integers of satang. Floating-point values with more than two decimals, and the exponent notation JavaScript uses from 1e21 up, are not modelled.
- DonationForm.Form.HandleSubmit: `parseFloat` of the amount text is the parameter `parsedAmount`. NaN is not modelled, because the number input only holds a numeral or nothing.
- DonationForm.Validate: the ID length is counted in characters; JavaScript counts UTF-16 code units, and the two agree on digits.
- DonationStore.TotalPermutation: the totals are exact sums of integer satang. JavaScript adds floating-point numbers, whose sum can depend on the order (`0.1 + 0.2 + 0.3` differs from `0.3 + 0.2 + 0.1` in the last digit), so the model's order independence holds only for the exact sums.
- DateOrder.SortByDateDesc orders by the number formed by the date's digits. This matches timestamp order for zero-padded `YYYY-MM-DD` dates only: `2024-1-5` gives the key 202415, smaller than the key 20231231 of `2023-12-31`, so it sorts after that earlier day. A malformed date, whose timestamp is NaN, is not modelled. The store sorts the fetched array in place; the model sorts a value.
- CsvExporter.ReadExport: the round trip needs the unquoted fields (ID, date, national ID, slip URL) to hold no comma and not start with a quote, and no field to hold a line feed. The exporter quotes only the name, so other inputs do not read back.
- CsvExporter.HeaderNames states the header through its seven names and their join, not as one literal string comparison.
