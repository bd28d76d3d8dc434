# sam-wrapper in Dafny

A model of the SAM.gov contract-opportunities foreign data wrapper. The
wrapper downloads one large CSV export, caches the response body, captures
the header record once, and hands the host one row per call. Each row holds
the fields the host asks for: a fixed table maps canonical column names
(`notice_id`, `posted_date`, …) to the export's header names (`NoticeId`,
`PostedDate`, …). Each field is coerced per column: timestamps, amounts,
numeric codes, a yes/no flag, or plain text. Blank and `nan` fields become
Null.

The model is a set of pure functions over immutable values:

- `Columns` holds the column table, in source order, and the lookup of a
  canonical column's position in the captured header record
  (`get_column_index`).
- `Values` holds the per-column coercion (`transform_value`) and the rule
  each column gets. It uses `Text` for Rust's `trim`, ASCII lower-casing,
  `str::replace` of characters and integer rendering, and
  `Calendar`/`DateFormat` for chrono's `%Y-%m-%d[ %H:%M:%S]` parsing and the
  UTC epoch arithmetic.
- `Scan` holds the session state (cached body, captured headers, live
  reader, request count). As in the source, an empty body or header record
  counts as not yet captured, so an empty response is requested again on
  the next scan. It also holds the host hooks: `begin_scan`, `iter_scan`,
  `re_scan`, `end_scan` and the modify stubs. Each hook takes a session
  and returns its status or outcome together with the session it leaves.
- `Lifecycle` holds properties of whole call sequences: one request per
  session, and a reset that replays the first scan.

The code's outside world enters as parameters:

- The HTTP response is a `Result<seq<byte>>` argument of `BeginScan`. It is
  consulted only when no body is cached, and every consultation counts as
  one request.
- Windows-1252 decoding plus CSV tokenising is a `Decoder`: bytes in,
  records and a clean or broken ending out.
- Rust's `str::parse::<f64>` is a `NumberParser`: text in, the value or
  nothing out.

## Model

| member | source | states |
|---|---|---|
| Columns.IndexOf | src/lib.rs:154 | the position found is the first header equal to the name; nothing exactly when the name is absent |
| Columns.FindTargetFirst | src/lib.rs:151-153 | the table search finds the first pair whose canonical side is the column, and nothing exactly when no pair names it |
| Columns.SourceFor | src/lib.rs:18-66 | a column has a source header exactly when some table pair names it, and that header comes from the first such pair |
| Columns.ColumnIndex | src/lib.rs:150-155 | a column resolves exactly when it is in the table and its source header was captured; then the index points at that header, and no earlier header equals it |
| Columns.KeySource | src/lib.rs:19 | `notice_id` resolves through the header `NoticeId` |
| Columns.TitleSource | src/lib.rs:20 | `title` resolves through the header `Title` |
| Text.TrimStart | src/lib.rs:103 | the result is a suffix of the input, everything cut off is whitespace, and it does not start with whitespace |
| Text.TrimEnd | src/lib.rs:103 | the result is a prefix of the input, everything cut off is whitespace, and it does not end with whitespace |
| Text.Trim | src/lib.rs:103 | the result is a slice of the input with only whitespace cut off on either side, bounded by non-whitespace characters |
| Text.TrimEmptyIffBlank | src/lib.rs:103 | the trimmed text is empty exactly when every character is whitespace |
| Text.RemoveChars | src/lib.rs:128 | the result is no longer than the input and holds none of the removed characters |
| Text.RemoveCharsOne | src/lib.rs:128 | a single character is dropped exactly when it is one of the removed characters |
| Text.RemoveCharsAppend | src/lib.rs:128 | stripping a concatenation is the concatenation of the stripped pieces, so the kept characters stay in their order |
| Text.RemoveCharsKeeps | src/lib.rs:128 | no removed character is left, and text without any of them comes back unchanged |
| Text.RemoveCharsCounts | src/lib.rs:128 | every character outside the removed set is kept exactly as often as it occurs |
| Text.NatToDecimal | src/lib.rs:134 | the rendering is non-empty decimal digits without a leading zero whose value is the number |
| Text.IntToDecimal | src/lib.rs:134 | the rendering starts with `-` exactly when the number is negative, and the rest is the shortest decimal digits whose value is the magnitude |
| Calendar.DaysBeforeMonth | src/lib.rs:110-111 | the days before a month lie between 28 and 31 per earlier month |
| Calendar.DaysBeforeYearStep | src/lib.rs:110-111 | consecutive years start exactly one year's length of days apart |
| Calendar.MonthsFillYear | src/lib.rs:110-111 | the twelve months add up to the year's length, leap years included |
| Calendar.DayOfYearBounds | src/lib.rs:110-111 | a valid date's offset within its year is one of that year's days, leap years included |
| Calendar.EpochDay | src/lib.rs:119-121 | a valid date's day count since 1970-01-01 falls within the day counts of its own year |
| Calendar.EpochSeconds | src/lib.rs:110-111 | a valid date-time's timestamp falls within the 86400 seconds of its own day |
| Calendar.EpochDayMonotone | src/lib.rs:110-111 | a strictly earlier date has a strictly smaller day number |
| Calendar.EpochDayInjective | src/lib.rs:119-121 | distinct valid dates have distinct day numbers |
| Calendar.NextDayIsSuccessor | src/lib.rs:119-121 | the following calendar day has the next day number |
| Calendar.EpochOrigin | src/lib.rs:110-111 | 1970-01-01 is day zero |
| Calendar.EpochSecondsMonotone | src/lib.rs:109-111 | a date-time earlier by date, then hour, minute and second has a strictly smaller timestamp |
| Calendar.EpochSecondsInjective | src/lib.rs:109-111 | distinct valid date-times have distinct timestamps |
| DateFormat.Pad | src/lib.rs:109 | a zero-padded field has the requested width, only digits, and the number's value |
| DateFormat.PadOfValue | src/lib.rs:109 | padding the value of a digit string gives back the same digit string |
| DateFormat.ParseDate | src/lib.rs:118 | `%Y-%m-%d` text is accepted exactly when it is ten characters of the shape `DDDD-DD-DD` naming an existing date, and gives that date's fields |
| DateFormat.ParseDateTime | src/lib.rs:109 | `%Y-%m-%d %H:%M:%S` text is accepted exactly when it is `DDDD-DD-DD DD:DD:DD` naming an existing date and a time of day without leap second, and gives those fields |
| DateFormat.ParseFormatDate | src/lib.rs:118 | parsing a formatted valid date gives the date back |
| DateFormat.FormatParseDate | src/lib.rs:118 | every accepted `%Y-%m-%d` text is the formatting of the date it parses to |
| DateFormat.ParseFormatDateTime | src/lib.rs:109 | parsing a formatted valid date-time gives it back |
| DateFormat.FormatParseDateTime | src/lib.rs:109 | every accepted `%Y-%m-%d %H:%M:%S` text is the formatting of the date-time it parses to |
| Values.RuleOf | src/lib.rs:107-146 | each named column gets exactly its own rule, and any other column gets plain text |
| Values.Truncate | src/lib.rs:134 | truncation moves toward zero by less than one |
| Values.DateTimeCell | src/lib.rs:108-115 | a date-time column cell is a timestamp exactly when the text parses, holding the parsed date-time's epoch seconds, and Null otherwise |
| Values.DateCell | src/lib.rs:117-125 | a date column cell is a timestamp exactly when the text parses, holding the epoch seconds of the parsed date's midnight, and Null otherwise |
| Values.AmountCell | src/lib.rs:127-130 | the amount is the parse of the text without `$` and `,`, and Null exactly when that text is not a number |
| Values.CodeCell | src/lib.rs:132-138 | a code cell is always text: the rendered integer part of a number, or the input unchanged |
| Values.ActiveCell | src/lib.rs:140-144 | the flag is true exactly for `yes` and false exactly for `no`, in any letter case; otherwise Null |
| Values.Transform | src/lib.rs:102-105 | blank or `nan` text is Null in every column before any rule runs; any other text goes to its column's rule |
| Values.YesAnyCase | src/lib.rs:141 | the lowered text is `yes` exactly when the text is three letters `y`, `e`, `s`, each in either case |
| Values.NoAnyCase | src/lib.rs:142 | the lowered text is `no` exactly when the text is two letters `n`, `o`, each in either case |
| Values.NanAnyCase | src/lib.rs:103 | the lowered text is `nan` exactly when the text is three letters `n`, `a`, `n`, each in either case |
| Values.MissingByLetters | src/lib.rs:103 | a field is a missing-data marker exactly when it is all whitespace or is the letters of `nan` in any case, with nothing around them |
| Values.ActiveByLetters | src/lib.rs:140-144 | `active` is true exactly for the letters of `yes` and false exactly for the letters of `no`, each letter in either case |
| Values.ParsedIsNotMissing | src/lib.rs:103 | text that parses as a date or date-time is never a missing-data marker |
| Values.DateTimeColumnRule | src/lib.rs:108-115 | `posted_date` and `response_deadline` give the epoch seconds of a valid date-time and Null for anything else |
| Values.DateColumnRule | src/lib.rs:117-125 | `archive_date` and `award_date` give midnight of a valid date and Null for anything else; the value is a multiple of 86400 |
| Values.AmountColumnRule | src/lib.rs:127-130 | `award_amount` holds a number exactly when the text without `$` and `,` parses, and that number |
| Values.CodeColumnRule | src/lib.rs:132-138 | `naics_code` and `cgac` always hold text: non-numeric text unchanged, a number as the digits of its integer part |
| Values.FlagIsNotMissing | src/lib.rs:140-144 | `yes` and `no` in any case are not missing-data markers |
| Values.ActiveColumnRule | src/lib.rs:140-144 | `active` is true exactly for `yes` and false exactly for `no`, in any case, and Null exactly for anything else |
| Values.DefaultColumnRule | src/lib.rs:146 | a column without a rule of its own holds the raw text unchanged |
| Values.NotMissingWith | src/lib.rs:103 | text with a non-whitespace character that cannot read `nan` is not a marker |
| Values.PaddedNanIsText | src/lib.rs:103 | the `nan` test does not trim: ` nan` stays text |
| Values.MarkersAreNull | src/lib.rs:103-105 | the empty string, blanks and `NaN` are Null in every column |
| Values.DateTimeColumnRoundTrip | src/lib.rs:108-111 | every valid four-digit-year date-time, written out, becomes its epoch seconds |
| Values.DateColumnRoundTrip | src/lib.rs:117-121 | every valid four-digit-year date, written out, becomes the epoch seconds of its midnight |
| Values.PostedDateExample | src/lib.rs:110-111 | 2023-05-01 12:30:00 is 1682944200 seconds after the epoch |
| Values.AmountNoiseExample | src/lib.rs:128 | `$1,234.50` loses its `$` and `,` and becomes `1234.50` |
| Values.AmountExample | src/lib.rs:127-130 | `$1,234.50` in `award_amount` is the number 1234.50 |
| Values.DecimalExample | src/lib.rs:134 | 541511 is rendered `541511` |
| Values.CodeExample | src/lib.rs:133-134 | a code read as 541511.0 is rewritten as `541511` |
| Values.CodeTextExample | src/lib.rs:135-136 | a code that is not a number, `ABC`, is kept |
| Values.ActiveExample | src/lib.rs:140-144 | `Yes` is true and `Y` is Null |
| Scan.Open | src/lib.rs:196-203 | a fresh reader starts at the first data record, the header record being consumed |
| Scan.ReadRecord | src/lib.rs:228 | reading gives the next record and moves on, or at the end gives end of stream or the read error and stays put |
| Scan.ReadHeader | src/lib.rs:206-212 | the header record is the first record; an empty stream gives an empty record when it ended cleanly and the read error otherwise |
| Scan.BeginScan | src/lib.rs:175-217 | a request is made exactly when no body is cached; headers are captured only when none are; success installs a fresh reader over the cached body; it fails exactly on a failed request or header read, and failure leaves reader and headers alone |
| Scan.ReScan | src/lib.rs:261-264 | with a body cached, a reset makes no request and keeps the body; a successful reset installs a fresh reader over the cached body |
| Scan.EndScan | src/lib.rs:266-271 | the reader is dropped; body, headers and request count are kept |
| Scan.MissingKeyIsBlank | src/lib.rs:231-237 | a record is skipped as keyless exactly when `notice_id` resolves and the record stops before that field or holds only whitespace there |
| Scan.FieldCell | src/lib.rs:243-249 | the cell is the coerced field under the first header naming the column's source, or Null when the record stops before it |
| Scan.Project | src/lib.rs:240-253 | a row is produced exactly when every requested column resolves; it has one cell per column in request order, Null for a record too short to have the field; otherwise the error names the first unresolved column |
| Scan.IterScan | src/lib.rs:219-259 | no reader is an error; the end of the stream ends the scan; a read error is an error; a record lacking its key is skipped (not the end); one with it gives its projected row, or the mapping error of the first unresolved column; the cursor moves past every record read, and nothing else changes |
| Scan.BeginModify | src/lib.rs:273-275 | modification is refused with its fixed message |
| Scan.Insert | src/lib.rs:277-279 | an insert is accepted and ignored |
| Scan.Update | src/lib.rs:281-283 | an update is accepted and ignored |
| Scan.Delete | src/lib.rs:285-287 | a delete is accepted and ignored |
| Scan.EndModify | src/lib.rs:289-291 | ending a modification succeeds |
| Lifecycle.RunKeepsCache | src/lib.rs:179 | once a body is cached, whether or not a header record can be read from it, no sequence of calls makes a request or changes the body or headers |
| Lifecycle.BeginScanCaches | src/lib.rs:179-213 | a successful scan that caches a body leaves the session cached |
| Lifecycle.SkipThenRow | src/lib.rs:231-253 | a keyless record is skipped without ending the scan, and the next call hands out the following record's row |
| Lifecycle.ResetReplays | src/lib.rs:261-264 | after a first scan and any later calls, a reset restores exactly the first scan's session with no new request, so it replays the same outcomes |
| Lifecycle.FetchOnce | src/lib.rs:179-193 | a fresh session whose first request returns a non-empty body makes no further request, whatever calls follow, even when that body has no readable header record |
| Lifecycle.IterAfterEndFails | src/lib.rs:222-225 | after `end_scan`, iterating fails with the missing-reader error |
| Lifecycle.ExampleIndices | src/lib.rs:150-155 | with headers `NoticeId,Title`, `notice_id` is at 0 and `title` at 1 |
| Lifecycle.ExampleCells | src/lib.rs:146 | the key `N1` and the title `Kept` are plain text cells |

## Left out

- The HTTP request (URL, user agent) is not modelled. `BeginScan` takes the response as an argument and counts each request it would make.
- Windows-1252 decoding and CSV tokenising (flexible record lengths, quoting) are not modelled. They are the `Decoder` argument. What happens after a read error is left to it: the model's cursor stays put.
- `str::parse::<f64>` is the `NumberParser` argument. It yields a real number, so infinities, NaN and negative zero are not modelled. The parse of texts such as `inf` and the rendering `-0` of a truncated negative fraction are not covered.
- Values.CodeCell: renders the exact decimal digits of the truncated value. Rust's `Display` for `f64` prints the shortest digits that read back as the same double, then pads with zeros. The two agree for magnitudes up to 2^53, where every integer is a double. Above that they can differ: a code that parses to 2^60 renders as `1152921504606847000` in the source and as `1152921504606846976` here. Negative zero (`-0`) is not covered either.
- Values.CodeColumnRule: inherits the rendering gap of `Values.CodeCell` for integer parts above 2^53 and for negative zero.
- Strict date grammar: the model accepts only a four-digit year and two-digit month, day, hour, minute and second. chrono's `parse_from_str` is more lenient: month, day, hour, minute and second may have one or two digits (`2023-5-1`, `2023-5-1 9:05:00`). It also skips whitespace before a numeric field. It accepts a year of one to four digits, or any number of digits with a sign. It accepts a leap second `:60`. All of these parse in the source and are Null here. The lines below name every member this affects.
- Values.DateTimeCell: Null for the lenient date-time forms above, which the source turns into timestamps.
- Values.DateCell: Null for the lenient date forms above, which the source turns into timestamps.
- Values.Transform: inherits both date-parsing restrictions above.
- Values.DateTimeColumnRule: its "Null for anything else" includes the lenient forms above, which the source accepts.
- Values.DateColumnRule: its "Null for anything else" includes the lenient forms above, which the source accepts.
- DateFormat.ParseDate: accepts only the strict `DDDD-DD-DD` form, not chrono's lenient forms above.
- DateFormat.ParseDateTime: accepts only the strict `DDDD-DD-DD DD:DD:DD` form, not chrono's lenient forms above.
- DateFormat.FormatParseDate: every accepted text is canonical only under the strict grammar. chrono also accepts non-canonical texts such as `2023-5-1`.
- DateFormat.FormatParseDateTime: every accepted text is canonical only under the strict grammar. chrono also accepts non-canonical texts such as `2023-5-1 9:05:00`.
- Text.Lower: lower-cases ASCII letters only. The lowered text is only compared with `nan`, `yes` and `no`, and no non-ASCII character lower-cases to one of their letters. So the verdicts agree with Rust's Unicode `to_lowercase`.
- Scan.IterScan: on an unresolved column the source has already pushed the cells of earlier columns into the host's row. The model reports only the error.
- Scan.IterScan: the source reports a skipped record and a produced row alike as `Ok(Some(0))`. The model names them apart.
- The process-wide singleton, `init` (server options, base URL), `host_version_requirement`, the `Debug` output and the host bindings are not modelled: they hold no logic beyond configuration.
- Columns.Mapping: the table's entries are not proved pairwise distinct. Every lookup takes the first matching pair, as `Iterator::find` does.
- The blank test trims the text but the `nan` test does not: ` nan` is text, not Null. The model follows this code (src/lib.rs:103).
