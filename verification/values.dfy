/** Per-column coercion of one raw CSV field into a typed cell
    (`SamFDW::transform_value`). */
module Values {
  import opened Wrappers
  import opened Text
  import opened Calendar
  import opened DateFormat

  /** A typed cell value. `Null` stands for the source's `None`; the five
      tags are exclusive. `Numeric` holds the value of a finite double. */
  datatype Cell = Null | Str(text: string) | Bool(flag: bool) | Numeric(number: real) | Timestamp(seconds: int)

  /** The number parser the coercion relies on (Rust's `str::parse::<f64>`),
      supplied by the caller: `None` when the text is not a number. */
  type NumberParser = string -> Option<real>

  /** The coercion rule of a column. */
  datatype Rule = DateTimeRule | DateRule | AmountRule | CodeRule | ActiveRule | TextRule

  const AmountColumn: string := "award_amount"
  const ActiveColumn: string := "active"

  /** Columns holding a date and a time of day. */
  predicate IsDateTimeColumn(column: string) {
    column == "posted_date" || column == "response_deadline"
  }

  /** Columns holding a date only. */
  predicate IsDateColumn(column: string) {
    column == "archive_date" || column == "award_date"
  }

  /** Columns holding a code that is kept as text. */
  predicate IsCodeColumn(column: string) {
    column == "naics_code" || column == "cgac"
  }

  /** The rule applied to a column, in the order the columns are tested. */
  function RuleOf(column: string): (r: Rule)
    ensures r == DateTimeRule <==> IsDateTimeColumn(column)
    ensures r == DateRule <==> IsDateColumn(column)
    ensures r == AmountRule <==> column == AmountColumn
    ensures r == CodeRule <==> IsCodeColumn(column)
    ensures r == ActiveRule <==> column == ActiveColumn
  {
    if IsDateTimeColumn(column) then DateTimeRule
    else if IsDateColumn(column) then DateRule
    else if column == AmountColumn then AmountRule
    else if IsCodeColumn(column) then CodeRule
    else if column == ActiveColumn then ActiveRule
    else TextRule
  }

  /** Missing-data markers: text that is blank, or that reads `nan` in any
      letter case. The blank test looks through whitespace; the `nan` test
      does not, so ` nan` is not a marker. */
  predicate IsMissing(value: string) {
    IsBlank(value) || Lower(value) == "nan"
  }

  /** Truncation toward zero (`f64::trunc`). */
  function Truncate(x: real): (n: int)
    ensures 0.0 <= x ==> n as real <= x < n as real + 1.0
    ensures x < 0.0 ==> n as real - 1.0 < x <= n as real
  {
    if x >= 0.0 then x.Floor else -((-x).Floor)
  }

  /** The currency symbol and thousands separator removed before an amount
      is parsed. */
  const AmountNoise: set<char> := {'$', ','}

  /** The cell of a date-time column: the timestamp of a valid date-time,
      else Null. */
  function DateTimeCell(value: string): (r: Cell)
    ensures r.Null? || r.Timestamp?
    ensures r.Timestamp? <==> ParseDateTime(value).Some?
    ensures r.Timestamp? ==> r.seconds == EpochSeconds(ParseDateTime(value).value)
  {
    match ParseDateTime(value)
    case Some(t) => Timestamp(EpochSeconds(t))
    case None => Null
  }

  /** The cell of a date-only column: midnight of a valid date, else Null. */
  function DateCell(value: string): (r: Cell)
    ensures r.Null? || (r.Timestamp? && r.seconds % SecondsPerDay == 0)
    ensures r.Timestamp? <==> ParseDate(value).Some?
    ensures r.Timestamp? ==> r.seconds == EpochDay(ParseDate(value).value) * SecondsPerDay
  {
    match ParseDate(value)
    case Some(d) => WholeDays(EpochDay(d)); Timestamp(EpochDay(d) * SecondsPerDay)
    case None => Null
  }

  /** A whole number of days is a multiple of the day's length in seconds. */
  lemma WholeDays(days: int)
    ensures (days * SecondsPerDay) % SecondsPerDay == 0
  {
  }

  /** The cell of the amount column: the number left once `$` and `,` are
      removed, else Null. */
  function AmountCell(parse: NumberParser, value: string): (r: Cell)
    ensures r.Null? || r.Numeric?
    ensures r.Numeric? ==> parse(RemoveChars(value, AmountNoise)) == Some(r.number)
    ensures r.Null? ==> parse(RemoveChars(value, AmountNoise)).None?
  {
    match parse(RemoveChars(value, AmountNoise))
    case Some(x) => Numeric(x)
    case None => Null
  }

  /** The cell of a code column: always text; a number is rewritten as its
      integer part, anything else is kept as it is. */
  function CodeCell(parse: NumberParser, value: string): (r: Cell)
    ensures r.Str?
    ensures parse(value).None? ==> r.text == value
    ensures parse(value).Some? ==> r.text == IntToDecimal(Truncate(parse(value).value))
  {
    match parse(value)
    case Some(x) => Str(IntToDecimal(Truncate(x)))
    case None => Str(value)
  }

  /** The cell of the active flag: `yes` or `no` in any letter case, else
      Null. */
  function ActiveCell(value: string): (r: Cell)
    ensures r.Null? || r.Bool?
    ensures r == Bool(true) <==> Lower(value) == "yes"
    ensures r == Bool(false) <==> Lower(value) == "no"
  {
    if Lower(value) == "yes" then Bool(true)
    else if Lower(value) == "no" then Bool(false)
    else Null
  }

  /** `transform_value`: the cell a raw field becomes in a given column.
      Missing-data markers are Null in every column, before any rule runs. */
  function Transform(parse: NumberParser, column: string, value: string): (r: Cell)
    ensures IsMissing(value) ==> r == Null
    ensures !IsMissing(value) ==> r == RuleCell(parse, RuleOf(column), value)
  {
    TrimEmptyIffBlank(value);
    if |Trim(value)| == 0 || Lower(value) == "nan" then Null
    else RuleCell(parse, RuleOf(column), value)
  }

  /** The cell a rule makes of a field that is not a missing-data marker. */
  function RuleCell(parse: NumberParser, rule: Rule, value: string): Cell {
    match rule
    case DateTimeRule => DateTimeCell(value)
    case DateRule => DateCell(value)
    case AmountRule => AmountCell(parse, value)
    case CodeRule => CodeCell(parse, value)
    case ActiveRule => ActiveCell(value)
    case TextRule => Str(value)
  }

  // ---------------------------------------------------------------------
  // The rules, column by column

  /** Text that parses as a date or date-time is not a missing-data marker. */
  lemma ParsedIsNotMissing(value: string)
    requires ParseDate(value).Some? || ParseDateTime(value).Some?
    ensures !IsMissing(value)
  {
    assert !IsWhitespace(value[0]);
    assert |Lower(value)| != 3;
  }

  /** Date-time columns give the timestamp of a valid `YYYY-MM-DD HH:MM:SS`
      and Null for anything else, never an error. */
  lemma DateTimeColumnRule(parse: NumberParser, column: string, value: string)
    requires IsDateTimeColumn(column)
    ensures Transform(parse, column, value) ==
              match ParseDateTime(value)
              case Some(t) => Timestamp(EpochSeconds(t))
              case None => Null
  {
    if ParseDateTime(value).Some? {
      ParsedIsNotMissing(value);
    }
  }

  /** Date-only columns give the timestamp of midnight of a valid
      `YYYY-MM-DD`, a whole number of days, and Null for anything else. */
  lemma DateColumnRule(parse: NumberParser, column: string, value: string)
    requires IsDateColumn(column)
    ensures Transform(parse, column, value) ==
              match ParseDate(value)
              case Some(d) => Timestamp(EpochDay(d) * SecondsPerDay)
              case None => Null
    ensures Transform(parse, column, value).Timestamp? ==>
              Transform(parse, column, value).seconds % SecondsPerDay == 0
  {
    if ParseDate(value).Some? {
      ParsedIsNotMissing(value);
    }
  }

  /** The amount column holds the number left once every `$` and `,` is
      removed, and Null when that text is not a number. */
  lemma AmountColumnRule(parse: NumberParser, value: string)
    requires !IsMissing(value)
    ensures (Transform(parse, AmountColumn, value).Numeric?
             <==> parse(RemoveChars(value, AmountNoise)).Some?)
    ensures Transform(parse, AmountColumn, value).Numeric? ==>
              Some(Transform(parse, AmountColumn, value).number) == parse(RemoveChars(value, AmountNoise))
    ensures Transform(parse, AmountColumn, value).Null? || Transform(parse, AmountColumn, value).Numeric?
  {
  }

  /** Code columns always hold text once past the missing-data test; text
      that is not a number is kept unchanged, a number becomes the decimal
      digits of its integer part. */
  lemma CodeColumnRule(parse: NumberParser, column: string, value: string)
    requires IsCodeColumn(column) && !IsMissing(value)
    ensures Transform(parse, column, value).Str?
    ensures parse(value).None? ==> Transform(parse, column, value) == Str(value)
    ensures parse(value).Some? ==>
              Transform(parse, column, value) == Str(IntToDecimal(Truncate(parse(value).value)))
  {
  }

  /** A flag word is not a missing-data marker. */
  lemma FlagIsNotMissing(value: string)
    requires Lower(value) == "yes" || Lower(value) == "no"
    ensures !IsMissing(value)
  {
    assert LowerChar(value[0]) == Lower(value)[0];
    assert Lower(value)[0] != 'n' || Lower(value)[1] != 'a';
  }

  /** The active flag is true for `yes` and false for `no`, in any letter
      case, and Null for everything else. */
  lemma ActiveColumnRule(parse: NumberParser, value: string)
    ensures Transform(parse, ActiveColumn, value) == Bool(true) <==> Lower(value) == "yes"
    ensures Transform(parse, ActiveColumn, value) == Bool(false) <==> Lower(value) == "no"
    ensures Transform(parse, ActiveColumn, value).Null? <==>
              Lower(value) != "yes" && Lower(value) != "no"
  {
    assert RuleOf(ActiveColumn) == ActiveRule;
    if Lower(value) == "yes" || Lower(value) == "no" {
      FlagIsNotMissing(value);
    }
  }

  /** `yes` in any letter case, spelled out letter by letter. */
  lemma YesAnyCase(value: string)
    ensures Lower(value) == "yes" <==>
              && |value| == 3
              && (value[0] == 'y' || value[0] == 'Y')
              && (value[1] == 'e' || value[1] == 'E')
              && (value[2] == 's' || value[2] == 'S')
  {
    if |value| == 3 {
      assert Lower(value) == [LowerChar(value[0]), LowerChar(value[1]), LowerChar(value[2])];
    }
  }

  /** `no` in any letter case, spelled out letter by letter. */
  lemma NoAnyCase(value: string)
    ensures Lower(value) == "no" <==>
              && |value| == 2
              && (value[0] == 'n' || value[0] == 'N')
              && (value[1] == 'o' || value[1] == 'O')
  {
    if |value| == 2 {
      assert Lower(value) == [LowerChar(value[0]), LowerChar(value[1])];
    }
  }

  /** `nan` in any letter case, spelled out letter by letter. */
  lemma NanAnyCase(value: string)
    ensures Lower(value) == "nan" <==>
              && |value| == 3
              && (value[0] == 'n' || value[0] == 'N')
              && (value[1] == 'a' || value[1] == 'A')
              && (value[2] == 'n' || value[2] == 'N')
  {
    if |value| == 3 {
      assert Lower(value) == [LowerChar(value[0]), LowerChar(value[1]), LowerChar(value[2])];
    }
  }

  /** The missing-data markers without reference to lower-casing: blank
      text, or exactly the three letters of `nan` in any case. */
  lemma MissingByLetters(value: string)
    ensures IsMissing(value) <==>
              || (forall i :: 0 <= i < |value| ==> IsWhitespace(value[i]))
              || (&& |value| == 3
                  && (value[0] == 'n' || value[0] == 'N')
                  && (value[1] == 'a' || value[1] == 'A')
                  && (value[2] == 'n' || value[2] == 'N'))
  {
    NanAnyCase(value);
  }

  /** The active flag without reference to lower-casing: true for the
      three letters of `yes` in any case, false for the two letters of `no`
      in any case, Null for every other text. */
  lemma ActiveByLetters(parse: NumberParser, value: string)
    ensures Transform(parse, ActiveColumn, value) == Bool(true) <==>
              && |value| == 3
              && (value[0] == 'y' || value[0] == 'Y')
              && (value[1] == 'e' || value[1] == 'E')
              && (value[2] == 's' || value[2] == 'S')
    ensures Transform(parse, ActiveColumn, value) == Bool(false) <==>
              && |value| == 2
              && (value[0] == 'n' || value[0] == 'N')
              && (value[1] == 'o' || value[1] == 'O')
  {
    ActiveColumnRule(parse, value);
    YesAnyCase(value);
    NoAnyCase(value);
  }

  /** A column without a rule of its own holds the raw text unchanged,
      inner and outer whitespace included. */
  lemma DefaultColumnRule(parse: NumberParser, column: string, value: string)
    requires RuleOf(column) == TextRule && !IsMissing(value)
    ensures Transform(parse, column, value) == Str(value)
  {
  }

  // ---------------------------------------------------------------------
  // Worked examples

  /** Text with a non-whitespace character that cannot be read as `nan`
      (its length is not three, or it does not start with `n` or `N`) is
      not a missing-data marker. */
  lemma NotMissingWith(value: string, k: nat)
    requires k < |value| && !IsWhitespace(value[k])
    requires |value| != 3 || LowerChar(value[0]) != 'n'
    ensures !IsMissing(value)
  {
    if |value| == 3 {
      assert Lower(value)[0] == LowerChar(value[0]);
    }
  }

  /** The `nan` marker is compared without trimming: ` nan` stays text. */
  lemma PaddedNanIsText(parse: NumberParser)
    ensures Transform(parse, "title", " nan") == Str(" nan")
  {
    NotMissingWith(" nan", 1);
    assert RuleOf("title") == TextRule;
    DefaultColumnRule(parse, "title", " nan");
  }

  /** `NaN` in any letter case and blank text are Null in every column. */
  lemma MarkersAreNull(parse: NumberParser, column: string)
    ensures Transform(parse, column, "") == Null
    ensures Transform(parse, column, "  ") == Null
    ensures Transform(parse, column, "NaN") == Null
  {
    assert Lower("NaN") == "nan";
  }

  /** Every valid date-time in the four-digit-year range, written as
      `YYYY-MM-DD HH:MM:SS`, becomes its epoch seconds in a date-time
      column. */
  lemma DateTimeColumnRoundTrip(parse: NumberParser, column: string, t: DateTime)
    requires IsDateTimeColumn(column) && ValidDateTime(t) && Writable(t.date)
    ensures Transform(parse, column, FormatDateTime(t)) == Timestamp(EpochSeconds(t))
  {
    ParseFormatDateTime(t);
    DateTimeColumnRule(parse, column, FormatDateTime(t));
  }

  /** Every valid date in the four-digit-year range, written as
      `YYYY-MM-DD`, becomes the epoch seconds of its midnight in a date-only
      column. */
  lemma DateColumnRoundTrip(parse: NumberParser, column: string, d: Date)
    requires IsDateColumn(column) && Writable(d)
    ensures Transform(parse, column, FormatDate(d)) == Timestamp(EpochDay(d) * SecondsPerDay)
  {
    ParseFormatDate(d);
    DateColumnRule(parse, column, FormatDate(d));
  }

  /** 2023-05-01 12:30:00 is 1682944200 seconds after the epoch. */
  lemma PostedDateExample()
    ensures EpochSeconds(DateTime(Date(2023, 5, 1), 12, 30, 0)) == 1682944200
  {
    assert DaysBeforeMonth(2023, 5) == 120 by {
      assert DaysBeforeMonth(2023, 3) == 59;
    }
  }

  /** Digits and the decimal point are kept. */
  lemma AmountDigitsKept()
    ensures RemoveChars("234.50", AmountNoise) == "234.50"
  {
  }

  /** The thousands separator is removed. */
  lemma AmountSeparatorRemoved()
    ensures RemoveChars("1,234.50", AmountNoise) == "1234.50"
  {
    AmountDigitsKept();
    assert "1,234.50"[1..] == ",234.50";
    assert ",234.50"[1..] == "234.50";
  }

  /** `$` and `,` are removed wherever they stand. */
  lemma AmountNoiseExample()
    ensures RemoveChars("$1,234.50", AmountNoise) == "1234.50"
  {
    AmountSeparatorRemoved();
    assert "$1,234.50"[1..] == "1,234.50";
  }

  /** `$1,234.50` is read as the number `1234.50` once the currency marks
      are removed. */
  lemma AmountExample(parse: NumberParser)
    requires parse("1234.50") == Some(1234.50)
    ensures Transform(parse, AmountColumn, "$1,234.50") == Numeric(1234.50)
  {
    AmountNoiseExample();
    assert !IsWhitespace("$1,234.50"[0]);
    assert |Lower("$1,234.50")| == 9;
    assert RuleOf(AmountColumn) == AmountRule;
  }

  lemma DecimalExample()
    ensures IntToDecimal(541511) == "541511"
  {
    assert NatToDecimal(5) == "5";
    assert NatToDecimal(54) == "54";
    assert NatToDecimal(541) == "541";
    assert NatToDecimal(5415) == "5415";
    assert NatToDecimal(54151) == "54151";
  }

  /** A code read as `541511.0` is rewritten as `541511`. */
  lemma CodeExample(parse: NumberParser)
    requires parse("541511.0") == Some(541511.0)
    ensures Transform(parse, "naics_code", "541511.0") == Str("541511")
  {
    DecimalExample();
    assert Truncate(541511.0) == 541511;
    NotMissingWith("541511.0", 0);
    assert IsCodeColumn("naics_code");
    CodeColumnRule(parse, "naics_code", "541511.0");
  }

  /** A code that is not a number, such as `ABC`, is kept as it is. */
  lemma CodeTextExample(parse: NumberParser)
    requires parse("ABC").None?
    ensures Transform(parse, "naics_code", "ABC") == Str("ABC")
  {
    NotMissingWith("ABC", 0);
    assert IsCodeColumn("naics_code");
    CodeColumnRule(parse, "naics_code", "ABC");
  }

  /** `Yes` is true; `Y` is not a recognised flag. */
  lemma ActiveExample(parse: NumberParser)
    ensures Transform(parse, ActiveColumn, "Yes") == Bool(true)
    ensures Transform(parse, ActiveColumn, "Y") == Null
  {
    assert Lower("Yes") == "yes";
    ActiveColumnRule(parse, "Yes");
    ActiveColumnRule(parse, "Y");
  }
}
