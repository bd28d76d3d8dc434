/** The strict textual forms the date columns are parsed from: chrono's
    `%Y-%m-%d %H:%M:%S` and `%Y-%m-%d`, restricted here to a four-digit
    year and two-digit month, day, hour, minute and second. */
module DateFormat {
  import opened Wrappers
  import opened Text
  import opened Calendar

  function Pow10(w: nat): (p: nat)
    ensures p >= 1
  {
    if w == 0 then 1 else 10 * Pow10(w - 1)
  }

  predicate AllDigits(s: string) {
    forall i :: 0 <= i < |s| ==> IsDigit(s[i])
  }

  /** `n` written with exactly `w` decimal digits (zero-padded on the left). */
  function Pad(n: nat, w: nat): (r: string)
    requires n < Pow10(w)
    ensures |r| == w && AllDigits(r)
    ensures NatValue(r) == n
  {
    if w == 0 then ""
    else
      var r := Pad(n / 10, w - 1) + [DigitChar(n % 10)];
      assert r[..|r| - 1] == Pad(n / 10, w - 1);
      r
  }

  /** Padding the value of a digit string gives back the digit string. */
  lemma {:induction false} PadOfValue(s: string)
    requires AllDigits(s)
    ensures NatValue(s) < Pow10(|s|) && Pad(NatValue(s), |s|) == s
  {
    if |s| > 0 {
      var init := s[..|s| - 1];
      PadOfValue(init);
      assert NatValue(s) / 10 == NatValue(init);
      assert NatValue(s) % 10 == DigitValue(s[|s| - 1]);
    }
  }

  /** The value of the digits `s[i..j]`. */
  function Field(s: string, i: nat, j: nat): (n: nat)
    requires i <= j <= |s| && AllDigits(s[i..j])
  {
    NatValue(s[i..j])
  }

  /** `s` has the shape `DDDD-DD-DD`. */
  predicate DateShaped(s: string) {
    |s| >= 10 && AllDigits(s[0..4]) && s[4] == '-' && AllDigits(s[5..7])
    && s[7] == '-' && AllDigits(s[8..10])
  }

  /** `s` has the shape `DDDD-DD-DD DD:DD:DD`. */
  predicate DateTimeShaped(s: string) {
    |s| == 19 && DateShaped(s) && s[10] == ' ' && AllDigits(s[11..13]) && s[13] == ':'
    && AllDigits(s[14..16]) && s[16] == ':' && AllDigits(s[17..19])
  }

  function DateFields(s: string): Date
    requires DateShaped(s)
  {
    Date(Field(s, 0, 4), Field(s, 5, 7), Field(s, 8, 10))
  }

  /** Parse `%Y-%m-%d`: the whole text must be a well-formed, existing date. */
  function ParseDate(s: string): (r: Option<Date>)
    ensures r.Some? <==> |s| == 10 && DateShaped(s) && ValidDate(DateFields(s))
    ensures r.Some? ==> r.value == DateFields(s)
  {
    if |s| == 10 && DateShaped(s) && ValidDate(DateFields(s)) then Some(DateFields(s))
    else None
  }

  function DateTimeFields(s: string): DateTime
    requires DateTimeShaped(s)
  {
    DateTime(DateFields(s), Field(s, 11, 13), Field(s, 14, 16), Field(s, 17, 19))
  }

  /** Parse `%Y-%m-%d %H:%M:%S`: the whole text must be a well-formed date
      followed by a valid time of day. */
  function ParseDateTime(s: string): (r: Option<DateTime>)
    ensures r.Some? <==> DateTimeShaped(s) && ValidDateTime(DateTimeFields(s))
    ensures r.Some? ==> r.value == DateTimeFields(s)
  {
    if DateTimeShaped(s) && ValidDateTime(DateTimeFields(s)) then Some(DateTimeFields(s))
    else None
  }

  /** A year the four-digit form can write. */
  predicate Writable(d: Date) {
    ValidDate(d) && 0 <= d.year <= 9999
  }

  /** The `%Y-%m-%d` text of a date. */
  function FormatDate(d: Date): (s: string)
    requires Writable(d)
    ensures |s| == 10
  {
    Pad(d.year, 4) + "-" + Pad(d.month, 2) + "-" + Pad(d.day, 2)
  }

  /** The `%Y-%m-%d %H:%M:%S` text of a date-time. */
  function FormatDateTime(t: DateTime): (s: string)
    requires ValidDateTime(t) && Writable(t.date)
    ensures |s| == 19
  {
    FormatDate(t.date) + " " + Pad(t.hour, 2) + ":" + Pad(t.minute, 2) + ":" + Pad(t.second, 2)
  }

  lemma FormatDateFields(d: Date)
    requires Writable(d)
    ensures DateShaped(FormatDate(d)) && DateFields(FormatDate(d)) == d
  {
    var s := FormatDate(d);
    assert s[0..4] == Pad(d.year, 4);
    assert s[5..7] == Pad(d.month, 2);
    assert s[8..10] == Pad(d.day, 2);
  }

  /** Parsing a formatted date gives the date back. */
  lemma ParseFormatDate(d: Date)
    requires Writable(d)
    ensures ParseDate(FormatDate(d)) == Some(d)
  {
    FormatDateFields(d);
  }

  /** A parsed date formats back to exactly the text it came from: the
      accepted texts are the canonical ones. */
  lemma FormatParseDate(s: string)
    requires ParseDate(s).Some?
    ensures Writable(ParseDate(s).value) && FormatDate(ParseDate(s).value) == s
  {
    PadOfValue(s[0..4]);
    PadOfValue(s[5..7]);
    PadOfValue(s[8..10]);
    assert s == s[0..4] + "-" + s[5..7] + "-" + s[8..10];
  }

  /** Parsing a formatted date-time gives the date-time back. */
  lemma ParseFormatDateTime(t: DateTime)
    requires ValidDateTime(t) && Writable(t.date)
    ensures ParseDateTime(FormatDateTime(t)) == Some(t)
  {
    var s := FormatDateTime(t);
    FormatDateFields(t.date);
    assert s[..10] == FormatDate(t.date);
    assert s[0..4] == FormatDate(t.date)[0..4];
    assert s[5..7] == FormatDate(t.date)[5..7];
    assert s[8..10] == FormatDate(t.date)[8..10];
    assert s[11..13] == Pad(t.hour, 2);
    assert s[14..16] == Pad(t.minute, 2);
    assert s[17..19] == Pad(t.second, 2);
  }

  /** A parsed date-time formats back to exactly the text it came from. */
  lemma FormatParseDateTime(s: string)
    requires ParseDateTime(s).Some?
    ensures Writable(ParseDateTime(s).value.date) && FormatDateTime(ParseDateTime(s).value) == s
  {
    PadOfValue(s[0..4]);
    PadOfValue(s[5..7]);
    PadOfValue(s[8..10]);
    PadOfValue(s[11..13]);
    PadOfValue(s[14..16]);
    PadOfValue(s[17..19]);
    assert s == s[0..4] + "-" + s[5..7] + "-" + s[8..10] + " " + s[11..13] + ":" + s[14..16] + ":" + s[17..19];
  }
}
