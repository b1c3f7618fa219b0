/**
 * The backend's field validators for members and events. Each one either
 * rejects the value with a message (`Err`) or returns the value to store
 * (`Ok`), possibly stripped of surrounding whitespace.
 */
module Serializers {
  import opened Wrappers
  import opened Text

  // ---------------------------------------------------------------------------
  // Member fields

  const NameEmpty := "Name cannot be empty"
  const NameTooShort := "Name must be at least 2 characters long"
  const LinkedInInvalid := "LinkedIn must be a valid URL"

  /** `validate_name` as written: the length test looks at the unstripped value. */
  function ValidateName(value: string): (r: Result<string, string>)
    ensures r == Err(NameEmpty) <==> AllWhitespace(value)
    ensures r == Err(NameTooShort) <==> !AllWhitespace(value) && |value| < 2
    ensures r.Ok? <==> !AllWhitespace(value) && |value| >= 2
    ensures r.Ok? ==> r.value == Trim(value) && r.value != "" && |value| >= 2
  {
    TrimEmptyIff(value);
    if Trim(value) == "" then Err(NameEmpty)
    else if |value| < 2 then Err(NameTooShort)
    else Ok(Trim(value))
  }

  /** Called directly (not behind a whitespace-trimming serializer field), a one-letter name padded with spaces passes and is stored as one letter. */
  lemma ValidateNameShortStripped()
    ensures ValidateName(" a ") == Ok("a") && |"a"| < 2
  {
    assert Trim(" a ") == "a" by {
      assert " a "[1..] == "a ";
      assert TrimStart(" a ") == TrimStart("a ") == "a ";
      assert "a "[..1] == "a";
      assert TrimEnd("a ") == TrimEnd("a") == "a";
    }
  }

  /** `validate_name` with the length test on the stored (stripped) value. */
  function ValidateNameStripped(value: string): (r: Result<string, string>)
    ensures r == Err(NameEmpty) <==> AllWhitespace(value)
    ensures r.Ok? <==> |Trim(value)| >= 2
    ensures r.Ok? ==> r.value == Trim(value)
  {
    TrimEmptyIff(value);
    if Trim(value) == "" then Err(NameEmpty)
    else if |Trim(value)| < 2 then Err(NameTooShort)
    else Ok(Trim(value))
  }

  /** A name that strips to two characters or more is stored stripped, keeps at least two characters and validates again unchanged. */
  lemma ValidateNameStrippedStored(value: string)
    requires |Trim(value)| >= 2
    ensures var v := ValidateNameStripped(value).value;
      |v| >= 2 && Trim(v) == v && ValidateNameStripped(v) == Ok(v)
  {
    var v := Trim(value);
    assert ValidateNameStripped(value) == Ok(v);
    assert Trim(v) == v by { TrimIdempotent(value); }
    assert ValidateNameStripped(v) == Ok(v);
  }

  /** The two validators agree except on padded names whose stripped length is below two. */
  lemma ValidateNameAgreement(value: string)
    ensures ValidateName(value) != ValidateNameStripped(value) <==> |value| >= 2 && |Trim(value)| == 1
  {
    TrimEmptyIff(value);
  }

  /** `'http://'` or `'https://'` at the start. */
  predicate IsHttpUrl(value: string) {
    IsPrefix("http://", value) || IsPrefix("https://", value)
  }

  /** `validate_linkedIn`: an empty or missing value passes; any other must be an http(s) URL. It is returned unchanged. */
  function ValidateLinkedIn(value: Option<string>): (r: Result<Option<string>, string>)
    ensures r.Ok? <==> value.None? || value.value == "" || IsHttpUrl(value.value)
    ensures r.Ok? ==> r.value == value
    ensures r.Err? ==> r.error == LinkedInInvalid
  {
    if value.Some? && value.value != "" && !IsHttpUrl(value.value) then Err(LinkedInInvalid) else Ok(value)
  }

  // ---------------------------------------------------------------------------
  // Event fields

  const TitleEmpty := "Title cannot be empty"
  const TitleTooShort := "Title must be at least 3 characters long"
  const EventTypeRequired := "Event type is required"
  const EventTypeInvalid := "Event type must be one of: club, recruiting, featured"
  const DateInvalid := "Date must be in YYYY-MM-DD format"

  const ValidEventTypes := ["club", "recruiting", "featured"]

  /** `validate_title` as written: the length test looks at the unstripped value. */
  function ValidateTitle(value: string): (r: Result<string, string>)
    ensures r == Err(TitleEmpty) <==> AllWhitespace(value)
    ensures r == Err(TitleTooShort) <==> !AllWhitespace(value) && |value| < 3
    ensures r.Ok? <==> !AllWhitespace(value) && |value| >= 3
    ensures r.Ok? ==> r.value == Trim(value) && r.value != "" && |value| >= 3
  {
    TrimEmptyIff(value);
    if Trim(value) == "" then Err(TitleEmpty)
    else if |value| < 3 then Err(TitleTooShort)
    else Ok(Trim(value))
  }

  /** Called directly (not behind a whitespace-trimming serializer field), a two-letter title padded with spaces passes and is stored as two letters. */
  lemma ValidateTitleShortStripped()
    ensures ValidateTitle(" ab ") == Ok("ab") && |"ab"| < 3
  {
    assert Trim(" ab ") == "ab" by {
      assert " ab "[1..] == "ab ";
      assert TrimStart(" ab ") == TrimStart("ab ") == "ab ";
      assert "ab "[..2] == "ab";
      assert TrimEnd("ab ") == TrimEnd("ab") == "ab";
    }
  }

  /** `validate_title` with the length test on the stored (stripped) value. */
  function ValidateTitleStripped(value: string): (r: Result<string, string>)
    ensures r == Err(TitleEmpty) <==> AllWhitespace(value)
    ensures r.Ok? <==> |Trim(value)| >= 3
    ensures r.Ok? ==> r.value == Trim(value)
  {
    TrimEmptyIff(value);
    if Trim(value) == "" then Err(TitleEmpty)
    else if |Trim(value)| < 3 then Err(TitleTooShort)
    else Ok(Trim(value))
  }

  /** A title that strips to three characters or more is stored stripped, keeps at least three characters and validates again unchanged. */
  lemma ValidateTitleStrippedStored(value: string)
    requires |Trim(value)| >= 3
    ensures var v := ValidateTitleStripped(value).value;
      |v| >= 3 && Trim(v) == v && ValidateTitleStripped(v) == Ok(v)
  {
    var v := Trim(value);
    assert ValidateTitleStripped(value) == Ok(v);
    assert Trim(v) == v by { TrimIdempotent(value); }
    assert ValidateTitleStripped(v) == Ok(v);
  }

  /** `validate_event_type`: the stripped value must be one of the three types, and is what is stored. */
  function ValidateEventType(value: string): (r: Result<string, string>)
    ensures r == Err(EventTypeRequired) <==> AllWhitespace(value)
    ensures r.Ok? <==> Trim(value) in ValidEventTypes
    ensures r.Ok? ==> r.value == Trim(value)
  {
    TrimEmptyIff(value);
    if value == "" || Trim(value) == "" then Err(EventTypeRequired)
    else if Trim(value) !in ValidEventTypes then Err(EventTypeInvalid)
    else Ok(Trim(value))
  }

  /** An accepted event type is accepted again as itself. */
  lemma ValidateEventTypeIdempotent(value: string)
    requires Trim(value) in ValidEventTypes
    ensures ValidateEventType(ValidateEventType(value).value) == ValidateEventType(value)
  {
    TrimIdempotent(value);
  }

  /** `value.strip() if value else ""`, shared by `validate_description` and `validate_location`. */
  function StripOrEmpty(value: Option<string>): (r: string)
    ensures value.None? ==> r == ""
    ensures value.Some? ==> r == Trim(value.value)
    ensures r == [] || (!IsWhitespace(r[0]) && !IsWhitespace(r[|r| - 1]))
  {
    if value.Some? && value.value != "" then Trim(value.value) else ""
  }

  /** `validate_description`: never rejects; a missing description is stored as the empty string. */
  function ValidateDescription(value: Option<string>): (r: Result<string, string>)
    ensures r.Ok? && r.value == StripOrEmpty(value)
  {
    Ok(StripOrEmpty(value))
  }

  /** `validate_location`: never rejects; a missing location is stored as the empty string. */
  function ValidateLocation(value: Option<string>): (r: Result<string, string>)
    ensures r.Ok? && r.value == StripOrEmpty(value)
  {
    Ok(StripOrEmpty(value))
  }

  /** Stripping a stored description or location again changes nothing. */
  lemma StripOrEmptyIdempotent(value: Option<string>)
    ensures StripOrEmpty(Some(StripOrEmpty(value))) == StripOrEmpty(value)
  {
    if value.Some? {
      TrimIdempotent(value.value);
    }
  }

  // ---------------------------------------------------------------------------
  // Dates: `datetime.strptime(value, '%Y-%m-%d')`

  /** A month as the `%m` pattern accepts it: `1[0-2]`, `0[1-9]` or `[1-9]`. */
  predicate MonthText(m: string) {
    || (|m| == 2 && m[0] == '1' && '0' <= m[1] <= '2')
    || (|m| == 2 && m[0] == '0' && '1' <= m[1] <= '9')
    || (|m| == 1 && '1' <= m[0] <= '9')
  }

  /** A day as the `%d` pattern accepts it: `3[01]`, `[12]\d`, `0[1-9]`, `[1-9]` or a space and `[1-9]`. */
  predicate DayText(d: string) {
    || (|d| == 2 && d[0] == '3' && '0' <= d[1] <= '1')
    || (|d| == 2 && '1' <= d[0] <= '2' && IsDigit(d[1]))
    || (|d| == 2 && d[0] == '0' && '1' <= d[1] <= '9')
    || (|d| == 1 && '1' <= d[0] <= '9')
    || (|d| == 2 && d[0] == ' ' && '1' <= d[1] <= '9')
  }

  function DigitValue(c: char): int {
    c as int - '0' as int
  }

  /** The number a day or month field spells (a leading space counts as nothing). */
  function FieldValue(s: string): (n: int)
    requires MonthText(s) || DayText(s)
    ensures 1 <= n <= 31
  {
    if |s| == 1 then DigitValue(s[0])
    else if s[0] == ' ' then DigitValue(s[1])
    else DigitValue(s[0]) * 10 + DigitValue(s[1])
  }

  predicate IsLeapYear(y: int) {
    y % 4 == 0 && (y % 100 != 0 || y % 400 == 0)
  }

  function DaysInMonth(y: int, m: int): (n: int)
    requires 1 <= m <= 12
    ensures 28 <= n <= 31
  {
    if m == 2 then (if IsLeapYear(y) then 29 else 28)
    else if m == 4 || m == 6 || m == 9 || m == 11 then 30
    else 31
  }

  datatype Date = Date(year: int, month: int, day: int)

  /** A real calendar date that `date` can represent (years 1 to 9999). */
  predicate IsCalendarDate(d: Date) {
    1 <= d.year <= 9999 && 1 <= d.month <= 12 && 1 <= d.day <= DaysInMonth(d.year, d.month)
  }

  /**
   * The fields the `%Y-%m-%d` pattern matches: four digits, `-`, a month, `-`,
   * and a day that ends the string (anything left over is an error).
   */
  function ParseDateFields(s: string): (r: Option<Date>)
    ensures r.Some? ==> 1 <= r.value.month <= 12 && 1 <= r.value.day <= 31 && 0 <= r.value.year
  {
    if |s| < 8 || !AllDigits(s[..4]) || s[4] != '-' then None
    else
      var rest := s[5..];
      var monthLen := if |rest| >= 2 && rest[1] == '-' then 1 else 2;
      if |rest| < monthLen + 1 || rest[monthLen] != '-' || !MonthText(rest[..monthLen]) then None
      else
        var day := rest[monthLen + 1..];
        if !DayText(day) then None
        else Some(Date(DecimalValue(s[..4]), FieldValue(rest[..monthLen]), FieldValue(day)))
  }

  /** `strptime` succeeds when the pattern matches the whole string and the fields form a calendar date. */
  function ParseDate(s: string): (r: Option<Date>)
    ensures r.Some? ==> IsCalendarDate(r.value)
  {
    match ParseDateFields(s)
    case Some(d) => if IsCalendarDate(d) then Some(d) else None
    case None => None
  }

  /** What reaches `validate_date`: nothing, a string, or a value of another type (a parsed date). */
  datatype DateValue = NoDate | DateText(text: string) | OtherValue

  /** `validate_date`: a non-empty string must parse; everything else passes unchanged. */
  function ValidateDate(value: DateValue): (r: Result<DateValue, string>)
    ensures r.Ok? ==> r.value == value
    ensures r.Err? <==> value.DateText? && value.text != "" && ParseDate(value.text).None?
    ensures r.Err? ==> r.error == DateInvalid
  {
    if value.DateText? && value.text != "" && ParseDate(value.text).None? then Err(DateInvalid) else Ok(value)
  }

  function DigitChar(n: int): (c: char)
    requires 0 <= n <= 9
    ensures IsDigit(c) && DigitValue(c) == n
  {
    ('0' as int + n) as char
  }

  function Pow10(w: nat): (p: nat)
    ensures p >= 1
  {
    if w == 0 then 1 else 10 * Pow10(w - 1)
  }

  /** `n` written with exactly `w` digits, zero-padded on the left. */
  function PadDigits(n: nat, w: nat): (s: string)
    ensures |s| == w && AllDigits(s)
  {
    if w == 0 then [] else PadDigits(n / 10, w - 1) + [DigitChar(n % 10)]
  }

  /** A number below `10^w`, padded to `w` digits, reads back as itself. */
  lemma {:induction false} PadDigitsValue(n: nat, w: nat)
    requires n < Pow10(w)
    ensures DecimalValue(PadDigits(n, w)) == n
  {
    if w > 0 {
      var s := PadDigits(n, w);
      PadDigitsValue(n / 10, w - 1);
      assert s[..|s| - 1] == PadDigits(n / 10, w - 1);
    }
  }

  /** Two padded digits are the tens and the units. */
  lemma TwoDigits(n: nat)
    requires n < 100
    ensures PadDigits(n, 2) == [DigitChar(n / 10), DigitChar(n % 10)]
  {
    assert PadDigits(n / 10, 1) == PadDigits(n / 100, 0) + [DigitChar(n / 10 % 10)];
  }

  /** A date written out as `YYYY-MM-DD` with zero padding. */
  function FormatDate(d: Date): (s: string)
    requires IsCalendarDate(d)
    ensures |s| == 10 && s[4] == '-' && s[7] == '-'
  {
    PadDigits(d.year, 4) + "-" + PadDigits(d.month, 2) + "-" + PadDigits(d.day, 2)
  }

  /** Every calendar date, written as `YYYY-MM-DD`, is accepted and read back as itself. */
  lemma FormatDateRoundTrip(d: Date)
    requires IsCalendarDate(d)
    ensures ParseDate(FormatDate(d)) == Some(d)
    ensures ValidateDate(DateText(FormatDate(d))) == Ok(DateText(FormatDate(d)))
  {
    var s := FormatDate(d);
    assert s[..4] == PadDigits(d.year, 4);
    PadDigitsValue(d.year, 4);
    var rest := s[5..];
    var mm := PadDigits(d.month, 2);
    var dd := PadDigits(d.day, 2);
    assert rest == mm + "-" + dd;
    TwoDigits(d.month);
    TwoDigits(d.day);
    assert rest[..2] == mm && rest[3..] == dd;
  }

  lemma YearValue(s: string, y: nat)
    requires y < 10000 && s == PadDigits(y, 4)
    ensures DecimalValue(s) == y
  {
    PadDigitsValue(y, 4);
  }

  /** The pattern is looser than `YYYY-MM-DD`: single-digit months and days, and a space-padded day, pass. */
  lemma LooseDatesAccepted()
    ensures ParseDate("2024-1-5") == Some(Date(2024, 1, 5))
    ensures ParseDate("2024-01- 5") == Some(Date(2024, 1, 5))
  {
    YearValue("2024", 2024);
    assert "2024-1-5"[..4] == "2024" && "2024-01- 5"[..4] == "2024";
    assert "2024-1-5"[5..][..1] == "1" && "2024-1-5"[5..][2..] == "5";
    assert "2024-01- 5"[5..][..2] == "01" && "2024-01- 5"[5..][3..] == " 5";
  }

  /** Days beyond the month's length are rejected, with leap years taken into account. */
  lemma NoFebruary29In2023()
    ensures ParseDate("2023-02-29").None?
  {
    YearValue("2023", 2023);
    assert "2023-02-29"[..4] == "2023";
    assert "2023-02-29"[5..][..2] == "02" && "2023-02-29"[5..][3..] == "29";
  }

  lemma February29In2024()
    ensures ParseDate("2024-02-29") == Some(Date(2024, 2, 29))
  {
    YearValue("2024", 2024);
    assert "2024-02-29"[..4] == "2024";
    assert "2024-02-29"[5..][..2] == "02" && "2024-02-29"[5..][3..] == "29";
  }

  /** Year zero matches the pattern but is not a date. */
  lemma NoYearZero()
    ensures ParseDate("0000-01-01").None?
  {
    YearValue("0000", 0);
    assert "0000-01-01"[..4] == "0000";
    assert "0000-01-01"[5..][..2] == "01" && "0000-01-01"[5..][3..] == "01";
  }
}
