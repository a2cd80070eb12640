/**
 * The block timestamp: a Python `datetime` value, its text form `str(t)`
 * (used both in the block hash and in the saved record) and the parse that
 * loading applies to that text.
 */
module DateTimes {
  import opened Wrappers
  import opened Decimal

  datatype DateTime = DateTime(
    year: nat, month: nat, day: nat,
    hour: nat, minute: nat, second: nat, microsecond: nat)

  predicate IsLeapYear(year: nat) {
    year % 4 == 0 && (year % 100 != 0 || year % 400 == 0)
  }

  function DaysInMonth(year: nat, month: nat): (days: nat)
    requires 1 <= month <= 12
    ensures 28 <= days <= 31
  {
    if month == 2 then (if IsLeapYear(year) then 29 else 28)
    else if month == 4 || month == 6 || month == 9 || month == 11 then 30
    else 31
  }

  /** The field ranges a Python `datetime` accepts (its constructor raises otherwise). */
  predicate Valid(t: DateTime) {
    1 <= t.year <= 9999 && 1 <= t.month <= 12 && 1 <= t.day <= DaysInMonth(t.year, t.month)
    && t.hour < 24 && t.minute < 60 && t.second < 60 && t.microsecond < 1000000
  }

  type Timestamp = t: DateTime | Valid(t) witness DateTime(1, 1, 1, 0, 0, 0, 0)

  /** `YYYY-MM-DD HH:MM:SS`, the part of `str(t)` that is always present. */
  function WholeSecondText(t: Timestamp): (s: string)
    ensures |s| == 19
  {
    Padded(t.year, 4) + "-" + Padded(t.month, 2) + "-" + Padded(t.day, 2) + " "
    + Padded(t.hour, 2) + ":" + Padded(t.minute, 2) + ":" + Padded(t.second, 2)
  }

  /** Python's `str(t)`: the fraction `.ffffff` is written only when it is not zero. */
  function Render(t: Timestamp): (s: string)
    ensures |s| == (if t.microsecond == 0 then 19 else 26)
    ensures s[..19] == WholeSecondText(t)
    ensures t.microsecond != 0 ==> s[19] == '.'
  {
    WholeSecondText(t) + (if t.microsecond != 0 then "." + Padded(t.microsecond, 6) else "")
  }

  /** The six fields of `YYYY-MM-DD HH:MM:SS`, each of fixed width; microsecond left 0. */
  function Fields(h: string): Option<DateTime>
    requires |h| == 19
  {
    if h[4] == '-' && h[7] == '-' && h[10] == ' ' && h[13] == ':' && h[16] == ':'
       && AllDigits(h[0..4]) && AllDigits(h[5..7]) && AllDigits(h[8..10])
       && AllDigits(h[11..13]) && AllDigits(h[14..16]) && AllDigits(h[17..19])
    then Some(DateTime(Value(h[0..4]), Value(h[5..7]), Value(h[8..10]),
                       Value(h[11..13]), Value(h[14..16]), Value(h[17..19]), 0))
    else None
  }

  /**
   * `datetime.strptime(s, '%Y-%m-%d %H:%M:%S.%f')`, the parse the loader
   * applies: the fraction must be present, with 1 to 6 digits, and is read
   * as if padded on the right with zeros. `None` stands for the ValueError.
   */
  function ParseStrict(s: string): (r: Option<Timestamp>)
    ensures r.Some? ==> 21 <= |s| <= 26 && s[19] == '.' && AllDigits(s[20..])
    ensures r.Some? ==> ParseWholeSecond(s[..19]) == Some(r.value.(microsecond := 0))
  {
    if 21 <= |s| <= 26 && s[19] == '.' && AllDigits(s[20..]) then
      match Fields(s[..19])
      case None => None
      case Some(f) =>
        var t := f.(microsecond := Value(s[20..]) * Pow10(26 - |s|));
        if Valid(t) then Some(t) else None
    else None
  }

  /** `datetime.strptime(s, '%Y-%m-%d %H:%M:%S')`: no fraction at all. */
  function ParseWholeSecond(s: string): (r: Option<Timestamp>)
    ensures r.Some? ==> |s| == 19 && r.value.microsecond == 0
  {
    if |s| == 19 then
      match Fields(s)
      case None => None
      case Some(t) => if Valid(t) then Some(t) else None
    else None
  }

  /**
   * The parse loading needs: the loader's own format first and, when that
   * fails, the same format without the fraction, which is how `str(t)`
   * writes a whole second.
   */
  function Parse(s: string): (r: Option<Timestamp>)
    ensures r.Some? <==> ParseStrict(s).Some? || ParseWholeSecond(s).Some?
    ensures ParseStrict(s).Some? ==> r == ParseStrict(s) && ParseWholeSecond(s).None?
    ensures r.Some? && ParseStrict(s).None? ==> |s| == 19 && r.value.microsecond == 0
  {
    match ParseStrict(s)
    case Some(t) => Some(t)
    case None => ParseWholeSecond(s)
  }

  lemma FieldsOfWholeSecondText(t: Timestamp)
    ensures Fields(WholeSecondText(t)) == Some(t.(microsecond := 0))
  {
    var h := WholeSecondText(t);
    assert h[0..4] == Padded(t.year, 4);
    assert h[5..7] == Padded(t.month, 2);
    assert h[8..10] == Padded(t.day, 2);
    assert h[11..13] == Padded(t.hour, 2);
    assert h[14..16] == Padded(t.minute, 2);
    assert h[17..19] == Padded(t.second, 2);
    ValueOfPadded(t.year, 4);
    ValueOfPadded(t.month, 2);
    ValueOfPadded(t.day, 2);
    ValueOfPadded(t.hour, 2);
    ValueOfPadded(t.minute, 2);
    ValueOfPadded(t.second, 2);
  }

  /** The strict parse is the inverse of `str(t)` whenever the fraction is written. */
  lemma StrictParseInvertsRender(t: Timestamp)
    requires t.microsecond != 0
    ensures ParseStrict(Render(t)) == Some(t)
  {
    var head := WholeSecondText(t);
    var frac := Padded(t.microsecond, 6);
    var s := Render(t);
    assert s == head + "." + frac;
    assert |s| == 26 && s[..19] == head && s[19] == '.' && s[20..] == frac;
    FieldsOfWholeSecondText(t);
    ValueOfPadded(t.microsecond, 6);
    assert Value(s[20..]) * Pow10(26 - |s|) == t.microsecond;
  }

  /** ...but it rejects `str(t)` for every timestamp that falls on a whole second. */
  lemma StrictParseRejectsWholeSecond(t: Timestamp)
    requires t.microsecond == 0
    ensures |Render(t)| == 19
    ensures ParseStrict(Render(t)) == None
  {
  }

  /** A concrete case: midnight of 1 January 2024 is saved as text the loader cannot read back. */
  lemma MidnightIsNotReadBack()
    ensures Render(DateTime(2024, 1, 1, 0, 0, 0, 0)) == "2024-01-01 00:00:00"
    ensures ParseStrict(Render(DateTime(2024, 1, 1, 0, 0, 0, 0))) == None
  {
    var t: Timestamp := DateTime(2024, 1, 1, 0, 0, 0, 0);
    MidnightText();
    StrictParseRejectsWholeSecond(t);
  }

  lemma MidnightText()
    ensures WholeSecondText(DateTime(2024, 1, 1, 0, 0, 0, 0)) == "2024-01-01 00:00:00"
  {
    MidnightFields();
    var pieces := "2024" + "-" + "01" + "-" + "01" + " " + "00" + ":" + "00" + ":" + "00";
    assert WholeSecondText(DateTime(2024, 1, 1, 0, 0, 0, 0)) == pieces;
    assert pieces == "2024-01-01 00:00:00";
  }

  lemma MidnightFields()
    ensures Padded(2024, 4) == "2024" && Padded(1, 2) == "01" && Padded(0, 2) == "00"
  {
    assert Padded(2, 1) == "2";
    assert Padded(20, 2) == "20";
    assert Padded(202, 3) == "202";
    assert Padded(0, 1) == "0";
  }

  /** The corrected parse reads back `str(t)` for every timestamp. */
  lemma {:induction false} ParseInvertsRender(t: Timestamp)
    ensures Parse(Render(t)) == Some(t)
  {
    if t.microsecond != 0 {
      StrictParseInvertsRender(t);
    } else {
      StrictParseRejectsWholeSecond(t);
      assert Render(t) == WholeSecondText(t);
      FieldsOfWholeSecondText(t);
    }
  }

  /**
   * The whole-second form accepts only text `str` writes: what it reads
   * renders back to the very same text.
   */
  lemma WholeSecondParseIsCanonical(s: string)
    requires ParseWholeSecond(s).Some?
    ensures Render(ParseWholeSecond(s).value) == s
  {
    var t := ParseWholeSecond(s).value;
    assert Fields(s) == Some(t);
    PaddedOfValue(s[0..4]);
    PaddedOfValue(s[5..7]);
    PaddedOfValue(s[8..10]);
    PaddedOfValue(s[11..13]);
    PaddedOfValue(s[14..16]);
    PaddedOfValue(s[17..19]);
    assert Padded(t.year, 4) == s[0..4] && Padded(t.month, 2) == s[5..7] && Padded(t.day, 2) == s[8..10];
    assert Padded(t.hour, 2) == s[11..13] && Padded(t.minute, 2) == s[14..16] && Padded(t.second, 2) == s[17..19];
    Reassemble(s);
  }

  /** A text with the separators of `YYYY-MM-DD HH:MM:SS` is its fields joined by those separators. */
  lemma Reassemble(h: string)
    requires |h| == 19 && h[4] == '-' && h[7] == '-' && h[10] == ' ' && h[13] == ':' && h[16] == ':'
    ensures h == h[0..4] + "-" + h[5..7] + "-" + h[8..10] + " " + h[11..13] + ":" + h[14..16] + ":" + h[17..19]
  {
  }
}
