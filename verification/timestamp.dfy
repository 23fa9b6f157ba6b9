/** The timestamp layout `%d-%m-%Y %H:%M:%S` with which the analysis scripts
    read the harvested `Timestamp` column: two-digit day and month, four-digit
    year, two-digit hour, minute and second. The row pattern only checks
    that the characters have this shape; reading them as a date also checks
    the ranges, the length of the month and leap years. */
module Timestamp {
  import opened Text
  import opened RowPattern

  datatype DateTime = DateTime(year: nat, month: nat, day: nat, hour: nat, minute: nat, second: nat)

  /** Gregorian leap years. */
  predicate IsLeapYear(y: nat)
  {
    y % 4 == 0 && (y % 100 != 0 || y % 400 == 0)
  }

  function DaysInMonth(y: nat, m: nat): (n: nat)
    requires 1 <= m <= 12
    ensures 28 <= n <= 31
    ensures n == 29 <==> m == 2 && IsLeapYear(y)
  {
    if m == 2 then (if IsLeapYear(y) then 29 else 28)
    else if m == 4 || m == 6 || m == 9 || m == 11 then 30
    else 31
  }

  /** A moment the layout can write: a four-digit year, an existing day of
      an existing month, and a time of day. */
  predicate Valid(d: DateTime)
  {
    d.year <= 9999 && 1 <= d.month <= 12 && 1 <= d.day <= DaysInMonth(d.year, d.month)
    && d.hour < 24 && d.minute < 60 && d.second < 60
  }

  /** `n` written with exactly `width` digits, zero-padded on the left. */
  function Padded(n: nat, width: nat): (s: string)
    requires n < Pow10(width)
    ensures |s| == width && AllDigits(s)
  {
    if width == 0 then [] else Padded(n / 10, width - 1) + [DigitChar(n % 10)]
  }

  function Pow10(k: nat): (p: nat)
    ensures p >= 1
  {
    if k == 0 then 1 else 10 * Pow10(k - 1)
  }

  lemma {:induction false} ParsePadded(n: nat, width: nat)
    requires n < Pow10(width)
    ensures ParseDecimal(Padded(n, width)) == n
  {
    if width > 0 {
      var s := Padded(n, width);
      assert s[..|s| - 1] == Padded(n / 10, width - 1);
      ParsePadded(n / 10, width - 1);
    }
  }

  lemma {:induction false} PaddedParse(s: string)
    requires AllDigits(s)
    ensures ParseDecimal(s) < Pow10(|s|) && Padded(ParseDecimal(s), |s|) == s
  {
    if s != [] {
      var init := s[..|s| - 1];
      PaddedParse(init);
      var n := ParseDecimal(s);
      assert n / 10 == ParseDecimal(init) && n % 10 == DigitValue(s[|s| - 1]);
      assert s == init + [s[|s| - 1]];
    }
  }

  /** The six numbers fit the widths of their fields. */
  predicate Fits(d: DateTime)
  {
    d.year < 10000 && d.month < 100 && d.day < 100 && d.hour < 100 && d.minute < 100 && d.second < 100
  }

  /** The text the layout writes for `d`: each number zero-padded to the
      width of its field. Only moments that exist are ever written, but any
      numbers that fit the widths give a text of the right shape. */
  function Format(d: DateTime): (s: string)
    requires Fits(d)
    ensures TimestampShape(s)
  {
    Padded(d.day, 2) + "-" + Padded(d.month, 2) + "-" + Padded(d.year, 4) + " "
    + Padded(d.hour, 2) + ":" + Padded(d.minute, 2) + ":" + Padded(d.second, 2)
  }

  /** The six numbers at the digit positions of a text of the right shape. */
  function FieldsOf(s: string): DateTime
    requires TimestampShape(s)
  {
    DateTime(ParseDecimal(s[6..10]), ParseDecimal(s[3..5]), ParseDecimal(s[0..2]),
             ParseDecimal(s[11..13]), ParseDecimal(s[14..16]), ParseDecimal(s[17..19]))
  }

  /** Reads a timestamp: it must have the shape of the layout and name a
      moment that exists. */
  function Parse(s: string): (r: Option<DateTime>)
    ensures r.Some? ==> Valid(r.value) && TimestampShape(s)
  {
    if TimestampShape(s) && Valid(FieldsOf(s)) then Some(FieldsOf(s)) else None
  }

  /** The numbers at the digit positions of a written text are the numbers
      written. */
  lemma FieldsOfFormat(d: DateTime)
    requires Fits(d)
    ensures FieldsOf(Format(d)) == d
  {
    var s := Format(d);
    assert s[0..2] == Padded(d.day, 2) && s[3..5] == Padded(d.month, 2) && s[6..10] == Padded(d.year, 4);
    assert s[11..13] == Padded(d.hour, 2) && s[14..16] == Padded(d.minute, 2) && s[17..19] == Padded(d.second, 2);
    ParsePadded(d.day, 2);
    ParsePadded(d.month, 2);
    ParsePadded(d.year, 4);
    ParsePadded(d.hour, 2);
    ParsePadded(d.minute, 2);
    ParsePadded(d.second, 2);
  }

  /** A written text is read back as the moment written if that moment
      exists, and is refused otherwise. */
  lemma ParseFormat(d: DateTime)
    requires Fits(d)
    ensures Parse(Format(d)) == if Valid(d) then Some(d) else None
  {
    FieldsOfFormat(d);
  }

  /** Every text that is read is exactly the text of the moment read, so no
      two texts are read as the same moment. */
  lemma FormatParse(s: string)
    requires Parse(s).Some?
    ensures Format(Parse(s).value) == s
  {
    var d := Parse(s).value;
    ParseFormat(d);
    ShapeDetermined(Format(d), s);
  }

  /** A text of the right shape is determined by its six numbers. */
  lemma ShapeDetermined(a: string, b: string)
    requires TimestampShape(a) && TimestampShape(b) && FieldsOf(a) == FieldsOf(b)
    ensures a == b
  {
    SameDigits(a, b, 0, 2);
    SameDigits(a, b, 3, 5);
    SameDigits(a, b, 6, 10);
    SameDigits(a, b, 11, 13);
    SameDigits(a, b, 14, 16);
    SameDigits(a, b, 17, 19);
  }

  /** Equal numbers read from equally long digit runs come from the same
      digits. */
  lemma SameDigits(a: string, b: string, lo: nat, hi: nat)
    requires lo <= hi <= |a| && hi <= |b| && AllDigits(a[lo..hi]) && AllDigits(b[lo..hi])
    requires ParseDecimal(a[lo..hi]) == ParseDecimal(b[lo..hi])
    ensures forall k :: lo <= k < hi ==> a[k] == b[k]
  {
    PaddedParse(a[lo..hi]);
    PaddedParse(b[lo..hi]);
    forall k | lo <= k < hi ensures a[k] == b[k] {
      assert a[k] == a[lo..hi][k - lo] && b[k] == b[lo..hi][k - lo];
    }
  }

  /** The row pattern accepts text that names no moment: the shape is right,
      but there is no 31 February, no hour 25 and no minute or second 61. */
  lemma ShapeIsNotRange()
    ensures TimestampShape("31-02-2026 25:61:61") && Parse("31-02-2026 25:61:61") == None
  {
    OutOfRangeText();
    ParseFormat(DateTime(2026, 2, 31, 25, 61, 61));
  }

  /** 29 February exists in 2024 ... */
  lemma LeapDay()
    ensures Parse("29-02-2024 12:00:00") == Some(DateTime(2024, 2, 29, 12, 0, 0))
  {
    LeapDayText();
    LeapDayExists();
    ParseFormat(DateTime(2024, 2, 29, 12, 0, 0));
  }

  /** ... and not in 2026. */
  lemma NoLeapDay()
    ensures Parse("29-02-2026 12:00:00") == None
  {
    NoLeapDayText();
    ParseFormat(DateTime(2026, 2, 29, 12, 0, 0));
  }

  lemma OutOfRangeText() ensures Format(DateTime(2026, 2, 31, 25, 61, 61)) == "31-02-2026 25:61:61" {}

  lemma LeapDayText() ensures Format(DateTime(2024, 2, 29, 12, 0, 0)) == "29-02-2024 12:00:00" {}

  lemma NoLeapDayText() ensures Format(DateTime(2026, 2, 29, 12, 0, 0)) == "29-02-2026 12:00:00" {}

  lemma LeapDayExists() ensures Valid(DateTime(2024, 2, 29, 12, 0, 0)) {}
}
