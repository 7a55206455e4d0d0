/**
 * The upload script's object key: from one date it builds
 * `plc-logs/year=<Y>/month=<MM>/day=<DD>/plc-data-<YYYYMMDD>.csv`.
 * The date is a parameter (the script reads the clock once); the transfer of
 * the file itself is not modelled.
 */
module UploadLog {
  import opened Text
  import opened Decimal

  /** A calendar date as a Python `datetime` holds it. */
  datatype Date = Date(year: nat, month: nat, day: nat)

  predicate IsLeapYear(y: nat)
  {
    (y % 4 == 0 && y % 100 != 0) || y % 400 == 0
  }

  function DaysInMonth(y: nat, m: nat): nat
    requires 1 <= m <= 12
  {
    if m == 2 then (if IsLeapYear(y) then 29 else 28)
    else if m == 4 || m == 6 || m == 9 || m == 11 then 30
    else 31
  }

  /** The dates a `datetime` can hold: years 1 to 9999 of the proleptic Gregorian calendar. */
  predicate ValidDate(d: Date)
  {
    1 <= d.year <= 9999 && 1 <= d.month <= 12 && 1 <= d.day <= DaysInMonth(d.year, d.month)
  }

  /** `today.strftime('%Y%m%d')`: year in four digits, month and day in two, zero-padded. */
  function DateStamp(d: Date): (stamp: string)
    requires ValidDate(d)
    ensures |stamp| == 8 && AllDigits(stamp)
  {
    DateFieldsFit(d);
    ZeroPadIsLastDigits(d.year, 4);
    ZeroPadIsLastDigits(d.month, 2);
    ZeroPadIsLastDigits(d.day, 2);
    AllDigitsConcat3(ZeroPad(d.year, 4), ZeroPad(d.month, 2), ZeroPad(d.day, 2));
    ZeroPad(d.year, 4) + ZeroPad(d.month, 2) + ZeroPad(d.day, 2)
  }

  /** A valid date's year fits in four digits, its month and day in two. */
  lemma DateFieldsFit(d: Date)
    requires ValidDate(d)
    ensures d.year < Pow10(4) && d.month < Pow10(2) && d.day < Pow10(2)
  {
    assert Pow10(2) == 100;
    assert Pow10(4) == 10000;
  }

  /** The inverse reading of a `%Y%m%d` stamp. */
  function StampDate(stamp: string): Date
    requires |stamp| == 8 && AllDigits(stamp)
  {
    Date(Value(stamp[..4]), Value(stamp[4..6]), Value(stamp[6..]))
  }

  /** The file name `plc-data-<stamp>.csv`. */
  function FileName(stamp: string): string
  {
    "plc-data-" + stamp + ".csv"
  }

  /** The key's f-string, with its four replacement fields as parameters. */
  function KeyTemplate(year: string, month: string, day: string, stamp: string): string
  {
    "plc-logs/year=" + year + "/month=" + month + "/day=" + day + "/plc-data-" + stamp + ".csv"
  }

  /**
   * The key the log is uploaded under: the year as `{today.year}` (no padding),
   * month and day as `{…:02d}`, and the stamp from the same date.
   */
  function S3Key(d: Date): string
    requires ValidDate(d)
  {
    KeyTemplate(Str(d.year), ZeroPad(d.month, 2), ZeroPad(d.day, 2), DateStamp(d))
  }

  /** The five `/`-separated segments of the template, in order. */
  function TemplateSegments(year: string, month: string, day: string, stamp: string): seq<string>
  {
    ["plc-logs", "year=" + year, "month=" + month, "day=" + day, FileName(stamp)]
  }

  /** The five segments of the key of date `d`. */
  function KeySegments(d: Date): seq<string>
    requires ValidDate(d)
  {
    TemplateSegments(Str(d.year), ZeroPad(d.month, 2), ZeroPad(d.day, 2), DateStamp(d))
  }

  /** The template begins with `plc-logs/year=` and the year field, ended by a `/`. */
  lemma KeyTemplateStartsWithYear(year: string, month: string, day: string, stamp: string)
    ensures var key := KeyTemplate(year, month, day, stamp);
      |key| > 14 + |year| && key[..14] == "plc-logs/year=" && key[14..14 + |year|] == year && key[14 + |year|] == '/'
  {
  }

  /** The template is its five segments joined with `/`. */
  lemma KeyTemplateIsJoin(year: string, month: string, day: string, stamp: string)
    ensures Join(TemplateSegments(year, month, day, stamp), '/') == KeyTemplate(year, month, day, stamp)
  {
    JoinFive("plc-logs", "year=" + year, "month=" + month, "day=" + day, FileName(stamp), '/');
    TemplateLiterals();
  }

  /** The literal parts of the key f-string, cut at their `/`. */
  lemma TemplateLiterals()
    ensures "plc-logs/year=" == "plc-logs" + ['/'] + "year="
    ensures "/month=" == ['/'] + "month="
    ensures "/day=" == ['/'] + "day="
    ensures "/plc-data-" == ['/'] + "plc-data-"
  {
  }

  /** When no field contains a `/`, splitting the template on `/` gives its five segments. */
  lemma KeyTemplateSegments(year: string, month: string, day: string, stamp: string)
    requires '/' !in year && '/' !in month && '/' !in day && '/' !in stamp
    ensures Split(KeyTemplate(year, month, day, stamp), '/') == TemplateSegments(year, month, day, stamp)
  {
    var segs := TemplateSegments(year, month, day, stamp);
    assert forall k :: 0 <= k < |segs| ==> '/' !in segs[k];
    KeyTemplateIsJoin(year, month, day, stamp);
    SplitJoin(segs, '/');
  }

  /** The key starts with the literal `plc-logs/year=` followed by `str(year)` and a `/`. */
  lemma S3KeyStartsWithYear(d: Date)
    requires ValidDate(d)
    ensures var key, y := S3Key(d), Str(d.year);
      |key| > 14 + |y| && key[..14] == "plc-logs/year=" && key[14..14 + |y|] == y && key[14 + |y|] == '/'
  {
    var y, m, dd, stamp := Str(d.year), ZeroPad(d.month, 2), ZeroPad(d.day, 2), DateStamp(d);
    assert S3Key(d) == KeyTemplate(y, m, dd, stamp);
    KeyTemplateStartsWithYear(y, m, dd, stamp);
  }

  /** Splitting the key on `/` gives exactly its five segments: no field contains a `/`. */
  lemma S3KeySegments(d: Date)
    requires ValidDate(d)
    ensures Split(S3Key(d), '/') == KeySegments(d)
  {
    NonDigitAbsent(Str(d.year), '/');
    NonDigitAbsent(ZeroPad(d.month, 2), '/');
    NonDigitAbsent(ZeroPad(d.day, 2), '/');
    NonDigitAbsent(DateStamp(d), '/');
    KeyTemplateSegments(Str(d.year), ZeroPad(d.month, 2), ZeroPad(d.day, 2), DateStamp(d));
  }

  /** Month and day always occupy exactly two characters, tens digit first (so 6 is `06`). */
  lemma MonthAndDayAreTwoDigits(d: Date)
    requires ValidDate(d)
    ensures var segs := Split(S3Key(d), '/');
      |segs| == 5
      && segs[2] == "month=" + [DigitChar(d.month / 10), DigitChar(d.month % 10)]
      && segs[3] == "day=" + [DigitChar(d.day / 10), DigitChar(d.day % 10)]
  {
    S3KeySegments(d);
    KeySegmentsMonthAndDay(d);
  }

  /** The month and day segments, digit by digit. */
  lemma KeySegmentsMonthAndDay(d: Date)
    requires ValidDate(d)
    ensures var segs := KeySegments(d);
      segs[2] == "month=" + [DigitChar(d.month / 10), DigitChar(d.month % 10)]
      && segs[3] == "day=" + [DigitChar(d.day / 10), DigitChar(d.day % 10)]
  {
    TwoDigits(d.month);
    TwoDigits(d.day);
  }

  /** The stamp's three fields are the padded year, month and day. */
  lemma DateStampFields(d: Date)
    requires ValidDate(d)
    ensures var stamp := DateStamp(d);
      stamp[..4] == ZeroPad(d.year, 4) && stamp[4..6] == ZeroPad(d.month, 2) && stamp[6..] == ZeroPad(d.day, 2)
  {
    ZeroPadIsLastDigits(d.year, 4);
    ZeroPadIsLastDigits(d.month, 2);
    SliceConcat3(ZeroPad(d.year, 4), ZeroPad(d.month, 2), ZeroPad(d.day, 2));
  }

  /** Reading a stamp back gives the date it was written from. */
  lemma StampRoundTrip(d: Date)
    requires ValidDate(d)
    ensures StampDate(DateStamp(d)) == d
  {
    DateStampFields(d);
  }

  /**
   * The file name's stamp encodes the same date as the directory segments,
   * because both come from one date value: the stamp reads back as that date,
   * and its month and day are the text of the month and day segments.
   */
  lemma FileNameMatchesDirectories(d: Date)
    requires ValidDate(d)
    ensures var segs, stamp := Split(S3Key(d), '/'), DateStamp(d);
      |segs| == 5
      && segs[4] == "plc-data-" + stamp + ".csv"
      && StampDate(stamp) == d
      && segs[2] == "month=" + stamp[4..6]
      && segs[3] == "day=" + stamp[6..]
  {
    S3KeySegments(d);
    DateStampFields(d);
  }

  /**
   * The unpadded year directory and the padded `%Y` of the file name agree
   * exactly when the year has four digits; for years below 1000 they differ.
   */
  lemma YearDirectoryMatchesStampIff(d: Date)
    requires ValidDate(d)
    ensures Str(d.year) == DateStamp(d)[..4] <==> d.year >= 1000
  {
    DateStampFields(d);
    ZeroPadIsLastDigits(d.year, 4);
    if d.year >= 1000 {
      ZeroPadOfFullWidth(d.year, 4);
    } else {
      StrLengthAtMost(d.year, 3);
    }
  }

  lemma StrOf999(n: nat)
    requires n == 999
    ensures Str(n) == "999"
  {
    assert Str(n) == Str(99) + ['9'];
    assert Str(99) == Str(9) + ['9'];
  }

  lemma StrOf2025(n: nat)
    requires n == 2025
    ensures Str(n) == "2025"
  {
    assert Str(n) == Str(202) + ['5'];
    assert Str(202) == Str(20) + ['2'];
    assert Str(20) == Str(2) + ['0'];
  }

  lemma PaddedJune24(month: nat, day: nat)
    requires month == 6 && day == 24
    ensures ZeroPad(month, 2) == "06" && ZeroPad(day, 2) == "24"
  {
    TwoDigits(month);
    TwoDigits(day);
  }

  lemma StampOfJune24(d: Date)
    requires d == Date(2025, 6, 24)
    ensures ValidDate(d) && DateStamp(d) == "20250624"
  {
    FourDigits(d.year);
    assert ZeroPad(d.year, 4) == "2025";
    PaddedJune24(d.month, d.day);
    assert DateStamp(d) == "2025" + "06" + "24";
  }

  lemma StampYearOf999(d: Date)
    requires d == Date(999, 1, 1)
    ensures ValidDate(d) && DateStamp(d)[..4] == "0999"
  {
    DateStampFields(d);
    FourDigits(999);
  }

  lemma YearSegmentOf999(d: Date)
    requires d == Date(999, 1, 1)
    ensures ValidDate(d) && KeySegments(d)[1] == "year=999"
  {
    StrOf999(d.year);
  }

  /** Year 999 is one such date: the key says `year=999` while the file name says `0999`. */
  lemma YearDirectoryDiffersAt999(d: Date)
    requires d == Date(999, 1, 1)
    ensures ValidDate(d)
    ensures Split(S3Key(d), '/')[1] == "year=999"
    ensures DateStamp(d)[..4] == "0999"
  {
    YearSegmentOf999(d);
    StampYearOf999(d);
    S3KeySegments(d);
  }

  /** The example date 2025-06-24 gives `plc-logs/year=2025/month=06/day=24/plc-data-20250624.csv`. */
  lemma KeyOfJune24(d: Date)
    requires d == Date(2025, 6, 24)
    ensures ValidDate(d)
    ensures S3Key(d) == "plc-logs/year=2025/month=06/day=24/plc-data-20250624.csv"
  {
    StrOf2025(d.year);
    StampOfJune24(d);
    PaddedJune24(d.month, d.day);
    TemplateOfJune24(Str(d.year), ZeroPad(d.month, 2), ZeroPad(d.day, 2), DateStamp(d));
  }

  /** The template filled with the fields of 2025-06-24. */
  lemma TemplateOfJune24(year: string, month: string, day: string, stamp: string)
    requires year == "2025" && month == "06" && day == "24" && stamp == "20250624"
    ensures KeyTemplate(year, month, day, stamp) == "plc-logs/year=2025/month=06/day=24/plc-data-20250624.csv"
  {
    assert "plc-logs/year=" + year == "plc-logs/year=2025";
    assert "plc-logs/year=2025" + "/month=" + month == "plc-logs/year=2025/month=06";
    assert "plc-logs/year=2025/month=06" + "/day=" + day == "plc-logs/year=2025/month=06/day=24";
    assert "plc-logs/year=2025/month=06/day=24" + "/plc-data-" + stamp == "plc-logs/year=2025/month=06/day=24/plc-data-20250624";
  }
}
