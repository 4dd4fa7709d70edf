/** The ranges nmea_parse.h documents for the time record against what the
    decoders store: _nmea_parse_time keeps the pairs and the fraction as
    written, and the RMC date is never checked. The corrected readings
    below reject a clock or a date outside the documented ranges and read
    the fraction as hundredths. */
module NmeaClock {
  import opened NmeaTypes
  import opened NmeaScan
  import opened NmeaFields
  import opened NmeaDecode
  import opened NmeaRmc

  /** The documented ranges of the clock fields: hour 0-23, minute and
      second 0-59, hundredths 0-99. */
  predicate ClockInRange(t: Time)
  {
    0 <= t.hour <= 23 && 0 <= t.min <= 59 && 0 <= t.sec <= 59 && 0 <= t.hsec <= 99
  }

  /** The documented ranges of the date fields: day 1-31, month 0-11. */
  predicate DateInRange(t: Time)
  {
    1 <= t.day <= 31 && 0 <= t.mon <= 11
  }

  /** A clock text: "hhmmss", or "hhmmss." and one to three digits. */
  predicate ClockText(s: seq<Byte>)
  {
    (|s| == 6 || (8 <= |s| <= 10 && s[6] == '.')) &&
    forall k :: 0 <= k < |s| && k != 6 ==> IsDigit(s[k])
  }

  function Digit(b: Byte): int
  {
    b as int - '0' as int
  }

  /** The two-digit number at `i`. */
  function Pair(s: seq<Byte>, i: nat): int
    requires i + 2 <= |s|
  {
    10 * Digit(s[i]) + Digit(s[i + 1])
  }

  /** The fraction after the '.' in hundredths of a second: one digit is
      tenths, a third digit (thousandths) is dropped. */
  function Hundredths(s: seq<Byte>): int
    requires 8 <= |s|
  {
    if |s| == 8 then 10 * Digit(s[7]) else Pair(s, 7)
  }

  /** The fraction's digits as one integer. */
  function FractionAsWritten(s: seq<Byte>): int
    requires 8 <= |s| <= 10
  {
    if |s| == 8 then Digit(s[7]) else if |s| == 9 then Pair(s, 7) else 100 * Digit(s[7]) + Pair(s, 8)
  }

  /** The time parse the record's documented ranges call for: a clock text
      whose hour, minute and second are in range, the fraction read as
      hundredths (none is 0); the date is kept, and a rejected text leaves
      the record as it was. */
  function ParseClock(s: seq<Byte>, res: Time): (r: TimeParsed)
    ensures r.code == 0 || r.code == -1
    ensures r.code == 0 ==> ClockInRange(r.utc)
    ensures r.utc.year == res.year && r.utc.mon == res.mon && r.utc.day == res.day
    ensures r.code != 0 ==> r.utc == res
  {
    if !ClockText(s) then TimeParsed(-1, res)
    else
      var t := res.(hour := Pair(s, 0), min := Pair(s, 2), sec := Pair(s, 4),
                    hsec := if |s| == 6 then 0 else Hundredths(s));
      if ClockInRange(t) then TimeParsed(0, t) else TimeParsed(-1, res)
  }

  /** The corrected parse accepts exactly the clock texts whose hour,
      minute and second are in range; the hundredths always are. */
  lemma ParseClockAccepts(s: seq<Byte>, res: Time)
    ensures ParseClock(s, res).code == 0 <==>
      ClockText(s) && Pair(s, 0) <= 23 && Pair(s, 2) <= 59 && Pair(s, 4) <= 59
  {
    if ClockText(s) {
      assert IsDigit(s[0]) && IsDigit(s[1]) && IsDigit(s[2]) && IsDigit(s[3]) && IsDigit(s[4]) && IsDigit(s[5]);
      if |s| > 6 {
        assert IsDigit(s[7]);
        if |s| > 8 {
          assert IsDigit(s[8]);
        }
      }
    }
  }

  /** The value of the digit pair at `i` as the scanner reads it. */
  lemma PairValue(s: seq<Byte>, i: nat)
    requires i + 2 <= |s| && IsDigit(s[i]) && IsDigit(s[i + 1])
    ensures AllDigits(s[i..i + 2], 10) && DigitsValue(s[i..i + 2], 10) == Pair(s, i)
  {
    TwoDigits(s[i..i + 2], s[i], s[i + 1]);
  }

  /** The fraction digits after the '.' as the scanner reads them: one
      integer, whatever their number. */
  lemma FractionValue(s: seq<Byte>)
    requires ClockText(s) && |s| > 6
    ensures AllDigits(s[7..], 10)
    ensures DigitsValue(s[7..], 10) == FractionAsWritten(s)
  {
    assert IsDigit(s[7]);
    var f := s[7..];
    if |s| == 8 {
      assert f == [s[7]] && f[1..] == [];
      assert IsRadixDigit(s[7], 10);
      assert DigitsValue(f[1..], 10) == 0;
    } else if |s| == 9 {
      assert IsDigit(s[8]);
      assert f == s[7..9];
      PairValue(s, 7);
    } else {
      assert IsDigit(s[8]) && IsDigit(s[9]);
      assert f[1..] == s[8..10];
      PairValue(s, 8);
      assert IsRadixDigit(s[7], 10);
      assert AllDigits(f, 10);
      assert DigitsValue(f, 10) == DigitValue(s[7]) * Pow(10, 2) + DigitsValue(f[1..], 10);
    }
  }

  /** What _nmea_parse_time stores for a clock text: the pairs as written,
      whatever their value, and the fraction's digits as one integer, so
      one digit is a count of tenths and three are thousandths. */
  lemma ParseTimeClockText(s: seq<Byte>, res: Time)
    requires ClockText(s)
    ensures ParseTime(s, res) ==
      TimeParsed(0, res.(hour := Pair(s, 0), min := Pair(s, 2), sec := Pair(s, 4),
                         hsec := if |s| == 6 then res.hsec else FractionAsWritten(s)))
  {
    assert IsDigit(s[0]) && IsDigit(s[1]) && IsDigit(s[2]) && IsDigit(s[3]) && IsDigit(s[4]) && IsDigit(s[5]);
    PairValue(s, 0);
    PairValue(s, 2);
    PairValue(s, 4);
    if |s| > 6 {
      FractionValue(s);
      ParseTimeDigits(s, res);
    } else {
      ParseTimeDigits(s, res);
      ParseTimeResult(s, res);
    }
    ClockFields(s, res, ParseTime(s, res));
  }

  /** ParseTimeClockText for any result with the digit values the scanner
      reads. */
  lemma ClockFields(s: seq<Byte>, res: Time, t: TimeParsed)
    requires ClockText(s)
    requires AllDigits(s[0..2], 10) && AllDigits(s[2..4], 10) && AllDigits(s[4..6], 10)
    requires DigitsValue(s[0..2], 10) == Pair(s, 0) && DigitsValue(s[2..4], 10) == Pair(s, 2) &&
             DigitsValue(s[4..6], 10) == Pair(s, 4)
    requires |s| > 6 ==> AllDigits(s[7..], 10)
    requires |s| > 6 ==> DigitsValue(s[7..], 10) == FractionAsWritten(s)
    requires t.utc.hour == DigitsValue(s[0..2], 10) && t.utc.min == DigitsValue(s[2..4], 10) &&
             t.utc.sec == DigitsValue(s[4..6], 10)
    requires |s| > 6 ==> t.utc.hsec == DigitsValue(s[7..], 10)
    requires |s| == 6 ==> t.utc.hsec == res.hsec
    ensures t.utc.hour == Pair(s, 0) && t.utc.min == Pair(s, 2) && t.utc.sec == Pair(s, 4)
    ensures t.utc.hsec == if |s| == 6 then res.hsec else FractionAsWritten(s)
  {
  }

  /** Where the reading as written is right, the two agree: an in-range
      "hhmmss" into a record whose hundredths are 0, or an in-range
      "hhmmss.hh". */
  lemma ClockAgrees(s: seq<Byte>, res: Time)
    requires ParseClock(s, res).code == 0
    requires |s| == 9 || (|s| == 6 && res.hsec == 0)
    ensures ParseTime(s, res) == ParseClock(s, res)
  {
    ParseTimeClockText(s, res);
  }

  /** Where they part: _nmea_parse_time accepts an hour, minute or second
      out of range, stores hundredths of 100 or more for a three-digit
      fraction that does not start with 0, and a tenth of the hundredths
      for a one-digit fraction. */
  lemma ParseTimeLeavesRange(s: seq<Byte>, res: Time)
    requires ClockText(s)
    ensures Pair(s, 0) > 23 || Pair(s, 2) > 59 || Pair(s, 4) > 59 ==>
      ParseTime(s, res).code == 0 && !ClockInRange(ParseTime(s, res).utc) && ParseClock(s, res).code == -1
    ensures |s| == 10 && s[7] != '0' ==>
      ParseTime(s, res).code == 0 && ParseTime(s, res).utc.hsec >= 100
    ensures |s| == 8 && ParseClock(s, res).code == 0 ==>
      ParseClock(s, res).utc.hsec == 10 * ParseTime(s, res).utc.hsec
  {
    ParseTimeClockText(s, res);
    LeavesRange(s, res, ParseTime(s, res));
  }

  /** ParseTimeLeavesRange for any result with the fields _nmea_parse_time
      stores. */
  lemma LeavesRange(s: seq<Byte>, res: Time, t: TimeParsed)
    requires ClockText(s) && t.code == 0
    requires t.utc.hour == Pair(s, 0) && t.utc.min == Pair(s, 2) && t.utc.sec == Pair(s, 4)
    requires |s| == 8 ==> t.utc.hsec == Digit(s[7])
    requires |s| == 10 ==> t.utc.hsec == 100 * Digit(s[7]) + Pair(s, 8)
    ensures Pair(s, 0) > 23 || Pair(s, 2) > 59 || Pair(s, 4) > 59 ==>
      !ClockInRange(t.utc) && ParseClock(s, res).code == -1
    ensures |s| == 10 && s[7] != '0' ==> t.utc.hsec >= 100
    ensures |s| == 8 && ParseClock(s, res).code == 0 ==> ParseClock(s, res).utc.hsec == 10 * t.utc.hsec
  {
    ParseClockAccepts(s, res);
    if |s| == 10 {
      assert IsDigit(s[7]) && IsDigit(s[8]) && IsDigit(s[9]);
    }
  }

  const MILLIS_CLOCK: seq<Byte> := "031024.500"
  const HOUR99_CLOCK: seq<Byte> := "995959"

  /** "031024.500" (milliseconds) is stored with hundredths 500; the
      corrected parse reads 50 hundredths. */
  lemma MillisSample()
    ensures var t := ParseTime(MILLIS_CLOCK, ZeroTime);
      t.code == 0 && t.utc == Time(0, 0, 0, 3, 10, 24, 500) && !ClockInRange(t.utc)
    ensures ParseClock(MILLIS_CLOCK, ZeroTime) == TimeParsed(0, Time(0, 0, 0, 3, 10, 24, 50))
  {
    var a := MILLIS_CLOCK;
    assert a[0] == '0' && a[1] == '3' && a[2] == '1' && a[3] == '0' && a[4] == '2' && a[5] == '4';
    assert a[6] == '.' && a[7] == '5' && a[8] == '0' && a[9] == '0';
    MillisBytes(a);
  }

  lemma MillisBytes(a: seq<Byte>)
    requires |a| == 10 && a[0] == '0' && a[1] == '3' && a[2] == '1' && a[3] == '0' && a[4] == '2' && a[5] == '4'
    requires a[6] == '.' && a[7] == '5' && a[8] == '0' && a[9] == '0'
    ensures ParseTime(a, ZeroTime) == TimeParsed(0, Time(0, 0, 0, 3, 10, 24, 500))
    ensures ParseClock(a, ZeroTime) == TimeParsed(0, Time(0, 0, 0, 3, 10, 24, 50))
  {
    assert ClockText(a);
    ParseTimeClockText(a, ZeroTime);
  }

  /** "995959" is stored with hour 99; the corrected parse rejects it. */
  lemma Hour99Sample()
    ensures var t := ParseTime(HOUR99_CLOCK, ZeroTime);
      t.code == 0 && t.utc == Time(0, 0, 0, 99, 59, 59, 0) && !ClockInRange(t.utc)
    ensures ParseClock(HOUR99_CLOCK, ZeroTime).code == -1
  {
    var b := HOUR99_CLOCK;
    assert b[0] == '9' && b[1] == '9' && b[2] == '5' && b[3] == '9' && b[4] == '5' && b[5] == '9';
    assert ClockText(b);
    ParseTimeClockText(b, ZeroTime);
  }

  /** The date as the RMC decoder should take it: two-digit day, month and
      year in range, pivoted; anything else is rejected. */
  function CheckedDate(d: Time): (r: Option<Time>)
    ensures r.Some? <==> 0 <= d.year <= 99 && 1 <= d.mon <= 12 && 1 <= d.day <= 31
    ensures r.Some? ==> DateInRange(r.value) && r.value.mon + 1 == d.mon && r.value.day == d.day
  {
    if 0 <= d.year <= 99 && 1 <= d.mon <= 12 && 1 <= d.day <= 31 then
      PivotDate(d);
      Some(Pivot(d))
    else None
  }

  /** The RMC decoder as written takes the date "001318" (day 0, month 13)
      with a valid clock and keeps day 0 and month 12, both outside the
      documented ranges; the corrected date check rejects it. */
  lemma RmcDateOutOfRange(toks1: seq<seq<Byte>>, toks2: seq<seq<Byte>>, stale: seq<Byte>)
    requires |toks1| == 8 && |toks2| == 3 && toks1[0] == SAMPLE_TOKS1[0]
    ensures var r := RmcFromTokens(toks1, BAD_DATE, toks2, stale);
      r.ok && r.pack.utc.day == 0 && r.pack.utc.mon == 12 && !DateInRange(r.pack.utc)
    ensures CheckedDate(Time(18, 13, 0, 0, 0, 0, 0)).None?
  {
    BadDateValues(BAD_DATE);
    SampleClockAt(Time(18, 13, 0, 0, 0, 0, 0));
  }

  const BAD_DATE: seq<Byte> := "001318"

  lemma BadDateValues(d: seq<Byte>)
    requires |d| == 6 && d[0] == '0' && d[1] == '0' && d[2] == '1' && d[3] == '3' && d[4] == '1' && d[5] == '8'
    ensures Atoi(d[0..2], 10) == 0 && Atoi(d[2..4], 10) == 13 && Atoi(d[4..6], 10) == 18
  {
    PairValue(d, 0);
    PairValue(d, 2);
    PairValue(d, 4);
    AtoiOfDigits(d[0..2]);
    AtoiOfDigits(d[2..4]);
    AtoiOfDigits(d[4..6]);
  }

  /** The RMC sample's clock text parses into any date. */
  lemma SampleClockAt(d: Time)
    ensures ParseTime(CStr(SAMPLE_TOKS1[0]), d) == TimeParsed(0, d.(hour := 3, min := 10, sec := 24, hsec := 0))
  {
    var s := SAMPLE_TOKS1[0];
    assert s == "031024.000";
    assert forall k :: 0 <= k < |s| ==> s[k] != NUL;
    CStrWhole(s);
    assert s[0] == '0' && s[1] == '3' && s[2] == '1' && s[3] == '0' && s[4] == '2' && s[5] == '4';
    assert s[6] == '.' && s[7] == '0' && s[8] == '0' && s[9] == '0';
    ClockDigits(s, d);
  }
}
