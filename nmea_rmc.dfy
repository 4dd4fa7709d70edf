/** The RMC decoder of nmea_parse.c: a template whose fields are split by
    the fixed-width date field "%2d%2d%2d", the 13-or-14 field rule, the
    time field, then the two-digit year pivot and the 0-based month. */
module NmeaRmc {
  import opened NmeaTypes
  import opened NmeaScan
  import opened NmeaFields
  import opened NmeaDecode

  const RMC_HEAD: seq<Byte> := "$GPRMC,"
  const RMC_CONVS1: seq<Byte> := "sCfCfCff"
  const RMC_SEPS1: seq<Byte> := ",,,,,,,,"
  const RMC_DATE: seq<Byte> := "%2d%2d%2d,"
  const RMC_CONVS2: seq<Byte> := "fCC"
  const RMC_SEPS2: seq<Byte> := ",,*"
  /** "$GPRMC,%s,%C,%f,%C,%f,%C,%f,%f,%2d%2d%2d,%f,%C,%C*" */
  const RMC_FMT: seq<Byte> := RMC_HEAD + Items(RMC_CONVS1, RMC_SEPS1) + RMC_DATE + Items(RMC_CONVS2, RMC_SEPS2)

  /** The destinations: the time buffer (holding `stale` before the scan),
      then the zeroed record's fields; slots 8, 9 and 10 are the day, the
      month and the year of the record's time. */
  function RmcSlots(stale: seq<Byte>): seq<Option<Value>>
  {
    Slots([Str(stale), Chr(NUL), Real(FZero), Chr(NUL), Real(FZero), Chr(NUL), Real(FZero), Real(FZero),
           Int(0), Int(0), Int(0), Real(FZero), Chr(NUL), Chr(NUL)])
  }

  function RmcOf(a: seq<Option<Value>>, utc: Time): RmcPack
  {
    RmcPack(utc, ChrOf(ArgAt(a, 1), NUL), RealOf(ArgAt(a, 2), FZero), ChrOf(ArgAt(a, 3), NUL),
            RealOf(ArgAt(a, 4), FZero), ChrOf(ArgAt(a, 5), NUL), RealOf(ArgAt(a, 6), FZero),
            RealOf(ArgAt(a, 7), FZero), RealOf(ArgAt(a, 11), FZero), ChrOf(ArgAt(a, 12), NUL),
            ChrOf(ArgAt(a, 13), NUL))
  }

  /** The zeroed time record after the scan wrote day, month and year. */
  function DateOf(a: seq<Option<Value>>): Time
  {
    Time(IntOf(ArgAt(a, 10), 0), IntOf(ArgAt(a, 9), 0), IntOf(ArgAt(a, 8), 0), 0, 0, 0, 0)
  }

  /** The fix-up after an accepted time: a two-digit year below 90 is in the
      2000s (years count from 1900), and the month becomes 0-based. */
  function Pivot(t: Time): Time
  {
    t.(year := if t.year < 90 then t.year + 100 else t.year, mon := t.mon - 1)
  }

  /** nmea_parse_GPRMC: 13 or 14 fields (the mode field is optional), then
      the time text that the `%s` field left in the time buffer (`stale`
      stands for the buffer's content before the scan), parsed into the
      record's time; on success the year pivot and the month shift. */
  function DecodeRmc(buf: seq<Byte>, stale: seq<Byte>): Decoded<RmcPack>
  {
    var sc := Scanf(buf, RMC_FMT, RmcSlots(stale));
    if sc.count != 13 && sc.count != 14 then Decoded(false, RmcOf(sc.args, DateOf(sc.args)))
    else
      var t := ParseTime(CStr(StrOf(ArgAt(sc.args, 0), stale)), DateOf(sc.args));
      if t.code != 0 then Decoded(false, RmcOf(sc.args, t.utc))
      else Decoded(true, RmcOf(sc.args, Pivot(t.utc)))
  }

  /** A two-digit year and a month 1-12 become years since 1900 from 1990
      to 2089 and a month 0-11, and both can be read back; the day and the
      clock are kept. */
  lemma PivotDate(t: Time)
    requires 0 <= t.year <= 99 && 1 <= t.mon <= 12
    ensures 90 <= Pivot(t).year <= 189 && Pivot(t).year % 100 == t.year
    ensures 0 <= Pivot(t).mon <= 11 && Pivot(t).mon + 1 == t.mon
    ensures Pivot(t).day == t.day && Pivot(t).hour == t.hour && Pivot(t).min == t.min &&
            Pivot(t).sec == t.sec && Pivot(t).hsec == t.hsec
  {
  }

  /** RMC is accepted iff the scan resolves 13 or 14 fields and the time
      text has six bytes, or eight to ten with a '.' after the first six;
      the accepted record's time is the pivoted one. */
  lemma RmcAcceptance(buf: seq<Byte>, stale: seq<Byte>)
    ensures var sc := Scanf(buf, RMC_FMT, RmcSlots(stale));
      var s := CStr(StrOf(ArgAt(sc.args, 0), stale));
      (DecodeRmc(buf, stale).ok <==>
         (sc.count == 13 || sc.count == 14) && (|s| == 6 || (8 <= |s| <= 10 && s[6] == '.'))) &&
      (DecodeRmc(buf, stale).ok ==> DecodeRmc(buf, stale).pack.utc == Pivot(ParseTime(s, DateOf(sc.args)).utc))
  {
    var sc := Scanf(buf, RMC_FMT, RmcSlots(stale));
    ParseTimeResult(CStr(StrOf(ArgAt(sc.args, 0), stale)), DateOf(sc.args));
  }

  /** The record an RMC sentence with the fields `toks1` before the date,
      the six date bytes `date` and the fields `toks2` after it stands for. */
  function RmcFromTokens(toks1: seq<seq<Byte>>, date: seq<Byte>, toks2: seq<seq<Byte>>, stale: seq<Byte>)
    : Decoded<RmcPack>
    requires |toks1| == 8 && |date| == 6 && |toks2| == 3
  {
    var d := Time(Atoi(date[4..6], 10), Atoi(date[2..4], 10), Atoi(date[0..2], 10), 0, 0, 0, 0);
    var t := ParseTime(CStr(if toks1[0] == [] then stale else toks1[0]), d);
    Decoded(t.code == 0,
            RmcPack(if t.code == 0 then Pivot(t.utc) else t.utc, ChrTok(toks1[1]), RealTok(toks1[2]),
                    ChrTok(toks1[3]), RealTok(toks1[4]), ChrTok(toks1[5]), RealTok(toks1[6]), RealTok(toks1[7]),
                    RealTok(toks2[0]), ChrTok(toks2[1]), ChrTok(toks2[2])))
  }

  // ---------------------------------------------------------------------
  // The scan of a sentence laid out as the template
  // ---------------------------------------------------------------------

  /** "%2d%2d%2d," at `fi`. */
  predicate DateFmt(fmt: seq<Byte>, fi: nat)
  {
    fi + 10 <= |fmt| && fmt[fi] == '%' && fmt[fi + 1] == '2' && fmt[fi + 2] == 'd' &&
    fmt[fi + 3] == '%' && fmt[fi + 4] == '2' && fmt[fi + 5] == 'd' &&
    fmt[fi + 6] == '%' && fmt[fi + 7] == '2' && fmt[fi + 8] == 'd' && fmt[fi + 9] == ','
  }

  lemma RmcHead()
    ensures |RMC_HEAD| == 7 && IsLiteral(RMC_HEAD) && IsLiteral(",")
  {
  }

  lemma RmcConvs()
    ensures ConvsOk(RMC_CONVS1) && ConvsOk(RMC_CONVS2)
  {
  }

  lemma DateAfter(pre: seq<Byte>, post: seq<Byte>)
    ensures DateFmt(pre + RMC_DATE + post, |pre|)
  {
    var f := pre + RMC_DATE + post;
    assert f[|pre|..|pre| + 10] == RMC_DATE;
  }

  lemma HeadBefore(post: seq<Byte>)
    ensures At(RMC_HEAD + post, 0, RMC_HEAD)
  {
  }

  /** Where the header, the two runs of fields and the date lie in the
      template. */
  lemma RmcFormat()
    ensures |RMC_FMT| == 50 && At(RMC_FMT, 0, RMC_HEAD) && DateFmt(RMC_FMT, 31)
    ensures FmtItems(RMC_FMT, 7, RMC_CONVS1, RMC_SEPS1, 31)
    ensures FmtItems(RMC_FMT, 41, RMC_CONVS2, RMC_SEPS2, 50)
  {
    RmcFormatHead();
    RmcFormatRun1();
    RmcFormatRun2();
  }

  lemma RmcFormatHead()
    ensures |RMC_FMT| == 50 && At(RMC_FMT, 0, RMC_HEAD) && DateFmt(RMC_FMT, 31)
    ensures RMC_FMT == RMC_HEAD + (Items(RMC_CONVS1, RMC_SEPS1) + RMC_DATE + Items(RMC_CONVS2, RMC_SEPS2))
  {
    var i1 := Items(RMC_CONVS1, RMC_SEPS1);
    var i2 := Items(RMC_CONVS2, RMC_SEPS2);
    assert RMC_FMT == RMC_HEAD + (i1 + RMC_DATE + i2);
    HeadBefore(i1 + RMC_DATE + i2);
    DateAfter(RMC_HEAD + i1, i2);
  }

  lemma RmcFormatRun1()
    ensures FmtItems(RMC_FMT, 7, RMC_CONVS1, RMC_SEPS1, 31)
  {
    var i2 := Items(RMC_CONVS2, RMC_SEPS2);
    ItemsLaid(RMC_HEAD, RMC_CONVS1, RMC_SEPS1, RMC_DATE + i2);
    assert RMC_FMT == RMC_HEAD + Items(RMC_CONVS1, RMC_SEPS1) + (RMC_DATE + i2);
  }

  lemma RmcFormatRun2()
    ensures FmtItems(RMC_FMT, 41, RMC_CONVS2, RMC_SEPS2, 50)
  {
    var pre := RMC_HEAD + Items(RMC_CONVS1, RMC_SEPS1) + RMC_DATE;
    ItemsLaid(pre, RMC_CONVS2, RMC_SEPS2, []);
    assert RMC_FMT == pre + Items(RMC_CONVS2, RMC_SEPS2) + [];
  }

  /** The slots after the three `%2d` fields at input index `pos`: day,
      month and year are the values of the three byte pairs. */
  function DateSlots(buf: seq<Byte>, pos: nat, a: seq<Option<Value>>): seq<Option<Value>>
    requires pos + 6 <= |buf| && |a| > 10
  {
    a[8 := Some(Int(Atoi(buf[pos..pos + 2], 10)))][9 := Some(Int(Atoi(buf[pos + 2..pos + 4], 10)))]
     [10 := Some(Int(Atoi(buf[pos + 4..pos + 6], 10)))]
  }

  /** The header and the first run, for any `f` that the steps do not
      change. */
  lemma RmcChainHead(f: Pt -> Scanned, buf: seq<Byte>, fmt: seq<Byte>, head: seq<Byte>, c1: seq<Byte>,
                     s1: seq<Byte>, args: seq<Option<Value>>, toks1: seq<seq<Byte>>, pe1: nat, a1: seq<Option<Value>>)
    requires |head| == 7 && IsLiteral(head) && At(fmt, 0, head) && At(buf, 0, head)
    requires RunOk(buf, fmt, Pt(7, 7, 0, 0, args), c1, s1, toks1, Pt(31, pe1, 8, 8, a1))
    requires forall q, lit :: LitsOk(buf, fmt, q, lit) ==> f(q) == f(Skip(q, |lit|))
    requires forall p, convs, seps, toks, e :: RunOk(buf, fmt, p, convs, seps, toks, e) ==>
      e.fi <= |fmt| && e.pos <= |buf| && f(p) == f(e)
    ensures f(Pt(0, 0, 0, 0, args)) == f(Pt(31, pe1, 8, 8, a1))
  {
    var p0 := Pt(0, 0, 0, 0, args);
    assert LitsOk(buf, fmt, p0, head);
    assert Skip(p0, |head|) == Pt(7, 7, 0, 0, args);
  }

  /** The three `%2d` fields of the date, for any `f` that such a step
      does not change. */
  lemma RmcChainDate(f: Pt -> Scanned, buf: seq<Byte>, fmt: seq<Byte>, pe1: nat, a1: seq<Option<Value>>)
    requires DateFmt(fmt, 31)
    requires pe1 + 6 <= |buf| && |a1| == 14 && a1[8].Some? && a1[9].Some? && a1[10].Some?
    requires forall q :: Width2Ok(buf, fmt, q) ==> f(q) == f(Width2Next(buf, q))
    ensures f(Pt(31, pe1, 8, 8, a1)) == f(Pt(40, pe1 + 6, 11, 11, DateSlots(buf, pe1, a1)))
  {
    var q0 := Pt(31, pe1, 8, 8, a1);
    assert Width2Ok(buf, fmt, q0);
    var q1 := Width2Next(buf, q0);
    assert Width2Ok(buf, fmt, q1);
    var q2 := Width2Next(buf, q1);
    assert Width2Ok(buf, fmt, q2);
    assert Width2Next(buf, q2) == Pt(40, pe1 + 6, 11, 11, DateSlots(buf, pe1, a1));
  }

  /** The ',' after the date and the second run, for any `f` that the
      steps do not change. */
  lemma RmcChainTail(f: Pt -> Scanned, buf: seq<Byte>, fmt: seq<Byte>, c2: seq<Byte>, s2: seq<Byte>,
                     pe1: nat, a2: seq<Option<Value>>, toks2: seq<seq<Byte>>, pe2: nat, a3: seq<Option<Value>>)
    requires |fmt| == 50 && IsLiteral(",") && DateFmt(fmt, 31)
    requires pe1 + 7 <= |buf| && buf[pe1 + 6] == ','
    requires RunOk(buf, fmt, Pt(41, pe1 + 7, 11, 11, a2), c2, s2, toks2, Pt(50, pe2, 14, 14, a3))
    requires forall q, lit :: LitsOk(buf, fmt, q, lit) ==> f(q) == f(Skip(q, |lit|))
    requires forall p, convs, seps, toks, e :: RunOk(buf, fmt, p, convs, seps, toks, e) ==>
      e.fi <= |fmt| && e.pos <= |buf| && f(p) == f(e)
    requires forall q :: Stops(buf, fmt, q) ==> f(q) == Scanned(q.count, q.args)
    ensures f(Pt(40, pe1 + 6, 11, 11, a2)) == Scanned(14, a3)
  {
    var q3 := Pt(40, pe1 + 6, 11, 11, a2);
    assert LitsOk(buf, fmt, q3, ",");
    assert Skip(q3, 1) == Pt(41, pe1 + 7, 11, 11, a2);
    assert Stops(buf, fmt, Pt(50, pe2, 14, 14, a3));
  }

  /** The slots after the whole scan of a laid-out sentence. */
  function RmcArgs(buf: seq<Byte>, args: seq<Option<Value>>, c1: seq<Byte>, toks1: seq<seq<Byte>>, pe1: nat,
                   c2: seq<Byte>, toks2: seq<seq<Byte>>): seq<Option<Value>>
    requires |args| == 14 && pe1 + 6 <= |buf| && |c1| == |toks1| == 8 && |c2| == |toks2| == 3
    requires ConvsOk(c1) && ConvsOk(c2)
  {
    Fill(DateSlots(buf, pe1, Fill(args, 0, c1, toks1)), 11, c2, toks2)
  }

  /** The premises of `RmcRuns`: a template of this shape, a seven-byte
      header, eight fields, the date and a ',', three fields, and a sentence
      laid out as it. */
  predicate RmcShape(buf: seq<Byte>, fmt: seq<Byte>, head: seq<Byte>, c1: seq<Byte>, s1: seq<Byte>, c2: seq<Byte>,
                     s2: seq<Byte>, toks1: seq<seq<Byte>>, pe1: nat, toks2: seq<seq<Byte>>, pe2: nat)
  {
    |fmt| == 50 && |head| == 7 && IsLiteral(head) && IsLiteral(",") && At(fmt, 0, head) && DateFmt(fmt, 31) &&
    |c1| == |s1| == 8 && |c2| == |s2| == 3 &&
    FmtItems(fmt, 7, c1, s1, 31) && FmtItems(fmt, 41, c2, s2, 50) &&
    At(buf, 0, head) &&
    |toks1| == 8 && ItemsOk(c1, s1, toks1) && Laid(buf, 7, toks1, s1, pe1) &&
    pe1 + 7 <= |buf| && buf[pe1 + 6] == ',' &&
    |toks2| == 3 && ItemsOk(c2, s2, toks2) && Laid(buf, pe1 + 7, toks2, s2, pe2)
  }

  /** Both runs of fields of such a sentence, with the slots in between. */
  lemma RmcRunsOk(buf: seq<Byte>, fmt: seq<Byte>, head: seq<Byte>, c1: seq<Byte>, s1: seq<Byte>, c2: seq<Byte>,
                  s2: seq<Byte>, toks1: seq<seq<Byte>>, pe1: nat, toks2: seq<seq<Byte>>, pe2: nat,
                  args: seq<Option<Value>>)
    requires RmcShape(buf, fmt, head, c1, s1, c2, s2, toks1, pe1, toks2, pe2)
    requires |args| == 14 && forall j :: 0 <= j < 14 ==> args[j].Some?
    ensures ConvsOk(c1) && ConvsOk(c2)
    ensures RunOk(buf, fmt, Pt(7, 7, 0, 0, args), c1, s1, toks1, Pt(31, pe1, 8, 8, Fill(args, 0, c1, toks1)))
    ensures var a1 := Fill(args, 0, c1, toks1);
      a1[8].Some? && a1[9].Some? && a1[10].Some? &&
      RunOk(buf, fmt, Pt(41, pe1 + 7, 11, 11, DateSlots(buf, pe1, a1)), c2, s2, toks2,
            Pt(50, pe2, 14, 14, RmcArgs(buf, args, c1, toks1, pe1, c2, toks2)))
  {
    ItemsConvs(c1, s1, toks1);
    ItemsConvs(c2, s2, toks2);
    FillAt(args, 0, c1, toks1);
    OpenAll(args, 0, 8);
    var a2 := DateSlots(buf, pe1, Fill(args, 0, c1, toks1));
    assert a2[11] == args[11] && a2[12] == args[12] && a2[13] == args[13];
    OpenAll(a2, 11, 3);
  }

  /** The scan of a sentence laid out as such a template: 14 fields, each
      stored into its slot. */
  lemma RmcRuns(buf: seq<Byte>, fmt: seq<Byte>, head: seq<Byte>, c1: seq<Byte>, s1: seq<Byte>, c2: seq<Byte>,
                s2: seq<Byte>, toks1: seq<seq<Byte>>, pe1: nat, toks2: seq<seq<Byte>>, pe2: nat,
                args: seq<Option<Value>>)
    requires RmcShape(buf, fmt, head, c1, s1, c2, s2, toks1, pe1, toks2, pe2)
    requires |args| == 14 && forall j :: 0 <= j < 14 ==> args[j].Some?
    ensures ConvsOk(c1) && ConvsOk(c2)
    ensures Scanf(buf, fmt, args) == Scanned(14, RmcArgs(buf, args, c1, toks1, pe1, c2, toks2))
  {
    RmcRunsOk(buf, fmt, head, c1, s1, c2, s2, toks1, pe1, toks2, pe2, args);
    var a1 := Fill(args, 0, c1, toks1);
    LiteralSteps(buf, fmt);
    RunSteps(buf, fmt);
    Width2Steps(buf, fmt);
    StopSteps(buf, fmt);
    RmcChainHead(q => ScanAt(buf, fmt, q), buf, fmt, head, c1, s1, args, toks1, pe1, a1);
    RmcChainDate(q => ScanAt(buf, fmt, q), buf, fmt, pe1, a1);
    RmcChainTail(q => ScanAt(buf, fmt, q), buf, fmt, c2, s2, pe1, DateSlots(buf, pe1, a1), toks2, pe2,
                 RmcArgs(buf, args, c1, toks1, pe1, c2, toks2));
  }

  /** The premises of `RmcLayout`: the header, the fields before the date
      ending at `pe1`, six date bytes and a ',', the fields after it. */
  predicate RmcLaid(buf: seq<Byte>, toks1: seq<seq<Byte>>, pe1: nat, toks2: seq<seq<Byte>>, pe2: nat)
  {
    At(buf, 0, RMC_HEAD) &&
    |toks1| == 8 && ItemsOk(RMC_CONVS1, RMC_SEPS1, toks1) && Laid(buf, |RMC_HEAD|, toks1, RMC_SEPS1, pe1) &&
    pe1 + 7 <= |buf| && buf[pe1 + 6] == ',' &&
    |toks2| == 3 && ItemsOk(RMC_CONVS2, RMC_SEPS2, toks2) && Laid(buf, pe1 + 7, toks2, RMC_SEPS2, pe2)
  }

  lemma RmcScan(buf: seq<Byte>, toks1: seq<seq<Byte>>, pe1: nat, toks2: seq<seq<Byte>>, pe2: nat, vals: seq<Value>)
    requires RmcLaid(buf, toks1, pe1, toks2, pe2) && |vals| == 14
    ensures ConvsOk(RMC_CONVS1) && ConvsOk(RMC_CONVS2)
    ensures Scanf(buf, RMC_FMT, Slots(vals)) ==
      Scanned(14, RmcArgs(buf, Slots(vals), RMC_CONVS1, toks1, pe1, RMC_CONVS2, toks2))
  {
    RmcHead();
    RmcFormat();
    RmcRuns(buf, RMC_FMT, RMC_HEAD, RMC_CONVS1, RMC_SEPS1, RMC_CONVS2, RMC_SEPS2, toks1, pe1, toks2, pe2, Slots(vals));
  }

  /** The conversion of each RMC field. */
  lemma RmcKinds()
    ensures IsStrConv(RMC_CONVS1[0]) && IsCharConv(RMC_CONVS1[1]) && IsRealConv(RMC_CONVS1[2]) &&
            IsCharConv(RMC_CONVS1[3]) && IsRealConv(RMC_CONVS1[4]) && IsCharConv(RMC_CONVS1[5]) &&
            IsRealConv(RMC_CONVS1[6]) && IsRealConv(RMC_CONVS1[7])
    ensures RMC_CONVS2[0] == 'f' && RMC_CONVS2[1] == 'C' && RMC_CONVS2[2] == 'C'
  {
  }

  /** The destinations before the scan hold the zeroed record's values. */
  lemma RmcBlanks(stale: seq<Byte>)
    ensures var a := RmcSlots(stale);
      a[0] == Some(Str(stale)) && a[1] == Some(Chr(NUL)) && a[2] == Some(Real(FZero)) && a[3] == Some(Chr(NUL)) &&
      a[4] == Some(Real(FZero)) && a[5] == Some(Chr(NUL)) && a[6] == Some(Real(FZero)) &&
      a[7] == Some(Real(FZero)) && a[8] == Some(Int(0)) && a[9] == Some(Int(0)) && a[10] == Some(Int(0)) &&
      a[11] == Some(Real(FZero)) && a[12] == Some(Chr(NUL)) && a[13] == Some(Chr(NUL))
  {
  }

  /** The slots of the fields before the date, read back, give each
      token's value; the later slots are untouched. */
  lemma RmcFill1(toks1: seq<seq<Byte>>, stale: seq<Byte>)
    requires |toks1| == 8 && ConvsOk(RMC_CONVS1)
    ensures var a := Fill(RmcSlots(stale), 0, RMC_CONVS1, toks1);
      StrOf(ArgAt(a, 0), stale) == (if toks1[0] == [] then stale else toks1[0]) &&
      ChrOf(ArgAt(a, 1), NUL) == ChrTok(toks1[1]) && RealOf(ArgAt(a, 2), FZero) == RealTok(toks1[2]) &&
      ChrOf(ArgAt(a, 3), NUL) == ChrTok(toks1[3]) && RealOf(ArgAt(a, 4), FZero) == RealTok(toks1[4]) &&
      ChrOf(ArgAt(a, 5), NUL) == ChrTok(toks1[5]) && RealOf(ArgAt(a, 6), FZero) == RealTok(toks1[6]) &&
      RealOf(ArgAt(a, 7), FZero) == RealTok(toks1[7]) &&
      a[11] == Some(Real(FZero)) && a[12] == Some(Chr(NUL)) && a[13] == Some(Chr(NUL))
  {
    var args := RmcSlots(stale);
    RmcKinds();
    RmcBlanks(stale);
    var a := Fill(args, 0, RMC_CONVS1, toks1);
    assert a[11] == Some(Real(FZero)) && a[12] == Some(Chr(NUL)) && a[13] == Some(Chr(NUL)) by {
      FillAt(args, 0, RMC_CONVS1, toks1);
    }
    StrSlot(args, RMC_CONVS1, toks1, 0, stale);
    ChrSlot(args, RMC_CONVS1, toks1, 1);
    RealSlot(args, RMC_CONVS1, toks1, 2);
    ChrSlot(args, RMC_CONVS1, toks1, 3);
    RealSlot(args, RMC_CONVS1, toks1, 4);
    ChrSlot(args, RMC_CONVS1, toks1, 5);
    RealSlot(args, RMC_CONVS1, toks1, 6);
    RealSlot(args, RMC_CONVS1, toks1, 7);
  }

  /** The slots of the fields after the date, read back, give each token's
      value; the earlier slots are untouched. */
  lemma RmcFill2(a2: seq<Option<Value>>, toks2: seq<seq<Byte>>)
    requires |a2| == 14 && |toks2| == 3 && ConvsOk(RMC_CONVS2)
    requires a2[11] == Some(Real(FZero)) && a2[12] == Some(Chr(NUL)) && a2[13] == Some(Chr(NUL))
    ensures var a := Fill(a2, 11, RMC_CONVS2, toks2);
      (forall j :: 0 <= j < 11 ==> a[j] == a2[j]) &&
      RealOf(ArgAt(a, 11), FZero) == RealTok(toks2[0]) && ChrOf(ArgAt(a, 12), NUL) == ChrTok(toks2[1]) &&
      ChrOf(ArgAt(a, 13), NUL) == ChrTok(toks2[2])
  {
    RmcKinds();
    FillAt(a2, 11, RMC_CONVS2, toks2);
    assert 11 + 0 == 11 && 11 + 1 == 12 && 11 + 2 == 13;
  }

  /** The slots of a laid-out sentence, read back: the time text, the date
      from the three byte pairs, and every other field's value. */
  lemma RmcFill(buf: seq<Byte>, toks1: seq<seq<Byte>>, pe1: nat, toks2: seq<seq<Byte>>, stale: seq<Byte>, utc: Time)
    requires |toks1| == 8 && |toks2| == 3 && pe1 + 6 <= |buf| && ConvsOk(RMC_CONVS1) && ConvsOk(RMC_CONVS2)
    ensures var a := RmcArgs(buf, RmcSlots(stale), RMC_CONVS1, toks1, pe1, RMC_CONVS2, toks2);
      StrOf(ArgAt(a, 0), stale) == (if toks1[0] == [] then stale else toks1[0]) &&
      DateOf(a) == Time(Atoi(buf[pe1 + 4..pe1 + 6], 10), Atoi(buf[pe1 + 2..pe1 + 4], 10), Atoi(buf[pe1..pe1 + 2], 10),
                        0, 0, 0, 0) &&
      RmcOf(a, utc) ==
        RmcPack(utc, ChrTok(toks1[1]), RealTok(toks1[2]), ChrTok(toks1[3]), RealTok(toks1[4]), ChrTok(toks1[5]),
                RealTok(toks1[6]), RealTok(toks1[7]), RealTok(toks2[0]), ChrTok(toks2[1]), ChrTok(toks2[2]))
  {
    RmcFill1(toks1, stale);
    var a1 := Fill(RmcSlots(stale), 0, RMC_CONVS1, toks1);
    var a2 := DateSlots(buf, pe1, a1);
    RmcFill2(a2, toks2);
    var a := Fill(a2, 11, RMC_CONVS2, toks2);
    assert a[0] == a1[0] && a[1] == a1[1] && a[2] == a1[2] && a[3] == a1[3] && a[4] == a1[4] &&
           a[5] == a1[5] && a[6] == a1[6] && a[7] == a1[7];
    assert a[8] == a2[8] && a[9] == a2[9] && a[10] == a2[10];
  }

  lemma DatePairs(buf: seq<Byte>, p: nat)
    requires p + 6 <= |buf|
    ensures var d := buf[p..p + 6];
      d[0..2] == buf[p..p + 2] && d[2..4] == buf[p + 2..p + 4] && d[4..6] == buf[p + 4..p + 6]
  {
    var d := buf[p..p + 6];
    assert d[0..2] == buf[p..p + 2] by { assert d[0] == buf[p] && d[1] == buf[p + 1]; }
    assert d[2..4] == buf[p + 2..p + 4] by { assert d[2] == buf[p + 2] && d[3] == buf[p + 3]; }
    assert d[4..6] == buf[p + 4..p + 6] by { assert d[4] == buf[p + 4] && d[5] == buf[p + 5]; }
  }

  /** An RMC sentence laid out as its template decodes to the record its
      tokens stand for. */
  lemma RmcLayout(buf: seq<Byte>, toks1: seq<seq<Byte>>, pe1: nat, toks2: seq<seq<Byte>>, pe2: nat, stale: seq<Byte>)
    requires RmcLaid(buf, toks1, pe1, toks2, pe2)
    ensures DecodeRmc(buf, stale) == RmcFromTokens(toks1, buf[pe1..pe1 + 6], toks2, stale)
  {
    RmcScan(buf, toks1, pe1, toks2, pe2, [Str(stale), Chr(NUL), Real(FZero), Chr(NUL), Real(FZero), Chr(NUL),
                                          Real(FZero), Real(FZero), Int(0), Int(0), Int(0), Real(FZero), Chr(NUL),
                                          Chr(NUL)]);
    DatePairs(buf, pe1);
    var d := buf[pe1..pe1 + 6];
    var date := Time(Atoi(d[4..6], 10), Atoi(d[2..4], 10), Atoi(d[0..2], 10), 0, 0, 0, 0);
    var t := ParseTime(CStr(if toks1[0] == [] then stale else toks1[0]), date);
    RmcFill(buf, toks1, pe1, toks2, stale, if t.code == 0 then Pivot(t.utc) else t.utc);
  }

  /** Only a sentence that starts with the RMC header is accepted. */
  lemma RmcNeedsHeader(buf: seq<Byte>, stale: seq<Byte>)
    ensures DecodeRmc(buf, stale).ok ==> At(buf, 0, RMC_HEAD)
  {
    RmcHead();
    RmcFormatHead();
    HeadNeeded(buf, RMC_HEAD, RMC_FMT[7..], RmcSlots(stale));
  }

  /** A text built from a header, a run of tokens, seven bytes that end in
      ',', another run and any tail holds each part where it was put. */
  lemma BuiltLaid(head: seq<Byte>, toks1: seq<seq<Byte>>, s1: seq<Byte>, mid: seq<Byte>, toks2: seq<seq<Byte>>,
                  s2: seq<Byte>, tail: seq<Byte>)
    requires |toks1| == |s1| && |toks2| == |s2| && |mid| == 7 && mid[6] == ','
    ensures var buf := head + Lay(toks1, s1) + mid + Lay(toks2, s2) + tail;
      var pe1 := |head| + |Lay(toks1, s1)|;
      At(buf, 0, head) && Laid(buf, |head|, toks1, s1, pe1) && pe1 + 7 <= |buf| && buf[pe1 + 6] == ',' &&
      buf[pe1..pe1 + 6] == mid[..6] && Laid(buf, pe1 + 7, toks2, s2, pe1 + 7 + |Lay(toks2, s2)|)
  {
    var l1 := Lay(toks1, s1);
    var l2 := Lay(toks2, s2);
    var buf := head + l1 + mid + l2 + tail;
    LayLaid(head, toks1, s1, mid + l2 + tail);
    assert buf == head + l1 + (mid + l2 + tail);
    LayLaid(head + l1 + mid, toks2, s2, tail);
    assert buf[|head| + |l1|..|head| + |l1| + 7] == mid;
    assert forall k :: 0 <= k < |head| ==> buf[k] == head[k];
  }

  /** A sentence built from the RMC header, the fields before the date,
      seven bytes of date and ',', the fields after it and any tail is laid
      out as the template. */
  lemma RmcBuilt(toks1: seq<seq<Byte>>, mid: seq<Byte>, toks2: seq<seq<Byte>>, tail: seq<Byte>)
    requires |toks1| == 8 && ItemsOk(RMC_CONVS1, RMC_SEPS1, toks1)
    requires |mid| == 7 && mid[6] == ','
    requires |toks2| == 3 && ItemsOk(RMC_CONVS2, RMC_SEPS2, toks2)
    ensures var l1 := Lay(toks1, RMC_SEPS1);
      var buf := RMC_HEAD + l1 + mid + Lay(toks2, RMC_SEPS2) + tail;
      var pe1 := 7 + |l1|;
      RmcLaid(buf, toks1, pe1, toks2, pe1 + 7 + |Lay(toks2, RMC_SEPS2)|) && buf[pe1..pe1 + 6] == mid[..6]
  {
    RmcHead();
    BuiltLaid(RMC_HEAD, toks1, RMC_SEPS1, mid, toks2, RMC_SEPS2, tail);
  }

  // ---------------------------------------------------------------------
  // The RMC sample sentence of the library's test command
  // ---------------------------------------------------------------------

  const SAMPLE_TOKS1: seq<seq<Byte>> := ["031024.000", "A", "3115.6422", "N", "12127.5490", "E", "0.58", "98.86"]
  const SAMPLE_DATE: seq<Byte> := "180918,"
  const SAMPLE_TOKS2: seq<seq<Byte>> := ["", "", "A"]
  const SAMPLE_TAIL: seq<Byte> := "5A\r\n"
  /** "$GPRMC,031024.000,A,3115.6422,N,12127.5490,E,0.58,98.86,180918,,,A*5A\r\n" */
  const RMC_SAMPLE: seq<Byte> :=
    RMC_HEAD + Lay(SAMPLE_TOKS1, RMC_SEPS1) + SAMPLE_DATE + Lay(SAMPLE_TOKS2, RMC_SEPS2) + SAMPLE_TAIL
  /** The record the sample stands for: 03:10:24 UTC on 18 September 2018,
      a valid fix, the position, speed and track as written. */
  const SAMPLE_FIX: RmcPack :=
    RmcPack(Time(118, 8, 18, 3, 10, 24, 0), 'A', FParsed("3115.6422"), 'N', FParsed("12127.5490"),
            'E', FParsed("0.58"), FParsed("98.86"), FZero, NUL, 'A')

  lemma SampleFields()
    ensures |SAMPLE_TOKS1| == 8 && ItemsOk(RMC_CONVS1, RMC_SEPS1, SAMPLE_TOKS1)
    ensures |SAMPLE_TOKS2| == 3 && ItemsOk(RMC_CONVS2, RMC_SEPS2, SAMPLE_TOKS2)
  {
    SampleItems1();
    SampleItems2();
    ItemsOkAll(RMC_CONVS1, RMC_SEPS1, SAMPLE_TOKS1);
    ItemsOkAll(RMC_CONVS2, RMC_SEPS2, SAMPLE_TOKS2);
  }

  lemma SampleItems1()
    ensures |RMC_CONVS1| == |RMC_SEPS1| == |SAMPLE_TOKS1| == 8
    ensures forall i :: 0 <= i < 8 ==> ItemOk(RMC_CONVS1[i], RMC_SEPS1[i], SAMPLE_TOKS1[i])
  {
  }

  lemma SampleItems2()
    ensures |RMC_CONVS2| == |RMC_SEPS2| == |SAMPLE_TOKS2| == 3
    ensures forall i :: 0 <= i < 3 ==> ItemOk(RMC_CONVS2[i], RMC_SEPS2[i], SAMPLE_TOKS2[i])
  {
  }

  lemma SampleLengths()
    ensures |Lay(SAMPLE_TOKS1, RMC_SEPS1)| == 49
    ensures |Lay(SAMPLE_TOKS2, RMC_SEPS2)| == 4
  {
  }

  lemma SampleDateShape()
    ensures |SAMPLE_DATE| == 7 && SAMPLE_DATE[6] == ',' && SAMPLE_DATE[..6] == "180918"
  {
  }

  /** The sample is laid out as the template: eight fields ending at 56, the
      date "180918" and a ',', three fields ending at 67. */
  lemma SampleLaid()
    ensures RmcLaid(RMC_SAMPLE, SAMPLE_TOKS1, 56, SAMPLE_TOKS2, 67) && RMC_SAMPLE[56..62] == "180918"
  {
    SampleFields();
    SampleLengths();
    SampleDateShape();
    RmcBuilt(SAMPLE_TOKS1, SAMPLE_DATE, SAMPLE_TOKS2, SAMPLE_TAIL);
  }

  /** What the sample's tokens stand for. */
  lemma SampleRecord(stale: seq<Byte>)
    ensures RmcFromTokens(SAMPLE_TOKS1, "180918", SAMPLE_TOKS2, stale) ==
      Decoded(true, SAMPLE_FIX)
  {
    SampleDate();
    SampleClock();
  }

  lemma SampleDate()
    ensures var d: seq<Byte> := "180918";
      Atoi(d[4..6], 10) == 18 && Atoi(d[2..4], 10) == 9 && Atoi(d[0..2], 10) == 18
  {
    var d: seq<Byte> := "180918";
    TwoDigits(d[0..2], '1', '8');
    TwoDigits(d[2..4], '0', '9');
    TwoDigits(d[4..6], '1', '8');
    AtoiOfDigits(d[0..2]);
    AtoiOfDigits(d[2..4]);
    AtoiOfDigits(d[4..6]);
  }

  lemma SampleClock()
    ensures var t := ParseTime(CStr(SAMPLE_TOKS1[0]), Time(18, 9, 18, 0, 0, 0, 0));
      t.code == 0 && t.utc == Time(18, 9, 18, 3, 10, 24, 0)
  {
    var s := SAMPLE_TOKS1[0];
    assert s == "031024.000";
    assert forall k :: 0 <= k < |s| ==> s[k] != NUL;
    CStrWhole(s);
    assert s[0] == '0' && s[1] == '3' && s[2] == '1' && s[3] == '0' && s[4] == '2' && s[5] == '4';
    assert s[6] == '.' && s[7] == '0' && s[8] == '0' && s[9] == '0';
    ClockDigits(s, Time(18, 9, 18, 0, 0, 0, 0));
  }

  lemma ClockDigits(s: seq<Byte>, res: Time)
    requires |s| == 10 && s[0] == '0' && s[1] == '3' && s[2] == '1' && s[3] == '0' && s[4] == '2' && s[5] == '4'
    requires s[6] == '.' && s[7] == '0' && s[8] == '0' && s[9] == '0'
    ensures ParseTime(s, res).code == 0 && ParseTime(s, res).utc == res.(hour := 3, min := 10, sec := 24, hsec := 0)
  {
    assert s[0..2] == [s[0], s[1]] && s[2..4] == [s[2], s[3]] && s[4..6] == [s[4], s[5]];
    assert s[7..] == [s[7], s[8], s[9]];
    TwoDigits(s[0..2], '0', '3');
    TwoDigits(s[2..4], '1', '0');
    TwoDigits(s[4..6], '2', '4');
    ThreeZeros(s[7..]);
    ParseTimeDigits(s, res);
  }

  /** The value of two decimal digits. */
  lemma TwoDigits(d: seq<Byte>, hi: Byte, lo: Byte)
    requires d == [hi, lo] && '0' <= hi <= '9' && '0' <= lo <= '9'
    ensures AllDigits(d, 10) && DigitsValue(d, 10) == 10 * (hi as int - '0' as int) + (lo as int - '0' as int)
  {
    assert IsRadixDigit(hi, 10) && IsRadixDigit(lo, 10);
    assert AllDigits(d, 10);
    var t := d[1..];
    assert t == [lo] && t[1..] == [];
    assert DigitsValue(t[1..], 10) == 0;
    assert DigitsValue(t, 10) == DigitValue(lo) * Pow(10, 0) + 0;
    assert DigitsValue(d, 10) == DigitValue(hi) * Pow(10, 1) + DigitsValue(t, 10);
  }

  lemma ThreeZeros(d: seq<Byte>)
    requires d == "000"
    ensures AllDigits(d, 10) && DigitsValue(d, 10) == 0
  {
    assert IsRadixDigit('0', 10);
    assert AllDigits(d, 10);
    var t := d[1..];
    var u := t[1..];
    assert t == "00" && u == "0" && u[1..] == [];
    assert DigitsValue(u[1..], 10) == 0;
    assert DigitsValue(u, 10) == 0;
    assert DigitsValue(t, 10) == 0;
  }

  /** The RMC sample of the library's test command resolves 14 fields and
      decodes to 03:10:24.00 on day 18 of month 8 (0-based) of year 118
      (since 1900), status 'A'. */
  lemma SampleDecodes(stale: seq<Byte>)
    ensures Scanf(RMC_SAMPLE, RMC_FMT, RmcSlots(stale)).count == 14
    ensures DecodeRmc(RMC_SAMPLE, stale) ==
      Decoded(true, SAMPLE_FIX)
  {
    SampleLaid();
    RmcScan(RMC_SAMPLE, SAMPLE_TOKS1, 56, SAMPLE_TOKS2, 67,
            [Str(stale), Chr(NUL), Real(FZero), Chr(NUL), Real(FZero), Chr(NUL), Real(FZero), Real(FZero), Int(0),
             Int(0), Int(0), Real(FZero), Chr(NUL), Chr(NUL)]);
    RmcLayout(RMC_SAMPLE, SAMPLE_TOKS1, 56, SAMPLE_TOKS2, 67, stale);
    SampleRecord(stale);
  }
}
