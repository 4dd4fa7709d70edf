/** The time-field decoder and the five sentence decoders (GGA, GSA, GSV,
    RMC, VTG): each runs the tokenizer against a fixed template into the
    fields of a zeroed record and accepts or rejects on the number of
    resolved fields and a few checks after the scan. */
module NmeaDecode {
  import opened NmeaTypes
  import opened NmeaScan
  import opened NmeaFields

  // ---------------------------------------------------------------------
  // Reading the slots back
  // ---------------------------------------------------------------------

  function IntOf(v: Option<Value>, d: int): int
  {
    match v
    case Some(Int(n)) => n
    case _ => d
  }

  function RealOf(v: Option<Value>, d: Float): Float
  {
    match v
    case Some(Real(x)) => x
    case _ => d
  }

  function ChrOf(v: Option<Value>, d: Byte): Byte
  {
    match v
    case Some(Chr(c)) => c
    case _ => d
  }

  function StrOf(v: Option<Value>, d: seq<Byte>): seq<Byte>
  {
    match v
    case Some(Str(s)) => s
    case _ => d
  }

  /** The C string held in a byte buffer: the bytes before the first NUL
      (what strlen measures). */
  function CStr(s: seq<Byte>): (r: seq<Byte>)
    ensures |r| <= |s| && r == s[..|r|]
    ensures forall k :: 0 <= k < |r| ==> r[k] != NUL
    ensures |r| < |s| ==> s[|r|] == NUL
  {
    if s == [] || s[0] == NUL then [] else [s[0]] + CStr(s[1..])
  }

  /** A text without NUL bytes is a C string of its own. */
  lemma {:induction false} CStrWhole(s: seq<Byte>)
    requires forall k :: 0 <= k < |s| ==> s[k] != NUL
    ensures CStr(s) == s
    decreases |s|
  {
    if s != [] {
      assert s[0] != NUL;
      CStrWhole(s[1..]);
      assert [s[0]] + s[1..] == s;
    }
  }

  // ---------------------------------------------------------------------
  // _nmea_parse_time
  // ---------------------------------------------------------------------

  const TIME_FMT6: seq<Byte> := "%2d%2d%2d"
  const TIME_FMT_FRAC: seq<Byte> := "%2d%2d%2d.%d"

  /** The return code (0 or -1) and the time record after the call. */
  datatype TimeParsed = TimeParsed(code: int, utc: Time)

  function TimeSlots(t: Time): seq<Option<Value>>
  {
    [Some(Int(t.hour)), Some(Int(t.min)), Some(Int(t.sec)), Some(Int(t.hsec))]
  }

  /** The time record with hour, minute, second and hundredths read from the
      slots the scan filled. */
  function TimeOf(t: Time, a: seq<Option<Value>>): Time
  {
    t.(hour := IntOf(ArgAt(a, 0), t.hour), min := IntOf(ArgAt(a, 1), t.min),
       sec := IntOf(ArgAt(a, 2), t.sec), hsec := IntOf(ArgAt(a, 3), t.hsec))
  }

  /** _nmea_parse_time(s, |s|, res): "hhmmss" or "hhmmss.s" to "hhmmss.sss",
      dispatched on the length; the scan writes into `res` also when it
      fails. */
  function ParseTime(s: seq<Byte>, res: Time): (r: TimeParsed)
    ensures r.code == 0 || r.code == -1
    ensures r.utc.year == res.year && r.utc.mon == res.mon && r.utc.day == res.day
  {
    if |s| == 6 then
      var sc := Scanf(s, TIME_FMT6, TimeSlots(res)[..3]);
      TimeParsed(if sc.count == 3 then 0 else -1, TimeOf(res, sc.args))
    else if 8 <= |s| <= 10 then
      var sc := Scanf(s, TIME_FMT_FRAC, TimeSlots(res));
      TimeParsed(if sc.count == 4 then 0 else -1, TimeOf(res, sc.args))
    else TimeParsed(-1, res)
  }

  /** The slots after the three `%2d` fields: the values of the first three
      byte pairs of `s`. */
  function Clock(s: seq<Byte>, args: seq<Option<Value>>): seq<Option<Value>>
    requires |s| >= 6 && |args| >= 3
  {
    args[0 := Some(Int(Atoi(s[0..2], 10)))][1 := Some(Int(Atoi(s[2..4], 10)))][2 := Some(Int(Atoi(s[4..6], 10)))]
  }

  /** Both templates start with three `%2d` specifiers. */
  predicate ClockFmt(fmt: seq<Byte>)
  {
    |fmt| >= 9 && fmt[0] == '%' && fmt[1] == '2' && fmt[2] == 'd' && fmt[3] == '%' && fmt[4] == '2' &&
    fmt[5] == 'd' && fmt[6] == '%' && fmt[7] == '2' && fmt[8] == 'd'
  }

  /** The three `%2d` steps, for any `f` that one such step does not change. */
  lemma ClockChain(f: Pt -> Scanned, s: seq<Byte>, fmt: seq<Byte>, args: seq<Option<Value>>)
    requires ClockFmt(fmt) && |s| >= 6
    requires |args| >= 3 && args[0].Some? && args[1].Some? && args[2].Some?
    requires forall q :: Width2Ok(s, fmt, q) ==> f(q) == f(Width2Next(s, q))
    ensures f(Pt(0, 0, 0, 0, args)) == f(Pt(9, 6, 3, 3, Clock(s, args)))
  {
    var p0 := Pt(0, 0, 0, 0, args);
    assert Width2Ok(s, fmt, p0);
    var p1 := Width2Next(s, p0);
    assert Width2Ok(s, fmt, p1);
    var p2 := Width2Next(s, p1);
    assert Width2Ok(s, fmt, p2);
  }

  /** The scan of "%2d%2d%2d" reads the three byte pairs. */
  lemma TimeScan6(s: seq<Byte>, args: seq<Option<Value>>)
    requires |s| >= 6 && |args| == 3 && args[0].Some? && args[1].Some? && args[2].Some?
    ensures Scanf(s, TIME_FMT6, args) == Scanned(3, Clock(s, args))
  {
    Width2Steps(s, TIME_FMT6);
    ClockChain(q => ScanAt(s, TIME_FMT6, q), s, TIME_FMT6, args);
    StopSteps(s, TIME_FMT6);
    assert Stops(s, TIME_FMT6, Pt(9, 6, 3, 3, Clock(s, args)));
  }

  /** The scan of "%2d%2d%2d.%d" reads the three byte pairs, and the rest
      after a '.'. */
  lemma TimeScanFrac(s: seq<Byte>, args: seq<Option<Value>>)
    requires |s| > 7 && |args| == 4 && args[0].Some? && args[1].Some? && args[2].Some? && args[3].Some?
    ensures Scanf(s, TIME_FMT_FRAC, args) ==
      if s[6] == '.' then Scanned(4, Clock(s, args)[3 := Some(Int(Atoi(s[7..], 10)))])
      else Scanned(3, Clock(s, args))
  {
    var fmt := TIME_FMT_FRAC;
    var p3 := Pt(9, 6, 3, 3, Clock(s, args));
    assert ScanAt(s, fmt, Pt(0, 0, 0, 0, args)) == ScanAt(s, fmt, p3) by {
      Width2Steps(s, fmt);
      ClockChain(q => ScanAt(s, fmt, q), s, fmt, args);
    }
    assert ScanAt(s, fmt, p3) ==
      if s[6] == '.' then Scanned(4, Clock(s, args)[3 := Some(Int(Atoi(s[7..], 10)))])
      else Scanned(3, Clock(s, args)) by {
      LiteralSteps(s, fmt);
      LastIntSteps(s, fmt);
      StopSteps(s, fmt);
      FracChain(q => ScanAt(s, fmt, q), s, Clock(s, args));
    }
  }

  /** After the clock fields of "%2d%2d%2d.%d": a '.' and the rest of the
      input, for any `f` that the steps do not change. */
  lemma FracChain(f: Pt -> Scanned, s: seq<Byte>, a: seq<Option<Value>>)
    requires |s| > 7 && |a| == 4 && a[3].Some?
    requires forall q :: Stops(s, TIME_FMT_FRAC, q) ==> f(q) == Scanned(q.count, q.args)
    requires forall q, lit :: LitsOk(s, TIME_FMT_FRAC, q, lit) ==> f(q) == f(Skip(q, |lit|))
    requires forall q :: LastIntOk(s, TIME_FMT_FRAC, q) ==>
      f(q) == Scanned(q.count + 1, q.args[q.ai := Some(Int(Atoi(s[q.pos..], 10)))])
    ensures f(Pt(9, 6, 3, 3, a)) ==
      if s[6] == '.' then Scanned(4, a[3 := Some(Int(Atoi(s[7..], 10)))]) else Scanned(3, a)
  {
    var p3 := Pt(9, 6, 3, 3, a);
    if s[6] == '.' {
      assert LitsOk(s, TIME_FMT_FRAC, p3, ".");
      assert LastIntOk(s, TIME_FMT_FRAC, Skip(p3, 1));
    } else {
      assert Stops(s, TIME_FMT_FRAC, p3);
    }
  }

  /** Which texts _nmea_parse_time accepts, and what it reads from them:
      any six bytes, or eight to ten bytes with a '.' after the first six;
      hour, minute and second are the values of the byte pairs, the
      hundredths the value of everything after the '.'. */
  lemma ParseTimeResult(s: seq<Byte>, res: Time)
    ensures ParseTime(s, res).code == 0 <==> |s| == 6 || (8 <= |s| <= 10 && s[6] == '.')
    ensures !(|s| == 6 || 8 <= |s| <= 10) ==> ParseTime(s, res).utc == res
    ensures |s| == 6 || 8 <= |s| <= 10 ==>
      ParseTime(s, res).utc.hour == Atoi(s[0..2], 10) && ParseTime(s, res).utc.min == Atoi(s[2..4], 10) &&
      ParseTime(s, res).utc.sec == Atoi(s[4..6], 10)
    ensures ParseTime(s, res).utc.hsec ==
      if 8 <= |s| <= 10 && s[6] == '.' then Atoi(s[7..], 10) else res.hsec
  {
    if |s| == 6 {
      TimeScan6(s, TimeSlots(res)[..3]);
    } else if 8 <= |s| <= 10 {
      TimeScanFrac(s, TimeSlots(res));
    }
  }

  /** A time field of digits decodes to its positional values. */
  lemma ParseTimeDigits(s: seq<Byte>, res: Time)
    requires |s| == 6 || (8 <= |s| <= 10 && s[6] == '.')
    requires AllDigits(s[0..2], 10) && AllDigits(s[2..4], 10) && AllDigits(s[4..6], 10)
    requires |s| > 6 ==> AllDigits(s[7..], 10)
    ensures ParseTime(s, res).code == 0
    ensures ParseTime(s, res).utc.hour == DigitsValue(s[0..2], 10)
    ensures ParseTime(s, res).utc.min == DigitsValue(s[2..4], 10)
    ensures ParseTime(s, res).utc.sec == DigitsValue(s[4..6], 10)
    ensures |s| > 6 ==> ParseTime(s, res).utc.hsec == DigitsValue(s[7..], 10)
  {
    ParseTimeResult(s, res);
    AtoiOfDigits(s[0..2]);
    AtoiOfDigits(s[2..4]);
    AtoiOfDigits(s[4..6]);
    if |s| > 6 {
      AtoiOfDigits(s[7..]);
    }
  }

  // ---------------------------------------------------------------------
  // Decoders
  // ---------------------------------------------------------------------

  /** Whether the decoder accepted the sentence, and the record it filled
      (also on rejection: the record is written before the checks). */
  datatype Decoded<T> = Decoded(ok: bool, pack: T)

  /** What a field's token gives: nothing is written for an empty token, so
      the zeroed record's value stays. */
  function RealTok(t: seq<Byte>): Float { if t == [] then FZero else FParsed(t) }
  function ChrTok(t: seq<Byte>): Byte { if t == [] then NUL else t[0] }
  function IntTok(t: seq<Byte>): int { if t == [] then 0 else Atoi(t, 10) }

  /** Destinations that are all given. */
  function Slots(vals: seq<Value>): (r: seq<Option<Value>>)
    ensures |r| == |vals| && forall j :: 0 <= j < |r| ==> r[j] == Some(vals[j])
  {
    seq(|vals|, j requires 0 <= j < |vals| => Some(vals[j]))
  }

  /** A `%f` field's slot after the run: the token's number, or zero when
      the token is empty. */
  lemma RealSlot(args: seq<Option<Value>>, convs: seq<Byte>, toks: seq<seq<Byte>>, i: nat)
    requires ConvsOk(convs) && |convs| == |toks| <= |args| && i < |toks|
    requires IsRealConv(convs[i]) && args[i] == Some(Real(FZero))
    ensures RealOf(ArgAt(Fill(args, 0, convs, toks), i), FZero) == RealTok(toks[i])
  {
    FillAt(args, 0, convs, toks);
  }

  /** A `%C` field's slot after the run: the token's first byte, or NUL. */
  lemma ChrSlot(args: seq<Option<Value>>, convs: seq<Byte>, toks: seq<seq<Byte>>, i: nat)
    requires ConvsOk(convs) && |convs| == |toks| <= |args| && i < |toks|
    requires IsCharConv(convs[i]) && args[i] == Some(Chr(NUL))
    ensures ChrOf(ArgAt(Fill(args, 0, convs, toks), i), NUL) == ChrTok(toks[i])
  {
    FillAt(args, 0, convs, toks);
  }

  /** A `%d` field's slot after the run: the token's decimal value, or 0. */
  lemma IntSlot(args: seq<Option<Value>>, convs: seq<Byte>, toks: seq<seq<Byte>>, i: nat)
    requires ConvsOk(convs) && |convs| == |toks| <= |args| && i < |toks|
    requires convs[i] == 'd' && args[i] == Some(Int(0))
    ensures IntOf(ArgAt(Fill(args, 0, convs, toks), i), 0) == IntTok(toks[i])
  {
    FillAt(args, 0, convs, toks);
    var a := Fill(args, 0, convs, toks);
    if toks[i] != [] {
      assert a[i] == Some(Converted('d', toks[i]));
      assert Converted('d', toks[i]) == Int(Atoi(toks[i], 10));
    }
  }

  /** A `%s` field's slot after the run: the token, or the old text. */
  lemma StrSlot(args: seq<Option<Value>>, convs: seq<Byte>, toks: seq<seq<Byte>>, i: nat, prev: seq<Byte>)
    requires ConvsOk(convs) && |convs| == |toks| <= |args| && i < |toks|
    requires IsStrConv(convs[i]) && args[i] == Some(Str(prev))
    ensures StrOf(ArgAt(Fill(args, 0, convs, toks), i), prev) == if toks[i] == [] then prev else toks[i]
  {
    FillAt(args, 0, convs, toks);
  }

  // GGA -----------------------------------------------------------------

  const GGA_HEAD: seq<Byte> := "$GPGGA,"
  const GGA_CONVS: seq<Byte> := "sfCfCddffCfCfd"
  const GGA_SEPS: seq<Byte> := ",,,,,,,,,,,,,*"
  /** "$GPGGA,%s,%f,%C,%f,%C,%d,%d,%f,%f,%C,%f,%C,%f,%d*" */
  const GGA_FMT: seq<Byte> := GGA_HEAD + Items(GGA_CONVS, GGA_SEPS)

  /** The destinations: the time buffer (holding `stale` before the scan),
      then the zeroed record's fields. */
  function GgaSlots(stale: seq<Byte>): seq<Option<Value>>
  {
    Slots([Str(stale), Real(FZero), Chr(NUL), Real(FZero), Chr(NUL), Int(0), Int(0), Real(FZero), Real(FZero),
           Chr(NUL), Real(FZero), Chr(NUL), Real(FZero), Int(0)])
  }

  function GgaOf(a: seq<Option<Value>>, utc: Time): GgaPack
  {
    GgaPack(utc, RealOf(ArgAt(a, 1), FZero), ChrOf(ArgAt(a, 2), NUL), RealOf(ArgAt(a, 3), FZero),
            ChrOf(ArgAt(a, 4), NUL), IntOf(ArgAt(a, 5), 0), IntOf(ArgAt(a, 6), 0), RealOf(ArgAt(a, 7), FZero),
            RealOf(ArgAt(a, 8), FZero), ChrOf(ArgAt(a, 9), NUL), RealOf(ArgAt(a, 10), FZero),
            ChrOf(ArgAt(a, 11), NUL), RealOf(ArgAt(a, 12), FZero), IntOf(ArgAt(a, 13), 0))
  }

  /** nmea_parse_GPGGA: 14 fields, then the time text that the `%s` field
      left in the time buffer (`stale` stands for the buffer's content
      before the scan). */
  function DecodeGga(buf: seq<Byte>, stale: seq<Byte>): Decoded<GgaPack>
  {
    var sc := Scanf(buf, GGA_FMT, GgaSlots(stale));
    if sc.count != 14 then Decoded(false, GgaOf(sc.args, ZeroTime))
    else
      var t := ParseTime(CStr(StrOf(ArgAt(sc.args, 0), stale)), ZeroTime);
      Decoded(t.code == 0, GgaOf(sc.args, t.utc))
  }

  /** The record a GGA sentence with field tokens `toks` stands for. */
  function GgaFromTokens(toks: seq<seq<Byte>>, stale: seq<Byte>): Decoded<GgaPack>
    requires |toks| == 14
  {
    var t := ParseTime(CStr(if toks[0] == [] then stale else toks[0]), ZeroTime);
    Decoded(t.code == 0,
            GgaPack(t.utc, RealTok(toks[1]), ChrTok(toks[2]), RealTok(toks[3]), ChrTok(toks[4]), IntTok(toks[5]),
                    IntTok(toks[6]), RealTok(toks[7]), RealTok(toks[8]), ChrTok(toks[9]), RealTok(toks[10]),
                    ChrTok(toks[11]), RealTok(toks[12]), IntTok(toks[13])))
  }

  lemma GgaHead()
    ensures IsLiteral(GGA_HEAD)
  {
  }

  lemma GgaConvs()
    ensures ConvsOk(GGA_CONVS)
  {
  }

  lemma GgaScan(buf: seq<Byte>, toks: seq<seq<Byte>>, pe: nat, vals: seq<Value>)
    requires At(buf, 0, GGA_HEAD) && |vals| == 14
    requires |toks| == 14 && ItemsOk(GGA_CONVS, GGA_SEPS, toks) && Laid(buf, |GGA_HEAD|, toks, GGA_SEPS, pe)
    ensures ConvsOk(GGA_CONVS)
    ensures Scanf(buf, GGA_FMT, Slots(vals)) == Scanned(14, Fill(Slots(vals), 0, GGA_CONVS, toks))
  {
    GgaConvs();
    var args := Slots(vals);
    assert Scanf(buf, GGA_HEAD + Items(GGA_CONVS, GGA_SEPS), args) == Scanned(14, Fill(args, 0, GGA_CONVS, toks)) by {
      GgaHead();
      TemplateItems(buf, GGA_HEAD, GGA_CONVS, GGA_SEPS, toks, pe, args);
    }
  }

  /** The conversion of each GGA field. */
  lemma GgaKinds()
    ensures IsStrConv(GGA_CONVS[0]) && IsRealConv(GGA_CONVS[1]) && IsCharConv(GGA_CONVS[2]) &&
            IsRealConv(GGA_CONVS[3]) && IsCharConv(GGA_CONVS[4]) && GGA_CONVS[5] == 'd' && GGA_CONVS[6] == 'd' &&
            IsRealConv(GGA_CONVS[7]) && IsRealConv(GGA_CONVS[8]) && IsCharConv(GGA_CONVS[9]) &&
            IsRealConv(GGA_CONVS[10]) && IsCharConv(GGA_CONVS[11]) && IsRealConv(GGA_CONVS[12]) && GGA_CONVS[13] == 'd'
  {
  }

  /** The destinations before the scan hold the zeroed record's values. */
  lemma GgaBlanks(stale: seq<Byte>)
    ensures var a := GgaSlots(stale);
      a[0] == Some(Str(stale)) && a[1] == Some(Real(FZero)) && a[2] == Some(Chr(NUL)) &&
      a[3] == Some(Real(FZero)) && a[4] == Some(Chr(NUL)) && a[5] == Some(Int(0)) && a[6] == Some(Int(0)) &&
      a[7] == Some(Real(FZero)) && a[8] == Some(Real(FZero)) && a[9] == Some(Chr(NUL)) &&
      a[10] == Some(Real(FZero)) && a[11] == Some(Chr(NUL)) && a[12] == Some(Real(FZero)) && a[13] == Some(Int(0))
  {
  }

  /** The slots a GGA scan fills, read back, give each token's value. */
  lemma GgaFill(toks: seq<seq<Byte>>, stale: seq<Byte>, utc: Time)
    requires |toks| == 14 && ConvsOk(GGA_CONVS)
    ensures StrOf(ArgAt(Fill(GgaSlots(stale), 0, GGA_CONVS, toks), 0), stale) == if toks[0] == [] then stale else toks[0]
    ensures GgaOf(Fill(GgaSlots(stale), 0, GGA_CONVS, toks), utc) ==
      GgaPack(utc, RealTok(toks[1]), ChrTok(toks[2]), RealTok(toks[3]), ChrTok(toks[4]), IntTok(toks[5]),
              IntTok(toks[6]), RealTok(toks[7]), RealTok(toks[8]), ChrTok(toks[9]), RealTok(toks[10]),
              ChrTok(toks[11]), RealTok(toks[12]), IntTok(toks[13]))
  {
    var args := GgaSlots(stale);
    GgaKinds();
    GgaBlanks(stale);
    StrSlot(args, GGA_CONVS, toks, 0, stale);
    RealSlot(args, GGA_CONVS, toks, 1);
    ChrSlot(args, GGA_CONVS, toks, 2);
    RealSlot(args, GGA_CONVS, toks, 3);
    ChrSlot(args, GGA_CONVS, toks, 4);
    IntSlot(args, GGA_CONVS, toks, 5);
    IntSlot(args, GGA_CONVS, toks, 6);
    RealSlot(args, GGA_CONVS, toks, 7);
    RealSlot(args, GGA_CONVS, toks, 8);
    ChrSlot(args, GGA_CONVS, toks, 9);
    RealSlot(args, GGA_CONVS, toks, 10);
    ChrSlot(args, GGA_CONVS, toks, 11);
    RealSlot(args, GGA_CONVS, toks, 12);
    IntSlot(args, GGA_CONVS, toks, 13);
  }

  /** A GGA sentence laid out as its template decodes to the record its
      tokens stand for. */
  lemma GgaLayout(buf: seq<Byte>, toks: seq<seq<Byte>>, pe: nat, stale: seq<Byte>)
    requires At(buf, 0, GGA_HEAD)
    requires |toks| == 14 && ItemsOk(GGA_CONVS, GGA_SEPS, toks) && Laid(buf, |GGA_HEAD|, toks, GGA_SEPS, pe)
    ensures DecodeGga(buf, stale) == GgaFromTokens(toks, stale)
  {
    GgaScan(buf, toks, pe, [Str(stale), Real(FZero), Chr(NUL), Real(FZero), Chr(NUL), Int(0), Int(0), Real(FZero),
                            Real(FZero), Chr(NUL), Real(FZero), Chr(NUL), Real(FZero), Int(0)]);
    GgaFill(toks, stale, ParseTime(CStr(if toks[0] == [] then stale else toks[0]), ZeroTime).utc);
  }
}
