/** The GSA, GSV and VTG decoders of nmea_parse.c: each scans the sentence
    against its template into the zeroed record, then accepts or rejects on
    the number of resolved fields and, for GSV and VTG, a few of their
    values. */
module NmeaSentences {
  import opened NmeaTypes
  import opened NmeaScan
  import opened NmeaFields
  import opened NmeaDecode

  // GSA -----------------------------------------------------------------

  const GSA_HEAD: seq<Byte> := "$GPGSA,"
  const GSA_CONVS: seq<Byte> := "Cd" + Repeat('d', 12) + "fff"
  const GSA_SEPS: seq<Byte> := ",,,,,,,,,,,,,,,,*"
  /** "$GPGSA,%C,%d,%d,%d,%d,%d,%d,%d,%d,%d,%d,%d,%d,%d,%f,%f,%f*" */
  const GSA_FMT: seq<Byte> := GSA_HEAD + Items(GSA_CONVS, GSA_SEPS)

  /** The destinations: the fields of the zeroed record. */
  function GsaSlots(): seq<Option<Value>>
  {
    Slots([Chr(NUL), Int(0), Int(0), Int(0), Int(0), Int(0), Int(0), Int(0), Int(0), Int(0), Int(0), Int(0), Int(0), Int(0), Real(FZero), Real(FZero), Real(FZero)])
  }

  function GsaOf(a: seq<Option<Value>>): GsaPack
  {
    GsaPack(ChrOf(ArgAt(a, 0), NUL), IntOf(ArgAt(a, 1), 0),
            [IntOf(ArgAt(a, 2), 0), IntOf(ArgAt(a, 3), 0), IntOf(ArgAt(a, 4), 0), IntOf(ArgAt(a, 5), 0),
             IntOf(ArgAt(a, 6), 0), IntOf(ArgAt(a, 7), 0), IntOf(ArgAt(a, 8), 0), IntOf(ArgAt(a, 9), 0),
             IntOf(ArgAt(a, 10), 0), IntOf(ArgAt(a, 11), 0), IntOf(ArgAt(a, 12), 0), IntOf(ArgAt(a, 13), 0)],
            RealOf(ArgAt(a, 14), FZero), RealOf(ArgAt(a, 15), FZero), RealOf(ArgAt(a, 16), FZero))
  }

  /** nmea_parse_GPGSA: accepted iff all 17 fields are resolved. */
  function DecodeGsa(buf: seq<Byte>): Decoded<GsaPack>
  {
    var sc := Scanf(buf, GSA_FMT, GsaSlots());
    Decoded(sc.count == 17, GsaOf(sc.args))
  }

  /** The record a GSA sentence with field tokens `toks` stands for. */
  function GsaFromTokens(toks: seq<seq<Byte>>): Decoded<GsaPack>
    requires |toks| == 17
  {
    Decoded(true, GsaPack(ChrTok(toks[0]), IntTok(toks[1]),
                          [IntTok(toks[2]), IntTok(toks[3]), IntTok(toks[4]), IntTok(toks[5]), IntTok(toks[6]),
                           IntTok(toks[7]), IntTok(toks[8]), IntTok(toks[9]), IntTok(toks[10]), IntTok(toks[11]),
                           IntTok(toks[12]), IntTok(toks[13])],
                          RealTok(toks[14]), RealTok(toks[15]), RealTok(toks[16])))
  }

  lemma GsaHead()
    ensures IsLiteral(GSA_HEAD)
  {
  }

  lemma GsaConvs()
    ensures ConvsOk(GSA_CONVS)
  {
    ConvsOkRepeat('d', 12);
    ConvsOkAppend("Cd", Repeat('d', 12));
    ConvsOkAppend("Cd" + Repeat('d', 12), "fff");
  }

  /** The conversion of each GSA field. */
  lemma GsaKinds()
    ensures IsCharConv(GSA_CONVS[0]) && GSA_CONVS[1] == 'd' && GSA_CONVS[2] == 'd' && GSA_CONVS[3] == 'd' &&
            GSA_CONVS[4] == 'd' && GSA_CONVS[5] == 'd' && GSA_CONVS[6] == 'd' && GSA_CONVS[7] == 'd' &&
            GSA_CONVS[8] == 'd' && GSA_CONVS[9] == 'd' && GSA_CONVS[10] == 'd' && GSA_CONVS[11] == 'd' &&
            GSA_CONVS[12] == 'd' && GSA_CONVS[13] == 'd' && IsRealConv(GSA_CONVS[14]) &&
            IsRealConv(GSA_CONVS[15]) && IsRealConv(GSA_CONVS[16])
  {
  }

  lemma GsaBlanks()
    ensures var a := GsaSlots();
      a[0] == Some(Chr(NUL)) && a[1] == Some(Int(0)) && a[2] == Some(Int(0)) && a[3] == Some(Int(0)) &&
      a[4] == Some(Int(0)) && a[5] == Some(Int(0)) && a[6] == Some(Int(0)) && a[7] == Some(Int(0)) &&
      a[8] == Some(Int(0)) && a[9] == Some(Int(0)) && a[10] == Some(Int(0)) && a[11] == Some(Int(0)) &&
      a[12] == Some(Int(0)) && a[13] == Some(Int(0)) && a[14] == Some(Real(FZero)) &&
      a[15] == Some(Real(FZero)) && a[16] == Some(Real(FZero))
  {
  }

  /** A GSA sentence laid out as its template decodes to the record its
      tokens stand for, and is accepted. */
  lemma GsaLayout(buf: seq<Byte>, toks: seq<seq<Byte>>, pe: nat)
    requires At(buf, 0, GSA_HEAD)
    requires |toks| == 17 && ItemsOk(GSA_CONVS, GSA_SEPS, toks) && Laid(buf, |GSA_HEAD|, toks, GSA_SEPS, pe)
    ensures DecodeGsa(buf) == GsaFromTokens(toks)
  {
    GsaHead();
    GsaConvs();
    TemplateItems(buf, GSA_HEAD, GSA_CONVS, GSA_SEPS, toks, pe, GsaSlots());
    GsaFill(toks);
  }

  lemma GsaFill(toks: seq<seq<Byte>>)
    requires |toks| == 17 && ConvsOk(GSA_CONVS)
    ensures GsaOf(Fill(GsaSlots(), 0, GSA_CONVS, toks)) == GsaFromTokens(toks).pack
  {
    var args := GsaSlots();
    GsaKinds();
    GsaBlanks();
    ChrSlot(args, GSA_CONVS, toks, 0);
    IntSlot(args, GSA_CONVS, toks, 1);
    IntSlot(args, GSA_CONVS, toks, 2);
    IntSlot(args, GSA_CONVS, toks, 3);
    IntSlot(args, GSA_CONVS, toks, 4);
    IntSlot(args, GSA_CONVS, toks, 5);
    IntSlot(args, GSA_CONVS, toks, 6);
    IntSlot(args, GSA_CONVS, toks, 7);
    IntSlot(args, GSA_CONVS, toks, 8);
    IntSlot(args, GSA_CONVS, toks, 9);
    IntSlot(args, GSA_CONVS, toks, 10);
    IntSlot(args, GSA_CONVS, toks, 11);
    IntSlot(args, GSA_CONVS, toks, 12);
    IntSlot(args, GSA_CONVS, toks, 13);
    RealSlot(args, GSA_CONVS, toks, 14);
    RealSlot(args, GSA_CONVS, toks, 15);
    RealSlot(args, GSA_CONVS, toks, 16);
  }

  /** Only a sentence that starts with the GSA header is accepted. */
  lemma GsaNeedsHeader(buf: seq<Byte>)
    ensures DecodeGsa(buf).ok ==> At(buf, 0, GSA_HEAD)
  {
    GsaHead();
    HeadNeeded(buf, GSA_HEAD, Items(GSA_CONVS, GSA_SEPS), GsaSlots());
  }

  // GSV -----------------------------------------------------------------

  const GSV_HEAD: seq<Byte> := "$GPGSV,"
  const GSV_CONVS: seq<Byte> := Repeat('d', 19)
  const GSV_SEPS: seq<Byte> := Repeat(',', 18) + "*"
  /** "$GPGSV,%d,%d,%d," then "%d,%d,%d,%d," for the first three satellites
      and "%d,%d,%d,%d*" for the fourth. */
  const GSV_FMT: seq<Byte> := GSV_HEAD + Items(GSV_CONVS, GSV_SEPS)

  /** The destinations: page count, page index, satellites in view, then
      id, elevation, azimuth and signal of four satellites, all zero. */
  function GsvSlots(): (r: seq<Option<Value>>)
    ensures |r| == 19 && forall j :: 0 <= j < 19 ==> r[j] == Some(Int(0))
  {
    Slots(seq(19, _ => Int(0)))
  }

  function SatOf(a: seq<Option<Value>>, i: nat): Satellite
  {
    Satellite(IntOf(ArgAt(a, i), 0), 0, IntOf(ArgAt(a, i + 1), 0), IntOf(ArgAt(a, i + 2), 0), IntOf(ArgAt(a, i + 3), 0))
  }

  function GsvOf(a: seq<Option<Value>>): GsvPack
  {
    GsvPack(IntOf(ArgAt(a, 0), 0), IntOf(ArgAt(a, 1), 0), IntOf(ArgAt(a, 2), 0),
            [SatOf(a, 3), SatOf(a, 7), SatOf(a, 11), SatOf(a, 15)])
  }

  /** The number of fields the page must resolve: the three header fields
      and four per satellite the page is due to carry (four satellites, or
      what is left of the satellites in view on the last page). */
  function GsvNeed(p: GsvPack): int
  {
    var first := (p.packIndex - 1) * SATINPACK;
    var nsat := if first + SATINPACK > p.satCount then p.satCount - first else SATINPACK;
    nsat * 4 + 3
  }

  /** nmea_parse_GPGSV: accepted iff the number of resolved fields lies
      between the page's need and the 19 fields of a full page. */
  function DecodeGsv(buf: seq<Byte>): Decoded<GsvPack>
  {
    var sc := Scanf(buf, GSV_FMT, GsvSlots());
    var pack := GsvOf(sc.args);
    Decoded(!(sc.count < GsvNeed(pack) || sc.count > SATINPACK * 4 + 3), pack)
  }

  /** Satellite `k` of a page is one the page is due to carry. */
  predicate Due(packIndex: int, satCount: int, k: int)
  {
    (packIndex - 1) * SATINPACK + k < satCount
  }

  /** A page is complete when it holds no more than 19 fields, its three
      header fields unless the page lies beyond the satellites in view, and
      the four fields of every satellite it is due to carry. */
  predicate PageComplete(count: int, packIndex: int, satCount: int)
  {
    count <= SATINPACK * 4 + 3 &&
    ((packIndex - 1) * SATINPACK <= satCount ==> count >= 3) &&
    forall k :: 0 <= k < SATINPACK && Due(packIndex, satCount, k) ==> count >= 4 * k + 7
  }

  /** The GSV acceptance rule, read satellite by satellite. */
  lemma GsvAcceptance(buf: seq<Byte>)
    ensures var sc := Scanf(buf, GSV_FMT, GsvSlots());
      DecodeGsv(buf).ok <==> PageComplete(sc.count, DecodeGsv(buf).pack.packIndex, DecodeGsv(buf).pack.satCount)
  {
    var sc := Scanf(buf, GSV_FMT, GsvSlots());
    NeedIsDue(sc.count, DecodeGsv(buf).pack);
  }

  lemma NeedIsDue(count: nat, p: GsvPack)
    ensures !(count < GsvNeed(p) || count > SATINPACK * 4 + 3) <==> PageComplete(count, p.packIndex, p.satCount)
  {
    var first := (p.packIndex - 1) * SATINPACK;
    var left := p.satCount - first;
    if left >= SATINPACK {
      assert Due(p.packIndex, p.satCount, 3);
    } else if left > 0 {
      assert Due(p.packIndex, p.satCount, left - 1);
      if count >= 4 * left + 3 {
        forall k | 0 <= k < SATINPACK && Due(p.packIndex, p.satCount, k)
          ensures count >= 4 * k + 7
        {
        }
      }
    } else {
      assert GsvNeed(p) == 4 * left + 3;
      forall k | 0 <= k < SATINPACK
        ensures !Due(p.packIndex, p.satCount, k)
      {
      }
      if left == 0 {
        assert first <= p.satCount;
      } else {
        assert !(first <= p.satCount);
      }
    }
  }

  /** The record a full GSV page with field tokens `toks` stands for. */
  function GsvFromTokens(toks: seq<seq<Byte>>): Decoded<GsvPack>
    requires |toks| == 19
  {
    Decoded(true, GsvPack(IntTok(toks[0]), IntTok(toks[1]), IntTok(toks[2]),
                          [Satellite(IntTok(toks[3]), 0, IntTok(toks[4]), IntTok(toks[5]), IntTok(toks[6])),
                           Satellite(IntTok(toks[7]), 0, IntTok(toks[8]), IntTok(toks[9]), IntTok(toks[10])),
                           Satellite(IntTok(toks[11]), 0, IntTok(toks[12]), IntTok(toks[13]), IntTok(toks[14])),
                           Satellite(IntTok(toks[15]), 0, IntTok(toks[16]), IntTok(toks[17]), IntTok(toks[18]))]))
  }

  lemma GsvConvs()
    ensures IsLiteral(GSV_HEAD) && ConvsOk(GSV_CONVS)
  {
    ConvsOkRepeat('d', 19);
  }

  lemma GsvFill(toks: seq<seq<Byte>>)
    requires |toks| == 19 && ConvsOk(GSV_CONVS)
    ensures GsvOf(Fill(GsvSlots(), 0, GSV_CONVS, toks)) == GsvFromTokens(toks).pack
  {
    var args := GsvSlots();
    IntSlot(args, GSV_CONVS, toks, 0);
    IntSlot(args, GSV_CONVS, toks, 1);
    IntSlot(args, GSV_CONVS, toks, 2);
    IntSlot(args, GSV_CONVS, toks, 3);
    IntSlot(args, GSV_CONVS, toks, 4);
    IntSlot(args, GSV_CONVS, toks, 5);
    IntSlot(args, GSV_CONVS, toks, 6);
    IntSlot(args, GSV_CONVS, toks, 7);
    IntSlot(args, GSV_CONVS, toks, 8);
    IntSlot(args, GSV_CONVS, toks, 9);
    IntSlot(args, GSV_CONVS, toks, 10);
    IntSlot(args, GSV_CONVS, toks, 11);
    IntSlot(args, GSV_CONVS, toks, 12);
    IntSlot(args, GSV_CONVS, toks, 13);
    IntSlot(args, GSV_CONVS, toks, 14);
    IntSlot(args, GSV_CONVS, toks, 15);
    IntSlot(args, GSV_CONVS, toks, 16);
    IntSlot(args, GSV_CONVS, toks, 17);
    IntSlot(args, GSV_CONVS, toks, 18);
  }

  /** A full GSV page laid out as its template decodes to the record its
      tokens stand for, and is accepted whatever its counts say. */
  lemma GsvLayout(buf: seq<Byte>, toks: seq<seq<Byte>>, pe: nat)
    requires At(buf, 0, GSV_HEAD)
    requires |toks| == 19 && ItemsOk(GSV_CONVS, GSV_SEPS, toks) && Laid(buf, |GSV_HEAD|, toks, GSV_SEPS, pe)
    ensures DecodeGsv(buf) == GsvFromTokens(toks)
  {
    GsvConvs();
    TemplateItems(buf, GSV_HEAD, GSV_CONVS, GSV_SEPS, toks, pe, GsvSlots());
    GsvFill(toks);
    NeedIsDue(19, GsvFromTokens(toks).pack);
  }

  /** Only a sentence that starts with the GSV header is accepted. */
  lemma GsvNeedsHeader(buf: seq<Byte>)
    ensures DecodeGsv(buf).ok ==> At(buf, 0, GSV_HEAD)
  {
    GsvConvs();
    HeadNeeded(buf, GSV_HEAD, Items(GSV_CONVS, GSV_SEPS), GsvSlots());
    CountBeforeWrite(buf, GSV_FMT, 0, 0, 0, 0, GsvSlots());
    if Scanf(buf, GSV_FMT, GsvSlots()).count == 0 {
      assert GsvOf(GsvSlots()).packIndex == 0 && GsvOf(GsvSlots()).satCount == 0;
    }
  }

  // VTG -----------------------------------------------------------------

  const VTG_HEAD: seq<Byte> := "$GPVTG,"
  const VTG_CONVS: seq<Byte> := "fCfCfCfC"
  const VTG_SEPS: seq<Byte> := ",,,,,,,*"
  /** "$GPVTG,%f,%C,%f,%C,%f,%C,%f,%C*" */
  const VTG_FMT: seq<Byte> := VTG_HEAD + Items(VTG_CONVS, VTG_SEPS)

  function VtgSlots(): seq<Option<Value>>
  {
    Slots([Real(FZero), Chr(NUL), Real(FZero), Chr(NUL), Real(FZero), Chr(NUL), Real(FZero), Chr(NUL)])
  }

  function VtgOf(a: seq<Option<Value>>): VtgPack
  {
    VtgPack(RealOf(ArgAt(a, 0), FZero), ChrOf(ArgAt(a, 1), NUL), RealOf(ArgAt(a, 2), FZero), ChrOf(ArgAt(a, 3), NUL),
            RealOf(ArgAt(a, 4), FZero), ChrOf(ArgAt(a, 5), NUL), RealOf(ArgAt(a, 6), FZero), ChrOf(ArgAt(a, 7), NUL))
  }

  /** nmea_parse_GPVTG: 8 fields, and the unit letters T, M, N and K. */
  function DecodeVtg(buf: seq<Byte>): Decoded<VtgPack>
  {
    var sc := Scanf(buf, VTG_FMT, VtgSlots());
    var pack := VtgOf(sc.args);
    Decoded(sc.count == 8 && pack.dirT == 'T' && pack.decM == 'M' && pack.spnN == 'N' && pack.spkK == 'K', pack)
  }

  /** The record a VTG sentence with field tokens `toks` stands for: true
      and magnetic track in degrees, speed in knots and in km/h, each value
      followed by its unit letter. */
  function VtgFromTokens(toks: seq<seq<Byte>>): Decoded<VtgPack>
    requires |toks| == 8
  {
    Decoded(toks[1] == "T" && toks[3] == "M" && toks[5] == "N" && toks[7] == "K",
            VtgPack(RealTok(toks[0]), ChrTok(toks[1]), RealTok(toks[2]), ChrTok(toks[3]),
                    RealTok(toks[4]), ChrTok(toks[5]), RealTok(toks[6]), ChrTok(toks[7])))
  }

  lemma VtgTemplate()
    ensures IsLiteral(VTG_HEAD)
    ensures IsRealConv(VTG_CONVS[0]) && IsCharConv(VTG_CONVS[1]) && IsRealConv(VTG_CONVS[2]) &&
            IsCharConv(VTG_CONVS[3]) && IsRealConv(VTG_CONVS[4]) && IsCharConv(VTG_CONVS[5]) &&
            IsRealConv(VTG_CONVS[6]) && IsCharConv(VTG_CONVS[7])
  {
  }

  lemma VtgConvs()
    ensures ConvsOk(VTG_CONVS)
  {
  }

  lemma VtgFill(toks: seq<seq<Byte>>)
    requires |toks| == 8 && ConvsOk(VTG_CONVS)
    ensures VtgOf(Fill(VtgSlots(), 0, VTG_CONVS, toks)) == VtgFromTokens(toks).pack
  {
    var args := VtgSlots();
    VtgTemplate();
    assert args[0] == Some(Real(FZero)) && args[1] == Some(Chr(NUL)) && args[2] == Some(Real(FZero)) &&
           args[3] == Some(Chr(NUL)) && args[4] == Some(Real(FZero)) && args[5] == Some(Chr(NUL)) &&
           args[6] == Some(Real(FZero)) && args[7] == Some(Chr(NUL));
    RealSlot(args, VTG_CONVS, toks, 0);
    ChrSlot(args, VTG_CONVS, toks, 1);
    RealSlot(args, VTG_CONVS, toks, 2);
    ChrSlot(args, VTG_CONVS, toks, 3);
    RealSlot(args, VTG_CONVS, toks, 4);
    ChrSlot(args, VTG_CONVS, toks, 5);
    RealSlot(args, VTG_CONVS, toks, 6);
    ChrSlot(args, VTG_CONVS, toks, 7);
  }

  /** A one-byte `%C` token is the letter iff its value is. */
  lemma LetterTok(tok: seq<Byte>, c: Byte)
    requires |tok| <= 1 && c != NUL
    ensures ChrTok(tok) == c <==> tok == [c]
  {
  }

  /** The unit fields of a well-formed VTG run are single bytes. */
  lemma VtgLetters(toks: seq<seq<Byte>>)
    requires |toks| == 8 && ItemsOk(VTG_CONVS, VTG_SEPS, toks)
    ensures (ChrTok(toks[1]) == 'T' && ChrTok(toks[3]) == 'M' && ChrTok(toks[5]) == 'N' && ChrTok(toks[7]) == 'K') <==>
            (toks[1] == "T" && toks[3] == "M" && toks[5] == "N" && toks[7] == "K")
  {
    VtgTemplate();
    ItemsAt(VTG_CONVS, VTG_SEPS, toks, 1);
    ItemsAt(VTG_CONVS, VTG_SEPS, toks, 3);
    ItemsAt(VTG_CONVS, VTG_SEPS, toks, 5);
    ItemsAt(VTG_CONVS, VTG_SEPS, toks, 7);
    LetterTok(toks[1], 'T');
    LetterTok(toks[3], 'M');
    LetterTok(toks[5], 'N');
    LetterTok(toks[7], 'K');
  }

  /** A VTG sentence laid out as its template decodes to the record its
      tokens stand for; it is accepted iff the unit fields are exactly T, M,
      N and K. */
  lemma VtgLayout(buf: seq<Byte>, toks: seq<seq<Byte>>, pe: nat)
    requires At(buf, 0, VTG_HEAD)
    requires |toks| == 8 && ItemsOk(VTG_CONVS, VTG_SEPS, toks) && Laid(buf, |VTG_HEAD|, toks, VTG_SEPS, pe)
    ensures DecodeVtg(buf) == VtgFromTokens(toks)
  {
    VtgTemplate();
    VtgConvs();
    TemplateItems(buf, VTG_HEAD, VTG_CONVS, VTG_SEPS, toks, pe, VtgSlots());
    VtgFill(toks);
    VtgLetters(toks);
  }

  /** Only a sentence that starts with the VTG header is accepted. */
  lemma VtgNeedsHeader(buf: seq<Byte>)
    ensures DecodeVtg(buf).ok ==> At(buf, 0, VTG_HEAD)
  {
    VtgTemplate();
    HeadNeeded(buf, VTG_HEAD, Items(VTG_CONVS, VTG_SEPS), VtgSlots());
  }
}
