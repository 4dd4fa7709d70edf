// The library copy of the decoders (bsp/nmea_parse_lib/.../nmea_parse.c):
// the same templates as the simulator copy, behind NULL checks, with the
// time buffer zero-initialised and RT-Thread return codes.

module NmeaLibParse {
  import opened NmeaTypes
  import opened NmeaScan
  import opened NmeaFields
  import opened NmeaDecode
  import opened NmeaSentences
  import opened NmeaRmc

  /** The return code and the caller's record after a library call; a
      `None` argument stands for a NULL pointer. */
  datatype Status<T> = Status(code: int, pack: Option<T>)

  /** The guard every library decoder starts with: a NULL buffer or record
      is refused before the record is touched; otherwise the record is
      zeroed and filled by the decoder `run`, whatever it held before. */
  function Guarded<T>(buff: Option<seq<Byte>>, pack: Option<T>, run: seq<Byte> -> Decoded<T>): (r: Status<T>)
    ensures r.code == RT_EOK || r.code == -RT_ERROR
    ensures buff.None? || pack.None? ==> r == Status(-RT_ERROR, pack)
    ensures buff.Some? && pack.Some? ==>
      r.pack == Some(run(buff.value).pack) && (r.code == RT_EOK <==> run(buff.value).ok)
  {
    if buff.None? || pack.None? then Status(-RT_ERROR, pack)
    else
      var d := run(buff.value);
      Status(if d.ok then RT_EOK else -RT_ERROR, Some(d.pack))
  }

  /** _nmea_parse_time of the library: NULL is refused, anything else goes
      through the length dispatch. */
  function LibParseTime(buff: Option<seq<Byte>>, res: Time): (r: TimeParsed)
  {
    if buff.None? then TimeParsed(-RT_ERROR, res) else ParseTime(buff.value, res)
  }

  /** The library time parser accepts exactly the six-byte texts and the
      eight-to-ten-byte texts with a '.' after the seconds, and never a
      NULL buffer, which leaves the record as it was. */
  lemma LibParseTimeAccepts(buff: Option<seq<Byte>>, res: Time)
    ensures LibParseTime(buff, res).code == RT_EOK || LibParseTime(buff, res).code == -RT_ERROR
    ensures LibParseTime(buff, res).code == RT_EOK <==>
      buff.Some? && (|buff.value| == 6 || (8 <= |buff.value| <= 10 && buff.value[6] == '.'))
    ensures buff.None? ==> LibParseTime(buff, res).utc == res
  {
    if buff.Some? {
      ParseTimeResult(buff.value, res);
    }
  }

  // The five decoders: the time buffer starts zeroed, so the `%s` field's
  // previous content is the empty C string.

  function LibGga(buff: Option<seq<Byte>>, pack: Option<GgaPack>): Status<GgaPack>
  {
    Guarded(buff, pack, b => DecodeGga(b, []))
  }

  /** A non-NULL GGA call is the decoder's result with its status code. */
  lemma LibGgaDecodes(buf: seq<Byte>, pack: GgaPack)
    ensures LibGga(Some(buf), Some(pack)) ==
      Status(if DecodeGga(buf, []).ok then RT_EOK else -RT_ERROR, Some(DecodeGga(buf, []).pack))
  {
  }

  function LibGsa(buff: Option<seq<Byte>>, pack: Option<GsaPack>): Status<GsaPack>
  {
    Guarded(buff, pack, DecodeGsa)
  }

  function LibGsv(buff: Option<seq<Byte>>, pack: Option<GsvPack>): Status<GsvPack>
  {
    Guarded(buff, pack, DecodeGsv)
  }

  function LibRmc(buff: Option<seq<Byte>>, pack: Option<RmcPack>): Status<RmcPack>
  {
    Guarded(buff, pack, b => DecodeRmc(b, []))
  }

  function LibVtg(buff: Option<seq<Byte>>, pack: Option<VtgPack>): Status<VtgPack>
  {
    Guarded(buff, pack, DecodeVtg)
  }

  /** A GGA sentence laid out as its template is accepted by the library
      exactly when its time token passes the time parser; an empty time
      field is always refused. */
  lemma LibGgaLayout(buf: seq<Byte>, toks: seq<seq<Byte>>, pe: nat, old_pack: GgaPack)
    requires At(buf, 0, GGA_HEAD)
    requires |toks| == 14 && ItemsOk(GGA_CONVS, GGA_SEPS, toks) && Laid(buf, |GGA_HEAD|, toks, GGA_SEPS, pe)
    ensures LibGga(Some(buf), Some(old_pack)).pack == Some(GgaFromTokens(toks, []).pack)
    ensures LibGga(Some(buf), Some(old_pack)).code == RT_EOK <==>
      var t := CStr(toks[0]);
      |t| == 6 || (8 <= |t| <= 10 && t[6] == '.')
    ensures toks[0] == [] ==> LibGga(Some(buf), Some(old_pack)).code == -RT_ERROR
  {
    var d := GgaFromTokens(toks, []);
    assert DecodeGga(buf, []) == d by {
      GgaLayout(buf, toks, pe, []);
    }
    LibGgaDecodes(buf, old_pack);
    assert d.ok <==> var t := CStr(toks[0]); |t| == 6 || (8 <= |t| <= 10 && t[6] == '.') by {
      ParseTimeResult(CStr(toks[0]), ZeroTime);
    }
  }

  /** The two copies agree on every GGA sentence whose time field is not
      empty: the time buffer's earlier content is overwritten. */
  lemma GgaCopiesAgree(buf: seq<Byte>, toks: seq<seq<Byte>>, pe: nat, stale: seq<Byte>)
    requires At(buf, 0, GGA_HEAD)
    requires |toks| == 14 && ItemsOk(GGA_CONVS, GGA_SEPS, toks) && Laid(buf, |GGA_HEAD|, toks, GGA_SEPS, pe)
    requires toks[0] != []
    ensures DecodeGga(buf, stale) == DecodeGga(buf, [])
  {
    GgaLayout(buf, toks, pe, stale);
    GgaLayout(buf, toks, pe, []);
  }

  /** The simulator copy as written: with an empty time field, the time
      comes from whatever the uninitialised time buffer held, so six
      leftover bytes make the sentence accepted with a made-up time. */
  lemma GgaStaleTimeAccepted(toks: seq<seq<Byte>>, tail: seq<Byte>, stale: seq<Byte>)
    requires |toks| == 14 && ItemsOk(GGA_CONVS, GGA_SEPS, toks) && toks[0] == []
    requires |stale| == 6 && forall k :: 0 <= k < |stale| ==> stale[k] != NUL
    ensures var buf := GGA_HEAD + Lay(toks, GGA_SEPS) + tail;
      DecodeGga(buf, stale).ok && DecodeGga(buf, stale).pack.utc.hour == Atoi(stale[0..2], 10) &&
      LibGga(Some(buf), Some(ZeroGga)).code == -RT_ERROR
  {
    var buf := GGA_HEAD + Lay(toks, GGA_SEPS) + tail;
    var pe := |GGA_HEAD| + |Lay(toks, GGA_SEPS)|;
    GgaBuilt(toks, tail);
    assert DecodeGga(buf, stale).ok && DecodeGga(buf, stale).pack.utc.hour == Atoi(stale[0..2], 10) by {
      GgaStaleTime(buf, toks, pe, stale);
    }
    assert LibGga(Some(buf), Some(ZeroGga)).code == -RT_ERROR by {
      LibGgaLayout(buf, toks, pe, ZeroGga);
    }
  }

  /** An empty time field makes the simulator copy read the time from the
      buffer's earlier content. */
  lemma GgaStaleTime(buf: seq<Byte>, toks: seq<seq<Byte>>, pe: nat, stale: seq<Byte>)
    requires At(buf, 0, GGA_HEAD)
    requires |toks| == 14 && ItemsOk(GGA_CONVS, GGA_SEPS, toks) && Laid(buf, |GGA_HEAD|, toks, GGA_SEPS, pe)
    requires toks[0] == [] && |stale| == 6 && forall k :: 0 <= k < |stale| ==> stale[k] != NUL
    ensures DecodeGga(buf, stale).ok && DecodeGga(buf, stale).pack.utc.hour == Atoi(stale[0..2], 10)
  {
    GgaLayout(buf, toks, pe, stale);
    CStrWhole(stale);
    ParseTimeResult(stale, ZeroTime);
  }

  /** The GGA header followed by tokens and their separators is laid out
      as the GGA template reads it. */
  lemma GgaBuilt(toks: seq<seq<Byte>>, tail: seq<Byte>)
    requires |toks| == 14
    ensures var buf := GGA_HEAD + Lay(toks, GGA_SEPS) + tail;
      At(buf, 0, GGA_HEAD) && Laid(buf, |GGA_HEAD|, toks, GGA_SEPS, |GGA_HEAD| + |Lay(toks, GGA_SEPS)|)
  {
    var buf := GGA_HEAD + Lay(toks, GGA_SEPS) + tail;
    LayLaid(GGA_HEAD, toks, GGA_SEPS, tail);
    assert forall k :: 0 <= k < |GGA_HEAD| ==> buf[k] == GGA_HEAD[k];
  }

  /** A laid-out RMC sentence is accepted by the library exactly when its
      time token passes the time parser; an empty time field is refused. */
  lemma LibRmcLayout(buf: seq<Byte>, toks1: seq<seq<Byte>>, pe1: nat, toks2: seq<seq<Byte>>, pe2: nat,
                     old_pack: RmcPack)
    requires RmcLaid(buf, toks1, pe1, toks2, pe2)
    ensures LibRmc(Some(buf), Some(old_pack)).pack == Some(RmcFromTokens(toks1, buf[pe1..pe1 + 6], toks2, []).pack)
    ensures LibRmc(Some(buf), Some(old_pack)).code == RT_EOK <==>
      var t := CStr(toks1[0]);
      |t| == 6 || (8 <= |t| <= 10 && t[6] == '.')
    ensures toks1[0] == [] ==> LibRmc(Some(buf), Some(old_pack)).code == -RT_ERROR
  {
    RmcLayout(buf, toks1, pe1, toks2, pe2, []);
    var d := buf[pe1..pe1 + 6];
    ParseTimeResult(CStr(toks1[0]), Time(Atoi(d[4..6], 10), Atoi(d[2..4], 10), Atoi(d[0..2], 10), 0, 0, 0, 0));
  }

  /** The two copies agree on every RMC sentence whose time field is not
      empty. */
  lemma RmcCopiesAgree(buf: seq<Byte>, toks1: seq<seq<Byte>>, pe1: nat, toks2: seq<seq<Byte>>, pe2: nat,
                       stale: seq<Byte>)
    requires RmcLaid(buf, toks1, pe1, toks2, pe2) && toks1[0] != []
    ensures DecodeRmc(buf, stale) == DecodeRmc(buf, [])
  {
    RmcLayout(buf, toks1, pe1, toks2, pe2, stale);
    RmcLayout(buf, toks1, pe1, toks2, pe2, []);
  }

  /** The library's RMC sample decodes as the simulator copy does: the
      time field is present, so the zeroed buffer plays no part. */
  lemma LibRmcSample()
    ensures var r := LibRmc(Some(RMC_SAMPLE), Some(ZeroRmc));
      r.code == RT_EOK && r.pack.Some? && r.pack.value.utc == Time(118, 8, 18, 3, 10, 24, 0) &&
      r.pack.value.status == 'A'
  {
    SampleDecodes([]);
  }
}
