// The summary (nmeaINFO) and the five nmea_GP*2info merges of
// bsp/simulator_nmea/applications/nmea/nmea_parse.c. Each merge is a method
// on the `Info` object proved against a function on the summary's value.

module NmeaInfo {
  import opened NmeaTypes

  /** The summary as a value. `smask` is the set of kinds that contributed:
      the kinds' codes are distinct single bits (CodesAreDisjointBits), so
      OR-ing a code in is adding the kind to the set. */
  datatype InfoState = InfoState(fields: Fields, sats: seq<Satellite>)

  /** The summary's members other than the satellite table. */
  datatype Fields = Fields(
    smask: set<PackType>, utc: Time, sig: int, fix: int,
    pdop: Float, hdop: Float, vdop: Float, lat: Float, lon: Float, elv: Float,
    speed: Float, direction: Float, declination: Float,
    inuse: int, inview: int)

  /** `nmea_info_t info = { 0 }`. */
  const ZeroInfo := InfoState(Fields({}, ZeroTime, 0, 0, FZero, FZero, FZero, FZero, FZero, FZero, FZero, FZero, FZero,
                                     0, 0), seq(MAXSAT, _ => ZeroSat))

  predicate WellFormed(s: InfoState)
  {
    |s.sats| == MAXSAT
  }

  /** A coordinate with the hemisphere folded into its sign. */
  function Signed(letter: Byte, positive: Byte, x: Float): Float
  {
    if letter == positive then x else FNeg(x)
  }

  // ---------------------------------------------------------------------
  // The merges as functions
  // ---------------------------------------------------------------------

  /** nmea_GPGGA2info: the clock (not the date), quality, HDOP, altitude and
      position. */
  function GgaMerge(s: InfoState, p: GgaPack): (r: InfoState)
    ensures r.sats == s.sats && r.fields.smask == s.fields.smask + {GPGGA}
    ensures r.fields.utc.year == s.fields.utc.year && r.fields.utc.mon == s.fields.utc.mon && r.fields.utc.day == s.fields.utc.day
  {
    var f := s.fields;
    s.(fields := f.(utc := f.utc.(hour := p.utc.hour, min := p.utc.min, sec := p.utc.sec, hsec := p.utc.hsec),
                    sig := p.sig, hdop := p.hdop, elv := p.elv,
                    lat := Signed(p.ns, 'N', p.lat), lon := Signed(p.ew, 'E', p.lon), smask := f.smask + {GPGGA}))
  }

  /** PRN `id` is among the first `n` non-zero entries of the GSA list. */
  predicate Listed(prn: PrnTable, n: nat, id: int)
    requires n <= MAXSAT
  {
    n > 0 && (Listed(prn, n - 1, id) || (prn[n - 1] != 0 && prn[n - 1] == id))
  }

  /** How many of the first `m` slots carry the non-zero PRN `x`. */
  function Matches(x: int, sats: seq<Satellite>, m: nat): (c: nat)
    requires m <= |sats|
    ensures c <= m
  {
    if m == 0 then 0 else Matches(x, sats, m - 1) + (if x != 0 && x == sats[m - 1].id then 1 else 0)
  }

  /** The number of (list entry, slot) pairs that match: what `nuse`
      counts. */
  function Pairs(prn: PrnTable, sats: seq<Satellite>, n: nat, m: nat): nat
    requires n <= MAXSAT && m <= |sats|
  {
    if n == 0 then 0 else Pairs(prn, sats, n - 1, m) + Matches(prn[n - 1], sats, m)
  }

  /** The first `m` slots whose PRN is listed get `in_use` set; nothing
      else changes. */
  function Mark(sats: seq<Satellite>, prn: PrnTable, n: nat, m: nat): (r: seq<Satellite>)
    requires n <= MAXSAT
    ensures |r| == |sats|
  {
    seq(|sats|, j requires 0 <= j < |sats| =>
      if j < m && Listed(prn, n, sats[j].id) then sats[j].(inUse := 1) else sats[j])
  }

  /** How many slots the GSA merge scans: `inview`, kept within the table
      (the code as written scans `inview` slots, see GsaMergeAsWritten). */
  function ScanBound(inview: int): (m: nat)
    ensures m <= MAXSAT
    ensures 0 <= inview <= MAXSAT ==> m == inview
  {
    if inview < 0 then 0 else if inview > MAXSAT then MAXSAT else inview
  }

  /** nmea_GPGSA2info with the scan kept inside the table. */
  function GsaMerge(s: InfoState, p: GsaPack): (r: InfoState)
    requires WellFormed(s)
    ensures WellFormed(r) && r.fields.smask == s.fields.smask + {GPGSA}
  {
    var m := ScanBound(s.fields.inview);
    InfoState(s.fields.(fix := p.fixType, pdop := p.pdop, hdop := p.hdop, vdop := p.vdop,
                        inuse := Pairs(p.satPrn, s.sats, MAXSAT, m), smask := s.fields.smask + {GPGSA}),
              Mark(s.sats, p.satPrn, MAXSAT, m))
  }

  /** nmea_GPGSA2info as written: the inner loop runs to `inview`, which the
      GSV merge sets from the sentence; past the table the read of `sat[j]`
      has no defined result (None). */
  function GsaMergeAsWritten(s: InfoState, p: GsaPack): Option<InfoState>
    requires WellFormed(s)
  {
    if s.fields.inview > MAXSAT then None else Some(GsaMerge(s, p))
  }

  /** The first slot a GSV page fills and how many it fills. */
  function PageStart(p: GsvPack): int
  {
    ((if p.packIndex < 1 then 1 else p.packIndex) - 1) * SATINPACK
  }

  function PageLength(p: GsvPack): int
  {
    if PageStart(p) + SATINPACK > p.satCount then p.satCount - PageStart(p) else SATINPACK
  }

  /** The merge ignores a page numbered past the count or past the table. */
  predicate PageIgnored(p: GsvPack)
  {
    p.packIndex > p.packCount || p.packIndex * SATINPACK > MAXSAT
  }

  /** Slot `j` with the page's satellite `k` copied in, `in_use` kept. */
  function Placed(old_sat: Satellite, new_sat: Satellite): Satellite
  {
    old_sat.(id := new_sat.id, elv := new_sat.elv, azimuth := new_sat.azimuth, sig := new_sat.sig)
  }

  /** nmea_GPGSV2info. */
  function GsvMerge(s: InfoState, p: GsvPack): (r: InfoState)
    requires WellFormed(s)
    ensures WellFormed(r)
    ensures r.fields.smask == if PageIgnored(p) then s.fields.smask else s.fields.smask + {GPGSV}
  {
    if PageIgnored(p) then s
    else
      var first := PageStart(p);
      var n := PageLength(p);
      InfoState(s.fields.(inview := p.satCount, smask := s.fields.smask + {GPGSV}),
                seq(MAXSAT, j requires 0 <= j < MAXSAT =>
                  if first <= j < first + n then Placed(s.sats[j], p.satData[j - first]) else s.sats[j]))
  }

  /** nmea_GPRMC2info: an active fix promotes signal and fix only from
      their "bad" values; a void one demotes both. */
  function RmcMerge(s: InfoState, p: RmcPack): (r: InfoState)
    ensures r.sats == s.sats && r.fields.smask == s.fields.smask + {GPRMC}
  {
    var sig := if p.status == 'A' then (if s.fields.sig == SIG_BAD then SIG_MID else s.fields.sig)
               else if p.status == 'V' then SIG_BAD else s.fields.sig;
    var fix := if p.status == 'A' then (if s.fields.fix == FIX_BAD then FIX_2D else s.fields.fix)
               else if p.status == 'V' then FIX_BAD else s.fields.fix;
    s.(fields := s.fields.(sig := sig, fix := fix, utc := p.utc, lat := Signed(p.ns, 'N', p.lat),
                           lon := Signed(p.ew, 'E', p.lon), speed := FKnotsToKmh(p.speed),
                           direction := p.direction, smask := s.fields.smask + {GPRMC}))
  }

  /** nmea_GPVTG2info. */
  function VtgMerge(s: InfoState, p: VtgPack): (r: InfoState)
    ensures r.sats == s.sats && r.fields.smask == s.fields.smask + {GPVTG}
  {
    s.(fields := s.fields.(direction := p.dir, declination := p.dec, speed := p.spk, smask := s.fields.smask + {GPVTG}))
  }

  /** Whether a record adds its kind to `smask`: all do except a GSV page
      the merge ignores. */
  predicate Contributes(p: Packet)
  {
    !(p.Gsv? && PageIgnored(p.gsv))
  }

  /** The merge nmea_parse applies for one queued record. */
  function Merge(s: InfoState, p: Packet): (r: InfoState)
    requires WellFormed(s)
    ensures WellFormed(r)
    ensures r.fields.smask == if Contributes(p) then s.fields.smask + {KindOf(p)} else s.fields.smask
  {
    match p
    case Gga(g) => GgaMerge(s, g)
    case Gsa(g) => GsaMerge(s, g)
    case Gsv(g) => GsvMerge(s, g)
    case Rmc(g) => RmcMerge(s, g)
    case Vtg(g) => VtgMerge(s, g)
  }

  /** The records merged in queue order. */
  function MergeAll(s: InfoState, ps: seq<Packet>): (r: InfoState)
    requires WellFormed(s)
    ensures WellFormed(r)
    decreases |ps|
  {
    if ps == [] then s else MergeAll(Merge(s, ps[0]), ps[1..])
  }

  /** The kinds of the records that contribute. */
  function Kinds(ps: seq<Packet>): set<PackType>
  {
    set i | 0 <= i < |ps| && Contributes(ps[i]) :: KindOf(ps[i])
  }

  // ---------------------------------------------------------------------
  // What the merges promise
  // ---------------------------------------------------------------------

  /** After merging records, `smask` has gained exactly the kinds of those
      that contribute; GPNON is never recorded. */
  lemma {:induction false} MaskRecordsKinds(s: InfoState, ps: seq<Packet>)
    requires WellFormed(s)
    ensures MergeAll(s, ps).fields.smask == s.fields.smask + Kinds(ps)
    ensures GPNON !in s.fields.smask ==> GPNON !in MergeAll(s, ps).fields.smask
    decreases |ps|
  {
    if ps != [] {
      var t := Merge(s, ps[0]);
      var head: set<PackType> := if Contributes(ps[0]) then {KindOf(ps[0])} else {};
      assert t.fields.smask == s.fields.smask + head;
      MaskRecordsKinds(t, ps[1..]);
      assert Kinds(ps) == head + Kinds(ps[1..]) by {
        forall k | k in Kinds(ps) ensures k in head + Kinds(ps[1..]) {
          var i :| 0 <= i < |ps| && Contributes(ps[i]) && KindOf(ps[i]) == k;
          if i > 0 {
            assert ps[1..][i - 1] == ps[i];
          }
        }
        forall k | k in Kinds(ps[1..]) ensures k in Kinds(ps) {
          var i :| 0 <= i < |ps[1..]| && Contributes(ps[1..][i]) && KindOf(ps[1..][i]) == k;
          assert ps[1..][i] == ps[i + 1];
        }
      }
    }
  }

  lemma {:induction false} MatchesNone(x: int, sats: seq<Satellite>, m: nat)
    requires m <= |sats|
    ensures Matches(x, sats, m) == 0 <==> forall j :: 0 <= j < m ==> !(x != 0 && x == sats[j].id)
  {
    if m > 0 {
      MatchesNone(x, sats, m - 1);
    }
  }

  lemma {:induction false} PairsNone(prn: PrnTable, sats: seq<Satellite>, n: nat, m: nat)
    requires n <= MAXSAT && m <= |sats|
    ensures Pairs(prn, sats, n, m) == 0 <==> forall j :: 0 <= j < m ==> !Listed(prn, n, sats[j].id)
  {
    if n > 0 {
      PairsNone(prn, sats, n - 1, m);
      MatchesNone(prn[n - 1], sats, m);
    }
  }

  lemma {:induction false} PairsBound(prn: PrnTable, sats: seq<Satellite>, n: nat, m: nat)
    requires n <= MAXSAT && m <= |sats|
    ensures Pairs(prn, sats, n, m) <= n * m
  {
    if n > 0 {
      PairsBound(prn, sats, n - 1, m);
      assert Matches(prn[n - 1], sats, m) <= m;
      assert (n - 1) * m + m == n * m;
    }
  }

  /** The GSA merge marks a slot in use exactly when it is one of the first
      `inview` slots (at most twelve) and its PRN is in the list; it counts
      no use at all exactly when it marks none, and at most 144 pairs;
      every other field of the slots stays. */
  lemma GsaMarksListed(s: InfoState, p: GsaPack)
    requires WellFormed(s)
    ensures var r := GsaMerge(s, p);
      var m := ScanBound(s.fields.inview);
      (forall j :: 0 <= j < MAXSAT ==>
        r.sats[j].id == s.sats[j].id && r.sats[j].elv == s.sats[j].elv &&
        r.sats[j].azimuth == s.sats[j].azimuth && r.sats[j].sig == s.sats[j].sig &&
        (r.sats[j] != s.sats[j] ==> r.sats[j].inUse == 1) &&
        (r.sats[j].inUse == 1 <==> s.sats[j].inUse == 1 || (j < m && Listed(p.satPrn, MAXSAT, s.sats[j].id)))) &&
      (r.fields.inuse == 0 <==> forall j :: 0 <= j < m ==> !Listed(p.satPrn, MAXSAT, s.sats[j].id)) &&
      0 <= r.fields.inuse <= MAXSAT * m
  {
    var m := ScanBound(s.fields.inview);
    PairsNone(p.satPrn, s.sats, MAXSAT, m);
    PairsBound(p.satPrn, s.sats, MAXSAT, m);
  }

  /** As written, the GSA merge reads past the twelve-slot table once a GSV
      page has reported more than twelve satellites in view, as the
      thirteen-satellite page below does; the bounded scan agrees with the
      code as written whenever the code stays in the table. */
  lemma GsaOverrunsAfterGsv(s: InfoState, gsa: GsaPack)
    requires WellFormed(s)
    ensures var page := GsvPack(4, 1, 13, [ZeroSat, ZeroSat, ZeroSat, ZeroSat]);
      GsvMerge(s, page).fields.inview == 13 && GsaMergeAsWritten(GsvMerge(s, page), gsa).None?
    ensures s.fields.inview <= MAXSAT ==> GsaMergeAsWritten(s, gsa) == Some(GsaMerge(s, gsa))
  {
  }

  /** The GSV merge leaves the summary alone for an ignored page; otherwise
      it sets `inview` and writes only the page's window of slots, which
      lies inside the table, never touching `in_use`. */
  lemma GsvWindow(s: InfoState, p: GsvPack)
    requires WellFormed(s)
    ensures PageIgnored(p) ==> GsvMerge(s, p) == s
    ensures !PageIgnored(p) ==>
      var r := GsvMerge(s, p);
      var first := PageStart(p);
      r.fields.inview == p.satCount && r.fields.smask == s.fields.smask + {GPGSV} &&
      0 <= first && first + PageLength(p) <= MAXSAT && first == (if p.packIndex < 1 then 0 else (p.packIndex - 1) * 4) &&
      forall j :: 0 <= j < MAXSAT ==>
        r.sats[j].inUse == s.sats[j].inUse &&
        (r.sats[j] != s.sats[j] ==> first <= j < first + PageLength(p)) &&
        (first <= j < first + PageLength(p) ==> r.sats[j].id == p.satData[j - first].id)
  {
    if !PageIgnored(p) {
      assert p.packIndex <= 3;
    }
  }

  /** The RMC status rule: 'A' raises signal to MID only from BAD (0) and
      fix to 2D only from BAD (1); 'V' forces both to BAD; any other status
      leaves both. A zeroed summary has fix 0, which 'A' does not raise. */
  lemma RmcStatusRule(s: InfoState, p: RmcPack)
    ensures var r := RmcMerge(s, p);
      (p.status == 'A' ==>
        (r.fields.sig != s.fields.sig <==> s.fields.sig == SIG_BAD) && (r.fields.sig != s.fields.sig ==> r.fields.sig == SIG_MID) &&
        (r.fields.fix != s.fields.fix <==> s.fields.fix == FIX_BAD) && (r.fields.fix != s.fields.fix ==> r.fields.fix == FIX_2D)) &&
      (p.status == 'V' ==> r.fields.sig == SIG_BAD && r.fields.fix == FIX_BAD) &&
      (p.status != 'A' && p.status != 'V' ==> r.fields.sig == s.fields.sig && r.fields.fix == s.fields.fix)
    ensures p.status == 'A' ==> RmcMerge(ZeroInfo, p).fields.fix == 0 && RmcMerge(ZeroInfo, p).fields.sig == SIG_MID
  {
  }

  // ---------------------------------------------------------------------
  // The summary object
  // ---------------------------------------------------------------------


  /** nmeaINFO, updated in place by the merges: the scalar members are
      kept together, the satellite table is a fixed array of MAXSAT slots. */
  class Info {
    var fields: Fields
    const sat: array<Satellite>

    predicate Valid()
    {
      sat.Length == MAXSAT
    }

    function State(): InfoState
      reads this, sat
    {
      InfoState(fields, sat[..])
    }

    /** A zero-filled summary. */
    constructor ()
      ensures Valid() && State() == ZeroInfo && fresh(sat)
    {
      fields := ZeroInfo.fields;
      sat := new Satellite[MAXSAT](_ => ZeroSat);
      new;
      assert sat[..] == seq(MAXSAT, _ => ZeroSat);
    }

    method GgaToInfo(p: GgaPack)
      requires Valid()
      modifies this
      ensures State() == GgaMerge(old(State()), p)
    {
      var f := fields;
      fields := f.(utc := f.utc.(hour := p.utc.hour, min := p.utc.min, sec := p.utc.sec, hsec := p.utc.hsec),
                   sig := p.sig, hdop := p.hdop, elv := p.elv,
                   lat := if p.ns == 'N' then p.lat else FNeg(p.lat),
                   lon := if p.ew == 'E' then p.lon else FNeg(p.lon),
                   smask := f.smask + {GPGGA});
    }

    /** The nested loop over the GSA list and the slots in view, bounded by
        the table. */
    method GsaToInfo(p: GsaPack)
      requires Valid()
      modifies this, sat
      ensures State() == GsaMerge(old(State()), p)
    {
      ghost var base := sat[..];
      var m := ScanBound(fields.inview);
      var nuse := 0;
      var i := 0;
      while i < MAXSAT
        invariant 0 <= i <= MAXSAT && fields == old(fields)
        invariant forall k :: 0 <= k < MAXSAT ==>
          sat[k] == if k < m && Listed(p.satPrn, i, base[k].id) then base[k].(inUse := 1) else base[k]
        invariant nuse == Pairs(p.satPrn, base, i, m)
      {
        var j := 0;
        while j < m
          invariant 0 <= j <= m && i < MAXSAT && fields == old(fields)
          invariant forall k :: 0 <= k < MAXSAT ==>
            sat[k] == if k < m && (Listed(p.satPrn, i, base[k].id) ||
                                   (k < j && p.satPrn[i] != 0 && p.satPrn[i] == base[k].id))
                      then base[k].(inUse := 1) else base[k]
          invariant nuse == Pairs(p.satPrn, base, i, m) + Matches(p.satPrn[i], base, j)
        {
          if p.satPrn[i] != 0 && p.satPrn[i] == sat[j].id {
            sat[j] := sat[j].(inUse := 1);
            nuse := nuse + 1;
          }
          j := j + 1;
        }
        i := i + 1;
      }
      fields := fields.(fix := p.fixType, pdop := p.pdop, hdop := p.hdop, vdop := p.vdop,
                        inuse := nuse, smask := fields.smask + {GPGSA});
      assert sat[..] == Mark(base, p.satPrn, MAXSAT, m);
    }

    /** The slot loop over the page's window. */
    method GsvToInfo(p: GsvPack)
      requires Valid()
      modifies this, sat
      ensures State() == GsvMerge(old(State()), p)
    {
      if p.packIndex > p.packCount || p.packIndex * SATINPACK > MAXSAT {
        return;
      }
      ghost var base := sat[..];
      var index := if p.packIndex < 1 then 1 else p.packIndex;
      var first := (index - 1) * SATINPACK;
      var nsat := if first + SATINPACK > p.satCount then p.satCount - first else SATINPACK;
      assert first == PageStart(p) && nsat == PageLength(p);
      var isat := 0;
      while isat < nsat
        invariant 0 <= first <= 8 && nsat <= SATINPACK && fields == old(fields)
        invariant 0 <= isat <= (if nsat > 0 then nsat else 0)
        invariant forall k :: 0 <= k < MAXSAT ==>
          sat[k] == if first <= k < first + isat then Placed(base[k], p.satData[k - first]) else base[k]
      {
        var isi := first + isat;
        sat[isi] := Placed(sat[isi], p.satData[isat]);
        isat := isat + 1;
      }
      fields := fields.(inview := p.satCount, smask := fields.smask + {GPGSV});
      assert isat == (if nsat > 0 then nsat else 0);
      assert sat[..] == GsvMerge(old(State()), p).sats;
    }

    method RmcToInfo(p: RmcPack)
      requires Valid()
      modifies this
      ensures State() == RmcMerge(old(State()), p)
    {
      var sig, fix := fields.sig, fields.fix;
      if p.status == 'A' {
        if sig == SIG_BAD {
          sig := SIG_MID;
        }
        if fix == FIX_BAD {
          fix := FIX_2D;
        }
      } else if p.status == 'V' {
        sig := SIG_BAD;
        fix := FIX_BAD;
      }
      fields := fields.(sig := sig, fix := fix, utc := p.utc,
                        lat := if p.ns == 'N' then p.lat else FNeg(p.lat),
                        lon := if p.ew == 'E' then p.lon else FNeg(p.lon),
                        speed := FKnotsToKmh(p.speed), direction := p.direction,
                        smask := fields.smask + {GPRMC});
    }

    method VtgToInfo(p: VtgPack)
      requires Valid()
      modifies this
      ensures State() == VtgMerge(old(State()), p)
    {
      fields := fields.(direction := p.dir, declination := p.dec, speed := p.spk,
                        smask := fields.smask + {GPVTG});
    }

    /** The switch in nmea_parse. */
    method MergePacket(p: Packet)
      requires Valid()
      modifies this, sat
      ensures State() == Merge(old(State()), p)
    {
      match p
      case Gga(g) => GgaToInfo(g);
      case Gsa(g) => GsaToInfo(g);
      case Gsv(g) => GsvToInfo(g);
      case Rmc(g) => RmcToInfo(g);
      case Vtg(g) => VtgToInfo(g);
    }
  }
}
