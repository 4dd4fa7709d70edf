/** The alternate comma-split parser (stm32l475_nmealib gps_parse.c). It
    splits a sentence at its commas into an array of section pointers
    (`data_conversion`) and reads the hemisphere letters, status letters and
    integer fields from those sections.

    The input is a C string: its bytes up to the first NUL or the end of the
    sequence, with a NUL read past the end. A pointer into it is an index; a
    section pointer that was never set is `None` (NULL). The floating-point
    fields (times, coordinates, speeds) are not part of this model. */
module GpsParse {
  import opened NmeaTypes
  import opened NmeaScan

  const GPS_SEPARATOR: Byte := ','
  const GGA_SECTION_MAX: nat := 14
  const RMC_SECTION_MAX: nat := 12
  const GSV_SECTION_MAX: nat := 19
  const MAX_SVVIEW: nat := 40
  const MAX_NMEA_PACK_LEN: nat := 200
  const GGA_MIN_COUNT: nat := 8
  const GSV_MIN_COUNT: nat := 7
  const RMC_MIN_COUNT: nat := 9

  // ---------------------------------------------------------------------
  // C conversions and string access
  // ---------------------------------------------------------------------

  /** Conversion to `uint8_t`: the value modulo 256. */
  function U8(x: int): (r: nat)
    ensures r < 256 && (0 <= x < 256 ==> r == x)
  {
    x % 256
  }

  /** Conversion to `int16_t`: the value modulo 65536, read as signed. */
  function I16(x: int): (r: int)
    ensures -32768 <= r < 32768 && (-32768 <= x < 32768 ==> r == x)
  {
    (x + 32768) % 65536 - 32768
  }

  /** The byte at `i`: past the end of the bytes is the terminating NUL. */
  function At(s: seq<Byte>, i: nat): Byte
  {
    if i < |s| then s[i] else NUL
  }

  /** strchr(s + from, c) for a byte `c` other than NUL: the first index at
      or after `from` holding `c`, or NULL when the string ends first. */
  function StrChr(s: seq<Byte>, from: nat, c: Byte): (r: Option<nat>)
    requires c != NUL
    ensures r.Some? ==> from <= r.value < |s| && s[r.value] == c
    ensures r.Some? ==> forall k :: from <= k < r.value ==> s[k] != c && s[k] != NUL
    decreases |s| - from
  {
    if from >= |s| || s[from] == NUL then None
    else if s[from] == c then Some(from)
    else StrChr(s, from + 1, c)
  }

  /** A NULL from strchr before `end`, with no NUL before `end`, means no
      `c` before `end`. */
  lemma {:induction false} StrChrMissesAll(s: seq<Byte>, from: nat, c: Byte, end: nat)
    requires c != NUL && end <= |s| && StrChr(s, from, c).None?
    requires forall k :: from <= k < end ==> s[k] != NUL
    ensures forall k :: from <= k < end ==> s[k] != c
    decreases |s| - from
  {
    if from < end {
      StrChrMissesAll(s, from + 1, c, end);
    }
  }

  /** atoi on the text at `p`: an optional sign and the decimal digits up
      to the first other byte. */
  function CAtoi(s: seq<Byte>, p: nat): int
  {
    if p <= |s| then Strtol(s[p..], 10) else 0
  }

  // ---------------------------------------------------------------------
  // data_conversion
  // ---------------------------------------------------------------------

  /** The section pointer stored for the comma at `k`: the comma itself
      when the section is empty (another comma follows), the byte after
      it otherwise. */
  function Entry(s: seq<Byte>, k: nat): nat
  {
    if At(s, k + 1) == GPS_SEPARATOR then k else k + 1
  }

  /** The sections stored by the loop, starting at the comma `ptr`: one per
      comma before `end`, at most `max`. */
  function Entries(s: seq<Byte>, ptr: nat, end: nat, max: nat): (e: seq<nat>)
    ensures |e| <= max
    decreases max
  {
    if ptr >= end || max == 0 then []
    else
      match StrChr(s, ptr + 1, GPS_SEPARATOR)
      case None => [Entry(s, ptr)]
      case Some(q) => [Entry(s, ptr)] + Entries(s, q, end, max - 1)
  }

  /** What data_conversion returns (as the `uint8_t` it is) and the
      section pointers it stores, for a non-NULL input and output. */
  datatype Converted = Converted(ret: nat, entries: seq<nat>)

  function Conversion(s: seq<Byte>, max: nat): (c: Converted)
    ensures |c.entries| <= max && c.ret < 256
  {
    var comma := StrChr(s, 0, GPS_SEPARATOR);
    var star := StrChr(s, 0, '*');
    if comma.None? || star.None? || star.value - comma.value > MAX_NMEA_PACK_LEN then Converted(0, [])
    else
      var e := Entries(s, comma.value, star.value, max);
      Converted(U8(|e| - 1), e)
  }

  // The reference: the commas before the '*', taken directly.

  /** The indices in [from, end) that hold a comma, in order. */
  function CommasIn(s: seq<Byte>, from: nat, end: nat): (cs: seq<nat>)
    requires end <= |s|
    decreases end - from
  {
    if from >= end then []
    else (if s[from] == GPS_SEPARATOR then [from] else []) + CommasIn(s, from + 1, end)
  }

  /** The first `max` of the commas `cs`, each turned into its section
      pointer. */
  function EntriesOf(s: seq<Byte>, cs: seq<nat>, max: nat): (e: seq<nat>)
    ensures |e| == if |cs| < max then |cs| else max
  {
    var n := if |cs| < max then |cs| else max;
    seq(n, i requires 0 <= i < n => Entry(s, cs[i]))
  }

  /** A stretch without commas adds nothing to the list. */
  lemma {:induction false} CommasSkip(s: seq<Byte>, a: nat, b: nat, end: nat)
    requires a <= b <= end <= |s|
    requires forall k :: a <= k < b ==> s[k] != GPS_SEPARATOR
    ensures CommasIn(s, a, end) == CommasIn(s, b, end)
    decreases b - a
  {
    if a < b {
      CommasSkip(s, a + 1, b, end);
    }
  }

  /** Taking from a list that starts with `c` takes `c` first. */
  lemma EntriesOfCons(s: seq<Byte>, c: nat, cs: seq<nat>, max: nat)
    requires max > 0
    ensures EntriesOf(s, [c] + cs, max) == [Entry(s, c)] + EntriesOf(s, cs, max - 1)
  {
    var l := EntriesOf(s, [c] + cs, max);
    var r := [Entry(s, c)] + EntriesOf(s, cs, max - 1);
    assert |l| == |r|;
    forall i | 0 <= i < |l|
      ensures l[i] == r[i]
    {
      if i > 0 {
        assert ([c] + cs)[i] == cs[i - 1];
      }
    }
  }

  /** The loop stores a section for each comma from `ptr` on before `end`,
      up to `max` of them. */
  lemma {:induction false} EntriesAreCommas(s: seq<Byte>, ptr: nat, end: nat, max: nat)
    requires ptr < end <= |s| && s[ptr] == GPS_SEPARATOR
    requires forall k :: ptr <= k < end ==> s[k] != NUL
    ensures Entries(s, ptr, end, max) == EntriesOf(s, CommasIn(s, ptr, end), max)
    decreases max
  {
    var cs := CommasIn(s, ptr + 1, end);
    assert CommasIn(s, ptr, end) == [ptr] + cs;
    if max > 0 {
      EntriesOfCons(s, ptr, cs, max);
      var next := StrChr(s, ptr + 1, GPS_SEPARATOR);
      if next.Some? && next.value < end {
        var q := next.value;
        CommasSkip(s, ptr + 1, q, end);
        EntriesAreCommas(s, q, end, max - 1);
        assert Entries(s, ptr, end, max) == [Entry(s, ptr)] + Entries(s, q, end, max - 1);
      } else {
        if next.None? {
          StrChrMissesAll(s, ptr + 1, GPS_SEPARATOR, end);
        }
        CommasSkip(s, ptr + 1, end, end);
        assert cs == [];
        assert Entries(s, ptr, end, max) == [Entry(s, ptr)];
      }
    }
  }

  /** data_conversion stores one section per comma before the first '*',
      at most `max` of them, and returns one less than their number as a
      `uint8_t`: 255 when nothing was stored. It stores nothing and returns
      0 when the string has no comma or no '*', or when the '*' lies more
      than 200 bytes after the first comma. */
  lemma ConversionIsCommas(s: seq<Byte>, max: nat)
    ensures var comma := StrChr(s, 0, GPS_SEPARATOR);
      var star := StrChr(s, 0, '*');
      var c := Conversion(s, max);
      if comma.None? || star.None? || star.value - comma.value > MAX_NMEA_PACK_LEN then c == Converted(0, [])
      else c.entries == EntriesOf(s, CommasIn(s, 0, star.value), max) && c.ret == U8(|c.entries| - 1)
  {
    var comma := StrChr(s, 0, GPS_SEPARATOR);
    var star := StrChr(s, 0, '*');
    if comma.Some? && star.Some? && star.value - comma.value <= MAX_NMEA_PACK_LEN {
      if comma.value < star.value {
        CommasSkip(s, 0, comma.value, star.value);
        EntriesAreCommas(s, comma.value, star.value, max);
      } else {
        CommasSkip(s, 0, star.value, star.value);
      }
    }
  }

  /** A '*' before the first comma stores nothing and returns 255. */
  lemma StarFirstGives255(s: seq<Byte>, max: nat)
    requires StrChr(s, 0, GPS_SEPARATOR).Some? && StrChr(s, 0, '*').Some?
    requires StrChr(s, 0, '*').value < StrChr(s, 0, GPS_SEPARATOR).value
    ensures Conversion(s, max) == Converted(255, [])
  {
  }

  /** The sections the loop still stores from the comma `ptr` on. */
  function After(s: seq<Byte>, ptr: Option<nat>, end: nat, max: nat): seq<nat>
  {
    if ptr.None? then [] else Entries(s, ptr.value, end, max)
  }

  /** The comma at `p` stores its section, and the loop goes on from the
      next comma. */
  lemma EntriesUnfold(s: seq<Byte>, p: nat, end: nat, k: nat, next: Option<nat>, k': nat)
    requires p < end && 0 < k && next == StrChr(s, p + 1, GPS_SEPARATOR) && k' == k - 1
    ensures After(s, Some(p), end, k) == [Entry(s, p)] + After(s, next, end, k')
  {
    if next.None? {
      assert Entries(s, p, end, k) == [Entry(s, p)];
    } else {
      assert Entries(s, p, end, k) == [Entry(s, p)] + Entries(s, next.value, end, k');
    }
  }

  /** One round of the loop, stated on the loop's updated variables. */
  lemma EntriesStep(s: seq<Byte>, p: nat, end: nat, max: nat, n: nat, done: seq<nat>, all: seq<nat>,
                    ptr': Option<nat>, n': nat, done': seq<nat>)
    requires p < end && n < max && all == done + After(s, Some(p), end, max - n)
    requires ptr' == StrChr(s, p + 1, GPS_SEPARATOR) && n' == n + 1 && done' == done + [Entry(s, p)]
    ensures all == done' + After(s, ptr', end, max - n')
  {
    EntriesUnfold(s, p, end, max - n, ptr', max - n');
    ConcatAssoc(done, [Entry(s, p)], After(s, ptr', end, max - n'));
  }

  /** The loop's store: `output[n]` receives the next section, which joins
      the ones already stored; the slots past it keep their old values. */
  method Store(output: array<Option<nat>>, n: nat, v: nat, ghost done: seq<nat>, ghost before: seq<Option<nat>>,
               ghost n': nat, ghost done': seq<nat>)
    requires n < output.Length == |before| && |done| == n && n' == n + 1 && done' == done + [v]
    requires forall k :: 0 <= k < n ==> output[k] == Some(done[k])
    requires forall k :: n <= k < output.Length ==> output[k] == before[k]
    modifies output
    ensures forall k :: 0 <= k < n' ==> output[k] == Some(done'[k])
    ensures forall k :: n' <= k < output.Length ==> output[k] == before[k]
  {
    output[n] := Some(v);
  }

  /** data_conversion(input, output, section_max_count). A NULL input or
      output returns RT_ERROR and writes nothing; otherwise the sections are
      stored at the front of `output` and the rest of it is left alone. */
  method DataConversion(input: Option<seq<Byte>>, output: array?<Option<nat>>, max: nat) returns (count: nat)
    requires max < 256 && (output != null ==> max <= output.Length)
    modifies output
    ensures input.None? || output == null ==> count == RT_ERROR
    ensures input.None? && output != null ==> output[..] == old(output[..])
    ensures input.Some? && output != null ==>
      var c := Conversion(input.value, max);
      count == c.ret &&
      (forall k :: 0 <= k < |c.entries| ==> output[k] == Some(c.entries[k])) &&
      (forall k :: |c.entries| <= k < output.Length ==> output[k] == old(output[k]))
  {
    if input.None? || output == null {
      return RT_ERROR;
    }
    var s := input.value;
    var comma := StrChr(s, 0, GPS_SEPARATOR);
    var star := StrChr(s, 0, '*');
    if comma.None? || star.None? || star.value - comma.value > MAX_NMEA_PACK_LEN {
      return 0;
    }
    ghost var all := Entries(s, comma.value, star.value, max);
    ghost var before := output[..];
    ghost var done: seq<nat> := [];
    var ptr: Option<nat> := comma;
    var n: nat := 0;
    while ptr.Some? && ptr.value < star.value && n < max
      invariant n <= max && |done| == n
      invariant forall k :: 0 <= k < n ==> output[k] == Some(done[k])
      invariant forall k :: n <= k < output.Length ==> output[k] == before[k]
      invariant all == done + After(s, ptr, star.value, max - n)
      decreases max - n
    {
      var p := ptr.value;
      var m := n;
      ghost var d := done;
      ptr := StrChr(s, p + 1, GPS_SEPARATOR);
      done := done + [Entry(s, p)];
      n := n + 1;
      Store(output, m, Entry(s, p), d, before, n, done);
      EntriesStep(s, p, star.value, max, m, d, all, ptr, n, done);
    }
    assert all == done;
    count := U8(n - 1);
  }

  // ---------------------------------------------------------------------
  // parse_gga and parse_rmc: counts and letters
  // ---------------------------------------------------------------------

  /** The outcome of parse_gga / parse_rmc: the returned flag and the
      caller's record afterwards (`None` for a NULL record), or `Undefined`
      when the C code dereferences a section pointer that was never set. */
  datatype Parsed<R> = Parsed(ok: bool, rec: Option<R>) | Undefined

  /** The integer fields of struct NMEA_GGA (the floating-point ones are
      not modelled). */
  datatype GgaRec = GgaRec(northSouth: int, eastWest: int, positionStatus: int, satInView: nat)

  /** The integer fields of struct NMEA_RMC. */
  datatype RmcRec = RmcRec(positionStatus: int, northSouth: int, eastWest: int)

  /** A letter field: 0 for `zero`, 1 for `one`, -1 for anything else. */
  function Letter(b: Byte, zero: Byte, one: Byte): (r: int)
    requires zero != one
    ensures -1 <= r <= 1
    ensures r == 0 <==> b == zero
    ensures r == 1 <==> b == one
  {
    if b == zero then 0 else if b == one then 1 else -1
  }

  /** parse_gga as written. */
  function Gga(input: Option<seq<Byte>>, pdat: Option<GgaRec>): Parsed<GgaRec>
  {
    if input.None? || pdat.None? then Parsed(false, pdat)
    else
      var s := input.value;
      var c := Conversion(s, GGA_SECTION_MAX);
      var e := c.entries;
      if c.ret < GGA_MIN_COUNT then Parsed(false, pdat)
      else if |e| <= 8 then Undefined
      else
        Parsed(true, Some(pdat.value.(northSouth := Letter(At(s, e[2]), 'N', 'S'),
                                      eastWest := Letter(At(s, e[4]), 'E', 'W'),
                                      satInView := U8(CAtoi(s, e[6])))))
  }

  /** parse_rmc as written: a short sentence still marks the position
      invalid. */
  function Rmc(input: Option<seq<Byte>>, pdat: Option<RmcRec>): Parsed<RmcRec>
  {
    if input.None? || pdat.None? then Parsed(false, pdat)
    else
      var s := input.value;
      var c := Conversion(s, RMC_SECTION_MAX);
      var e := c.entries;
      if c.ret < RMC_MIN_COUNT then Parsed(false, Some(pdat.value.(positionStatus := -1)))
      else if |e| <= 8 then Undefined
      else
        Parsed(true, Some(RmcRec(Letter(At(s, e[1]), 'V', 'A'), Letter(At(s, e[3]), 'N', 'S'),
                                 Letter(At(s, e[5]), 'E', 'W'))))
  }

  /** parse_gga: split into at most 14 sections, refuse fewer than 8 (as
      counted by data_conversion), then read the letters and the
      satellite count. */
  method ParseGga(input: Option<seq<Byte>>, pdat: Option<GgaRec>) returns (r: Parsed<GgaRec>)
    ensures r == Gga(input, pdat)
  {
    if input.None? || pdat.None? {
      return Parsed(false, pdat);
    }
    var s := input.value;
    var sections := new Option<nat>[GGA_SECTION_MAX](_ => None);
    var count := DataConversion(input, sections, GGA_SECTION_MAX);
    if count < GGA_MIN_COUNT {
      return Parsed(false, pdat);
    }
    if sections[8].None? {
      return Undefined;
    }
    var ns := Letter(At(s, sections[2].value), 'N', 'S');
    var ew := Letter(At(s, sections[4].value), 'E', 'W');
    var inView := U8(CAtoi(s, sections[6].value));
    r := Parsed(true, Some(pdat.value.(northSouth := ns, eastWest := ew, satInView := inView)));
  }

  /** parse_rmc: split into at most 12 sections, refuse fewer than 9 (and
      mark the position invalid), then read the three letters. */
  method ParseRmc(input: Option<seq<Byte>>, pdat: Option<RmcRec>) returns (r: Parsed<RmcRec>)
    ensures r == Rmc(input, pdat)
  {
    if input.None? || pdat.None? {
      return Parsed(false, pdat);
    }
    var s := input.value;
    var sections := new Option<nat>[RMC_SECTION_MAX](_ => None);
    var count := DataConversion(input, sections, RMC_SECTION_MAX);
    if count < RMC_MIN_COUNT {
      return Parsed(false, Some(pdat.value.(positionStatus := -1)));
    }
    if sections[8].None? {
      return Undefined;
    }
    var status := Letter(At(s, sections[1].value), 'V', 'A');
    var ns := Letter(At(s, sections[3].value), 'N', 'S');
    var ew := Letter(At(s, sections[5].value), 'E', 'W');
    r := Parsed(true, Some(RmcRec(status, ns, ew)));
  }

  /** The number of commas before the '*' of a sentence whose first comma
      and '*' are found within 200 bytes; -1 otherwise. */
  function CommaCount(s: seq<Byte>): int
  {
    var comma := StrChr(s, 0, GPS_SEPARATOR);
    var star := StrChr(s, 0, '*');
    if comma.None? || star.None? || star.value - comma.value > MAX_NMEA_PACK_LEN then -1
    else |CommasIn(s, 0, star.value)|
  }

  /** The count parse_gga / parse_rmc compare, in terms of the commas: it is
      one less than the commas stored (`max` at most). */
  lemma CountFromCommas(s: seq<Byte>, max: nat)
    requires max < 256
    ensures CommaCount(s) < 0 ==> Conversion(s, max) == Converted(0, [])
    ensures CommaCount(s) >= 0 ==>
      var n := if CommaCount(s) < max then CommaCount(s) else max;
      |Conversion(s, max).entries| == n && Conversion(s, max).ret == U8(n - 1)
  {
    ConversionIsCommas(s, max);
  }

  /** parse_gga accepts exactly the sentences with at least nine commas
      before the '*', and reads NULL sections exactly when the '*' comes
      before the first comma. The record's position status is never
      touched. */
  lemma GgaAcceptance(s: seq<Byte>, pdat: GgaRec)
    ensures Gga(Some(s), Some(pdat)).Parsed? && Gga(Some(s), Some(pdat)).ok <==> CommaCount(s) >= 9
    ensures Gga(Some(s), Some(pdat)).Undefined? <==> CommaCount(s) == 0
    ensures Gga(Some(s), Some(pdat)).Parsed? ==>
      Gga(Some(s), Some(pdat)).rec.Some? && Gga(Some(s), Some(pdat)).rec.value.positionStatus == pdat.positionStatus
    ensures Gga(Some(s), Some(pdat)).Parsed? && !Gga(Some(s), Some(pdat)).ok ==>
      Gga(Some(s), Some(pdat)).rec == Some(pdat)
  {
    CountFromCommas(s, GGA_SECTION_MAX);
  }

  /** parse_rmc accepts exactly the sentences with at least ten commas
      before the '*' (reading NULL sections when the '*' comes first); any
      other refusal marks the position invalid. */
  lemma RmcAcceptance(s: seq<Byte>, pdat: RmcRec)
    ensures Rmc(Some(s), Some(pdat)).Parsed? && Rmc(Some(s), Some(pdat)).ok <==> CommaCount(s) >= 10
    ensures Rmc(Some(s), Some(pdat)).Undefined? <==> CommaCount(s) == 0
    ensures Rmc(Some(s), Some(pdat)).Parsed? && !Rmc(Some(s), Some(pdat)).ok ==>
      Rmc(Some(s), Some(pdat)).rec == Some(pdat.(positionStatus := -1))
  {
    CountFromCommas(s, RMC_SECTION_MAX);
  }

  /** A NULL input or record is refused and the record left as it was. */
  lemma NullRefused(input: Option<seq<Byte>>, g: Option<GgaRec>, r: Option<RmcRec>)
    requires input.None? || (g.None? && r.None?)
    ensures Gga(input, g) == Parsed(false, g) && Rmc(input, r) == Parsed(false, r)
  {
  }

  /** The evidently intended parse_gga: a sentence from which no section
      was stored is refused like any other short one. */
  function GgaChecked(input: Option<seq<Byte>>, pdat: Option<GgaRec>): (r: Parsed<GgaRec>)
  {
    if input.Some? && pdat.Some? && Conversion(input.value, GGA_SECTION_MAX).entries == [] then Parsed(false, pdat)
    else Gga(input, pdat)
  }

  /** The evidently intended parse_rmc, likewise. */
  function RmcChecked(input: Option<seq<Byte>>, pdat: Option<RmcRec>): (r: Parsed<RmcRec>)
  {
    if input.Some? && pdat.Some? && Conversion(input.value, RMC_SECTION_MAX).entries == [] then
      Parsed(false, Some(pdat.value.(positionStatus := -1)))
    else Rmc(input, pdat)
  }

  /** The corrected decoders never read a NULL section, accept exactly the
      sentences the written ones accept, and refuse the rest. */
  lemma CheckedAreDefined(input: Option<seq<Byte>>, g: Option<GgaRec>, r: Option<RmcRec>)
    ensures GgaChecked(input, g).Parsed? && RmcChecked(input, r).Parsed?
    ensures GgaChecked(input, g).ok <==> Gga(input, g).Parsed? && Gga(input, g).ok
    ensures RmcChecked(input, r).ok <==> Rmc(input, r).Parsed? && Rmc(input, r).ok
  {
    if input.Some? {
      CountFromCommas(input.value, GGA_SECTION_MAX);
      CountFromCommas(input.value, RMC_SECTION_MAX);
    }
  }

  /** A sentence whose '*' comes before its first comma makes the written
      parse_gga and parse_rmc read NULL sections. */
  lemma StarFirstIsUndefined(pg: GgaRec, pr: RmcRec)
    ensures Gga(Some("*,"), Some(pg)).Undefined? && Rmc(Some("*,"), Some(pr)).Undefined?
    ensures GgaChecked(Some("*,"), Some(pg)) == Parsed(false, Some(pg))
  {
    var s: seq<Byte> := "*,";
    assert StrChr(s, 0, '*') == Some(0);
    assert StrChr(s, 1, GPS_SEPARATOR) == Some(1);
    assert StrChr(s, 0, GPS_SEPARATOR) == Some(1);
    StarFirstGives255(s, GGA_SECTION_MAX);
    StarFirstGives255(s, RMC_SECTION_MAX);
  }

  // ---------------------------------------------------------------------
  // parse_gsv
  // ---------------------------------------------------------------------

  /** struct NMEA_GSV_SATELITES, with each field at its C width. */
  datatype GsvSat = GsvSat(prn: nat, elevation: nat, azimuth: int, cnr: nat)

  const BlankSat := GsvSat(0, 0, 0, 0)

  /** struct NMEA_GSV as a value: the satellites in view and the table. */
  datatype GsvState = GsvState(inView: int, sats: seq<GsvSat>)

  /** The all-zero struct NMEA_GSV. */
  function BlankGsv(): (z: GsvState)
    ensures |z.sats| == MAX_SVVIEW
  {
    GsvState(0, seq(MAX_SVVIEW, _ => BlankSat))
  }

  /** ptr_section[k]: the stored section, NULL past the stored ones. */
  function Section(e: seq<nat>, k: nat): Option<nat>
  {
    if k < |e| then Some(e[k]) else None
  }

  /** An integer field: atoi of its section, 0 for a NULL one. */
  function FieldInt(s: seq<Byte>, p: Option<nat>): int
  {
    if p.None? then 0 else CAtoi(s, p.value)
  }

  /** The satellite described by the four sections from `i` on. */
  function SatAt(s: seq<Byte>, e: seq<nat>, i: nat): GsvSat
  {
    GsvSat(U8(FieldInt(s, Section(e, i))), U8(FieldInt(s, Section(e, i + 1))),
           I16(FieldInt(s, Section(e, i + 2))), U8(FieldInt(s, Section(e, i + 3))))
  }

  /** cur_index = (cur_no - 1) * 4, stored in a `uint8_t`. */
  function FirstSlot(page: nat): nat
  {
    U8((page - 1) * 4)
  }

  /** How many satellites the loop writes: one per group of four sections
      from section 3 on below `count`, and none at or past slot 40. */
  function Written(count: nat, first: nat): (n: nat)
    ensures first + n <= MAX_SVVIEW || n == 0
  {
    if first >= MAX_SVVIEW then 0
    else if count / 4 < MAX_SVVIEW - first then count / 4
    else MAX_SVVIEW - first
  }

  /** The loop stops after `t` rounds exactly when Written says. */
  lemma WrittenIsRounds(count: nat, first: nat, t: nat)
    requires 4 * t <= count
    requires first + t >= MAX_SVVIEW || 3 + 4 * t >= count
    requires first + t <= MAX_SVVIEW || t == 0
    ensures t == Written(count, first)
  {
  }

  /** The header of a GSV sentence that gets as far as the writes: the
      count, the stored sections, the message total and the page number
      (both read into `uint8_t`s). */
  datatype GsvHeader = GsvHeader(count: nat, e: seq<nat>, total: nat, page: nat)

  /** The checks before any write: enough sections, sections 0 and 1 set,
      and a page number of at least 1. */
  function GsvHeaderOf(s: seq<Byte>): Option<GsvHeader>
  {
    var c := Conversion(s, GSV_SECTION_MAX);
    if c.ret < GSV_MIN_COUNT || Section(c.entries, 0).None? || Section(c.entries, 1).None? then None
    else
      var page := U8(CAtoi(s, c.entries[1]));
      if page < 1 then None
      else Some(GsvHeader(c.ret, c.entries, U8(CAtoi(s, c.entries[0])), page))
  }

  /** The result of parse_gsv: the returned flag and the struct afterwards. */
  datatype GsvParsed = GsvParsed(ok: bool, view: GsvState)

  /** The writes of parse_gsv once the header passed: page 1 clears the
      struct, section 2 sets the satellites in view, the satellites go to
      consecutive slots from FirstSlot(page), and only then is a page past
      the total refused. */
  /** The table after the loop: `n` satellites in consecutive slots from
      `first`, read from section 3 on, every other slot as it was. */
  function Windowed(s: seq<Byte>, e: seq<nat>, first: nat, n: nat, sats: seq<GsvSat>): (w: seq<GsvSat>)
    ensures |w| == |sats|
  {
    seq(|sats|, j requires 0 <= j < |sats| =>
          if first <= j < first + n then SatAt(s, e, 3 + 4 * (j - first)) else sats[j])
  }

  function GsvApply(s: seq<Byte>, h: GsvHeader, st: GsvState): (r: GsvParsed)
  {
    var base := if h.page == 1 then BlankGsv() else st;
    var counted := if Section(h.e, 2).Some? then base.(inView := I16(CAtoi(s, h.e[2]))) else base;
    var first := FirstSlot(h.page);
    GsvParsed(h.total >= h.page,
              counted.(sats := Windowed(s, h.e, first, Written(h.count, first), counted.sats)))
  }

  /** parse_gsv on a non-NULL struct. */
  function Gsv(input: Option<seq<Byte>>, st: GsvState): GsvParsed
  {
    if input.None? then GsvParsed(false, st)
    else
      match GsvHeaderOf(input.value)
      case None => GsvParsed(false, st)
      case Some(h) => GsvApply(input.value, h, st)
  }

  /** A header that passes the checks comes from a sentence with at least
      eight commas before the '*': `count` is one less than the sections
      stored, which are between 8 and 19, so at most four satellites are
      written. Unlike parse_gga and parse_rmc, a '*' before the first comma
      cannot get through: its sections are all NULL. */
  lemma GsvHeaderShape(s: seq<Byte>, h: GsvHeader)
    requires GsvHeaderOf(s) == Some(h)
    ensures CommaCount(s) >= 8 && h.e == Conversion(s, GSV_SECTION_MAX).entries
    ensures 8 <= |h.e| <= GSV_SECTION_MAX && h.count == |h.e| - 1
    ensures |h.e| == if CommaCount(s) < GSV_SECTION_MAX then CommaCount(s) else GSV_SECTION_MAX
    ensures 1 <= h.page < 256 && h.total < 256
    ensures Written(h.count, FirstSlot(h.page)) <= SATINPACK
  {
    CountFromCommas(s, GSV_SECTION_MAX);
  }

  /** parse_gsv reports success exactly for a header that passes and a page
      number no greater than the total; a sentence with fewer than eight
      commas before the '*' is refused with the struct untouched. */
  lemma GsvAcceptance(s: seq<Byte>, st: GsvState)
    ensures Gsv(Some(s), st).ok <==>
      GsvHeaderOf(s).Some? && GsvHeaderOf(s).value.page <= GsvHeaderOf(s).value.total
    ensures Gsv(Some(s), st).ok ==> CommaCount(s) >= 8
    ensures CommaCount(s) < 8 ==> Gsv(Some(s), st) == GsvParsed(false, st)
    ensures Gsv(None, st) == GsvParsed(false, st)
  {
    if GsvHeaderOf(s).Some? {
      GsvHeaderShape(s, GsvHeaderOf(s).value);
    }
  }

  /** One sentence changes at most the four slots of its page: every slot
      below FirstSlot(page) or from FirstSlot(page) + 4 on keeps the value it
      had (after the clearing of page 1). */
  lemma GsvWindow(s: seq<Byte>, st: GsvState, h: GsvHeader)
    requires GsvHeaderOf(s) == Some(h) && |st.sats| == MAX_SVVIEW
    ensures var r := Gsv(Some(s), st).view;
      var base := if h.page == 1 then BlankGsv() else st;
      |r.sats| == MAX_SVVIEW &&
      forall j :: 0 <= j < MAX_SVVIEW && (j < FirstSlot(h.page) || FirstSlot(h.page) + SATINPACK <= j) ==>
        r.sats[j] == base.sats[j]
  {
    GsvHeaderShape(s, h);
  }

  /** Page 1 starts the table afresh: the result does not depend on what
      the struct held before. */
  lemma PageOneForgets(s: seq<Byte>, st1: GsvState, st2: GsvState)
    requires GsvHeaderOf(s).Some? && GsvHeaderOf(s).value.page == 1
    ensures Gsv(Some(s), st1) == Gsv(Some(s), st2)
  {
  }

  /** A page past the total is refused only after its satellites are
      stored: the struct ends as if the page had been accepted. */
  lemma LatePageKeepsWrites(s: seq<Byte>, st: GsvState, h: GsvHeader)
    requires GsvHeaderOf(s) == Some(h) && h.total < h.page
    ensures !Gsv(Some(s), st).ok
    ensures Gsv(Some(s), st).view == GsvApply(s, h.(total := h.page), st).view
    ensures GsvApply(s, h.(total := h.page), st).ok
  {
  }

  /** cur_index is kept in a `uint8_t`: pages 1 to 10 start at slot
      4 * (page - 1), pages 11 to 64 write no satellite, and page p + 64
      writes where page p does. */
  lemma PageSlots(p: nat, count: nat)
    requires 1 <= p
    ensures FirstSlot(p + 64) == FirstSlot(p)
    ensures p <= 64 ==> FirstSlot(p) == 4 * (p - 1)
    ensures 11 <= p <= 64 ==> Written(count, FirstSlot(p)) == 0
  {
    assert (p + 64 - 1) * 4 == (p - 1) * 4 + 256;
    if p <= 64 {
      assert (p - 1) * 4 < 256;
    }
  }

  /** The caller's struct NMEA_GSV, updated in place. */
  class GsvView {
    var inView: int
    const rsv: array<GsvSat>

    predicate Valid()
      reads this
    {
      rsv.Length == MAX_SVVIEW
    }

    function State(): GsvState
      reads this, rsv
    {
      GsvState(inView, rsv[..])
    }

    /** A zero-initialised struct. */
    constructor ()
      ensures Valid() && State() == BlankGsv()
    {
      inView := 0;
      rsv := new GsvSat[MAX_SVVIEW](_ => BlankSat);
      new;
      assert rsv[..] == BlankGsv().sats;
    }

    /** rt_memset of the whole struct. */
    method Clear()
      requires Valid()
      modifies this, rsv
      ensures Valid() && State() == BlankGsv()
    {
      inView := 0;
      forall j | 0 <= j < rsv.Length {
        rsv[j] := BlankSat;
      }
      assert rsv[..] == BlankGsv().sats;
    }
  }

  /** One round of the loop body: the four fields from section `i` on,
      each 0 when its section is NULL. */
  method ReadSat(s: seq<Byte>, sections: array<Option<nat>>, ghost e: seq<nat>, i: nat) returns (sat: GsvSat)
    requires i + 3 < sections.Length
    requires forall k :: 0 <= k < sections.Length ==> sections[k] == Section(e, k)
    ensures sat == SatAt(s, e, i)
  {
    var prn := if sections[i].Some? then CAtoi(s, sections[i].value) else 0;
    var elevation := if sections[i + 1].Some? then CAtoi(s, sections[i + 1].value) else 0;
    var azimuth := if sections[i + 2].Some? then CAtoi(s, sections[i + 2].value) else 0;
    var cnr := if sections[i + 3].Some? then CAtoi(s, sections[i + 3].value) else 0;
    sat := GsvSat(U8(prn), U8(elevation), I16(azimuth), U8(cnr));
  }

  /** Writing the next satellite widens the window by one slot. */
  method Place(ghost s: seq<Byte>, ghost e: seq<nat>, ghost first: nat, ghost n: nat, ghost n': nat, ghost before: seq<GsvSat>,
               rsv: array<GsvSat>, cur: nat, sat: GsvSat)
    requires cur == first + n < |before| == rsv.Length && n' == n + 1
    requires rsv[..] == Windowed(s, e, first, n, before) && sat == SatAt(s, e, 3 + 4 * n)
    modifies rsv
    ensures rsv[..] == Windowed(s, e, first, n', before)
  {
    rsv[cur] := sat;
    assert rsv[..] == Windowed(s, e, first, n, before)[cur := sat];
  }

  /** The loop of parse_gsv: one satellite per group of four sections from
      section 3 on, into consecutive slots from `first`, until `count` or
      slot 40. */
  method FillSats(s: seq<Byte>, sections: array<Option<nat>>, ghost e: seq<nat>, count: nat, first: nat, rsv: array<GsvSat>)
    requires sections.Length == GSV_SECTION_MAX && rsv.Length == MAX_SVVIEW && count < GSV_SECTION_MAX
    requires forall k :: 0 <= k < sections.Length ==> sections[k] == Section(e, k)
    modifies rsv
    ensures rsv[..] == Windowed(s, e, first, Written(count, first), old(rsv[..]))
  {
    ghost var before := rsv[..];
    ghost var t: nat := 0;
    var cur := first;
    var i := 3;
    while i < count && cur < MAX_SVVIEW
      invariant cur == first + t && (cur <= MAX_SVVIEW || t == 0)
      invariant i == 3 + 4 * t && 4 * t <= count
      invariant rsv[..] == Windowed(s, e, first, t, before)
      decreases MAX_SVVIEW - cur
    {
      var sat := ReadSat(s, sections, e, i);
      ghost var t0 := t;
      t := t + 1;
      Place(s, e, first, t0, t, before, rsv, cur, sat);
      cur := cur + 1;
      i := i + 4;
    }
    WrittenIsRounds(count, first, t);
  }

  /** parse_gsv(input, pview): a NULL argument is refused; otherwise the
      struct ends as Gsv describes. */
  method ParseGsv(input: Option<seq<Byte>>, view: GsvView?) returns (ok: bool)
    requires view != null ==> view.Valid()
    modifies if view != null then {view, view.rsv} else {}
    ensures view == null ==> !ok
    ensures view != null ==> view.Valid() && var r := Gsv(input, old(view.State()));
      ok == r.ok && view.State() == r.view
  {
    if input.None? || view == null {
      return false;
    }
    var s := input.value;
    ghost var st := view.State();
    ghost var c := Conversion(s, GSV_SECTION_MAX);
    var sections := new Option<nat>[GSV_SECTION_MAX](_ => None);
    var count := DataConversion(input, sections, GSV_SECTION_MAX);
    assert forall k :: 0 <= k < GSV_SECTION_MAX ==> sections[k] == Section(c.entries, k);
    if count < GSV_MIN_COUNT || sections[0].None? || sections[1].None? {
      assert GsvHeaderOf(s).None?;
      return false;
    }
    var total := U8(CAtoi(s, sections[0].value));
    var page := U8(CAtoi(s, sections[1].value));
    if page < 1 {
      assert GsvHeaderOf(s).None?;
      return false;
    }
    ghost var h := GsvHeader(count, c.entries, total, page);
    assert GsvHeaderOf(s) == Some(h);
    ghost var base := if page == 1 then BlankGsv() else st;
    ghost var counted := if Section(c.entries, 2).Some? then base.(inView := I16(CAtoi(s, c.entries[2]))) else base;
    var cur := U8((page - 1) * 4);
    if page == 1 {
      view.Clear();
    }
    if sections[2].Some? {
      view.inView := I16(CAtoi(s, sections[2].value));
    }
    assert view.State() == counted;
    FillSats(s, sections, c.entries, count, cur, view.rsv);
    assert view.State() == GsvApply(s, h, st).view;
    ok := total >= page;
  }
}
