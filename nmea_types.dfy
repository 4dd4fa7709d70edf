/** Records, summary and constants of the NMEA 0183 parser library (nmea_parse.h).
    Everything the pipeline produces is a value here; the summary and the
    stream parser, which the library updates in place, are classes in their
    own modules. */
module NmeaTypes {

  /** A C `char` as it comes off the wire: one byte. */
  type Byte = c: char | c as int < 256

  const NUL: Byte := '\0'

  datatype Option<+T> = None | Some(value: T)

  // GPS quality indicator and fix dimensionality. NOTE: "bad" is 0 for the
  // signal but 1 for the fix.
  const SIG_BAD: int := 0
  const SIG_LOW: int := 1
  const SIG_MID: int := 2
  const SIG_HIGH: int := 3

  const FIX_BAD: int := 1
  const FIX_2D: int := 2
  const FIX_3D: int := 3

  /** Satellite table of the summary, satellites per GSV page, GSV pages. */
  const MAXSAT: nat := 12
  const SATINPACK: nat := 4
  const NSATPACKS: nat := MAXSAT / SATINPACK

  /** Staging buffers of the numeric conversions and of the time field. */
  const CONVSTR_BUF: nat := 256
  const TIMEPARSE_BUF: nat := 256

  /** Default and minimum size of the stream parser's buffer. */
  const DEF_PARSEBUFF: nat := 1024
  const MIN_PARSEBUFF: nat := 256

  /** RT-Thread's return codes (rtdef.h). */
  const RT_EOK: int := 0
  const RT_ERROR: int := 1

  lemma SatelliteTableIsThreePages()
    ensures NSATPACKS == 3 && MAXSAT == SATINPACK * NSATPACKS
    ensures SIG_BAD == 0 && FIX_BAD == 1 && SIG_BAD != FIX_BAD
    ensures MIN_PARSEBUFF <= DEF_PARSEBUFF && CONVSTR_BUF == TIMEPARSE_BUF == 256
  {
  }

  /** Appending to a queue in two steps appends the two parts in order. */
  lemma ConcatAssoc<T>(a: seq<T>, b: seq<T>, c: seq<T>)
    ensures a + (b + c) == (a + b) + c
  {
  }

  /** Sentence kinds the library recognises (enum NMEA_PACK_TYPE). */
  datatype PackType = GPNON | GPGGA | GPGSA | GPGSV | GPRMC | GPVTG

  /** The enum's numeric code; the summary's `smask` ORs these together. */
  function Code(t: PackType): (c: bv32)
    ensures t == GPNON <==> c == 0
    ensures c & (c - 1) == 0
  {
    match t
    case GPNON => 0x00
    case GPGGA => 0x01
    case GPGSA => 0x02
    case GPGSV => 0x04
    case GPRMC => 0x08
    case GPVTG => 0x10
  }

  /** The codes of two different kinds share no bit, so a mask built by OR
      records exactly which kinds contributed. */
  lemma CodesAreDisjointBits(t: PackType, u: PackType)
    requires t != u
    ensures Code(t) & Code(u) == 0
    ensures Code(t) != Code(u)
  {
  }

  /** A C double that the model does not compute with: either zero (memset),
      the value `strtod`/`atof` gives for a text, its negation, or a speed in
      knots converted to km/h by the factor 1.852. */
  datatype Float = FZero | FParsed(text: seq<Byte>) | FNeg(x: Float) | FKnotsToKmh(x: Float)

  /** Date and time (nmea_time_t): year since 1900, month 0-11, day 1-31,
      hundredths of a second 0-99, as documented; the fields are plain ints. */
  datatype Time = Time(year: int, mon: int, day: int, hour: int, min: int, sec: int, hsec: int)

  const ZeroTime := Time(0, 0, 0, 0, 0, 0, 0)

  /** One satellite (nmea_satellite_t). */
  datatype Satellite = Satellite(id: int, inUse: int, elv: int, azimuth: int, sig: int)

  const ZeroSat := Satellite(0, 0, 0, 0, 0)

  /** The PRN slots of a GSA record and the satellites of a GSV page. */
  type PrnTable = s: seq<int> | |s| == MAXSAT
    witness [0, 0, 0, 0, 0, 0, 0, 0, 0, 0, 0, 0]
  type SatPage = s: seq<Satellite> | |s| == SATINPACK
    witness [ZeroSat, ZeroSat, ZeroSat, ZeroSat]

  /** GGA: essential fix data (nmea_gga_t). */
  datatype GgaPack = GgaPack(
    utc: Time, lat: Float, ns: Byte, lon: Float, ew: Byte,
    sig: int, satinuse: int, hdop: Float, elv: Float, elvUnits: Byte,
    diff: Float, diffUnits: Byte, dgpsAge: Float, dgpsSid: int)

  /** GSA: operating mode, satellites used and DOP values (nmea_gsa_t). */
  datatype GsaPack = GsaPack(
    fixMode: Byte, fixType: int, satPrn: PrnTable, pdop: Float, hdop: Float, vdop: Float)

  /** GSV: one page of the satellites in view (nmea_gsv_t). */
  datatype GsvPack = GsvPack(packCount: int, packIndex: int, satCount: int, satData: SatPage)

  /** RMC: recommended minimum data (nmea_rmc_t). */
  datatype RmcPack = RmcPack(
    utc: Time, status: Byte, lat: Float, ns: Byte, lon: Float, ew: Byte,
    speed: Float, direction: Float, declination: Float, declinEw: Byte, mode: Byte)

  /** VTG: track made good and ground speed (nmea_vtg_t). */
  datatype VtgPack = VtgPack(
    dir: Float, dirT: Byte, dec: Float, decM: Byte, spn: Float, spnN: Byte, spk: Float, spkK: Byte)

  // The records as `memset(pack, 0, sizeof ...)` leaves them.
  const ZeroGga := GgaPack(ZeroTime, FZero, NUL, FZero, NUL, 0, 0, FZero, FZero, NUL, FZero, NUL, FZero, 0)
  const ZeroGsa := GsaPack(NUL, 0, [0, 0, 0, 0, 0, 0, 0, 0, 0, 0, 0, 0], FZero, FZero, FZero)
  const ZeroGsv := GsvPack(0, 0, 0, [ZeroSat, ZeroSat, ZeroSat, ZeroSat])
  const ZeroRmc := RmcPack(ZeroTime, NUL, FZero, NUL, FZero, NUL, FZero, FZero, FZero, NUL, NUL)
  const ZeroVtg := VtgPack(FZero, NUL, FZero, NUL, FZero, NUL, FZero, NUL)

  /** A decoded sentence as the parser's queue holds it (node->packType and node->pack). */
  datatype Packet = Gga(gga: GgaPack) | Gsa(gsa: GsaPack) | Gsv(gsv: GsvPack) | Rmc(rmc: RmcPack) | Vtg(vtg: VtgPack)

  function KindOf(p: Packet): (t: PackType)
    ensures t != GPNON
  {
    match p
    case Gga(_) => GPGGA
    case Gsa(_) => GPGSA
    case Gsv(_) => GPGSV
    case Rmc(_) => GPRMC
    case Vtg(_) => GPVTG
  }
}
