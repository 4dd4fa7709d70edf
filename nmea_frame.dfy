/** Sentence framing and classification (nmea_parse.c: nmea_find_tail and
    nmea_pack_type). A sentence is `$`, a payload, `*`, two checksum
    characters and CR LF; its checksum is the XOR of the payload bytes, as in
    the sentence structure of NMEA 0183. */
module NmeaFrame {
  import opened NmeaTypes
  import opened NmeaScan
  import opened NmeaBits

  // ---------------------------------------------------------------------
  // nmea_pack_type
  // ---------------------------------------------------------------------

  /** The five-byte talker and sentence code of each known kind. */
  function Header(t: PackType): seq<Byte>
  {
    match t
    case GPNON => []
    case GPGGA => "GPGGA"
    case GPGSA => "GPGSA"
    case GPGSV => "GPGSV"
    case GPRMC => "GPRMC"
    case GPVTG => "GPVTG"
  }

  /** The kind whose code the first five bytes spell exactly (case
      sensitive); GPNON when fewer than five bytes are available or none
      matches. */
  function PackTypeOf(buf: seq<Byte>): (t: PackType)
    ensures forall k :: k != GPNON ==> (t == k <==> |buf| >= 5 && buf[..5] == Header(k))
  {
    if |buf| < 5 then GPNON
    else if buf[..5] == "GPGGA" then GPGGA
    else if buf[..5] == "GPGSA" then GPGSA
    else if buf[..5] == "GPGSV" then GPGSV
    else if buf[..5] == "GPRMC" then GPRMC
    else if buf[..5] == "GPVTG" then GPVTG
    else GPNON
  }

  // ---------------------------------------------------------------------
  // The checksum: XOR of C `char`s, which are signed
  // ---------------------------------------------------------------------

  /** The eight bits of a byte. */
  function Bits(b: Byte): (w: seq<bool>)
    ensures |w| == 8
  {
    ToBits(b as int, 8)
  }

  lemma BitsValue(b: Byte)
    ensures Unsigned(Bits(b)) == b as int
  {
    Pow2Values();
    UnsignedOfToBits(b as int, 8);
  }

  /** C's `(int)c` for a signed char. */
  function SignExtend(b: Byte): (w: seq<bool>)
    ensures |w| == 32
  {
    Widen(Bits(b))
  }

  /** One step of the C loop: `crc ^= (int)*buff`. */
  function XorStep(crc: seq<bool>, b: Byte): (w: seq<bool>)
    requires |crc| == 32
    ensures |w| == 32
  {
    Xor(crc, SignExtend(b))
  }

  /** The checksum the C loop accumulates over the bytes of `s`, in order,
      as the 32 bits of the C int. */
  function XorSum(s: seq<Byte>): (w: seq<bool>)
    ensures |w| == 32
  {
    if s == [] then Zeros(32) else XorStep(XorSum(s[..|s| - 1]), s[|s| - 1])
  }

  /** The XOR of the bytes themselves, as NMEA 0183 defines the checksum. */
  function XorBytes(s: seq<Byte>): (x: seq<bool>)
    ensures |x| == 8
  {
    if s == [] then Zeros(8) else Xor(XorBytes(s[..|s| - 1]), Bits(s[|s| - 1]))
  }

  /** The signed-char checksum is the NMEA byte XOR, sign-extended. */
  lemma {:induction false} ChecksumIsByteXor(s: seq<Byte>)
    ensures XorSum(s) == Widen(XorBytes(s))
    decreases |s|
  {
    if s == [] {
      WidenZeros();
    } else {
      ChecksumIsByteXor(s[..|s| - 1]);
      WidenXor(XorBytes(s[..|s| - 1]), Bits(s[|s| - 1]));
    }
  }

  /** Bytes with the top bit clear (7-bit ASCII). */
  predicate IsAscii(s: seq<Byte>)
  {
    forall i :: 0 <= i < |s| ==> s[i] as int < 0x80
  }

  lemma {:induction false} AsciiXorIsAscii(s: seq<Byte>)
    requires IsAscii(s)
    ensures !XorBytes(s)[7]
    decreases |s|
  {
    if s != [] {
      var init := s[..|s| - 1];
      assert IsAscii(init) by {
        forall i | 0 <= i < |init| ensures init[i] as int < 0x80 {
          assert init[i] == s[i];
        }
      }
      AsciiXorIsAscii(init);
      BitsValue(s[|s| - 1]);
      TopBit(Bits(s[|s| - 1]));
    }
  }

  /** What the framer compares with the transmitted checksum, as a C int:
      the NMEA byte XOR read as a signed char, so -128..127; for a 7-bit
      payload it is the byte XOR itself. */
  lemma ChecksumAsInt(s: seq<Byte>)
    ensures var x := Unsigned(XorBytes(s));
      AsInt32(XorSum(s)) == if x < 0x80 then x else x - 0x100
    ensures -0x80 <= AsInt32(XorSum(s)) < 0x80
    ensures IsAscii(s) ==> AsInt32(XorSum(s)) == Unsigned(XorBytes(s))
  {
    ChecksumIsByteXor(s);
    WidenValue(XorBytes(s));
    TopBit(XorBytes(s));
    if IsAscii(s) {
      AsciiXorIsAscii(s);
    }
  }

  // ---------------------------------------------------------------------
  // nmea_find_tail
  // ---------------------------------------------------------------------

  /** The framer's answer: the length of the span to consume (0: no
      complete sentence yet) and the checksum, or -1. */
  datatype Frame = Frame(len: nat, crc: int)

  /** The bytes between the leading byte and `end`. */
  function Payload(buf: seq<Byte>, end: nat): seq<Byte>
    requires end <= |buf|
  {
    if end == 0 then [] else buf[1..end]
  }

  /** What nmea_find_tail reports for `buf`. The scan stops at the first
      `*`, or at the first `$` after the leading byte, whichever comes first:
      - a `$` first: that `$`'s offset, checksum -1 (the bytes before it are
        dropped; the new sentence is taken on the next call);
      - a `*` followed by two characters and CR LF: the span up to the CR LF;
        its checksum if the two characters (read as hex by strtol) equal the
        XOR of the payload, -1 if they differ;
      - otherwise no sentence: 0 and -1.
      A checksum field that strtol reads as negative and that equals the
      payload XOR (both are signed) also yields no sentence: 0 and that value. */
  function Tail(buf: seq<Byte>): (f: Frame)
    ensures f.len <= |buf|
    ensures f.crc >= 0 ==> f.len >= 5
    ensures f.len > 0 ==> f.crc >= -1
  {
    var star := FindByte(buf, 0, '*');
    var dollar := if buf == [] then 0 else FindByte(buf, 1, '$');
    if dollar < star then Frame(dollar, -1)
    else if star + 5 <= |buf| && buf[star + 3] == '\r' && buf[star + 4] == '\n' then
      var rc := Atoi(buf[star + 1..star + 3], 16);
      if rc != AsInt32(XorSum(Payload(buf, star))) then Frame(star + 5, -1)
      else if rc < 0 then Frame(0, rc)
      else Frame(star + 5, rc)
    else Frame(0, -1)
  }

  lemma PayloadGrows(buf: seq<Byte>, k: nat)
    requires 1 <= k < |buf|
    ensures XorSum(Payload(buf, k + 1)) == XorStep(XorSum(Payload(buf, k)), buf[k])
  {
    var p := Payload(buf, k + 1);
    assert p[..|p| - 1] == Payload(buf, k);
  }

  /** The three ways the scan can stop, each stated on its own. */
  lemma TailAtDollar(buf: seq<Byte>, k: nat)
    requires 1 <= k < |buf| && buf[k] == '$'
    requires forall j :: 0 <= j < k ==> buf[j] != '*'
    requires forall j :: 1 <= j < k ==> buf[j] != '$'
    ensures Tail(buf) == Frame(k, -1)
  {
    FindByteIs(buf, 1, '$', k);
    assert FindByte(buf, 0, '*') > k;
  }

  lemma TailAtStar(buf: seq<Byte>, k: nat)
    requires k < |buf| && buf[k] == '*'
    requires forall j :: 0 <= j < k ==> buf[j] != '*'
    requires forall j :: 1 <= j < k ==> buf[j] != '$'
    ensures Tail(buf) ==
      if k + 5 <= |buf| && buf[k + 3] == '\r' && buf[k + 4] == '\n' then
        var rc := Atoi(buf[k + 1..k + 3], 16);
        if rc != AsInt32(XorSum(Payload(buf, k))) then Frame(k + 5, -1)
        else if rc < 0 then Frame(0, rc)
        else Frame(k + 5, rc)
      else Frame(0, -1)
  {
    FindByteIs(buf, 0, '*', k);
  }

  lemma TailAtEnd(buf: seq<Byte>)
    requires forall j :: 0 <= j < |buf| ==> buf[j] != '*'
    requires forall j :: 1 <= j < |buf| ==> buf[j] != '$'
    ensures Tail(buf) == Frame(0, -1)
  {
    FindByteIs(buf, 0, '*', |buf|);
    if buf != [] {
      FindByteIs(buf, 1, '$', |buf|);
    }
  }

  /** nmea_find_tail: one pass with the `nread` and `crc` accumulators. */
  method FindTail(buf: seq<Byte>) returns (n: nat, resCrc: int)
    ensures Frame(n, resCrc) == Tail(buf)
  {
    resCrc := -1;
    var nread: nat := 0;
    var crc := Zeros(32);
    var abandoned := false;   // the C sets `buff` to NULL
    ghost var stopped := false;
    while nread < |buf|
      invariant nread <= |buf| && resCrc == -1 && !abandoned
      invariant forall j :: 0 <= j < nread ==> buf[j] != '*'
      invariant forall j :: 1 <= j < nread ==> buf[j] != '$'
      invariant crc == XorSum(Payload(buf, nread))
      invariant !stopped
    {
      if buf[nread] == '$' && nread != 0 {
        TailAtDollar(buf, nread);
        abandoned := true;
        stopped := true;
        break;
      } else if buf[nread] == '*' {
        TailAtStar(buf, nread);
        if nread + 5 <= |buf| && buf[nread + 3] == '\r' && buf[nread + 4] == '\n' {
          resCrc := Atoi(buf[nread + 1..nread + 3], 16);
          if resCrc != AsInt32(crc) {
            resCrc := -1;
            abandoned := true;
          }
          nread := nread + 5;
        }
        stopped := true;
        break;
      } else if nread != 0 {
        PayloadGrows(buf, nread);
        crc := XorStep(crc, buf[nread]);
      }
      nread := nread + 1;
    }
    if !stopped {
      TailAtEnd(buf);
    }
    if resCrc < 0 && !abandoned {
      nread := 0;
    }
    n := nread;
  }

  /** A frame with a valid checksum is one whole sentence: no earlier `*`
      and no second `$`, then `*`, two checksum characters and CR LF, and its
      checksum is the XOR of the payload. */
  lemma {:induction false} ValidFrameIsSentence(buf: seq<Byte>)
    requires Tail(buf).crc >= 0
    ensures var n := Tail(buf).len;
      n >= 5 && buf[n - 5] == '*' && buf[n - 2] == '\r' && buf[n - 1] == '\n' &&
      (forall j :: 0 <= j < n - 5 ==> buf[j] != '*') &&
      (forall j :: 1 <= j < n - 5 ==> buf[j] != '$') &&
      Tail(buf).crc == Atoi(buf[n - 4..n - 2], 16) == AsInt32(XorSum(Payload(buf, n - 5)))
  {
    var star := FindByte(buf, 0, '*');
    var dollar := if buf == [] then 0 else FindByte(buf, 1, '$');
    assert !(dollar < star);
    assert star + 5 <= |buf|;
    assert Tail(buf).len == star + 5;
  }

  lemma BitsInjective(a: Byte, b: Byte)
    requires a != b
    ensures Bits(a) != Bits(b)
  {
    BitsValue(a);
    BitsValue(b);
  }

  /** Replacing one byte changes the byte XOR by the old and the new byte. */
  lemma {:induction false} XorBytesUpdate(p: seq<Byte>, i: nat, b: Byte)
    requires i < |p|
    ensures XorBytes(p[i := b]) == Xor(XorBytes(p), Xor(Bits(p[i]), Bits(b)))
    decreases |p|
  {
    var q, last := p[i := b], |p| - 1;
    if i == last {
      assert q[..last] == p[..last];
      XorSwap(XorBytes(p[..last]), Bits(p[i]), Bits(b));
    } else {
      assert q[..last] == p[..last][i := b];
      XorBytesUpdate(p[..last], i, b);
      XorRotate(XorBytes(p[..last]), Xor(Bits(p[i]), Bits(b)), Bits(p[last]));
    }
  }

  /** Any single-byte change to a payload changes its checksum. */
  lemma ChangedByteChangesChecksum(p: seq<Byte>, i: nat, b: Byte)
    requires i < |p| && b != p[i]
    ensures AsInt32(XorSum(p[i := b])) != AsInt32(XorSum(p))
  {
    var q := p[i := b];
    XorBytesUpdate(p, i, b);
    BitsInjective(p[i], b);
    XorDiffers(XorBytes(p), Bits(p[i]), Bits(b));
    UnsignedInjective(XorBytes(q), XorBytes(p));
    ChecksumAsInt(q);
    ChecksumAsInt(p);
    TopBit(XorBytes(q));
    TopBit(XorBytes(p));
  }

  /** A sentence whose checksum was valid is rejected once any payload byte
      is replaced by another that is neither `*` nor `$`: the framer still
      consumes the same span but reports a checksum error. */
  lemma ChangedPayloadByteIsDetected(buf: seq<Byte>, j: nat, b: Byte)
    requires Tail(buf).crc >= 0
    requires 1 <= j < Tail(buf).len - 5
    requires b != buf[j] && b != '*' && b != '$'
    ensures Tail(buf[j := b]) == Frame(Tail(buf).len, -1)
  {
    var n := Tail(buf).len;
    var star := n - 5;
    ValidFrameIsSentence(buf);
    var t := buf[j := b];
    TailAtStar(t, star);
    TailAtStar(buf, star);
    assert t[star + 1..star + 3] == buf[star + 1..star + 3];
    var p := Payload(buf, star);
    assert Payload(t, star) == p[j - 1 := b] && p[j - 1] == buf[j];
    ChangedByteChangesChecksum(p, j - 1, b);
  }

  /** The signed comparison lets a complete sentence go unreported: payload
      0xFF has the XOR -1 as a signed int, strtol reads the checksum field
      "-1" as -1, the two agree and the framer answers "no sentence yet". */
  lemma NegativeChecksumHidesSentence()
    ensures Tail("$\U{FF}*-1\r\n") == Frame(0, -1)
  {
    var buf: seq<Byte> := "$\U{FF}*-1\r\n";
    TailAtStar(buf, 2);
    assert Payload(buf, 2) == ['\U{FF}'];
    assert buf[3..5] == "-1";
    ChecksumOfTopByte('\U{FF}');
    AtoiMinusOne();
  }

  lemma ChecksumOfTopByte(b: Byte)
    requires b as int == 0xFF
    ensures AsInt32(XorSum([b])) == -1
  {
    assert [b][..0] == [];
    XorZeros(Bits(b));
    BitsValue(b);
    ChecksumAsInt([b]);
  }

  lemma AtoiMinusOne()
    ensures Atoi("-1", 16) == -1
  {
    assert ['-'] + "1" + [] == "-1";
    AtoiIsLeadingDigits(['-'], "1", [], 16);
    assert DigitsValue("1", 16) == 1;
  }
}
