# NMEA 0183 sentence pipeline, modelled in Dafny

This project models the NMEA 0183 pipeline of the rtt_nmea board support
packages and proves properties of it. The pipeline has three parts.

- **The nmealib-style stream parser** of the simulator package:
  - the `nmea_scanf` field tokenizer and `nmea_atoi`;
  - the `nmea_find_tail` checksum framer, the `nmea_pack_type` classifier and the `_nmea_parse_time` time decoder;
  - the five sentence decoders (GGA, GSA, GSV, RMC, VTG) and the five `nmea_GP*2info` merges into the fix summary;
  - the parser object with its byte buffer and FIFO record queue, and the `nmea_parse` drain loop.
- **The second copy** of the tokenizer and decoders in the nmea_parse_lib package. It adds NULL checks, a zeroed time buffer and `RT_EOK`/`-RT_ERROR` results. Its `nmea_scanf` and `nmea_atoi` are the same text as the simulator's, so one Dafny member models both copies.
- **The comma-splitting parser** of the stm32l475 package: `data_conversion`, `parse_gsv`, and the count and letter checks of `parse_gga` and `parse_rmc`.

Modules, one per file:

| module | file | models |
|---|---|---|
| `NmeaTypes` | nmea_types.dfy | constants, packet kinds and their bit codes, record and summary types |
| `NmeaBits` | nmea_bits.dfy | words as bit lists: XOR, sign extension of a `char`, two's-complement value |
| `NmeaScan` | nmea_scan.dfy | `nmea_atoi`; `nmea_scanf` as a recursive specification `Scan` and as the state-machine method `ScanF` proved equal to it |
| `NmeaFields` | nmea_fields.dfy | what a format template such as `"$GPGGA,%s,%f,..."` does to a sentence laid out field by field |
| `NmeaFrame` | nmea_frame.dfy | `nmea_pack_type`; `nmea_find_tail` as a function `Tail` and as the loop `FindTail` |
| `NmeaDecode` | nmea_decode.dfy | C strings, `_nmea_parse_time`, the GGA decoder |
| `NmeaSentences` | nmea_sentences.dfy | the GSA, GSV and VTG decoders |
| `NmeaRmc` | nmea_rmc.dfy | the RMC decoder and the RMC sample sentence |
| `NmeaInfo` | nmea_info.dfy | the merges, as functions on a summary value and as methods of a class `Info` holding the 12-slot satellite array |
| `NmeaParser` | nmea_parser.dfy | the parse loop, the chunking push, the class `Parser` (buffer array, `buffUse`, queue) and `nmea_parse` |
| `NmeaClock` | nmea_clock.dfy | the documented ranges of the time record against what `_nmea_parse_time` and the RMC date store, with corrected readings that keep to them |
| `NmeaLibParse` | nmea_libparse.dfy | the second copy's decoders with their NULL checks and zeroed time buffer |
| `GpsParse` | gps_parse.dfy | `data_conversion`, `parse_gga`, `parse_rmc`, `parse_gsv` and the class `GsvView` holding the 40 satellite slots |

Modelling choices:

- **Bytes.** A byte is a `char` below 256, so formats and samples are string literals.
- **Arguments.** The `va_arg` destination list of `nmea_scanf` is a sequence of typed slots. `None` stands for a NULL pointer. The C reads a second pointer after a NULL char/string/double destination, and the model does the same.
- **Floats.** Floating-point values stay abstract: a field keeps its token text.
- **Checksum.** The framer XORs signed `char`s into an `int`. This is modelled bit by bit: a byte is sign-extended to 32 bits and a word is read as a two's-complement integer.
- **Uninitialised time buffer.** The simulator's GGA and RMC decoders keep the time token in an uninitialised stack buffer (bsp/simulator_nmea/applications/nmea/nmea_parse.c:178 and :281). The model takes its old contents as a parameter `stale`; the parse loop uses the empty buffer.
- **Integer widths.** The stm32l475 parser's `uint8_t` and `int16_t` values wrap explicitly (`U8`, `I16`).

Where the code and its design description differ, the model follows the code:

- **A second `$` before any `*`.** `nmea_find_tail` returns the offset of that `$` with checksum −1, so the bytes before it are dropped as a bad sentence. It does not return 0 ("wait for more bytes").
- **Chunked push.** `nmea_parser_push` never advances its input pointer. Each slice it hands to `nmea_parser_real_push` is the first min(n, buffer size) bytes of the input. The input is not walked slice by slice.
- **Single-byte corruption.** The checksum catches a changed payload byte only when the new byte is neither `*` nor `$`. Those two bytes change the framing instead.

## Model

Source paths below are relative to the repository root.

| member | source | states |
|---|---|---|
| NmeaTypes.SatelliteTableIsThreePages | bsp/nmea_parse_lib/applications/nmea/nmea_parse.h:10-27 | the satellite table has 12 = 4 × 3 slots; SIG_BAD (0) and FIX_BAD (1) differ; the minimum parse buffer is at most the default; numeric and time staging buffers are 256 bytes |
| NmeaTypes.Code | bsp/nmea_parse_lib/applications/nmea/nmea_parse.h:116-124 | only GPNON has code 0, and every code has at most one bit set |
| NmeaTypes.CodesAreDisjointBits | bsp/nmea_parse_lib/applications/nmea/nmea_parse.h:116-124 | two different kinds have different codes with no common bit, so a mask of codes is a set of kinds |
| NmeaBits.WidenXor | bsp/simulator_nmea/applications/nmea/nmea_parse.c:160 | XOR of two sign-extended bytes is the sign extension of their XOR |
| NmeaBits.WidenValue | bsp/simulator_nmea/applications/nmea/nmea_parse.c:160 | a sign-extended byte has the byte's value below 0x80 and that value minus 256 from 0x80 on |
| NmeaScan.Atoi | bsp/simulator_nmea/applications/nmea/nmea_lib.c:16-30 | a text of 256 bytes or more converts to 0; a text not starting with '-' never converts to a negative number |
| NmeaScan.AtoiIsLeadingDigits | bsp/simulator_nmea/applications/nmea/nmea_lib.c:16-30 | below 256 bytes, the value is the optional sign applied to the radix value of the longest run of digits, whatever follows it; the second copy at bsp/nmea_parse_lib/applications/nmea/nmea_parse.c:22-36 is the same text |
| NmeaScan.DigitsEnd | bsp/simulator_nmea/applications/nmea/nmea_lib.c:84-91 | the width digits after '%' are the longest run of digits: the byte after them is not a digit, or the format ends |
| NmeaScan.FindByte | bsp/simulator_nmea/applications/nmea/nmea_lib.c:107 | the memchr result is the first occurrence at or after the start, or the end when there is none |
| NmeaScan.FieldEnd | bsp/simulator_nmea/applications/nmea/nmea_lib.c:93-112 | an explicit width takes exactly that many bytes or fails; %c without width takes one byte unless that byte is the next format byte; any other field runs to the first occurrence of the next format byte, or to the end of input when that byte is absent or the specifier is last |
| NmeaScan.MemChr | bsp/simulator_nmea/applications/nmea/nmea_lib.c:107 | the scanning loop finds the first occurrence, as FindByte |
| NmeaScan.TakeField | bsp/simulator_nmea/applications/nmea/nmea_lib.c:93-112 | the imperative width and end computation gives FieldEnd's field end |
| NmeaScan.StoreWrites | bsp/simulator_nmea/applications/nmea/nmea_lib.c:117-176 | an empty field writes nothing and the scan goes on; with a destination and a token only that slot changes, to the token (%s), its first byte (%c) or its value in base 10 (%d %i %u), 16 (%x %X) or 8 (%o); an unknown letter writes nothing and ends the scan |
| NmeaScan.StoreField | bsp/simulator_nmea/applications/nmea/nmea_lib.c:117-176 | the destination switch of the C, as a method, makes the writes and the continue/stop decision of Store |
| NmeaScan.TypeStep | bsp/simulator_nmea/applications/nmea/nmea_lib.c:80-178 | one specifier, from its '%' to its type letter, either ends the whole scan with the specification's result or continues it after the type letter |
| NmeaScan.ScanLiteral | bsp/simulator_nmea/applications/nmea/nmea_lib.c:74-78 | a literal format byte that differs from the input stops the scan with the count so far; a matching one advances both |
| NmeaScan.ScanRunsOut | bsp/simulator_nmea/applications/nmea/nmea_lib.c:70-92 | a specifier cut off by the end of the format, or reached with the input exhausted, adds nothing to the count |
| NmeaScan.CountBeforeWrite | bsp/simulator_nmea/applications/nmea/nmea_lib.c:114-152 | the count never decreases, and a scan that resolves no further specifier leaves every slot unchanged (a slot is written only after its field is counted) |
| NmeaScan.ScanF | bsp/simulator_nmea/applications/nmea/nmea_lib.c:54-187 | the COMPARE/PERCENT/WIDTH/TYPE state machine returns exactly the count and slots of the specification Scanf; the second copy at bsp/nmea_parse_lib/applications/nmea/nmea_parse.c:60-193 differs only in calling rt_memcpy |
| NmeaFields.FillAt | bsp/simulator_nmea/applications/nmea/nmea_lib.c:117-176 | after a run of fields, a slot outside the run is unchanged, and a slot in it holds its converted token, or keeps its old value when the token is empty |
| NmeaFields.ScanItem | bsp/simulator_nmea/applications/nmea/nmea_lib.c:93-178 | an item "%X" + separator over a token followed by that separator counts one field and continues after the separator |
| NmeaFields.ScanWidth2 | bsp/simulator_nmea/applications/nmea/nmea_lib.c:98-103 | %2d takes exactly two bytes and stores their decimal value |
| NmeaFields.ScanLastInt | bsp/simulator_nmea/applications/nmea/nmea_lib.c:105-108 | a final %d takes the rest of the input |
| NmeaFields.ScanLiterals | bsp/simulator_nmea/applications/nmea/nmea_lib.c:74-78 | a run of literal bytes present in the input is skipped in both |
| NmeaFields.ScanNeedsLiterals | bsp/simulator_nmea/applications/nmea/nmea_lib.c:74-78 | if any field after a literal run is counted, the input holds that run |
| NmeaFields.TemplateItems | bsp/simulator_nmea/applications/nmea/nmea_lib.c:54-187 | a sentence made of a template's head followed by well-formed tokens and its separators resolves one field per token and fills the slots with the converted tokens |
| NmeaFields.HeadNeeded | bsp/simulator_nmea/applications/nmea/nmea_lib.c:74-78 | a non-zero count means the input starts with the template's literal head |
| NmeaFrame.PackTypeOf | bsp/simulator_nmea/applications/nmea/nmea_parse.c:90-116 | the kind is GGA/GSA/GSV/RMC/VTG exactly when at least 5 bytes are there and they equal that kind's code, case-sensitively; otherwise GPNON |
| NmeaFrame.ChecksumIsByteXor | bsp/simulator_nmea/applications/nmea/nmea_parse.c:137-161 | the int accumulated from signed chars is the sign extension of the XOR of the bytes |
| NmeaFrame.AsciiXorIsAscii | bsp/simulator_nmea/applications/nmea/nmea_parse.c:160 | the XOR of ASCII bytes is ASCII |
| NmeaFrame.ChecksumAsInt | bsp/simulator_nmea/applications/nmea/nmea_parse.c:160 | the accumulated checksum lies in [−128, 128) and equals the byte XOR for an ASCII payload |
| NmeaFrame.Tail | bsp/simulator_nmea/applications/nmea/nmea_parse.c:125-167 | the reported span fits the buffer, a valid checksum comes with a span of at least 5 bytes, and a non-empty span carries a checksum of at least −1 |
| NmeaFrame.TailAtDollar | bsp/simulator_nmea/applications/nmea/nmea_parse.c:139-143 | a second '$' before any '*' ends the span at that '$' with checksum −1 |
| NmeaFrame.TailAtStar | bsp/simulator_nmea/applications/nmea/nmea_parse.c:144-164 | at the first '*': without two more bytes and CR LF, no sentence; with a hex checksum that differs from the payload's, the span to the LF and −1; with a matching one, the span and that checksum, except that a matching negative value reports no sentence |
| NmeaFrame.TailAtEnd | bsp/simulator_nmea/applications/nmea/nmea_parse.c:137-166 | a buffer without '*' and without a second '$' holds no sentence |
| NmeaFrame.FindTail | bsp/simulator_nmea/applications/nmea/nmea_parse.c:125-167 | the framer loop returns exactly the span and checksum of Tail |
| NmeaFrame.ValidFrameIsSentence | bsp/simulator_nmea/applications/nmea/nmea_parse.c:125-167 | a span with a valid checksum is any first byte (not necessarily '$': the framer looks for '$' only after the first byte), then a payload with no '*' or '$', then '*', two checksum bytes and CR LF; its checksum is both the hex value of those two bytes and the payload XOR |
| NmeaFrame.ChangedByteChangesChecksum | bsp/simulator_nmea/applications/nmea/nmea_parse.c:160 | changing one payload byte changes the computed checksum |
| NmeaFrame.ChangedPayloadByteIsDetected | bsp/simulator_nmea/applications/nmea/nmea_parse.c:146-154 | changing one payload byte of a valid sentence to any byte other than '*' and '$' makes the framer report the same span with checksum −1 |
| NmeaFrame.NegativeChecksumHidesSentence | bsp/simulator_nmea/applications/nmea/nmea_parse.c:148-164 | the complete sentence "$\xFF*-1\r\n", whose payload checksum −1 equals its checksum text "-1", is reported as no sentence |
| NmeaDecode.CStr | bsp/simulator_nmea/applications/nmea/nmea_parse.c:195 | the rt_strlen view of the time buffer: the bytes before the first NUL |
| NmeaDecode.ParseTime | bsp/simulator_nmea/applications/nmea/nmea_parse.c:56-81 | the result code is 0 or −1, and the date fields of the time are untouched |
| NmeaDecode.TimeScan6 | bsp/simulator_nmea/applications/nmea/nmea_parse.c:62-66 | "%2d%2d%2d" over a 6-byte token resolves 3 fields: the three 2-digit values |
| NmeaDecode.TimeScanFrac | bsp/simulator_nmea/applications/nmea/nmea_parse.c:67-73 | "%2d%2d%2d.%d" resolves 4 fields, with the hundredths as the value of everything after the '.', when byte 6 is '.', and 3 fields otherwise |
| NmeaDecode.ParseTimeResult | bsp/simulator_nmea/applications/nmea/nmea_parse.c:56-81 | success exactly for length 6, or length 8 to 10 with '.' at index 6; hour, minute and second are the decimal values of the three digit pairs; hundredths as above; other lengths leave the time as it was |
| NmeaDecode.ParseTimeDigits | bsp/simulator_nmea/applications/nmea/nmea_parse.c:56-81 | an all-digit hhmmss[.s…] token succeeds with the decimal values of its digit groups |
| NmeaDecode.GgaScan | bsp/simulator_nmea/applications/nmea/nmea_parse.c:184-189 | a well-formed GGA sentence resolves exactly 14 fields, each slot holding its token |
| NmeaDecode.GgaFill | bsp/simulator_nmea/applications/nmea/nmea_parse.c:182-189 | the zeroed GGA record filled by the scan holds each token in its field, zero/NUL for empty ones, and the time buffer keeps its old contents when the time token is empty |
| NmeaDecode.GgaLayout | bsp/simulator_nmea/applications/nmea/nmea_parse.c:176-202 | a well-formed GGA sentence decodes to the record of its tokens, accepted exactly when its time token is a valid time |
| NmeaSentences.GsaFill | bsp/simulator_nmea/applications/nmea/nmea_parse.c:215-222 | the zeroed GSA record filled by the scan holds mode, fix type, the 12 PRNs and the 3 DOPs from the tokens |
| NmeaSentences.GsaLayout | bsp/simulator_nmea/applications/nmea/nmea_parse.c:211-229 | a well-formed GSA sentence resolves 17 fields and decodes, accepted, to the record of its tokens |
| NmeaSentences.GsaNeedsHeader | bsp/simulator_nmea/applications/nmea/nmea_parse.c:217-218 | an accepted GSA sentence starts with "$GPGSA," |
| NmeaSentences.GsvAcceptance | bsp/simulator_nmea/applications/nmea/nmea_parse.c:246-268 | GSV is accepted exactly when the resolved count lies between 3 + 4 × (satellites due on this page) and 19 |
| NmeaSentences.NeedIsDue | bsp/simulator_nmea/applications/nmea/nmea_parse.c:258-262 | the C rejection test, negated, is that page-completeness rule, with min(4, count − (page − 1) × 4) satellites due |
| NmeaSentences.GsvFill | bsp/simulator_nmea/applications/nmea/nmea_parse.c:244-256 | the zeroed GSV record filled by the scan holds page count, page index, satellite count and the four satellites from the tokens |
| NmeaSentences.GsvLayout | bsp/simulator_nmea/applications/nmea/nmea_parse.c:238-269 | a well-formed full page of 19 fields is accepted and decodes to the record of its tokens |
| NmeaSentences.GsvNeedsHeader | bsp/simulator_nmea/applications/nmea/nmea_parse.c:246-247 | an accepted GSV sentence starts with "$GPGSV," |
| NmeaSentences.VtgFill | bsp/simulator_nmea/applications/nmea/nmea_parse.c:325-332 | the zeroed VTG record filled by the scan holds the four values and four unit letters from the tokens |
| NmeaSentences.VtgLetters | bsp/simulator_nmea/applications/nmea/nmea_parse.c:338-341 | the unit letters read 'T','M','N','K' exactly when those tokens are the one-letter strings "T","M","N","K" |
| NmeaSentences.VtgLayout | bsp/simulator_nmea/applications/nmea/nmea_parse.c:321-348 | a well-formed VTG sentence decodes to the record of its tokens, accepted exactly when its unit letters are T, M, N, K |
| NmeaSentences.VtgNeedsHeader | bsp/simulator_nmea/applications/nmea/nmea_parse.c:327-328 | an accepted VTG sentence starts with "$GPVTG," |
| NmeaRmc.PivotDate | bsp/simulator_nmea/applications/nmea/nmea_parse.c:307-309 | a two-digit year becomes a year since 1900 in 90…189 with the same last two digits, and a month 1–12 becomes 0–11; the rest is unchanged (the decoder does not check the month, see NmeaClock.RmcDateOutOfRange) |
| NmeaClock.ParseClock | bsp/nmea_parse_lib/applications/nmea/nmea_parse.h:40-46 | the corrected time parse: the code is 0 or −1; an accepted time has hour 0–23, minute and second 0–59 and hundredths 0–99; the date is kept, and a rejected text leaves the record as it was |
| NmeaClock.ParseClockAccepts | bsp/nmea_parse_lib/applications/nmea/nmea_parse.h:40-46 | the corrected parse accepts exactly the all-digit "hhmmss[.f…]" texts whose hour is at most 23 and whose minute and second are at most 59 |
| NmeaClock.ParseTimeClockText | bsp/simulator_nmea/applications/nmea/nmea_parse.c:56-81 | an all-digit clock text is accepted as written: hour, minute and second are the digit pairs whatever their value, and the fraction's digits become one integer stored as hundredths (one digit gives tenths, three give thousandths) |
| NmeaClock.ClockAgrees | bsp/simulator_nmea/applications/nmea/nmea_parse.c:62-73 | the code as written and the corrected parse give the same result on an in-range "hhmmss" into a record with zero hundredths, and on an in-range "hhmmss.hh" |
| NmeaClock.ParseTimeLeavesRange | bsp/simulator_nmea/applications/nmea/nmea_parse.c:62-73 | the code as written accepts an hour above 23 or a minute or second above 59 and leaves the documented range, where the corrected parse rejects; a three-digit fraction not starting with 0 gives hundredths of 100 or more; a one-digit fraction gives a tenth of the corrected hundredths |
| NmeaClock.MillisSample | bsp/simulator_nmea/applications/nmea/nmea_parse.c:67-73 | "031024.500" is accepted with hundredths 500, outside 0–99; the corrected parse gives 50 |
| NmeaClock.Hour99Sample | bsp/simulator_nmea/applications/nmea/nmea_parse.c:62-66 | "995959" is accepted with hour 99, outside 0–23; the corrected parse rejects it |
| NmeaClock.CheckedDate | bsp/simulator_nmea/applications/nmea/nmea_parse.c:287-309 | the corrected date check: accepted exactly for a two-digit year, a month 1–12 and a day 1–31, and then the pivoted date has day 1–31 and month 0–11, one below the scanned month |
| NmeaClock.RmcDateOutOfRange | bsp/simulator_nmea/applications/nmea/nmea_parse.c:287-309 | an RMC whose date field is "001318" and whose time is valid is accepted with day 0 and month 12, outside the documented ranges; the corrected date check rejects that date |
| NmeaRmc.RmcAcceptance | bsp/simulator_nmea/applications/nmea/nmea_parse.c:295-309 | RMC is accepted exactly when 13 or 14 fields resolve and the time token is valid, and then its time is the pivoted parsed time on the scanned date |
| NmeaRmc.RmcScan | bsp/simulator_nmea/applications/nmea/nmea_parse.c:287-293 | a well-formed RMC sentence resolves 14 fields: eight tokens, the three %2d date pairs and three more tokens |
| NmeaRmc.RmcFill | bsp/simulator_nmea/applications/nmea/nmea_parse.c:285-293 | the zeroed RMC record filled by the scan holds each token in its field and the date from the digit pairs day, month, year |
| NmeaRmc.RmcLayout | bsp/simulator_nmea/applications/nmea/nmea_parse.c:278-312 | a well-formed RMC sentence decodes to the record of its tokens and date |
| NmeaRmc.RmcNeedsHeader | bsp/simulator_nmea/applications/nmea/nmea_parse.c:287-288 | an accepted RMC sentence starts with "$GPRMC," |
| NmeaRmc.SampleLaid | bsp/nmea_parse_lib/applications/nmealib_test.c:25 | the sample RMC sentence is the template's head, its 8 + 3 tokens and the date 180918 laid out in order |
| NmeaRmc.SampleClock | bsp/nmea_parse_lib/applications/nmealib_test.c:25 | the sample's time token 031024.000 parses to 03:10:24, hundredths 0 |
| NmeaRmc.SampleRecord | bsp/nmea_parse_lib/applications/nmealib_test.c:25 | the sample's tokens make the record dated day 18, month 8, year 118, 03:10:24.00, status 'A', position 3115.6422 N 12127.5490 E |
| NmeaRmc.SampleDecodes | bsp/nmea_parse_lib/applications/nmealib_test.c:25 | the sample sentence resolves 14 fields and decodes, accepted, to that record |
| NmeaInfo.GgaMerge | bsp/simulator_nmea/applications/nmea/nmea_parse.c:355-369 | the satellite table and the date are untouched, and the mask gains GGA |
| NmeaInfo.Matches | bsp/simulator_nmea/applications/nmea/nmea_parse.c:389-396 | a PRN matches at most as many slots as are scanned |
| NmeaInfo.ScanBound | bsp/simulator_nmea/applications/nmea/nmea_parse.c:389 | the number of slots the GSA merge scans is never beyond the table, and equals inview when inview fits it |
| NmeaInfo.GsaMerge | bsp/simulator_nmea/applications/nmea/nmea_parse.c:376-401 | the merge keeps the summary well-formed and the mask gains GSA |
| NmeaInfo.GsaMarksListed | bsp/simulator_nmea/applications/nmea/nmea_parse.c:387-399 | only the in-use flags change, and only from 0 to 1; a scanned slot becomes in use exactly when its id is a non-zero PRN of the record; the in-use count is 0 exactly when no scanned slot is listed, and at most 12 × scanned slots |
| NmeaInfo.MatchesNone | bsp/simulator_nmea/applications/nmea/nmea_parse.c:389-396 | one PRN matches no scanned slot exactly when no scanned slot carries that non-zero id |
| NmeaInfo.PairsNone | bsp/simulator_nmea/applications/nmea/nmea_parse.c:387-397 | the nested loop counts no match exactly when no scanned slot's id is listed |
| NmeaInfo.PairsBound | bsp/simulator_nmea/applications/nmea/nmea_parse.c:387-397 | the nested loop counts at most (PRNs × scanned slots) matches |
| NmeaInfo.GsaOverrunsAfterGsv | bsp/simulator_nmea/applications/nmea/nmea_parse.c:389-391 | after a GSV page declaring 13 satellites, the GSA loop as written would read slot 12 of a 12-slot table; with inview at most 12 it equals the bounded merge |
| NmeaInfo.GsvMerge | bsp/simulator_nmea/applications/nmea/nmea_parse.c:408-436 | the merge keeps the summary well-formed, and the mask gains GSV unless the page is ignored |
| NmeaInfo.GsvWindow | bsp/simulator_nmea/applications/nmea/nmea_parse.c:414-433 | a page with index above the page count, or index × 4 above 12, changes nothing; otherwise inview becomes the declared count, only slots (index − 1) × 4 … + k − 1 (inside the table) change and take the page's satellites, and no in-use flag changes |
| NmeaInfo.RmcMerge | bsp/simulator_nmea/applications/nmea/nmea_parse.c:443-466 | the satellite table is untouched and the mask gains RMC |
| NmeaInfo.RmcStatusRule | bsp/simulator_nmea/applications/nmea/nmea_parse.c:447-458 | status 'A' raises signal to MID only from exactly BAD and fix to 2D only from exactly BAD, so a zeroed summary keeps fix 0; 'V' forces both to BAD; any other status leaves both |
| NmeaInfo.VtgMerge | bsp/simulator_nmea/applications/nmea/nmea_parse.c:473-481 | the satellite table is untouched and the mask gains VTG |
| NmeaInfo.Merge | bsp/simulator_nmea/applications/nmea/nmea_parse.c:504-521 | merging a record keeps the summary well-formed and adds the record's kind to the mask exactly when the record contributes |
| NmeaInfo.MergeAll | bsp/simulator_nmea/applications/nmea/nmea_parse.c:500-524 | merging records in queue order keeps the summary well-formed |
| NmeaInfo.MaskRecordsKinds | bsp/simulator_nmea/applications/nmea/nmea_parse.c:355-481 | after merging a list of records, the mask is the old mask plus the kinds of the contributing records, and never holds GPNON |
| NmeaInfo.Info.constructor | bsp/nmea_parse_lib/applications/nmea/nmea_parse.h:81-102 | a fresh summary is the zeroed one |
| NmeaInfo.Info.GgaToInfo | bsp/simulator_nmea/applications/nmea/nmea_parse.c:355-369 | the summary object becomes the GGA merge of its old state |
| NmeaInfo.Info.GsaToInfo | bsp/simulator_nmea/applications/nmea/nmea_parse.c:376-401 | the nested loop over the satellite array leaves exactly the GSA merge of the old state |
| NmeaInfo.Info.GsvToInfo | bsp/simulator_nmea/applications/nmea/nmea_parse.c:408-436 | the slot loop over the satellite array leaves exactly the GSV merge of the old state |
| NmeaInfo.Info.RmcToInfo | bsp/simulator_nmea/applications/nmea/nmea_parse.c:443-466 | the summary object becomes the RMC merge of its old state |
| NmeaInfo.Info.VtgToInfo | bsp/simulator_nmea/applications/nmea/nmea_parse.c:473-481 | the summary object becomes the VTG merge of its old state |
| NmeaInfo.Info.MergePacket | bsp/simulator_nmea/applications/nmea/nmea_parse.c:504-521 | the switch on the record kind leaves the merge of that record |
| NmeaParser.Decode | bsp/simulator_nmea/applications/nmea/nmea_parse.c:582-648 | a queued record has the kind the classifier gave, and an unknown kind queues nothing |
| NmeaParser.Drive | bsp/simulator_nmea/applications/nmea/nmea_parse.c:556-662 | the parse loop never consumes more bytes than it holds |
| NmeaParser.DriveStep | bsp/simulator_nmea/applications/nmea/nmea_parse.c:558-661 | one span: the bytes consumed are the span plus what the rest consumes, and the span's record (valid checksum, accepted decode) is queued before the rest's records |
| NmeaParser.DriveLeavesNoSpan | bsp/simulator_nmea/applications/nmea/nmea_parse.c:558-570 | the loop stops only where the framer finds no sentence |
| NmeaParser.LeftoverIsIncomplete | bsp/simulator_nmea/applications/nmea/nmea_parse.c:558-570 | the bytes kept after parsing hold no complete sentence |
| NmeaParser.DrivePacketsNeedBytes | bsp/simulator_nmea/applications/nmea/nmea_parse.c:571-661 | for any framer whose valid spans are at least 5 bytes, the loop queues at most one record per 5 bytes consumed |
| NmeaParser.PacketsNeedBytes | bsp/simulator_nmea/applications/nmea/nmea_parse.c:571-661 | every queued record used at least 5 consumed bytes |
| NmeaParser.Received | bsp/simulator_nmea/applications/nmea/nmea_parse.c:549-553 | the held bytes plus a chunk, or the chunk alone when they would reach the buffer size; a chunk no larger than the buffer fits |
| NmeaParser.Step | bsp/simulator_nmea/applications/nmea/nmea_parse.c:549-664 | after one real push the held bytes fit the buffer, hold no complete sentence, and are the received bytes after the consumed ones |
| NmeaParser.PushSeesOnlyPrefix | bsp/simulator_nmea/applications/nmea/nmea_parse.c:683-695 | push depends only on the first min(n, buffer size) input bytes |
| NmeaParser.PushChunks | bsp/simulator_nmea/applications/nmea/nmea_parse.c:683-695 | an input that fits the buffer is one real push; one up to twice the size is two real pushes of the same leading bytes |
| NmeaParser.Parser.Init | bsp/simulator_nmea/applications/nmea/nmea_parse.c:19-43 | a new parser has a fresh buffer of the default 1024 bytes, nothing held and an empty queue |
| NmeaParser.Parser.Destroy | bsp/simulator_nmea/applications/nmea/nmea_parse.c:48-54 | the queue is emptied and the parser zeroed |
| NmeaParser.Parser.BuffClear | bsp/simulator_nmea/applications/nmea/nmea_parse.c:794-799 | the held bytes are dropped; the buffer and queue stay; the result is 1 |
| NmeaParser.Parser.Append | bsp/simulator_nmea/applications/nmea/nmea_parse.c:552-553 | the chunk is copied after the held bytes |
| NmeaParser.Parser.Compact | bsp/simulator_nmea/applications/nmea/nmea_parse.c:564-568 | the unconsumed bytes move to the front of the buffer |
| NmeaParser.Parser.ParseView | bsp/simulator_nmea/applications/nmea/nmea_parse.c:556-662 | the framing loop over the held bytes consumes and queues exactly what the parse-loop function does |
| NmeaParser.Parser.ParseHeld | bsp/simulator_nmea/applications/nmea/nmea_parse.c:556-570 | parsing the held bytes queues their records and keeps only the unconsumed bytes |
| NmeaParser.Parser.Enqueue | bsp/simulator_nmea/applications/nmea/nmea_parse.c:650-658 | an accepted record is appended at the tail of the queue; a rejected one adds nothing |
| NmeaParser.Parser.RealPush | bsp/simulator_nmea/applications/nmea/nmea_parse.c:533-673 | the buffer, the held bytes and the queue become the result of one step on the old held bytes, and the return value is the bytes consumed |
| NmeaParser.Parser.Push | bsp/simulator_nmea/applications/nmea/nmea_parse.c:679-698 | the chunking loop leaves the held bytes, queue and total consumed of the repeated real pushes |
| NmeaParser.Parser.Top | bsp/simulator_nmea/applications/nmea/nmea_parse.c:705-716 | the kind of the oldest record, GPNON exactly when the queue is empty |
| NmeaParser.Parser.Pop | bsp/simulator_nmea/applications/nmea/nmea_parse.c:723-741 | removes and returns the oldest record and its kind; on an empty queue returns GPNON and changes nothing |
| NmeaParser.Parser.Peek | bsp/simulator_nmea/applications/nmea/nmea_parse.c:748-762 | the oldest record and its kind, GPNON exactly when the queue is empty; nothing changes |
| NmeaParser.Parser.Drop | bsp/simulator_nmea/applications/nmea/nmea_parse.c:769-788 | removes the oldest record and returns its kind; GPNON on an empty queue |
| NmeaParser.Parser.QueueClear | bsp/simulator_nmea/applications/nmea/nmea_parse.c:805-811 | the queue ends empty and the held bytes stay |
| NmeaParser.Parser.Parse | bsp/simulator_nmea/applications/nmea/nmea_parse.c:487-527 | after the push, every queued record (old ones first) is merged into the summary in order, the queue ends empty, and the result is the number merged |
| NmeaLibParse.Guarded | bsp/nmea_parse_lib/applications/nmea/nmea_parse.c:228-393 | a NULL buffer or record gives −RT_ERROR and leaves the record; otherwise the record is the zeroed-then-filled one and the code is RT_EOK exactly when the decoder accepts |
| NmeaLibParse.LibParseTimeAccepts | bsp/nmea_parse_lib/applications/nmea/nmea_parse.c:195-226 | a NULL buffer gives −RT_ERROR with the time unchanged; otherwise RT_EOK exactly for length 6, or length 8–10 with '.' at index 6 |
| NmeaLibParse.LibGgaDecodes | bsp/nmea_parse_lib/applications/nmea/nmea_parse.c:228-258 | the library GGA decoder is the GGA decoder run with the zeroed time buffer |
| NmeaLibParse.LibGgaLayout | bsp/nmea_parse_lib/applications/nmea/nmea_parse.c:228-258 | a well-formed GGA sentence gives the record of its tokens, RT_EOK exactly when the time token is valid, and −RT_ERROR when the time field is empty |
| NmeaLibParse.GgaCopiesAgree | bsp/simulator_nmea/applications/nmea/nmea_parse.c:178-199 | with a non-empty time field the old time buffer does not matter, so both copies agree |
| NmeaLibParse.GgaStaleTime | bsp/simulator_nmea/applications/nmea/nmea_parse.c:178-199 | with an empty time field and six NUL-free bytes left in the time buffer, the simulator's GGA decoder accepts the sentence with the hour those bytes spell |
| NmeaLibParse.GgaStaleTimeAccepted | bsp/simulator_nmea/applications/nmea/nmea_parse.c:178-199 | for every GGA sentence with an empty time field and any six NUL-free bytes left in the time buffer, the simulator copy accepts it while the library copy returns −RT_ERROR |
| NmeaLibParse.LibRmcLayout | bsp/nmea_parse_lib/applications/nmea/nmea_parse.c:322-360 | a well-formed RMC sentence gives the record of its tokens and date, RT_EOK exactly when the time token is valid, and −RT_ERROR when the time field is empty |
| NmeaLibParse.RmcCopiesAgree | bsp/simulator_nmea/applications/nmea/nmea_parse.c:281-305 | with a non-empty time field the old time buffer does not matter, so both RMC copies agree |
| NmeaLibParse.LibRmcSample | bsp/nmea_parse_lib/applications/nmea/nmea_parse.c:335-357 | the library decoder returns RT_EOK for the sample RMC sentence, with day 18, month 8, year 118, 03:10:24.00 and status 'A' |
| GpsParse.U8 | bsp/stm32l475_nmealib/applications/gps_parse/gps_parse.c:70 | uint8_t truncation: below 256, and the identity on 0…255 |
| GpsParse.I16 | bsp/stm32l475_nmealib/applications/gps_parse/gps_parse.h:54-59 | int16_t truncation: in range, and the identity on values in range |
| GpsParse.StrChr | bsp/stm32l475_nmealib/applications/gps_parse/gps_parse.c:53-54 | strchr finds the first occurrence before the terminating NUL |
| GpsParse.Entries | bsp/stm32l475_nmealib/applications/gps_parse/gps_parse.c:60-69 | the loop stores at most the maximum number of entries |
| GpsParse.Conversion | bsp/stm32l475_nmealib/applications/gps_parse/gps_parse.c:53-70 | at most the maximum number of entries, and a uint8_t count |
| GpsParse.EntriesAreCommas | bsp/stm32l475_nmealib/applications/gps_parse/gps_parse.c:60-69 | the entries are, in order, one per ',' before the end, up to the maximum: the comma itself for an empty field, one past it otherwise |
| GpsParse.ConversionIsCommas | bsp/stm32l475_nmealib/applications/gps_parse/gps_parse.c:53-70 | no ',' or no '*', or '*' more than 200 bytes after the first ',', gives 0 entries and count 0; otherwise one entry per ',' before '*' up to the maximum, and count = entries − 1 as uint8_t |
| GpsParse.StarFirstGives255 | bsp/stm32l475_nmealib/applications/gps_parse/gps_parse.c:70 | a '*' before the first ',' gives no entries and count 255 |
| GpsParse.CountFromCommas | bsp/stm32l475_nmealib/applications/gps_parse/gps_parse.c:60-70 | the number of entries is min(commas before '*', maximum) and the count is that minus one, wrapped |
| GpsParse.DataConversion | bsp/stm32l475_nmealib/applications/gps_parse/gps_parse.c:46-71 | a NULL input or output returns RT_ERROR; otherwise the loop returns the count of Conversion, fills the output array's first slots with its entries and leaves the other slots |
| GpsParse.Letter | bsp/stm32l475_nmealib/applications/gps_parse/gps_parse.c:107-121 | the letter maps to 0 for the first letter, 1 for the second, −1 for any other |
| GpsParse.GgaAcceptance | bsp/stm32l475_nmealib/applications/gps_parse/gps_parse.c:95-126 | parse_gga succeeds exactly with at least 9 commas before the '*'; it reads NULL sections exactly when the '*' comes before the first comma; it never sets the position status; a rejected call leaves the record |
| GpsParse.RmcAcceptance | bsp/stm32l475_nmealib/applications/gps_parse/gps_parse.c:149-164 | parse_rmc succeeds exactly with at least 10 commas before the '*'; it reads NULL sections exactly when the '*' comes before the first comma; a rejected call sets only the position status, to −1 |
| GpsParse.NullRefused | bsp/stm32l475_nmealib/applications/gps_parse/gps_parse.c:91-94 | a NULL input, or no record, is refused and changes nothing |
| GpsParse.ParseGga | bsp/stm32l475_nmealib/applications/gps_parse/gps_parse.c:84-127 | the procedure returns the outcome and record of the GGA specification, including reads of NULL sections as an undefined outcome |
| GpsParse.ParseRmc | bsp/stm32l475_nmealib/applications/gps_parse/gps_parse.c:139-194 | the procedure returns the outcome and record of the RMC specification, including reads of NULL sections as an undefined outcome |
| GpsParse.StarFirstIsUndefined | bsp/stm32l475_nmealib/applications/gps_parse/gps_parse.c:97-102 | for the input "*," both parse_gga and parse_rmc pass the count check with 255 and read a NULL section |
| GpsParse.CheckedAreDefined | bsp/stm32l475_nmealib/applications/gps_parse/gps_parse.c:97-100 | with the count check made on the number of entries, both parsers are always defined, and succeed exactly when the as-written ones do |
| GpsParse.BlankGsv | bsp/stm32l475_nmealib/applications/gps_parse/gps_parse.c:244-246 | the zeroed view has 40 satellite slots |
| GpsParse.Written | bsp/stm32l475_nmealib/applications/gps_parse/gps_parse.c:256 | the number of satellites written stays inside the 40 slots, or is 0 |
| GpsParse.GsvHeaderShape | bsp/stm32l475_nmealib/applications/gps_parse/gps_parse.c:222-243 | an accepted header has at least 8 commas and 8 to 19 entries, count = entries − 1, page 1…255, total below 256, and at most 4 satellites written |
| GpsParse.GsvAcceptance | bsp/stm32l475_nmealib/applications/gps_parse/gps_parse.c:217-295 | parse_gsv succeeds exactly when the header is accepted and page ≤ total; success needs at least 8 commas; fewer, or a NULL input, change nothing |
| GpsParse.GsvWindow | bsp/stm32l475_nmealib/applications/gps_parse/gps_parse.c:243-289 | the slots outside the page's four, starting at (page − 1) × 4 computed in a byte, keep the view from before the call, or the zeroed view for page 1 |
| GpsParse.PageOneForgets | bsp/stm32l475_nmealib/applications/gps_parse/gps_parse.c:244-246 | page 1 gives the same view whatever the view was before |
| GpsParse.LatePageKeepsWrites | bsp/stm32l475_nmealib/applications/gps_parse/gps_parse.c:256-294 | a page above the total is rejected, but only after its satellites are written: the view is the one an accepted page would give |
| GpsParse.PageSlots | bsp/stm32l475_nmealib/applications/gps_parse/gps_parse.c:243 | the byte-wide start index makes page p + 64 write where page p writes; pages 11 to 64 write nothing |
| GpsParse.GsvView.constructor | bsp/stm32l475_nmealib/applications/gps_parse/gps_parse.h:60-63 | a new view is the zeroed one |
| GpsParse.GsvView.Clear | bsp/stm32l475_nmealib/applications/gps_parse/gps_parse.c:245 | memset: the view becomes the zeroed one |
| GpsParse.ReadSat | bsp/stm32l475_nmealib/applications/gps_parse/gps_parse.c:257-276 | the four sections of a satellite give prn, elevation, azimuth and cnr, 0 for a NULL section |
| GpsParse.Place | bsp/stm32l475_nmealib/applications/gps_parse/gps_parse.c:278-283 | writing one satellite at the current index extends the written window by one |
| GpsParse.FillSats | bsp/stm32l475_nmealib/applications/gps_parse/gps_parse.c:256-289 | the loop writes the page's satellites in order from the start index, stopping at slot 40 or when the sections run out, and touches nothing else |
| GpsParse.ParseGsv | bsp/stm32l475_nmealib/applications/gps_parse/gps_parse.c:208-296 | the procedure returns the outcome and leaves the view of the GSV specification |

## Left out

- Floating-point values: `nmea_atof`/`strtod`, `latitude_longitude_conversion`, the knots-to-km/h product and the `atof` fields of `parse_gga`/`parse_rmc`. They are kept abstract as token text, and hemisphere sign folding is an abstract negation.
- GGA and RMC time fields of 256 bytes or more: the `%s` store copies a token and its NUL into the 256-byte `time_buff` (bsp/simulator_nmea/applications/nmea/nmea_parse.c:178 and :281, bsp/simulator_nmea/applications/nmea/nmea_lib.c:127-133) with no bound, so such a token overruns the buffer. The model keeps the whole token and then rejects the sentence in `ParseTime`; the overrun itself (undefined behaviour in C) is not modelled.
- GpsParse.CAtoi: models libc `atoi` as an optional sign and the decimal digits. It does not skip leading white space and does not model `int` overflow.
- `nmea_atoi`'s use of `strtol`: leading white space, a `0x` prefix for radix 16, and `long` to `int` overflow are not modelled. Tokens are taken as an optional sign and digits.
- Heap management. `rt_malloc`/`rt_free`, the `mem_fail` path of the parse loop, the record leaked when a decoder fails, the `end_node` pointer (the queue is a sequence), and a failing `malloc` in `nmea_parser_init` are not modelled, because the model has no allocator to fail.
- Parser.Compact: the overlapping `rt_memcpy` that moves unconsumed bytes to the front is modelled as a forward copy.
- Logging (`nmea_error`, `LOG_E`) and the `NMEA_ASSERT` checks on NULL arguments of the simulator copy are left out. Those calls are assumed to get valid pointers.
- `parse_epe`, the `gps_ospi_parse_nmea` console command and the global record it fills are left out: a `sscanf` wrapper and I/O.
- The test commands in the three `nmealib_test.c` files, `convert_time.c`, the ril virtual device files and `workqueue_test.c` are left out. They are I/O, OS scheduling and date arithmetic on floats. The RMC sample of nmealib_test.c serves as a sample input.
- The header `nmea.h`, used by bsp/simulator/applications/nmealib_test.c, is not part of this model. The simulator's types mirror bsp/nmea_parse_lib/applications/nmea/nmea_parse.h.
- NmeaParser.Parser.Push: the model states the result of the repeated real pushes, but does not prove a closed form for inputs longer than twice the buffer. NmeaParser.PushChunks covers up to two slices.
- NmeaFrame.ChangedPayloadByteIsDetected: it covers replacement bytes other than '*' and '$'. Those two bytes change where the sentence ends.
- RMC with an empty time field in the simulator copy reads the uninitialised buffer in the same way as GGA. The model carries it through the `stale` parameter of `DecodeRmc` and states only RmcCopiesAgree; no separate counterexample is given.

## Findings

| source | as written | input that shows it | evidently intended | confidence | as-written member | corrected member |
|---|---|---|---|---|---|---|
| bsp/simulator_nmea/applications/nmea/nmea_parse.c:178 | the GGA time buffer is not initialised, and an empty time field leaves it untouched, so the time check at :195 reads stale stack bytes | "$GPGGA," followed by an empty time field and 13 well-formed fields, with "031024" left in the buffer: the sentence is accepted with hour 3 | the buffer starts zeroed, as in the library copy at bsp/nmea_parse_lib/applications/nmea/nmea_parse.c:230, so an empty time field rejects the sentence | high (not executed) | NmeaLibParse.GgaStaleTimeAccepted | NmeaLibParse.LibGgaLayout |
| bsp/simulator_nmea/applications/nmea/nmea_parse.c:389-391 | the GSA merge scans `inview` slots of the 12-slot satellite table, and `inview` is a GSV page's declared satellite count (:421), which can exceed 12 | a GSV page "$GPGSV,4,1,13,…" (the sample at bsp/nmea_parse_lib/applications/nmealib_test.c:29) followed by any GSA: slot 12 is read | scan at most the 12 table slots | high (not executed) | NmeaInfo.GsaOverrunsAfterGsv | NmeaInfo.GsaMarksListed |
| bsp/stm32l475_nmealib/applications/gps_parse/gps_parse.c:70 | `data_conversion` returns `count - 1` as `uint8_t`, which is 255 when no entry was stored, and `parse_gga`/`parse_rmc` (:97, :151) accept that count and dereference NULL sections | "*," | a call that stored no entry is rejected | high (not executed) | GpsParse.StarFirstIsUndefined | GpsParse.CheckedAreDefined |
| bsp/simulator_nmea/applications/nmea/nmea_parse.c:62-73 | `_nmea_parse_time` stores the digit pairs and all the digits after '.' without a range check, so the time record leaves the ranges documented at bsp/nmea_parse_lib/applications/nmea/nmea_parse.h:40-46 | "031024.500" gives hundredths 500; "995959" gives hour 99 | hour 0–23, minute and second 0–59, and the fraction read as hundredths | high (not executed) | NmeaClock.ParseTimeLeavesRange | NmeaClock.ParseClock |
| bsp/simulator_nmea/applications/nmea/nmea_parse.c:287-309 | the RMC date pairs are stored and the month shifted without a range check | the date field "001318" gives day 0 and month 12 | day 1–31 and month 0–11, as documented at bsp/nmea_parse_lib/applications/nmea/nmea_parse.h:41-42 | high (not executed) | NmeaClock.RmcDateOutOfRange | NmeaClock.CheckedDate |
