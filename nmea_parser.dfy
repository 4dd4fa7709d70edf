// The stream parser of bsp/simulator_nmea/applications/nmea/nmea_parse.c:
// a fixed-capacity byte buffer that bytes are appended to, the framer /
// classifier / decoder loop that turns complete sentences into records,
// the FIFO queue of records, and nmea_parse, which drains the queue into
// the summary.

module NmeaParser {
  import opened NmeaTypes
  import opened NmeaScan
  import opened NmeaFrame
  import opened NmeaDecode
  import opened NmeaSentences
  import opened NmeaRmc
  import opened NmeaInfo

  // ---------------------------------------------------------------------
  // The parse loop as functions on the buffered bytes
  // ---------------------------------------------------------------------

  /** The five sentence decoders the parse loop dispatches to. */
  datatype Decoders = Decoders(
    gga: seq<Byte> -> Decoded<GgaPack>, gsa: seq<Byte> -> Decoded<GsaPack>, gsv: seq<Byte> -> Decoded<GsvPack>,
    rmc: seq<Byte> -> Decoded<RmcPack>, vtg: seq<Byte> -> Decoded<VtgPack>)

  /** The decoders of this file; GGA and RMC start from an empty time
      buffer. */
  const SimDecoders := Decoders(b => DecodeGga(b, []), DecodeGsa, DecodeGsv, b => DecodeRmc(b, []), DecodeVtg)

  /** The switch on the sentence kind in the parse loop: the kind's
      decoder is run on the span, and a record of that kind is queued only
      when it accepts. */
  function Decode(dec: Decoders, t: PackType, span: seq<Byte>): (r: Option<Packet>)
    ensures r.Some? ==> KindOf(r.value) == t
    ensures t == GPNON ==> r.None?
  {
    match t
    case GPNON => None
    case GPGGA => var d := dec.gga(span); if d.ok then Some(Gga(d.pack)) else None
    case GPGSA => var d := dec.gsa(span); if d.ok then Some(Gsa(d.pack)) else None
    case GPGSV => var d := dec.gsv(span); if d.ok then Some(Gsv(d.pack)) else None
    case GPRMC => var d := dec.rmc(span); if d.ok then Some(Rmc(d.pack)) else None
    case GPVTG => var d := dec.vtg(span); if d.ok then Some(Vtg(d.pack)) else None
  }

  /** The record the parse loop queues for a framed span of `len` bytes at
      the front of `rest`: the kind is read from the bytes after the
      leading `$` (up to the end of the buffer), the decoder sees the span
      only. */
  function Record(rest: seq<Byte>, len: nat): (r: Option<Packet>)
  {
    if len < 1 || |rest| < len then None
    else Decode(SimDecoders, PackTypeOf(rest[1..]), rest[..len])
  }

  /** How far the parse loop gets through `buf` and the records it queues. */
  datatype Consumed = Consumed(used: nat, packets: seq<Packet>)

  /** The list holding the record, if any. */
  function Queued(r: Option<Packet>): seq<Packet>
  {
    if r.Some? then [r.value] else []
  }

  /** The parse loop over the bytes `buf`, for a framer `frame` and a
      record builder `record`: take the framer's span, queue its record
      when the checksum is good and the builder gives one, and go on after
      the span until the framer finds none (a framer never reports more
      bytes than it was given). */
  function Drive(frame: seq<Byte> -> Frame, record: (seq<Byte>, nat) -> Option<Packet>, buf: seq<Byte>): (c: Consumed)
    ensures c.used <= |buf|
    decreases |buf|
  {
    var f := frame(buf);
    if f.len == 0 || |buf| < f.len then Consumed(0, [])
    else
      var rest := Drive(frame, record, buf[f.len..]);
      Consumed(f.len + rest.used, Queued(if f.crc >= 0 then record(buf, f.len) else None) + rest.packets)
  }

  /** The parse loop of nmea_parser_real_push: nmea_find_tail frames,
      nmea_pack_type and the decoders build the records. */
  function Sentences(buf: seq<Byte>): Consumed
  {
    Drive(Tail, Record, buf)
  }

  /** The bytes the parse loop leaves behind never hold a span the framer
      would take. */
  lemma {:induction false} DriveLeavesNoSpan(frame: seq<Byte> -> Frame, record: (seq<Byte>, nat) -> Option<Packet>,
                                             buf: seq<Byte>)
    ensures var rest := buf[Drive(frame, record, buf).used..];
      frame(rest).len == 0 || |rest| < frame(rest).len
    decreases |buf|
  {
    var f := frame(buf);
    if f.len == 0 || |buf| < f.len {
      assert buf[0..] == buf;
    } else {
      DriveLeavesNoSpan(frame, record, buf[f.len..]);
      assert buf[f.len..][Drive(frame, record, buf[f.len..]).used..] == buf[Drive(frame, record, buf).used..];
    }
  }

  /** What real_push leaves in the buffer is never a complete sentence. */
  lemma LeftoverIsIncomplete(buf: seq<Byte>)
    ensures Tail(buf[Sentences(buf).used..]).len == 0
  {
    DriveLeavesNoSpan(Tail, Record, buf);
  }

  /** With a framer whose good spans are at least five bytes, every queued
      record took at least five bytes. */
  lemma {:induction false} DrivePacketsNeedBytes(frame: seq<Byte> -> Frame, record: (seq<Byte>, nat) -> Option<Packet>,
                                                 buf: seq<Byte>)
    requires forall b :: frame(b).crc >= 0 ==> frame(b).len >= 5
    ensures 5 * |Drive(frame, record, buf).packets| <= Drive(frame, record, buf).used
    decreases |buf|
  {
    var f := frame(buf);
    if f.len > 0 && f.len <= |buf| {
      DrivePacketsNeedBytes(frame, record, buf[f.len..]);
    }
  }

  /** Every queued record took at least five bytes (`*hh` and CR LF), so a
      buffer of n bytes yields at most n / 5 records. */
  lemma PacketsNeedBytes(buf: seq<Byte>)
    ensures 5 * |Sentences(buf).packets| <= Sentences(buf).used
  {
    DrivePacketsNeedBytes(Tail, Record, buf);
  }

  /** One round of the parse loop: a span the framer takes is consumed and
      its record, if any, comes first. */
  lemma DriveStep(frame: seq<Byte> -> Frame, record: (seq<Byte>, nat) -> Option<Packet>, buf: seq<Byte>)
    requires 0 < frame(buf).len <= |buf|
    ensures var f := frame(buf); var later := Drive(frame, record, buf[f.len..]);
      Drive(frame, record, buf).used == f.len + later.used &&
      Drive(frame, record, buf).packets == Queued(if f.crc >= 0 then record(buf, f.len) else None) + later.packets
  {
  }

  /** The parse loop has consumed the first `k` bytes of `all` and queued
      `done` for them: what is left to do is the loop over the rest. */
  ghost predicate Resumes(frame: seq<Byte> -> Frame, record: (seq<Byte>, nat) -> Option<Packet>,
                          all: seq<Byte>, k: nat, done: seq<Packet>)
  {
    k <= |all| &&
    Drive(frame, record, all) ==
      Consumed(k + Drive(frame, record, all[k..]).used, done + Drive(frame, record, all[k..]).packets)
  }

  /** Before the first sentence, the rest is everything. */
  lemma ResumeStart(frame: seq<Byte> -> Frame, record: (seq<Byte>, nat) -> Option<Packet>, all: seq<Byte>)
    ensures Resumes(frame, record, all, 0, [])
  {
    assert all[0..] == all;
  }

  /** Once the framer finds no span in the rest, the loop's result is what
      has been consumed and queued so far. */
  lemma ResumeEnd(frame: seq<Byte> -> Frame, record: (seq<Byte>, nat) -> Option<Packet>, all: seq<Byte>,
                  k: nat, done: seq<Packet>)
    requires Resumes(frame, record, all, k, done) && frame(all[k..]).len == 0
    ensures Drive(frame, record, all) == Consumed(k, done)
  {
    assert Drive(frame, record, all[k..]) == Consumed(0, []);
  }

  /** One more span of `n` bytes at `k`: the loop resumes at `k + n`, with
      the span's record, if any, queued after `done`. */
  lemma Resume(frame: seq<Byte> -> Frame, record: (seq<Byte>, nat) -> Option<Packet>, all: seq<Byte>,
               k: nat, n: nat, crc: int, done: seq<Packet>, k': nat, done': seq<Packet>)
    requires Resumes(frame, record, all, k, done) && frame(all[k..]) == Frame(n, crc) && 0 < n <= |all| - k
    requires k' == k + n && done' == done + Queued(if crc >= 0 then record(all[k..], n) else None)
    ensures Resumes(frame, record, all, k', done')
  {
    DriveStep(frame, record, all[k..]);
    assert all[k..][n..] == all[k'..];
    var here := Queued(if crc >= 0 then record(all[k..], n) else None);
    ConcatAssoc(done, here, Drive(frame, record, all[k'..]).packets);
  }

  /** The buffer after the append: a chunk that would fill the buffer
      clears it first, so the held bytes are lost and the buffer holds
      the chunk alone; a chunk that fits the buffer keeps it within its
      size. */
  function Received(held: seq<Byte>, size: nat, data: seq<Byte>): (r: seq<Byte>)
    ensures |data| <= size ==> |r| <= size
    ensures |r| >= |data| && r[|r| - |data|..] == data
    ensures |held| + |data| < size ==> |r| == |held| + |data| && r[..|held|] == held
    ensures |held| + |data| >= size ==> r == data
  {
    if |held| + |data| >= size then data else held + data
  }

  /** One real_push: the bytes kept, the records queued and the count of
      bytes consumed. */
  datatype Stepped = Stepped(held: seq<Byte>, packets: seq<Packet>, used: nat)

  /** nmea_parser_real_push on the buffered bytes `held`. What stays held
      is never a complete sentence, and what was consumed and what stays
      make up the buffer after the append. */
  function Step(held: seq<Byte>, size: nat, data: seq<Byte>): (r: Stepped)
    ensures |data| <= size ==> |r.held| <= size
    ensures Tail(r.held).len == 0
    ensures r.used + |r.held| == |Received(held, size, data)|
    ensures r.held == Received(held, size, data)[r.used..]
  {
    var all := Received(held, size, data);
    var c := Sentences(all);
    LeftoverIsIncomplete(all);
    Stepped(all[c.used..], c.packets, c.used)
  }

  /** real_push on a buffer of `size` bytes, as a value. */
  function StepBy(size: nat): (seq<Byte>, seq<Byte>) -> Stepped
  {
    (held, data) => Step(held, size, data)
  }

  /** nmea_parser_push as written, over the real_push `step`: `buff` is
      never advanced, so every chunk handed to real_push is the first
      min(left, size) bytes of the input; `left` counts down by the chunk
      size, and a call with no bytes still makes one real_push. */
  function Pushes(step: (seq<Byte>, seq<Byte>) -> Stepped, held: seq<Byte>, size: nat, data: seq<Byte>, left: nat)
    : (r: Stepped)
    requires 0 < size && left <= |data|
    decreases left
  {
    var m := if left > size then size else left;
    var st := step(held, data[..m]);
    if left == m then st
    else
      var rest := Pushes(step, st.held, size, data, left - m);
      Stepped(rest.held, st.packets + rest.packets, st.used + rest.used)
  }

  /** The push loop has `left` bytes of its count to go from the buffered
      bytes `held`, and has so far queued `done` and consumed `used`:
      finishing the remaining pushes gives the whole push `whole`. */
  ghost predicate PushResumes(step: (seq<Byte>, seq<Byte>) -> Stepped, size: nat, data: seq<Byte>, whole: Stepped,
                              held: seq<Byte>, left: nat, done: seq<Packet>, used: int)
  {
    0 < size && left <= |data| &&
    var rest := Pushes(step, held, size, data, left);
    whole.held == rest.held && whole.packets == done + rest.packets && whole.used == used + rest.used
  }

  /** Before the first chunk, the rest is the whole push. */
  lemma PushStart(step: (seq<Byte>, seq<Byte>) -> Stepped, size: nat, data: seq<Byte>, held: seq<Byte>)
    requires 0 < size
    ensures PushResumes(step, size, data, Pushes(step, held, size, data, |data|), held, |data|, [], 0)
  {
  }

  /** A chunk that is not the last leaves the push resumable after it. */
  lemma PushResume(step: (seq<Byte>, seq<Byte>) -> Stepped, size: nat, data: seq<Byte>, whole: Stepped,
                   held: seq<Byte>, left: nat, done: seq<Packet>, used: int,
                   held': seq<Byte>, left': nat, done': seq<Packet>, used': int)
    requires PushResumes(step, size, data, whole, held, left, done, used) && size < left
    requires var st := step(held, data[..size]);
      held' == st.held && left' == left - size && done' == done + st.packets && used' == used + st.used
    ensures PushResumes(step, size, data, whole, held', left', done', used')
  {
    var st := step(held, data[..size]);
    ConcatAssoc(done, st.packets, Pushes(step, held', size, data, left').packets);
  }

  /** The last chunk (at most `size` bytes) completes the push. */
  lemma PushEnd(step: (seq<Byte>, seq<Byte>) -> Stepped, size: nat, data: seq<Byte>, whole: Stepped,
                held: seq<Byte>, left: nat, done: seq<Packet>, used: int)
    requires PushResumes(step, size, data, whole, held, left, done, used) && left <= size
    ensures var st := step(held, data[..left]);
      whole == Stepped(st.held, done + st.packets, used + st.used)
  {
  }

  /** Only the first min(left, size) bytes of the input ever reach the
      buffer: two inputs that agree there push the same way. */
  lemma {:induction false} PushSeesOnlyPrefix(step: (seq<Byte>, seq<Byte>) -> Stepped, held: seq<Byte>, size: nat,
                                               a: seq<Byte>, b: seq<Byte>, left: nat)
    requires 0 < size && left <= |a| && left <= |b|
    requires var m := if left > size then size else left; a[..m] == b[..m]
    ensures Pushes(step, held, size, a, left) == Pushes(step, held, size, b, left)
    decreases left
  {
    var m := if left > size then size else left;
    var sa := step(held, a[..m]);
    if left != m {
      var m' := if left - m > size then size else left - m;
      assert a[..m'] == b[..m'] by {
        assert a[..m'] == a[..m][..m'];
        assert b[..m'] == b[..m][..m'];
      }
      PushSeesOnlyPrefix(step, sa.held, size, a, b, left - m);
    }
  }

  /** An input that fits the buffer is one real_push. One of up to twice
      the buffer size is two, and the second gets the input's first bytes
      again rather than the bytes after the first chunk. */
  lemma PushChunks(step: (seq<Byte>, seq<Byte>) -> Stepped, held: seq<Byte>, size: nat, data: seq<Byte>)
    requires 0 < size
    ensures |data| <= size ==> Pushes(step, held, size, data, |data|) == step(held, data)
    ensures size < |data| <= 2 * size ==>
      var first := step(held, data[..size]);
      var second := step(first.held, data[..|data| - size]);
      Pushes(step, held, size, data, |data|) ==
        Stepped(second.held, first.packets + second.packets, first.used + second.used)
  {
    assert data[..|data|] == data;
  }

  // ---------------------------------------------------------------------
  // The parser object
  // ---------------------------------------------------------------------

  /** nmeaPARSER: the byte buffer with its size and fill level, and the
      queue of decoded records from top_node to end_node. */
  class Parser {
    var buffer: array?<Byte>
    var buffSize: int
    var buffUse: int
    var queue: seq<Packet>

    predicate Valid()
      reads this
    {
      buffer != null && buffSize == buffer.Length && MIN_PARSEBUFF <= buffSize && 0 <= buffUse <= buffSize
    }

    /** The bytes waiting in the buffer. */
    function Held(): seq<Byte>
      requires Valid()
      reads this, buffer
    {
      buffer[..buffUse]
    }

    /** nmea_parser_init: an empty parser with a buffer of the default size
        (raised to the minimum if it were smaller). */
    constructor Init()
      ensures Valid() && fresh(buffer) && buffSize == DEF_PARSEBUFF && buffUse == 0 && queue == []
    {
      var size := DEF_PARSEBUFF;
      if size < MIN_PARSEBUFF {
        size := MIN_PARSEBUFF;
      }
      buffer := new Byte[size](_ => NUL);
      buffSize := size;
      buffUse := 0;
      queue := [];
    }

    /** nmea_parser_destroy: the queue is emptied and the object zeroed. */
    method Destroy()
      requires Valid()
      modifies this
      ensures buffer == null && buffSize == 0 && buffUse == 0 && queue == []
    {
      var _ := QueueClear();
      buffer := null;
      buffSize := 0;
      buffUse := 0;
    }

    /** nmea_parser_buff_clear. */
    method BuffClear() returns (r: int)
      requires Valid()
      modifies this
      ensures Valid() && Held() == [] && r == 1
      ensures buffer == old(buffer) && buffSize == old(buffSize) && queue == old(queue)
    {
      buffUse := 0;
      r := 1;
    }

    /** The rt_memcpy of the new bytes behind the held ones. */
    method Append(data: seq<Byte>)
      requires Valid() && buffUse + |data| <= buffSize
      modifies this, buffer
      ensures Valid() && Held() == old(Held()) + data
      ensures buffer == old(buffer) && buffSize == old(buffSize) && queue == old(queue)
    {
      ghost var all := Held() + data;
      var k := 0;
      while k < |data|
        modifies buffer
        invariant 0 <= k <= |data|
        invariant forall i :: 0 <= i < buffUse + k ==> buffer[i] == all[i]
      {
        buffer[buffUse + k] := data[k];
        k := k + 1;
      }
      buffUse := buffUse + |data|;
      assert Held() == all;
    }

    /** The rt_memcpy that moves the unconsumed bytes to the front, one byte
        at a time from the front, so no byte is overwritten before it is
        copied. */
    method Compact(from: int)
      requires Valid() && 0 <= from <= buffUse
      modifies this, buffer
      ensures Valid() && Held() == old(Held()[from..])
      ensures buffer == old(buffer) && buffSize == old(buffSize) && queue == old(queue)
    {
      ghost var all := Held();
      var left := buffUse - from;
      var j := 0;
      while j < left
        modifies buffer
        invariant 0 <= j <= left
        invariant forall i :: 0 <= i < j ==> buffer[i] == all[from + i]
        invariant forall i :: from + j <= i < buffUse ==> buffer[i] == all[i]
      {
        buffer[j] := buffer[from + j];
        j := j + 1;
      }
      buffUse := left;
      assert Held() == all[from..];
    }

    /** nmea_parser_real_push: append (clearing the buffer first when the
        chunk would fill it), then run the parse loop. */
    method RealPush(data: seq<Byte>) returns (nparsed: int)
      requires Valid() && |data| <= buffSize
      modifies this, buffer
      ensures Valid() && buffer == old(buffer) && buffSize == old(buffSize)
      ensures var st := Step(old(Held()), buffSize, data);
        nparsed == st.used && Held() == st.held && queue == old(queue) + st.packets
    {
      ghost var h0 := Held();
      if buffUse + |data| >= buffSize {
        var _ := BuffClear();
        Append(data);
        assert Held() == data;
      } else {
        Append(data);
      }
      ghost var all := Held();
      assert all == Received(h0, buffSize, data);
      nparsed := ParseHeld();
      assert Sentences(all).used == nparsed;
    }

    /** The parse loop of nmea_parser_real_push: queue the records of every
        complete sentence in input order, move the rest to the front, and
        report how many bytes were consumed. */
    method ParseHeld() returns (nparsed: int)
      requires Valid()
      modifies this, buffer
      ensures Valid() && buffer == old(buffer) && buffSize == old(buffSize)
      ensures var c := Sentences(old(Held()));
        nparsed == c.used && Held() == old(Held())[c.used..] && queue == old(queue) + c.packets
    {
      var view := buffer[..buffUse];
      nparsed := ParseView(view);
      if nparsed != 0 {
        Compact(nparsed);
      } else {
        assert view[0..] == view;
      }
    }

    /** The loop itself, over the held bytes `view`: find the end of the
        next sentence, queue its record when the checksum allows, and stop
        at the first incomplete sentence. */
    method ParseView(view: seq<Byte>) returns (nparsed: nat)
      modifies this
      ensures buffer == old(buffer) && buffSize == old(buffSize) && buffUse == old(buffUse)
      ensures var c := Sentences(view);
        nparsed == c.used && queue == old(queue) + c.packets
    {
      ghost var done: seq<Packet> := [];
      nparsed := 0;
      ResumeStart(Tail, Record, view);
      while true
        invariant buffer == old(buffer) && buffSize == old(buffSize) && buffUse == old(buffUse)
        invariant queue == old(queue) + done && Resumes(Tail, Record, view, nparsed, done)
        decreases |view| - nparsed
      {
        var n, crc := FindTail(view[nparsed..]);
        if n == 0 {
          ResumeEnd(Tail, Record, view, nparsed, done);
          return;
        }
        var r := if crc >= 0 then Record(view[nparsed..], n) else None;
        Enqueue(r);
        ConcatAssoc(old(queue), done, Queued(r));
        ghost var k, d := nparsed, done;
        done := done + Queued(r);
        nparsed := nparsed + n;
        Resume(Tail, Record, view, k, n, crc, d, nparsed, done);
      }
    }

    /** The node append at the tail of the queue (nothing when the decoder
        failed). */
    method Enqueue(r: Option<Packet>)
      modifies this
      ensures queue == old(queue) + Queued(r)
      ensures buffer == old(buffer) && buffSize == old(buffSize) && buffUse == old(buffUse)
    {
      if r.Some? {
        queue := queue + [r.value];
      }
    }

    /** nmea_parser_push: real_push on chunks of at most the buffer size,
        as `Pushes` describes (the input pointer is never advanced). */
    method Push(data: seq<Byte>) returns (nparsed: int)
      requires Valid()
      modifies this, buffer
      ensures Valid() && buffer == old(buffer) && buffSize == old(buffSize)
      ensures var st := Pushes(StepBy(buffSize), old(Held()), buffSize, data, |data|);
        nparsed == st.used && Held() == st.held && queue == old(queue) + st.packets
    {
      ghost var whole := Pushes(StepBy(buffSize), Held(), buffSize, data, |data|);
      ghost var done: seq<Packet> := [];
      var left: nat := |data|;
      nparsed := 0;
      PushStart(StepBy(buffSize), buffSize, data, Held());
      while true
        invariant Valid() && buffer == old(buffer) && buffSize == old(buffSize)
        invariant left <= |data| && queue == old(queue) + done
        invariant PushResumes(StepBy(buffSize), buffSize, data, whole, Held(), left, done, nparsed)
        decreases left
      {
        var nparse := if left > buffSize then buffSize else left;
        ghost var h, d, u, l := Held(), done, nparsed, left;
        ghost var st := Step(h, buffSize, data[..nparse]);
        assert StepBy(buffSize)(h, data[..nparse]) == st;
        var used := RealPush(data[..nparse]);
        ConcatAssoc(old(queue), d, st.packets);
        done := done + st.packets;
        nparsed := nparsed + used;
        left := left - nparse;
        if left == 0 {
          PushEnd(StepBy(buffSize), buffSize, data, whole, h, l, d, u);
          return;
        }
        PushResume(StepBy(buffSize), buffSize, data, whole, h, l, d, u, Held(), left, done, nparsed);
      }
    }

    /** nmea_parser_top: the kind of the record at the head, GPNON when the
        queue is empty. */
    method Top() returns (t: PackType)
      requires Valid()
      ensures t == GPNON <==> queue == []
      ensures queue != [] ==> t == KindOf(queue[0])
    {
      t := GPNON;
      if queue != [] {
        t := KindOf(queue[0]);
      }
    }

    /** nmea_parser_pop: hand out the head record and remove it; nothing is
        handed out (`None`) when the queue is empty. */
    method Pop() returns (t: PackType, pack: Option<Packet>)
      requires Valid()
      modifies this
      ensures Valid() && buffer == old(buffer) && buffSize == old(buffSize) && buffUse == old(buffUse)
      ensures old(queue) == [] ==> t == GPNON && pack == None && queue == []
      ensures old(queue) != [] ==>
        t == KindOf(old(queue)[0]) && pack == Some(old(queue)[0]) && queue == old(queue)[1..]
    {
      t, pack := GPNON, None;
      if queue != [] {
        pack := Some(queue[0]);
        t := KindOf(queue[0]);
        queue := queue[1..];
      }
    }

    /** nmea_parser_peek: the head record without removing it. */
    method Peek() returns (t: PackType, pack: Option<Packet>)
      requires Valid()
      ensures t == GPNON <==> queue == []
      ensures pack.Some? <==> queue != []
      ensures queue != [] ==> t == KindOf(queue[0]) && pack.value == queue[0]
    {
      t, pack := GPNON, None;
      if queue != [] {
        pack := Some(queue[0]);
        t := KindOf(queue[0]);
      }
    }

    /** nmea_parser_drop: remove the head record. */
    method Drop() returns (t: PackType)
      requires Valid()
      modifies this
      ensures Valid() && buffer == old(buffer) && buffSize == old(buffSize) && buffUse == old(buffUse)
      ensures old(queue) == [] ==> t == GPNON && queue == []
      ensures old(queue) != [] ==> t == KindOf(old(queue)[0]) && queue == old(queue)[1..]
    {
      t := GPNON;
      if queue != [] {
        t := KindOf(queue[0]);
        queue := queue[1..];
      }
    }

    /** nmea_parser_queue_clear: drop until the queue is empty. */
    method QueueClear() returns (r: int)
      requires Valid()
      modifies this
      ensures Valid() && buffer == old(buffer) && buffSize == old(buffSize) && buffUse == old(buffUse)
      ensures queue == [] && r == 1
    {
      while queue != []
        invariant Valid() && buffer == old(buffer) && buffSize == old(buffSize) && buffUse == old(buffUse)
        decreases |queue|
      {
        var _ := Drop();
      }
      r := 1;
    }

    /** nmea_parse: push the bytes, then pop every queued record (those
        queued before as well) and merge it into the summary in queue
        order; the result is the number of records merged. */
    method Parse(data: seq<Byte>, info: Info) returns (nread: int)
      requires Valid() && info.Valid()
      modifies this, buffer, info, info.sat
      ensures Valid() && buffer == old(buffer) && buffSize == old(buffSize) && info.Valid()
      ensures var st := Pushes(StepBy(buffSize), old(Held()), buffSize, data, |data|);
        var ps := old(queue) + st.packets;
        nread == |ps| && queue == [] && Held() == st.held &&
        info.State() == MergeAll(old(info.State()), ps)
    {
      var _ := Push(data);
      ghost var ps := queue;
      ghost var s0 := info.State();
      ghost var held := Held();
      nread := 0;
      while true
        invariant Valid() && info.Valid() && buffer == old(buffer) && buffSize == old(buffSize)
        invariant Held() == held
        invariant 0 <= nread <= |ps| && queue == ps[nread..]
        invariant WellFormed(info.State()) && MergeAll(s0, ps) == MergeAll(info.State(), queue)
        decreases |queue|
      {
        var t, pack := Pop();
        if t == GPNON {
          return;
        }
        nread := nread + 1;
        info.MergePacket(pack.value);
      }
    }
  }
}
