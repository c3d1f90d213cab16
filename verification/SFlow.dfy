/**
 sFlow version 5: samples of single packets in XDR framing. Every length comes
 off the wire, so the reader never leaves its buffer, a broken sample is dropped
 by itself, and counters are the sampled frame times the sampling rate.
 */
module SFlow {
  import opened Common
  import opened Wrap
  import opened Bytes
  import FlowRecords

  const VERSION: uint32 := 5
  const MAX_SAMPLES: nat := 512
  const MAX_RECORDS: nat := 64
  const MAX_AS_PATH: nat := 256
  const IF_UNKNOWN: uint32 := 0x3FFF_FFFF

  // ---------------------------------------------------------------- the reader

  /** What is left to read, and whether a read has already failed. */
  datatype Reader = Reader(rest: bytes, bad: bool)

  datatype Got<T> = Got(val: T, next: Reader)

  /** Reads give zero once anything failed, and never read past the end. */
  function Word(r: Reader): (g: Got<uint32>)
    ensures r.bad ==> g == Got(0, r)
    ensures |g.next.rest| <= |r.rest|
  {
    if r.bad || |r.rest| < 4 then Got(0, r.(bad := true)) else Got(U32(r.rest, 0), Reader(r.rest[4..], false))
  }

  function Padding(n: nat): nat {
    (4 - n % 4) % 4
  }

  /** The next bytes and their padding; padding missing at the very end is forgiven. */
  function Take(r: Reader, n: nat): (g: Got<bytes>)
    ensures r.bad ==> g == Got([], r)
    ensures |g.next.rest| <= |r.rest|
  {
    if r.bad || n > |r.rest| then Got([], r.(bad := true))
    else if n + Padding(n) > |r.rest| then Got(r.rest[..n], Reader([], false))
    else Got(r.rest[..n], Reader(r.rest[n + Padding(n)..], false))
  }

  function Skip(r: Reader, n: nat): (next: Reader)
    ensures r.bad ==> next == r
    ensures |next.rest| <= |r.rest|
  {
    if r.bad || n > |r.rest| then r.(bad := true) else Reader(r.rest[n..], false)
  }

  /** No address, or an unspecified one, is the empty address. */
  function AddrOrZero(b: bytes): Addr {
    if forall i :: 0 <= i < |b| ==> b[i] == 0 then [] else FlowRecords.Unmap(b)
  }

  /** A type word, then as many bytes as the type has; an unknown type ends it all. */
  function Address(r: Reader): (g: Got<Addr>)
    ensures r.bad ==> g.next == r
    ensures |g.next.rest| <= |r.rest|
  {
    var kind := Word(r);
    match kind.val
    case 1 => var b := Take(kind.next, 4); Got(AddrOrZero(b.val), b.next)
    case 2 => var b := Take(kind.next, 16); Got(AddrOrZero(b.val), b.next)
    case 0 => Got([], kind.next)
    case _ => Got([], kind.next.(bad := true))
  }

  /** So many words, whether or not they are all there. */
  function Words(r: Reader, n: nat): (g: Got<seq<uint32>>)
    ensures |g.val| == n
    ensures r.bad ==> g.next == r
    decreases n
  {
    if n == 0 then Got([], r)
    else
      var w := Word(r);
      var more := Words(w.next, n - 1);
      Got([w.val] + more.val, more.next)
  }

  // ------------------------------------------------------------ flow records

  datatype Fields = Fields(
    inputIf: uint32, outputIf: uint32, srcMac: nat, dstMac: nat, srcVlan: nat, dstVlan: nat,
    src: Addr, dst: Addr, protocol: nat, srcPort: nat, dstPort: nat, tcpFlags: nat, tos: nat,
    nextHop: Addr, srcMask: nat, dstMask: nat, bgpNextHop: Addr, srcAs: uint32, dstAs: uint32
  )

  const BLANK := Fields(0, 0, 0, 0, 0, 0, [], [], 0, 0, 0, 0, 0, [], 0, 0, [], 0, 0)

  /** Reads the sampled packet's own headers, by header protocol. */
  type HeaderParser = (uint32, bytes, Fields) -> Fields

  datatype State = State(fields: Fields, frameLen: uint32, haveHeader: bool)

  function RawHeader(h: HeaderParser, rec: bytes, s: State): State {
    var proto := Word(Reader(rec, false));
    var frameLen := Word(proto.next);
    var size := Word(Skip(frameLen.next, 4));
    var header := Take(size.next, size.val);
    if header.next.bad then s else State(h(proto.val, header.val, s.fields), frameLen.val, true)
  }

  function EthernetFrame(rec: bytes, s: State): (s': State)
    ensures (s'.frameLen, s'.haveHeader) == (s.frameLen, s.haveHeader)
  {
    var src := Take(Skip(Reader(rec, false), 4), 6);
    var dst := Take(src.next, 6);
    if dst.next.bad then s
    else
      s.(fields := s.fields.(
        srcMac := if s.fields.srcMac == 0 then Value(src.val) else s.fields.srcMac,
        dstMac := if s.fields.dstMac == 0 then Value(dst.val) else s.fields.dstMac))
  }

  /** A fallback: its fields count only without a header, its length likewise. */
  function IpData(rec: bytes, width: nat, s: State): State {
    var head := Words(Reader(rec, false), 2);
    var src := Take(head.next, width);
    var dst := Take(src.next, width);
    var tail := Words(dst.next, 4);
    if tail.next.bad then s
    else
      var fields :=
        if s.haveHeader || s.fields.src != [] then s.fields
        else
          s.fields.(
            protocol := FlowRecords.Narrow(head.val[1], 0xFF), src := AddrOrZero(src.val), dst := AddrOrZero(dst.val),
            srcPort := FlowRecords.Narrow(tail.val[0], 0xFFFF), dstPort := FlowRecords.Narrow(tail.val[1], 0xFFFF),
            tcpFlags := FlowRecords.Narrow(tail.val[2], 0xFF), tos := FlowRecords.Narrow(tail.val[3], 0xFF));
      State(fields, if s.haveHeader then s.frameLen else head.val[0], s.haveHeader)
  }

  function Vlan(word: uint32, was: nat): nat {
    var v := FlowRecords.Narrow(word, 0xFFFF) % 0x1000;
    if v != 0 then v else was
  }

  function ExtSwitch(rec: bytes, s: State): (s': State)
    ensures (s'.frameLen, s'.haveHeader) == (s.frameLen, s.haveHeader)
  {
    var src := Word(Reader(rec, false));
    var dst := Word(Skip(src.next, 4));
    if dst.next.bad then s
    else s.(fields := s.fields.(srcVlan := Vlan(src.val, s.fields.srcVlan), dstVlan := Vlan(dst.val, s.fields.dstVlan)))
  }

  function ExtRouter(rec: bytes, s: State): (s': State)
    ensures (s'.frameLen, s'.haveHeader) == (s.frameLen, s.haveHeader)
  {
    var hop := Address(Reader(rec, false));
    var srcMask := Word(hop.next);
    var dstMask := Word(srcMask.next);
    if dstMask.next.bad then s
    else
      s.(fields := s.fields.(nextHop := hop.val, srcMask := FlowRecords.Narrow(srcMask.val, 0xFF),
                             dstMask := FlowRecords.Narrow(dstMask.val, 0xFF)))
  }

  /** The AS path, segment after segment; no more than MAX_AS_PATH entries are ever read. */
  function Path(r: Reader, segments: nat, path: seq<uint32>): (p: Option<seq<uint32>>)
    requires |path| <= MAX_AS_PATH
    ensures p.Some? ==> |p.value| <= MAX_AS_PATH && path <= p.value
    decreases segments
  {
    if segments == 0 then if r.bad then None else Some(path)
    else
      var count := Word(Skip(r, 4));
      if count.next.bad || count.val > MAX_AS_PATH - |path| then None
      else
        var more := Words(count.next, count.val);
        Path(more.next, segments - 1, path + more.val)
  }

  function LastOr(path: seq<uint32>, default: uint32): uint32 {
    if path == [] then default else path[|path| - 1]
  }

  function ExtGateway(rec: bytes, s: State): (s': State)
    ensures (s'.frameLen, s'.haveHeader) == (s.frameLen, s.haveHeader)
  {
    var hop := Address(Reader(rec, false));
    var own := Word(hop.next);
    var src := Word(own.next);
    var segments := Word(Skip(src.next, 4));
    if segments.next.bad || segments.val > MAX_AS_PATH then s
    else
      var path := Path(segments.next, segments.val, []);
      if path.None? then s
      else
        s.(fields := s.fields.(bgpNextHop := hop.val, srcAs := src.val,
                               dstAs := if segments.val == 0 then own.val else LastOr(path.value, 0)))
  }

  function ApplyRecord(h: HeaderParser, format: uint32, rec: bytes, s: State): State {
    match format
    case 1 => RawHeader(h, rec, s)
    case 2 => EthernetFrame(rec, s)
    case 3 => IpData(rec, 4, s)
    case 4 => IpData(rec, 16, s)
    case 1001 => ExtSwitch(rec, s)
    case 1002 => ExtRouter(rec, s)
    case 1003 => ExtGateway(rec, s)
    case _ => s
  }

  /** Samples and records are framed alike: a format word, then opaque data. */
  datatype Frame = Frame(format: uint32, body: bytes)

  function NextFrame(r: Reader): (g: Got<Frame>)
    ensures r.bad ==> g.next == r
  {
    var format := Word(r);
    var size := Word(format.next);
    var body := Take(size.next, size.val);
    Got(Frame(format.val, body.val), body.next)
  }

  /** So many frames, however one is read: nothing when one does not fit. */
  function FramesBy(read: Reader -> Got<Frame>, r: Reader, n: nat): Option<seq<Frame>>
    decreases n
  {
    if n == 0 then Some([])
    else
      var f := read(r);
      if f.next.bad then None
      else
        var more := FramesBy(read, f.next, n - 1);
        if more.None? then None else Some([f.val] + more.value)
  }

  /** The framing alone. */
  function Frames(r: Reader, n: nat): Option<seq<Frame>> {
    FramesBy(NextFrame, r, n)
  }

  /** Each record in turn, on what those before it made. */
  function Folded(h: HeaderParser, recs: seq<Frame>, s: State): State {
    if recs == [] then s
    else
      var last := recs[|recs| - 1];
      ApplyRecord(h, last.format, last.body, Folded(h, recs[..|recs| - 1], s))
  }

  function Records(h: HeaderParser, r: Reader, n: nat, s: State): Option<State> {
    var recs := Frames(r, n);
    if recs.None? then None else Some(Folded(h, recs.value, s))
  }

  // ------------------------------------------------------------- one sample

  /** Only a single, known interface has an index. */
  function Interface(format: uint32, value: uint32): uint32 {
    if format != 0 || value == IF_UNKNOWN then 0 else value
  }

  datatype Record = Record(fields: Fields, samplingRate: uint32, sampled: bool, packets: uint64, bytes: uint64)

  lemma AtMostTimes(a: nat, b: nat, k: nat)
    requires a <= b
    ensures a * k <= b * k
  {
  }

  /** A 32-bit length times a 32-bit rate always fits 64 bits. */
  lemma ProductFits(frameLen: uint32, rate: uint32)
    ensures 0 <= (frameLen as int) * rate < TWO_64
  {
    AtMostTimes(frameLen, 0xFFFF_FFFF, rate);
  }

  function Scaled(frameLen: uint32, rate: uint32): uint64 {
    ProductFits(frameLen, rate);
    (frameLen as int) * rate
  }

  /** A sample without addresses is nothing; a rate of zero counts as one. */
  function Finished(s: State, rate: uint32): Option<Record> {
    if s.fields.src == [] || s.fields.dst == [] then None
    else
      var n: uint32 := if rate == 0 then 1 else rate;
      Some(Record(s.fields, n, n > 1, n, Scaled(s.frameLen, n)))
  }

  /** A compact interface word holds the format in its two highest bits. */
  function FormatBits(word: uint32): uint32 {
    word / 0x4000_0000
  }

  function ValueBits(word: uint32): uint32 {
    word % 0x4000_0000
  }

  function Unpacked(word: uint32): uint32 {
    Interface(FormatBits(word), ValueBits(word))
  }

  /** From the record count on, both forms of a sample are alike. */
  function AfterHead(h: HeaderParser, r: Reader, rate: uint32, inputIf: uint32, outputIf: uint32): Option<Record> {
    var n := Word(r);
    if n.next.bad || n.val > MAX_RECORDS then None
    else
      var s := Records(h, n.next, n.val, State(BLANK.(inputIf := inputIf, outputIf := outputIf), 0, false));
      if s.None? then None else Finished(s.value, rate)
  }

  /** Sequence and source skipped; rate, pool, drops, input, output. */
  function Compact(h: HeaderParser, body: bytes): Option<Record> {
    var head := Words(Skip(Skip(Reader(body, false), 4), 4), 5);
    AfterHead(h, head.next, head.val[0], Unpacked(head.val[3]), Unpacked(head.val[4]))
  }

  /** The source takes two words, and so does each interface. */
  function Expanded(h: HeaderParser, body: bytes): Option<Record> {
    var head := Words(Skip(Skip(Reader(body, false), 4), 8), 7);
    AfterHead(h, head.next, head.val[0], Interface(head.val[3], head.val[4]), Interface(head.val[5], head.val[6]))
  }

  // ---------------------------------------------------------- one datagram

  function OfFrame(h: HeaderParser, f: Frame): seq<Record> {
    var r := match f.format
      case 1 => Compact(h, f.body)
      case 3 => Expanded(h, f.body)
      case _ => None;
    if r.Some? then [r.value] else []
  }

  function OfFrames(h: HeaderParser, frames: seq<Frame>): seq<Record> {
    if frames == [] then [] else OfFrame(h, frames[0]) + OfFrames(h, frames[1..])
  }

  datatype Error = ShortPacket | NotVersion5 | TruncatedHeader | TooManySamples | BadFraming

  datatype Result = Ok(records: seq<Record>) | Err(error: Error)

  /** The header up to the sample count; what precedes the count is not used. */
  function Head(r: Reader): Got<uint32> {
    Word(Skip(Skip(Skip(Address(r).next, 4), 4), 4))
  }

  function Decode(h: HeaderParser, b: bytes): Result {
    var version := Word(Reader(b, false));
    if version.next.bad then Err(ShortPacket)
    else if version.val != VERSION then Err(NotVersion5)
    else
      var n := Head(version.next);
      if n.next.bad then Err(TruncatedHeader)
      else if n.val > MAX_SAMPLES then Err(TooManySamples)
      else
        var frames := Frames(n.next, n.val);
        if frames.None? then Err(BadFraming) else Ok(OfFrames(h, frames.value))
  }

  /** The samples a datagram frames, when it is one and frames them all. */
  function FramesOf(b: bytes): Option<seq<Frame>> {
    var version := Word(Reader(b, false));
    if version.next.bad || version.val != VERSION then None
    else
      var n := Head(version.next);
      if n.next.bad || n.val > MAX_SAMPLES then None else Frames(n.next, n.val)
  }

  lemma DecodingIsOfFrames(h: HeaderParser, b: bytes)
    ensures Decode(h, b).Ok? <==> FramesOf(b).Some?
    ensures FramesOf(b).Some? ==> Decode(h, b) == Ok(OfFrames(h, FramesOf(b).value))
  {
  }

  // --------------------------------------------------------------- encodings

  ghost function Zeros(n: nat): bytes {
    seq(n, i => 0)
  }

  /** XDR opaque data: a length, the bytes, and this much of their padding. */
  ghost function Opaque(b: bytes, pad: nat): bytes
    requires |b| < 0x1_0000_0000
  {
    PutU32(|b|) + b + Zeros(pad)
  }

  lemma WordUndoesPut(v: uint32, rest: bytes)
    ensures Word(Reader(PutU32(v) + rest, false)) == Got(v, Reader(rest, false))
  {
    U32At([], v, rest);
    assert [] + PutU32(v) + rest == PutU32(v) + rest;
    assert (PutU32(v) + rest)[4..] == rest;
  }

  lemma SkipDrops(front: bytes, rest: bytes)
    ensures Skip(Reader(front + rest, false), |front|) == Reader(rest, false)
  {
    assert (front + rest)[|front|..] == rest;
  }

  /** Reading opaque data undoes writing it, also when the last padding was left off. */
  lemma TakeUndoesOpaque(b: bytes, pad: nat, rest: bytes)
    requires |b| < 0x1_0000_0000
    requires pad == Padding(|b|) || (rest == [] && pad < Padding(|b|))
    ensures var size := Word(Reader(Opaque(b, pad) + rest, false));
            && size.val == |b|
            && Take(size.next, size.val) == Got(b, Reader(rest, false))
  {
    var data := b + Zeros(pad) + rest;
    assert Opaque(b, pad) + rest == PutU32(|b|) + data;
    WordUndoesPut(|b|, data);
    assert data[..|b|] == b;
    if pad == Padding(|b|) {
      assert data[|b| + pad..] == rest;
    }
  }

  /** A sample's head as either form writes it. */
  datatype Sample = Sample(
    sequence: uint32, sourceType: uint32, sourceIndex: uint32, rate: uint32, pool: uint32, drops: uint32,
    inFormat: uint32, inValue: uint32, outFormat: uint32, outValue: uint32, tail: bytes
  ) {
    /** What the compact form has room for. */
    predicate FitsCompact() {
      sourceType < 0x100 && sourceIndex < 0x100_0000
      && inFormat < 4 && inValue < 0x4000_0000 && outFormat < 4 && outValue < 0x4000_0000
    }
  }

  function Packed(format: uint32, value: uint32): uint32
    requires format < 4 && value < 0x4000_0000
  {
    format * 0x4000_0000 + value
  }

  ghost function EncodeWords(ws: seq<uint32>): bytes {
    if ws == [] then [] else PutU32(ws[0]) + EncodeWords(ws[1..])
  }

  lemma {:induction false} WordsAreRead(ws: seq<uint32>, rest: bytes)
    ensures Words(Reader(EncodeWords(ws) + rest, false), |ws|) == Got(ws, Reader(rest, false))
  {
    if ws == [] {
      assert [] + rest == rest;
    } else {
      assert EncodeWords(ws) + rest == PutU32(ws[0]) + (EncodeWords(ws[1..]) + rest);
      WordUndoesPut(ws[0], EncodeWords(ws[1..]) + rest);
      WordsAreRead(ws[1..], rest);
      assert ws == [ws[0]] + ws[1..];
    }
  }

  ghost function EncodeCompact(s: Sample): bytes
    requires s.FitsCompact()
  {
    PutU32(s.sequence) + (PutU32(s.sourceType * 0x100_0000 + s.sourceIndex)
      + (EncodeWords([s.rate, s.pool, s.drops, Packed(s.inFormat, s.inValue), Packed(s.outFormat, s.outValue)]) + s.tail))
  }

  ghost function EncodeExpanded(s: Sample): bytes {
    PutU32(s.sequence) + ((PutU32(s.sourceType) + PutU32(s.sourceIndex))
      + (EncodeWords([s.rate, s.pool, s.drops, s.inFormat, s.inValue, s.outFormat, s.outValue]) + s.tail))
  }

  /** After the sequence number and the source, the words of the head. */
  lemma HeadWordsAreRead(first: bytes, source: bytes, ws: seq<uint32>, tail: bytes)
    requires |first| == 4
    ensures Words(Skip(Skip(Reader(first + (source + (EncodeWords(ws) + tail)), false), 4), |source|), |ws|)
         == Got(ws, Reader(tail, false))
  {
    SkipDrops(first, source + (EncodeWords(ws) + tail));
    SkipDrops(source, EncodeWords(ws) + tail);
    WordsAreRead(ws, tail);
  }

  lemma PackedUnpacks(format: uint32, value: uint32)
    requires format < 4 && value < 0x4000_0000
    ensures FormatBits(Packed(format, value)) == format && ValueBits(Packed(format, value)) == value
  {
  }

  lemma CompactReads(h: HeaderParser, s: Sample)
    requires s.FitsCompact()
    ensures Compact(h, EncodeCompact(s))
         == AfterHead(h, Reader(s.tail, false), s.rate, Interface(s.inFormat, s.inValue), Interface(s.outFormat, s.outValue))
  {
    HeadWordsAreRead(PutU32(s.sequence), PutU32(s.sourceType * 0x100_0000 + s.sourceIndex),
                     [s.rate, s.pool, s.drops, Packed(s.inFormat, s.inValue), Packed(s.outFormat, s.outValue)], s.tail);
    PackedUnpacks(s.inFormat, s.inValue);
    PackedUnpacks(s.outFormat, s.outValue);
  }

  lemma ExpandedReads(h: HeaderParser, s: Sample)
    ensures Expanded(h, EncodeExpanded(s))
         == AfterHead(h, Reader(s.tail, false), s.rate, Interface(s.inFormat, s.inValue), Interface(s.outFormat, s.outValue))
  {
    HeadWordsAreRead(PutU32(s.sequence), PutU32(s.sourceType) + PutU32(s.sourceIndex),
                     [s.rate, s.pool, s.drops, s.inFormat, s.inValue, s.outFormat, s.outValue], s.tail);
  }

  /**
   A sample the compact form can hold decodes alike from either form, whatever
   its records hold, well formed or not.
   */
  lemma FormsAgree(h: HeaderParser, s: Sample)
    requires s.FitsCompact()
    ensures Compact(h, EncodeCompact(s)) == Expanded(h, EncodeExpanded(s))
  {
    CompactReads(h, s);
    ExpandedReads(h, s);
  }

  predicate Encodable(frames: seq<Frame>) {
    forall i :: 0 <= i < |frames| ==> |frames[i].body| < 0x1_0000_0000
  }

  /** Framed samples, all padded but perhaps the last. */
  ghost function EncodeFrames(frames: seq<Frame>, lastPad: nat): bytes
    requires Encodable(frames)
  {
    if frames == [] then []
    else
      PutU32(frames[0].format)
      + (Opaque(frames[0].body, if |frames| == 1 then lastPad else Padding(|frames[0].body|)) + EncodeFrames(frames[1..], lastPad))
  }

  predicate PadsLast(frames: seq<Frame>, lastPad: nat) {
    frames != [] ==> lastPad <= Padding(|frames[|frames| - 1].body|)
  }

  lemma FrameIsRead(f: Frame, pad: nat, rest: bytes)
    requires |f.body| < 0x1_0000_0000
    requires pad == Padding(|f.body|) || (rest == [] && pad < Padding(|f.body|))
    ensures NextFrame(Reader(PutU32(f.format) + (Opaque(f.body, pad) + rest), false)) == Got(f, Reader(rest, false))
  {
    WordUndoesPut(f.format, Opaque(f.body, pad) + rest);
    TakeUndoesOpaque(f.body, pad, rest);
  }

  /** The first frame of an encoding, and what is behind it. */
  lemma FirstFrameIsRead(frames: seq<Frame>, lastPad: nat)
    requires frames != [] && Encodable(frames) && PadsLast(frames, lastPad)
    ensures NextFrame(Reader(EncodeFrames(frames, lastPad), false)) == Got(frames[0], Reader(EncodeFrames(frames[1..], lastPad), false))
  {
    FrameIsRead(frames[0], if |frames| == 1 then lastPad else Padding(|frames[0].body|), EncodeFrames(frames[1..], lastPad));
  }

  lemma FirstFrameThenRest(read: Reader -> Got<Frame>, r: Reader, frames: seq<Frame>, rest: Reader)
    requires frames != [] && read(r) == Got(frames[0], rest) && !rest.bad
    requires FramesBy(read, rest, |frames| - 1) == Some(frames[1..])
    ensures FramesBy(read, r, |frames|) == Some(frames)
  {
    assert frames == [frames[0]] + frames[1..];
  }

  lemma {:induction false} FramesAreRead(frames: seq<Frame>, lastPad: nat)
    requires Encodable(frames) && PadsLast(frames, lastPad)
    ensures Frames(Reader(EncodeFrames(frames, lastPad), false), |frames|) == Some(frames)
  {
    if frames != [] {
      FirstFrameIsRead(frames, lastPad);
      FramesAreRead(frames[1..], lastPad);
      FirstFrameThenRest(NextFrame, Reader(EncodeFrames(frames, lastPad), false), frames, Reader(EncodeFrames(frames[1..], lastPad), false));
    }
  }

  /** An agent address with its type word; the unknown type carries none. */
  ghost function EncodeAddress(a: Addr): bytes
    requires |a| in {0, 4, 16}
  {
    PutU32(if |a| == 4 then 1 else if |a| == 16 then 2 else 0) + a
  }

  lemma AddressIsRead(a: Addr, rest: bytes)
    requires |a| in {0, 4, 16}
    ensures Address(Reader(EncodeAddress(a) + rest, false)) == Got(AddrOrZero(a), Reader(rest, false))
  {
    var kind: uint32 := if |a| == 4 then 1 else if |a| == 16 then 2 else 0;
    assert EncodeAddress(a) + rest == PutU32(kind) + (a + rest);
    WordUndoesPut(kind, a + rest);
    assert (a + rest)[..|a|] == a && (a + rest)[|a|..] == rest;
  }

  ghost function EncodeHead(agent: Addr, subAgent: uint32, sequence: uint32, uptime: uint32, count: uint32, rest: bytes): bytes
    requires |agent| in {0, 4, 16}
  {
    EncodeAddress(agent) + (PutU32(subAgent) + (PutU32(sequence) + (PutU32(uptime) + (PutU32(count) + rest))))
  }

  lemma HeadIsRead(agent: Addr, subAgent: uint32, sequence: uint32, uptime: uint32, count: uint32, rest: bytes)
    requires |agent| in {0, 4, 16}
    ensures Head(Reader(EncodeHead(agent, subAgent, sequence, uptime, count, rest), false)) == Got(count, Reader(rest, false))
  {
    AddressIsRead(agent, PutU32(subAgent) + (PutU32(sequence) + (PutU32(uptime) + (PutU32(count) + rest))));
    SkipDrops(PutU32(subAgent), PutU32(sequence) + (PutU32(uptime) + (PutU32(count) + rest)));
    SkipDrops(PutU32(sequence), PutU32(uptime) + (PutU32(count) + rest));
    SkipDrops(PutU32(uptime), PutU32(count) + rest);
    WordUndoesPut(count, rest);
  }

  /**
   Decoding a datagram gives what each of its samples gives alone, in order: a
   malformed, foreign or unknown sample contributes nothing and disturbs no other.
   */
  lemma DecodingIsPerSample(h: HeaderParser, agent: Addr, subAgent: uint32, sequence: uint32, uptime: uint32,
      frames: seq<Frame>, lastPad: nat)
    requires |agent| in {0, 4, 16} && |frames| <= MAX_SAMPLES && Encodable(frames) && PadsLast(frames, lastPad)
    ensures var head := EncodeHead(agent, subAgent, sequence, uptime, |frames|, EncodeFrames(frames, lastPad));
            Decode(h, PutU32(VERSION) + head) == Ok(OfFrames(h, frames))
  {
    var head := EncodeHead(agent, subAgent, sequence, uptime, |frames|, EncodeFrames(frames, lastPad));
    WordUndoesPut(VERSION, head);
    HeadIsRead(agent, subAgent, sequence, uptime, |frames|, EncodeFrames(frames, lastPad));
    FramesAreRead(frames, lastPad);
  }

  lemma {:induction false} OfFramesJoins(h: HeaderParser, a: seq<Frame>, b: seq<Frame>)
    ensures OfFrames(h, a + b) == OfFrames(h, a) + OfFrames(h, b)
  {
    if a == [] {
      assert a + b == b;
    } else {
      assert (a + b)[1..] == a[1..] + b;
      OfFramesJoins(h, a[1..], b);
      JoinTwo(OfFrame(h, a[0]), OfFrames(h, a[1..]), OfFrames(h, b));
    }
  }

  lemma JoinTwo<T>(a: seq<T>, b: seq<T>, c: seq<T>)
    ensures (a + b) + c == a + (b + c)
  {
  }

  /** Whatever one sample is replaced by, the records of the others stay. */
  lemma SamplesAreIndependent(h: HeaderParser, before: seq<Frame>, f: Frame, after: seq<Frame>)
    ensures OfFrames(h, before + [f] + after) == OfFrames(h, before) + OfFrames(h, [f]) + OfFrames(h, after)
  {
    OfFramesJoins(h, before + [f], after);
    OfFramesJoins(h, before, [f]);
  }

  // ------------------------------------------------------------ what counts

  /** The frame length a raw header record states, if it is whole. */
  function HeaderLength(f: Frame): Option<uint32> {
    var frameLen := Word(Word(Reader(f.body, false)).next);
    var size := Word(Skip(frameLen.next, 4));
    if f.format == 1 && !Take(size.next, size.val).next.bad then Some(frameLen.val) else None
  }

  /** The length an IP data record states, if it is whole: two words, two addresses, four words. */
  function IpLength(f: Frame): Option<uint32> {
    if (f.format == 3 && |f.body| >= 32) || (f.format == 4 && |f.body| >= 56) then Some(U32(f.body, 0)) else None
  }

  /** The last header's length; without one, the last IP data's. */
  function LastHeader(recs: seq<Frame>): Option<uint32> {
    if recs == [] then None
    else
      var last := HeaderLength(recs[|recs| - 1]);
      if last.Some? then last else LastHeader(recs[..|recs| - 1])
  }

  function LastIp(recs: seq<Frame>): Option<uint32> {
    if recs == [] then None
    else
      var last := IpLength(recs[|recs| - 1]);
      if last.Some? then last else LastIp(recs[..|recs| - 1])
  }

  function FrameLength(recs: seq<Frame>): uint32 {
    LastHeader(recs).GetOr(LastIp(recs).GetOr(0))
  }

  lemma {:induction false} WordsConsume(r: Reader, n: nat)
    ensures Words(r, n).next.bad <==> r.bad || |r.rest| < 4 * n
    ensures !Words(r, n).next.bad ==> |Words(r, n).next.rest| == |r.rest| - 4 * n
    decreases n
  {
    if n > 0 {
      WordsConsume(Word(r).next, n - 1);
    }
  }

  lemma TakeConsumes(r: Reader, n: nat)
    requires n % 4 == 0
    ensures Take(r, n).next.bad <==> r.bad || |r.rest| < n
    ensures !Take(r, n).next.bad ==> |Take(r, n).next.rest| == |r.rest| - n
  {
  }

  /** An IP data record is whole exactly when it has room for all its fields. */
  lemma IpDataLength(rec: bytes, width: nat, s: State)
    requires width in {4, 16}
    ensures var whole := |rec| >= 24 + 2 * width;
            IpData(rec, width, s).frameLen == (if whole && !s.haveHeader then U32(rec, 0) else s.frameLen)
            && IpData(rec, width, s).haveHeader == s.haveHeader
  {
    var head := Words(Reader(rec, false), 2);
    var src := Take(head.next, width);
    var dst := Take(src.next, width);
    WordsConsume(Reader(rec, false), 2);
    TakeConsumes(head.next, width);
    TakeConsumes(src.next, width);
    WordsConsume(dst.next, 4);
  }

  /** What one record makes of the length so far. */
  ghost predicate LengthAfter(f: Frame, s: State, s': State) {
    var header, ip := HeaderLength(f), IpLength(f);
    && s'.haveHeader == (header.Some? || s.haveHeader)
    && s'.frameLen == if header.Some? then header.value else if ip.Some? && !s.haveHeader then ip.value else s.frameLen
  }

  lemma HeaderSetsLength(h: HeaderParser, f: Frame, s: State)
    requires f.format == 1
    ensures LengthAfter(f, s, RawHeader(h, f.body, s))
  {
  }

  lemma Ip4SetsLength(f: Frame, s: State)
    requires f.format == 3
    ensures LengthAfter(f, s, IpData(f.body, 4, s))
  {
    IpDataLength(f.body, 4, s);
  }

  lemma Ip6SetsLength(f: Frame, s: State)
    requires f.format == 4
    ensures LengthAfter(f, s, IpData(f.body, 16, s))
  {
    IpDataLength(f.body, 16, s);
  }

  lemma OthersKeepLength(f: Frame, s: State, s': State)
    requires f.format !in {1, 3, 4} && (s'.frameLen, s'.haveHeader) == (s.frameLen, s.haveHeader)
    ensures LengthAfter(f, s, s')
  {
  }

  lemma ApplySetsLength(h: HeaderParser, f: Frame, s: State)
    ensures LengthAfter(f, s, ApplyRecord(h, f.format, f.body, s))
  {
    if f.format == 1 {
      HeaderSetsLength(h, f, s);
    } else if f.format == 3 {
      Ip4SetsLength(f, s);
    } else if f.format == 4 {
      Ip6SetsLength(f, s);
    } else {
      OthersKeepLength(f, s, ApplyRecord(h, f.format, f.body, s));
    }
  }

  lemma {:induction false} FoldedLength(h: HeaderParser, recs: seq<Frame>, s: State)
    requires s.frameLen == 0 && !s.haveHeader
    ensures Folded(h, recs, s).haveHeader == LastHeader(recs).Some?
    ensures Folded(h, recs, s).frameLen == FrameLength(recs)
  {
    if recs != [] {
      var n := |recs| - 1;
      FoldedLength(h, recs[..n], s);
      ApplySetsLength(h, recs[n], Folded(h, recs[..n], s));
    }
  }

  /** A record counts its frame, as long as its last header or else its last IP data says, once per packet it stands for. */
  ghost predicate Counts(h: HeaderParser, r: Reader, rate: uint32, rec: Record) {
    var n := Word(r);
    var recs := Frames(n.next, n.val);
    && recs.Some? && |recs.value| == n.val <= MAX_RECORDS
    && rec.samplingRate == (if rate == 0 then 1 else rate) && (rec.sampled <==> rate > 1)
    && rec.packets == rec.samplingRate && rec.bytes == Scaled(FrameLength(recs.value), rec.samplingRate)
    && rec.fields.src != [] && rec.fields.dst != []
  }

  lemma RecordsAreCounted(h: HeaderParser, r: Reader, rate: uint32, inputIf: uint32, outputIf: uint32)
    ensures var rec := AfterHead(h, r, rate, inputIf, outputIf); rec.Some? ==> Counts(h, r, rate, rec.value)
  {
    var n := Word(r);
    var s := State(BLANK.(inputIf := inputIf, outputIf := outputIf), 0, false);
    FramesCount(NextFrame, n.next, n.val);
    if Frames(n.next, n.val).Some? {
      FoldedLength(h, Frames(n.next, n.val).value, s);
    }
  }

  /**
   Every record of a sample, in either form: a rate of at least one, sampled
   exactly when above one, and bytes equal to the sampled frame's length times
   the rate, without overflow.
   */
  lemma SamplesAreCounted(h: HeaderParser, s: Sample)
    ensures Expanded(h, EncodeExpanded(s)).Some? ==>
              Counts(h, Reader(s.tail, false), s.rate, Expanded(h, EncodeExpanded(s)).value)
    ensures s.FitsCompact() && Compact(h, EncodeCompact(s)).Some? ==>
              Counts(h, Reader(s.tail, false), s.rate, Compact(h, EncodeCompact(s)).value)
  {
    ExpandedReads(h, s);
    RecordsAreCounted(h, Reader(s.tail, false), s.rate, Interface(s.inFormat, s.inValue), Interface(s.outFormat, s.outValue));
    if s.FitsCompact() {
      FormsAgree(h, s);
    }
  }

  lemma {:induction false} FramesCount(read: Reader -> Got<Frame>, r: Reader, n: nat)
    ensures var frames := FramesBy(read, r, n); frames.Some? ==> |frames.value| == n
    decreases n
  {
    if n > 0 {
      FramesCount(read, read(r).next, n - 1);
    }
  }

  lemma {:induction false} OneRecordASample(h: HeaderParser, frames: seq<Frame>)
    ensures |OfFrames(h, frames)| <= |frames|
  {
    if frames != [] {
      OneRecordASample(h, frames[1..]);
    }
  }

  /** However large the counts a datagram claims, it yields at most MAX_SAMPLES records. */
  lemma WorkIsBounded(h: HeaderParser, b: bytes)
    ensures Decode(h, b).Ok? ==> |Decode(h, b).records| <= MAX_SAMPLES
  {
    var n := Head(Word(Reader(b, false)).next);
    FramesCount(NextFrame, n.next, n.val);
    if Frames(n.next, n.val).Some? {
      OneRecordASample(h, Frames(n.next, n.val).value);
    }
  }

  // ---------------------------------------------------------------- decoding

  /** Walks a buffer; a failed read sticks, and the offset never leaves the buffer. */
  class XdrReader {
    const b: bytes
    var off: nat
    var bad: bool

    ghost predicate Valid()
      reads this
    {
      off <= |b|
    }

    ghost function View(): Reader
      requires Valid()
      reads this
    {
      Reader(b[off..], bad)
    }

    constructor (b: bytes)
      ensures Valid() && View() == Reader(b, false) && this.b == b
    {
      this.b, off, bad := b, 0, false;
    }

    method ReadWord() returns (v: uint32)
      requires Valid()
      modifies this
      ensures Valid() && off >= old(off) && (old(bad) ==> bad)
      ensures Got(v, View()) == Word(old(View()))
    {
      if bad || off + 4 > |b| {
        bad := true;
        return 0;
      }
      v := U32(b, off);
      assert b[off..][4..] == b[off + 4..];
      off := off + 4;
    }

    method ReadBytes(n: uint32) returns (out: bytes)
      requires Valid()
      modifies this
      ensures Valid() && off >= old(off) && (old(bad) ==> bad)
      ensures Got(out, View()) == Take(old(View()), n)
    {
      if bad || n > |b| - off {
        bad := true;
        return [];
      }
      var end := off + n;
      out := b[off..end];
      var pad := (4 - n % 4) % 4;
      ghost var rest := b[off..];
      assert rest[..n] == out;
      if end + pad > |b| {
        off := |b|;
        return;
      }
      assert rest[n + pad..] == b[end + pad..];
      off := end + pad;
    }

    method SkipOver(n: nat)
      requires Valid()
      modifies this
      ensures Valid() && off >= old(off) && (old(bad) ==> bad)
      ensures View() == Skip(old(View()), n)
    {
      if bad || n > |b| - off {
        bad := true;
        return;
      }
      assert b[off..][n..] == b[off + n..];
      off := off + n;
    }

    method ReadAddress() returns (a: Addr)
      requires Valid()
      modifies this
      ensures Valid() && off >= old(off) && (old(bad) ==> bad)
      ensures Got(a, View()) == Address(old(View()))
    {
      var kind := ReadWord();
      if kind == 1 {
        var raw := ReadBytes(4);
        return AddrOrZero(raw);
      } else if kind == 2 {
        var raw := ReadBytes(16);
        return AddrOrZero(raw);
      } else if kind == 0 {
        return [];
      }
      bad := true;
      return [];
    }

    method ReadFrame() returns (f: Frame)
      requires Valid()
      modifies this
      ensures Valid()
      ensures Got(f, View()) == NextFrame(old(View()))
    {
      var format := ReadWord();
      var size := ReadWord();
      var body := ReadBytes(size);
      f := Frame(format, body);
    }

    /** The last of so many words, zero or the one before when there are none. */
    method ReadLastOf(n: nat, before: uint32) returns (last: uint32, ghost words: seq<uint32>)
      requires Valid()
      modifies this
      ensures Valid()
      ensures Got(words, View()) == Words(old(View()), n)
      ensures last == LastOr(words, before)
    {
      last, words := before, [];
      assert [] + Words(View(), n).val == Words(View(), n).val;
      for j := 0 to n
        invariant Valid()
        invariant |words| == j && last == LastOr(words, before)
        invariant Words(old(View()), n) == Got(words + Words(View(), n - j).val, Words(View(), n - j).next)
      {
        ghost var r := View();
        last := ReadWord();
        JoinTwo(words, [last], Words(View(), n - j - 1).val);
        words := words + [last];
      }
      assert words + [] == words;
    }

    /** One segment of the path, unless it is truncated or makes the path too long. */
    method ReadSegment(total: nat, before: uint32, ghost segments: nat, ghost path: seq<uint32>)
      returns (ok: bool, count: nat, last: uint32, ghost words: seq<uint32>)
      requires Valid() && |path| == total <= MAX_AS_PATH && IsLast(path, before) && segments > 0
      modifies this
      ensures Valid()
      ensures !ok ==> Path(old(View()), segments, path).None?
      ensures ok ==> |words| == count && total + count <= MAX_AS_PATH && IsLast(path + words, last)
                     && Path(old(View()), segments, path) == Path(View(), segments - 1, path + words)
    {
      SkipOver(4);
      var n := ReadWord();
      if bad || n > MAX_AS_PATH - total {
        return false, 0, 0, [];
      }
      ok, count := true, n;
      last, words := ReadLastOf(n, before);
    }

    /** The AS path by segments; gives up, changing no record, when too long or truncated. */
    method ReadPath(segments: nat) returns (dst: Option<uint32>)
      requires Valid()
      modifies this
      ensures Valid()
      ensures var p := Path(old(View()), segments, []);
              dst == if p.None? then None else Some(LastOr(p.value, 0))
    {
      var last: uint32, total: nat := 0, 0;
      ghost var path: seq<uint32> := [];
      for i := 0 to segments
        invariant Valid()
        invariant |path| == total <= MAX_AS_PATH && IsLast(path, last)
        invariant Path(View(), segments - i, path) == Path(old(View()), segments, [])
      {
        var ok, count, entry;
        ghost var words;
        ok, count, entry, words := ReadSegment(total, last, segments - i, path);
        if !ok {
          return None;
        }
        total, last, path := total + count, entry, path + words;
      }
      if bad {
        return None;
      }
      return Some(last);
    }
  }

  predicate IsLast(path: seq<uint32>, last: uint32) {
    last == LastOr(path, 0)
  }

  method ReadExtGateway(rec: bytes, s: State) returns (s': State)
    ensures s' == ExtGateway(rec, s)
  {
    var x := new XdrReader(rec);
    var hop := x.ReadAddress();
    var own := x.ReadWord();
    var src := x.ReadWord();
    x.SkipOver(4);
    var segments := x.ReadWord();
    if x.bad || segments > MAX_AS_PATH {
      return s;
    }
    var dst := x.ReadPath(segments);
    if dst.None? {
      return s;
    }
    s' := s.(fields := s.fields.(bgpNextHop := hop, srcAs := src, dstAs := if segments == 0 then own else dst.value));
  }

  method ReadRecord(h: HeaderParser, format: uint32, rec: bytes, s: State) returns (s': State)
    ensures s' == ApplyRecord(h, format, rec, s)
  {
    if format == 1003 {
      s' := ReadExtGateway(rec, s);
    } else {
      s' := ApplyRecord(h, format, rec, s);
    }
  }

  lemma FoldedOneMore(h: HeaderParser, recs: seq<Frame>, f: Frame, s: State)
    ensures Folded(h, recs + [f], s) == ApplyRecord(h, f.format, f.body, Folded(h, recs, s))
  {
    assert (recs + [f])[..|recs|] == recs;
  }

  // Both loops over frames are one walk: `read` takes the next frame, and `step` is what a
  // frame does to the result so far.

  function Walked<A>(read: Reader -> Got<Frame>, step: (Frame, A) -> A, r: Reader, n: nat, acc: A): Option<A>
    decreases n
  {
    if n == 0 then Some(acc)
    else
      var f := read(r);
      if f.next.bad then None else Walked(read, step, f.next, n - 1, step(f.val, acc))
  }

  ghost predicate ReadsFrames(read: Reader -> Got<Frame>) {
    forall r: Reader {:trigger NextFrame(r)} :: read(r) == NextFrame(r)
  }

  function Stepped<A>(step: (Frame, A) -> A, frames: seq<Frame>, acc: A): A
    decreases |frames|
  {
    if frames == [] then acc else Stepped(step, frames[1..], step(frames[0], acc))
  }

  /** Stepping while reading is framing everything first, then stepping through it. */
  lemma {:induction false} WalkingIsStepping<A>(read: Reader -> Got<Frame>, step: (Frame, A) -> A, r: Reader, n: nat, acc: A)
    ensures var frames := FramesBy(read, r, n);
            Walked(read, step, r, n, acc) == if frames.None? then None else Some(Stepped(step, frames.value, acc))
    decreases n
  {
    if n > 0 {
      var f := read(r);
      if !f.next.bad {
        WalkingIsStepping(read, step, f.next, n - 1, step(f.val, acc));
        var more := FramesBy(read, f.next, n - 1);
        if more.Some? {
          assert ([f.val] + more.value)[1..] == more.value;
        }
      }
    }
  }

  ghost predicate Applies(h: HeaderParser, step: (Frame, State) -> State) {
    forall f: Frame, s: State {:trigger ApplyRecord(h, f.format, f.body, s)} ::
      step(f, s) == ApplyRecord(h, f.format, f.body, s)
  }

  lemma {:induction false} SteppingIsFolding(h: HeaderParser, step: (Frame, State) -> State, done: seq<Frame>, frames: seq<Frame>, start: State)
    requires Applies(h, step)
    ensures Stepped(step, frames, Folded(h, done, start)) == Folded(h, done + frames, start)
    decreases |frames|
  {
    if frames == [] {
      assert done + [] == done;
    } else {
      FoldedOneMore(h, done, frames[0], start);
      SteppingIsFolding(h, step, done + [frames[0]], frames[1..], start);
      assert done + [frames[0]] + frames[1..] == done + frames;
    }
  }

  method ReadNextRecord(h: HeaderParser, x: XdrReader, ghost read: Reader -> Got<Frame>,
      ghost step: (Frame, State) -> State, ghost n: nat, s: State)
    returns (s': Option<State>)
    requires x.Valid() && n > 0 && ReadsFrames(read) && Applies(h, step)
    modifies x
    ensures x.Valid()
    ensures Walked(read, step, old(x.View()), n, s) == if s'.None? then None else Walked(read, step, x.View(), n - 1, s'.value)
  {
    var f := x.ReadFrame();
    if x.bad {
      return None;
    }
    var after := ReadRecord(h, f.format, f.body, s);
    return Some(after);
  }

  method ReadRecords(h: HeaderParser, x: XdrReader, n: nat, start: State) returns (end: Option<State>)
    requires x.Valid()
    modifies x
    ensures end == Records(h, old(x.View()), n, start)
  {
    ghost var read := NextFrame;
    ghost var step := (f: Frame, s: State) => ApplyRecord(h, f.format, f.body, s);
    ghost var frames := Frames(x.View(), n);
    WalkingIsStepping(read, step, x.View(), n, start);
    if frames.Some? {
      SteppingIsFolding(h, step, [], frames.value, start);
      assert [] + frames.value == frames.value;
    }
    end := ReadRest(h, x, read, step, n, start);
  }

  method ReadRest(h: HeaderParser, x: XdrReader, ghost read: Reader -> Got<Frame>, ghost step: (Frame, State) -> State,
      n: nat, start: State)
    returns (end: Option<State>)
    requires x.Valid() && ReadsFrames(read) && Applies(h, step)
    modifies x
    ensures end == Walked(read, step, old(x.View()), n, start)
  {
    var s := start;
    ghost var goal := Walked(read, step, x.View(), n, start);
    for i := 0 to n
      invariant x.Valid() && Walked(read, step, x.View(), n - i, s) == goal
    {
      var after := ReadNextRecord(h, x, read, step, n - i, s);
      if after.None? {
        return None;
      }
      s := after.value;
    }
    return Some(s);
  }

  method DecodeAfterHead(h: HeaderParser, x: XdrReader, rate: uint32, inputIf: uint32, outputIf: uint32)
    returns (r: Option<Record>)
    requires x.Valid()
    modifies x
    ensures r == AfterHead(h, old(x.View()), rate, inputIf, outputIf)
  {
    var n := x.ReadWord();
    if x.bad || n > MAX_RECORDS {
      return None;
    }
    var s := ReadRecords(h, x, n, State(BLANK.(inputIf := inputIf, outputIf := outputIf), 0, false));
    if s.None? {
      return None;
    }
    r := Finished(s.value, rate);
  }

  method DecodeSample(h: HeaderParser, body: bytes, expanded: bool) returns (r: Option<Record>)
    ensures r == if expanded then Expanded(h, body) else Compact(h, body)
  {
    if expanded {
      r := DecodeExpanded(h, body);
    } else {
      r := DecodeCompact(h, body);
    }
  }

  lemma SkipIsWord(r: Reader)
    ensures Skip(r, 4) == Word(r).next
  {
  }

  lemma WordsCons(r: Reader, n: nat)
    requires n > 0
    ensures var w := Word(r); var more := Words(w.next, n - 1); Words(r, n) == Got([w.val] + more.val, more.next)
  {
  }

  lemma FiveWords(r: Reader)
    ensures var rate := Word(r);
            var input := Word(Skip(Skip(rate.next, 4), 4));
            var output := Word(input.next);
            var head := Words(r, 5);
            (head.val[0], head.val[3], head.val[4], head.next) == (rate.val, input.val, output.val, output.next)
  {
    var rate := Word(r);
    var pool := Word(rate.next);
    var drops := Word(pool.next);
    SkipIsWord(rate.next);
    SkipIsWord(pool.next);
    WordsCons(r, 5);
    WordsCons(rate.next, 4);
    WordsCons(pool.next, 3);
    WordsCons(drops.next, 2);
    WordsCons(Word(drops.next).next, 1);
  }

  method DecodeCompact(h: HeaderParser, body: bytes) returns (r: Option<Record>)
    ensures r == Compact(h, body)
  {
    var x := new XdrReader(body);
    x.SkipOver(4);
    x.SkipOver(4);
    FiveWords(x.View());
    var rate := x.ReadWord();
    x.SkipOver(4);
    x.SkipOver(4);
    var input := x.ReadWord();
    var output := x.ReadWord();
    r := DecodeAfterHead(h, x, rate, Unpacked(input), Unpacked(output));
  }

  lemma SevenWords(r: Reader)
    ensures var rate := Word(r);
            var inFormat := Word(Skip(Skip(rate.next, 4), 4));
            var inValue := Word(inFormat.next);
            var outFormat := Word(inValue.next);
            var outValue := Word(outFormat.next);
            var head := Words(r, 7);
            && (head.val[0], head.val[3], head.val[4]) == (rate.val, inFormat.val, inValue.val)
            && (head.val[5], head.val[6], head.next) == (outFormat.val, outValue.val, outValue.next)
  {
    var rate := Word(r);
    var pool := Word(rate.next);
    var drops := Word(pool.next);
    SkipIsWord(rate.next);
    SkipIsWord(pool.next);
    WordsCons(r, 7);
    WordsCons(rate.next, 6);
    WordsCons(pool.next, 5);
    FourWords(drops.next);
  }

  lemma FourWords(r: Reader)
    ensures var a := Word(r);
            var b := Word(a.next);
            var c := Word(b.next);
            var d := Word(c.next);
            var four := Words(r, 4);
            && (four.val[0], four.val[1], four.val[2], four.val[3]) == (a.val, b.val, c.val, d.val)
            && four.next == d.next
  {
    var b := Word(Word(r).next);
    var c := Word(b.next);
    WordsCons(r, 4);
    WordsCons(Word(r).next, 3);
    WordsCons(b.next, 2);
    WordsCons(c.next, 1);
  }

  method DecodeExpanded(h: HeaderParser, body: bytes) returns (r: Option<Record>)
    ensures r == Expanded(h, body)
  {
    var x := new XdrReader(body);
    x.SkipOver(4);
    x.SkipOver(8);
    SevenWords(x.View());
    var rate := x.ReadWord();
    x.SkipOver(4);
    x.SkipOver(4);
    var inFormat := x.ReadWord();
    var inValue := x.ReadWord();
    var outFormat := x.ReadWord();
    var outValue := x.ReadWord();
    r := DecodeAfterHead(h, x, rate, Interface(inFormat, inValue), Interface(outFormat, outValue));
  }

  method DecodeFrame(h: HeaderParser, f: Frame) returns (records: seq<Record>)
    ensures records == OfFrame(h, f)
  {
    if f.format != 1 && f.format != 3 {
      return [];
    }
    var r := DecodeSample(h, f.body, f.format == 3);
    return if r.Some? then [r.value] else [];
  }

  /** What a frame's records are put behind. */
  function Behind(h: HeaderParser, f: Frame, out: seq<Record>): seq<Record> {
    out + OfFrame(h, f)
  }

  ghost predicate Collects(h: HeaderParser, step: (Frame, seq<Record>) -> seq<Record>) {
    forall f: Frame, out: seq<Record> {:trigger Behind(h, f, out)} :: step(f, out) == Behind(h, f, out)
  }

  lemma {:induction false} SteppingIsCollecting(h: HeaderParser, step: (Frame, seq<Record>) -> seq<Record>, frames: seq<Frame>, out: seq<Record>)
    requires Collects(h, step)
    ensures Stepped(step, frames, out) == out + OfFrames(h, frames)
    decreases |frames|
  {
    if frames == [] {
      assert out + [] == out;
    } else {
      SteppingIsCollecting(h, step, frames[1..], Behind(h, frames[0], out));
      JoinTwo(out, OfFrame(h, frames[0]), OfFrames(h, frames[1..]));
    }
  }

  method DecodeNextFrame(h: HeaderParser, x: XdrReader, ghost read: Reader -> Got<Frame>,
      ghost step: (Frame, seq<Record>) -> seq<Record>, ghost n: nat, out: seq<Record>)
    returns (out': Option<seq<Record>>)
    requires x.Valid() && n > 0 && ReadsFrames(read) && Collects(h, step)
    modifies x
    ensures x.Valid()
    ensures Walked(read, step, old(x.View()), n, out) == if out'.None? then None else Walked(read, step, x.View(), n - 1, out'.value)
  {
    var f := x.ReadFrame();
    if x.bad {
      return None;
    }
    var records := DecodeFrame(h, f);
    assert out + records == Behind(h, f, out);
    return Some(out + records);
  }

  /** Samples one by one; broken framing discards everything read so far. */
  method DecodeFrames(h: HeaderParser, x: XdrReader, n: nat) returns (records: Option<seq<Record>>)
    requires x.Valid()
    modifies x
    ensures var frames := Frames(old(x.View()), n);
            records == if frames.None? then None else Some(OfFrames(h, frames.value))
  {
    ghost var read := NextFrame;
    ghost var step := (f: Frame, out: seq<Record>) => Behind(h, f, out);
    ghost var frames := Frames(x.View(), n);
    WalkingIsStepping(read, step, x.View(), n, []);
    if frames.Some? {
      SteppingIsCollecting(h, step, frames.value, []);
      assert [] + OfFrames(h, frames.value) == OfFrames(h, frames.value);
    }
    records := DecodeRest(h, x, read, step, n);
  }

  method DecodeRest(h: HeaderParser, x: XdrReader, ghost read: Reader -> Got<Frame>,
      ghost step: (Frame, seq<Record>) -> seq<Record>, n: nat)
    returns (records: Option<seq<Record>>)
    requires x.Valid() && ReadsFrames(read) && Collects(h, step)
    modifies x
    ensures records == Walked(read, step, old(x.View()), n, [])
  {
    var out: seq<Record> := [];
    ghost var goal := Walked(read, step, x.View(), n, []);
    for i := 0 to n
      invariant x.Valid() && Walked(read, step, x.View(), n - i, out) == goal
    {
      var more := DecodeNextFrame(h, x, read, step, n - i, out);
      if more.None? {
        return None;
      }
      out := more.value;
    }
    return Some(out);
  }

  method DecodeDatagram(h: HeaderParser, b: bytes) returns (result: Result)
    ensures result == Decode(h, b)
  {
    var x := new XdrReader(b);
    var version := x.ReadWord();
    if x.bad {
      return Err(ShortPacket);
    }
    if version != VERSION {
      return Err(NotVersion5);
    }
    var agent := x.ReadAddress();
    x.SkipOver(4);
    x.SkipOver(4);
    x.SkipOver(4);
    var n := x.ReadWord();
    if x.bad {
      return Err(TruncatedHeader);
    }
    if n > MAX_SAMPLES {
      return Err(TooManySamples);
    }
    var records := DecodeFrames(h, x, n);
    if records.None? {
      return Err(BadFraming);
    }
    return Ok(records.value);
  }

  // ----------------------------------------------------------- the AS path

  /** Path segments: a type word, a count and the entries. */
  ghost function EncodeSegments(kinds: seq<uint32>, segments: seq<seq<uint32>>): bytes
    requires |kinds| == |segments| && forall i :: 0 <= i < |segments| ==> |segments[i]| < 0x1_0000_0000
  {
    if segments == [] then []
    else PutU32(kinds[0]) + (PutU32(|segments[0]|) + (EncodeWords(segments[0]) + EncodeSegments(kinds[1..], segments[1..])))
  }

  function Flatten(segments: seq<seq<uint32>>): seq<uint32> {
    if segments == [] then [] else segments[0] + Flatten(segments[1..])
  }

  /** A path is read back whole exactly when it has no more than MAX_AS_PATH entries. */
  lemma {:induction false} PathUndoesEncoding(kinds: seq<uint32>, segments: seq<seq<uint32>>, path: seq<uint32>)
    requires |kinds| == |segments| && forall i :: 0 <= i < |segments| ==> |segments[i]| < 0x1_0000_0000
    requires |path| <= MAX_AS_PATH
    ensures Path(Reader(EncodeSegments(kinds, segments), false), |segments|, path)
         == if |path| + |Flatten(segments)| <= MAX_AS_PATH then Some(path + Flatten(segments)) else None
    decreases |segments|
  {
    if segments == [] {
      assert path + [] == path;
    } else {
      var rest := EncodeSegments(kinds[1..], segments[1..]);
      var entries := EncodeWords(segments[0]) + rest;
      SkipDrops(PutU32(kinds[0]), PutU32(|segments[0]|) + entries);
      WordUndoesPut(|segments[0]|, entries);
      if |segments[0]| <= MAX_AS_PATH - |path| {
        WordsAreRead(segments[0], rest);
        PathUndoesEncoding(kinds[1..], segments[1..], path + segments[0]);
        JoinTwo(path, segments[0], Flatten(segments[1..]));
      }
    }
  }
}
