/**
 From received bytes to counted ones: what a run of datagrams, in any mix of
 formats and from any exporters, makes the aggregator's buckets add up to, in
 terms of the rows and samples those datagrams carry.
 */
module FlowAccounting {
  import opened Common
  import opened Wrap
  import opened Bytes
  import opened FlowTypes
  import opened RecordWalk
  import opened TemplateCache
  import opened FlowRecords
  import opened FlowDecode
  import Agg = Aggregator
  import Ipfix = IpfixTemplates
  import V9 = V9Templates
  import SFlow

  // ------------------------------------------------------------- one record

  /** An address by its width and value. */
  function Address(a: Addr): Agg.Addr {
    Agg.Addr(8 * |a|, Value(a))
  }

  lemma {:induction false} ValueIsInjective(a: bytes, b: bytes)
    requires |a| == |b| && Value(a) == Value(b)
    ensures a == b
  {
    if a != [] {
      var n := |a| - 1;
      assert Value(a[..n]) * 0x100 + a[n] == Value(b[..n]) * 0x100 + b[n];
      ValueIsInjective(a[..n], b[..n]);
      assert a == a[..n] + [a[n]] && b == b[..n] + [b[n]];
    }
  }

  /** Different addresses stay different to the aggregator. */
  lemma AddressesStayApart(a: Addr, b: Addr)
    ensures Address(a) == Address(b) <==> a == b
  {
    if Address(a) == Address(b) {
      ValueIsInjective(a, b);
    }
  }

  predicate HasEnds(r: FlowRecord) {
    r.srcAddr.Some? && r.dstAddr.Some?
  }

  function FromExport(r: FlowRecord): Agg.Record
    requires HasEnds(r)
  {
    Agg.Record(r.inputIf, r.outputIf, Address(r.srcAddr.value), Address(r.dstAddr.value), r.srcPort, r.dstPort,
               r.protocol, r.tos, r.srcAS, r.dstAS, r.srcMask, r.dstMask, r.tcpFlags, r.octets, r.packets, r.sampled)
  }

  function FromSample(r: SFlow.Record): Agg.Record {
    var f := r.fields;
    Agg.Record(f.inputIf, f.outputIf, Address(f.src), Address(f.dst), f.srcPort, f.dstPort,
               f.protocol, f.tos, f.srcAs, f.dstAs, f.srcMask, f.dstMask, f.tcpFlags, r.bytes, r.packets, r.sampled)
  }

  function FromExports(records: seq<FlowRecord>): (converted: seq<Agg.Record>)
    requires forall i :: 0 <= i < |records| ==> HasEnds(records[i])
    ensures |converted| == |records|
    ensures forall i :: 0 <= i < |records| ==> converted[i] == FromExport(records[i])
  {
    seq(|records|, i requires 0 <= i < |records| => FromExport(records[i]))
  }

  function FromSamples(records: seq<SFlow.Record>): (converted: seq<Agg.Record>)
    ensures |converted| == |records|
    ensures forall i :: 0 <= i < |records| ==> converted[i] == FromSample(records[i])
  {
    seq(|records|, i requires 0 <= i < |records| => FromSample(records[i]))
  }

  // ------------------------------------------------------------ adding up parts

  function Gathered<T, U>(part: T -> seq<U>, xs: seq<T>): seq<U> {
    if xs == [] then [] else Gathered(part, xs[..|xs| - 1]) + part(xs[|xs| - 1])
  }

  function Summed<T>(worth: T -> nat, xs: seq<T>): nat {
    if xs == [] then 0 else Summed(worth, xs[..|xs| - 1]) + worth(xs[|xs| - 1])
  }

  lemma {:induction false} GatheredJoins<T, U>(part: T -> seq<U>, a: seq<T>, b: seq<T>)
    ensures Gathered(part, a + b) == Gathered(part, a) + Gathered(part, b)
  {
    if b == [] {
      assert a + b == a;
    } else {
      var n := |b| - 1;
      GatheredJoins(part, a, b[..n]);
      assert (a + b)[..|a + b| - 1] == a + b[..n];
    }
  }

  /** Gathering from what was gathered is gathering in one go. */
  lemma {:induction false} GatheredTwice<T(!new), U, V>(part: T -> seq<U>, next: U -> seq<V>, both: T -> seq<V>, xs: seq<T>)
    requires forall x :: both(x) == Gathered(next, part(x))
    ensures Gathered(next, Gathered(part, xs)) == Gathered(both, xs)
  {
    if xs != [] {
      var n := |xs| - 1;
      GatheredTwice(part, next, both, xs[..n]);
      GatheredJoins(next, Gathered(part, xs[..n]), part(xs[n]));
    }
  }

  /** Equal modulo 2^64 stays equal when something is added, wrapped or not. */
  lemma SameSum(x: nat, y: nat, more: nat)
    requires Wrap64(x) == Wrap64(y)
    ensures Wrap64(x + Wrap64(more)) == Wrap64(y + more)
    ensures Wrap64(x + more) == Wrap64(y + more)
  {
    WrapSum(x, more);
    WrapSum(y, more);
    WrapSum(x, Wrap64(more));
  }

  lemma {:induction false} AttributedJoins(a: seq<Agg.Record>, b: seq<Agg.Record>, ifIndex: nat)
    ensures Agg.AttributedRecords(a + b, ifIndex) == Agg.AttributedRecords(a, ifIndex) + Agg.AttributedRecords(b, ifIndex)
  {
    if b == [] {
      assert a + b == a;
    } else {
      AttributedJoins(a, b[..|b| - 1], ifIndex);
      assert (a + b)[..|a + b| - 1] == a + b[..|b| - 1];
    }
  }

  lemma OneRecord(r: Agg.Record, ifIndex: nat)
    ensures Agg.AttributedRecords([r], ifIndex) == if Agg.Interface(r) == ifIndex then r.bytes else 0
  {
    assert [r][..0] == [];
  }

  ghost predicate IsWorth<T(!new)>(part: T -> seq<Agg.Record>, worth: T -> nat, ifIndex: nat) {
    forall x :: Wrap64(Agg.AttributedRecords(part(x), ifIndex)) == Wrap64(worth(x))
  }

  /** Records carry what their parts are worth, modulo 2^64. */
  lemma {:induction false} PartsAddUp<T(!new)>(part: T -> seq<Agg.Record>, worth: T -> nat, xs: seq<T>, ifIndex: nat)
    requires IsWorth(part, worth, ifIndex)
    ensures Wrap64(Agg.AttributedRecords(Gathered(part, xs), ifIndex)) == Wrap64(Summed(worth, xs))
  {
    if xs != [] {
      var n := |xs| - 1;
      var before, own := Gathered(part, xs[..n]), part(xs[n]);
      PartsAddUp(part, worth, xs[..n], ifIndex);
      AttributedJoins(before, own, ifIndex);
      SumsAgree(Agg.AttributedRecords(before, ifIndex), Summed(worth, xs[..n]), Agg.AttributedRecords(own, ifIndex), worth(xs[n]));
    }
  }

  lemma SumsAgree(x: nat, y: nat, more: nat, more': nat)
    requires Wrap64(x) == Wrap64(y) && Wrap64(more) == Wrap64(more')
    ensures Wrap64(x + more) == Wrap64(y + more')
  {
    SameSum(x, y, more);
    SameSum(more, more', y);
  }

  // ------------------------------------------------------- what rows are worth

  /** One row of a data set, under the layout it was read with. */
  datatype Row = Row(fields: seq<Field>, vals: Values)

  function RowsOf(fields: seq<Field>, vals: seq<Values>): (rows: seq<Row>)
    ensures |rows| == |vals| && forall i :: 0 <= i < |vals| ==> rows[i] == Row(fields, vals[i])
  {
    seq(|vals|, i requires 0 <= i < |vals| => Row(fields, vals[i]))
  }

  /** The flow a row describes; a row without two addresses describes none. */
  function FlowOf(r: Row): seq<FlowRecord> {
    var flow := if |r.vals| == |r.fields| then Decoded(r.fields, r.vals) else None;
    if flow.Some? then [flow.value] else []
  }

  /** The interface a row is counted on: the ingress one where there is one. */
  function RowInterface(fields: seq<Field>, vals: Values): nat
    requires |fields| == |vals|
  {
    var r := Described(fields, vals);
    if r.inputIf != 0 then r.inputIf else r.outputIf
  }

  /** A row's own octets times the one rate that applies to it, without bound, if it is a flow of this interface. */
  function Worth(r: Row, announced: uint32, ifIndex: nat): nat {
    if |r.vals| == |r.fields| && Decoded(r.fields, r.vals).Some? && RowInterface(r.fields, r.vals) == ifIndex
    then Sum(r.fields, r.vals, OCTETS) * Rate(r.fields, r.vals, announced) else 0
  }

  function Worths(announced: uint32, ifIndex: nat): Row -> nat {
    (r: Row) => Worth(r, announced, ifIndex)
  }

  /** What the rows of one layout are worth on one interface. */
  function RowsBytes(fields: seq<Field>, vals: seq<Values>, announced: uint32, ifIndex: nat): nat {
    Summed(Worths(announced, ifIndex), RowsOf(fields, vals))
  }

  // ----------------------------------------------------- what rows are counted as

  /** A flow sampled by an interval, as the aggregator takes it. */
  function FromFlow(r: FlowRecord, announced: uint32): seq<Agg.Record> {
    var s := Sampled(r, announced);
    if HasEnds(s) then [FromExport(s)] else []
  }

  function Taking(announced: uint32): FlowRecord -> seq<Agg.Record> {
    (r: FlowRecord) => FromFlow(r, announced)
  }

  function Handing(announced: uint32): Row -> seq<Agg.Record> {
    (r: Row) => Gathered(Taking(announced), FlowOf(r))
  }

  lemma OneFlow(f: FlowRecord, announced: uint32)
    ensures Gathered(Taking(announced), [f]) == FromFlow(f, announced)
  {
    assert [f][..0] == [] && Gathered(Taking(announced), []) == [];
    assert [] + FromFlow(f, announced) == FromFlow(f, announced);
  }

  lemma RowIsCounted(r: Row, announced: uint32, ifIndex: nat)
    ensures Wrap64(Agg.AttributedRecords(Gathered(Taking(announced), FlowOf(r)), ifIndex)) == Wrap64(Worth(r, announced, ifIndex))
  {
    if FlowOf(r) != [] {
      RowFlowIsCounted(r, FlowOf(r)[0], announced, ifIndex);
      OneFlow(FlowOf(r)[0], announced);
    } else {
      assert Gathered(Taking(announced), []) == [];
    }
  }

  lemma RowFlowIsCounted(r: Row, f: FlowRecord, announced: uint32, ifIndex: nat)
    requires FlowOf(r) == [f]
    ensures Wrap64(Agg.AttributedRecords(FromFlow(f, announced), ifIndex)) == Wrap64(Worth(r, announced, ifIndex))
  {
    FlowIsCounted(r.fields, r.vals, announced);
    OneRecord(FromExport(Sampled(f, announced)), ifIndex);
  }

  lemma FlowIsCounted(fields: seq<Field>, vals: Values, announced: uint32)
    requires |fields| == |vals| && Decoded(fields, vals).Some?
    ensures var s := Sampled(Decoded(fields, vals).value, announced);
            && HasEnds(s) && Agg.Interface(FromExport(s)) == RowInterface(fields, vals)
            && FromExport(s).bytes == Wrap64(Sum(fields, vals, OCTETS) * Rate(fields, vals, announced))
  {
    ScaledExactlyOnce(fields, vals, announced);
  }

  /** The records decoded from rows carry, interface by interface, what the rows are worth modulo 2^64. */
  lemma RowsAreCounted(rows: seq<Row>, announced: uint32, ifIndex: nat)
    ensures Wrap64(Agg.AttributedRecords(Gathered(Taking(announced), Gathered(FlowOf, rows)), ifIndex))
         == Wrap64(Summed(Worths(announced, ifIndex), rows))
  {
    forall r: Row
      ensures Wrap64(Agg.AttributedRecords(Handing(announced)(r), ifIndex)) == Wrap64(Worths(announced, ifIndex)(r))
    {
      RowIsCounted(r, announced, ifIndex);
    }
    GatheredTwice(FlowOf, Taking(announced), Handing(announced), rows);
    PartsAddUp(Handing(announced), Worths(announced, ifIndex), rows, ifIndex);
  }

  // --------------------------------------------------------------- one message

  lemma {:induction false} FlowsAreGathered(t: Template, vals: seq<Values>)
    ensures Flows(t, vals) == Gathered(FlowOf, RowsOf(t.fields, vals))
  {
    if vals != [] {
      var n := |vals| - 1;
      FlowsAreGathered(t, vals[..n]);
      assert RowsOf(t.fields, vals)[..n] == RowsOf(t.fields, vals[..n]);
    }
  }

  /** The flow rows of a message's data sets, each set read with the template known when it is reached. */
  function RowsRead(k: Known, c: Context, sets: seq<FlowSet>): seq<Row>
    decreases |sets|
  {
    if sets == [] then []
    else RowsIn(k, c, sets[0]) + RowsRead(Absorb(k, c, sets[0]), c, sets[1..])
  }

  function RowsIn(k: Known, c: Context, s: FlowSet): seq<Row> {
    var t := Found(k, c, s).1;
    if s.id >= MIN_DATA_ID && t.Some? && !t.value.IsOptions() then RowsOf(t.value.fields, Records(s.body, t.value)) else []
  }

  lemma YieldIsGathered(k: Known, c: Context, s: FlowSet)
    ensures Yield(k, c, s) == Gathered(FlowOf, RowsIn(k, c, s))
  {
    var t := Found(k, c, s).1;
    if s.id >= MIN_DATA_ID && t.Some? && !t.value.IsOptions() {
      FlowsAreGathered(t.value, Records(s.body, t.value));
    }
  }

  lemma {:induction false} YieldsAreGathered(k: Known, c: Context, sets: seq<FlowSet>)
    ensures Yields(k, c, sets) == Gathered(FlowOf, RowsRead(k, c, sets))
    decreases |sets|
  {
    if sets != [] {
      YieldIsGathered(k, c, sets[0]);
      YieldsAreGathered(Absorb(k, c, sets[0]), c, sets[1..]);
      GatheredJoins(FlowOf, RowsIn(k, c, sets[0]), RowsRead(Absorb(k, c, sets[0]), c, sets[1..]));
    }
  }

  predicate AllHaveEnds(flows: seq<FlowRecord>) {
    forall i :: 0 <= i < |flows| ==> HasEnds(flows[i])
  }

  lemma {:induction false} GatheredHaveEnds(rows: seq<Row>)
    ensures AllHaveEnds(Gathered(FlowOf, rows))
  {
    if rows != [] {
      GatheredHaveEnds(rows[..|rows| - 1]);
    }
  }

  lemma {:induction false} TakingIsConverting(flows: seq<FlowRecord>, announced: uint32)
    requires AllHaveEnds(flows)
    ensures AllHaveEnds(AllSampled(flows, announced))
    ensures FromExports(AllSampled(flows, announced)) == Gathered(Taking(announced), flows)
  {
    SamplingKeepsEnds(flows, announced);
    if flows != [] {
      var n := |flows| - 1;
      TakingIsConverting(flows[..n], announced);
      assert AllSampled(flows, announced) == AllSampled(flows[..n], announced) + [Sampled(flows[n], announced)];
      assert FromExports(AllSampled(flows, announced))
          == FromExports(AllSampled(flows[..n], announced)) + [FromExport(Sampled(flows[n], announced))];
    }
  }

  lemma SamplingKeepsEnds(flows: seq<FlowRecord>, announced: uint32)
    requires AllHaveEnds(flows)
    ensures AllHaveEnds(AllSampled(flows, announced))
  {
    forall i | 0 <= i < |flows|
      ensures HasEnds(AllSampled(flows, announced)[i])
    {
      assert HasEnds(flows[i]);
    }
  }

  /** The sets of a message that is framed to its end; none otherwise. */
  function SetsOf(b: bytes, version: uint16): Option<seq<FlowSet>> {
    var span := Span(b, version);
    if span.None? then None
    else
      var framed := Frame(b[..span.value], FlowDecode.HeaderLen(version));
      if framed.sound then Some(framed.sets) else None
  }

  /** What a message is worth on one interface: its flow rows, sampled by the interval known at its end. */
  function MessageWorth(b: bytes, version: uint16, from: Addr, k: Known, now: int, ttl: int, max: int, ifIndex: nat): nat {
    var sets := SetsOf(b, version);
    if sets.None? then 0
    else
      var c := ContextOf(b, version, from, now, ttl, max);
      Summed(Worths(IntervalOf(KnownAfter(k, c, sets.value), c), ifIndex), RowsRead(k, c, sets.value))
  }

  lemma MessageIsCounted(b: bytes, version: uint16, from: Addr, k: Known, now: int, ttl: int, max: int, ifIndex: nat)
    ensures var m := DecodeMessage(b, version, from, k, now, ttl, max).1;
            && (m.Packet? <==> SetsOf(b, version).Some?)
            && (m.Packet? ==>
                  AllHaveEnds(m.records)
                  && Wrap64(Agg.AttributedRecords(FromExports(m.records), ifIndex))
                     == Wrap64(MessageWorth(b, version, from, k, now, ttl, max, ifIndex)))
  {
    var sets := SetsOf(b, version);
    if sets.Some? {
      var c := ContextOf(b, version, from, now, ttl, max);
      var announced := IntervalOf(KnownAfter(k, c, sets.value), c);
      var rows := RowsRead(k, c, sets.value);
      YieldsAreGathered(k, c, sets.value);
      GatheredHaveEnds(rows);
      TakingIsConverting(Gathered(FlowOf, rows), announced);
      RowsAreCounted(rows, announced, ifIndex);
    }
  }

  // ------------------------------------------------------------------- sFlow

  /** What the samples of one interface are worth, each decoded on its own. */
  function SamplesBytes(h: SFlow.HeaderParser, frames: seq<SFlow.Frame>, ifIndex: nat): nat {
    if frames == [] then 0
    else Agg.AttributedRecords(FromSamples(SFlow.OfFrame(h, frames[0])), ifIndex) + SamplesBytes(h, frames[1..], ifIndex)
  }

  lemma AttributedSamples(own: seq<SFlow.Record>, rest: seq<SFlow.Record>, ifIndex: nat)
    ensures Agg.AttributedRecords(FromSamples(own + rest), ifIndex)
         == Agg.AttributedRecords(FromSamples(own), ifIndex) + Agg.AttributedRecords(FromSamples(rest), ifIndex)
  {
    assert FromSamples(own + rest) == FromSamples(own) + FromSamples(rest);
    AttributedJoins(FromSamples(own), FromSamples(rest), ifIndex);
  }

  lemma {:induction false} SamplesAreAttributed(h: SFlow.HeaderParser, frames: seq<SFlow.Frame>, ifIndex: nat)
    ensures Agg.AttributedRecords(FromSamples(SFlow.OfFrames(h, frames)), ifIndex) == SamplesBytes(h, frames, ifIndex)
  {
    if frames == [] {
      assert FromSamples([]) == [];
    } else {
      SamplesAreAttributed(h, frames[1..], ifIndex);
      AttributedSamples(SFlow.OfFrame(h, frames[0]), SFlow.OfFrames(h, frames[1..]), ifIndex);
    }
  }

  // -------------------------------------------------------------- the collector

  /** A datagram as it arrives, its sender's address unmapped. */
  datatype Datagram = Datagram(b: bytes, from: Addr, now: int)

  /**
   What reading any datagram needs: the parser of sampled headers, the decoder of
   NetFlow v5, how addresses are written, and the cache's limits.
   */
  datatype Setup = Setup(h: SFlow.HeaderParser, v5: bytes -> Option<seq<Agg.Record>>, text: Addr -> string, ttl: int, max: int)

  /** The decoder a datagram goes to, by its first bytes; zero is sFlow. */
  function FormatOf(b: bytes): Option<uint16> {
    if |b| < 2 then None
    else if U16(b, 0) in {5, 9, 10} then Some(U16(b, 0))
    else if U16(b, 0) == 0 && |b| >= 4 && U32(b, 0) == SFlow.VERSION then Some(0)
    else None
  }

  /** What a datagram hands to the aggregator: nothing when it does not decode. */
  function Accepted(u: Setup, k: Known, d: Datagram): (Known, Option<seq<Agg.Record>>) {
    var format := FormatOf(d.b);
    if format.None? then (k, None)
    else if format.value == 0 then
      var result := SFlow.Decode(u.h, d.b);
      (k, if result.Ok? then Some(FromSamples(result.records)) else None)
    else if format.value == 5 then (k, u.v5(d.b))
    else
      var (k', m) := DecodeMessage(d.b, format.value, d.from, k, d.now, u.ttl, u.max);
      MessageIsCounted(d.b, format.value, d.from, k, d.now, u.ttl, u.max, 0);
      (k', if m.Packet? then Some(FromExports(m.records)) else None)
  }

  /** What a datagram is worth on one interface, given what is known when it arrives. */
  function DatagramWorth(u: Setup, k: Known, d: Datagram, ifIndex: nat): nat {
    var format := FormatOf(d.b);
    if format.None? then 0
    else if format.value == 0 then
      var frames := SFlow.FramesOf(d.b);
      if frames.None? then 0 else SamplesBytes(u.h, frames.value, ifIndex)
    else if format.value == 5 then
      var records := u.v5(d.b);
      if records.None? then 0 else Agg.AttributedRecords(records.value, ifIndex)
    else MessageWorth(d.b, format.value, d.from, k, d.now, u.ttl, u.max, ifIndex)
  }

  function Accepting(u: Setup): (Known, Datagram) -> (Known, Option<seq<Agg.Record>>) {
    (k: Known, d: Datagram) => Accepted(u, k, d)
  }

  function DatagramWorths(u: Setup, ifIndex: nat): (Known, Datagram) -> nat {
    (k: Known, d: Datagram) => DatagramWorth(u, k, d, ifIndex)
  }

  function KnownAfterAll(accept: (Known, Datagram) -> (Known, Option<seq<Agg.Record>>), k: Known, ds: seq<Datagram>): Known {
    if ds == [] then k else accept(KnownAfterAll(accept, k, ds[..|ds| - 1]), ds[|ds| - 1]).0
  }

  function PacketsBy(accept: (Known, Datagram) -> (Known, Option<seq<Agg.Record>>), text: Addr -> string, k: Known, ds: seq<Datagram>): seq<Agg.Packet> {
    if ds == [] then []
    else
      var n := |ds| - 1;
      var records := accept(KnownAfterAll(accept, k, ds[..n]), ds[n]).1;
      PacketsBy(accept, text, k, ds[..n]) + (if records.Some? then [Agg.Packet(text(ds[n].from), records.value)] else [])
  }

  function WorthBy(accept: (Known, Datagram) -> (Known, Option<seq<Agg.Record>>), worth: (Known, Datagram) -> nat, text: Addr -> string,
      k: Known, ds: seq<Datagram>, exporter: string): nat
  {
    if ds == [] then 0
    else
      var n := |ds| - 1;
      WorthBy(accept, worth, text, k, ds[..n], exporter)
      + (if text(ds[n].from) == exporter then worth(KnownAfterAll(accept, k, ds[..n]), ds[n]) else 0)
  }

  /** The packets a run of datagrams gives the aggregator, each decoded with what the earlier ones taught. */
  function PacketsOf(u: Setup, k: Known, ds: seq<Datagram>): seq<Agg.Packet> {
    PacketsBy(Accepting(u), u.text, k, ds)
  }

  /** What a run of datagrams is worth to one exporter's interface. */
  function RunWorth(u: Setup, k: Known, ds: seq<Datagram>, exporter: string, ifIndex: nat): nat {
    WorthBy(Accepting(u), DatagramWorths(u, ifIndex), u.text, k, ds, exporter)
  }

  lemma DatagramIsCounted(u: Setup, k: Known, d: Datagram, ifIndex: nat)
    ensures var records := Accepted(u, k, d).1;
            Wrap64(if records.Some? then Agg.AttributedRecords(records.value, ifIndex) else 0) == Wrap64(DatagramWorth(u, k, d, ifIndex))
  {
    var format := FormatOf(d.b);
    if format.Some? {
      if format.value == 0 {
        SFlow.DecodingIsOfFrames(u.h, d.b);
        if SFlow.FramesOf(d.b).Some? {
          SamplesAreAttributed(u.h, SFlow.FramesOf(d.b).value, ifIndex);
        }
      } else if format.value != 5 {
        MessageIsCounted(d.b, format.value, d.from, k, d.now, u.ttl, u.max, ifIndex);
      }
    }
  }

  lemma AttributedOneMore(packets: seq<Agg.Packet>, p: Agg.Packet, exporter: string, ifIndex: nat)
    ensures Agg.Attributed(packets + [p], exporter, ifIndex)
         == Agg.Attributed(packets, exporter, ifIndex)
            + (if p.exporter == exporter then Agg.AttributedRecords(p.records, ifIndex) else 0)
  {
    assert (packets + [p])[..|packets|] == packets;
  }

  ghost predicate CountsAs(accept: (Known, Datagram) -> (Known, Option<seq<Agg.Record>>), worth: (Known, Datagram) -> nat, ifIndex: nat) {
    forall k, d ::
      var records := accept(k, d).1;
      Wrap64(if records.Some? then Agg.AttributedRecords(records.value, ifIndex) else 0) == Wrap64(worth(k, d))
  }

  lemma {:induction false} RunAddsUp(accept: (Known, Datagram) -> (Known, Option<seq<Agg.Record>>), worth: (Known, Datagram) -> nat,
      text: Addr -> string, k: Known, ds: seq<Datagram>, exporter: string, ifIndex: nat)
    requires CountsAs(accept, worth, ifIndex)
    ensures Wrap64(Agg.Attributed(PacketsBy(accept, text, k, ds), exporter, ifIndex))
         == Wrap64(WorthBy(accept, worth, text, k, ds, exporter))
  {
    if ds != [] {
      var n := |ds| - 1;
      var known := KnownAfterAll(accept, k, ds[..n]);
      RunAddsUp(accept, worth, text, k, ds[..n], exporter, ifIndex);
      OneMoreDatagram(PacketsBy(accept, text, k, ds[..n]), text(ds[n].from), accept(known, ds[n]).1,
                      WorthBy(accept, worth, text, k, ds[..n], exporter), worth(known, ds[n]), exporter, ifIndex);
    }
  }

  lemma RunIsAttributed(u: Setup, k: Known, ds: seq<Datagram>, exporter: string, ifIndex: nat)
    ensures Wrap64(Agg.Attributed(PacketsOf(u, k, ds), exporter, ifIndex)) == Wrap64(RunWorth(u, k, ds, exporter, ifIndex))
  {
    var accept, worth := Accepting(u), DatagramWorths(u, ifIndex);
    forall k, d
      ensures var records := accept(k, d).1;
              Wrap64(if records.Some? then Agg.AttributedRecords(records.value, ifIndex) else 0) == Wrap64(worth(k, d))
    {
      DatagramIsCounted(u, k, d, ifIndex);
    }
    RunAddsUp(accept, worth, u.text, k, ds, exporter, ifIndex);
  }

  lemma OneMoreDatagram(before: seq<Agg.Packet>, from: string, records: Option<seq<Agg.Record>>, worth: nat, own: nat,
      exporter: string, ifIndex: nat)
    requires Wrap64(Agg.Attributed(before, exporter, ifIndex)) == Wrap64(worth)
    requires Wrap64(if records.Some? then Agg.AttributedRecords(records.value, ifIndex) else 0) == Wrap64(own)
    ensures Wrap64(Agg.Attributed(before + (if records.Some? then [Agg.Packet(from, records.value)] else []), exporter, ifIndex))
         == Wrap64(worth + (if from == exporter then own else 0))
  {
    var own' := if records.Some? then Agg.AttributedRecords(records.value, ifIndex) else 0;
    SumsAgree(Agg.Attributed(before, exporter, ifIndex), worth, own', own);
    if records.Some? {
      AttributedOneMore(before, Agg.Packet(from, records.value), exporter, ifIndex);
    } else {
      assert before + [] == before;
    }
  }

  /**
   Over any run of datagrams between two drains, of any formats, well formed or
   not, from any exporters and whatever templates were known before: at any cap,
   for every interface of an exporter the conversation, application, protocol
   and DSCP buckets each add up to what its datagrams are worth on that
   interface, and the talkers to twice that, modulo 2^64.
   */
  lemma RunIsCounted(u: Setup, k: Known, ds: seq<Datagram>, names: Agg.Names, cap: int, g: Agg.Group)
    requires Agg.TakesEveryRecord(g.dim) && g.ifIndex != 0
    ensures Wrap64(Agg.GroupBytes(Agg.Fold(cap, Agg.OfPackets(names, PacketsOf(u, k, ds))).counts, g))
         == Wrap64(Agg.Taken(g.dim, RunWorth(u, k, ds, g.exporter, g.ifIndex)))
  {
    Agg.TotalsAreHonest(names, cap, PacketsOf(u, k, ds), g);
    RunIsAttributed(u, k, ds, g.exporter, g.ifIndex);
    TakenAgrees(g.dim, Agg.Attributed(PacketsOf(u, k, ds), g.exporter, g.ifIndex), RunWorth(u, k, ds, g.exporter, g.ifIndex));
  }

  lemma TakenAgrees(dim: Agg.Dimension, x: nat, y: nat)
    requires Wrap64(x) == Wrap64(y)
    ensures Wrap64(Agg.Taken(dim, x)) == Wrap64(Agg.Taken(dim, y))
  {
    SumsAgree(x, y, x, y);
  }

  // --------------------------------------------------------- encoded datagrams

  /** The rows of two sets where the second holds records of the layout the first announced. */
  lemma AnnouncedRowsAreRead(k: Known, c: Context, first: FlowSet, t: Template, id: uint16, rows: seq<seq<Cell>>, pad: bytes)
    requires first.id < MIN_DATA_ID <= id && Indexable(t) && !t.IsOptions()
    requires GetBounded(Absorb(k, c, first).templates, KeyFor(c.scope, id), c.now, c.ttl).1 == Some(t)
    requires (forall i :: 0 <= i < |rows| ==> RecordFits(rows[i], t.fields)) && |pad| < MinWidth(t.fields)
    ensures RowsRead(k, c, [first, FlowSet(id, EncodeRecords(rows, t.fields) + pad)]) == RowsOf(t.fields, AllData(rows))
  {
    var second := FlowSet(id, EncodeRecords(rows, t.fields) + pad);
    DecodingUndoesEncoding(rows, t, pad);
    var k' := Absorb(k, c, first);
    assert Found(k', c, second).1 == Some(t);
    assert [first, second][1..] == [second] && [second][1..] == [];
    assert RowsRead(k', c, [second]) == RowsIn(k', c, second) + [];
  }

  /** What an IPFIX message of templates and data is worth: the rows encoded. */
  lemma IpfixIsWorth(b: bytes, from: Addr, k: Known, now: int, ttl: int, max: int,
      records: seq<Ipfix.TemplateRecord>, pad: bytes, id: uint16, rows: seq<seq<Cell>>, pad': bytes, end: bytes, ifIndex: nat)
    requires Span(b, 10).Some? && ttl > 0 && id >= MIN_DATA_ID && |k.templates| + |records| <= max
    requires forall i :: 0 <= i < |records| ==> Ipfix.Encodable(records[i], false)
    requires |pad| < Ipfix.HeaderLen(false) && |end| < SET_HEADER
    requires Latest(Ipfix.Learned(records), id).Some?
    requires var t := Latest(Ipfix.Learned(records), id).value;
             (forall i :: 0 <= i < |rows| ==> RecordFits(rows[i], t.fields)) && |pad'| < MinWidth(t.fields)
    requires var sets := IpfixSets(records, pad, id, rows, pad');
             && (forall i :: 0 <= i < |sets| ==> Framable(sets[i]))
             && b[FlowDecode.HeaderLen(10)..Span(b, 10).value] == EncodeFlowSets(sets) + end
    ensures var fields := Latest(Ipfix.Learned(records), id).value.fields;
            var announced := IntervalOf(k, ContextOf(b, 10, from, now, ttl, max));
            MessageWorth(b, 10, from, k, now, ttl, max, ifIndex) == RowsBytes(fields, AllData(rows), announced, ifIndex)
  {
    var c := ContextOf(b, 10, from, now, ttl, max);
    MessageFrames(b, 10, IpfixSets(records, pad, id, rows, pad'), end);
    TemplateThenData(k, c, records, pad, id, rows, pad');
    IpfixAnnounces(k, c, records, pad, id);
    AnnouncedRowsAreRead(k, c, FlowSet(2, Ipfix.EncodeSet(records, false) + pad), Latest(Ipfix.Learned(records), id).value, id, rows, pad');
  }

  /** The same for a v9 datagram. */
  lemma V9IsWorth(b: bytes, from: Addr, k: Known, now: int, ttl: int, max: int,
      defs: seq<V9.Definition>, pad: bytes, id: uint16, rows: seq<seq<Cell>>, pad': bytes, end: bytes, ifIndex: nat)
    requires Span(b, 9).Some? && ttl > 0 && id >= MIN_DATA_ID && |k.templates| + |defs| <= max
    requires forall i :: 0 <= i < |defs| ==> V9.Encodable(defs[i], false)
    requires |pad| < V9.HeaderLen(false) && |end| < SET_HEADER
    requires Latest(V9.Learned(defs, false), id).Some?
    requires var t := Latest(V9.Learned(defs, false), id).value;
             && (forall i :: 0 <= i < |t.fields| ==> !t.fields[i].Variable())
             && (forall i :: 0 <= i < |rows| ==> RecordFits(rows[i], t.fields)) && |pad'| < MinWidth(t.fields)
    requires var sets := V9Sets(defs, pad, id, rows, pad');
             && (forall i :: 0 <= i < |sets| ==> Framable(sets[i]))
             && b[FlowDecode.HeaderLen(9)..Span(b, 9).value] == EncodeFlowSets(sets) + end
    ensures var fields := Latest(V9.Learned(defs, false), id).value.fields;
            var announced := IntervalOf(k, ContextOf(b, 9, from, now, ttl, max));
            MessageWorth(b, 9, from, k, now, ttl, max, ifIndex) == RowsBytes(fields, AllData(rows), announced, ifIndex)
  {
    var c := ContextOf(b, 9, from, now, ttl, max);
    MessageFrames(b, 9, V9Sets(defs, pad, id, rows, pad'), end);
    V9TemplateThenData(k, c, defs, pad, id, rows, pad');
    V9Announces(k, c, defs, pad, id);
    AnnouncedRowsAreRead(k, c, FlowSet(0, V9.EncodeSet(defs, false) + pad), Latest(V9.Learned(defs, false), id).value, id, rows, pad');
  }

  // ------------------------------------------------------- one datagram alone

  /** What a decoded message hands to the aggregator. */
  function AsPacket(exporter: string, m: Message): Agg.Packet
    requires m.Packet? && forall i :: 0 <= i < |m.records| ==> HasEnds(m.records[i])
  {
    Agg.Packet(exporter, FromExports(m.records))
  }

  lemma PacketReachesBuckets(names: Agg.Names, max: int, p: Agg.Packet, worth: nat, g: Agg.Group)
    requires Agg.TakesEveryRecord(g.dim) && g.ifIndex != 0 && g.exporter == p.exporter
    requires Wrap64(Agg.AttributedRecords(p.records, g.ifIndex)) == Wrap64(worth)
    ensures Wrap64(Agg.GroupBytes(Agg.Fold(max, Agg.OfPackets(names, [p])).counts, g)) == Wrap64(Agg.Taken(g.dim, worth))
  {
    Agg.TotalsAreHonest(names, max, [p], g);
    assert [p][..0] == [] && Agg.Attributed([], p.exporter, g.ifIndex) == 0;
    var counted := Agg.AttributedRecords(p.records, g.ifIndex);
    assert Agg.Attributed([p], p.exporter, g.ifIndex) == counted;
    SameSum(counted, worth, counted);
    SameSum(counted, worth, worth);
  }

  lemma RowsReachBuckets(names: Agg.Names, max: int, exporter: string, t: Template, rows: seq<Values>, announced: uint32, g: Agg.Group)
    requires Agg.TakesEveryRecord(g.dim) && g.ifIndex != 0 && g.exporter == exporter
    ensures var m := Message.Packet(AllSampled(Flows(t, rows), announced), 0);
            && (forall i :: 0 <= i < |m.records| ==> HasEnds(m.records[i]))
            && Wrap64(Agg.GroupBytes(Agg.Fold(max, Agg.OfPackets(names, [AsPacket(exporter, m)])).counts, g))
               == Wrap64(Agg.Taken(g.dim, RowsBytes(t.fields, rows, announced, g.ifIndex)))
  {
    var flows := Flows(t, rows);
    FlowsAreGathered(t, rows);
    GatheredHaveEnds(RowsOf(t.fields, rows));
    TakingIsConverting(flows, announced);
    RowsAreCounted(RowsOf(t.fields, rows), announced, g.ifIndex);
    PacketReachesBuckets(names, max, Agg.Packet(exporter, FromExports(AllSampled(flows, announced))),
                         RowsBytes(t.fields, rows, announced, g.ifIndex), g);
  }

  /**
   From the bytes of an IPFIX message to the chart: however small the cap, for
   every interface the conversation, application, protocol and DSCP buckets each
   add up to the octets of the rows exported on it, each times its own rate, and
   the talkers to twice that, modulo 2^64.
   */
  lemma IpfixBytesAreCounted(b: bytes, from: Addr, k: Known, now: int, ttl: int, max: int,
      records: seq<Ipfix.TemplateRecord>, pad: bytes, id: uint16, rows: seq<seq<Cell>>, pad': bytes, end: bytes,
      names: Agg.Names, cap: int, exporter: string, g: Agg.Group)
    requires Span(b, 10).Some? && ttl > 0 && id >= MIN_DATA_ID && |k.templates| + |records| <= max
    requires forall i :: 0 <= i < |records| ==> Ipfix.Encodable(records[i], false)
    requires |pad| < Ipfix.HeaderLen(false) && |end| < SET_HEADER
    requires Latest(Ipfix.Learned(records), id).Some?
    requires var t := Latest(Ipfix.Learned(records), id).value;
             (forall i :: 0 <= i < |rows| ==> RecordFits(rows[i], t.fields)) && |pad'| < MinWidth(t.fields)
    requires var sets := IpfixSets(records, pad, id, rows, pad');
             && (forall i :: 0 <= i < |sets| ==> Framable(sets[i]))
             && b[FlowDecode.HeaderLen(10)..Span(b, 10).value] == EncodeFlowSets(sets) + end
    requires Agg.TakesEveryRecord(g.dim) && g.ifIndex != 0 && g.exporter == exporter
    ensures var m := DecodeMessage(b, 10, from, k, now, ttl, max).1;
            var fields := Latest(Ipfix.Learned(records), id).value.fields;
            var announced := IntervalOf(k, ContextOf(b, 10, from, now, ttl, max));
            && m.Packet? && (forall i :: 0 <= i < |m.records| ==> HasEnds(m.records[i]))
            && Wrap64(Agg.GroupBytes(Agg.Fold(cap, Agg.OfPackets(names, [AsPacket(exporter, m)])).counts, g))
               == Wrap64(Agg.Taken(g.dim, RowsBytes(fields, AllData(rows), announced, g.ifIndex)))
  {
    IpfixBytesAreFlows(b, from, k, now, ttl, max, records, pad, id, rows, pad', end);
    RowsReachBuckets(names, cap, exporter, Latest(Ipfix.Learned(records), id).value, AllData(rows),
                     IntervalOf(k, ContextOf(b, 10, from, now, ttl, max)), g);
  }

  /** The same for a NetFlow v9 datagram. */
  lemma V9BytesAreCounted(b: bytes, from: Addr, k: Known, now: int, ttl: int, max: int,
      defs: seq<V9.Definition>, pad: bytes, id: uint16, rows: seq<seq<Cell>>, pad': bytes, end: bytes,
      names: Agg.Names, cap: int, exporter: string, g: Agg.Group)
    requires Span(b, 9).Some? && ttl > 0 && id >= MIN_DATA_ID && |k.templates| + |defs| <= max
    requires forall i :: 0 <= i < |defs| ==> V9.Encodable(defs[i], false)
    requires |pad| < V9.HeaderLen(false) && |end| < SET_HEADER
    requires Latest(V9.Learned(defs, false), id).Some?
    requires var t := Latest(V9.Learned(defs, false), id).value;
             && (forall i :: 0 <= i < |t.fields| ==> !t.fields[i].Variable())
             && (forall i :: 0 <= i < |rows| ==> RecordFits(rows[i], t.fields)) && |pad'| < MinWidth(t.fields)
    requires var sets := V9Sets(defs, pad, id, rows, pad');
             && (forall i :: 0 <= i < |sets| ==> Framable(sets[i]))
             && b[FlowDecode.HeaderLen(9)..Span(b, 9).value] == EncodeFlowSets(sets) + end
    requires Agg.TakesEveryRecord(g.dim) && g.ifIndex != 0 && g.exporter == exporter
    ensures var m := DecodeMessage(b, 9, from, k, now, ttl, max).1;
            var fields := Latest(V9.Learned(defs, false), id).value.fields;
            var announced := IntervalOf(k, ContextOf(b, 9, from, now, ttl, max));
            && m.Packet? && (forall i :: 0 <= i < |m.records| ==> HasEnds(m.records[i]))
            && Wrap64(Agg.GroupBytes(Agg.Fold(cap, Agg.OfPackets(names, [AsPacket(exporter, m)])).counts, g))
               == Wrap64(Agg.Taken(g.dim, RowsBytes(fields, AllData(rows), announced, g.ifIndex)))
  {
    V9BytesAreFlows(b, from, k, now, ttl, max, defs, pad, id, rows, pad', end);
    RowsReachBuckets(names, cap, exporter, Latest(V9.Learned(defs, false), id).value, AllData(rows),
                     IntervalOf(k, ContextOf(b, 9, from, now, ttl, max)), g);
  }

  /**
   The same for an sFlow datagram: the buckets of an interface add up to its
   samples' scaled frame lengths, whatever the other samples are.
   */
  lemma SflowBytesAreCounted(h: SFlow.HeaderParser, agent: Addr, subAgent: uint32, sequence: uint32, uptime: uint32,
      frames: seq<SFlow.Frame>, lastPad: nat, names: Agg.Names, cap: int, exporter: string, g: Agg.Group)
    requires |agent| in {0, 4, 16} && |frames| <= SFlow.MAX_SAMPLES && SFlow.Encodable(frames) && SFlow.PadsLast(frames, lastPad)
    requires Agg.TakesEveryRecord(g.dim) && g.ifIndex != 0 && g.exporter == exporter
    ensures var head := SFlow.EncodeHead(agent, subAgent, sequence, uptime, |frames|, SFlow.EncodeFrames(frames, lastPad));
            var result := SFlow.Decode(h, PutU32(SFlow.VERSION) + head);
            && result.Ok?
            && Wrap64(Agg.GroupBytes(Agg.Fold(cap, Agg.OfPackets(names, [Agg.Packet(exporter, FromSamples(result.records))])).counts, g))
               == Wrap64(Agg.Taken(g.dim, SamplesBytes(h, frames, g.ifIndex)))
  {
    SFlow.DecodingIsPerSample(h, agent, subAgent, sequence, uptime, frames, lastPad);
    SamplesAreAttributed(h, frames, g.ifIndex);
    PacketReachesBuckets(names, cap, Agg.Packet(exporter, FromSamples(SFlow.OfFrames(h, frames))),
                         SamplesBytes(h, frames, g.ifIndex), g);
  }
}
