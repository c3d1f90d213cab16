/**
 Whole export messages, NetFlow v9 and IPFIX: a header, then sets framed by
 an identifier and a length. Decoding is a left fold over the sets; templates
 learned by one set are known to the sets after it.
 */
module FlowDecode {
  import opened Common
  import opened Wrap
  import opened Bytes
  import opened FlowTypes
  import opened RecordWalk
  import opened TemplateCache
  import opened FlowRecords
  import Ipfix = IpfixTemplates
  import V9 = V9Templates

  const MIN_DATA_ID: nat := 256
  const SET_HEADER: nat := 4

  /** What a collector remembers between messages. */
  datatype Known = Known(templates: Entries, announced: Entries, sampling: map<SamplingKey, uint32>)

  /** Whose message it is, when it arrived, and the cache's limits. */
  datatype Context = Context(scope: Scope, now: int, ttl: int, max: int) {
    function Sampling(): SamplingKey {
      SamplingKey(scope.exporter, scope.sourceId)
    }
  }

  datatype FlowSet = FlowSet(id: uint16, body: bytes)

  // ------------------------------------------------------- one set's effect

  function TemplatesId(version: uint16): uint16 {
    if version == 9 then 0 else 2
  }

  /** What a set announces: nothing, unless its identifier is a template one. */
  function NewsIn(version: uint16, s: FlowSet): seq<Announced> {
    if s.id != TemplatesId(version) && s.id != TemplatesId(version) + 1 then []
    else if version == 9 then V9.Parse(s.body, 0, s.id == TemplatesId(version) + 1)
    else Ipfix.ParseSet(s.body, 0, s.id == TemplatesId(version) + 1)
  }

  /** The template a data set is read with, and the cache after looking it up. */
  function Found(k: Known, c: Context, s: FlowSet): (Entries, Option<Template>) {
    GetBounded(k.templates, KeyFor(c.scope, s.id), c.now, c.ttl)
  }

  /** The last positive sampling interval in a list of options records. */
  function LastInterval(t: Template, rows: seq<Values>): Option<uint32> {
    if rows == [] then None
    else
      var row := rows[|rows| - 1];
      var own := if |row| == |t.fields| then IntervalIn(t.fields, row) else None;
      if own.Some? then own else LastInterval(t, rows[..|rows| - 1])
  }

  function IntervalIn(fields: seq<Field>, vals: Values): Option<uint32>
    requires |fields| == |vals|
    decreases |fields|
  {
    var n := |fields| - 1;
    if fields == [] then None
    else if Carries(fields[n], SAMPLING) && Wrap64(Value(vals[n])) > 0
    then Some(Narrow(Wrap64(Value(vals[n])), 0xFFFF_FFFF))
    else IntervalIn(fields[..n], vals[..n])
  }

  function WithInterval(m: map<SamplingKey, uint32>, key: SamplingKey, interval: Option<uint32>): map<SamplingKey, uint32> {
    if interval.Some? then m[key := interval.value] else m
  }

  /** What is known after a set. */
  function Absorb(k: Known, c: Context, s: FlowSet): Known {
    if s.id < MIN_DATA_ID then
      var news := NewsIn(c.scope.version, s);
      k.(templates := Learn(k.templates, c.scope, news, c.now, c.ttl, c.max),
         announced := LearnAll(k.announced, c.scope, news, c.now))
    else
      var (templates, t) := Found(k, c, s);
      if t.Some? && t.value.IsOptions() then
        k.(templates := templates,
           sampling := WithInterval(k.sampling, c.Sampling(), LastInterval(t.value, Records(s.body, t.value))))
      else k.(templates := templates)
  }

  function Flows(t: Template, rows: seq<Values>): seq<FlowRecord> {
    if rows == [] then []
    else
      var row := rows[|rows| - 1];
      var flow := if |row| == |t.fields| then Decoded(t.fields, row) else None;
      Flows(t, rows[..|rows| - 1]) + (if flow.Some? then [flow.value] else [])
  }

  /** The flow records a set carries, given what is known when it is reached. */
  function Yield(k: Known, c: Context, s: FlowSet): seq<FlowRecord> {
    var t := Found(k, c, s).1;
    if s.id >= MIN_DATA_ID && t.Some? && !t.value.IsOptions() then Flows(t.value, Records(s.body, t.value)) else []
  }

  /** Whether a set is data whose template is not known when it is reached. */
  predicate Waits(k: Known, c: Context, s: FlowSet) {
    s.id >= MIN_DATA_ID && Found(k, c, s).1.None?
  }

  // ------------------------------------------------------------ the fold

  function KnownAfter(k: Known, c: Context, sets: seq<FlowSet>): Known
    decreases |sets|
  {
    if sets == [] then k else KnownAfter(Absorb(k, c, sets[0]), c, sets[1..])
  }

  function Yields(k: Known, c: Context, sets: seq<FlowSet>): seq<FlowRecord>
    decreases |sets|
  {
    if sets == [] then [] else Yield(k, c, sets[0]) + Yields(Absorb(k, c, sets[0]), c, sets[1..])
  }

  function Awaiting(k: Known, c: Context, sets: seq<FlowSet>): nat
    decreases |sets|
  {
    if sets == [] then 0
    else (if Waits(k, c, sets[0]) then 1 else 0) + Awaiting(Absorb(k, c, sets[0]), c, sets[1..])
  }

  // ------------------------------------------------------------ the framing

  /** The sets a buffer frames from `off`, and whether the framing holds to the end. */
  datatype Framed = Framed(sets: seq<FlowSet>, sound: bool)

  function Frame(b: bytes, off: nat): Framed
    requires off <= |b|
    decreases |b| - off
  {
    if off + SET_HEADER > |b| then Framed([], true)
    else
      var id, length := U16(b, off), U16(b, off + 2);
      if length < SET_HEADER || off + length > |b| then Framed([], false)
      else
        var rest := Frame(b, off + length);
        Framed([FlowSet(id, b[off + SET_HEADER..off + length])] + rest.sets, rest.sound)
  }

  predicate Framable(s: FlowSet) {
    SET_HEADER + |s.body| < 0x1_0000
  }

  ghost function EncodeFlowSet(s: FlowSet): bytes
    requires Framable(s)
  {
    PutU16(s.id) + PutU16(SET_HEADER + |s.body|) + s.body
  }

  ghost function EncodeFlowSets(sets: seq<FlowSet>): bytes
    requires forall i :: 0 <= i < |sets| ==> Framable(sets[i])
  {
    if sets == [] then [] else EncodeFlowSet(sets[0]) + EncodeFlowSets(sets[1..])
  }

  lemma OneSetFrames(b: bytes, off: nat, s: FlowSet)
    requires Framable(s) && At(b, off, EncodeFlowSet(s))
    ensures U16(b, off) == s.id && U16(b, off + 2) == SET_HEADER + |s.body|
    ensures b[off + SET_HEADER..off + SET_HEADER + |s.body|] == s.body
  {
    var id, length := PutU16(s.id), PutU16(SET_HEADER + |s.body|);
    AtSplits(b, off, id + length, s.body);
    AtSplits(b, off, id, length);
    WordsAt(b, off, id, 0);
    WordsAt(b, off + 2, length, 0);
  }

  lemma {:induction false} SetsFrame(b: bytes, off: nat, sets: seq<FlowSet>)
    requires forall i :: 0 <= i < |sets| ==> Framable(sets[i])
    requires At(b, off, EncodeFlowSets(sets)) && off <= |b|
    requires |b| < off + |EncodeFlowSets(sets)| + SET_HEADER
    ensures Frame(b, off) == Framed(sets, true)
    decreases |sets|
  {
    if sets != [] {
      var head, tail := EncodeFlowSet(sets[0]), EncodeFlowSets(sets[1..]);
      AtSplits(b, off, head, tail);
      OneSetFrames(b, off, sets[0]);
      SetsFrame(b, off + |head|, sets[1..]);
      assert sets == [sets[0]] + sets[1..];
    }
  }

  // ----------------------------------------------------------- the message

  datatype Message =
    | Rejected
    | Broken(records: seq<FlowRecord>, awaiting: nat)
    | Packet(records: seq<FlowRecord>, awaiting: nat)

  function AllSampled(records: seq<FlowRecord>, interval: uint32): seq<FlowRecord> {
    seq(|records|, i requires 0 <= i < |records| => Sampled(records[i], interval))
  }

  function IntervalOf(k: Known, c: Context): uint32 {
    if c.Sampling() in k.sampling then k.sampling[c.Sampling()] else 0
  }

  /** The payload after the header: folded set by set, then sampled once. */
  function DecodeSets(b: bytes, off: nat, k: Known, c: Context): (Known, Message)
    requires off <= |b|
  {
    var framed := Frame(b, off);
    var k' := KnownAfter(k, c, framed.sets);
    var records, awaiting := Yields(k, c, framed.sets), Awaiting(k, c, framed.sets);
    if !framed.sound then (k', Broken(records, awaiting))
    else (k', Packet(AllSampled(records, IntervalOf(k', c)), awaiting))
  }

  function HeaderLen(version: uint16): nat {
    if version == 9 then 20 else 16
  }

  /** The bytes a message spans: a v9 datagram whole, an IPFIX message as long as it says. */
  function Span(b: bytes, version: uint16): Option<nat>
    ensures Span(b, version).Some? ==> HeaderLen(version) <= Span(b, version).value <= |b|
  {
    if |b| < HeaderLen(version) || U16(b, 0) != version then None
    else if version == 9 then Some(|b|)
    else if U16(b, 2) < 16 || U16(b, 2) > |b| then None
    else Some(U16(b, 2))
  }

  function SourceId(b: bytes, version: uint16): uint32
    requires HeaderLen(version) <= |b|
  {
    U32(b, HeaderLen(version) - 4)
  }

  function ContextOf(b: bytes, version: uint16, from: Addr, now: int, ttl: int, max: int): Context
    requires HeaderLen(version) <= |b|
  {
    Context(Scope(from, SourceId(b, version), version), now, ttl, max)
  }

  function DecodeMessage(b: bytes, version: uint16, from: Addr, k: Known, now: int, ttl: int, max: int): (Known, Message) {
    var span := Span(b, version);
    if span.None? then (k, Rejected)
    else DecodeSets(b[..span.value], HeaderLen(version), k, ContextOf(b, version, from, now, ttl, max))
  }

  // --------------------------------------------------------- main theorems

  /** The fold goes set by set: what comes later sees everything learned before. */
  lemma {:induction false} FoldSplits(k: Known, c: Context, a: seq<FlowSet>, b: seq<FlowSet>)
    ensures var mid := KnownAfter(k, c, a);
            && KnownAfter(k, c, a + b) == KnownAfter(mid, c, b)
            && Yields(k, c, a + b) == Yields(k, c, a) + Yields(mid, c, b)
            && Awaiting(k, c, a + b) == Awaiting(k, c, a) + Awaiting(mid, c, b)
    decreases |a|
  {
    if a == [] {
      assert a + b == b;
    } else {
      assert a + b == [a[0]] + (a[1..] + b);
      OneSetThenRest(k, c, a[0], a + b, a[1..] + b);
      FoldSplits(Absorb(k, c, a[0]), c, a[1..], b);
    }
  }

  lemma PayloadLies(b: bytes, off: nat, end: nat, payload: bytes, pad: bytes)
    requires off <= end <= |b| && b[off..end] == payload + pad
    ensures At(b[..end], off, payload) && |b[..end]| == off + |payload| + |pad|
  {
    assert b[..end][off..] == payload + pad;
    assert b[..end][off..][..|payload|] == payload;
  }

  /** A message's bytes are framed as the sets encoded, whatever the padding. */
  lemma MessageFrames(b: bytes, version: uint16, sets: seq<FlowSet>, pad: bytes)
    requires Span(b, version).Some? && |pad| < SET_HEADER
    requires forall i :: 0 <= i < |sets| ==> Framable(sets[i])
    requires b[HeaderLen(version)..Span(b, version).value] == EncodeFlowSets(sets) + pad
    ensures Frame(b[..Span(b, version).value], HeaderLen(version)) == Framed(sets, true)
  {
    PayloadLies(b, HeaderLen(version), Span(b, version).value, EncodeFlowSets(sets), pad);
    SetsFrame(b[..Span(b, version).value], HeaderLen(version), sets);
  }

  /**
   A well-formed message decodes to the fold of its sets: the records of the
   data sets whose template was known when they were reached, in order, each
   sampled by what the exporter had announced by the end of the message.
   */
  lemma MessageIsFold(b: bytes, version: uint16, from: Addr, k: Known, now: int, ttl: int, max: int, sets: seq<FlowSet>, pad: bytes)
    requires Span(b, version).Some?
    requires forall i :: 0 <= i < |sets| ==> Framable(sets[i])
    requires |pad| < SET_HEADER
    requires b[HeaderLen(version)..Span(b, version).value] == EncodeFlowSets(sets) + pad
    ensures var c := ContextOf(b, version, from, now, ttl, max);
            var k' := KnownAfter(k, c, sets);
            DecodeMessage(b, version, from, k, now, ttl, max)
            == (k', Packet(AllSampled(Yields(k, c, sets), IntervalOf(k', c)), Awaiting(k, c, sets)))
  {
    MessageFrames(b, version, sets, pad);
  }

  /** Bytes after an IPFIX message's declared length change nothing. */
  lemma TrailingBytesIrrelevant(b: bytes, from: Addr, k: Known, now: int, ttl: int, max: int)
    requires Span(b, 10).Some?
    ensures DecodeMessage(b, 10, from, k, now, ttl, max)
         == DecodeMessage(b[..Span(b, 10).value], 10, from, k, now, ttl, max)
  {
    var message := b[..Span(b, 10).value];
    assert message[..|message|] == message;
    assert U32(message, 12) == U32(b, 12);
  }

  lemma OneSetAlone(k: Known, c: Context, s: FlowSet)
    ensures KnownAfter(k, c, [s]) == Absorb(k, c, s)
    ensures Yields(k, c, [s]) == Yield(k, c, s)
    ensures Awaiting(k, c, [s]) == if Waits(k, c, s) then 1 else 0
  {
    OneSetThenRest(k, c, s, [s], []);
    assert Yield(k, c, s) + [] == Yield(k, c, s);
  }

  /** A set's place decides what it yields: only the sets before it matter. */
  lemma OnlyEarlierSetsMatter(k: Known, c: Context, before: seq<FlowSet>, s: FlowSet, after: seq<FlowSet>)
    ensures Yields(k, c, before + [s] + after)
         == Yields(k, c, before) + Yield(KnownAfter(k, c, before), c, s)
            + Yields(KnownAfter(k, c, before + [s]), c, after)
    ensures Awaiting(k, c, before + [s] + after)
         == Awaiting(k, c, before) + (if Waits(KnownAfter(k, c, before), c, s) then 1 else 0)
            + Awaiting(KnownAfter(k, c, before + [s]), c, after)
  {
    FoldSplits(k, c, before + [s], after);
    FoldSplits(k, c, before, [s]);
    OneSetAlone(KnownAfter(k, c, before), c, s);
  }

  /** What a set states as the exporter's sampling interval, if it is options data that states one. */
  function IntervalFrom(k: Known, c: Context, s: FlowSet): Option<uint32> {
    var t := Found(k, c, s).1;
    if s.id >= MIN_DATA_ID && t.Some? && t.value.IsOptions() then LastInterval(t.value, Records(s.body, t.value)) else None
  }

  /** The last interval stated in a message, each set read with what was known when it was reached. */
  function LastStated(k: Known, c: Context, sets: seq<FlowSet>): Option<uint32> {
    if sets == [] then None
    else
      var n := |sets| - 1;
      var own := IntervalFrom(KnownAfter(k, c, sets[..n]), c, sets[n]);
      if own.Some? then own else LastStated(k, c, sets[..n])
  }

  /**
   The interval a message is sampled by is the last one stated in it, or else
   the one remembered from earlier messages; no other exporter's is touched.
   */
  lemma {:induction false} IntervalIsLastStated(k: Known, c: Context, sets: seq<FlowSet>, other: SamplingKey)
    ensures var k' := KnownAfter(k, c, sets);
            && IntervalOf(k', c) == LastStated(k, c, sets).GetOr(IntervalOf(k, c))
            && (other != c.Sampling() ==>
                  (other in k'.sampling <==> other in k.sampling)
                  && (other in k.sampling ==> k'.sampling[other] == k.sampling[other]))
  {
    if sets != [] {
      var n := |sets| - 1;
      IntervalIsLastStated(k, c, sets[..n], other);
      FoldSplits(k, c, sets[..n], [sets[n]]);
      assert sets == sets[..n] + [sets[n]] && [sets[n]][1..] == [];
      var mid := KnownAfter(k, c, sets[..n]);
      assert KnownAfter(mid, c, [sets[n]]) == Absorb(mid, c, sets[n]);
    }
  }

  /** A learned layout marked fixed has only fixed fields, and at least one field. */
  predicate Indexable(t: Template) {
    t.fields != [] && (!t.hasVarLen ==> forall i :: 0 <= i < |t.fields| ==> !t.fields[i].Variable())
  }

  lemma {:induction false} NoVariable(fields: seq<Field>)
    requires !Ipfix.HasVariable(fields)
    ensures forall i :: 0 <= i < |fields| ==> !fields[i].Variable()
  {
    if fields != [] {
      var n := |fields| - 1;
      NoVariable(fields[..n]);
      assert forall i :: 0 <= i < n ==> fields[i] == fields[..n][i];
    }
  }

  lemma {:induction false} LearnedIsIndexable(records: seq<Ipfix.TemplateRecord>, i: nat)
    requires forall j :: 0 <= j < |records| ==> Ipfix.Encodable(records[j], false)
    requires i < |Ipfix.Learned(records)|
    ensures Indexable(Ipfix.Learned(records)[i].template) && !Ipfix.Learned(records)[i].template.IsOptions()
  {
    if Ipfix.Teaches(records[0]) && i == 0 {
      var fields := Ipfix.MeantFields(records[0].specs);
      if !Ipfix.HasVariable(fields) {
        NoVariable(fields);
      }
    } else {
      LearnedIsIndexable(records[1..], if Ipfix.Teaches(records[0]) then i - 1 else i);
    }
  }

  lemma {:induction false} LatestIsListed(news: seq<Announced>, id: uint16) returns (i: nat)
    requires Latest(news, id).Some?
    ensures i < |news| && Latest(news, id) == Some(news[i].template)
  {
    var n := |news| - 1;
    if news[n].id == id {
      i := n;
    } else {
      i := LatestIsListed(news[..n], id);
    }
  }

  /** A set that announces a layout, then records written in that layout: those records come out. */
  lemma AnnouncedThenData(k: Known, c: Context, first: FlowSet, t: Template, id: uint16, rows: seq<seq<Cell>>, pad: bytes)
    requires first.id < MIN_DATA_ID <= id && Indexable(t) && !t.IsOptions()
    requires GetBounded(Absorb(k, c, first).templates, KeyFor(c.scope, id), c.now, c.ttl).1 == Some(t)
    requires (forall i :: 0 <= i < |rows| ==> RecordFits(rows[i], t.fields)) && |pad| < MinWidth(t.fields)
    ensures var sets := [first, FlowSet(id, EncodeRecords(rows, t.fields) + pad)];
            && Yields(k, c, sets) == Flows(t, AllData(rows)) && Awaiting(k, c, sets) == 0
            && IntervalOf(KnownAfter(k, c, sets), c) == IntervalOf(k, c)
  {
    var second := FlowSet(id, EncodeRecords(rows, t.fields) + pad);
    DecodingUndoesEncoding(rows, t, pad);
    var k' := Absorb(k, c, first);
    assert Found(k', c, second).1 == Some(t);
    assert Yield(k, c, first) == [] && !Waits(k, c, first);
    OneSetThenRest(k, c, first, [first, second], [second]);
    OneSetThenRest(k', c, second, [second], []);
    assert Yield(k', c, second) + [] == Flows(t, AllData(rows));
  }

  /** A template set and a data set, each with its own padding. */
  ghost function IpfixSets(records: seq<Ipfix.TemplateRecord>, pad: bytes, id: uint16, rows: seq<seq<Cell>>, pad': bytes): seq<FlowSet>
    requires forall i :: 0 <= i < |records| ==> Ipfix.Encodable(records[i], false)
    requires Latest(Ipfix.Learned(records), id).Some?
    requires forall i :: 0 <= i < |rows| ==> RecordFits(rows[i], Latest(Ipfix.Learned(records), id).value.fields)
  {
    [FlowSet(2, Ipfix.EncodeSet(records, false) + pad),
     FlowSet(id, EncodeRecords(rows, Latest(Ipfix.Learned(records), id).value.fields) + pad')]
  }

  /** An IPFIX template set, encoded and absorbed, answers with the last layout of an id. */
  lemma IpfixAnnounces(k: Known, c: Context, records: seq<Ipfix.TemplateRecord>, pad: bytes, id: uint16)
    requires c.scope.version == 10 && c.ttl > 0
    requires forall i :: 0 <= i < |records| ==> Ipfix.Encodable(records[i], false)
    requires |pad| < Ipfix.HeaderLen(false) && |k.templates| + |records| <= c.max
    requires Latest(Ipfix.Learned(records), id).Some?
    ensures var t := Latest(Ipfix.Learned(records), id).value;
            && Indexable(t) && !t.IsOptions()
            && GetBounded(Absorb(k, c, FlowSet(2, Ipfix.EncodeSet(records, false) + pad)).templates,
                          KeyFor(c.scope, id), c.now, c.ttl).1 == Some(t)
  {
    Ipfix.SetReachesCache(k.templates, c.scope, records, false, pad, c.now, c.ttl, c.max, id);
    var i := LatestIsListed(Ipfix.Learned(records), id);
    LearnedIsIndexable(records, i);
  }

  /** IPFIX: what is announced is what the data after it is read with. */
  lemma TemplateThenData(k: Known, c: Context, records: seq<Ipfix.TemplateRecord>, pad: bytes, id: uint16, rows: seq<seq<Cell>>, pad': bytes)
    requires c.scope.version == 10 && c.ttl > 0 && id >= MIN_DATA_ID
    requires forall i :: 0 <= i < |records| ==> Ipfix.Encodable(records[i], false)
    requires |pad| < Ipfix.HeaderLen(false)
    requires |k.templates| + |records| <= c.max
    requires Latest(Ipfix.Learned(records), id).Some?
    requires var t := Latest(Ipfix.Learned(records), id).value;
             (forall i :: 0 <= i < |rows| ==> RecordFits(rows[i], t.fields)) && |pad'| < MinWidth(t.fields)
    ensures var t := Latest(Ipfix.Learned(records), id).value;
            var sets := IpfixSets(records, pad, id, rows, pad');
            && Yields(k, c, sets) == Flows(t, AllData(rows)) && Awaiting(k, c, sets) == 0
            && IntervalOf(KnownAfter(k, c, sets), c) == IntervalOf(k, c)
  {
    IpfixAnnounces(k, c, records, pad, id);
    AnnouncedThenData(k, c, FlowSet(2, Ipfix.EncodeSet(records, false) + pad), Latest(Ipfix.Learned(records), id).value, id, rows, pad');
  }

  /**
   From the wire to flows: the bytes of an IPFIX message that announces templates
   and then carries data under one of them decode to exactly the flows encoded,
   sampled by what the exporter announced before.
   */
  lemma IpfixBytesAreFlows(b: bytes, from: Addr, k: Known, now: int, ttl: int, max: int,
      records: seq<Ipfix.TemplateRecord>, pad: bytes, id: uint16, rows: seq<seq<Cell>>, pad': bytes, end: bytes)
    requires Span(b, 10).Some? && ttl > 0 && id >= MIN_DATA_ID && |k.templates| + |records| <= max
    requires forall i :: 0 <= i < |records| ==> Ipfix.Encodable(records[i], false)
    requires |pad| < Ipfix.HeaderLen(false) && |end| < SET_HEADER
    requires Latest(Ipfix.Learned(records), id).Some?
    requires var t := Latest(Ipfix.Learned(records), id).value;
             (forall i :: 0 <= i < |rows| ==> RecordFits(rows[i], t.fields)) && |pad'| < MinWidth(t.fields)
    requires var sets := IpfixSets(records, pad, id, rows, pad');
             && (forall i :: 0 <= i < |sets| ==> Framable(sets[i]))
             && b[HeaderLen(10)..Span(b, 10).value] == EncodeFlowSets(sets) + end
    ensures var t := Latest(Ipfix.Learned(records), id).value;
            DecodeMessage(b, 10, from, k, now, ttl, max).1
            == Packet(AllSampled(Flows(t, AllData(rows)), IntervalOf(k, ContextOf(b, 10, from, now, ttl, max))), 0)
  {
    TemplateThenData(k, ContextOf(b, 10, from, now, ttl, max), records, pad, id, rows, pad');
    MessageIsFold(b, 10, from, k, now, ttl, max, IpfixSets(records, pad, id, rows, pad'), end);
  }

  ghost function V9Sets(defs: seq<V9.Definition>, pad: bytes, id: uint16, rows: seq<seq<Cell>>, pad': bytes): seq<FlowSet>
    requires forall i :: 0 <= i < |defs| ==> V9.Encodable(defs[i], false)
    requires Latest(V9.Learned(defs, false), id).Some?
    requires forall i :: 0 <= i < |rows| ==> RecordFits(rows[i], Latest(V9.Learned(defs, false), id).value.fields)
  {
    [FlowSet(0, V9.EncodeSet(defs, false) + pad),
     FlowSet(id, EncodeRecords(rows, Latest(V9.Learned(defs, false), id).value.fields) + pad')]
  }

  lemma {:induction false} LearnedIsPlain(defs: seq<V9.Definition>)
    requires forall j :: 0 <= j < |defs| ==> V9.Encodable(defs[j], false)
    ensures |V9.Learned(defs, false)| <= |defs|
    ensures forall i :: 0 <= i < |V9.Learned(defs, false)| ==>
              var t := V9.Learned(defs, false)[i].template; t.fields != [] && !t.hasVarLen && !t.IsOptions()
  {
    if defs != [] {
      LearnedIsPlain(defs[1..]);
    }
  }

  lemma V9Announces(k: Known, c: Context, defs: seq<V9.Definition>, pad: bytes, id: uint16)
    requires c.scope.version == 9 && c.ttl > 0
    requires forall i :: 0 <= i < |defs| ==> V9.Encodable(defs[i], false)
    requires |pad| < V9.HeaderLen(false) && |k.templates| + |defs| <= c.max
    requires Latest(V9.Learned(defs, false), id).Some?
    ensures var t := Latest(V9.Learned(defs, false), id).value;
            && t.fields != [] && !t.hasVarLen && !t.IsOptions()
            && GetBounded(Absorb(k, c, FlowSet(0, V9.EncodeSet(defs, false) + pad)).templates,
                          KeyFor(c.scope, id), c.now, c.ttl).1 == Some(t)
  {
    V9.ParsingUndoesEncoding(defs, false, pad);
    var i := LatestIsListed(V9.Learned(defs, false), id);
    LearnedIsPlain(defs);
    LearnedWithRoom(k.templates, c.scope, V9.Learned(defs, false), c.now, c.ttl, c.max, id);
  }

  /** NetFlow v9: the same, for layouts without a field as wide as a whole FlowSet. */
  lemma V9TemplateThenData(k: Known, c: Context, defs: seq<V9.Definition>, pad: bytes, id: uint16, rows: seq<seq<Cell>>, pad': bytes)
    requires c.scope.version == 9 && c.ttl > 0 && id >= MIN_DATA_ID
    requires forall i :: 0 <= i < |defs| ==> V9.Encodable(defs[i], false)
    requires |pad| < V9.HeaderLen(false)
    requires |k.templates| + |defs| <= c.max
    requires Latest(V9.Learned(defs, false), id).Some?
    requires var t := Latest(V9.Learned(defs, false), id).value;
             && (forall i :: 0 <= i < |t.fields| ==> !t.fields[i].Variable())
             && (forall i :: 0 <= i < |rows| ==> RecordFits(rows[i], t.fields)) && |pad'| < MinWidth(t.fields)
    ensures var t := Latest(V9.Learned(defs, false), id).value;
            var sets := V9Sets(defs, pad, id, rows, pad');
            && Yields(k, c, sets) == Flows(t, AllData(rows)) && Awaiting(k, c, sets) == 0
            && IntervalOf(KnownAfter(k, c, sets), c) == IntervalOf(k, c)
  {
    V9Announces(k, c, defs, pad, id);
    AnnouncedThenData(k, c, FlowSet(0, V9.EncodeSet(defs, false) + pad), Latest(V9.Learned(defs, false), id).value, id, rows, pad');
  }

  /** The same from a v9 datagram's bytes. */
  lemma V9BytesAreFlows(b: bytes, from: Addr, k: Known, now: int, ttl: int, max: int,
      defs: seq<V9.Definition>, pad: bytes, id: uint16, rows: seq<seq<Cell>>, pad': bytes, end: bytes)
    requires Span(b, 9).Some? && ttl > 0 && id >= MIN_DATA_ID && |k.templates| + |defs| <= max
    requires forall i :: 0 <= i < |defs| ==> V9.Encodable(defs[i], false)
    requires |pad| < V9.HeaderLen(false) && |end| < SET_HEADER
    requires Latest(V9.Learned(defs, false), id).Some?
    requires var t := Latest(V9.Learned(defs, false), id).value;
             && (forall i :: 0 <= i < |t.fields| ==> !t.fields[i].Variable())
             && (forall i :: 0 <= i < |rows| ==> RecordFits(rows[i], t.fields)) && |pad'| < MinWidth(t.fields)
    requires var sets := V9Sets(defs, pad, id, rows, pad');
             && (forall i :: 0 <= i < |sets| ==> Framable(sets[i]))
             && b[HeaderLen(9)..Span(b, 9).value] == EncodeFlowSets(sets) + end
    ensures var t := Latest(V9.Learned(defs, false), id).value;
            DecodeMessage(b, 9, from, k, now, ttl, max).1
            == Packet(AllSampled(Flows(t, AllData(rows)), IntervalOf(k, ContextOf(b, 9, from, now, ttl, max))), 0)
  {
    V9TemplateThenData(k, ContextOf(b, 9, from, now, ttl, max), defs, pad, id, rows, pad');
    MessageIsFold(b, 9, from, k, now, ttl, max, V9Sets(defs, pad, id, rows, pad'), end);
  }

  // ------------------------------------------------------------ the methods

  ghost function KnownOf(cache: Cache): Known
    reads cache
  {
    Known(cache.templates, cache.announced, cache.sampling)
  }

  method ReadFlowData(body: bytes, t: Template, p: FlowRecords.Packet)
    modifies p
    ensures p.records == old(p.records) + Flows(t, Records(body, t))
  {
    var rows := EachRecord(body, t);
    for i := 0 to |rows|
      invariant p.records == old(p.records) + Flows(t, rows[..i])
    {
      assert rows[..i + 1][..i] == rows[..i];
      RowsFit(body, t, i);
      var flow := ReadRecord(t.fields, rows[i]);
      if flow.Some? {
        p.records := p.records + [flow.value];
      }
    }
    assert rows[..|rows|] == rows;
  }

  method ReadOptionsData(body: bytes, t: Template, cache: Cache, key: SamplingKey)
    modifies cache`sampling
    ensures cache.sampling == WithInterval(old(cache.sampling), key, LastInterval(t, Records(body, t)))
  {
    var rows := EachRecord(body, t);
    for i := 0 to |rows|
      invariant cache.sampling == WithInterval(old(cache.sampling), key, LastInterval(t, rows[..i]))
    {
      assert rows[..i + 1][..i] == rows[..i];
      RowsFit(body, t, i);
      var row := rows[i];
      ghost var before := cache.sampling;
      for j := 0 to |t.fields|
        invariant cache.sampling == WithInterval(before, key, IntervalIn(t.fields[..j], row[..j]))
      {
        assert t.fields[..j + 1][..j] == t.fields[..j] && row[..j + 1][..j] == row[..j];
        var f := t.fields[j];
        if f.enterprise == 0 && f.typ in SAMPLING {
          var v := BeUint(row[j]);
          if v > 0 {
            cache.PutSampling(key, Narrow(v, 0xFFFF_FFFF));
          }
        }
      }
      assert t.fields[..|t.fields|] == t.fields && row[..|t.fields|] == row;
    }
    assert rows[..|rows|] == rows;
  }

  /** Every row of a data set has one value per field. */
  lemma RowsFit(body: bytes, t: Template, i: nat)
    requires i < |Records(body, t)|
    ensures |Records(body, t)[i]| == |t.fields|
  {
    if t.hasVarLen {
      WalkedRowsFit(body, 0, t.fields, i);
    } else {
      FixedRowsFit(body, t.fields, i);
    }
  }

  lemma {:induction false} WalkedRowsFit(body: bytes, off: nat, fields: seq<Field>, i: nat)
    requires off <= |body| && i < |WalkRecords(body, off, fields)|
    ensures |WalkRecords(body, off, fields)[i]| == |fields|
    decreases |body| - off
  {
    var r := WalkFields(body, off, fields);
    WalkedRowFits(body, off, fields);
    if i > 0 {
      WalkedRowsFit(body, r.value.1, fields, i - 1);
    }
  }

  lemma WalkedRowFits(body: bytes, off: nat, fields: seq<Field>)
    requires off <= |body| && WalkFields(body, off, fields).Some?
    ensures |WalkFields(body, off, fields).value.0| == |fields|
    decreases |fields|
  {
    if fields != [] {
      WalkedRowFits(body, WalkField(body, off, fields[0]).value.1, fields[1..]);
    }
  }

  lemma {:induction false} FixedRowsFit(body: bytes, fields: seq<Field>, i: nat)
    requires Width(fields) > 0 && i < |FixedRecords(body, fields)|
    ensures |FixedRecords(body, fields)[i]| == |fields|
    decreases |body|
  {
    if i > 0 {
      FixedRowsFit(body[Width(fields)..], fields, i - 1);
    } else {
      SplitFits(body[..Width(fields)], fields);
    }
  }

  lemma SplitFits(rec: bytes, fields: seq<Field>)
    requires |rec| == Width(fields)
    ensures |SplitFixed(rec, fields)| == |fields|
    decreases |fields|
  {
  }

  /** One set: what it teaches the cache, what it adds to the packet, whether it waits. */
  method HandleSet(s: FlowSet, c: Context, cache: Cache, p: FlowRecords.Packet) returns (waits: bool)
    requires cache.Valid() && c.ttl == Ttl(cache.ttl) && c.max == Max(cache.max)
    requires c.scope.version == 9 || c.scope.version == 10
    modifies cache`templates, cache`announced, cache`sampling, p
    ensures cache.Valid()
    ensures KnownOf(cache) == Absorb(old(KnownOf(cache)), c, s)
    ensures p.records == old(p.records) + Yield(old(KnownOf(cache)), c, s)
    ensures waits == Waits(old(KnownOf(cache)), c, s)
  {
    waits := false;
    if s.id >= MIN_DATA_ID {
      var found := cache.Get(KeyFor(c.scope, s.id), c.now);
      if found.None? {
        waits := true;
      } else if found.value.IsOptions() {
        ReadOptionsData(s.body, found.value, cache, c.Sampling());
      } else {
        ReadFlowData(s.body, found.value, p);
      }
    } else if s.id == TemplatesId(c.scope.version) || s.id == TemplatesId(c.scope.version) + 1 {
      var options := s.id == TemplatesId(c.scope.version) + 1;
      if c.scope.version == 9 {
        V9.LearnFlowSet(s.body, c.scope, cache, c.now, options);
      } else {
        Ipfix.ParseIpfixTemplates(s.body, c.scope, cache, c.now, options);
      }
    }
  }

  /** The fold over a list whose first set is `s`. */
  lemma OneSetThenRest(k: Known, c: Context, s: FlowSet, sets: seq<FlowSet>, rest: seq<FlowSet>)
    requires sets == [s] + rest
    ensures sets[1..] == rest
    ensures KnownAfter(k, c, sets) == KnownAfter(Absorb(k, c, s), c, rest)
    ensures Yields(k, c, sets) == Yield(k, c, s) + Yields(Absorb(k, c, s), c, rest)
    ensures Awaiting(k, c, sets) == (if Waits(k, c, s) then 1 else 0) + Awaiting(Absorb(k, c, s), c, rest)
  {
  }

  /** A message part-way through: what is known, what was read, what waits. */
  datatype Progress = Progress(known: Known, records: seq<FlowRecord>, awaiting: nat)

  function Advance(at: Progress, c: Context, s: FlowSet): Progress {
    Progress(Absorb(at.known, c, s),
             at.records + Yield(at.known, c, s),
             at.awaiting + (if Waits(at.known, c, s) then 1 else 0))
  }

  function AdvanceAll(at: Progress, c: Context, sets: seq<FlowSet>): Progress
    decreases |sets|
  {
    if sets == [] then at else AdvanceAll(Advance(at, c, sets[0]), c, sets[1..])
  }

  /** Accumulating as the loop does gives the fold. */
  lemma {:induction false} AdvancingIsFolding(at: Progress, c: Context, sets: seq<FlowSet>)
    ensures AdvanceAll(at, c, sets)
         == Progress(KnownAfter(at.known, c, sets),
                     at.records + Yields(at.known, c, sets),
                     at.awaiting + Awaiting(at.known, c, sets))
    decreases |sets|
  {
    if sets == [] {
      assert at.records + [] == at.records;
    } else {
      var next := Advance(at, c, sets[0]);
      AdvancingIsFolding(next, c, sets[1..]);
      assert sets == [sets[0]] + sets[1..];
      OneSetThenRest(at.known, c, sets[0], sets, sets[1..]);
      Regroup(at.records, Yield(at.known, c, sets[0]), Yields(next.known, c, sets[1..]));
    }
  }

  lemma Regroup<T>(a: seq<T>, b: seq<T>, c: seq<T>)
    ensures a + (b + c) == (a + b) + c
  {
  }

  ghost function ProgressOf(cache: Cache, p: FlowRecords.Packet, awaiting: nat): Progress
    reads cache, p
  {
    Progress(KnownOf(cache), p.records, awaiting)
  }

  /** The set framed at `off`; none if its length does not fit. */
  method NextSet(b: bytes, off: nat) returns (s: Option<FlowSet>, next: nat)
    requires off + SET_HEADER <= |b|
    ensures s.None? ==> Frame(b, off) == Framed([], false)
    ensures s.Some? ==> off < next <= |b|
                        && Frame(b, off) == Framed([s.value] + Frame(b, next).sets, Frame(b, next).sound)
  {
    var id := U16(b, off);
    var length: nat := U16(b, off + 2);
    next := off + length;
    // Shorter than its own header it would never advance; longer than the rest it would run off the end.
    if length < SET_HEADER || next > |b| {
      return None, next;
    }
    return Some(FlowSet(id, b[off + SET_HEADER..next])), next;
  }

  /** The loop both decoders run over the sets of a message. */
  method WalkSets(b: bytes, start: nat, c: Context, cache: Cache, p: FlowRecords.Packet) returns (awaiting: nat, sound: bool)
    requires start <= |b| && cache.Valid() && c.ttl == Ttl(cache.ttl) && c.max == Max(cache.max)
    requires c.scope.version == 9 || c.scope.version == 10
    modifies cache`templates, cache`announced, cache`sampling, p
    ensures cache.Valid()
    ensures ProgressOf(cache, p, awaiting) == AdvanceAll(old(ProgressOf(cache, p, 0)), c, Frame(b, start).sets)
    ensures sound == Frame(b, start).sound
  {
    ghost var goal := AdvanceAll(ProgressOf(cache, p, 0), c, Frame(b, start).sets);
    awaiting := 0;
    var off := start;
    while off + SET_HEADER <= |b|
      invariant off <= |b| && cache.Valid() && c.ttl == Ttl(cache.ttl) && c.max == Max(cache.max)
      invariant Frame(b, off).sound == Frame(b, start).sound
      invariant AdvanceAll(ProgressOf(cache, p, awaiting), c, Frame(b, off).sets) == goal
      decreases |b| - off
    {
      var s, next := NextSet(b, off);
      if s.None? {
        return awaiting, false;
      }
      ghost var at, rest := ProgressOf(cache, p, awaiting), Frame(b, next).sets;
      assert ([s.value] + rest)[1..] == rest;
      var waits := HandleSet(s.value, c, cache, p);
      if waits {
        awaiting := awaiting + 1;
      }
      assert ProgressOf(cache, p, awaiting) == Advance(at, c, s.value);
      off := next;
    }
    sound := true;
  }

  method DecodeNetFlowV9(b: bytes, from: Addr, cache: Cache, now: int) returns (m: Message)
    requires cache.Valid()
    modifies cache`templates, cache`announced, cache`sampling
    ensures cache.Valid()
    ensures (KnownOf(cache), m) == DecodeMessage(b, 9, from, old(KnownOf(cache)), now, Ttl(cache.ttl), Max(cache.max))
  {
    if |b| < 20 || U16(b, 0) != 9 {
      return Rejected;
    }
    assert b[..|b|] == b;
    var c := ContextOf(b, 9, from, now, Ttl(cache.ttl), Max(cache.max));
    m := DecodeBody(b, 20, c, cache);
  }

  method DecodeIpfix(b: bytes, from: Addr, cache: Cache, now: int) returns (m: Message)
    requires cache.Valid()
    modifies cache`templates, cache`announced, cache`sampling
    ensures cache.Valid()
    ensures (KnownOf(cache), m) == DecodeMessage(b, 10, from, old(KnownOf(cache)), now, Ttl(cache.ttl), Max(cache.max))
  {
    if |b| < 16 || U16(b, 0) != 10 {
      return Rejected;
    }
    var msgLen := U16(b, 2);
    if msgLen < 16 || msgLen > |b| {
      return Rejected;
    }
    var c := ContextOf(b, 10, from, now, Ttl(cache.ttl), Max(cache.max));
    m := DecodeBody(b[..msgLen], 16, c, cache);
  }

  method DecodeBody(b: bytes, start: nat, c: Context, cache: Cache) returns (m: Message)
    requires start <= |b| && cache.Valid() && c.ttl == Ttl(cache.ttl) && c.max == Max(cache.max)
    requires c.scope.version == 9 || c.scope.version == 10
    modifies cache`templates, cache`announced, cache`sampling
    ensures cache.Valid()
    ensures (KnownOf(cache), m) == DecodeSets(b, start, old(KnownOf(cache)), c)
  {
    var p := new FlowRecords.Packet();
    ghost var k0 := KnownOf(cache);
    var awaiting, sound := WalkSets(b, start, c, cache, p);
    AdvancingIsFolding(Progress(k0, [], 0), c, Frame(b, start).sets);
    assert [] + Yields(k0, c, Frame(b, start).sets) == Yields(k0, c, Frame(b, start).sets);
    if !sound {
      return Broken(p.records, awaiting);
    }
    var interval := cache.GetSampling(c.Sampling());
    ghost var raw := p.records;
    p.ApplySampling(interval);
    assert p.records == AllSampled(raw, interval);
    return Packet(p.records, awaiting);
  }
}
