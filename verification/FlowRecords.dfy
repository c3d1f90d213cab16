/**
 One flow record from one row of field values: what each attribute is taken
 from, and the scaling of its counters by exactly one sampling rate.
 */
module FlowRecords {
  import opened Common
  import opened Wrap
  import opened Bytes
  import opened FlowTypes
  import opened RecordWalk

  datatype FlowRecord = FlowRecord(
    srcAddr: Option<Addr>,
    dstAddr: Option<Addr>,
    srcPort: uint16,
    dstPort: uint16,
    protocol: byte,
    tos: byte,
    tcpFlags: byte,
    srcMask: byte,
    dstMask: byte,
    srcAS: uint32,
    dstAS: uint32,
    inputIf: uint32,
    outputIf: uint32,
    octets: uint64,
    packets: uint64,
    sampled: bool,
    samplingRate: uint32
  )

  const BLANK: FlowRecord := FlowRecord(None, None, 0, 0, 0, 0, 0, 0, 0, 0, 0, 0, 0, 0, 0, false, 0)

  // The element numbers an attribute may be carried under.
  const OCTETS: set<uint16> := {1, 23}
  const PACKETS: set<uint16> := {2, 24}
  const SAMPLING: set<uint16> := {34, 50, 305}

  // --------------------------------------------- attributes, independently

  /** Vendor-private elements share numbers with standard ones and are never read. */
  predicate Carries(f: Field, types: set<uint16>) {
    f.enterprise == 0 && f.typ in types
  }

  /** The number in the last field that carries one of `types`, as the decoder holds it. */
  function LastNumber(fields: seq<Field>, vals: Values, types: set<uint16>): uint64
    requires |fields| == |vals|
    decreases |fields|
  {
    var n := |fields| - 1;
    if fields == [] then 0
    else if Carries(fields[n], types) then Wrap64(Value(vals[n]))
    else LastNumber(fields[..n], vals[..n], types)
  }

  /** The low byte of the last non-empty field that carries one of `types`. */
  function LastByte(fields: seq<Field>, vals: Values, types: set<uint16>): byte
    requires |fields| == |vals|
    decreases |fields|
  {
    var n := |fields| - 1;
    if fields == [] then 0
    else if Carries(fields[n], types) && vals[n] != [] then vals[n][|vals[n]| - 1]
    else LastByte(fields[..n], vals[..n], types)
  }

  /** The last field that carries one of `types` and is as wide as an address. */
  function LastAddr(fields: seq<Field>, vals: Values, types: set<uint16>): Option<Addr>
    requires |fields| == |vals|
    decreases |fields|
  {
    var n := |fields| - 1;
    if fields == [] then None
    else if Carries(fields[n], types) && IsAddr(vals[n]) then Some(Unmap(vals[n]))
    else LastAddr(fields[..n], vals[..n], types)
  }

  /** The unbounded sum over every field that carries one of `types`. */
  function Sum(fields: seq<Field>, vals: Values, types: set<uint16>): nat
    requires |fields| == |vals|
    decreases |fields|
  {
    var n := |fields| - 1;
    if fields == [] then 0
    else (if Carries(fields[n], types) then Value(vals[n]) else 0) + Sum(fields[..n], vals[..n], types)
  }

  predicate IsAddr(b: bytes) {
    |b| == 4 || |b| == 16
  }

  /** An IPv4 address carried in IPv6 form is the IPv4 address. */
  function Unmap(b: bytes): Addr {
    if |b| == 16 && (forall i :: 0 <= i < 10 ==> b[i] == 0) && b[10] == 255 && b[11] == 255 then b[12..] else b
  }

  /** A value too wide for its attribute is a misdescribed field: zero, not its low bits. */
  function Narrow(v: uint64, max: nat): (r: nat)
    ensures r <= max && (v > max ==> r == 0) && (r != 0 ==> r == v)
  {
    if v > max then 0 else v
  }

  /** The record a row describes before scaling, attribute by attribute. */
  function Described(fields: seq<Field>, vals: Values): FlowRecord
    requires |fields| == |vals|
  {
    FlowRecord(
      LastAddr(fields, vals, {8, 27}),
      LastAddr(fields, vals, {12, 28}),
      Narrow(LastNumber(fields, vals, {7}), 0xFFFF),
      Narrow(LastNumber(fields, vals, {11}), 0xFFFF),
      LastByte(fields, vals, {4}),
      LastByte(fields, vals, {5}),
      LastByte(fields, vals, {6}),
      Narrow(LastNumber(fields, vals, {9, 29}), 0xFF),
      Narrow(LastNumber(fields, vals, {13, 30}), 0xFF),
      Narrow(LastNumber(fields, vals, {16}), 0xFFFF_FFFF),
      Narrow(LastNumber(fields, vals, {17}), 0xFFFF_FFFF),
      Narrow(LastNumber(fields, vals, {10}), 0xFFFF_FFFF),
      Narrow(LastNumber(fields, vals, {14}), 0xFFFF_FFFF),
      Wrap64(Sum(fields, vals, OCTETS)),
      Wrap64(Sum(fields, vals, PACKETS)),
      false,
      0)
  }

  /** The rate a record itself states, if it is one that scales. */
  function InlineRate(fields: seq<Field>, vals: Values): Option<uint32>
    requires |fields| == |vals|
  {
    var v := LastNumber(fields, vals, SAMPLING);
    if 1 < v <= 0xFFFF_FFFF then Some(v) else None
  }

  function ScaleBy(r: FlowRecord, rate: uint32): FlowRecord {
    r.(octets := Wrap64(r.octets * rate), packets := Wrap64(r.packets * rate), sampled := true, samplingRate := rate)
  }

  /** What one row contributes: nothing, when it names no two addresses. */
  function Decoded(fields: seq<Field>, vals: Values): Option<FlowRecord>
    requires |fields| == |vals|
  {
    var r := Described(fields, vals);
    if r.srcAddr.None? || r.dstAddr.None? then None
    else
      match InlineRate(fields, vals)
      case Some(rate) => Some(ScaleBy(r, rate))
      case None => Some(r)
  }

  /** A record after the exporter's announced interval has been applied. */
  function Sampled(r: FlowRecord, announced: uint32): FlowRecord {
    if r.samplingRate > 1 then r
    else if announced > 1 then ScaleBy(r, announced)
    else r.(samplingRate := 1)
  }

  /** The one rate a row's counters are multiplied by. */
  function Rate(fields: seq<Field>, vals: Values, announced: uint32): uint32
    requires |fields| == |vals|
  {
    match InlineRate(fields, vals)
    case Some(rate) => rate
    case None => if announced > 1 then announced else 1
  }

  // --------------------------------------------------------- main theorems

  /**
   Each decoded record's counters are its raw sums times exactly one rate,
   modulo 2^64: the record's own if it states one above 1, else the exporter's
   last announced, else 1. A record says it was sampled exactly when that rate
   is above 1.
   */
  lemma ScaledExactlyOnce(fields: seq<Field>, vals: Values, announced: uint32)
    requires |fields| == |vals| && Decoded(fields, vals).Some?
    ensures var r, rate := Sampled(Decoded(fields, vals).value, announced), Rate(fields, vals, announced);
            && r.octets == Wrap64(Sum(fields, vals, OCTETS) * rate)
            && r.packets == Wrap64(Sum(fields, vals, PACKETS) * rate)
            && r.samplingRate == rate
            && (r.sampled <==> r.samplingRate > 1)
  {
    var rate := Rate(fields, vals, announced);
    WrapProduct(Sum(fields, vals, OCTETS), rate);
    WrapProduct(Sum(fields, vals, PACKETS), rate);
  }

  /** Scaling touches the counters only, and applying an interval again changes nothing. */
  lemma SamplingSettles(r: FlowRecord, announced: uint32, later: uint32)
    ensures Sampled(r, announced).(octets := r.octets, packets := r.packets, sampled := r.sampled, samplingRate := r.samplingRate) == r
    ensures announced > 1 || r.samplingRate > 1 ==> Sampled(Sampled(r, announced), later) == Sampled(r, announced)
  {
  }

  /** Where the sampling field sits among the counters makes no difference. */
  lemma {:induction false} SamplingFieldFloats(before: seq<Field>, beforeVals: Values, f: Field, v: bytes, after: seq<Field>, afterVals: Values, announced: uint32)
    requires |before| == |beforeVals| && |after| == |afterVals|
    requires Carries(f, SAMPLING)
    requires forall i :: 0 <= i < |after| ==> !Carries(after[i], SAMPLING)
    ensures Rate(before + [f] + after, beforeVals + [v] + afterVals, announced) == Rate([f], [v], announced)
    ensures Sum(before + [f] + after, beforeVals + [v] + afterVals, OCTETS) == Sum(before + after, beforeVals + afterVals, OCTETS)
    ensures Sum(before + [f] + after, beforeVals + [v] + afterVals, PACKETS) == Sum(before + after, beforeVals + afterVals, PACKETS)
  {
    LastNumberAt(before, beforeVals, f, v, after, afterVals);
    assert [f][..0] == [] && [v][..0] == [];
    SumSkips(before, beforeVals, f, v, after, afterVals, OCTETS);
    SumSkips(before, beforeVals, f, v, after, afterVals, PACKETS);
  }

  lemma {:induction false} LastNumberAt(before: seq<Field>, beforeVals: Values, f: Field, v: bytes, after: seq<Field>, afterVals: Values)
    requires |before| == |beforeVals| && |after| == |afterVals|
    requires Carries(f, SAMPLING)
    requires forall i :: 0 <= i < |after| ==> !Carries(after[i], SAMPLING)
    ensures LastNumber(before + [f] + after, beforeVals + [v] + afterVals, SAMPLING) == Wrap64(Value(v))
    decreases |after|
  {
    var fields, vals := before + [f] + after, beforeVals + [v] + afterVals;
    var n := |fields| - 1;
    if after != [] {
      assert fields[..n] == before + [f] + after[..|after| - 1];
      assert vals[..n] == beforeVals + [v] + afterVals[..|after| - 1];
      LastNumberAt(before, beforeVals, f, v, after[..|after| - 1], afterVals[..|after| - 1]);
    } else {
      assert fields[n] == f && vals[n] == v;
    }
  }

  lemma {:induction false} SumSkips(before: seq<Field>, beforeVals: Values, f: Field, v: bytes, after: seq<Field>, afterVals: Values, types: set<uint16>)
    requires |before| == |beforeVals| && |after| == |afterVals|
    requires !Carries(f, types)
    ensures Sum(before + [f] + after, beforeVals + [v] + afterVals, types) == Sum(before + after, beforeVals + afterVals, types)
    decreases |after|
  {
    var fields, vals := before + [f] + after, beforeVals + [v] + afterVals;
    var n := |fields| - 1;
    if after == [] {
      assert fields[..n] == before && vals[..n] == beforeVals;
      assert before + after == before && beforeVals + afterVals == beforeVals;
    } else {
      var m := |after| - 1;
      assert fields[..n] == before + [f] + after[..m] && vals[..n] == beforeVals + [v] + afterVals[..m];
      assert (before + after)[..n - 1] == before + after[..m];
      assert (beforeVals + afterVals)[..n - 1] == beforeVals + afterVals[..m];
      SumSkips(before, beforeVals, f, v, after[..m], afterVals[..m], types);
    }
  }

  // ------------------------------------------------- fields of any width

  function Power256(n: nat): nat {
    if n == 0 then 1 else 0x100 * Power256(n - 1)
  }

  lemma {:induction false} ValueIsBelow(b: bytes)
    ensures Value(b) < Power256(|b|)
  {
    if b != [] {
      ValueIsBelow(b[..|b| - 1]);
    }
  }

  lemma {:induction false} EightBytesFit(n: nat)
    requires n <= 8
    ensures Power256(n) <= TWO_64
    decreases 8 - n
  {
    if n < 8 {
      EightBytesFit(n + 1);
    } else {
      assert Power256(8) == 0x1_0000 * (0x1_0000 * (0x1_0000 * (0x1_0000 * Power256(0))));
    }
  }

  /** A one and so many zero bytes. */
  function OneAndZeros(n: nat): (b: bytes)
    ensures |b| == n + 1
    ensures b[0] == 1 && Value(b) == Power256(n)
  {
    if n == 0 then assert Value([1]) == Value([1][..0]) * 0x100 + 1; [1]
    else
      var b := OneAndZeros(n - 1);
      assert (b + [0])[..|b|] == b;
      b + [0]
  }

  lemma {:induction false} HighBytesVanish(n: nat)
    requires n >= 8
    ensures Wrap64(Power256(n)) == 0 && Power256(n) >= TWO_64
  {
    if n > 8 {
      HighBytesVanish(n - 1);
      WrapProduct(Power256(n - 1), 0x100);
    } else {
      assert Power256(8) == 0x1_0000 * (0x1_0000 * (0x1_0000 * (0x1_0000 * Power256(0))));
    }
  }

  /** Every number a field of this width can hold is read as itself, or as zero when too large for its attribute. */
  ghost predicate NarrowsRight(width: nat, max: nat) {
    forall b: bytes :: |b| == width ==> Narrow(Wrap64(Value(b)), max) == if Value(b) > max then 0 else Value(b)
  }

  /**
   A value too wide for its attribute is unknown, not its low bits: this holds
   exactly for fields of at most eight bytes, as wider ones lose their high bytes
   before the check.
   */
  lemma NarrowsRightUpToEightBytes(width: nat, max: nat)
    requires 0 < max < TWO_64
    ensures NarrowsRight(width, max) <==> width <= 8
  {
    if width <= 8 {
      forall b: bytes | |b| == width
        ensures Narrow(Wrap64(Value(b)), max) == if Value(b) > max then 0 else Value(b)
      {
        ValueIsBelow(b);
        EightBytesFit(width);
      }
    } else {
      var high := OneAndZeros(width - 2);
      var b := high + [1];
      assert b[..|high|] == high;
      HighBytesVanish(width - 1);
      WrapSum(Power256(width - 1), 1);
      assert Value(b) == Power256(width - 1) + 1;
      assert |b| == width && Narrow(Wrap64(Value(b)), max) == 1;
    }
  }

  // ----------------------------------------------------------- the methods

  /** One field's effect on the record being read. */
  method ReadField(r: FlowRecord, inline: uint64, f: Field, val: bytes) returns (r': FlowRecord, inline': uint64)
    ensures r' == Updated(r, f, val)
    ensures inline' == if Carries(f, SAMPLING) then Wrap64(Value(val)) else inline
  {
    r', inline' := r, inline;
    if f.enterprise != 0 {
      return;
    }
    var v := BeUint(val);
    match f.typ {
      case 1 | 23 =>
        var octets := Accumulate(r.octets, val, v);
        r' := r.(octets := octets);
      case 2 | 24 =>
        var packets := Accumulate(r.packets, val, v);
        r' := r.(packets := packets);
      case 34 | 50 | 305 =>
        inline' := v;
      case _ =>
        r' := ReadEndpoint(r, f, val, v);
    }
  }

  /** Addition in a uint64. */
  method Accumulate(total: uint64, val: bytes, v: uint64) returns (sum: uint64)
    requires v == Wrap64(Value(val))
    ensures sum == Wrap64(total + Value(val))
  {
    WrapSum(total, Value(val));
    sum := Wrap64(total + v);
  }

  method ReadEndpoint(r: FlowRecord, f: Field, val: bytes, v: uint64) returns (r': FlowRecord)
    requires f.enterprise == 0 && v == Wrap64(Value(val))
    requires f.typ !in OCTETS + PACKETS + SAMPLING
    ensures r' == Updated(r, f, val)
  {
    match f.typ {
      case 8 | 27 => if IsAddr(val) { return r.(srcAddr := Some(Unmap(val))); }
      case 12 | 28 => if IsAddr(val) { return r.(dstAddr := Some(Unmap(val))); }
      case 7 => return r.(srcPort := Narrow(v, 0xFFFF));
      case 11 => return r.(dstPort := Narrow(v, 0xFFFF));
      case 10 => return r.(inputIf := Narrow(v, 0xFFFF_FFFF));
      case 14 => return r.(outputIf := Narrow(v, 0xFFFF_FFFF));
      case _ =>
        r' := ReadTraits(r, f, val, v);
        return;
    }
    return r;
  }

  method ReadTraits(r: FlowRecord, f: Field, val: bytes, v: uint64) returns (r': FlowRecord)
    requires f.enterprise == 0 && v == Wrap64(Value(val))
    requires f.typ !in OCTETS + PACKETS + SAMPLING + {7, 8, 10, 11, 12, 14, 27, 28}
    ensures r' == Updated(r, f, val)
  {
    match f.typ {
      case 4 => if |val| > 0 { return r.(protocol := val[|val| - 1]); }
      case 5 => if |val| > 0 { return r.(tos := val[|val| - 1]); }
      case 6 => if |val| > 0 { return r.(tcpFlags := val[|val| - 1]); }
      case 9 | 29 => return r.(srcMask := Narrow(v, 0xFF));
      case 13 | 30 => return r.(dstMask := Narrow(v, 0xFF));
      case 16 => return r.(srcAS := Narrow(v, 0xFFFF_FFFF));
      case 17 => return r.(dstAS := Narrow(v, 0xFFFF_FFFF));
      case _ =>
    }
    return r;
  }

  /** Every attribute a field could set, each decided on its own. */
  function Updated(r: FlowRecord, f: Field, val: bytes): FlowRecord {
    var v := Wrap64(Value(val));
    FlowRecord(
      if Carries(f, {8, 27}) && IsAddr(val) then Some(Unmap(val)) else r.srcAddr,
      if Carries(f, {12, 28}) && IsAddr(val) then Some(Unmap(val)) else r.dstAddr,
      if Carries(f, {7}) then Narrow(v, 0xFFFF) else r.srcPort,
      if Carries(f, {11}) then Narrow(v, 0xFFFF) else r.dstPort,
      if Carries(f, {4}) && val != [] then val[|val| - 1] else r.protocol,
      if Carries(f, {5}) && val != [] then val[|val| - 1] else r.tos,
      if Carries(f, {6}) && val != [] then val[|val| - 1] else r.tcpFlags,
      if Carries(f, {9, 29}) then Narrow(v, 0xFF) else r.srcMask,
      if Carries(f, {13, 30}) then Narrow(v, 0xFF) else r.dstMask,
      if Carries(f, {16}) then Narrow(v, 0xFFFF_FFFF) else r.srcAS,
      if Carries(f, {17}) then Narrow(v, 0xFFFF_FFFF) else r.dstAS,
      if Carries(f, {10}) then Narrow(v, 0xFFFF_FFFF) else r.inputIf,
      if Carries(f, {14}) then Narrow(v, 0xFFFF_FFFF) else r.outputIf,
      if Carries(f, OCTETS) then Wrap64(r.octets + Value(val)) else r.octets,
      if Carries(f, PACKETS) then Wrap64(r.packets + Value(val)) else r.packets,
      r.sampled,
      r.samplingRate)
  }

  lemma DescribedGrows(fields: seq<Field>, vals: Values)
    requires |fields| == |vals| > 0
    ensures var n := |fields| - 1;
            Described(fields, vals) == Updated(Described(fields[..n], vals[..n]), fields[n], vals[n])
  {
    var n := |fields| - 1;
    WrapSum(Sum(fields[..n], vals[..n], OCTETS), Value(vals[n]));
    WrapSum(Sum(fields[..n], vals[..n], PACKETS), Value(vals[n]));
  }

  method ReadRecord(fields: seq<Field>, vals: Values) returns (flow: Option<FlowRecord>)
    requires |fields| == |vals|
    ensures flow == Decoded(fields, vals)
  {
    var r, inline := BLANK, 0;
    for i := 0 to |fields|
      invariant r == Described(fields[..i], vals[..i])
      invariant inline == LastNumber(fields[..i], vals[..i], SAMPLING)
    {
      assert fields[..i + 1][..i] == fields[..i] && vals[..i + 1][..i] == vals[..i];
      DescribedGrows(fields[..i + 1], vals[..i + 1]);
      r, inline := ReadField(r, inline, fields[i], vals[i]);
    }
    assert fields[..|fields|] == fields && vals[..|fields|] == vals;
    if inline > 1 && inline <= 0xFFFF_FFFF {
      r := r.(octets := Wrap64(r.octets * inline), packets := Wrap64(r.packets * inline),
              sampled := true, samplingRate := inline);
    }
    if r.srcAddr.None? || r.dstAddr.None? {
      return None;
    }
    return Some(r);
  }

  /** A packet being filled: the records of one datagram. */
  class Packet {
    var records: seq<FlowRecord>

    constructor ()
      ensures records == []
    {
      records := [];
    }

    /** Rewrites the records in place by the exporter's announced interval. */
    method ApplySampling(interval: uint32)
      modifies this
      ensures |records| == |old(records)|
      ensures forall i :: 0 <= i < |records| ==> records[i] == Sampled(old(records)[i], interval)
    {
      for i := 0 to |records|
        invariant |records| == |old(records)|
        invariant forall j :: 0 <= j < i ==> records[j] == Sampled(old(records)[j], interval)
        invariant forall j :: i <= j < |records| ==> records[j] == old(records)[j]
      {
        var r := records[i];
        if r.samplingRate > 1 {
          continue;
        }
        if interval > 1 {
          r := r.(octets := Wrap64(r.octets * interval), packets := Wrap64(r.packets * interval),
                  sampled := true, samplingRate := interval);
        } else {
          r := r.(samplingRate := 1);
        }
        records := records[i := r];
      }
    }
  }
}
