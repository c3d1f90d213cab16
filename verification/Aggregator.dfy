/**
 Per-interface flow counters: a counter map that stops taking new keys once it
 is full and folds what would have been new into an "other" bucket, and the
 top-N cut taken when an interval is drained.
 */
module Aggregator {
  import opened Common
  import opened Wrap

  const OTHER: string := "other"
  const DEFAULT_TOP_N: nat := 25

  datatype Dimension = Talker | Conversation | Application | Protocol | Dscp | As | Subnet | TcpFlags

  /** An address by its width in bits and its value. */
  datatype Addr = Addr(width: nat, bits: nat)

  datatype Record = Record(
    inputIf: nat, outputIf: nat,
    src: Addr, dst: Addr, srcPort: nat, dstPort: nat, protocol: nat, tos: nat,
    srcAs: nat, dstAs: nat, srcMask: nat, dstMask: nat, tcpFlags: nat,
    bytes: uint64, packets: uint64, sampled: bool
  )

  datatype Packet = Packet(exporter: string, records: seq<Record>)

  datatype Key = Key(exporter: string, ifIndex: nat, dim: Dimension, value: string)

  /** What a top-N cut is taken within. */
  datatype Group = Group(exporter: string, ifIndex: nat, dim: Dimension)

  function GroupOf(k: Key): Group {
    Group(k.exporter, k.ifIndex, k.dim)
  }

  function OtherKey(g: Group): Key {
    Key(g.exporter, g.ifIndex, g.dim, OTHER)
  }

  datatype Counters = Counters(bytes: uint64, packets: uint64, sampled: bool)

  const ZERO: Counters := Counters(0, 0, false)

  /** How values are written out; which text they get does not matter here. */
  datatype Names = Names(
    addr: Addr -> string,
    network: (Addr, nat) -> string,
    proto: nat -> string,
    number: nat -> string,
    dscp: nat -> string,
    flags: nat -> string,
    wellKnown: map<(nat, nat), string>
  )

  // ------------------------------------------------------ naming one record

  predicate Before(a: Addr, b: Addr) {
    a.width < b.width || (a.width == b.width && a.bits <= b.bits)
  }

  function ConversationName(names: Names, a: Addr, b: Addr): string {
    if Before(a, b) then names.addr(a) + " \U{21C4} " + names.addr(b) else names.addr(b) + " \U{21C4} " + names.addr(a)
  }

  predicate Recognised(names: Names, port: nat, protocol: nat) {
    (port, protocol) in names.wellKnown
  }

  /** The port that names an exchange neither end of which is recognised. */
  function ServicePort(srcPort: nat, dstPort: nat): nat {
    if dstPort < srcPort || srcPort == 0 then dstPort else srcPort
  }

  function ApplicationName(names: Names, srcPort: nat, dstPort: nat, protocol: nat): string {
    var src, dst := Recognised(names, srcPort, protocol), Recognised(names, dstPort, protocol);
    if src && dst then names.wellKnown[(if srcPort <= dstPort then srcPort else dstPort, protocol)]
    else if src then names.wellKnown[(srcPort, protocol)]
    else if dst then names.wellKnown[(dstPort, protocol)]
    else
      var port := ServicePort(srcPort, dstPort);
      if port == 0 then names.proto(protocol) else names.proto(protocol) + "/" + names.number(port)
  }

  function SubnetName(names: Names, a: Addr, mask: nat): string {
    var bits := if mask == 0 || mask > a.width then (if a.width == 128 then 48 else 24) else mask;
    if bits > a.width then names.addr(a) else names.network(a, bits)
  }

  /** Both directions of an exchange are one conversation. */
  lemma ConversationIgnoresDirection(names: Names, a: Addr, b: Addr)
    ensures ConversationName(names, a, b) == ConversationName(names, b, a)
  {
    if Before(a, b) && Before(b, a) {
      assert a == b;
    }
  }

  /**
   An exchange is named alike in both directions exactly when one end is a
   recognised service or the ports are both zero or both not: a lone zero port
   is replaced when it is the source and believed when it is the destination.
   */
  lemma ApplicationIgnoresDirection(names: Names, p: nat, q: nat, protocol: nat)
    ensures ApplicationName(names, p, q, protocol) == ApplicationName(names, q, p, protocol)
       <==> Recognised(names, p, protocol) || Recognised(names, q, protocol) || (p == 0 <==> q == 0)
  {
    var name := names.proto(protocol);
    if !Recognised(names, p, protocol) && !Recognised(names, q, protocol) && (p == 0) != (q == 0) {
      var port := if p == 0 then q else p;
      assert |name + "/" + names.number(port)| > |name|;
    }
  }

  // --------------------------------------------------------- contributions

  datatype Contribution = Contribution(key: Key, bytes: uint64, packets: uint64, sampled: bool)

  function Contribute(exporter: string, ifIndex: nat, dim: Dimension, value: string, r: Record): Contribution {
    Contribution(Key(exporter, ifIndex, dim, value), r.bytes, r.packets, r.sampled)
  }

  /** The ingress interface where there is one, the egress one otherwise. */
  function Interface(r: Record): nat {
    if r.inputIf != 0 then r.inputIf else r.outputIf
  }

  /** Dimensions every record counts in. */
  function Plain(names: Names, e: string, r: Record): seq<Contribution> {
    var i := Interface(r);
    [Contribute(e, i, Talker, names.addr(r.src), r),
     Contribute(e, i, Talker, names.addr(r.dst), r),
     Contribute(e, i, Conversation, ConversationName(names, r.src, r.dst), r),
     Contribute(e, i, Application, ApplicationName(names, r.srcPort, r.dstPort, r.protocol), r),
     Contribute(e, i, Protocol, names.proto(r.protocol), r),
     Contribute(e, i, Dscp, names.dscp(r.tos / 4), r)]
  }

  function Systems(names: Names, e: string, r: Record): seq<Contribution> {
    (if r.srcAs != 0 then [Contribute(e, Interface(r), As, "AS" + names.number(r.srcAs), r)] else [])
    + (if r.dstAs != 0 && r.dstAs != r.srcAs then [Contribute(e, Interface(r), As, "AS" + names.number(r.dstAs), r)] else [])
  }

  function Networks(names: Names, e: string, r: Record): seq<Contribution> {
    var src, dst := SubnetName(names, r.src, r.srcMask), SubnetName(names, r.dst, r.dstMask);
    [Contribute(e, Interface(r), Subnet, src, r)]
    + (if dst != src then [Contribute(e, Interface(r), Subnet, dst, r)] else [])
  }

  function Flags(names: Names, e: string, r: Record): seq<Contribution> {
    if r.protocol == 6 then [Contribute(e, Interface(r), TcpFlags, names.flags(r.tcpFlags), r)] else []
  }

  function OfRecord(names: Names, e: string, r: Record): seq<Contribution> {
    if Interface(r) == 0 then []
    else Plain(names, e, r) + Systems(names, e, r) + Networks(names, e, r) + Flags(names, e, r)
  }

  function OfRecords(names: Names, e: string, records: seq<Record>): seq<Contribution> {
    if records == [] then []
    else OfRecords(names, e, records[..|records| - 1]) + OfRecord(names, e, records[|records| - 1])
  }

  function OfPackets(names: Names, packets: seq<Packet>): seq<Contribution> {
    if packets == [] then []
    else
      var last := packets[|packets| - 1];
      OfPackets(names, packets[..|packets| - 1]) + OfRecords(names, last.exporter, last.records)
  }

  // ------------------------------------------------------- the capped table

  datatype Table = Table(counts: map<Key, Counters>, dropped: uint64)

  predicate Full(counts: map<Key, Counters>, max: int) {
    max > 0 && |counts| >= max
  }

  function Slot(counts: map<Key, Counters>, max: int, k: Key): Key {
    if k !in counts && Full(counts, max) then OtherKey(GroupOf(k)) else k
  }

  function Plus(was: Counters, c: Contribution): Counters {
    Counters(Wrap64(was.bytes + c.bytes), Wrap64(was.packets + c.packets), was.sampled || c.sampled)
  }

  function Counted(counts: map<Key, Counters>, slot: Key, c: Contribution): map<Key, Counters> {
    counts[slot := Plus(if slot in counts then counts[slot] else ZERO, c)]
  }

  function Step(t: Table, max: int, c: Contribution): Table {
    Table(
      Counted(t.counts, Slot(t.counts, max, c.key), c),
      if c.key !in t.counts && Full(t.counts, max) then Wrap64(t.dropped + 1) else t.dropped)
  }

  function Fold(max: int, log: seq<Contribution>): Table {
    if log == [] then Table(map[], 0) else Step(Fold(max, log[..|log| - 1]), max, log[|log| - 1])
  }

  // --------------------------------------------------------- exact tallies

  datatype Tally = Tally(count: nat, bytes: nat, packets: nat, sampled: bool)

  function Stored(t: Tally): Counters {
    Counters(Wrap64(t.bytes), Wrap64(t.packets), t.sampled)
  }

  function Plus1(t: Tally, c: Contribution): Tally {
    Tally(t.count + 1, t.bytes + c.bytes, t.packets + c.packets, t.sampled || c.sampled)
  }

  /** Everything in the log that satisfies `p`, added up without a limit. */
  function SumIf(log: seq<Contribution>, p: Contribution -> bool): Tally {
    if log == [] then Tally(0, 0, 0, false)
    else
      var before := SumIf(log[..|log| - 1], p);
      if p(log[|log| - 1]) then Plus1(before, log[|log| - 1]) else before
  }

  function Total(log: seq<Contribution>, k: Key): Tally {
    SumIf(log, (c: Contribution) => c.key == k)
  }

  /** A key that has a bucket of its own. */
  predicate Detailed(counts: map<Key, Counters>, k: Key) {
    k in counts && k.value != OTHER
  }

  function Rest(log: seq<Contribution>, counts: map<Key, Counters>, g: Group): Tally {
    SumIf(log, (c: Contribution) => GroupOf(c.key) == g && !Detailed(counts, c.key))
  }

  lemma {:induction false} SumIfSame(log: seq<Contribution>, p: Contribution -> bool, q: Contribution -> bool)
    requires forall c :: c in log ==> p(c) == q(c)
    ensures SumIf(log, p) == SumIf(log, q)
  {
    if log != [] {
      assert log[|log| - 1] in log;
      SumIfSame(log[..|log| - 1], p, q);
    }
  }

  lemma SumIfLast(log: seq<Contribution>, c: Contribution, p: Contribution -> bool)
    ensures SumIf(log + [c], p) == if p(c) then Plus1(SumIf(log, p), c) else SumIf(log, p)
  {
    assert (log + [c])[..|log|] == log;
  }

  lemma StoredPlus(t: Tally, c: Contribution)
    ensures Plus(Stored(t), c) == Stored(Plus1(t, c))
  {
    WrapSum(t.bytes, c.bytes);
    WrapSum(t.packets, c.packets);
  }

  // ------------------------------------------------------------ refinement

  /** Every bucket of its own holds exactly its key's total. */
  ghost predicate DetailExact(log: seq<Contribution>, counts: map<Key, Counters>) {
    forall k :: Detailed(counts, k) ==> counts[k] == Stored(Total(log, k))
  }

  /** "other" holds exactly the rest of its group, and exists only for a rest. */
  ghost predicate OtherExact(log: seq<Contribution>, counts: map<Key, Counters>) {
    forall g ::
      (if OtherKey(g) in counts then counts[OtherKey(g)] else ZERO) == Stored(Rest(log, counts, g))
  }

  /** A key without a bucket was never seen, or came too late. */
  ghost predicate LeftOutOnlyWhenFull(log: seq<Contribution>, counts: map<Key, Counters>, max: int) {
    !Full(counts, max) ==> forall c :: c in log ==> c.key in counts
  }

  function DetailedKeys(counts: map<Key, Counters>): set<Key> {
    set k | k in counts && k.value != OTHER
  }

  ghost predicate Refines(log: seq<Contribution>, counts: map<Key, Counters>, max: int) {
    && DetailExact(log, counts)
    && OtherExact(log, counts)
    && LeftOutOnlyWhenFull(log, counts, max)
    && (max > 0 ==> |DetailedKeys(counts)| <= max)
  }

  lemma DetailStep(log: seq<Contribution>, counts: map<Key, Counters>, max: int, c: Contribution)
    requires DetailExact(log, counts) && LeftOutOnlyWhenFull(log, counts, max)
    ensures DetailExact(log + [c], Counted(counts, Slot(counts, max, c.key), c))
  {
    var slot := Slot(counts, max, c.key);
    var counts' := Counted(counts, slot, c);
    forall k | Detailed(counts', k)
      ensures counts'[k] == Stored(Total(log + [c], k))
    {
      SumIfLast(log, c, (d: Contribution) => d.key == k);
      if k == slot {
        StoredPlus(Total(log, k), c);
        if k !in counts {
          NeverSeen(log, k);
        }
      }
    }
  }

  lemma {:induction false} NeverSeen(log: seq<Contribution>, k: Key)
    requires forall c :: c in log ==> c.key != k
    ensures Total(log, k) == Tally(0, 0, 0, false)
  {
    SumIfSame(log, (c: Contribution) => c.key == k, (c: Contribution) => false);
    NothingSums(log);
  }

  lemma {:induction false} NothingSums(log: seq<Contribution>)
    ensures SumIf(log, (c: Contribution) => false) == Tally(0, 0, 0, false)
  {
    if log != [] {
      NothingSums(log[..|log| - 1]);
    }
  }

  lemma OtherStep(log: seq<Contribution>, counts: map<Key, Counters>, max: int, c: Contribution)
    requires OtherExact(log, counts) && LeftOutOnlyWhenFull(log, counts, max)
    ensures OtherExact(log + [c], Counted(counts, Slot(counts, max, c.key), c))
  {
    var slot := Slot(counts, max, c.key);
    var counts' := Counted(counts, slot, c);
    forall g
      ensures (if OtherKey(g) in counts' then counts'[OtherKey(g)] else ZERO) == Stored(Rest(log + [c], counts', g))
    {
      var p := (d: Contribution) => GroupOf(d.key) == g && !Detailed(counts, d.key);
      var p' := (d: Contribution) => GroupOf(d.key) == g && !Detailed(counts', d.key);
      SumIfSame(log, p, p');
      SumIfLast(log, c, p');
      StoredPlus(Rest(log, counts, g), c);
    }
  }

  lemma SeenStep(log: seq<Contribution>, counts: map<Key, Counters>, max: int, c: Contribution)
    requires LeftOutOnlyWhenFull(log, counts, max)
    ensures LeftOutOnlyWhenFull(log + [c], Counted(counts, Slot(counts, max, c.key), c), max)
  {
    var slot := Slot(counts, max, c.key);
    var counts' := Counted(counts, slot, c);
    assert counts'.Keys == counts.Keys + {slot};
    SubsetSize(counts.Keys, counts'.Keys);
  }

  lemma KeysStep(counts: map<Key, Counters>, max: int, c: Contribution)
    requires max > 0 ==> |DetailedKeys(counts)| <= max
    ensures max > 0 ==> |DetailedKeys(Counted(counts, Slot(counts, max, c.key), c))| <= max
  {
    var slot := Slot(counts, max, c.key);
    var counts' := Counted(counts, slot, c);
    if slot.value != OTHER && slot !in counts {
      assert DetailedKeys(counts') == DetailedKeys(counts) + {slot};
      SubsetSize(DetailedKeys(counts), counts.Keys);
    } else {
      assert DetailedKeys(counts') == DetailedKeys(counts);
    }
  }

  /**
   The capped table refines the unlimited one: over any contributions, a bucket
   other than "other" holds the exact total of its key, "other" holds exactly
   the rest of its group, a key goes without a bucket only once the table is
   full, and no more than `max` keys have one.
   */
  lemma {:induction false} CappedIsExact(max: int, log: seq<Contribution>)
    ensures Refines(log, Fold(max, log).counts, max)
  {
    if log == [] {
      assert DetailedKeys(map[]) == {};
    } else {
      var before, c := log[..|log| - 1], log[|log| - 1];
      var counts := Fold(max, before).counts;
      CappedIsExact(max, before);
      assert log == before + [c];
      DetailStep(before, counts, max, c);
      OtherStep(before, counts, max, c);
      SeenStep(before, counts, max, c);
      KeysStep(counts, max, c);
    }
  }

  /**
   Against the same table without a limit: every bucket with a value of its own
   is there too and holds the same.
   */
  lemma AgreesWithUncapped(max: int, log: seq<Contribution>, k: Key)
    requires Detailed(Fold(max, log).counts, k)
    ensures k in Fold(0, log).counts && Fold(max, log).counts[k] == Fold(0, log).counts[k]
  {
    CappedIsExact(max, log);
    CappedIsExact(0, log);
    KeysWereSeen(max, log, k);
    var c :| c in log && c.key == k;
    assert c.key in Fold(0, log).counts;
  }

  lemma {:induction false} KeysWereSeen(max: int, log: seq<Contribution>, k: Key)
    requires Detailed(Fold(max, log).counts, k)
    ensures exists c :: c in log && c.key == k
  {
    var before, c := log[..|log| - 1], log[|log| - 1];
    if Detailed(Fold(max, before).counts, k) {
      KeysWereSeen(max, before, k);
      var d :| d in before && d.key == k;
      assert d in log;
    } else {
      assert c.key == k && c in log;
    }
  }

  /** How many contributions have no bucket of their own. */
  function LeftOut(log: seq<Contribution>, counts: map<Key, Counters>): nat {
    SumIf(log, (c: Contribution) => c.key !in counts).count
  }

  lemma DroppedStep(max: int, before: seq<Contribution>, c: Contribution)
    requires c.key.value != OTHER && forall d :: d in before ==> d.key.value != OTHER
    requires Fold(max, before).dropped == Wrap64(LeftOut(before, Fold(max, before).counts))
    ensures Fold(max, before + [c]).dropped == Wrap64(LeftOut(before + [c], Fold(max, before + [c]).counts))
  {
    assert (before + [c])[..|before|] == before;
    CappedIsExact(max, before);
    LeftOutStep(before, Fold(max, before).counts, max, c);
    WrapSum(LeftOut(before, Fold(max, before).counts), 1);
  }

  /** When no value is written "other", `dropped` counts what has no bucket. */
  lemma {:induction false} DroppedCounts(max: int, log: seq<Contribution>)
    requires forall c :: c in log ==> c.key.value != OTHER
    ensures Fold(max, log).dropped == Wrap64(LeftOut(log, Fold(max, log).counts))
  {
    if log != [] {
      var before, c := log[..|log| - 1], log[|log| - 1];
      assert forall d :: d in before ==> d in log;
      assert c in log;
      DroppedCounts(max, before);
      DroppedStep(max, before, c);
      assert log == before + [c];
    }
  }

  lemma LeftOutStep(log: seq<Contribution>, counts: map<Key, Counters>, max: int, c: Contribution)
    requires LeftOutOnlyWhenFull(log, counts, max)
    requires c.key.value != OTHER && forall d :: d in log ==> d.key.value != OTHER
    ensures LeftOut(log + [c], Counted(counts, Slot(counts, max, c.key), c))
         == LeftOut(log, counts) + (if c.key !in counts && Full(counts, max) then 1 else 0)
  {
    var counts' := Counted(counts, Slot(counts, max, c.key), c);
    var p, p' := (d: Contribution) => d.key !in counts, (d: Contribution) => d.key !in counts';
    LeftOutStays(log, counts, max, c);
    SumIfSame(log, p, p');
    SumIfLast(log, c, p');
  }

  lemma LeftOutStays(log: seq<Contribution>, counts: map<Key, Counters>, max: int, c: Contribution)
    requires LeftOutOnlyWhenFull(log, counts, max)
    requires c.key.value != OTHER && forall d :: d in log ==> d.key.value != OTHER
    ensures var counts' := Counted(counts, Slot(counts, max, c.key), c);
            && (forall d :: d in log ==> (d.key !in counts <==> d.key !in counts'))
            && (c.key !in counts' <==> c.key !in counts && Full(counts, max))
  {
  }

  // ---------------------------------------------------------- conservation

  ghost function BytesIn(counts: map<Key, Counters>, keys: set<Key>, g: Group): nat
    requires keys <= counts.Keys
  {
    if keys == {} then 0
    else
      var k :| k in keys;
      (if GroupOf(k) == g then counts[k].bytes else 0) + BytesIn(counts, keys - {k}, g)
  }

  lemma {:induction false} BytesInWithout(counts: map<Key, Counters>, keys: set<Key>, g: Group, k: Key)
    requires keys <= counts.Keys && k in keys
    ensures BytesIn(counts, keys, g)
         == (if GroupOf(k) == g then counts[k].bytes else 0) + BytesIn(counts, keys - {k}, g)
    decreases |keys|
  {
    var x :| x in keys && BytesIn(counts, keys, g)
                       == (if GroupOf(x) == g then counts[x].bytes else 0) + BytesIn(counts, keys - {x}, g);
    if x != k {
      BytesInWithout(counts, keys - {x}, g, k);
      BytesInWithout(counts, keys - {k}, g, x);
      assert keys - {x} - {k} == keys - {k} - {x};
    }
  }

  lemma {:induction false} BytesInSame(a: map<Key, Counters>, b: map<Key, Counters>, keys: set<Key>, g: Group)
    requires keys <= a.Keys && keys <= b.Keys && forall k :: k in keys ==> a[k] == b[k]
    ensures BytesIn(a, keys, g) == BytesIn(b, keys, g)
    decreases |keys|
  {
    if k :| k in keys {
      BytesInWithout(a, keys, g, k);
      BytesInWithout(b, keys, g, k);
      BytesInSame(a, b, keys - {k}, g);
    }
  }

  /** Bytes over all the buckets of a group, "other" included. */
  ghost function GroupBytes(counts: map<Key, Counters>, g: Group): nat {
    BytesIn(counts, counts.Keys, g)
  }

  /** Counting changes one bucket and leaves the rest of the group alone. */
  lemma GroupBytesSplit(counts: map<Key, Counters>, slot: Key, c: Contribution, g: Group) returns (was: nat, rest: nat)
    ensures var counts' := Counted(counts, slot, c);
            && was == (if slot in counts then counts[slot].bytes else 0)
            && counts'[slot].bytes == Wrap64(was + c.bytes)
            && GroupBytes(counts, g) == (if GroupOf(slot) == g then was else 0) + rest
            && GroupBytes(counts', g) == (if GroupOf(slot) == g then counts'[slot].bytes else 0) + rest
  {
    var counts' := Counted(counts, slot, c);
    var others := counts.Keys - {slot};
    assert counts'.Keys - {slot} == others;
    BytesInWithout(counts', counts'.Keys, g, slot);
    BytesInSame(counts, counts', others, g);
    was, rest := if slot in counts then counts[slot].bytes else 0, BytesIn(counts, others, g);
    if slot in counts {
      BytesInWithout(counts, counts.Keys, g, slot);
    } else {
      assert counts.Keys == others;
    }
  }

  lemma GroupBytesStep(counts: map<Key, Counters>, slot: Key, c: Contribution, g: Group)
    ensures Wrap64(GroupBytes(Counted(counts, slot, c), g))
         == Wrap64(GroupBytes(counts, g) + (if GroupOf(slot) == g then c.bytes else 0))
  {
    var was, rest := GroupBytesSplit(counts, slot, c, g);
    WrapSum(was + c.bytes, rest);
  }

  /** What one dimension of one interface was given. */
  function GroupTotal(log: seq<Contribution>, g: Group): nat {
    SumIf(log, (c: Contribution) => GroupOf(c.key) == g).bytes
  }

  /** Folding into "other" loses nothing: a group's buckets add up to all it was given. */
  lemma {:induction false} NothingIsLost(max: int, log: seq<Contribution>, g: Group)
    ensures Wrap64(GroupBytes(Fold(max, log).counts, g)) == Wrap64(GroupTotal(log, g))
  {
    if log == [] {
      assert BytesIn(map[], {}, g) == 0;
    } else {
      var before, c := log[..|log| - 1], log[|log| - 1];
      var counts := Fold(max, before).counts;
      NothingIsLost(max, before, g);
      GroupBytesStep(counts, Slot(counts, max, c.key), c, g);
      var given := if GroupOf(c.key) == g then c.bytes else 0;
      WrapSum(GroupBytes(counts, g), given);
      WrapSum(GroupTotal(before, g), given);
    }
  }

  /** The bytes of the records that belong to one interface of one exporter. */
  function AttributedRecords(records: seq<Record>, ifIndex: nat): nat {
    if records == [] then 0
    else
      var r := records[|records| - 1];
      AttributedRecords(records[..|records| - 1], ifIndex) + (if Interface(r) == ifIndex then r.bytes else 0)
  }

  function Attributed(packets: seq<Packet>, e: string, ifIndex: nat): nat {
    if packets == [] then 0
    else
      var p := packets[|packets| - 1];
      Attributed(packets[..|packets| - 1], e, ifIndex)
      + (if p.exporter == e then AttributedRecords(p.records, ifIndex) else 0)
  }

  /** What a dimension that takes every record makes of its bytes: talkers, once per end. */
  function Taken(dim: Dimension, bytes: nat): nat {
    if dim == Talker then bytes + bytes else bytes
  }

  predicate TakesEveryRecord(dim: Dimension) {
    dim in {Talker, Conversation, Application, Protocol, Dscp}
  }

  lemma {:induction false} GroupTotalJoins(a: seq<Contribution>, b: seq<Contribution>, g: Group)
    ensures GroupTotal(a + b, g) == GroupTotal(a, g) + GroupTotal(b, g)
  {
    if b == [] {
      assert a + b == a;
    } else {
      var n := |b| - 1;
      GroupTotalJoins(a, b[..n], g);
      assert (a + b)[..|a + b| - 1] == a + b[..n];
    }
  }

  lemma {:induction false} OutsideGroup(log: seq<Contribution>, g: Group)
    requires forall c :: c in log ==> GroupOf(c.key) != g
    ensures GroupTotal(log, g) == 0
  {
    if log != [] {
      assert log[|log| - 1] in log;
      OutsideGroup(log[..|log| - 1], g);
    }
  }

  lemma OneGroupTotal(c: Contribution, g: Group)
    ensures GroupTotal([c], g) == if GroupOf(c.key) == g then c.bytes else 0
  {
    var p := (c: Contribution) => GroupOf(c.key) == g;
    assert [c][..|[c]| - 1] == [];
    assert SumIf([c], p) == if p(c) then Plus1(SumIf([], p), c) else SumIf([], p);
  }

  lemma PlainTotal(names: Names, e: string, r: Record, g: Group)
    requires TakesEveryRecord(g.dim)
    ensures GroupTotal(Plain(names, e, r), g)
         == if (g.exporter, g.ifIndex) == (e, Interface(r)) then Taken(g.dim, r.bytes) else 0
  {
    var s := Plain(names, e, r);
    assert s == [s[0]] + [s[1]] + [s[2]] + [s[3]] + [s[4]] + [s[5]];
    OneGroupTotal(s[0], g);
    GroupTotalJoins([s[0]], [s[1]], g);
    GroupTotalJoins([s[0]] + [s[1]], [s[2]], g);
    GroupTotalJoins([s[0]] + [s[1]] + [s[2]], [s[3]], g);
    GroupTotalJoins([s[0]] + [s[1]] + [s[2]] + [s[3]], [s[4]], g);
    GroupTotalJoins([s[0]] + [s[1]] + [s[2]] + [s[3]] + [s[4]], [s[5]], g);
    OneGroupTotal(s[1], g);
    OneGroupTotal(s[2], g);
    OneGroupTotal(s[3], g);
    OneGroupTotal(s[4], g);
    OneGroupTotal(s[5], g);
  }

  lemma RecordTotal(names: Names, e: string, r: Record, g: Group)
    requires TakesEveryRecord(g.dim) && g.ifIndex != 0
    ensures GroupTotal(OfRecord(names, e, r), g)
         == if g.exporter == e && g.ifIndex == Interface(r) then Taken(g.dim, r.bytes) else 0
  {
    if Interface(r) != 0 {
      var a, b, c, d := Plain(names, e, r), Systems(names, e, r), Networks(names, e, r), Flags(names, e, r);
      PlainTotal(names, e, r, g);
      OutsideGroup(b, g);
      OutsideGroup(c, g);
      OutsideGroup(d, g);
      GroupTotalJoins(a, b, g);
      GroupTotalJoins(a + b, c, g);
      GroupTotalJoins(a + b + c, d, g);
    }
  }

  lemma {:induction false} RecordsTotal(names: Names, e: string, records: seq<Record>, g: Group)
    requires TakesEveryRecord(g.dim) && g.ifIndex != 0
    ensures GroupTotal(OfRecords(names, e, records), g)
         == if g.exporter == e then Taken(g.dim, AttributedRecords(records, g.ifIndex)) else 0
  {
    if records != [] {
      var n := |records| - 1;
      RecordsTotal(names, e, records[..n], g);
      RecordTotal(names, e, records[n], g);
      GroupTotalJoins(OfRecords(names, e, records[..n]), OfRecord(names, e, records[n]), g);
    }
  }

  lemma {:induction false} PacketsTotal(names: Names, packets: seq<Packet>, g: Group)
    requires TakesEveryRecord(g.dim) && g.ifIndex != 0
    ensures GroupTotal(OfPackets(names, packets), g) == Taken(g.dim, Attributed(packets, g.exporter, g.ifIndex))
  {
    if packets != [] {
      var n := |packets| - 1;
      PacketsTotal(names, packets[..n], g);
      RecordsTotal(names, packets[n].exporter, packets[n].records, g);
      GroupTotalJoins(OfPackets(names, packets[..n]), OfRecords(names, packets[n].exporter, packets[n].records), g);
    }
  }

  /**
   However small the cap, for every exporter and interface the conversation,
   application, protocol and DSCP buckets each add up to the bytes of exactly
   the records of that interface, and the talker buckets to twice as many.
   */
  lemma TotalsAreHonest(names: Names, max: int, packets: seq<Packet>, g: Group)
    requires TakesEveryRecord(g.dim) && g.ifIndex != 0
    ensures Wrap64(GroupBytes(Fold(max, OfPackets(names, packets)).counts, g))
         == Wrap64(Taken(g.dim, Attributed(packets, g.exporter, g.ifIndex)))
  {
    NothingIsLost(max, OfPackets(names, packets), g);
    PacketsTotal(names, packets, g);
  }

  // ---------------------------------------------------------- the top-N cut

  datatype Bucket = Bucket(key: Key, counters: Counters)

  /** More bytes first, ties on the value. */
  predicate Beats(a: Bucket, b: Bucket) {
    a.counters.bytes > b.counters.bytes
    || (a.counters.bytes == b.counters.bytes && TextLess(a.key.value, b.key.value))
  }

  function BucketOf(counts: map<Key, Counters>, k: Key): Bucket
    requires k in counts
  {
    Bucket(k, counts[k])
  }

  function GroupKeys(counts: map<Key, Counters>, g: Group): set<Key> {
    set k | k in counts && GroupOf(k) == g
  }

  /** The members of a bucket's group that come before it. */
  function Ahead(counts: map<Key, Counters>, k: Key): set<Key>
    requires k in counts
  {
    set x | x in GroupKeys(counts, GroupOf(k)) && Beats(BucketOf(counts, x), BucketOf(counts, k))
  }

  function KeysIn(rows: seq<Bucket>): set<Key> {
    set b | b in rows :: b.key
  }

  predicate DistinctKeys(rows: seq<Bucket>) {
    forall i, j :: 0 <= i < j < |rows| ==> rows[i].key != rows[j].key
  }

  predicate RowsOf(rows: seq<Bucket>, counts: map<Key, Counters>, keys: set<Key>) {
    && DistinctKeys(rows)
    && KeysIn(rows) == keys
    && forall b :: b in rows ==> b.key in counts && b.counters == counts[b.key]
  }

  predicate Ordered(rows: seq<Bucket>) {
    forall i, j :: 0 <= i < j < |rows| ==> Beats(rows[i], rows[j])
  }

  /** What a drain hands out: in each group, the buckets fewer than `n` others beat. */
  ghost predicate IsTop(out: seq<Bucket>, counts: map<Key, Counters>, groups: set<Group>, n: nat) {
    && DistinctKeys(out)
    && (forall b :: b in out ==> b.key in counts && b.counters == counts[b.key])
    && (forall k :: k in KeysIn(out) <==> k in counts && GroupOf(k) in groups && |Ahead(counts, k)| < n)
  }

  lemma {:induction false} DistinctCount(rows: seq<Bucket>)
    requires DistinctKeys(rows)
    ensures |KeysIn(rows)| == |rows|
  {
    if rows == [] {
      assert KeysIn(rows) == {};
    } else {
      var n := |rows| - 1;
      DistinctCount(rows[..n]);
      KeysSplit(rows);
      forall b | b in rows[..n]
        ensures b.key != rows[n].key
      {
        var i :| 0 <= i < n && rows[..n][i] == b;
      }
    }
  }

  lemma KeysSplit(rows: seq<Bucket>)
    requires rows != []
    ensures KeysIn(rows) == KeysIn(rows[..|rows| - 1]) + {rows[|rows| - 1].key}
  {
    KeysOfLast(rows[..|rows| - 1], rows[|rows| - 1]);
    assert rows == rows[..|rows| - 1] + [rows[|rows| - 1]];
  }

  lemma KeysOfLast(rows: seq<Bucket>, b: Bucket)
    ensures KeysIn(rows + [b]) == KeysIn(rows) + {b.key}
  {
    forall k | k in KeysIn(rows) + {b.key}
      ensures k in KeysIn(rows + [b])
    {
      if k in KeysIn(rows) {
        var x :| x in rows && x.key == k;
        assert x in rows + [b];
      } else {
        assert b in rows + [b];
      }
    }
  }

  /** In an ordered group exactly the rows before a bucket beat it. */
  lemma RankIsPosition(counts: map<Key, Counters>, g: Group, rows: seq<Bucket>, i: nat)
    requires RowsOf(rows, counts, GroupKeys(counts, g)) && Ordered(rows) && i < |rows|
    ensures rows[i].key in counts && |Ahead(counts, rows[i].key)| == i
  {
    var k := rows[i].key;
    assert rows[i] in rows && k in KeysIn(rows);
    forall x | x in Ahead(counts, k)
      ensures x in KeysIn(rows[..i])
    {
      assert x in KeysIn(rows);
      var j :| 0 <= j < |rows| && rows[j].key == x;
      assert rows[j] in rows;
      if i < j {
        NotBoth(rows[i], rows[j]);
      } else if i == j {
        TextOrder(k.value, k.value, k.value);
      }
      assert rows[..i][j] == rows[j];
    }
    forall x | x in KeysIn(rows[..i])
      ensures x in Ahead(counts, k)
    {
      var j :| 0 <= j < i && rows[..i][j].key == x;
      assert rows[j] in rows && x in KeysIn(rows);
      assert Beats(rows[j], rows[i]);
    }
    assert Ahead(counts, k) == KeysIn(rows[..i]);
    DistinctCount(rows[..i]);
  }

  lemma NotBoth(a: Bucket, b: Bucket)
    requires Beats(a, b)
    ensures !Beats(b, a)
  {
    TextOrder(a.key.value, b.key.value, a.key.value);
  }

  // ---------------------------------------------------------- the aggregator

  lemma JoinLog<T>(log: seq<T>, a: seq<T>, b: seq<T>, c: seq<T>, d: seq<T>)
    ensures log + a + b + c + d == log + (a + b + c + d)
  {
  }

  lemma JoinTwo<T>(log: seq<T>, a: seq<T>, b: seq<T>)
    ensures (log + a) + b == log + (a + b)
  {
  }

  lemma RecordsOneMore(names: Names, e: string, records: seq<Record>, i: nat)
    requires i < |records|
    ensures OfRecords(names, e, records[..i + 1]) == OfRecords(names, e, records[..i]) + OfRecord(names, e, records[i])
  {
    assert records[..i + 1][..i] == records[..i];
  }

  class Aggregator {
    var topN: int
    const maxKeys: int
    const names: Names
    var counts: map<Key, Counters>
    var dropped: uint64
    /** What was contributed since the last drain. */
    ghost var log: seq<Contribution>

    ghost predicate Valid()
      reads this
    {
      Table(counts, dropped) == Fold(maxKeys, log)
    }

    constructor (topN: int, maxKeys: int, names: Names)
      ensures Valid() && log == []
      ensures this.topN == topN && this.maxKeys == maxKeys && this.names == names
    {
      this.topN, this.maxKeys, this.names := topN, maxKeys, names;
      counts, dropped, log := map[], 0, [];
    }

    method AddKey(key: Key, r: Record)
      requires Valid()
      modifies `counts, `dropped, `log
      ensures Valid()
      ensures log == old(log) + [Contribution(key, r.bytes, r.packets, r.sampled)]
    {
      ghost var c := Contribution(key, r.bytes, r.packets, r.sampled);
      var k := key;
      if k !in counts {
        if maxKeys > 0 && |counts| >= maxKeys {
          k := Key(k.exporter, k.ifIndex, k.dim, OTHER);
          if k !in counts {
            counts := counts[k := ZERO];
          }
          dropped := (dropped + 1) % TWO_64;
        } else {
          counts := counts[k := ZERO];
        }
      }
      var now := counts[k];
      counts := counts[k := Counters((now.bytes + r.bytes) % TWO_64, (now.packets + r.packets) % TWO_64, now.sampled || r.sampled)];
      log := log + [c];
      assert log[..|log| - 1] == old(log);
      assert counts == Counted(old(counts), Slot(old(counts), maxKeys, key), c);
    }

    method AddRecord(exporter: string, r: Record)
      requires Valid()
      modifies `counts, `dropped, `log
      ensures Valid()
      ensures log == old(log) + OfRecord(names, exporter, r)
    {
      var ifIndex := r.inputIf;
      if ifIndex == 0 {
        ifIndex := r.outputIf;
      }
      if ifIndex == 0 {
        return;
      }
      AddPlain(exporter, ifIndex, r);
      AddSystems(exporter, ifIndex, r);
      AddNetworks(exporter, ifIndex, r);
      AddFlags(exporter, ifIndex, r);
      JoinLog(old(log), Plain(names, exporter, r), Systems(names, exporter, r), Networks(names, exporter, r), Flags(names, exporter, r));
    }

    method AddPlain(exporter: string, ifIndex: nat, r: Record)
      requires Valid() && ifIndex == Interface(r)
      modifies `counts, `dropped, `log
      ensures Valid()
      ensures log == old(log) + Plain(names, exporter, r)
    {
      AddEnds(exporter, ifIndex, r);
      AddClasses(exporter, ifIndex, r);
    }

    method AddEnds(exporter: string, ifIndex: nat, r: Record)
      requires Valid() && ifIndex == Interface(r)
      modifies `counts, `dropped, `log
      ensures Valid()
      ensures log == old(log) + Plain(names, exporter, r)[..3]
    {
      AddKey(Key(exporter, ifIndex, Talker, names.addr(r.src)), r);
      AddKey(Key(exporter, ifIndex, Talker, names.addr(r.dst)), r);
      AddKey(Key(exporter, ifIndex, Conversation, ConversationName(names, r.src, r.dst)), r);
    }

    method AddClasses(exporter: string, ifIndex: nat, r: Record)
      requires Valid() && ifIndex == Interface(r)
      modifies `counts, `dropped, `log
      ensures Valid()
      ensures log == old(log) + Plain(names, exporter, r)[3..]
    {
      AddKey(Key(exporter, ifIndex, Application, ApplicationName(names, r.srcPort, r.dstPort, r.protocol)), r);
      AddKey(Key(exporter, ifIndex, Protocol, names.proto(r.protocol)), r);
      AddKey(Key(exporter, ifIndex, Dscp, names.dscp(r.tos / 4)), r);
    }

    method AddFlags(exporter: string, ifIndex: nat, r: Record)
      requires Valid() && ifIndex == Interface(r)
      modifies `counts, `dropped, `log
      ensures Valid()
      ensures log == old(log) + Flags(names, exporter, r)
    {
      if r.protocol == 6 {
        AddKey(Key(exporter, ifIndex, TcpFlags, names.flags(r.tcpFlags)), r);
      }
    }

    method AddSystems(exporter: string, ifIndex: nat, r: Record)
      requires Valid() && ifIndex == Interface(r)
      modifies `counts, `dropped, `log
      ensures Valid()
      ensures log == old(log) + Systems(names, exporter, r)
    {
      if r.srcAs != 0 {
        AddKey(Key(exporter, ifIndex, As, "AS" + names.number(r.srcAs)), r);
      }
      if r.dstAs != 0 && r.dstAs != r.srcAs {
        AddKey(Key(exporter, ifIndex, As, "AS" + names.number(r.dstAs)), r);
      }
    }

    method AddNetworks(exporter: string, ifIndex: nat, r: Record)
      requires Valid() && ifIndex == Interface(r)
      modifies `counts, `dropped, `log
      ensures Valid()
      ensures log == old(log) + Networks(names, exporter, r)
    {
      var src, dst := SubnetName(names, r.src, r.srcMask), SubnetName(names, r.dst, r.dstMask);
      AddKey(Key(exporter, ifIndex, Subnet, src), r);
      if dst != src {
        AddKey(Key(exporter, ifIndex, Subnet, dst), r);
      }
    }

    method AddAt(p: Packet, i: nat, ghost start: seq<Contribution>)
      requires Valid() && i < |p.records|
      requires log == start + OfRecords(names, p.exporter, p.records[..i])
      modifies `counts, `dropped, `log
      ensures Valid()
      ensures log == start + OfRecords(names, p.exporter, p.records[..i + 1])
    {
      RecordsOneMore(names, p.exporter, p.records, i);
      JoinTwo(start, OfRecords(names, p.exporter, p.records[..i]), OfRecord(names, p.exporter, p.records[i]));
      AddRecord(p.exporter, p.records[i]);
    }

    /** Fold a packet's records into the current interval. */
    method Add(p: Packet)
      requires Valid()
      modifies `counts, `dropped, `log
      ensures Valid()
      ensures log == old(log) + OfRecords(names, p.exporter, p.records)
    {
      for i := 0 to |p.records|
        invariant Valid()
        invariant log == old(log) + OfRecords(names, p.exporter, p.records[..i])
      {
        AddAt(p, i, old(log));
      }
      assert p.records[..|p.records|] == p.records;
    }

    /** Hand out the top buckets of every group and start a new interval. */
    method Drain() returns (out: seq<Bucket>)
      requires Valid()
      modifies `counts, `dropped, `log
      ensures Valid() && counts == map[] && dropped == 0 && log == []
      ensures var n := if topN <= 0 then DEFAULT_TOP_N else topN;
              IsTop(out, old(counts), (set k | k in old(counts) :: GroupOf(k)), n)
    {
      var taken := counts;
      counts, dropped, log := map[], 0, [];
      out := TopOf(taken, if topN <= 0 then DEFAULT_TOP_N else topN);
    }
  }

  method TopOf(counts: map<Key, Counters>, n: nat) returns (out: seq<Bucket>)
    ensures IsTop(out, counts, (set k | k in counts :: GroupOf(k)), n)
  {
    var grouped := GroupUp(counts);
    out := [];
    var rest := grouped.Keys;
    while rest != {}
      invariant rest <= grouped.Keys
      invariant IsTop(out, counts, grouped.Keys - rest, n)
    {
      var g :| g in rest;
      var rows := SortGroup(counts, g, grouped[g]);
      TakeTop(out, counts, grouped.Keys - rest, g, rows, n);
      if |rows| > n {
        rows := rows[..n];
      }
      out := out + rows;
      assert grouped.Keys - (rest - {g}) == grouped.Keys - rest + {g};
      rest := rest - {g};
    }
    assert grouped.Keys - rest == grouped.Keys;
  }

  method SortGroup(counts: map<Key, Counters>, g: Group, rows: seq<Bucket>) returns (sorted: seq<Bucket>)
    requires RowsOf(rows, counts, GroupKeys(counts, g))
    ensures RowsOf(sorted, counts, GroupKeys(counts, g)) && Ordered(sorted)
  {
    sorted := Sort(rows);
    SortedRows(rows, sorted, counts, GroupKeys(counts, g));
  }

  ghost predicate Grouped(grouped: map<Group, seq<Bucket>>, counts: map<Key, Counters>, done: set<Key>) {
    && (forall k :: k in done ==> GroupOf(k) in grouped)
    && (forall g :: g in grouped ==> RowsOf(grouped[g], counts, set k | k in done && GroupOf(k) == g))
    && (forall g :: g in grouped ==> exists k :: k in done && GroupOf(k) == g)
  }

  method GroupUp(counts: map<Key, Counters>) returns (grouped: map<Group, seq<Bucket>>)
    ensures grouped.Keys == set k | k in counts :: GroupOf(k)
    ensures forall g :: g in grouped ==> RowsOf(grouped[g], counts, GroupKeys(counts, g))
  {
    grouped := map[];
    var rest := counts.Keys;
    while rest != {}
      invariant rest <= counts.Keys
      invariant Grouped(grouped, counts, counts.Keys - rest)
    {
      var k :| k in rest;
      grouped := FileOne(grouped, counts, counts.Keys - rest, k);
      assert counts.Keys - (rest - {k}) == counts.Keys - rest + {k};
      rest := rest - {k};
    }
    assert counts.Keys - rest == counts.Keys;
    forall g | g in grouped
      ensures RowsOf(grouped[g], counts, GroupKeys(counts, g))
    {
      assert GroupKeys(counts, g) == set k | k in counts.Keys && GroupOf(k) == g;
    }
    forall g
      ensures g in grouped <==> g in set k | k in counts :: GroupOf(k)
    {
      if g in grouped {
        var k :| k in counts.Keys && GroupOf(k) == g;
      }
    }
  }

  method FileOne(grouped: map<Group, seq<Bucket>>, counts: map<Key, Counters>, ghost done: set<Key>, k: Key)
    returns (more: map<Group, seq<Bucket>>)
    requires Grouped(grouped, counts, done) && k in counts && k !in done
    ensures Grouped(more, counts, done + {k})
  {
    var g := GroupOf(k);
    var rows := if g in grouped then grouped[g] else [];
    RowsOneMore(rows, counts, (set x | x in done && GroupOf(x) == g), k);
    GroupedOneMore(grouped, counts, done, k, rows + [BucketOf(counts, k)]);
    more := grouped[g := rows + [BucketOf(counts, k)]];
  }

  lemma RowsOneMore(rows: seq<Bucket>, counts: map<Key, Counters>, keys: set<Key>, k: Key)
    requires RowsOf(rows, counts, keys) && k in counts && k !in keys
    ensures RowsOf(rows + [BucketOf(counts, k)], counts, keys + {k})
  {
    KeysOfLast(rows, BucketOf(counts, k));
    forall i | 0 <= i < |rows|
      ensures rows[i].key != k
    {
      assert rows[i] in rows && rows[i].key in KeysIn(rows);
    }
  }

  lemma GroupedOneMore(grouped: map<Group, seq<Bucket>>, counts: map<Key, Counters>, done: set<Key>, k: Key, rows: seq<Bucket>)
    requires Grouped(grouped, counts, done) && k !in done
    requires RowsOf(rows, counts, (set x | x in done && GroupOf(x) == GroupOf(k)) + {k})
    ensures Grouped(grouped[GroupOf(k) := rows], counts, done + {k})
  {
    var grouped' := grouped[GroupOf(k) := rows];
    forall g | g in grouped'
      ensures RowsOf(grouped'[g], counts, set x | x in done + {k} && GroupOf(x) == g)
      ensures exists x :: x in done + {k} && GroupOf(x) == g
    {
      var was := set x | x in done && GroupOf(x) == g;
      assert (set x | x in done + {k} && GroupOf(x) == g) == was + (if GroupOf(k) == g then {k} else {});
      if g == GroupOf(k) {
        assert k in done + {k};
      } else {
        var x :| x in done && GroupOf(x) == g;
        assert x in done + {k};
      }
    }
  }

  /** Stable ordering is not needed: no two rows of a group compare equal. */
  method Sort(rows: seq<Bucket>) returns (sorted: seq<Bucket>)
    ensures multiset(sorted) == multiset(rows)
    ensures forall i, j :: 0 <= i < j < |sorted| ==> !Beats(sorted[j], sorted[i])
  {
    sorted := [];
    for n := 0 to |rows|
      invariant multiset(sorted) == multiset(rows[..n])
      invariant forall i, j :: 0 <= i < j < |sorted| ==> !Beats(sorted[j], sorted[i])
    {
      assert rows[..n + 1] == rows[..n] + [rows[n]];
      sorted := Insert(sorted, rows[n]);
    }
    assert rows[..|rows|] == rows;
  }

  method Insert(sorted: seq<Bucket>, b: Bucket) returns (more: seq<Bucket>)
    requires forall i, j :: 0 <= i < j < |sorted| ==> !Beats(sorted[j], sorted[i])
    ensures multiset(more) == multiset(sorted) + multiset{b}
    ensures forall i, j :: 0 <= i < j < |more| ==> !Beats(more[j], more[i])
  {
    var i := 0;
    while i < |sorted| && !Beats(b, sorted[i])
      invariant 0 <= i <= |sorted|
      invariant forall j :: 0 <= j < i ==> !Beats(b, sorted[j])
    {
      i := i + 1;
    }
    InsertedInOrder(sorted, b, i);
    more := sorted[..i] + [b] + sorted[i..];
    assert sorted == sorted[..i] + sorted[i..];
  }

  lemma InsertedInOrder(sorted: seq<Bucket>, b: Bucket, i: nat)
    requires forall i, j :: 0 <= i < j < |sorted| ==> !Beats(sorted[j], sorted[i])
    requires i <= |sorted| && (i < |sorted| ==> Beats(b, sorted[i]))
    requires forall j :: 0 <= j < i ==> !Beats(b, sorted[j])
    ensures var more := sorted[..i] + [b] + sorted[i..];
            forall j, k :: 0 <= j < k < |more| ==> !Beats(more[k], more[j])
  {
    forall j | i <= j < |sorted|
      ensures !Beats(sorted[j], b)
    {
      if i == j {
        NotBoth(b, sorted[i]);
      } else {
        NotAhead(b, sorted[i], sorted[j]);
      }
    }
  }

  lemma NotAhead(b: Bucket, x: Bucket, y: Bucket)
    requires Beats(b, x) && !Beats(y, x)
    ensures !Beats(y, b)
  {
    TextOrder(y.key.value, b.key.value, x.key.value);
  }

  lemma SortedRows(rows: seq<Bucket>, sorted: seq<Bucket>, counts: map<Key, Counters>, keys: set<Key>)
    requires RowsOf(rows, counts, keys) && multiset(sorted) == multiset(rows)
    requires forall k, l :: k in keys && l in keys && k != l ==> k.value != l.value
    requires forall i, j :: 0 <= i < j < |sorted| ==> !Beats(sorted[j], sorted[i])
    ensures RowsOf(sorted, counts, keys) && Ordered(sorted)
  {
    forall b
      ensures b in sorted <==> b in rows
    {
      assert b in multiset(sorted) <==> b in multiset(rows);
    }
    assert KeysIn(sorted) == KeysIn(rows);
    DistinctCount(rows);
    assert |sorted| == |multiset(sorted)| == |multiset(rows)| == |rows|;
    CountDistinct(sorted);
    forall i, j | 0 <= i < j < |sorted|
      ensures Beats(sorted[i], sorted[j])
    {
      assert sorted[i].key in KeysIn(sorted) && sorted[j].key in KeysIn(sorted);
      TextOrder(sorted[i].key.value, sorted[j].key.value, sorted[i].key.value);
    }
  }

  lemma {:induction false} CountDistinct(rows: seq<Bucket>)
    requires |KeysIn(rows)| == |rows|
    ensures DistinctKeys(rows)
  {
    if rows != [] {
      var n := |rows| - 1;
      KeysSplit(rows);
      KeysAtMost(rows[..n]);
      CountDistinct(rows[..n]);
      forall i | 0 <= i < n
        ensures rows[i].key != rows[n].key
      {
        assert rows[..n][i] in rows[..n];
        assert rows[i].key in KeysIn(rows[..n]);
      }
    }
  }

  lemma {:induction false} KeysAtMost(rows: seq<Bucket>)
    ensures |KeysIn(rows)| <= |rows|
  {
    if rows != [] {
      var n := |rows| - 1;
      KeysSplit(rows);
      KeysAtMost(rows[..n]);
    }
  }

  lemma TakeTop(out: seq<Bucket>, counts: map<Key, Counters>, groups: set<Group>, g: Group, rows: seq<Bucket>, n: nat)
    requires IsTop(out, counts, groups, n) && g !in groups
    requires RowsOf(rows, counts, GroupKeys(counts, g)) && Ordered(rows)
    ensures IsTop(out + (if |rows| > n then rows[..n] else rows), counts, groups + {g}, n)
  {
    var cut := if |rows| > n then rows[..n] else rows;
    var all := out + cut;
    forall k | k in GroupKeys(counts, g)
      ensures k in KeysIn(cut) <==> |Ahead(counts, k)| < n
    {
      assert k in KeysIn(rows);
      var i :| 0 <= i < |rows| && rows[i].key == k;
      RankIsPosition(counts, g, rows, i);
      if i < |cut| {
        assert cut[i] in cut;
      } else {
        forall j | 0 <= j < |cut|
          ensures cut[j].key != k
        {
          assert rows[j].key != rows[i].key;
        }
      }
    }
    forall k
      ensures k in KeysIn(all) <==> k in KeysIn(out) || k in KeysIn(cut)
    {
      if k in KeysIn(out) {
        var b :| b in out && b.key == k;
        assert b in all;
      }
      if k in KeysIn(cut) {
        var b :| b in cut && b.key == k;
        assert b in all;
      }
    }
    forall b | b in cut
      ensures b in rows && b.key in GroupKeys(counts, g)
    {
      assert b.key in KeysIn(rows);
    }
    forall i, j | 0 <= i < j < |all|
      ensures all[i].key != all[j].key
    {
      if i < |out| <= j {
        assert all[i] in out && all[i].key in KeysIn(out);
        assert all[j] in cut;
      }
    }
  }
}
