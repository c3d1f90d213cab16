/**
 Packing report expressions into queries under a length limit, and the
 per-device selectors those expressions are built from.
 */
module QueryPacking {
  import opened Common

  const MAX_QUERY_LEN: nat := 14000
  const OR: string := " or "

  // ----------------------------------------------------------------- packing

  function Join(parts: seq<string>, sep: string): string {
    if parts == [] then ""
    else if |parts| == 1 then parts[0]
    else Join(parts[..|parts| - 1], sep) + sep + parts[|parts| - 1]
  }

  /** What the packing loop counts: every expression with a separator. */
  function Size(exprs: seq<string>): nat {
    if exprs == [] then 0 else Size(exprs[..|exprs| - 1]) + |exprs[|exprs| - 1]| + |OR|
  }

  lemma {:induction false} JoinedIsOneSeparatorLess(exprs: seq<string>)
    requires exprs != []
    ensures |Join(exprs, OR)| + |OR| == Size(exprs)
  {
    if |exprs| > 1 {
      JoinedIsOneSeparatorLess(exprs[..|exprs| - 1]);
    } else {
      assert exprs[..0] == [];
    }
  }

  /** What one query may hold: a single expression, or what the rule lets through. */
  predicate Fits(batch: seq<string>, limit: int) {
    |batch| == 1 || (batch != [] && Size(batch) <= limit)
  }

  predicate AllFit(batches: seq<seq<string>>, limit: int) {
    forall i :: 0 <= i < |batches| ==> Fits(batches[i], limit)
  }

  function Flatten(batches: seq<seq<string>>): seq<string> {
    if batches == [] then [] else batches[0] + Flatten(batches[1..])
  }

  /** The size of a stretch of the expressions. */
  function Span(exprs: seq<string>, from: nat, till: nat): nat
    requires from <= till <= |exprs|
    decreases till
  {
    if from == till then 0 else Span(exprs, from, till - 1) + |exprs[till - 1]| + |OR|
  }

  /** Where a batch of this size that has reached `at` ends. */
  function End(size: nat, exprs: seq<string>, at: nat, limit: int): (end: nat)
    requires at <= |exprs|
    ensures at <= end <= |exprs|
    decreases |exprs| - at
  {
    if at == |exprs| || size + |exprs[at]| + |OR| > limit then at
    else End(size + |exprs[at]| + |OR|, exprs, at + 1, limit)
  }

  /** Where a batch that starts here ends: after as much as fits, and at least one. */
  function Next(exprs: seq<string>, at: nat, limit: int): (end: nat)
    requires at < |exprs|
    ensures at < end <= |exprs|
  {
    End(|exprs[at]| + |OR|, exprs, at + 1, limit)
  }

  function PackFrom(exprs: seq<string>, at: nat, limit: int): seq<seq<string>>
    requires at <= |exprs|
    decreases |exprs| - at
  {
    if at == |exprs| then []
    else [exprs[at..Next(exprs, at, limit)]] + PackFrom(exprs, Next(exprs, at, limit), limit)
  }

  function Pack(exprs: seq<string>, limit: int): seq<seq<string>> {
    PackFrom(exprs, 0, limit)
  }

  lemma {:induction false} SpanIsSize(exprs: seq<string>, from: nat, till: nat)
    requires from <= till <= |exprs|
    ensures Span(exprs, from, till) == Size(exprs[from..till])
    decreases till
  {
    if from < till {
      SpanIsSize(exprs, from, till - 1);
      assert exprs[from..till][..till - from - 1] == exprs[from..till - 1];
    }
  }

  lemma {:induction false} SpanSplits(exprs: seq<string>, from: nat, mid: nat, till: nat)
    requires from <= mid <= till <= |exprs|
    ensures Span(exprs, from, till) == Span(exprs, from, mid) + Span(exprs, mid, till)
    decreases till
  {
    if mid < till {
      SpanSplits(exprs, from, mid, till - 1);
    }
  }

  predicate SpanFits(exprs: seq<string>, from: nat, till: nat, limit: int)
    requires from <= till <= |exprs|
  {
    till == from + 1 || (from < till && Span(exprs, from, till) <= limit)
  }

  lemma SpanFitsIsFits(exprs: seq<string>, from: nat, till: nat, limit: int)
    requires from <= till <= |exprs|
    ensures SpanFits(exprs, from, till, limit) <==> Fits(exprs[from..till], limit)
  {
    SpanIsSize(exprs, from, till);
  }

  /** `End` is the greatest end that fits. */
  lemma {:induction false} EndIsGreatest(size: nat, exprs: seq<string>, at: nat, limit: int, till: nat)
    requires at <= till <= |exprs|
    ensures var end := End(size, exprs, at, limit);
            && (end > at ==> size + Span(exprs, at, end) <= limit)
            && (till > at && size + Span(exprs, at, till) <= limit ==> till <= end)
    decreases |exprs| - at
  {
    if at < |exprs| {
      var more := size + |exprs[at]| + |OR|;
      if till > at {
        SpanSplits(exprs, at, at + 1, till);
      }
      if more <= limit {
        EndIsGreatest(more, exprs, at + 1, limit, if till > at then till else at + 1);
        SpanSplits(exprs, at, at + 1, End(more, exprs, at + 1, limit));
      }
    }
  }

  /** The batch that starts here fits, and none that fits ends later. */
  lemma NextIsGreatest(exprs: seq<string>, at: nat, limit: int, till: nat)
    requires at < |exprs| && at <= till <= |exprs|
    ensures SpanFits(exprs, at, Next(exprs, at, limit), limit)
    ensures SpanFits(exprs, at, till, limit) ==> till <= Next(exprs, at, limit)
  {
    EndIsGreatest(|exprs[at]| + |OR|, exprs, at + 1, limit, if till > at then till else at + 1);
    SpanSplits(exprs, at, at + 1, Next(exprs, at, limit));
    if till > at {
      SpanSplits(exprs, at, at + 1, till);
    }
  }

  lemma {:induction false} PackFromKeepsAll(exprs: seq<string>, at: nat, limit: int)
    requires at <= |exprs|
    ensures Flatten(PackFrom(exprs, at, limit)) == exprs[at..] && AllFit(PackFrom(exprs, at, limit), limit)
    decreases |exprs| - at
  {
    if at < |exprs| {
      var n := Next(exprs, at, limit);
      NextIsGreatest(exprs, at, limit, n);
      SpanFitsIsFits(exprs, at, n, limit);
      PackFromKeepsAll(exprs, n, limit);
      assert exprs[at..] == exprs[at..n] + exprs[n..];
      assert PackFrom(exprs, at, limit)[1..] == PackFrom(exprs, n, limit);
    }
  }

  /** Nothing is lost or reordered, and every query fits or is a single expression. */
  lemma PackKeepsAll(exprs: seq<string>, limit: int)
    ensures Flatten(Pack(exprs, limit)) == exprs && AllFit(Pack(exprs, limit), limit)
  {
    PackFromKeepsAll(exprs, 0, limit);
    assert exprs[0..] == exprs;
  }

  /** Starting later never takes more queries. */
  lemma {:induction false} LaterTakesNoMore(exprs: seq<string>, at: nat, later: nat, limit: int)
    requires at <= later <= |exprs|
    ensures |PackFrom(exprs, later, limit)| <= |PackFrom(exprs, at, limit)|
    decreases |exprs| - at
  {
    if later < |exprs| {
      var n := Next(exprs, at, limit);
      if later >= n {
        LaterTakesNoMore(exprs, n, later, limit);
      } else {
        NextIsGreatest(exprs, at, limit, n);
        SpanSplits(exprs, at, later, n);
        NextIsGreatest(exprs, later, limit, n);
        LaterTakesNoMore(exprs, n, Next(exprs, later, limit), limit);
      }
    }
  }

  lemma {:induction false} PackFromIsFewest(exprs: seq<string>, at: nat, limit: int, split: seq<seq<string>>)
    requires at <= |exprs| && Flatten(split) == exprs[at..] && AllFit(split, limit)
    ensures |PackFrom(exprs, at, limit)| <= |split|
    decreases |split|
  {
    if split != [] {
      var k := at + |split[0]|;
      assert Fits(split[0], limit);
      FirstOfSplit(exprs, at, split[0], Flatten(split[1..]));
      SpanFitsIsFits(exprs, at, k, limit);
      NextIsGreatest(exprs, at, limit, k);
      LaterTakesNoMore(exprs, k, Next(exprs, at, limit), limit);
      PackFromIsFewest(exprs, k, limit, split[1..]);
    }
  }

  lemma FirstOfSplit(exprs: seq<string>, at: nat, first: seq<string>, rest: seq<string>)
    requires at <= |exprs| && first + rest == exprs[at..]
    ensures at + |first| <= |exprs| && exprs[at..at + |first|] == first && exprs[at + |first|..] == rest
  {
    assert |first + rest| == |exprs| - at;
    assert exprs[at..][..|first|] == first && exprs[at..][|first|..] == rest;
  }

  /**
   Greedy packing is optimal for its rule: any way to cut the expressions, in
   order, into batches that fit takes at least as many queries.
   */
  lemma PackIsFewest(exprs: seq<string>, limit: int, split: seq<seq<string>>)
    requires Flatten(split) == exprs && AllFit(split, limit)
    ensures |Pack(exprs, limit)| <= |split|
  {
    assert exprs[0..] == exprs;
    PackFromIsFewest(exprs, 0, limit, split);
  }

  /** What the limit itself allows: a single expression, or one joined text within it. */
  predicate Sendable(batch: seq<string>, max: int) {
    |batch| == 1 || (batch != [] && |Join(batch, OR)| <= max)
  }

  predicate AllSendable(batches: seq<seq<string>>, max: int) {
    forall i :: 0 <= i < |batches| ==> Sendable(batches[i], max)
  }

  lemma SendableIsFits(batches: seq<seq<string>>, max: int)
    ensures AllSendable(batches, max) <==> AllFit(batches, max + |OR|)
  {
    forall i | 0 <= i < |batches|
      ensures Sendable(batches[i], max) <==> Fits(batches[i], max + |OR|)
    {
      if batches[i] != [] {
        JoinedIsOneSeparatorLess(batches[i]);
      }
    }
  }

  /** A split with as few queries as the limit allows. */
  ghost predicate Fewest(exprs: seq<string>, batches: seq<seq<string>>, max: int) {
    && AllSendable(batches, max)
    && forall split :: Flatten(split) == exprs && AllSendable(split, max) ==> |batches| <= |split|
  }

  /**
   The loop counts one separator too many, so it packs into as few queries as
   fit under the limit exactly when four more bytes would save it none.
   */
  lemma FewestExactlyWhenNoBatchJustMisses(exprs: seq<string>, max: int)
    ensures Fewest(exprs, Pack(exprs, max), max) <==> |Pack(exprs, max)| == |Pack(exprs, max + |OR|)|
  {
    var tight, loose := Pack(exprs, max), Pack(exprs, max + |OR|);
    PackKeepsAll(exprs, max);
    PackKeepsAll(exprs, max + |OR|);
    SendableIsFits(tight, max);
    SendableIsFits(loose, max);
    assert AllFit(tight, max + |OR|);
    PackIsFewest(exprs, max + |OR|, tight);
    forall split | Flatten(split) == exprs && AllSendable(split, max)
      ensures |loose| <= |split|
    {
      SendableIsFits(split, max);
      PackIsFewest(exprs, max + |OR|, split);
    }
  }

  /** Two or more expressions in a row that fit under the limit joined, but not by the loop's count. */
  predicate JustMisses(exprs: seq<string>, i: nat, j: nat, max: int)
    requires i <= j <= |exprs|
  {
    i + 1 < j && max < Span(exprs, i, j) <= max + |OR|
  }

  predicate NoneJustMisses(exprs: seq<string>, max: int) {
    forall i, j :: 0 <= i <= j <= |exprs| ==> !JustMisses(exprs, i, j, max)
  }

  lemma NextIsAlike(exprs: seq<string>, at: nat, max: int)
    requires at < |exprs| && NoneJustMisses(exprs, max)
    ensures Next(exprs, at, max) == Next(exprs, at, max + |OR|)
  {
    var tight, loose := Next(exprs, at, max), Next(exprs, at, max + |OR|);
    NextIsGreatest(exprs, at, max, loose);
    NextIsGreatest(exprs, at, max + |OR|, tight);
    assert !JustMisses(exprs, at, loose, max);
  }

  lemma {:induction false} PackIsAlike(exprs: seq<string>, at: nat, max: int)
    requires at <= |exprs| && NoneJustMisses(exprs, max)
    ensures PackFrom(exprs, at, max) == PackFrom(exprs, at, max + |OR|)
    decreases |exprs| - at
  {
    if at < |exprs| {
      NextIsAlike(exprs, at, max);
      PackIsAlike(exprs, Next(exprs, at, max), max);
    }
  }

  /** When no stretch of the expressions just misses, they go out in as few queries as fit. */
  lemma FewestWhenNoneJustMisses(exprs: seq<string>, max: int)
    requires NoneJustMisses(exprs, max)
    ensures Fewest(exprs, Pack(exprs, max), max)
  {
    PackIsAlike(exprs, 0, max);
    FewestExactlyWhenNoBatchJustMisses(exprs, max);
  }

  lemma {:induction false} SpanOfStretch(exprs: seq<string>, from: nat, till: nat, i: nat, j: nat)
    requires from <= till <= |exprs| && i <= j <= till - from
    ensures Span(exprs[from..till], i, j) == Span(exprs, from + i, from + j)
    decreases j
  {
    if i < j {
      SpanOfStretch(exprs, from, till, i, j - 1);
    }
  }

  lemma JustMissTakesMore(exprs: seq<string>, max: int)
    requires JustMisses(exprs, 0, |exprs|, max)
    ensures |Pack(exprs, max)| > |Pack(exprs, max + |OR|)|
  {
    NextIsGreatest(exprs, 0, max, |exprs|);
    NextIsGreatest(exprs, 0, max + |OR|, |exprs|);
    var n := Next(exprs, 0, max);
    assert n < |exprs| && Next(exprs, 0, max + |OR|) == |exprs|;
    assert PackFrom(exprs, n, max) != [] && PackFrom(exprs, |exprs|, max + |OR|) == [];
    assert |PackFrom(exprs, 0, max)| == 1 + |PackFrom(exprs, n, max)|;
  }

  /** A stretch that just misses would go out as one query, and is sent as more. */
  lemma JustMissIsNotFewest(exprs: seq<string>, i: nat, j: nat, max: int)
    requires i <= j <= |exprs| && JustMisses(exprs, i, j, max)
    ensures !Fewest(exprs[i..j], Pack(exprs[i..j], max), max)
  {
    SpanOfStretch(exprs, i, j, 0, j - i);
    JustMissTakesMore(exprs[i..j], max);
    FewestExactlyWhenNoBatchJustMisses(exprs[i..j], max);
  }

  /** Every stretch of the expressions is packed into as few queries as fit. */
  ghost predicate StretchesAreFewest(exprs: seq<string>, max: int) {
    forall i, j :: 0 <= i <= j <= |exprs| ==> Fewest(exprs[i..j], Pack(exprs[i..j], max), max)
  }

  /**
   What a caller can check beforehand: packing is as tight as the limit allows,
   for the expressions and every stretch of them, exactly when no two or more in
   a row, joined, come within a separator of the limit.
   */
  lemma FewestExactlyWhenNoneJustMisses(exprs: seq<string>, max: int)
    ensures StretchesAreFewest(exprs, max) <==> NoneJustMisses(exprs, max)
  {
    if NoneJustMisses(exprs, max) {
      forall i, j | 0 <= i <= j <= |exprs|
        ensures Fewest(exprs[i..j], Pack(exprs[i..j], max), max)
      {
        forall k, n | 0 <= k <= n <= j - i
          ensures !JustMisses(exprs[i..j], k, n, max)
        {
          SpanOfStretch(exprs, i, j, k, n);
          assert !JustMisses(exprs, i + k, i + n, max);
        }
        FewestWhenNoneJustMisses(exprs[i..j], max);
      }
    } else {
      var i, j :| 0 <= i <= j <= |exprs| && JustMisses(exprs, i, j, max);
      JustMissIsNotFewest(exprs, i, j, max);
    }
  }

  /** Two expressions are sent apart although they fit together exactly in a four-byte window. */
  lemma TwoSentApart(a: string, b: string, max: int)
    ensures !Fewest([a, b], Pack([a, b], max), max) <==> max < |a| + |b| + 2 * |OR| <= max + |OR|
  {
    FewestExactlyWhenNoBatchJustMisses([a, b], max);
    PackOfTwo(a, b, max);
    PackOfTwo(a, b, max + |OR|);
  }

  lemma PackOfTwo(a: string, b: string, limit: int)
    ensures |Pack([a, b], limit)| == if |a| + |b| + 2 * |OR| <= limit then 1 else 2
  {
    var exprs := [a, b];
    assert End(|b| + |OR|, exprs, 2, limit) == 2 && Next(exprs, 1, limit) == 2;
    assert PackFrom(exprs, 1, limit) == [exprs[1..2]] + PackFrom(exprs, 2, limit);
    assert End(|a| + |OR|, exprs, 1, limit) == if |a| + |b| + 2 * |OR| <= limit then 2 else 1;
  }

  /** At the source's own limit: two expressions of 6998 bytes go out as two queries where one would do. */
  lemma LimitCountsASeparatorTooMany(a: string, b: string)
    requires |a| == |b| == 6998
    ensures |Join([a, b], OR)| == MAX_QUERY_LEN && |Pack([a, b], MAX_QUERY_LEN)| == 2
    ensures !Fewest([a, b], Pack([a, b], MAX_QUERY_LEN), MAX_QUERY_LEN)
  {
    TwoSentApart(a, b, MAX_QUERY_LEN);
    PackOfTwo(a, b, MAX_QUERY_LEN);
    JoinedIsOneSeparatorLess([a, b]);
    assert [a, b][..1] == [a] && [a][..0] == [];
  }

  function Joined(batches: seq<seq<string>>): (queries: seq<string>)
    ensures |queries| == |batches|
    ensures forall i :: 0 <= i < |batches| ==> queries[i] == Join(batches[i], OR)
  {
    seq(|batches|, i requires 0 <= i < |batches| => Join(batches[i], OR))
  }

  /** Every query the loop sends is one expression or within the limit. */
  lemma QueriesFit(exprs: seq<string>, max: int, i: nat)
    requires i < |Joined(Pack(exprs, max))|
    ensures |Pack(exprs, max)[i]| == 1 || |Joined(Pack(exprs, max))[i]| <= max - |OR|
  {
    PackKeepsAll(exprs, max);
    assert Fits(Pack(exprs, max)[i], max);
    JoinedIsOneSeparatorLess(Pack(exprs, max)[i]);
  }

  // --------------------------------------------------------------- selectors

  /** An interface by its device and its index written out. */
  datatype Iface = Iface(device: string, ifIndex: string)

  datatype Selector = Selector(device: string, indexes: seq<string>)

  /** Devices in order of first appearance. */
  function Devices(ifaces: seq<Iface>): seq<string> {
    if ifaces == [] then []
    else
      var before, d := Devices(ifaces[..|ifaces| - 1]), ifaces[|ifaces| - 1].device;
      if d in before then before else before + [d]
  }

  function IndexesOf(ifaces: seq<Iface>, device: string): seq<string> {
    if ifaces == [] then []
    else
      var last := ifaces[|ifaces| - 1];
      IndexesOf(ifaces[..|ifaces| - 1], device) + (if last.device == device then [last.ifIndex] else [])
  }

  function Insert(sorted: seq<string>, x: string): seq<string> {
    if sorted == [] || !TextLess(sorted[0], x) then [x] + sorted else [sorted[0]] + Insert(sorted[1..], x)
  }

  function Sort(s: seq<string>): seq<string> {
    if s == [] then [] else Insert(Sort(s[..|s| - 1]), s[|s| - 1])
  }

  predicate Sorted(s: seq<string>) {
    forall i, j :: 0 <= i < j < |s| ==> !TextLess(s[j], s[i])
  }

  lemma {:induction false} InsertAdds(sorted: seq<string>, x: string)
    ensures multiset(Insert(sorted, x)) == multiset(sorted) + multiset{x}
  {
    if sorted != [] {
      assert sorted == [sorted[0]] + sorted[1..];
      InsertAdds(sorted[1..], x);
    }
  }

  lemma {:induction false} InsertSorts(sorted: seq<string>, x: string)
    requires Sorted(sorted)
    ensures Sorted(Insert(sorted, x))
  {
    if sorted == [] || !TextLess(sorted[0], x) {
      forall j | 0 <= j < |sorted|
        ensures !TextLess(sorted[j], x)
      {
        TextOrder(sorted[j], x, sorted[0]);
        TextOrder(sorted[0], sorted[j], x);
      }
    } else {
      var rest := Insert(sorted[1..], x);
      InsertSorts(sorted[1..], x);
      InsertAdds(sorted[1..], x);
      forall j | 0 <= j < |rest|
        ensures !TextLess(rest[j], sorted[0])
      {
        assert rest[j] in multiset(rest);
        TextOrder(sorted[0], x, sorted[0]);
      }
    }
  }

  lemma {:induction false} SortSorts(s: seq<string>)
    ensures Sorted(Sort(s)) && multiset(Sort(s)) == multiset(s)
  {
    if s != [] {
      SortSorts(s[..|s| - 1]);
      InsertSorts(Sort(s[..|s| - 1]), s[|s| - 1]);
      InsertAdds(Sort(s[..|s| - 1]), s[|s| - 1]);
      assert s == s[..|s| - 1] + [s[|s| - 1]];
    }
  }

  function Selectors(ifaces: seq<Iface>): (sels: seq<Selector>)
    ensures |sels| == |Devices(ifaces)|
  {
    var devices := Devices(ifaces);
    seq(|devices|, i requires 0 <= i < |devices| => Selector(devices[i], Sort(IndexesOf(ifaces, devices[i]))))
  }

  /** How often the selectors name an interface. */
  function Named(sels: seq<Selector>, x: Iface): nat {
    if sels == [] then 0
    else
      var last := sels[|sels| - 1];
      Named(sels[..|sels| - 1], x) + (if last.device == x.device then multiset(last.indexes)[x.ifIndex] else 0)
  }

  lemma {:induction false} DevicesAreDistinct(ifaces: seq<Iface>)
    ensures forall i, j :: 0 <= i < j < |Devices(ifaces)| ==> Devices(ifaces)[i] != Devices(ifaces)[j]
    ensures forall d :: d in Devices(ifaces) <==> exists i :: 0 <= i < |ifaces| && ifaces[i].device == d
  {
    if ifaces != [] {
      var n := |ifaces| - 1;
      DevicesAreDistinct(ifaces[..n]);
      forall d | d in Devices(ifaces)
        ensures exists i :: 0 <= i < |ifaces| && ifaces[i].device == d
      {
        if d in Devices(ifaces[..n]) {
          var i :| 0 <= i < n && ifaces[..n][i].device == d;
          assert ifaces[i].device == d;
        } else {
          assert ifaces[n].device == d;
        }
      }
    }
  }

  lemma {:induction false} IndexesCount(ifaces: seq<Iface>, x: Iface)
    ensures multiset(IndexesOf(ifaces, x.device))[x.ifIndex] == multiset(ifaces)[x]
  {
    if ifaces != [] {
      var n := |ifaces| - 1;
      IndexesCount(ifaces[..n], x);
      assert ifaces == ifaces[..n] + [ifaces[n]];
    }
  }

  /** Among selectors of distinct devices, at most one names an interface. */
  lemma {:induction false} NamedOnce(sels: seq<Selector>, x: Iface, count: nat)
    requires forall i, j :: 0 <= i < j < |sels| ==> sels[i].device != sels[j].device
    requires forall i :: 0 <= i < |sels| && sels[i].device == x.device ==> multiset(sels[i].indexes)[x.ifIndex] == count
    ensures Named(sels, x) == if exists i :: 0 <= i < |sels| && sels[i].device == x.device then count else 0
  {
    if sels != [] {
      var n := |sels| - 1;
      NamedOnce(sels[..n], x, count);
      if i :| 0 <= i < |sels| && sels[i].device == x.device {
        assert i < n ==> sels[..n][i].device == x.device;
      }
    }
  }

  /**
   The selectors name exactly the interfaces given, each as often as given, one
   selector per device, with its indexes sorted.
   */
  lemma SelectorsNameExactly(ifaces: seq<Iface>, x: Iface)
    ensures Named(Selectors(ifaces), x) == multiset(ifaces)[x]
    ensures forall i, j :: 0 <= i < j < |Selectors(ifaces)| ==> Selectors(ifaces)[i].device != Selectors(ifaces)[j].device
    ensures forall i :: 0 <= i < |Selectors(ifaces)| ==> Sorted(Selectors(ifaces)[i].indexes)
  {
    var sels := Selectors(ifaces);
    DevicesAreDistinct(ifaces);
    IndexesCount(ifaces, x);
    forall i | 0 <= i < |sels|
      ensures Sorted(sels[i].indexes)
      ensures sels[i].device == x.device ==> multiset(sels[i].indexes)[x.ifIndex] == multiset(ifaces)[x]
    {
      SortSorts(IndexesOf(ifaces, sels[i].device));
    }
    NamedOnce(sels, x, multiset(ifaces)[x]);
    if x in ifaces {
      var k :| 0 <= k < |ifaces| && ifaces[k] == x;
      assert x.device in Devices(ifaces);
      var i :| 0 <= i < |sels| && Devices(ifaces)[i] == x.device;
      assert sels[i].device == x.device;
    } else {
      assert multiset(ifaces)[x] == 0;
    }
  }

  // ------------------------------------------------------------- the builders

  /** How texts are written; what they say is the metrics store's business. */
  datatype Format = Format(
    selector: (string, string) -> string,
    series: string -> string,
    group: (string, string) -> string
  )

  function Expr(f: Format, sel: Selector): string {
    f.series(f.selector(sel.device, Join(sel.indexes, "|")))
  }

  function Exprs(f: Format, sels: seq<Selector>): (exprs: seq<string>)
    ensures |exprs| == |sels|
  {
    seq(|sels|, i requires 0 <= i < |sels| => Expr(f, sels[i]))
  }

  function GroupExpr(f: Format, name: string, ifaces: seq<Iface>): string {
    f.group(Join(Exprs(f, Selectors(ifaces)), OR), name)
  }

  function GroupOf(groups: map<string, seq<Iface>>, name: string): seq<Iface> {
    if name in groups then groups[name] else []
  }

  function GroupExprs(f: Format, names: seq<string>, groups: map<string, seq<Iface>>): (exprs: seq<string>)
    ensures |exprs| == |names|
  {
    seq(|names|, i requires 0 <= i < |names| => GroupExpr(f, names[i], GroupOf(groups, names[i])))
  }

  /** The packing loop's decisions from here on, with a batch begun at `from`. */
  function PackOn(exprs: seq<string>, from: nat, at: nat, limit: int): seq<seq<string>>
    requires from <= at <= |exprs|
    decreases |exprs| - at
  {
    if at == |exprs| then if from == at then [] else [exprs[from..at]]
    else if from < at && Span(exprs, from, at) + |exprs[at]| + |OR| > limit
    then [exprs[from..at]] + PackOn(exprs, at, at + 1, limit)
    else PackOn(exprs, from, at + 1, limit)
  }

  lemma {:induction false} PackOnFills(exprs: seq<string>, from: nat, at: nat, limit: int)
    requires from < at <= |exprs|
    ensures var end := End(Span(exprs, from, at), exprs, at, limit);
            PackOn(exprs, from, at, limit) == [exprs[from..end]] + PackFrom(exprs, end, limit)
    decreases |exprs| - at
  {
    if at < |exprs| {
      var more := Span(exprs, from, at) + |exprs[at]| + |OR|;
      assert Span(exprs, from, at + 1) == more;
      if more > limit {
        PackOnFills(exprs, at, at + 1, limit);
      } else {
        PackOnFills(exprs, from, at + 1, limit);
      }
    }
  }

  /** The loop's decisions are greedy packing. */
  lemma LoopIsGreedy(exprs: seq<string>, limit: int)
    ensures PackOn(exprs, 0, 0, limit) == Pack(exprs, limit)
  {
    if exprs != [] {
      PackOnFills(exprs, 0, 1, limit);
    }
  }

  /** The packing loop itself. */
  method PackExprs(exprs: seq<string>) returns (out: seq<string>)
    ensures out == Joined(Pack(exprs, MAX_QUERY_LEN))
  {
    out := [];
    ghost var done: seq<seq<string>>, from := [], 0;
    var cur: seq<string>, size := [], 0;
    for i := 0 to |exprs|
      invariant from <= i && cur == exprs[from..i] && size == Span(exprs, from, i)
      invariant i > 0 ==> cur != []
      invariant out == Joined(done)
      invariant done + PackOn(exprs, from, i, MAX_QUERY_LEN) == PackOn(exprs, 0, 0, MAX_QUERY_LEN)
    {
      var e := exprs[i];
      if |cur| > 0 && size + |e| + 4 > MAX_QUERY_LEN {
        out := out + [Join(cur, OR)];
        JoinedOneMore(done, cur);
        ShiftBatch(done, cur, PackOn(exprs, i, i + 1, MAX_QUERY_LEN));
        done, from := done + [cur], i;
        cur, size := [], 0;
      }
      cur := cur + [e];
      size := size + |e| + 4;
    }
    LoopIsGreedy(exprs, MAX_QUERY_LEN);
    if |cur| > 0 {
      out := out + [Join(cur, OR)];
      JoinedOneMore(done, cur);
    }
  }

  lemma JoinedOneMore(done: seq<seq<string>>, cur: seq<string>)
    ensures Joined(done + [cur]) == Joined(done) + [Join(cur, OR)]
  {
  }

  lemma ShiftBatch<T>(done: seq<T>, cur: T, rest: seq<T>)
    ensures done + ([cur] + rest) == (done + [cur]) + rest
  {
  }

  ghost predicate Grouped(order: seq<string>, byDevice: map<string, seq<string>>, ifaces: seq<Iface>) {
    && order == Devices(ifaces)
    && (forall d :: d in byDevice <==> d in order)
    && (forall d :: d in byDevice ==> byDevice[d] == IndexesOf(ifaces, d))
  }

  method GroupByDevice(ifaces: seq<Iface>) returns (order: seq<string>, byDevice: map<string, seq<string>>)
    ensures Grouped(order, byDevice, ifaces)
  {
    order, byDevice := [], map[];
    for i := 0 to |ifaces|
      invariant Grouped(order, byDevice, ifaces[..i])
    {
      var x := ifaces[i];
      assert ifaces[..i + 1][..i] == ifaces[..i];
      var was := [];
      if x.device in byDevice {
        was := byDevice[x.device];
      } else {
        NoIndexes(ifaces[..i], x.device);
        order := order + [x.device];
      }
      byDevice := byDevice[x.device := was + [x.ifIndex]];
    }
    assert ifaces[..|ifaces|] == ifaces;
  }

  lemma {:induction false} NoIndexes(ifaces: seq<Iface>, d: string)
    requires d !in Devices(ifaces)
    ensures IndexesOf(ifaces, d) == []
  {
    if ifaces != [] {
      NoIndexes(ifaces[..|ifaces| - 1], d);
    }
  }

  /** Sorting in place, as the standard library does, is Sort. */
  method DeviceExprs(f: Format, ifaces: seq<Iface>) returns (exprs: seq<string>)
    ensures exprs == Exprs(f, Selectors(ifaces))
  {
    var order, byDevice := GroupByDevice(ifaces);
    GroupedExprs(f, ifaces, order, byDevice);
    exprs := WriteSelectors(f, order, byDevice, Exprs(f, Selectors(ifaces)));
  }

  /** What one device's selector reads, its indexes sorted. */
  function DeviceExpr(f: Format, device: string, indexes: seq<string>): string {
    f.series(f.selector(device, Join(Sort(indexes), "|")))
  }

  lemma GroupedExprs(f: Format, ifaces: seq<Iface>, order: seq<string>, byDevice: map<string, seq<string>>)
    requires Grouped(order, byDevice, ifaces)
    ensures |Exprs(f, Selectors(ifaces))| == |order|
    ensures forall i :: 0 <= i < |order| ==>
              order[i] in byDevice && Exprs(f, Selectors(ifaces))[i] == DeviceExpr(f, order[i], byDevice[order[i]])
  {
  }

  method WriteSelectors(f: Format, order: seq<string>, byDevice: map<string, seq<string>>, ghost want: seq<string>)
    returns (exprs: seq<string>)
    requires |want| == |order|
    requires forall i :: 0 <= i < |order| ==> order[i] in byDevice && want[i] == DeviceExpr(f, order[i], byDevice[order[i]])
    ensures exprs == want
  {
    exprs := [];
    for i := 0 to |order|
      invariant exprs == want[..i]
    {
      var idx := Sort(byDevice[order[i]]);
      exprs := exprs + [f.series(f.selector(order[i], Join(idx, "|")))];
    }
  }

  /** One query per pack of interface series. */
  method InterfaceBatches(f: Format, rows: seq<Iface>) returns (out: seq<string>)
    ensures out == Joined(Pack(Exprs(f, Selectors(rows)), MAX_QUERY_LEN))
  {
    var exprs := DeviceExprs(f, rows);
    out := PackExprs(exprs);
  }

  /** One query per pack of whole groups; a group is never split. */
  method BatchGroups(f: Format, names: seq<string>, groups: map<string, seq<Iface>>) returns (out: seq<string>)
    ensures out == Joined(Pack(GroupExprs(f, names, groups), MAX_QUERY_LEN))
  {
    var exprs: seq<string> := [];
    for i := 0 to |names|
      invariant |exprs| == i && forall k :: 0 <= k < i ==> exprs[k] == GroupExprs(f, names, groups)[k]
    {
      var sels := DeviceExprs(f, GroupOf(groups, names[i]));
      exprs := exprs + [f.group(Join(sels, OR), names[i])];
    }
    assert exprs == GroupExprs(f, names, groups);
    out := PackExprs(exprs);
  }
}
