/**
 A poller's way to the core: samples gather in a batch, workers take whole
 batches and publish them, a batch that cannot be published goes to a capped
 directory of files, and a drain replays those oldest first. Workers, the cap
 and the drain interleave freely.
 */
module PollerBuffer {
  import opened Common

  /** A sample by its identity. */
  type Sample = nat

  const BATCH_FLUSH_SIZE: nat := 500

  /** One buffered batch; no content means the file cannot be read back. */
  datatype File = File(stamp: nat, size: nat, content: Option<seq<Sample>>) {
    function Samples(): seq<Sample> {
      if content.Some? then content.value else []
    }
  }

  // ------------------------------------------------------------ the byte cap

  function Total(files: seq<File>): nat {
    if files == [] then 0 else files[0].size + Total(files[1..])
  }

  /** How many of the oldest files must go. */
  function Excess(files: seq<File>, max: int): (k: nat)
    ensures k <= |files|
  {
    if files == [] || Total(files) <= max then 0 else 1 + Excess(files[1..], max)
  }

  function Capped(files: seq<File>, max: int): seq<File> {
    files[Excess(files, max)..]
  }

  /**
   The cap removes a prefix of the oldest, no longer than it must be: what is
   left fits, or nothing is left, and with one file fewer removed it would not fit.
   */
  lemma {:induction false} CapRemovesShortestPrefix(files: seq<File>, max: int)
    ensures Total(Capped(files, max)) <= max || Capped(files, max) == []
    ensures forall k :: 0 <= k < Excess(files, max) ==> Total(files[k..]) > max
    ensures 0 <= max ==> Total(Capped(files, max)) <= max
    decreases |files|
  {
    if files != [] && Total(files) > max {
      CapRemovesShortestPrefix(files[1..], max);
      var rest := Excess(files[1..], max);
      assert files[1 + rest..] == files[1..][rest..];
      forall k | 0 <= k < Excess(files, max)
        ensures Total(files[k..]) > max
      {
        if k == 0 {
          assert files[0..] == files;
        } else {
          assert files[k..] == files[1..][k - 1..];
        }
      }
    }
  }

  lemma {:induction false} TotalOfLast(files: seq<File>, f: File)
    ensures Total(files + [f]) == Total(files) + f.size
  {
    if files != [] {
      TotalOfLast(files[1..], f);
      assert (files + [f])[1..] == files[1..] + [f];
    } else {
      assert [f][1..] == [];
    }
  }

  /** A batch just written survives its own cap exactly when it fits alone. */
  lemma {:induction false} NewestSurvivesIfItFits(files: seq<File>, f: File, max: int)
    ensures Capped(files + [f], max) != [] <==> f.size <= max
    ensures f.size <= max ==> var kept := Capped(files + [f], max); kept[|kept| - 1] == f
    decreases |files|
  {
    var all := files + [f];
    TotalOfLast(files, f);
    if Total(all) > max {
      if files == [] {
        assert all[1..] == [];
      } else {
        assert all[1..] == files[1..] + [f];
        NewestSurvivesIfItFits(files[1..], f, max);
        assert Capped(all, max) == Capped(all[1..], max);
      }
    }
  }

  // ---------------------------------------------------------- files that stay

  /** Those whose removal fails. */
  function Stuck(files: seq<File>, stuck: set<nat>): seq<File> {
    if files == [] then []
    else
      var n := |files| - 1;
      Stuck(files[..n], stuck) + (if files[n].stamp in stuck then [files[n]] else [])
  }

  function Freed(files: seq<File>, stuck: set<nat>): seq<File> {
    if files == [] then []
    else
      var n := |files| - 1;
      Freed(files[..n], stuck) + (if files[n].stamp in stuck then [] else [files[n]])
  }

  /** What the cap leaves behind: the files it could not remove, then the rest. */
  function AfterCap(files: seq<File>, max: int, stuck: set<nat>): seq<File> {
    Stuck(files[..Excess(files, max)], stuck) + Capped(files, max)
  }

  lemma {:induction false} StuckOrFreed(files: seq<File>, stuck: set<nat>)
    ensures |Stuck(files, stuck)| + |Freed(files, stuck)| == |files|
    ensures forall f :: f in files <==> f in Stuck(files, stuck) || f in Freed(files, stuck)
  {
    if files != [] {
      var n := |files| - 1;
      assert files == files[..n] + [files[n]];
      StuckOrFreed(files[..n], stuck);
    }
  }

  lemma {:induction false} StuckAscend(files: seq<File>, stuck: set<nat>)
    requires Ascending(files)
    ensures Ascending(Stuck(files, stuck))
  {
    if files != [] {
      var n := |files| - 1;
      StuckAscend(files[..n], stuck);
      var before := Stuck(files[..n], stuck);
      StuckOrFreed(files[..n], stuck);
      forall i | 0 <= i < |before|
        ensures before[i].stamp < files[n].stamp
      {
        assert before[i] in before && before[i] in files[..n];
      }
    }
  }

  lemma {:induction false} TotalJoins(a: seq<File>, b: seq<File>)
    ensures Total(a + b) == Total(a) + Total(b)
  {
    if a == [] {
      assert a + b == b;
    } else {
      assert (a + b)[1..] == a[1..] + b;
      TotalJoins(a[1..], b);
    }
  }

  /** On disk is at most the cap and what could not be removed. */
  lemma FitsUnlessStuck(files: seq<File>, max: int, stuck: set<nat>)
    requires 0 <= max
    ensures Total(AfterCap(files, max, stuck)) <= max + Total(Stuck(files[..Excess(files, max)], stuck))
    ensures Stuck(files[..Excess(files, max)], stuck) == [] ==> AfterCap(files, max, stuck) == Capped(files, max)
  {
    CapRemovesShortestPrefix(files, max);
    TotalJoins(Stuck(files[..Excess(files, max)], stuck), Capped(files, max));
  }

  predicate Ascending(files: seq<File>) {
    forall i, j :: 0 <= i < j < |files| ==> files[i].stamp < files[j].stamp
  }

  // ---------------------------------------------------------------- the world

  /** A worker's batch: on its way, not published, or not written to disk either. */
  datatype Stage = Taken | Failed | Unwritten

  datatype Flight = Flight(samples: seq<Sample>, stage: Stage)

  /** Where the drain is between its unlocked operations. */
  datatype Drain = Idle | Listed(stamp: nat) | Holding(file: File) | Delivered(file: File)

  /**
   The last six are history: what was ever appended, which files the cap removed
   and how often it counted one it could not remove, which files the drain
   delivered, which it discarded unread, and what was delivered or written while
   a copy stayed behind or had been counted as dropped.
   */
  datatype World = World(
    batch: seq<Sample>, flights: seq<Flight>, files: seq<File>, published: seq<seq<Sample>>, dropped: nat,
    drain: Drain, clock: nat,
    log: seq<Sample>, evicted: seq<File>, miscounted: nat, drained: seq<nat>, discarded: seq<File>, twice: multiset<Sample>
  )

  /** Every operation that can fail says whether it did; `gone` is a removal that worked. */
  datatype Step =
    | Append(samples: seq<Sample>)
    | Take
    | Publish(i: nat, landed: bool, reported: bool)
    | Spill(i: nat, stamp: nat, size: nat, stuck: set<nat>)
    | SpillFails(i: nat, left: Option<File>)
    | Requeue(i: nat)
    | List
    | Read(ok: bool, gone: bool)
    | Send(landed: bool, reported: bool)
    | Remove(gone: bool)

  function Without<T>(s: seq<T>, i: nat): seq<T>
    requires i < |s|
  {
    s[..i] + s[i + 1..]
  }

  function Find(files: seq<File>, stamp: nat): (k: Option<nat>)
    ensures k.Some? ==> k.value < |files| && files[k.value].stamp == stamp
    ensures k.None? ==> forall i :: 0 <= i < |files| ==> files[i].stamp != stamp
  {
    if files == [] then None
    else if files[|files| - 1].stamp == stamp then Some(|files| - 1)
    else Find(files[..|files| - 1], stamp)
  }

  /**
   What is reported as published was; a new file's stamp is new. A write that
   fails may leave a file behind, cut short or whole.
   */
  predicate Enabled(w: World, step: Step) {
    match step
    case Append(_) => true
    case Take => w.batch != []
    case Publish(i, landed, reported) => i < |w.flights| && w.flights[i].stage == Taken && (reported ==> landed)
    case Spill(i, stamp, _, _) => i < |w.flights| && w.flights[i].stage == Failed && stamp > w.clock
    case SpillFails(i, left) =>
      && i < |w.flights| && w.flights[i].stage == Failed
      && (left.Some? ==> left.value.stamp > w.clock && left.value.content in {None, Some(w.flights[i].samples)})
    case Requeue(i) => i < |w.flights| && w.flights[i].stage != Taken
    case List => w.drain.Idle? && w.files != []
    case Read(_, _) => w.drain.Listed?
    case Send(landed, reported) => w.drain.Holding? && (reported ==> landed)
    case Remove(_) => w.drain.Delivered?
  }

  function Next(w: World, max: int, step: Step): World
    requires Enabled(w, step)
  {
    match step
    case Append(samples) => w.(batch := w.batch + samples, log := w.log + samples)
    case Take => w.(batch := [], flights := w.flights + [Flight(w.batch, Taken)])
    case Publish(i, landed, reported) => AfterPublish(w, i, landed, reported)
    case Spill(i, stamp, size, stuck) => AfterSpill(w, max, i, File(stamp, size, Some(w.flights[i].samples)), stuck)
    case SpillFails(i, left) => AfterSpillFails(w, i, left)
    case Requeue(i) => w.(batch := w.flights[i].samples + w.batch, flights := Without(w.flights, i))
    case List => w.(drain := Listed(w.files[0].stamp))
    case Read(ok, gone) => AfterRead(w, ok, gone)
    case Send(landed, reported) =>
      w.(drain := if reported then Delivered(w.drain.file) else Idle,
         published := w.published + (if landed then [w.drain.file.Samples()] else []),
         twice := w.twice + (if landed then multiset(w.drain.file.Samples()) else multiset{}))
    case Remove(gone) => AfterRemove(w, gone)
  }

  function AfterPublish(w: World, i: nat, landed: bool, reported: bool): World
    requires i < |w.flights|
  {
    var samples := w.flights[i].samples;
    if reported then w.(published := w.published + [samples], flights := Without(w.flights, i))
    else if landed then
      w.(published := w.published + [samples], flights := w.flights[i := Flight(samples, Failed)],
         twice := w.twice + multiset(samples))
    else w.(flights := w.flights[i := Flight(samples, Failed)])
  }

  function AfterSpill(w: World, max: int, i: nat, f: File, stuck: set<nat>): World
    requires i < |w.flights|
  {
    var all := w.files + [f];
    var k := Excess(all, max);
    w.(files := AfterCap(all, max, stuck), evicted := w.evicted + Freed(all[..k], stuck),
       dropped := w.dropped + k, miscounted := w.miscounted + |Stuck(all[..k], stuck)|,
       flights := Without(w.flights, i), clock := f.stamp)
  }

  function AfterSpillFails(w: World, i: nat, left: Option<File>): World
    requires i < |w.flights|
  {
    var w' := w.(flights := w.flights[i := Flight(w.flights[i].samples, Unwritten)]);
    if left.None? then w'
    else w'.(files := w.files + [left.value], clock := left.value.stamp, twice := w.twice + multiset(left.value.Samples()))
  }

  /**
   The listed file may have been removed by the cap since. If it is there and is
   not read and parsed, for whatever reason, it is removed.
   */
  function AfterRead(w: World, ok: bool, gone: bool): World
    requires w.drain.Listed?
  {
    var k := Find(w.files, w.drain.stamp);
    if k.None? then w.(drain := Idle)
    else
      var f := w.files[k.value];
      if ok && f.content.Some? then w.(drain := Holding(f))
      else if gone then w.(drain := Idle, files := Without(w.files, k.value), discarded := w.discarded + [f])
      else w.(drain := Idle)
  }

  function AfterRemove(w: World, gone: bool): World
    requires w.drain.Delivered?
  {
    var f := w.drain.file;
    var k := Find(w.files, f.stamp);
    var w' := w.(drain := Idle, drained := w.drained + [f.stamp]);
    if k.None? || !gone then w'
    else w'.(files := Without(w.files, k.value), twice := w.twice - multiset(f.Samples()))
  }

  // ------------------------------------------------------------- conservation

  function Occurs(s: seq<Sample>, x: Sample): nat {
    multiset(s)[x]
  }

  /** Copies of a sample over all parts. */
  function Count<T>(parts: seq<T>, samples: T -> seq<Sample>, x: Sample): nat {
    if parts == [] then 0
    else Count(parts[..|parts| - 1], samples, x) + Occurs(samples(parts[|parts| - 1]), x)
  }

  function OfFlight(f: Flight): seq<Sample> { f.samples }

  function OfFile(f: File): seq<Sample> { f.Samples() }

  function OfBatch(b: seq<Sample>): seq<Sample> { b }

  function InFlight(w: World, x: Sample): nat { Count(w.flights, OfFlight, x) }

  function OnDisk(w: World, x: Sample): nat { Count(w.files, OfFile, x) }

  function Published(w: World, x: Sample): nat { Count(w.published, OfBatch, x) }

  function Evicted(w: World, x: Sample): nat { Count(w.evicted, OfFile, x) }

  function Discarded(w: World, x: Sample): nat { Count(w.discarded, OfFile, x) }

  /** Everywhere a sample can still be found, or is counted as dropped. */
  function Held(w: World, x: Sample): nat {
    Occurs(w.batch, x) + InFlight(w, x) + OnDisk(w, x) + Published(w, x) + Evicted(w, x)
  }

  ghost predicate Conserved(w: World, x: Sample) {
    && Held(w, x) + Discarded(w, x) == Occurs(w.log, x) + w.twice[x]
    && w.dropped == |w.evicted| + w.miscounted
    && (w.drain.Delivered? ==> Occurs(w.drain.file.Samples(), x) <= w.twice[x])
  }

  lemma {:induction false} CountJoins<T>(a: seq<T>, b: seq<T>, samples: T -> seq<Sample>, x: Sample)
    ensures Count(a + b, samples, x) == Count(a, samples, x) + Count(b, samples, x)
  {
    if b == [] {
      assert a + b == a;
    } else {
      CountJoins(a, b[..|b| - 1], samples, x);
      assert (a + b)[..|a + b| - 1] == a + b[..|b| - 1];
    }
  }

  lemma CountOneMore<T>(parts: seq<T>, part: T, samples: T -> seq<Sample>, x: Sample)
    ensures Count(parts + [part], samples, x) == Count(parts, samples, x) + Occurs(samples(part), x)
  {
    assert (parts + [part])[..|parts|] == parts;
  }

  lemma CountWithout<T>(parts: seq<T>, i: nat, samples: T -> seq<Sample>, x: Sample)
    requires i < |parts|
    ensures Count(parts, samples, x) == Count(Without(parts, i), samples, x) + Occurs(samples(parts[i]), x)
  {
    assert parts == parts[..i] + [parts[i]] + parts[i + 1..];
    CountJoins(parts[..i] + [parts[i]], parts[i + 1..], samples, x);
    CountOneMore(parts[..i], parts[i], samples, x);
    CountJoins(parts[..i], parts[i + 1..], samples, x);
  }

  lemma CountUpdated<T>(parts: seq<T>, i: nat, part: T, samples: T -> seq<Sample>, x: Sample)
    requires i < |parts| && samples(part) == samples(parts[i])
    ensures Count(parts[i := part], samples, x) == Count(parts, samples, x)
  {
    CountWithout(parts, i, samples, x);
    CountWithout(parts[i := part], i, samples, x);
    assert Without(parts[i := part], i) == Without(parts, i);
  }

  lemma CountMaybeMore(files: seq<File>, f: File, more: bool, x: Sample)
    ensures Count(files + (if more then [f] else []), OfFile, x) == Count(files, OfFile, x) + (if more then Occurs(f.Samples(), x) else 0)
  {
    if more {
      CountOneMore(files, f, OfFile, x);
    } else {
      assert files + [] == files;
    }
  }

  lemma {:induction false} CountStuck(files: seq<File>, stuck: set<nat>, x: Sample)
    ensures Count(files, OfFile, x) == Count(Stuck(files, stuck), OfFile, x) + Count(Freed(files, stuck), OfFile, x)
  {
    if files != [] {
      var n := |files| - 1;
      CountStuck(files[..n], stuck, x);
      CountMaybeMore(Stuck(files[..n], stuck), files[n], files[n].stamp in stuck, x);
      CountMaybeMore(Freed(files[..n], stuck), files[n], files[n].stamp !in stuck, x);
    }
  }

  lemma PublishConserves(w: World, i: nat, landed: bool, reported: bool, x: Sample)
    requires Conserved(w, x) && Enabled(w, Publish(i, landed, reported))
    ensures Conserved(AfterPublish(w, i, landed, reported), x)
  {
    var samples := w.flights[i].samples;
    CountOneMore(w.published, samples, OfBatch, x);
    CountWithout(w.flights, i, OfFlight, x);
    CountUpdated(w.flights, i, Flight(samples, Failed), OfFlight, x);
  }

  lemma CapConserves(files: seq<File>, evicted: seq<File>, max: int, stuck: set<nat>, x: Sample)
    ensures var k := Excess(files, max);
            Count(AfterCap(files, max, stuck), OfFile, x) + Count(evicted + Freed(files[..k], stuck), OfFile, x)
            == Count(files, OfFile, x) + Count(evicted, OfFile, x)
  {
    var k := Excess(files, max);
    assert files == files[..k] + files[k..];
    CountJoins(files[..k], files[k..], OfFile, x);
    CountStuck(files[..k], stuck, x);
    CountJoins(Stuck(files[..k], stuck), files[k..], OfFile, x);
    CountJoins(evicted, Freed(files[..k], stuck), OfFile, x);
  }

  lemma SpillConserves(w: World, max: int, i: nat, f: File, stuck: set<nat>, x: Sample)
    requires Conserved(w, x) && i < |w.flights| && f.content == Some(w.flights[i].samples)
    ensures Conserved(AfterSpill(w, max, i, f, stuck), x)
  {
    var all := w.files + [f];
    CountWithout(w.flights, i, OfFlight, x);
    CountOneMore(w.files, f, OfFile, x);
    CapConserves(all, w.evicted, max, stuck, x);
    StuckOrFreed(all[..Excess(all, max)], stuck);
  }

  lemma SpillFailsConserves(w: World, i: nat, left: Option<File>, x: Sample)
    requires Conserved(w, x) && i < |w.flights|
    ensures Conserved(AfterSpillFails(w, i, left), x)
  {
    CountUpdated(w.flights, i, Flight(w.flights[i].samples, Unwritten), OfFlight, x);
    if left.Some? {
      CountOneMore(w.files, left.value, OfFile, x);
    }
  }

  lemma ReadConserves(w: World, ok: bool, gone: bool, x: Sample)
    requires Conserved(w, x) && w.drain.Listed?
    ensures Conserved(AfterRead(w, ok, gone), x)
  {
    var k := Find(w.files, w.drain.stamp);
    if k.Some? {
      CountWithout(w.files, k.value, OfFile, x);
      CountOneMore(w.discarded, w.files[k.value], OfFile, x);
    }
  }

  lemma RemoveConserves(w: World, gone: bool, x: Sample)
    requires Conserved(w, x) && w.drain.Delivered? && AllFollow(w.files, w.drained, w.drain, w.clock)
    ensures Conserved(AfterRemove(w, gone), x)
  {
    var k := Find(w.files, w.drain.file.stamp);
    if k.Some? {
      assert Follows(w.files[k.value], w.drained, w.drain, w.clock);
      CountWithout(w.files, k.value, OfFile, x);
    }
  }

  lemma SendConserves(w: World, max: int, landed: bool, reported: bool, x: Sample)
    requires Conserved(w, x) && Enabled(w, Send(landed, reported))
    ensures Conserved(Next(w, max, Send(landed, reported)), x)
  {
    CountOneMore(w.published, w.drain.file.Samples(), OfBatch, x);
    assert w.published + [] == w.published;
  }

  lemma StepConserves(w: World, max: int, step: Step, x: Sample)
    requires Conserved(w, x) && AllFollow(w.files, w.drained, w.drain, w.clock) && Enabled(w, step)
    ensures Conserved(Next(w, max, step), x)
  {
    match step
    case Append(samples) =>
    case Take => CountOneMore(w.flights, Flight(w.batch, Taken), OfFlight, x);
    case Publish(i, landed, reported) => PublishConserves(w, i, landed, reported, x);
    case Spill(i, stamp, size, stuck) => SpillConserves(w, max, i, File(stamp, size, Some(w.flights[i].samples)), stuck, x);
    case SpillFails(i, left) => SpillFailsConserves(w, i, left, x);
    case Requeue(i) => CountWithout(w.flights, i, OfFlight, x);
    case List =>
    case Read(ok, gone) => ReadConserves(w, ok, gone, x);
    case Send(landed, reported) => SendConserves(w, max, landed, reported, x);
    case Remove(gone) => RemoveConserves(w, gone, x);
  }

  // ---------------------------------------------------------------- the order

  function DrainStamp(d: Drain): nat
    requires !d.Idle?
  {
    if d.Listed? then d.stamp else d.file.stamp
  }

  /**
   A file on disk is no older than all that was drained and than what the drain
   is at, and is that very file if it has its stamp.
   */
  predicate Follows(f: File, drained: seq<nat>, drain: Drain, clock: nat) {
    && f.stamp <= clock
    && (forall i :: 0 <= i < |drained| ==> drained[i] <= f.stamp)
    && (!drain.Idle? ==> DrainStamp(drain) <= f.stamp)
    && ((drain.Holding? || drain.Delivered?) && f.stamp == drain.file.stamp ==> f == drain.file)
  }

  predicate AllFollow(files: seq<File>, drained: seq<nat>, drain: Drain, clock: nat) {
    forall i :: 0 <= i < |files| ==> Follows(files[i], drained, drain, clock)
  }

  /** Delivered files come in order of age, one that could not be removed again and again. */
  predicate DrainedInOrder(drained: seq<nat>, drain: Drain, clock: nat) {
    && (forall i, j :: 0 <= i < j < |drained| ==> drained[i] <= drained[j])
    && (forall i :: 0 <= i < |drained| ==> drained[i] <= clock)
    && (!drain.Idle? ==> DrainStamp(drain) <= clock && forall i :: 0 <= i < |drained| ==> drained[i] <= DrainStamp(drain))
  }

  predicate OldestFirst(w: World) {
    && Ascending(w.files)
    && AllFollow(w.files, w.drained, w.drain, w.clock)
    && DrainedInOrder(w.drained, w.drain, w.clock)
  }

  lemma AddingKeepsOrder(w: World, f: File)
    requires OldestFirst(w) && f.stamp > w.clock
    ensures Ascending(w.files + [f]) && AllFollow(w.files + [f], w.drained, w.drain, f.stamp)
    ensures DrainedInOrder(w.drained, w.drain, f.stamp)
  {
    var all := w.files + [f];
    forall j | 0 <= j < |all|
      ensures Follows(all[j], w.drained, w.drain, f.stamp)
    {
      assert j < |w.files| ==> Follows(w.files[j], w.drained, w.drain, w.clock);
    }
  }

  lemma CapKeepsOrder(files: seq<File>, max: int, stuck: set<nat>)
    requires Ascending(files)
    ensures Ascending(AfterCap(files, max, stuck))
    ensures forall f :: f in AfterCap(files, max, stuck) ==> f in files
  {
    var k := Excess(files, max);
    var stay := Stuck(files[..k], stuck);
    StuckOrFreed(files[..k], stuck);
    StuckAscend(files[..k], stuck);
    assert Ascending(files[k..]);
    forall i, j | 0 <= i < |stay| && 0 <= j < |files| - k
      ensures stay[i].stamp < files[k..][j].stamp
    {
      assert stay[i] in stay && stay[i] in files[..k];
      var n :| 0 <= n < k && files[n] == stay[i];
    }
  }

  lemma PartFollows(files: seq<File>, part: seq<File>, drained: seq<nat>, drain: Drain, clock: nat)
    requires AllFollow(files, drained, drain, clock) && forall f :: f in part ==> f in files
    ensures AllFollow(part, drained, drain, clock)
  {
    forall i | 0 <= i < |part|
      ensures Follows(part[i], drained, drain, clock)
    {
      assert part[i] in part && part[i] in files;
      var j :| 0 <= j < |files| && files[j] == part[i];
    }
  }

  lemma SpillKeepsOrder(w: World, max: int, i: nat, f: File, stuck: set<nat>)
    requires OldestFirst(w) && i < |w.flights| && f.stamp > w.clock
    ensures OldestFirst(AfterSpill(w, max, i, f, stuck))
  {
    AddingKeepsOrder(w, f);
    CapKeepsOrder(w.files + [f], max, stuck);
    PartFollows(w.files + [f], AfterCap(w.files + [f], max, stuck), w.drained, w.drain, f.stamp);
  }

  lemma WithoutKeepsOrder(files: seq<File>, k: nat)
    requires k < |files| && Ascending(files)
    ensures Ascending(Without(files, k))
    ensures forall f :: f in Without(files, k) ==> f in files && f.stamp != files[k].stamp
  {
  }

  lemma StepKeepsOrder(w: World, max: int, step: Step)
    requires OldestFirst(w) && Enabled(w, step)
    ensures OldestFirst(Next(w, max, step))
  {
    match step
    case Append(_) =>
    case Take =>
    case Publish(_, _, _) =>
    case Requeue(_) =>
    case Send(_, _) =>
    case Spill(i, stamp, size, stuck) => SpillKeepsOrder(w, max, i, File(stamp, size, Some(w.flights[i].samples)), stuck);
    case SpillFails(_, left) =>
      if left.Some? {
        AddingKeepsOrder(w, left.value);
      }
    case List => ListKeepsOrder(w);
    case Read(ok, gone) => ReadKeepsOrder(w, ok, gone);
    case Remove(gone) => RemoveKeepsOrder(w, gone);
  }

  lemma ListKeepsOrder(w: World)
    requires OldestFirst(w) && w.drain.Idle? && w.files != []
    ensures OldestFirst(w.(drain := Listed(w.files[0].stamp)))
  {
    assert Follows(w.files[0], w.drained, w.drain, w.clock);
    forall i | 0 <= i < |w.files|
      ensures Follows(w.files[i], w.drained, Listed(w.files[0].stamp), w.clock)
    {
      assert Follows(w.files[i], w.drained, w.drain, w.clock);
    }
  }

  lemma ReadKeepsOrder(w: World, ok: bool, gone: bool)
    requires OldestFirst(w) && w.drain.Listed?
    ensures OldestFirst(AfterRead(w, ok, gone))
  {
    var k := Find(w.files, w.drain.stamp);
    var w' := AfterRead(w, ok, gone);
    if k.Some? {
      WithoutKeepsOrder(w.files, k.value);
    }
    forall i | 0 <= i < |w'.files|
      ensures Follows(w'.files[i], w'.drained, w'.drain, w'.clock)
    {
      assert w'.files[i] in w.files;
      var j :| 0 <= j < |w.files| && w.files[j] == w'.files[i];
    }
  }

  lemma RemoveKeepsOrder(w: World, gone: bool)
    requires OldestFirst(w) && w.drain.Delivered?
    ensures OldestFirst(AfterRemove(w, gone))
  {
    var f, w' := w.drain.file, AfterRemove(w, gone);
    var k := Find(w.files, f.stamp);
    if k.Some? {
      WithoutKeepsOrder(w.files, k.value);
    }
    forall i | 0 <= i < |w'.files|
      ensures Follows(w'.files[i], w'.drained, Idle, w'.clock)
    {
      assert w'.files[i] in w.files;
      var j :| 0 <= j < |w.files| && w.files[j] == w'.files[i];
      assert Follows(w.files[j], w.drained, w.drain, w.clock);
    }
    DrainedGrows(w.drained, f, w.clock);
  }

  lemma DrainedGrows(drained: seq<nat>, f: File, clock: nat)
    requires DrainedInOrder(drained, Delivered(f), clock)
    ensures DrainedInOrder(drained + [f.stamp], Idle, clock)
  {
  }

  // ----------------------------------------------------------------- all runs

  /** A process starts with whatever an earlier one left on disk. */
  function Start(left: seq<File>, clock: nat): World {
    World([], [], left, [], 0, Idle, clock, Flatten(left), [], 0, [], [], multiset{})
  }

  function Flatten(files: seq<File>): seq<Sample> {
    if files == [] then [] else Flatten(files[..|files| - 1]) + files[|files| - 1].Samples()
  }

  ghost predicate Legal(start: World, max: int, steps: seq<Step>)
    decreases |steps|, 0
  {
    steps == [] || (
      && Legal(start, max, steps[..|steps| - 1])
      && Enabled(Reached(start, max, steps[..|steps| - 1]), steps[|steps| - 1]))
  }

  ghost function Reached(start: World, max: int, steps: seq<Step>): World
    requires Legal(start, max, steps)
    decreases |steps|, 1
  {
    if steps == [] then start else Next(Reached(start, max, steps[..|steps| - 1]), max, steps[|steps| - 1])
  }

  lemma {:induction false} LeftOverIsLogged(left: seq<File>, x: Sample)
    ensures Count(left, OfFile, x) == Occurs(Flatten(left), x)
  {
    if left != [] {
      LeftOverIsLogged(left[..|left| - 1], x);
    }
  }

  /** A process may start on what an earlier one left behind. */
  predicate Ready(left: seq<File>, clock: nat) {
    Ascending(left) && forall i :: 0 <= i < |left| ==> left[i].stamp <= clock
  }

  lemma {:induction false} EveryRunKeeps(left: seq<File>, clock: nat, max: int, steps: seq<Step>, x: Sample)
    requires Ready(left, clock) && Legal(Start(left, clock), max, steps)
    ensures var w := Reached(Start(left, clock), max, steps); Conserved(w, x) && OldestFirst(w)
  {
    if steps == [] {
      LeftOverIsLogged(left, x);
    } else {
      var before := steps[..|steps| - 1];
      EveryRunKeeps(left, clock, max, before, x);
      var w := Reached(Start(left, clock), max, before);
      StepConserves(w, max, steps[|steps| - 1], x);
      StepKeepsOrder(w, max, steps[|steps| - 1]);
    }
  }

  /**
   Whatever the interleaving and whatever fails, every sample ever appended or
   left on disk is in the batch, with a worker, on disk, published, in a file the
   cap removed, or in a file discarded because reading it failed, as often as it
   was appended; it has a further copy only for each delivery or write that took
   while its batch was kept or already dropped. The dropped counter is the files
   the cap removed and those it counted but could not remove.
   */
  lemma NothingVanishes(left: seq<File>, clock: nat, max: int, steps: seq<Step>, x: Sample)
    requires Ready(left, clock) && Legal(Start(left, clock), max, steps)
    ensures var w := Reached(Start(left, clock), max, steps);
            && Occurs(w.batch, x) + InFlight(w, x) + OnDisk(w, x) + Published(w, x) + Evicted(w, x) + Discarded(w, x)
               == Occurs(w.log, x) + w.twice[x]
            && w.dropped == |w.evicted| + w.miscounted
  {
    EveryRunKeeps(left, clock, max, steps, x);
  }

  // ------------------------------------------- what a failed read or removal costs

  /** A read that fails on a batch that is there and intact, and removes it. */
  predicate LosesABatch(w: World, step: Step) {
    && step.Read? && w.drain.Listed? && step.gone
    && var k := Find(w.files, w.drain.stamp);
       k.Some? && !(step.ok && w.files[k.value].content.Some?) && w.files[k.value].Samples() != []
  }

  /** Every sample is held, or counted as dropped, as often as it came in. */
  ghost predicate AllHeld(w: World) {
    forall x :: Held(w, x) == Occurs(w.log, x) + w.twice[x]
  }

  predicate Empty(files: seq<File>) {
    forall i :: 0 <= i < |files| ==> files[i].Samples() == []
  }

  lemma {:induction false} CountOfEmpty(files: seq<File>, x: Sample)
    requires Empty(files)
    ensures Count(files, OfFile, x) == 0
  {
    if files != [] {
      CountOfEmpty(files[..|files| - 1], x);
    }
  }

  lemma CountOfFull(files: seq<File>, i: nat)
    requires i < |files| && files[i].Samples() != []
    ensures Count(files, OfFile, files[i].Samples()[0]) > 0
  {
    var x := files[i].Samples()[0];
    CountWithout(files, i, OfFile, x);
    assert x in multiset(files[i].Samples());
  }

  /** Along a run no read of an intact batch fails and removes it. */
  ghost predicate ReadsWork(start: World, max: int, steps: seq<Step>)
    requires Legal(start, max, steps)
  {
    steps == [] || (
      var n := |steps| - 1;
      ReadsWork(start, max, steps[..n]) && !LosesABatch(Reached(start, max, steps[..n]), steps[n]))
  }

  lemma {:induction false} DiscardedIsLost(start: World, max: int, steps: seq<Step>)
    requires Legal(start, max, steps) && Empty(start.discarded)
    ensures Empty(Reached(start, max, steps).discarded) <==> ReadsWork(start, max, steps)
  {
    if steps != [] {
      var n := |steps| - 1;
      DiscardedIsLost(start, max, steps[..n]);
      StepDiscards(Reached(start, max, steps[..n]), max, steps[n]);
    }
  }

  lemma StepDiscards(w: World, max: int, step: Step)
    requires Enabled(w, step)
    ensures Empty(Next(w, max, step).discarded) <==> Empty(w.discarded) && !LosesABatch(w, step)
  {
    var w' := Next(w, max, step);
    if w'.discarded != w.discarded {
      var k := Find(w.files, w.drain.stamp);
      assert w'.discarded == w.discarded + [w.files[k.value]];
      assert w'.discarded[|w.discarded|] == w.files[k.value];
      assert forall i :: 0 <= i < |w.discarded| ==> w'.discarded[i] == w.discarded[i];
    }
  }

  /**
   Samples go missing uncounted exactly when some read of an intact batch fails
   and removes it: the drain takes any read error for a corrupt file.
   */
  lemma AllHeldExactlyWhenReadsWork(left: seq<File>, clock: nat, max: int, steps: seq<Step>)
    requires Ready(left, clock) && Legal(Start(left, clock), max, steps)
    ensures AllHeld(Reached(Start(left, clock), max, steps)) <==> ReadsWork(Start(left, clock), max, steps)
  {
    var start := Start(left, clock);
    var w := Reached(start, max, steps);
    DiscardedIsLost(start, max, steps);
    if Empty(w.discarded) {
      forall x
        ensures Held(w, x) == Occurs(w.log, x) + w.twice[x]
      {
        EveryRunKeeps(left, clock, max, steps, x);
        CountOfEmpty(w.discarded, x);
      }
    } else {
      var i :| 0 <= i < |w.discarded| && w.discarded[i].Samples() != [];
      var x := w.discarded[i].Samples()[0];
      CountOfFull(w.discarded, i);
      EveryRunKeeps(left, clock, max, steps, x);
      assert Held(w, x) != Occurs(w.log, x) + w.twice[x];
    }
  }

  lemma OneMoreStep(start: World, max: int, steps: seq<Step>, step: Step)
    requires Legal(start, max, steps) && Enabled(Reached(start, max, steps), step)
    ensures Legal(start, max, steps + [step])
    ensures Reached(start, max, steps + [step]) == Next(Reached(start, max, steps), max, step)
  {
    assert (steps + [step])[..|steps|] == steps;
  }

  lemma StepLeadsTo(start: World, max: int, steps: seq<Step>, w: World, step: Step, w': World)
    requires Legal(start, max, steps) && Reached(start, max, steps) == w
    requires Enabled(w, step) && Next(w, max, step) == w'
    ensures Legal(start, max, steps + [step]) && Reached(start, max, steps + [step]) == w'
  {
    OneMoreStep(start, max, steps, step);
  }

  /** A worker has taken a batch of one sample. */
  lemma OneSampleTaken(x: Sample, max: int) returns (steps: seq<Step>)
    ensures Legal(Start([], 0), max, steps)
    ensures Reached(Start([], 0), max, steps) == Start([], 0).(log := [x], flights := [Flight([x], Taken)])
  {
    var start := Start([], 0);
    var appended := start.(batch := [x], log := [x]);
    StepLeadsTo(start, max, [], start, Append([x]), appended);
    StepLeadsTo(start, max, [] + [Append([x])], appended, Take, appended.(batch := [], flights := [Flight([x], Taken)]));
    steps := [] + [Append([x])] + [Take];
  }

  lemma OneSampleFails(x: Sample, max: int) returns (steps: seq<Step>)
    ensures Legal(Start([], 0), max, steps)
    ensures Reached(Start([], 0), max, steps) == Start([], 0).(log := [x], flights := [Flight([x], Failed)])
  {
    var before := OneSampleTaken(x, max);
    var taken := Start([], 0).(log := [x], flights := [Flight([x], Taken)]);
    StepLeadsTo(Start([], 0), max, before, taken, Publish(0, false, false), taken.(flights := [Flight([x], Failed)]));
    steps := before + [Publish(0, false, false)];
  }

  lemma SpillingOne(w: World, max: int, x: Sample, file: File)
    requires max >= 1 && file == File(1, 1, Some([x])) && w == Start([], 0).(log := [x], flights := [Flight([x], Failed)])
    ensures Enabled(w, Spill(0, 1, 1, {}))
    ensures Next(w, max, Spill(0, 1, 1, {})) == Start([], 0).(log := [x], files := [file], clock := 1)
  {
    OneFileFits(file, max);
    assert w.files + [file] == [file];
  }

  /** An empty buffer after one sample could not be published. */
  lemma OneSampleSpills(x: Sample, max: int, file: File) returns (steps: seq<Step>)
    requires max >= 1 && file == File(1, 1, Some([x]))
    ensures Legal(Start([], 0), max, steps)
    ensures Reached(Start([], 0), max, steps) == Start([], 0).(log := [x], files := [file], clock := 1)
  {
    var before := OneSampleFails(x, max);
    var w := Reached(Start([], 0), max, before);
    SpillingOne(w, max, x, file);
    StepLeadsTo(Start([], 0), max, before, w, Spill(0, 1, 1, {}), Next(w, max, Spill(0, 1, 1, {})));
    steps := before + [Spill(0, 1, 1, {})];
  }

  /** From an empty directory: one sample spilled, one failed read, and it is nowhere. */
  lemma AReadErrorLosesASample(x: Sample, max: int) returns (steps: seq<Step>)
    requires max >= 1
    ensures Legal(Start([], 0), max, steps)
    ensures var w := Reached(Start([], 0), max, steps);
            && Occurs(w.log, x) == 1 && Held(w, x) == 0 && w.dropped == 0 && w.twice == multiset{}
  {
    var start, file := Start([], 0), File(1, 1, Some([x]));
    steps := OneSampleSpills(x, max, file);
    steps := ListAndRead(start, max, steps, false, true);
    assert [file][1..] == [];
  }

  lemma OneFileFits(f: File, max: int)
    requires f.size <= max
    ensures Excess([f], max) == 0 && AfterCap([f], max, {}) == [f] && Stuck([f][..0], {}) == [] && Freed([f][..0], {}) == []
    ensures Without([f], 0) == []
  {
    assert [f][1..] == [] && Total([f]) == f.size + Total([f][1..]);
    assert Capped([f], max) == [f];
  }

  /** A cap step that counts a file it could not remove. */
  predicate Miscounts(w: World, max: int, step: Step) {
    && step.Spill? && step.i < |w.flights|
    && var all := w.files + [File(step.stamp, step.size, Some(w.flights[step.i].samples))];
       Stuck(all[..Excess(all, max)], step.stuck) != []
  }

  ghost predicate RemovalsWork(start: World, max: int, steps: seq<Step>)
    requires Legal(start, max, steps)
  {
    steps == [] || (
      var n := |steps| - 1;
      RemovalsWork(start, max, steps[..n]) && !Miscounts(Reached(start, max, steps[..n]), max, steps[n]))
  }

  /** The dropped counter is the number of files dropped exactly while every removal by the cap works. */
  lemma {:induction false} DroppedIsExactWhenRemovalsWork(start: World, max: int, steps: seq<Step>)
    requires start.dropped == |start.evicted| && start.miscounted == 0 && Legal(start, max, steps)
    ensures var w := Reached(start, max, steps);
            && w.dropped == |w.evicted| + w.miscounted
            && (w.dropped == |w.evicted| <==> RemovalsWork(start, max, steps))
  {
    if steps != [] {
      var n := |steps| - 1;
      DroppedIsExactWhenRemovalsWork(start, max, steps[..n]);
      StepCounts(Reached(start, max, steps[..n]), max, steps[n]);
    }
  }

  lemma StepCounts(w: World, max: int, step: Step)
    requires Enabled(w, step) && w.dropped == |w.evicted| + w.miscounted
    ensures var w' := Next(w, max, step);
            && w'.dropped == |w'.evicted| + w'.miscounted
            && w'.miscounted >= w.miscounted
            && (w'.miscounted > w.miscounted <==> Miscounts(w, max, step))
  {
    if step.Spill? {
      var all := w.files + [File(step.stamp, step.size, Some(w.flights[step.i].samples))];
      StuckOrFreed(all[..Excess(all, max)], step.stuck);
    }
  }

  /**
   A file with samples in it leaves the disk in three ways only: removed by the
   drain once its publishing was reported, in order of age; removed and counted
   by the cap; or discarded because reading it failed.
   */
  lemma FilesLeaveSentCountedOrUnread(left: seq<File>, clock: nat, max: int, steps: seq<Step>, step: Step, f: File)
    requires Ready(left, clock) && Legal(Start(left, clock), max, steps)
    requires Enabled(Reached(Start(left, clock), max, steps), step)
    requires f in Reached(Start(left, clock), max, steps).files
    ensures var w := Reached(Start(left, clock), max, steps);
            Accounted(w, Next(w, max, step), step, f)
  {
    EveryRunKeeps(left, clock, max, steps, 0);
    FileLeaves(Reached(Start(left, clock), max, steps), max, step, f);
  }

  /** How a file on disk can fare in one step. */
  predicate Accounted(w: World, w': World, step: Step, f: File) {
    || f in w'.files
    || (step == Remove(true) && w.drain == Delivered(f) && w'.drained == w.drained + [f.stamp]
        && forall i :: 0 <= i < |w.drained| ==> w.drained[i] <= f.stamp)
    || (step.Spill? && f.stamp !in step.stuck && |w.evicted| <= |w'.evicted| && f in w'.evicted[|w.evicted|..]
        && w'.dropped >= w.dropped + |w'.evicted| - |w.evicted|)
    || (step.Read? && step.gone && (!step.ok || f.content.None?) && w'.discarded == w.discarded + [f])
  }

  lemma FileLeaves(w: World, max: int, step: Step, f: File)
    requires OldestFirst(w) && Enabled(w, step) && f in w.files
    ensures Accounted(w, Next(w, max, step), step, f)
  {
    var i :| 0 <= i < |w.files| && w.files[i] == f;
    match step
    case Spill(j, stamp, size, stuck) =>
      var all := w.files + [File(stamp, size, Some(w.flights[j].samples))];
      CapFrees(all, max, stuck, i);
      var freed := Freed(all[..Excess(all, max)], stuck);
      StuckOrFreed(all[..Excess(all, max)], stuck);
      assert (w.evicted + freed)[|w.evicted|..] == freed;
    case SpillFails(_, left) =>
      if left.Some? {
        assert (w.files + [left.value])[i] == f;
      }
    case Read(_, _) => StaysWithout(w.files, w.drain.stamp, i);
    case Remove(_) =>
      StaysWithout(w.files, w.drain.file.stamp, i);
      assert Follows(f, w.drained, w.drain, w.clock);
    case _ =>
  }

  lemma CapFrees(files: seq<File>, max: int, stuck: set<nat>, i: nat)
    requires i < |files|
    ensures files[i] in AfterCap(files, max, stuck)
         || (files[i].stamp !in stuck && files[i] in Freed(files[..Excess(files, max)], stuck))
  {
    var k := Excess(files, max);
    if i >= k {
      assert files[k..][i - k] == files[i];
    } else {
      assert files[..k][i] == files[i];
      StuckOrFreed(files[..k], stuck);
      FreedAreFree(files[..k], stuck, files[i]);
    }
  }

  lemma {:induction false} FreedAreFree(files: seq<File>, stuck: set<nat>, f: File)
    ensures f in Freed(files, stuck) ==> f.stamp !in stuck
  {
    if files != [] {
      FreedAreFree(files[..|files| - 1], stuck, f);
    }
  }

  lemma StaysWithout(files: seq<File>, stamp: nat, i: nat)
    requires i < |files|
    ensures var k := Find(files, stamp);
            k.Some? && k.value != i ==> files[i] in Without(files, k.value)
  {
    var k := Find(files, stamp);
    if k.Some? && k.value != i {
      assert Without(files, k.value)[if i < k.value then i else i - 1] == files[i];
    }
  }

  // ---------------------------------------------------------------- replaying

  /** One turn of the drain: whether reading, sending and removing work. */
  datatype Attempt = Attempt(readable: bool, delivered: bool, gone: bool)

  datatype Replayed = Replayed(files: seq<File>, sent: seq<File>, lost: seq<File>)

  /** A drain with nothing else at work: always the oldest file, until a send fails or the turns end. */
  function Replay(files: seq<File>, attempts: seq<Attempt>): Replayed
    decreases |attempts|
  {
    if attempts == [] || files == [] then Replayed(files, [], [])
    else
      var f, a := files[0], attempts[0];
      var r := Replay(if a.gone then files[1..] else files, attempts[1..]);
      if !a.readable || f.content.None? then r.(lost := (if a.gone then [f] else []) + r.lost)
      else if a.delivered then r.(sent := [f] + r.sent)
      else Replayed(files, [], [])
  }

  /** A suffix is left, and every file before it was sent or lost. */
  ghost predicate TakesOldest(files: seq<File>, r: Replayed) {
    && |r.files| <= |files| && r.files == files[|files| - |r.files|..]
    && forall i :: 0 <= i < |files| - |r.files| ==> files[i] in r.sent || files[i] in r.lost
  }

  lemma TurnTakesOldest(files: seq<File>, first: File, rest: Replayed, r: Replayed)
    requires files != [] && first == files[0] && TakesOldest(files[1..], rest)
    requires r.files == rest.files && (first in r.sent || first in r.lost)
    requires (forall f :: f in rest.sent ==> f in r.sent) && (forall f :: f in rest.lost ==> f in r.lost)
    ensures TakesOldest(files, r)
  {
    var n := |files| - |r.files|;
    assert files[n..] == files[1..][n - 1..];
    forall i | 0 <= i < n
      ensures files[i] in r.sent || files[i] in r.lost
    {
      if i > 0 {
        assert files[1..][i - 1] == files[i];
      }
    }
  }

  /** Sending or losing more does not leave more behind. */
  lemma MoreIsTaken(files: seq<File>, rest: Replayed, r: Replayed)
    requires TakesOldest(files, rest) && r.files == rest.files
    requires (forall f :: f in rest.sent ==> f in r.sent) && (forall f :: f in rest.lost ==> f in r.lost)
    ensures TakesOldest(files, r)
  {
  }

  lemma NothingTaken(files: seq<File>)
    ensures TakesOldest(files, Replayed(files, [], []))
  {
    assert files[0..] == files;
  }

  lemma {:induction false} ReplayTakesOldest(files: seq<File>, attempts: seq<Attempt>)
    ensures TakesOldest(files, Replay(files, attempts))
    decreases |attempts|
  {
    if attempts == [] || files == [] {
      NothingTaken(files);
    } else {
      var f, a := files[0], attempts[0];
      var left := if a.gone then files[1..] else files;
      var rest := Replay(left, attempts[1..]);
      ReplayTakesOldest(left, attempts[1..]);
      if !a.readable || f.content.None? {
        if a.gone {
          TurnTakesOldest(files, f, rest, rest.(lost := [f] + rest.lost));
        } else {
          MoreIsTaken(files, rest, rest.(lost := [] + rest.lost));
        }
      } else if !a.delivered {
        NothingTaken(files);
      } else if a.gone {
        TurnTakesOldest(files, f, rest, rest.(sent := [f] + rest.sent));
      } else {
        MoreIsTaken(files, rest, rest.(sent := [f] + rest.sent));
      }
    }
  }

  /** Readable files of a directory. */
  predicate From(sent: seq<File>, files: seq<File>) {
    forall f :: f in sent ==> f in files && f.content.Some?
  }

  predicate InAgeOrder(sent: seq<File>) {
    forall i, j :: 0 <= i < j < |sent| ==> sent[i].stamp <= sent[j].stamp
  }

  /** What is sent was there and readable, and goes in order of age. */
  lemma {:induction false} ReplaySendsInOrder(files: seq<File>, attempts: seq<Attempt>)
    requires Ascending(files)
    ensures From(Replay(files, attempts).sent, files) && InAgeOrder(Replay(files, attempts).sent)
    decreases |attempts|
  {
    if attempts != [] && files != [] {
      var left := if attempts[0].gone then files[1..] else files;
      var rest := Replay(left, attempts[1..]).sent;
      ReplaySendsInOrder(left, attempts[1..]);
      forall f | f in rest
        ensures f in files && f.content.Some? && files[0].stamp <= f.stamp
      {
        assert f in left;
      }
      assert InAgeOrder([files[0]] + rest);
    }
  }

  /** While everything works a drain sends all there is, once each and oldest first. */
  lemma {:induction false} CleanReplaySendsAll(files: seq<File>, attempts: seq<Attempt>)
    requires |files| <= |attempts|
    requires forall i :: 0 <= i < |files| ==> files[i].content.Some? && attempts[i] == Attempt(true, true, true)
    ensures Replay(files, attempts) == Replayed([], files, [])
  {
    if files != [] {
      CleanReplaySendsAll(files[1..], attempts[1..]);
      assert files == [files[0]] + files[1..];
    }
  }

  function Contents(files: seq<File>): (contents: seq<seq<Sample>>)
    ensures |contents| == |files| && forall i :: 0 <= i < |files| ==> contents[i] == files[i].Samples()
  {
    seq(|files|, i requires 0 <= i < |files| => files[i].Samples())
  }

  /** The steps of one turn. */
  function Turn(f: File, a: Attempt): seq<Step> {
    if !a.readable || f.content.None? then [List, Read(a.readable, a.gone)]
    else if a.delivered then [List, Read(true, a.gone), Send(true, true), Remove(a.gone)]
    else [List, Read(true, a.gone), Send(false, false)]
  }

  lemma OldestIsFound(files: seq<File>)
    requires files != [] && Ascending(files)
    ensures Find(files, files[0].stamp) == Some(0) && Without(files, 0) == files[1..]
  {
  }

  lemma ListAndRead(start: World, max: int, steps: seq<Step>, ok: bool, gone: bool) returns (steps': seq<Step>)
    requires Legal(start, max, steps)
    requires var w := Reached(start, max, steps); w.drain.Idle? && w.files != [] && Ascending(w.files)
    ensures steps' == steps + [List, Read(ok, gone)] && Legal(start, max, steps')
    ensures var w, f := Reached(start, max, steps), Reached(start, max, steps).files[0];
            Reached(start, max, steps')
            == if ok && f.content.Some? then w.(drain := Holding(f))
               else if gone then w.(files := w.files[1..], discarded := w.discarded + [f])
               else w
  {
    var w := Reached(start, max, steps);
    OldestIsFound(w.files);
    OneMoreStep(start, max, steps, List);
    OneMoreStep(start, max, steps + [List], Read(ok, gone));
    steps' := steps + [List] + [Read(ok, gone)];
    assert steps' == steps + [List, Read(ok, gone)];
  }

  lemma SendAndRemove(start: World, max: int, steps: seq<Step>, f: File, gone: bool) returns (steps': seq<Step>)
    requires Legal(start, max, steps)
    requires var w := Reached(start, max, steps);
             w.drain == Holding(f) && w.files != [] && w.files[0] == f && Ascending(w.files)
    ensures steps' == steps + [Send(true, true), Remove(gone)] && Legal(start, max, steps')
    ensures var w, w' := Reached(start, max, steps), Reached(start, max, steps');
            && w'.drain.Idle? && w'.files == (if gone then w.files[1..] else w.files)
            && w'.published == w.published + [f.Samples()] && w'.discarded == w.discarded
  {
    var w := Reached(start, max, steps);
    OldestIsFound(w.files);
    OneMoreStep(start, max, steps, Send(true, true));
    OneMoreStep(start, max, steps + [Send(true, true)], Remove(gone));
    steps' := steps + [Send(true, true)] + [Remove(gone)];
    assert steps' == steps + [Send(true, true), Remove(gone)];
  }

  /**
   A drain left alone is a run of the state machine, so all that holds of every
   run holds of it: what it sends is published, what it loses is discarded.
   */
  lemma {:induction false} ReplayIsARun(start: World, max: int, steps: seq<Step>, attempts: seq<Attempt>) returns (steps': seq<Step>)
    requires Legal(start, max, steps)
    requires var w := Reached(start, max, steps); w.drain.Idle? && Ascending(w.files)
    ensures Legal(start, max, steps')
    ensures var w, w' := Reached(start, max, steps), Reached(start, max, steps');
            var r := Replay(w.files, attempts);
            && w'.drain.Idle? && w'.files == r.files
            && w'.published == w.published + Contents(r.sent) && w'.discarded == w.discarded + r.lost
    decreases |attempts|
  {
    var w := Reached(start, max, steps);
    if attempts == [] || w.files == [] {
      steps' := steps;
      assert w.published + Contents([]) == w.published && w.discarded + [] == w.discarded;
    } else {
      var f, a := w.files[0], attempts[0];
      var ok := a.readable && f.content.Some?;
      var read := ListAndRead(start, max, steps, a.readable, a.gone);
      if ok && !a.delivered {
        OneMoreStep(start, max, read, Send(false, false));
        steps' := read + [Send(false, false)];
        assert w.published + [] == w.published && w.published + Contents([]) == w.published && w.discarded + [] == w.discarded;
      } else {
        var turned := read;
        if ok {
          turned := SendAndRemove(start, max, read, f, a.gone);
        }
        var w1 := Reached(start, max, turned);
        assert w1.files == if a.gone then w.files[1..] else w.files;
        steps' := ReplayIsARun(start, max, turned, attempts[1..]);
        var rest := Replay(w1.files, attempts[1..]);
        ReplayJoins(w, w1, f, ok, a.gone, rest);
      }
    }
  }

  lemma ContentsJoin(a: seq<File>, b: seq<File>)
    ensures Contents(a + b) == Contents(a) + Contents(b)
  {
  }

  lemma ReplayJoins(w: World, w1: World, f: File, sent: bool, gone: bool, rest: Replayed)
    requires w1.published == w.published + (if sent then [f.Samples()] else [])
    requires w1.discarded == w.discarded + (if !sent && gone then [f] else [])
    ensures w1.published + Contents(rest.sent) == w.published + Contents((if sent then [f] else []) + rest.sent)
    ensures w1.discarded + rest.lost == w.discarded + ((if !sent && gone then [f] else []) + rest.lost)
  {
    var first := if sent then [f] else [];
    ContentsJoin(first, rest.sent);
    assert Contents(first) == if sent then [f.Samples()] else [];
    Regroup(w.published, Contents(first), Contents(rest.sent));
    Regroup(w.discarded, if !sent && gone then [f] else [], rest.lost);
  }

  lemma Regroup<T>(a: seq<T>, b: seq<T>, c: seq<T>)
    ensures (a + b) + c == a + (b + c)
  {
  }

  // -------------------------------------------------------------- the buffer

  lemma OneFileOn(files: seq<File>, i: nat, max: int, stuck: set<nat>)
    requires i < |files|
    ensures files[i..] == [files[i]] + files[i + 1..] && Total(files[i..]) == files[i].size + Total(files[i + 1..])
    ensures Total(files[i..]) > max ==> Excess(files[i..], max) == 1 + Excess(files[i + 1..], max)
    ensures Stuck(files[..i + 1], stuck) == Stuck(files[..i], stuck) + (if files[i].stamp in stuck then [files[i]] else [])
  {
    assert files[i..][1..] == files[i + 1..];
    assert files[..i + 1][..i] == files[..i];
  }

  /** The cap has dealt with the first `i` files, and would go on with the rest by its running total. */
  ghost predicate CappedSoFar(all: seq<File>, i: nat, max: int, stuck: set<nat>, stay: seq<File>, files: seq<File>, total: int) {
    && i <= |all|
    && stay == Stuck(all[..i], stuck) && files == stay + all[i..]
    && total == Total(all[i..])
    && Excess(all, max) == i + Excess(all[i..], max)
  }

  lemma CapGoesOn(all: seq<File>, i: nat, max: int, stuck: set<nat>, stay: seq<File>, files: seq<File>, total: int)
    requires i < |all| && total > max && CappedSoFar(all, i, max, stuck, stay, files, total)
    ensures CappedSoFar(all, i + 1, max, stuck, stay + (if all[i].stamp in stuck then [all[i]] else []),
                        if all[i].stamp in stuck then files else stay + all[i + 1..], total - all[i].size)
  {
    OneFileOn(all, i, max, stuck);
    Regroup(stay, [all[i]], all[i + 1..]);
    assert stay + [] == stay;
  }

  lemma CapIsDone(all: seq<File>, i: nat, max: int, stuck: set<nat>, stay: seq<File>, files: seq<File>, total: int)
    requires CappedSoFar(all, i, max, stuck, stay, files, total)
    requires i == |all| || total <= max
    ensures Excess(all, max) == i && files == AfterCap(all, max, stuck)
  {
  }

  /** How writing a batch went: a write that failed may leave a file behind. */
  datatype Write = Written | Unwritable | Spoilt(size: nat, content: Option<seq<Sample>>)

  /** The directory after a write that failed. */
  function Spoiled(files: seq<File>, stamp: nat, write: Write): seq<File> {
    if write.Spoilt? then files + [File(stamp, write.size, write.content)] else files
  }

  class DiskBuffer {
    const maxBytes: int
    /** The directory in name order; later stamps have as many digits. */
    var files: seq<File>
    var dropped: nat

    constructor (maxBytes: int, files: seq<File>)
      ensures this.maxBytes == maxBytes && this.files == files && dropped == 0
    {
      this.maxBytes, this.files, dropped := maxBytes, files, 0;
    }

    method Inventory() returns (listed: seq<File>, total: nat)
      ensures listed == files && total == Total(files)
    {
      listed, total := [], 0;
      for i := 0 to |files|
        invariant listed == files[..i] && total == Total(files[..i])
      {
        TotalOfLast(files[..i], files[i]);
        assert files[..i + 1] == files[..i] + [files[i]];
        listed, total := listed + [files[i]], total + files[i].size;
      }
      assert files[..|files|] == files;
    }

    method EnforceCap(stuck: set<nat>)
      modifies this
      ensures files == AfterCap(old(files), maxBytes, stuck)
      ensures dropped == old(dropped) + Excess(old(files), maxBytes)
    {
      var listed, bytes := Inventory();
      var i, stay, total: int := 0, [], bytes;
      assert listed[0..] == listed;
      while i < |listed| && total > maxBytes
        invariant CappedSoFar(listed, i, maxBytes, stuck, stay, files, total)
        invariant dropped == old(dropped) + i
      {
        total, stay := RemoveNext(listed, i, stuck, stay, total);
        i := i + 1;
      }
      CapIsDone(listed, i, maxBytes, stuck, stay, files, total);
    }

    /** One turn: the file is counted, and gone unless its removal fails. */
    method RemoveNext(listed: seq<File>, i: nat, stuck: set<nat>, stay: seq<File>, total: int) returns (total': int, stay': seq<File>)
      requires i < |listed| && total > maxBytes && CappedSoFar(listed, i, maxBytes, stuck, stay, files, total)
      modifies this
      ensures CappedSoFar(listed, i + 1, maxBytes, stuck, stay', files, total')
      ensures dropped == old(dropped) + 1
    {
      CapGoesOn(listed, i, maxBytes, stuck, stay, files, total);
      total' := total - listed[i].size;
      if listed[i].stamp in stuck {
        stay' := stay + [listed[i]];
      } else {
        stay' := stay;
        assert stay + [] == stay;
        files := stay + listed[i + 1..];
      }
      dropped := dropped + 1;
    }

    /** Write a batch under a new stamp, then make it and the rest fit. */
    method Put(samples: seq<Sample>, stamp: nat, size: nat, write: Write, stuck: set<nat>) returns (ok: bool)
      modifies this
      ensures ok == write.Written?
      ensures var all := old(files) + [File(stamp, size, Some(samples))];
              if ok then files == AfterCap(all, maxBytes, stuck) && dropped == old(dropped) + Excess(all, maxBytes)
              else files == Spoiled(old(files), stamp, write) && dropped == old(dropped)
    {
      match write {
        case Unwritable =>
          return false;
        case Spoilt(left, content) =>
          files := files + [File(stamp, left, content)];
          return false;
        case Written =>
          files := files + [File(stamp, size, Some(samples))];
          EnforceCap(stuck);
          return true;
      }
    }

    /**
     Replay oldest first until a send fails, the buffer is empty or the context
     ends with the attempts; a file that is not read and parsed is discarded.
     */
    method Drain(attempts: seq<Attempt>) returns (sent: seq<File>, ghost lost: seq<File>)
      modifies this
      ensures dropped == old(dropped)
      ensures Replayed(files, sent, lost) == Replay(old(files), attempts)
    {
      sent, lost := [], [];
      ghost var goal := Replay(files, attempts);
      for i := 0 to |attempts|
        invariant dropped == old(dropped)
        invariant var r := Replay(files, attempts[i..]);
                  goal == Replayed(r.files, sent + r.sent, lost + r.lost)
      {
        var listed, _ := Inventory();
        if listed == [] {
          assert sent + [] == sent && lost + [] == lost;
          return;
        }
        var f, a := listed[0], attempts[i];
        assert attempts[i..][1..] == attempts[i + 1..];
        ghost var rest := Replay(if a.gone then files[1..] else files, attempts[i + 1..]);
        if !a.readable || f.content.None? {
          if a.gone {
            assert lost + ([f] + rest.lost) == lost + [f] + rest.lost;
            files := files[1..];
            lost := lost + [f];
          } else {
            assert [] + rest.lost == rest.lost;
          }
          continue;
        }
        if !a.delivered {
          assert sent + [] == sent && lost + [] == lost;
          return;
        }
        assert sent + ([f] + rest.sent) == sent + [f] + rest.sent;
        if a.gone {
          files := files[1..];
        }
        sent := sent + [f];
      }
      assert sent + [] == sent && lost + [] == lost;
    }
  }

  // ------------------------------------------------------------- the runtime

  class Runtime {
    const buffer: Option<DiskBuffer>
    var batch: seq<Sample>
    var batches: nat

    constructor (buffer: Option<DiskBuffer>)
      ensures this.buffer == buffer && batch == [] && batches == 0
    {
      this.buffer, batch, batches := buffer, [], 0;
    }

    /** The locked part of appending; says whether to flush. */
    method Append(samples: seq<Sample>) returns (full: bool)
      modifies `batch
      ensures batch == old(batch) + samples
      ensures full <==> samples != [] && |batch| >= BATCH_FLUSH_SIZE
    {
      if samples == [] {
        return false;
      }
      batch := batch + samples;
      full := |batch| >= BATCH_FLUSH_SIZE;
    }

    /** The first locked part of flushing. */
    method Take() returns (out: seq<Sample>)
      modifies `batch
      ensures out == old(batch) && batch == []
    {
      out := batch;
      batch := [];
    }

    /** The second: what could not be handed over goes back in front. */
    method PutBack(out: seq<Sample>)
      modifies `batch
      ensures batch == out + old(batch)
    {
      batch := out + batch;
    }

    /** A whole flush with nothing else at work: published, spilled, or still in memory. */
    method Flush(reported: bool, stamp: nat, size: nat, write: Write, stuck: set<nat>) returns (sent: seq<Sample>)
      modifies this, if buffer.Some? then {buffer.value} else {}
      ensures sent == if reported then old(batch) else []
      ensures batches == old(batches) + (if reported && old(batch) != [] then 1 else 0)
      ensures var tried := old(batch) != [] && !reported && buffer.Some?;
              && batch == (if reported || (tried && write.Written?) then [] else old(batch))
              && (buffer.Some? ==>
                    var was := old(buffer.value.files);
                    buffer.value.files
                    == if !tried then was
                       else if write.Written? then AfterCap(was + [File(stamp, size, Some(old(batch)))], buffer.value.maxBytes, stuck)
                       else Spoiled(was, stamp, write))
    {
      if batch == [] {
        return [];
      }
      var out := Take();
      if reported {
        batches := batches + 1;
        return out;
      }
      if buffer.Some? {
        var ok := buffer.value.Put(out, stamp, size, write, stuck);
        if ok {
          return [];
        }
      }
      PutBack(out);
      return [];
    }
  }
}
