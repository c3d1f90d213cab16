/**
 The raw-flow writer: a bounded queue filled by receive loops, and one flusher
 that cuts the queue into token-stamped batches and retries each until the
 store takes it. The store keeps the first block it sees under a token and
 ignores the same token afterwards.

 `Queue` is the state the writer's mutex guards, `Flusher` the local variables
 of one running flush, and `History` what an observer outside the program
 would have written down. A run is any sequence of `Event`s, so every
 interleaving of receive loops with the flusher is a run.
 */
module FlowWriter {
  import opened Wrap

  /** A row to be stored, by its identity. */
  type Row = nat

  const DEFAULT_MAX_QUEUED: nat := 1_000_000
  const BATCH_ROWS: nat := 100_000

  /** A batch's deduplication token: the time it was formed and its number. */
  datatype Token = Token(nanos: int, number: nat)

  datatype Batch = Batch(token: Token, rows: seq<Row>)

  /** What the store answers, and whether the rows are in it afterwards. */
  datatype Outcome = Accepted | Refused | LandedButFailed

  datatype Queue = Queue(
    limit: nat,
    pending: seq<Row>,
    retry: seq<Batch>,
    queued: int,
    number: nat,
    written: uint64,
    dropped: uint64,
    failed: uint64
  )

  /** The flush in progress: the batches it took, how many landed, and whether one failed. */
  datatype Flusher = Idle | Sending(todo: seq<Batch>, sent: nat, stopped: bool)

  /** ClickHouse: tokens seen and rows stored, in arrival order. */
  datatype Store = Store(tokens: set<Token>, rows: seq<Row>)

  /** What was offered, accepted, committed and sent, over the whole run. */
  datatype History = History(
    offered: nat,
    lost: nat,
    accepted: seq<Row>,
    committed: seq<Row>,
    sends: seq<Batch>
  )

  datatype World = World(queue: Queue, flusher: Flusher, store: Store, history: History)

  datatype Event =
    | Offer(rows: seq<Row>)
    | BeginFlush(clock: nat -> int)
    | Send(outcome: Outcome)
    | EndFlush

  // ---------------------------------------------------------------- steps

  function Limit(maxQueued: int): (limit: nat)
    ensures limit > 0
  {
    if maxQueued <= 0 then DEFAULT_MAX_QUEUED else maxQueued
  }

  /** How many of `count` offered rows fit, given what is already queued. */
  function Room(q: Queue, count: nat): (room: nat)
    ensures room <= count
  {
    if q.limit - q.queued >= count then count
    else if q.limit - q.queued < 0 then 0
    else q.limit - q.queued
  }

  function AddTo(q: Queue, rows: seq<Row>): Queue {
    var room := Room(q, |rows|);
    q.(dropped := Wrap64(q.dropped + (|rows| - room)),
       pending := q.pending + rows[..room],
       queued := q.queued + room)
  }

  /** The batches cut from `pending`, numbered from `number + 1`. */
  function Cut(pending: seq<Row>, number: nat, clock: nat -> int): (batches: seq<Batch>)
    decreases |pending|
  {
    if pending == [] then []
    else
      var n := if |pending| < BATCH_ROWS then |pending| else BATCH_ROWS;
      [Batch(Token(clock(number + 1), number + 1), pending[..n])] + Cut(pending[n..], number + 1, clock)
  }

  function FormBatches(q: Queue, clock: nat -> int): Queue {
    var cut := Cut(q.pending, q.number, clock);
    q.(pending := [], retry := q.retry + cut, number := q.number + |cut|)
  }

  function Insert(s: Store, b: Batch): Store {
    if b.token in s.tokens then s else Store(s.tokens + {b.token}, s.rows + b.rows)
  }

  function Deliver(s: Store, b: Batch, outcome: Outcome): Store {
    if outcome == Refused then s else Insert(s, b)
  }

  function Settle(q: Queue, b: Batch, outcome: Outcome): Queue {
    if outcome == Accepted then q.(written := Wrap64(q.written + |b.rows|))
    else q.(failed := Wrap64(q.failed + 1))
  }

  function Commit(q: Queue, sent: nat): Queue
    requires sent <= |q.retry|
  {
    q.(queued := q.queued - RowCount(q.retry[..sent]), retry := q.retry[sent..])
  }

  function Flatten(batches: seq<Batch>): (rows: seq<Row>)
    ensures |rows| == RowCount(batches)
  {
    if batches == [] then [] else batches[0].rows + Flatten(batches[1..])
  }

  function RowCount(batches: seq<Batch>): nat {
    if batches == [] then 0 else |batches[0].rows| + RowCount(batches[1..])
  }

  /** Whether the flusher's program order lets an event happen now. */
  predicate Enabled(w: World, e: Event) {
    match e
    case Offer(_) => true
    case BeginFlush(_) => w.flusher.Idle?
    case Send(_) => w.flusher.Sending? && !w.flusher.stopped && w.flusher.sent < |w.flusher.todo|
    case EndFlush =>
      && w.flusher.Sending?
      && (w.flusher.stopped || w.flusher.sent == |w.flusher.todo|)
      && w.flusher.sent <= |w.queue.retry|
  }

  function Step(w: World, e: Event): World {
    if !Enabled(w, e) then w
    else match e
      case Offer(rows) =>
        var room := Room(w.queue, |rows|);
        w.(queue := AddTo(w.queue, rows),
           history := w.history.(offered := w.history.offered + |rows|,
                                 lost := w.history.lost + (|rows| - room),
                                 accepted := w.history.accepted + rows[..room]))
      case BeginFlush(clock) =>
        var q := FormBatches(w.queue, clock);
        w.(queue := q, flusher := Sending(q.retry, 0, false))
      case Send(outcome) =>
        var b := w.flusher.todo[w.flusher.sent];
        w.(queue := Settle(w.queue, b, outcome),
           store := Deliver(w.store, b, outcome),
           flusher := if outcome == Accepted then w.flusher.(sent := w.flusher.sent + 1)
                      else w.flusher.(stopped := true),
           history := w.history.(sends := w.history.sends + [b]))
      case EndFlush =>
        w.(queue := Commit(w.queue, w.flusher.sent),
           flusher := Idle,
           history := w.history.(committed := w.history.committed + Flatten(w.queue.retry[..w.flusher.sent])))
  }

  function Run(w: World, events: seq<Event>): World
    decreases |events|
  {
    if events == [] then w else Run(Step(w, events[0]), events[1..])
  }

  function Start(maxQueued: int): World {
    World(Queue(Limit(maxQueued), [], [], 0, 0, 0, 0, 0), Idle, Store({}, []), History(0, 0, [], [], []))
  }

  // ----------------------------------------------------------- invariant

  function SentSoFar(w: World): nat {
    if w.flusher.Sending? then w.flusher.sent else 0
  }

  /** Tokens are numbered in forming order, none above `number`. */
  ghost predicate Numbered(batches: seq<Batch>, number: nat) {
    && (forall i, j :: 0 <= i < j < |batches| ==> batches[i].token.number < batches[j].token.number)
    && (forall i :: 0 <= i < |batches| ==> batches[i].token.number <= number)
  }

  /** Queue accounting: what is counted is what is held, and it fits. */
  ghost predicate Accounted(w: World) {
    && w.queue.queued == |w.queue.pending| + RowCount(w.queue.retry)
    && w.queue.queued <= w.queue.limit
    && w.history.accepted == w.history.committed + Flatten(w.queue.retry) + w.queue.pending
    && |w.history.accepted| + w.history.lost == w.history.offered
    && w.queue.dropped == Wrap64(w.history.lost)
  }

  /** The flush in progress is looking at the retry list itself. */
  ghost predicate Aligned(w: World) {
    && SentSoFar(w) <= |w.queue.retry|
    && (w.flusher.Sending? ==> w.flusher.todo == w.queue.retry)
    && w.queue.written == Wrap64(|w.history.committed| + RowCount(w.queue.retry[..SentSoFar(w)]))
  }

  /** Whether the batch now at the head of the line is in the store already. */
  ghost predicate HeadLanded(w: World) {
    SentSoFar(w) < |w.queue.retry| && w.queue.retry[SentSoFar(w)].token in w.store.tokens
  }

  /** The store: everything acknowledged, then possibly the head batch. */
  ghost predicate Stored(w: World) {
    var sent := SentSoFar(w);
    sent <= |w.queue.retry| &&
    w.store.rows == w.history.committed + Flatten(w.queue.retry[..sent])
                    + (if HeadLanded(w) then w.queue.retry[sent].rows else [])
  }

  /** A token is the head batch's own, or older than it. */
  ghost predicate NotAhead(t: Token, retry: seq<Batch>, sent: nat) {
    sent < |retry| ==> t.number < retry[sent].token.number || t == retry[sent].token
  }

  /** Nothing past the head has reached the store. */
  ghost predicate StoreNotAhead(w: World) {
    forall t :: t in w.store.tokens ==> t.number <= w.queue.number && NotAhead(t, w.queue.retry, SentSoFar(w))
  }

  /** Nothing past the head has been sent. */
  ghost predicate SendsNotAhead(w: World) {
    var sent := SentSoFar(w);
    forall b :: b in w.history.sends
      ==> && b.token.number <= w.queue.number
          && (sent < |w.queue.retry|
              ==> b.token.number < w.queue.retry[sent].token.number || b == w.queue.retry[sent])
  }

  /** Sends never go back to an earlier batch. */
  ghost predicate SendsAscend(sends: seq<Batch>) {
    forall k, l :: 0 <= k < l < |sends| ==> sends[k].token.number < sends[l].token.number || sends[k] == sends[l]
  }

  ghost predicate InOrder(w: World) {
    && Numbered(w.queue.retry, w.queue.number)
    && StoreNotAhead(w)
    && SendsNotAhead(w)
    && SendsAscend(w.history.sends)
  }

  ghost predicate Inv(w: World) {
    Accounted(w) && Aligned(w) && Stored(w) && InOrder(w)
  }

  // ------------------------------------------------------ sequence lemmas

  lemma {:induction false} FlattenAppend(a: seq<Batch>, b: seq<Batch>)
    ensures Flatten(a + b) == Flatten(a) + Flatten(b)
    ensures RowCount(a + b) == RowCount(a) + RowCount(b)
  {
    if a == [] {
      assert a + b == b;
    } else {
      assert (a + b)[1..] == a[1..] + b;
      FlattenAppend(a[1..], b);
    }
  }

  lemma Regroup(a: seq<Row>, b: seq<Row>, c: seq<Row>, d: seq<Row>)
    ensures a + (b + c) + d == (a + b) + c + d
    ensures a + (b + c) + d == (a + b) + (c + d)
  {
  }

  lemma FlattenExtend(batches: seq<Batch>, k: nat)
    requires k < |batches|
    ensures Flatten(batches[..k + 1]) == Flatten(batches[..k]) + batches[k].rows
    ensures RowCount(batches[..k + 1]) == RowCount(batches[..k]) + |batches[k].rows|
  {
    assert batches[..k + 1] == batches[..k] + [batches[k]];
    FlattenAppend(batches[..k], [batches[k]]);
    assert Flatten([batches[k]]) == batches[k].rows;
  }

  /** Cutting loses no row, keeps their order, and numbers upwards. */
  lemma {:induction false} CutKeepsRows(pending: seq<Row>, number: nat, clock: nat -> int)
    ensures Flatten(Cut(pending, number, clock)) == pending
    ensures forall i :: 0 <= i < |Cut(pending, number, clock)| ==>
              && Cut(pending, number, clock)[i].token.number == number + 1 + i
              && 0 < |Cut(pending, number, clock)[i].rows| <= BATCH_ROWS
    decreases |pending|
  {
    if pending != [] {
      var n := if |pending| < BATCH_ROWS then |pending| else BATCH_ROWS;
      CutKeepsRows(pending[n..], number + 1, clock);
      assert pending == pending[..n] + pending[n..];
    }
  }

  // ------------------------------------------------- every step keeps Inv

  lemma OfferKeepsAccounts(w: World, rows: seq<Row>)
    requires Accounted(w)
    ensures Accounted(Step(w, Offer(rows)))
  {
    var room := Room(w.queue, |rows|);
    WrapSum(w.history.lost, |rows| - room);
    var w' := Step(w, Offer(rows));
    assert w'.history.accepted == w.history.committed + Flatten(w.queue.retry) + (w.queue.pending + rows[..room]);
  }

  lemma OfferKeepsInv(w: World, rows: seq<Row>)
    requires Inv(w)
    ensures Inv(Step(w, Offer(rows)))
  {
    OfferKeepsAccounts(w, rows);
    assert HeadLanded(Step(w, Offer(rows))) == HeadLanded(w);
  }

  /** The head of the line is unchanged, or newly cut from an empty line. */
  lemma BeginHead(w: World, clock: nat -> int)
    requires Numbered(w.queue.retry, w.queue.number)
    ensures var q := FormBatches(w.queue, clock);
            && Numbered(q.retry, q.number) && w.queue.number <= q.number
            && (w.queue.retry != [] ==> q.retry[0] == w.queue.retry[0])
            && (w.queue.retry == [] && q.retry != [] ==> q.retry[0].token.number == w.queue.number + 1)
  {
    var cut := Cut(w.queue.pending, w.queue.number, clock);
    CutKeepsRows(w.queue.pending, w.queue.number, clock);
    NumberedGrows(w.queue.retry, cut, w.queue.number);
  }

  lemma BeginKeepsStoreBehind(w: World, clock: nat -> int)
    requires Numbered(w.queue.retry, w.queue.number) && StoreNotAhead(w) && w.flusher.Idle?
    ensures StoreNotAhead(Step(w, BeginFlush(clock)))
  {
    BeginHead(w, clock);
  }

  /** A batch just cut has a number no token in the store has. */
  lemma BeginKeepsHead(w: World, clock: nat -> int)
    requires Numbered(w.queue.retry, w.queue.number) && StoreNotAhead(w) && w.flusher.Idle?
    ensures HeadLanded(Step(w, BeginFlush(clock))) == HeadLanded(w)
  {
    BeginHead(w, clock);
  }

  lemma BeginKeepsSendsBehind(w: World, clock: nat -> int)
    requires Numbered(w.queue.retry, w.queue.number) && SendsNotAhead(w) && w.flusher.Idle?
    ensures SendsNotAhead(Step(w, BeginFlush(clock)))
  {
    BeginHead(w, clock);
  }

  lemma BeginKeepsOrder(w: World, clock: nat -> int)
    requires InOrder(w) && w.flusher.Idle?
    ensures InOrder(Step(w, BeginFlush(clock)))
  {
    BeginHead(w, clock);
    BeginKeepsStoreBehind(w, clock);
    BeginKeepsSendsBehind(w, clock);
  }

  lemma BeginKeepsAligned(w: World, clock: nat -> int)
    requires Aligned(w) && w.flusher.Idle?
    ensures Aligned(Step(w, BeginFlush(clock)))
  {
    var cut := Cut(w.queue.pending, w.queue.number, clock);
    assert (w.queue.retry + cut)[..0] == w.queue.retry[..0];
  }

  lemma BeginKeepsAccounts(w: World, clock: nat -> int)
    requires Accounted(w) && w.flusher.Idle?
    ensures Accounted(Step(w, BeginFlush(clock)))
  {
    var cut := Cut(w.queue.pending, w.queue.number, clock);
    CutKeepsRows(w.queue.pending, w.queue.number, clock);
    FlattenAppend(w.queue.retry, cut);
    Regroup(w.history.committed, Flatten(w.queue.retry), w.queue.pending, []);
  }

  lemma BeginKeepsInv(w: World, clock: nat -> int)
    requires Inv(w)
    ensures Inv(Step(w, BeginFlush(clock)))
  {
    if w.flusher.Idle? {
      BeginKeepsAccounts(w, clock);
      BeginKeepsAligned(w, clock);
      BeginKeepsOrder(w, clock);
      BeginKeepsHead(w, clock);
      BeginKeepsStored(w, clock);
    }
  }

  lemma BeginKeepsStored(w: World, clock: nat -> int)
    requires Stored(w) && w.flusher.Idle?
    requires HeadLanded(Step(w, BeginFlush(clock))) == HeadLanded(w)
    ensures Stored(Step(w, BeginFlush(clock)))
  {
    var w' := Step(w, BeginFlush(clock));
    assert w'.queue.retry[..0] == w.queue.retry[..0];
  }

  lemma NumberedGrows(retry: seq<Batch>, cut: seq<Batch>, number: nat)
    requires Numbered(retry, number)
    requires forall i :: 0 <= i < |cut| ==> cut[i].token.number == number + 1 + i
    ensures Numbered(retry + cut, number + |cut|)
  {
  }

  lemma SendKeepsAccounts(w: World, outcome: Outcome)
    requires Accounted(w) && Aligned(w) && Enabled(w, Send(outcome))
    ensures Accounted(Step(w, Send(outcome))) && Aligned(Step(w, Send(outcome)))
  {
    var sent := w.flusher.sent;
    FlattenExtend(w.queue.retry, sent);
    WrapSum(|w.history.committed| + RowCount(w.queue.retry[..sent]), |w.queue.retry[sent].rows|);
  }

  lemma SendReachesHead(w: World, outcome: Outcome)
    requires Aligned(w) && StoreNotAhead(w) && Numbered(w.queue.retry, w.queue.number)
    requires Enabled(w, Send(outcome))
    ensures StoreNotAhead(Step(w, Send(outcome)))
    ensures HeadLanded(Step(w, Send(outcome)))
         == match outcome { case Accepted => false case LandedButFailed => true case Refused => HeadLanded(w) }
  {
    // After an acceptance the next token is above every token the store has seen.
  }

  /** What the store gains from one insert of the head batch. */
  lemma DeliveredRows(w: World, outcome: Outcome)
    requires Aligned(w) && Stored(w) && Enabled(w, Send(outcome))
    ensures var sent, retry := w.flusher.sent, w.queue.retry;
            var acknowledged := w.history.committed + Flatten(retry[..sent]);
            Deliver(w.store, retry[sent], outcome).rows
            == if outcome == Refused && !HeadLanded(w) then acknowledged else acknowledged + retry[sent].rows
  {
    var acknowledged := w.history.committed + Flatten(w.queue.retry[..w.flusher.sent]);
    assert acknowledged + [] == acknowledged;
  }

  lemma SendKeepsStored(w: World, outcome: Outcome)
    requires Aligned(w) && Stored(w) && Enabled(w, Send(outcome))
    requires HeadLanded(Step(w, Send(outcome)))
          == match outcome { case Accepted => false case LandedButFailed => true case Refused => HeadLanded(w) }
    ensures Stored(Step(w, Send(outcome)))
  {
    var sent, retry := w.flusher.sent, w.queue.retry;
    var acknowledged := w.history.committed + Flatten(retry[..sent]);
    var w' := Step(w, Send(outcome));
    DeliveredRows(w, outcome);
    assert w'.store.rows == if outcome == Refused && !HeadLanded(w) then acknowledged else acknowledged + retry[sent].rows;
    assert w'.queue.retry == retry && w'.history.committed == w.history.committed;
    if outcome == Accepted {
      FlattenExtend(retry, sent);
      Regroup(w.history.committed, Flatten(retry[..sent]), retry[sent].rows, []);
    } else {
      assert SentSoFar(w') == sent && acknowledged + [] == acknowledged;
    }
  }

  lemma SendKeepsOrder(w: World, outcome: Outcome)
    requires Aligned(w) && Numbered(w.queue.retry, w.queue.number)
    requires SendsNotAhead(w) && SendsAscend(w.history.sends)
    requires Enabled(w, Send(outcome))
    ensures SendsNotAhead(Step(w, Send(outcome))) && SendsAscend(Step(w, Send(outcome)).history.sends)
  {
    var w' := Step(w, Send(outcome));
    var b := w.queue.retry[w.flusher.sent];
    assert w'.history.sends == w.history.sends + [b];
    forall k | 0 <= k < |w.history.sends|
      ensures w.history.sends[k].token.number < b.token.number || w.history.sends[k] == b
    {
      assert w.history.sends[k] in w.history.sends;
    }
  }

  lemma SendKeepsInv(w: World, outcome: Outcome)
    requires Inv(w)
    ensures Inv(Step(w, Send(outcome)))
  {
    if Enabled(w, Send(outcome)) {
      SendKeepsAccounts(w, outcome);
      SendReachesHead(w, outcome);
      SendKeepsStored(w, outcome);
      SendKeepsOrder(w, outcome);
    }
  }

  lemma FlattenSplit(batches: seq<Batch>, k: nat)
    requires k <= |batches|
    ensures Flatten(batches) == Flatten(batches[..k]) + Flatten(batches[k..])
    ensures RowCount(batches) == RowCount(batches[..k]) + RowCount(batches[k..])
  {
    assert batches == batches[..k] + batches[k..];
    FlattenAppend(batches[..k], batches[k..]);
  }

  lemma EndKeepsAccounts(w: World)
    requires Accounted(w) && Aligned(w) && Enabled(w, EndFlush)
    ensures Accounted(Step(w, EndFlush))
  {
    var sent := w.flusher.sent;
    FlattenSplit(w.queue.retry, sent);
    Regroup(w.history.committed, Flatten(w.queue.retry[..sent]), Flatten(w.queue.retry[sent..]), w.queue.pending);
  }

  lemma EndKeepsStored(w: World)
    requires Inv(w) && Enabled(w, EndFlush)
    ensures Aligned(Step(w, EndFlush)) && Stored(Step(w, EndFlush))
  {
    var w' := Step(w, EndFlush);
    var sent := w.flusher.sent;
    assert w'.queue.retry[..0] == [];
    if sent < |w.queue.retry| {
      assert w'.queue.retry[0] == w.queue.retry[sent];
    }
    assert HeadLanded(w') == HeadLanded(w);
    assert Flatten([]) == [];
  }

  lemma EndKeepsOrder(w: World)
    requires InOrder(w) && Enabled(w, EndFlush)
    ensures InOrder(Step(w, EndFlush))
  {
    var w' := Step(w, EndFlush);
    assert forall i :: 0 <= i < |w'.queue.retry| ==> w'.queue.retry[i] == w.queue.retry[w.flusher.sent + i];
    assert Numbered(w'.queue.retry, w'.queue.number);
  }

  lemma EndKeepsInv(w: World)
    requires Inv(w)
    ensures Inv(Step(w, EndFlush))
  {
    if Enabled(w, EndFlush) {
      EndKeepsAccounts(w);
      EndKeepsStored(w);
      EndKeepsOrder(w);
    }
  }

  lemma StepKeepsInv(w: World, e: Event)
    requires Inv(w)
    ensures Inv(Step(w, e))
  {
    match e
    case Offer(rows) => OfferKeepsInv(w, rows);
    case BeginFlush(clock) => BeginKeepsInv(w, clock);
    case Send(outcome) => SendKeepsInv(w, outcome);
    case EndFlush => EndKeepsInv(w);
  }

  lemma {:induction false} RunKeepsInv(w: World, events: seq<Event>)
    requires Inv(w)
    ensures Inv(Run(w, events))
    decreases |events|
  {
    if events != [] {
      StepKeepsInv(w, events[0]);
      RunKeepsInv(Step(w, events[0]), events[1..]);
    }
  }

  // ------------------------------------------------------- main theorems

  lemma StartInv(maxQueued: int)
    ensures Inv(Start(maxQueued))
  {
  }

  /**
   In every interleaving, including inserts that land but report failure, the
   store holds the accepted rows in acceptance order, each once: everything
   committed, what the flush in progress has had acknowledged, and at most the
   one batch then at the head of the line. Between flushes nothing is
   acknowledged and not committed.
   */
  lemma StoreHoldsAcceptedPrefix(maxQueued: int, events: seq<Event>)
    ensures var w := Run(Start(maxQueued), events);
            var sent := if w.flusher.Sending? then w.flusher.sent else 0;
            && w.history.committed <= w.store.rows <= w.history.accepted
            && sent <= |w.queue.retry|
            && var acknowledged := w.history.committed + Flatten(w.queue.retry[..sent]);
               || w.store.rows == acknowledged
               || (sent < |w.queue.retry| && w.store.rows == acknowledged + w.queue.retry[sent].rows)
    ensures var w := Run(Start(maxQueued), events);
            w.flusher.Idle? ==>
              || w.store.rows == w.history.committed
              || (w.queue.retry != [] && w.store.rows == w.history.committed + w.queue.retry[0].rows)
  {
    StartInv(maxQueued);
    RunKeepsInv(Start(maxQueued), events);
    InvMeansPrefix(Run(Start(maxQueued), events));
  }

  lemma InvMeansPrefix(w: World)
    requires Accounted(w) && Aligned(w) && Stored(w)
    ensures w.history.committed <= w.store.rows <= w.history.accepted
    ensures w.flusher.Idle? ==>
              w.store.rows == w.history.committed
              || (w.queue.retry != [] && w.store.rows == w.history.committed + w.queue.retry[0].rows)
  {
    var sent := SentSoFar(w);
    var retry := w.queue.retry;
    FlattenSplit(retry, sent);
    var landed, left := Flatten(retry[..sent]), Flatten(retry[sent..]);
    Regroup(w.history.committed, landed, left, w.queue.pending);
    if HeadLanded(w) {
      var rest := Flatten(retry[sent..][1..]);
      assert left == retry[sent].rows + rest;
      Regroup(w.history.committed + landed, retry[sent].rows, rest, w.queue.pending);
    }
    assert w.flusher.Idle? ==> landed == Flatten([]);
  }

  /** Nothing is lost uncounted, and memory stays under the configured bound. */
  lemma NothingLostUncounted(maxQueued: int, events: seq<Event>)
    ensures var w := Run(Start(maxQueued), events);
            && w.queue.queued == |w.queue.pending| + RowCount(w.queue.retry)
            && 0 <= w.queue.queued <= Limit(maxQueued)
            && w.history.offered == |w.history.committed| + w.queue.queued + w.history.lost
            && w.queue.dropped == Wrap64(w.history.lost)
            && (w.flusher.Idle? ==> w.queue.written == Wrap64(|w.history.committed|))
  {
    StartInv(maxQueued);
    RunKeepsInv(Start(maxQueued), events);
    RunKeepsLimit(Start(maxQueued), events);
    var w := Run(Start(maxQueued), events);
    assert w.queue.retry[..0] == [];
  }

  lemma {:induction false} RunKeepsLimit(w: World, events: seq<Event>)
    ensures Run(w, events).queue.limit == w.queue.limit
    decreases |events|
  {
    if events != [] {
      RunKeepsLimit(Step(w, events[0]), events[1..]);
    }
  }

  /**
   A token is only ever sent again right after it was last sent, and with the
   same rows: whatever a retry repeats is the latest send.
   */
  lemma OnlyLastSendIsRepeated(maxQueued: int, events: seq<Event>, k: nat, l: nat)
    requires k < l < |Run(Start(maxQueued), events).history.sends|
    ensures var sends := Run(Start(maxQueued), events).history.sends;
            && (sends[k].token == sends[l].token ==> sends[k] == sends[l] && sends[l - 1] == sends[l])
            && sends[k].token.number <= sends[l].token.number
  {
    StartInv(maxQueued);
    RunKeepsInv(Start(maxQueued), events);
  }

  // ------------------------------------------- a flush that meets no error

  function Repeat(e: Event, n: nat): (s: seq<Event>)
    ensures |s| == n
  {
    if n == 0 then [] else [e] + Repeat(e, n - 1)
  }

  lemma {:induction false} RunAppend(w: World, a: seq<Event>, b: seq<Event>)
    ensures Run(w, a + b) == Run(Run(w, a), b)
    decreases |a|
  {
    if a == [] {
      assert a + b == b;
    } else {
      assert (a + b)[1..] == a[1..] + b;
      RunAppend(Step(w, a[0]), a[1..], b);
    }
  }

  lemma {:induction false} SendAllAdvances(w: World, n: nat)
    requires w.flusher.Sending? && !w.flusher.stopped && w.flusher.sent + n == |w.flusher.todo|
    ensures var w' := Run(w, Repeat(Send(Accepted), n));
            && w'.flusher == w.flusher.(sent := |w.flusher.todo|)
            && w'.queue.retry == w.queue.retry && w'.queue.pending == w.queue.pending
            && w'.history.accepted == w.history.accepted
    decreases n
  {
    if n > 0 {
      SendAllAdvances(Step(w, Send(Accepted)), n - 1);
    }
  }

  /** One flush whose every insert succeeds, with no receive loop interleaved. */
  function CleanFlush(w: World, clock: nat -> int): seq<Event> {
    [BeginFlush(clock)] + Repeat(Send(Accepted), |FormBatches(w.queue, clock).retry|) + [EndFlush]
  }

  /**
   Whatever failed before, one flush in which every insert succeeds leaves the
   store holding exactly the accepted rows and the queue empty.
   */
  lemma CleanFlushDelivers(w: World, clock: nat -> int)
    requires Inv(w) && w.flusher.Idle?
    ensures var w' := Run(w, CleanFlush(w, clock));
            && w'.flusher.Idle? && w'.queue.queued == 0
            && w'.store.rows == w'.history.accepted == w.history.accepted
  {
    var n := |FormBatches(w.queue, clock).retry|;
    var w1 := Step(w, BeginFlush(clock));
    var w2 := Run(w1, Repeat(Send(Accepted), n));
    RunBracket(w, BeginFlush(clock), Repeat(Send(Accepted), n), EndFlush);
    SentEverything(w, clock);
    NothingHeldMeansDelivered(Step(w2, EndFlush));
  }

  lemma SentEverything(w: World, clock: nat -> int)
    requires Inv(w) && w.flusher.Idle?
    ensures var w3 := Step(Run(Step(w, BeginFlush(clock)),
                               Repeat(Send(Accepted), |FormBatches(w.queue, clock).retry|)), EndFlush);
            && Accounted(w3) && Aligned(w3) && Stored(w3) && w3.flusher.Idle?
            && w3.queue.retry == [] && w3.queue.pending == []
            && w3.history.accepted == w.history.accepted
  {
    var w1 := Step(w, BeginFlush(clock));
    BeginKeepsInv(w, clock);
    FlushedEverything(w1);
  }

  lemma FlushedEverything(w: World)
    requires Inv(w) && w.flusher == Sending(w.queue.retry, 0, false) && w.queue.pending == []
    ensures var w' := Step(Run(w, Repeat(Send(Accepted), |w.queue.retry|)), EndFlush);
            && Accounted(w') && Aligned(w') && Stored(w') && w'.flusher.Idle?
            && w'.queue.retry == [] && w'.queue.pending == []
            && w'.history.accepted == w.history.accepted
  {
    var n := |w.queue.retry|;
    SendAllAdvances(w, n);
    RunKeepsInv(w, Repeat(Send(Accepted), n));
    EndKeepsInv(Run(w, Repeat(Send(Accepted), n)));
  }

  lemma RunBracket(w: World, first: Event, middle: seq<Event>, last: Event)
    ensures Run(w, [first] + middle + [last]) == Step(Run(Step(w, first), middle), last)
  {
    RunAppend(w, [first] + middle, [last]);
    assert ([first] + middle)[1..] == middle;
    var w2 := Run(Step(w, first), middle);
    assert Run(w2, [last]) == Run(Step(w2, last), []);
  }

  lemma NothingHeldMeansDelivered(w: World)
    requires Accounted(w) && Aligned(w) && Stored(w)
    requires w.flusher.Idle? && w.queue.retry == [] && w.queue.pending == []
    ensures w.queue.queued == 0 && w.store.rows == w.history.accepted
  {
    assert w.queue.retry[..0] == [];
    assert Flatten([]) == [];
  }

  // --------------------------------------------------- the writer's methods

  /** The store's client, with the answers it will give. */
  class Client {
    var state: Store

    constructor ()
      ensures state == Store({}, [])
    {
      state := Store({}, []);
    }

    method Insert(b: Batch, outcome: Outcome) returns (ok: bool)
      modifies this
      ensures state == Deliver(old(state), b, outcome)
      ensures ok == (outcome == Accepted)
    {
      if outcome != Refused && b.token !in state.tokens {
        state := Store(state.tokens + {b.token}, state.rows + b.rows);
      }
      ok := outcome == Accepted;
    }
  }

  class Writer {
    const maxQueued: int
    var pending: seq<Row>
    var retry: seq<Batch>
    var queued: int
    var number: nat
    var written: uint64
    var dropped: uint64
    var failed: uint64

    constructor (maxQueued: int)
      ensures State() == Start(maxQueued).queue
    {
      this.maxQueued := maxQueued;
      pending, retry, queued, number := [], [], 0, 0;
      written, dropped, failed := 0, 0, 0;
    }

    ghost function State(): Queue
      reads this
    {
      Queue(Limit(maxQueued), pending, retry, queued, number, written, dropped, failed)
    }

    /** One critical section: keep what fits, count the rest. */
    method Add(records: seq<Row>)
      modifies this
      ensures State() == AddTo(old(State()), records)
    {
      if |records| == 0 {
        return;
      }
      var rows := records;
      var max := Limit(maxQueued);
      var room := max - queued;
      if room < |rows| {
        if room < 0 {
          room := 0;
        }
        dropped := Wrap64(dropped + (|rows| - room));
        rows := rows[..room];
      }
      pending := pending + rows;
      queued := queued + |rows|;
    }

    /** First critical section of a flush: cut the queue into batches. */
    method BeginFlush(clock: nat -> int) returns (todo: seq<Batch>)
      modifies this
      ensures State() == FormBatches(old(State()), clock)
      ensures todo == retry
    {
      ghost var before := State();
      while |pending| > 0
        invariant retry + Cut(pending, number, clock) == before.retry + Cut(before.pending, before.number, clock)
        invariant number + |Cut(pending, number, clock)| == before.number + |Cut(before.pending, before.number, clock)|
        invariant State() == before.(pending := pending, retry := retry, number := number)
        decreases |pending|
      {
        var n := if |pending| < BATCH_ROWS then |pending| else BATCH_ROWS;
        ghost var rest := Cut(pending[n..], number + 1, clock);
        ghost var kept := retry;
        number := number + 1;
        retry := retry + [Batch(Token(clock(number), number), pending[..n])];
        assert kept + ([Batch(Token(clock(number), number), pending[..n])] + rest) == retry + rest;
        pending := pending[n..];
      }
      pending := [];
      todo := retry;
      assert todo + [] == todo;
    }

    /** The unlocked loop: send in order, stop at the first failure. */
    method SendAll(todo: seq<Batch>, client: Client, outcomes: nat -> Outcome) returns (sent: nat)
      modifies this, client
      ensures (State(), client.state, sent) == SendEach(old(State()), old(client.state), todo, outcomes, 0)
      ensures sent <= |todo|
    {
      sent := 0;
      while sent < |todo|
        invariant sent <= |todo|
        invariant SendEach(State(), client.state, todo, outcomes, sent)
               == SendEach(old(State()), old(client.state), todo, outcomes, 0)
      {
        var b := todo[sent];
        var ok := client.Insert(b, outcomes(sent));
        if !ok {
          failed := Wrap64(failed + 1);
          return;
        }
        written := Wrap64(written + |b.rows|);
        sent := sent + 1;
      }
    }

    /** Last critical section: drop what landed from the retry list. */
    method EndFlush(sent: nat)
      requires sent <= |retry|
      modifies this
      ensures State() == Commit(old(State()), sent)
    {
      var i := 0;
      while i < sent
        invariant 0 <= i <= sent
        invariant retry == old(retry)
        invariant State() == old(State()).(queued := old(queued) - RowCount(old(retry)[..i]))
      {
        FlattenExtend(retry, i);
        queued := queued - |retry[i].rows|;
        i := i + 1;
      }
      retry := retry[sent..];
    }

    /** A whole flush with nothing interleaved. */
    method Flush(client: Client, clock: nat -> int, outcomes: nat -> Outcome)
      modifies this, client
      ensures var formed := FormBatches(old(State()), clock);
              var (q, s, sent) := SendEach(formed, old(client.state), formed.retry, outcomes, 0);
              sent <= |q.retry| && client.state == s && State() == Commit(q, sent)
    {
      var todo := BeginFlush(clock);
      SendEachBounds(State(), client.state, todo, outcomes, 0);
      var sent := SendAll(todo, client, outcomes);
      EndFlush(sent);
    }
  }

  /** The unlocked loop as a function: queue, store and the number that landed. */
  function SendEach(q: Queue, s: Store, todo: seq<Batch>, outcomes: nat -> Outcome, sent: nat):
      (Queue, Store, nat)
    decreases |todo| - sent
  {
    if sent >= |todo| then (q, s, sent)
    else
      var b, o := todo[sent], outcomes(sent);
      if o == Accepted then SendEach(Settle(q, b, o), Deliver(s, b, o), todo, outcomes, sent + 1)
      else (Settle(q, b, o), Deliver(s, b, o), sent)
  }

  lemma {:induction false} SendEachBounds(q: Queue, s: Store, todo: seq<Batch>, outcomes: nat -> Outcome, sent: nat)
    requires sent <= |todo|
    ensures sent <= SendEach(q, s, todo, outcomes, sent).2 <= |todo|
    ensures SendEach(q, s, todo, outcomes, sent).0.retry == q.retry
    decreases |todo| - sent
  {
    if sent < |todo| {
      var b, o := todo[sent], outcomes(sent);
      if o == Accepted {
        SendEachBounds(Settle(q, b, o), Deliver(s, b, o), todo, outcomes, sent + 1);
      }
    }
  }

  /** The events of one uninterrupted sending loop. */
  function SendEvents(todo: seq<Batch>, outcomes: nat -> Outcome, sent: nat): seq<Event>
    decreases |todo| - sent
  {
    if sent >= |todo| then []
    else if outcomes(sent) == Accepted then [Send(Accepted)] + SendEvents(todo, outcomes, sent + 1)
    else [Send(outcomes(sent))]
  }

  /** The loop the writer runs is the run of its `Send` events, so every theorem about runs covers it. */
  lemma {:induction false} SendLoopIsARun(w: World, outcomes: nat -> Outcome)
    requires w.flusher.Sending? && !w.flusher.stopped && w.flusher.sent <= |w.flusher.todo|
    ensures var w' := Run(w, SendEvents(w.flusher.todo, outcomes, w.flusher.sent));
            && w'.flusher.Sending? && w'.flusher.todo == w.flusher.todo
            && (w'.queue, w'.store, w'.flusher.sent)
               == SendEach(w.queue, w.store, w.flusher.todo, outcomes, w.flusher.sent)
            && (w'.flusher.stopped || w'.flusher.sent == |w.flusher.todo|)
    decreases |w.flusher.todo| - w.flusher.sent
  {
    var sent := w.flusher.sent;
    if sent < |w.flusher.todo| {
      if outcomes(sent) == Accepted {
        SendLoopIsARun(Step(w, Send(Accepted)), outcomes);
      } else {
        var e: Event := Send(outcomes(sent));
        assert Run(Step(w, e), []) == Step(w, e);
      }
    }
  }
}
