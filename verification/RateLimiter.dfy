/**
 Limits on incoming traps: a token bucket per source, swept of sources idle long
 enough to be full again, and a cap on how many trap names one device may use.
 */
module RateLimiter {
  import opened Common

  type Source = string

  /** Both positive; a full bucket holds `burst`. */
  datatype Config = Config(rate: real, burst: real) {
    predicate Valid() {
      rate > 0.0 && burst > 0.0
    }
  }

  datatype Bucket = Bucket(tokens: real, last: int)

  const SECOND: int := 1_000_000_000

  /** Nanoseconds between two instants, as seconds. */
  function Seconds(from: int, till: int): real {
    (till - from) as real / SECOND as real
  }

  /** The rate times the time passed; negative when timestamps run backwards. */
  function Gain(c: Config, from: int, till: int): real {
    Seconds(from, till) * c.rate
  }

  function Refilled(c: Config, b: Bucket, now: int): real {
    var tokens := b.tokens + Gain(c, b.last, now);
    if tokens > c.burst then c.burst else tokens
  }

  function Opened(c: Config, b: Option<Bucket>, now: int): Bucket {
    if b.Some? then b.value else Bucket(c.burst, now)
  }

  function Allowed(c: Config, b: Option<Bucket>, now: int): bool {
    Refilled(c, Opened(c, b, now), now) >= 1.0
  }

  function Spent(c: Config, b: Option<Bucket>, now: int): Bucket {
    var tokens := Refilled(c, Opened(c, b, now), now);
    Bucket(if tokens < 1.0 then tokens else tokens - 1.0, now)
  }

  // ------------------------------------------------------------ the rate bound

  /** One source's bucket after asking at these times, in this order. */
  function After(c: Config, times: seq<int>): (b: Option<Bucket>)
    ensures b.Some? <==> times != []
    ensures b.Some? ==> b.value.last == times[|times| - 1]
  {
    if times == [] then None else Some(Spent(c, After(c, times[..|times| - 1]), times[|times| - 1]))
  }

  /** How many of the requests were allowed. */
  function Passed(c: Config, times: seq<int>): nat {
    if times == [] then 0
    else
      Passed(c, times[..|times| - 1])
      + (if Allowed(c, After(c, times[..|times| - 1]), times[|times| - 1]) then 1 else 0)
  }

  lemma SecondsAdd(a: int, b: int, t: int, rate: real)
    ensures Seconds(a, b) * rate + Seconds(b, t) * rate == Seconds(a, t) * rate
  {
    assert Seconds(a, b) + Seconds(b, t) == Seconds(a, t);
  }

  /** What passing time adds before each request; it may be negative. */
  function Gains(c: Config, times: seq<int>): (gains: seq<real>)
    ensures |gains| == |times|
  {
    if times == [] then []
    else if |times| == 1 then [0.0]
    else
      var n := |times| - 1;
      Gains(c, times[..n]) + [Gain(c, times[n - 1], times[n])]
  }

  function Sum(gains: seq<real>): real {
    if gains == [] then 0.0 else Sum(gains[..|gains| - 1]) + gains[|gains| - 1]
  }

  function Topped(burst: real, tokens: real): real {
    if tokens > burst then burst else tokens
  }

  /** The level a bucket that starts full is left at. */
  function LeftAfter(burst: real, gains: seq<real>): real {
    if gains == [] then burst
    else
      var tokens := Topped(burst, LeftAfter(burst, gains[..|gains| - 1]) + gains[|gains| - 1]);
      if tokens < 1.0 then tokens else tokens - 1.0
  }

  function PassedAfter(burst: real, gains: seq<real>): nat {
    if gains == [] then 0
    else
      PassedAfter(burst, gains[..|gains| - 1])
      + (if Topped(burst, LeftAfter(burst, gains[..|gains| - 1]) + gains[|gains| - 1]) < 1.0 then 0 else 1)
  }

  /** Tokens spent and tokens left never exceed the burst and what time has added. */
  lemma {:induction false} TokensAreEarned(burst: real, gains: seq<real>)
    ensures LeftAfter(burst, gains) + PassedAfter(burst, gains) as real <= burst + Sum(gains)
  {
    if gains != [] {
      TokensAreEarned(burst, gains[..|gains| - 1]);
    }
  }

  lemma {:induction false} EarnedIsElapsed(c: Config, times: seq<int>)
    requires times != []
    ensures Sum(Gains(c, times)) == Gain(c, times[0], times[|times| - 1])
  {
    var n := |times| - 1;
    var gains := Gains(c, times);
    if n > 0 {
      EarnedIsElapsed(c, times[..n]);
      assert gains[..n] == Gains(c, times[..n]);
      SecondsAdd(times[0], times[n - 1], times[n], c.rate);
    } else {
      assert Seconds(times[0], times[0]) == 0.0;
      assert gains[..0] == [];
    }
  }

  lemma {:induction false} BucketIsLevel(c: Config, times: seq<int>)
    requires times != []
    ensures After(c, times).value.tokens == LeftAfter(c.burst, Gains(c, times))
    ensures Passed(c, times) == PassedAfter(c.burst, Gains(c, times))
  {
    var n := |times| - 1;
    var gains := Gains(c, times);
    if n > 0 {
      BucketIsLevel(c, times[..n]);
      assert gains[..n] == Gains(c, times[..n]);
    } else {
      FirstIsFull(c, times[0]);
      assert gains[..0] == [] && times[..0] == [];
    }
  }

  lemma FirstIsFull(c: Config, now: int)
    ensures Refilled(c, Opened(c, None, now), now) == c.burst
  {
    assert Seconds(now, now) == 0.0;
  }

  /**
   Even when timestamps run backwards: the requests allowed up to an allowed one
   number at most the burst and the rate times its distance from the first.
   */
  lemma RateIsBounded(c: Config, times: seq<int>)
    requires c.Valid() && times != []
    requires Allowed(c, After(c, times[..|times| - 1]), times[|times| - 1])
    ensures Passed(c, times) as real <= c.burst + Gain(c, times[0], times[|times| - 1])
  {
    BucketIsLevel(c, times);
    TokensAreEarned(c.burst, Gains(c, times));
    EarnedIsElapsed(c, times);
  }

  // ----------------------------------------------------------- sweeping

  datatype Op = Ask(source: Source, now: int) | Sweep(now: int)

  type Buckets = map<Source, Bucket>

  function Get(m: Buckets, a: Source): Option<Bucket> {
    if a in m then Some(m[a]) else None
  }

  /** Longer than an empty bucket takes to fill, by at least a minute. */
  function Idle(c: Config): int
    requires c.Valid()
  {
    (c.burst / c.rate * SECOND as real).Floor + 60 * SECOND
  }

  function Swept(c: Config, m: Buckets, now: int): Buckets
    requires c.Valid()
  {
    map a | a in m && now - m[a].last <= Idle(c) :: m[a]
  }

  function Step(c: Config, m: Buckets, op: Op): Buckets
    requires c.Valid()
  {
    match op
    case Ask(a, now) => m[a := Spent(c, Get(m, a), now)]
    case Sweep(now) => Swept(c, m, now)
  }

  function Run(c: Config, ops: seq<Op>): Buckets
    requires c.Valid()
  {
    if ops == [] then map[] else Step(c, Run(c, ops[..|ops| - 1]), ops[|ops| - 1])
  }

  function Answers(c: Config, ops: seq<Op>): seq<bool>
    requires c.Valid()
  {
    if ops == [] then []
    else
      var before, op := ops[..|ops| - 1], ops[|ops| - 1];
      Answers(c, before) + (if op.Ask? then [Allowed(c, Get(Run(c, before), op.source), op.now)] else [])
  }

  /** The same requests with the sweeps left out. */
  function Unswept(ops: seq<Op>): seq<Op> {
    if ops == [] then []
    else Unswept(ops[..|ops| - 1]) + (if ops[|ops| - 1].Ask? then [ops[|ops| - 1]] else [])
  }

  /** How far the clock may step back between two operations: half the minute a sweep allows for. */
  const SLACK: int := 30 * SECOND

  /** No operation is more than `step` earlier than one before it. */
  predicate Steady(ops: seq<Op>, step: int) {
    forall i, j :: 0 <= i < j < |ops| ==> ops[j].now >= ops[i].now - step
  }

  /** The latest moment so far. */
  function Latest(ops: seq<Op>): (m: int)
    requires ops != []
    ensures exists i :: 0 <= i < |ops| && ops[i].now == m
    ensures forall i :: 0 <= i < |ops| ==> ops[i].now <= m
  {
    var n := |ops| - 1;
    if n == 0 then ops[0].now
    else
      var before := Latest(ops[..n]);
      assert exists i :: 0 <= i < n && ops[..n][i].now == before && ops[i].now == before;
      assert forall i :: 0 <= i < n ==> ops[..n][i] == ops[i];
      if before < ops[n].now then ops[n].now else before
  }

  /** A bucket that would be full by `t`. */
  predicate FullBy(c: Config, b: Bucket, t: int) {
    b.tokens + Gain(c, b.last, t) >= c.burst
  }

  /** A bucket owes no more than the clock has stepped back, and never more than the slack is worth. */
  predicate Solvent(c: Config, b: Bucket, latest: int) {
    b.last <= latest && b.tokens + Gain(c, b.last, latest) >= 0.0 && b.tokens >= Gain(c, SLACK, 0)
  }

  /** Sweeping forgot only buckets that are full at any moment still to come, and changed none. */
  ghost predicate Agree(c: Config, swept: Buckets, kept: Buckets, latest: int) {
    && (forall a :: a in swept ==> a in kept && swept[a] == kept[a])
    && (forall a :: a in kept ==> Solvent(c, kept[a], latest))
    && (forall a :: a in kept && a !in swept ==> FullBy(c, kept[a], latest - SLACK))
  }

  lemma GainsAdd(c: Config, a: int, b: int, t: int)
    ensures Gain(c, a, b) + Gain(c, b, t) == Gain(c, a, t)
  {
    SecondsAdd(a, b, t, c.rate);
  }

  /** More time earns no less. */
  lemma LongerEarnsMore(c: Config, a: int, b: int, x: int, y: int)
    requires c.Valid() && b - a <= y - x
    ensures Gain(c, a, b) <= Gain(c, x, y)
    ensures a <= b ==> Gain(c, a, b) >= 0.0
  {
    assert Seconds(a, b) <= Seconds(x, y);
    ProductKeeps(Seconds(x, y), Seconds(a, b), c.rate);
    if a <= b {
      assert Seconds(a, b) >= 0.0;
      ProductKeeps(Seconds(a, b), 0.0, c.rate);
    }
  }

  lemma ProductKeeps(x: real, y: real, rate: real)
    requires x >= y && rate > 0.0
    ensures x * rate >= y * rate
  {
    assert (x - y) * rate >= 0.0;
  }

  lemma Later(c: Config, b: Bucket, t: int, t': int)
    requires c.Valid() && t <= t'
    ensures FullBy(c, b, t) ==> FullBy(c, b, t')
    ensures Solvent(c, b, t) ==> Solvent(c, b, t')
  {
    GainsAdd(c, b.last, t, t');
    LongerEarnsMore(c, t, t', t, t');
  }

  /** A swept bucket was full again already half a minute earlier, whatever it owed. */
  lemma IdleFills(c: Config, b: Bucket, now: int)
    requires c.Valid() && b.tokens >= Gain(c, SLACK, 0) && now - b.last > Idle(c)
    ensures FullBy(c, b, now - SLACK)
  {
    var fill := c.burst / c.rate * SECOND as real;
    var owed := now - SLACK - SLACK;
    assert fill.Floor as real > fill - 1.0;
    assert (owed - b.last) as real >= fill;
    QuotientKeeps(owed - b.last, c.burst / c.rate);
    ProductKeeps(Seconds(b.last, owed), c.burst / c.rate, c.rate);
    assert c.burst / c.rate * c.rate == c.burst;
    GainsAdd(c, b.last, owed, now - SLACK);
    LongerEarnsMore(c, 0, SLACK, owed, now - SLACK);
    GainsAdd(c, SLACK, 0, SLACK);
    assert Gain(c, SLACK, SLACK) == 0.0;
  }

  lemma QuotientKeeps(ns: int, x: real)
    requires ns as real >= x * SECOND as real
    ensures ns as real / SECOND as real >= x
  {
  }

  /** A full bucket and a forgotten one are treated alike. */
  lemma FullIsForgotten(c: Config, b: Bucket, now: int)
    requires c.Valid() && FullBy(c, b, now)
    ensures Allowed(c, Some(b), now) == Allowed(c, None, now) && Spent(c, Some(b), now) == Spent(c, None, now)
  {
    assert Seconds(now, now) == 0.0;
  }

  function Max(a: int, b: int): int { if a < b then b else a }

  lemma SpentIsSolvent(c: Config, b: Option<Bucket>, latest: int, now: int)
    requires c.Valid() && (b.Some? ==> Solvent(c, b.value, latest)) && latest - SLACK <= now
    ensures Solvent(c, Spent(c, b, now), Max(latest, now))
  {
    var latest' := Max(latest, now);
    var bucket := Opened(c, b, now);
    LongerEarnsMore(c, now, latest', now, latest');
    LongerEarnsMore(c, SLACK, 0, latest, now);
    GainsAdd(c, bucket.last, latest, now);
    GainsAdd(c, latest, now, latest');
    GainsAdd(c, SLACK, 0, SLACK);
    LongerEarnsMore(c, 0, SLACK, 0, SLACK);
    assert Gain(c, SLACK, SLACK) == 0.0 && Gain(c, latest, latest) == 0.0 && Gain(c, now, now) == 0.0;
  }

  lemma AskAgrees(c: Config, swept: Buckets, kept: Buckets, latest: int, a: Source, now: int)
    requires c.Valid() && Agree(c, swept, kept, latest) && latest - SLACK <= now
    ensures Allowed(c, Get(swept, a), now) == Allowed(c, Get(kept, a), now)
    ensures Agree(c, Step(c, swept, Ask(a, now)), Step(c, kept, Ask(a, now)), Max(latest, now))
  {
    SpentIsSolvent(c, Get(kept, a), latest, now);
    if a in kept && a !in swept {
      Later(c, kept[a], latest - SLACK, now);
      FullIsForgotten(c, kept[a], now);
    }
    AgreeLater(c, swept, kept, latest, Max(latest, now));
  }

  lemma SweepAgrees(c: Config, swept: Buckets, kept: Buckets, latest: int, now: int)
    requires c.Valid() && Agree(c, swept, kept, latest)
    ensures Agree(c, Swept(c, swept, now), kept, Max(latest, now))
  {
    var latest' := Max(latest, now);
    AgreeLater(c, swept, kept, latest, latest');
    forall a | a in kept && a !in Swept(c, swept, now)
      ensures FullBy(c, kept[a], latest' - SLACK)
    {
      if a in swept {
        IdleFills(c, kept[a], now);
        Later(c, kept[a], now - SLACK, latest' - SLACK);
      }
    }
  }

  lemma AgreeLater(c: Config, swept: Buckets, kept: Buckets, latest: int, latest': int)
    requires c.Valid() && Agree(c, swept, kept, latest) && latest <= latest'
    ensures Agree(c, swept, kept, latest')
  {
    forall a | a in kept
      ensures Solvent(c, kept[a], latest')
      ensures a !in swept ==> FullBy(c, kept[a], latest' - SLACK)
    {
      Later(c, kept[a], latest, latest');
      Later(c, kept[a], latest - SLACK, latest' - SLACK);
    }
  }

  lemma {:induction false} SweptRunAgrees(c: Config, ops: seq<Op>)
    requires c.Valid() && Steady(ops, SLACK)
    ensures ops != [] ==> Agree(c, Run(c, ops), Run(c, Unswept(ops)), Latest(ops))
  {
    if ops != [] {
      var before, op := ops[..|ops| - 1], ops[|ops| - 1];
      SweptRunAgrees(c, before);
      var swept, kept := Run(c, before), Run(c, Unswept(before));
      var latest := if before == [] then op.now else Latest(before);
      assert Agree(c, swept, kept, latest);
      assert Max(latest, op.now) == Latest(ops);
      if op.Ask? {
        AskAgrees(c, swept, kept, latest, op.source, op.now);
        assert (Unswept(before) + [op])[..|Unswept(before)|] == Unswept(before);
      } else {
        SweepAgrees(c, swept, kept, latest, op.now);
        assert Unswept(ops) == Unswept(before);
      }
    }
  }

  /** Whether a request is allowed does not depend on the sweeps before it. */
  lemma SweptAskAgrees(c: Config, before: seq<Op>, a: Source, now: int)
    requires c.Valid() && Steady(before + [Ask(a, now)], SLACK)
    ensures Allowed(c, Get(Run(c, before), a), now) == Allowed(c, Get(Run(c, Unswept(before)), a), now)
  {
    var ops := before + [Ask(a, now)];
    assert forall i :: 0 <= i < |before| ==> before[i] == ops[i];
    assert ops[|before|] == Ask(a, now);
    SweptRunAgrees(c, before);
    if before != [] {
      AskAgrees(c, Run(c, before), Run(c, Unswept(before)), Latest(before), a, now);
    }
  }

  lemma {:induction false} SweptAnswersAgree(c: Config, ops: seq<Op>, a: Source)
    requires c.Valid() && Steady(ops, SLACK)
    ensures Answers(c, ops) == Answers(c, Unswept(ops))
    ensures Granted(c, ops, a) == Granted(c, Unswept(ops), a)
    ensures TimesOf(Unswept(ops), a) == TimesOf(ops, a) && NoSweeps(Unswept(ops))
  {
    if ops != [] {
      var before, op := ops[..|ops| - 1], ops[|ops| - 1];
      assert ops == before + [op];
      SweptAnswersAgree(c, before, a);
      if op.Ask? {
        SweptAskAgrees(c, before, op.source, op.now);
        assert (Unswept(before) + [op])[..|Unswept(before)|] == Unswept(before);
      } else {
        assert Unswept(ops) == Unswept(before);
      }
    }
  }

  /**
   Sweeping is invisible: over any requests with a clock that steps back by no
   more than half a minute, sweeping at any moments changes no answer.
   */
  lemma SweepingIsInvisible(c: Config, ops: seq<Op>)
    requires c.Valid() && Steady(ops, SLACK)
    ensures Answers(c, ops) == Answers(c, Unswept(ops))
  {
    SweptAnswersAgree(c, ops, "");
  }

  /** One source's requests among all of them. */
  function TimesOf(ops: seq<Op>, a: Source): seq<int> {
    if ops == [] then []
    else
      var op := ops[|ops| - 1];
      TimesOf(ops[..|ops| - 1], a) + (if op.Ask? && op.source == a then [op.now] else [])
  }

  predicate NoSweeps(ops: seq<Op>) {
    forall i :: 0 <= i < |ops| ==> ops[i].Ask?
  }

  /** Sources do not affect one another: each sees its own bucket. */
  lemma {:induction false} SourcesAreSeparate(c: Config, ops: seq<Op>, a: Source)
    requires c.Valid() && NoSweeps(ops)
    ensures Get(Run(c, ops), a) == After(c, TimesOf(ops, a))
  {
    if ops != [] {
      var before, op := ops[..|ops| - 1], ops[|ops| - 1];
      SourcesAreSeparate(c, before, a);
      var times := TimesOf(before, a);
      if op.source == a {
        assert TimesOf(ops, a) == times + [op.now];
        assert (times + [op.now])[..|times|] == times;
        assert After(c, times + [op.now]) == Some(Spent(c, After(c, times), op.now));
      } else {
        assert TimesOf(ops, a) == times;
      }
    }
  }

  /** How many of a source's requests were allowed, sweeps and all. */
  function Granted(c: Config, ops: seq<Op>, a: Source): nat
    requires c.Valid()
  {
    if ops == [] then 0
    else
      var before, op := ops[..|ops| - 1], ops[|ops| - 1];
      Granted(c, before, a) + (if op.Ask? && op.source == a && Allowed(c, Get(Run(c, before), a), op.now) then 1 else 0)
  }

  lemma {:induction false} GrantedIsPassed(c: Config, ops: seq<Op>, a: Source)
    requires c.Valid() && NoSweeps(ops)
    ensures Granted(c, ops, a) == Passed(c, TimesOf(ops, a))
  {
    if ops != [] {
      var before, op := ops[..|ops| - 1], ops[|ops| - 1];
      GrantedIsPassed(c, before, a);
      SourcesAreSeparate(c, before, a);
      var times := TimesOf(before, a);
      assert op.source == a ==> (times + [op.now])[..|times|] == times;
      assert op.source != a ==> TimesOf(ops, a) == times;
    }
  }

  /** The last request is this source's, and it was allowed. */
  predicate EndsGranted(c: Config, ops: seq<Op>, a: Source)
    requires c.Valid()
  {
    && ops != [] && ops[|ops| - 1].Ask? && ops[|ops| - 1].source == a
    && Allowed(c, Get(Run(c, ops[..|ops| - 1]), a), ops[|ops| - 1].now)
  }

  /** What a source may have been granted: the burst, and the rate times the time since it first asked. */
  predicate Bounded(c: Config, ops: seq<Op>, a: Source)
    requires c.Valid()
  {
    var times := TimesOf(ops, a);
    times != [] && Granted(c, ops, a) as real <= c.burst + Gain(c, times[0], times[|times| - 1])
  }

  /**
   The bound for one source among any others, with sweeps at any moments, as long
   as the clock steps back by no more than half a minute.
   */
  lemma SourceIsBounded(c: Config, ops: seq<Op>, a: Source)
    requires c.Valid() && Steady(ops, SLACK) && EndsGranted(c, ops, a)
    ensures Bounded(c, ops, a)
  {
    var n := |ops| - 1;
    var before, asked := ops[..n], Unswept(ops);
    assert ops == before + [ops[n]];
    SweptAskAgrees(c, before, a, ops[n].now);
    SweptAnswersAgree(c, ops, a);
    assert asked[..|asked| - 1] == Unswept(before);
    UnsweptIsBounded(c, asked, a);
  }

  /** Without sweeps the bound holds however the clock steps. */
  lemma UnsweptIsBounded(c: Config, ops: seq<Op>, a: Source)
    requires c.Valid() && NoSweeps(ops) && EndsGranted(c, ops, a)
    ensures Bounded(c, ops, a)
  {
    var before, times := ops[..|ops| - 1], TimesOf(ops, a);
    SourcesAreSeparate(c, before, a);
    GrantedIsPassed(c, ops, a);
    assert times == TimesOf(before, a) + [ops[|ops| - 1].now];
    assert times[..|times| - 1] == TimesOf(before, a);
    RateIsBounded(c, times);
  }

  // ---------------------------------------------------- how far clocks may step

  /** The rate bound holds on every run, sweeps included, whose clock steps back by at most `step`. */
  ghost predicate SafeWith(step: int) {
    forall c: Config, ops, a :: c.Valid() && Steady(ops, step) && EndsGranted(c, ops, a) ==> Bounded(c, ops, a)
  }

  /** One token a second; the second request is a nanosecond short of it, yet allowed after a sweep. */
  function Overdrawn(): seq<Op> {
    [Ask("a", SLACK + 1), Ask("a", 0), Sweep(61 * SECOND + 1), Ask("a", 31 * SECOND)]
  }

  lemma OverdrawnIsUnbounded()
    ensures Steady(Overdrawn(), SLACK + 1) && EndsGranted(Config(1.0, 1.0), Overdrawn(), "a")
    ensures !Bounded(Config(1.0, 1.0), Overdrawn(), "a")
  {
    var c, ops := Config(1.0, 1.0), Overdrawn();
    var first := ops[..1];
    var second := ops[..2];
    var third := ops[..3];
    assert first[..0] == [] && second[..1] == first && third[..2] == second && ops[..3] == third;
    assert Run(c, first) == map["a" := Bucket(0.0, SLACK + 1)];
    assert Run(c, second)["a"].last == 0;
    assert Run(c, third) == map[];
    assert TimesOf(first, "a") == [SLACK + 1];
    assert TimesOf(second, "a") == [SLACK + 1, 0];
    assert TimesOf(third, "a") == [SLACK + 1, 0];
    assert TimesOf(ops, "a") == [SLACK + 1, 0, 31 * SECOND];
    assert Granted(c, first, "a") == 1;
    assert Granted(c, ops, "a") >= 2;
  }

  /** The rate bound survives sweeping exactly up to half a minute of stepping back, to the nanosecond. */
  lemma HalfAMinuteIsTheMost(step: int)
    ensures SafeWith(step) <==> step <= SLACK
  {
    if step <= SLACK {
      forall c: Config, ops, a | c.Valid() && Steady(ops, step) && EndsGranted(c, ops, a)
        ensures Bounded(c, ops, a)
      {
        assert Steady(ops, SLACK);
        SourceIsBounded(c, ops, a);
      }
    } else {
      OverdrawnIsUnbounded();
      assert Steady(Overdrawn(), step);
    }
  }

  /** Sweeping changes no answer on any run whose clock steps back by at most `step`. */
  ghost predicate InvisibleWith(step: int) {
    forall c: Config, ops :: c.Valid() && Steady(ops, step) ==> Answers(c, ops) == Answers(c, Unswept(ops))
  }

  /** In the same run the swept limiter allows a request the unswept one refuses. */
  lemma OverdrawnIsSeen()
    ensures Answers(Config(1.0, 1.0), Overdrawn()) == [true, false, true]
    ensures Answers(Config(1.0, 1.0), Unswept(Overdrawn())) == [true, false, false]
  {
    var c, ops := Config(1.0, 1.0), Overdrawn();
    OverdrawnSwept(c, ops);
    OverdrawnUnswept(c, [ops[0], ops[1], ops[3]]);
    UnsweptOverdrawn(ops);
  }

  lemma UnsweptOverdrawn(ops: seq<Op>)
    requires ops == Overdrawn()
    ensures Unswept(ops) == [ops[0], ops[1], ops[3]]
  {
    assert ops[..1][..0] == [] && ops[..2][..1] == ops[..1] && ops[..3][..2] == ops[..2];
    assert Unswept(ops[..1]) == [ops[0]];
    assert Unswept(ops[..2]) == [ops[0], ops[1]];
    assert Unswept(ops[..3]) == [ops[0], ops[1]];
  }

  lemma OverdrawnSwept(c: Config, ops: seq<Op>)
    requires c == Config(1.0, 1.0) && ops == Overdrawn()
    ensures Answers(c, ops) == [true, false, true]
  {
    assert ops[..1][..0] == [] && ops[..2][..1] == ops[..1] && ops[..3][..2] == ops[..2];
    assert Run(c, ops[..1]) == map["a" := Bucket(0.0, SLACK + 1)];
    assert Run(c, ops[..2])["a"].last == 0;
    assert Run(c, ops[..3]) == map[];
    assert Answers(c, ops[..1]) == [true];
    assert Answers(c, ops[..2]) == [true, false];
    assert Answers(c, ops[..3]) == [true, false];
  }

  lemma OverdrawnUnswept(c: Config, ops: seq<Op>)
    requires c == Config(1.0, 1.0) && ops == [Ask("a", SLACK + 1), Ask("a", 0), Ask("a", 31 * SECOND)]
    ensures Answers(c, ops) == [true, false, false]
  {
    assert ops[..1][..0] == [] && ops[..2][..1] == ops[..1];
    assert Run(c, ops[..1]) == map["a" := Bucket(0.0, SLACK + 1)];
    assert Run(c, ops[..2])["a"].last == 0;
    assert Answers(c, ops[..1]) == [true];
    assert Answers(c, ops[..2]) == [true, false];
  }

  /** Sweeping is invisible exactly up to half a minute of stepping back, to the nanosecond. */
  lemma InvisibleUpToHalfAMinute(step: int)
    ensures InvisibleWith(step) <==> step <= SLACK
  {
    if step <= SLACK {
      forall c: Config, ops | c.Valid() && Steady(ops, step)
        ensures Answers(c, ops) == Answers(c, Unswept(ops))
      {
        assert Steady(ops, SLACK);
        SweepingIsInvisible(c, ops);
      }
    } else {
      OverdrawnIsSeen();
      OverdrawnIsUnbounded();
      var c, ops := Config(1.0, 1.0), Overdrawn();
      assert c.Valid() && Steady(ops, step);
      assert Answers(c, ops)[2] != Answers(c, Unswept(ops))[2];
    }
  }

  class Limiter {
    const config: Config
    var buckets: Buckets

    constructor (config: Config)
      ensures this.config == config && buckets == map[]
    {
      this.config, buckets := config, map[];
    }

    method Allow(a: Source, now: int) returns (ok: bool)
      requires config.Valid()
      modifies this
      ensures ok == Allowed(config, Get(old(buckets), a), now)
      ensures buckets == Step(config, old(buckets), Ask(a, now))
    {
      if a !in buckets {
        buckets := buckets[a := Bucket(config.burst, now)];
      }
      var tokens := buckets[a].tokens + Seconds(buckets[a].last, now) * config.rate;
      if tokens > config.burst {
        tokens := config.burst;
      }
      buckets := buckets[a := Bucket(tokens, now)];
      assert buckets == old(buckets)[a := Bucket(tokens, now)];
      if tokens < 1.0 {
        assert buckets[a] == Spent(config, Get(old(buckets), a), now);
        return false;
      }
      buckets := buckets[a := Bucket(tokens - 1.0, now)];
      assert buckets[a] == Spent(config, Get(old(buckets), a), now);
      return true;
    }

    method SweepIdle(now: int)
      requires config.Valid()
      modifies this
      ensures buckets == Step(config, old(buckets), Sweep(now))
    {
      var idle := Idle(config);
      var rest := buckets.Keys;
      while rest != {}
        invariant rest <= buckets.Keys
        invariant buckets == map a | a in old(buckets) && (a in rest || now - old(buckets)[a].last <= idle) :: old(buckets)[a]
      {
        var a :| a in rest;
        rest := rest - {a};
        if now - buckets[a].last > idle {
          buckets := buckets - {a};
        }
      }
    }
  }

  // ---------------------------------------------------------- label capping

  const OTHER: string := "other"

  datatype Trap = Trap(device: string, name: string)

  type Seen = map<string, set<string>>

  function SeenOf(seen: Seen, device: string): set<string> {
    if device in seen then seen[device] else {}
  }

  function LabelFor(seen: Seen, max: int, trap: Trap): string {
    var m := SeenOf(seen, trap.device);
    if trap.name in m then trap.name else if |m| >= max then OTHER else trap.name
  }

  function Noted(seen: Seen, max: int, trap: Trap): Seen {
    var m := SeenOf(seen, trap.device);
    seen[trap.device := if trap.name !in m && |m| < max then m + {trap.name} else m]
  }

  function SeenAfter(max: int, traps: seq<Trap>): Seen {
    if traps == [] then map[] else Noted(SeenAfter(max, traps[..|traps| - 1]), max, traps[|traps| - 1])
  }

  function LabelAt(max: int, traps: seq<Trap>, i: nat): string
    requires i < |traps|
  {
    LabelFor(SeenAfter(max, traps[..i]), max, traps[i])
  }

  /** What has a name keeps it; what has none while full never gets one. */
  predicate Kept(early: set<string>, late: set<string>, max: int) {
    early <= late && (|early| >= max ==> early == late)
  }

  lemma KeptOn(a: set<string>, b: set<string>, c: set<string>, max: int)
    requires Kept(a, b, max) && Kept(b, c, max)
    ensures Kept(a, c, max)
  {
    SubsetSize(a, b);
  }

  lemma NotingKeeps(seen: Seen, max: int, trap: Trap, device: string)
    ensures Kept(SeenOf(seen, device), SeenOf(Noted(seen, max, trap), device), max)
  {
  }

  /** The names a device has after so many traps. */
  function NamesAfter(max: int, traps: seq<Trap>, device: string): set<string> {
    SeenOf(SeenAfter(max, traps), device)
  }

  lemma {:induction false} NamesAreKept(max: int, traps: seq<Trap>, i: nat, device: string)
    requires i <= |traps|
    ensures Kept(NamesAfter(max, traps[..i], device), NamesAfter(max, traps, device), max)
  {
    if i < |traps| {
      var before := traps[..|traps| - 1];
      assert before[..i] == traps[..i];
      NamesAreKept(max, before, i, device);
      NotingKeeps(SeenAfter(max, before), max, traps[|traps| - 1], device);
      KeptOn(NamesAfter(max, traps[..i], device), NamesAfter(max, before, device), NamesAfter(max, traps, device), max);
    } else {
      assert traps[..i] == traps;
    }
  }

  lemma {:induction false} SeenIsBounded(max: int, traps: seq<Trap>, device: string)
    requires max >= 0
    ensures |NamesAfter(max, traps, device)| <= max
  {
    if traps != [] {
      SeenIsBounded(max, traps[..|traps| - 1], device);
    }
  }

  /** A trap of a device is labelled alike from its first appearance on. */
  lemma LabelsAreStable(max: int, traps: seq<Trap>, i: nat, j: nat)
    requires i < j < |traps| && traps[i] == traps[j]
    ensures LabelAt(max, traps, i) == LabelAt(max, traps, j)
  {
    var device, name := traps[i].device, traps[i].name;
    NamesAreKept(max, traps[..j], i + 1, device);
    assert traps[..j][..i + 1] == traps[..i + 1];
    assert traps[..i + 1][..i] == traps[..i];
    NamesAreKept(max, traps[..i], i, device);
  }

  /** The labels a device was given over a run, "other" aside. */
  function Used(max: int, traps: seq<Trap>, device: string): set<string> {
    if traps == [] then {}
    else
      var n := |traps| - 1;
      var name := LabelAt(max, traps, n);
      Used(max, traps[..n], device) + (if traps[n].device == device && name != OTHER then {name} else {})
  }

  lemma {:induction false} UsedAreNoted(max: int, traps: seq<Trap>, device: string)
    ensures Used(max, traps, device) <= NamesAfter(max, traps, device)
  {
    if traps != [] {
      var n := |traps| - 1;
      UsedAreNoted(max, traps[..n], device);
      NotingKeeps(SeenAfter(max, traps[..n]), max, traps[n], device);
    }
  }

  /** Over any run a device uses at most `max` names besides "other". */
  lemma LabelsAreFew(max: int, traps: seq<Trap>, device: string)
    requires max >= 0
    ensures |Used(max, traps, device)| <= max
  {
    UsedAreNoted(max, traps, device);
    SeenIsBounded(max, traps, device);
    SubsetSize(Used(max, traps, device), NamesAfter(max, traps, device));
  }

  class LabelCap {
    const max: int
    var seen: Seen

    constructor (max: int)
      ensures this.max == max && seen == map[]
    {
      this.max, seen := max, map[];
    }

    method Label(device: string, trap: string) returns (name: string)
      modifies this
      ensures name == LabelFor(old(seen), max, Trap(device, trap))
      ensures seen == Noted(old(seen), max, Trap(device, trap))
    {
      if device !in seen {
        seen := seen[device := {}];
      }
      if trap in seen[device] {
        return trap;
      }
      if |seen[device]| >= max {
        return OTHER;
      }
      seen := seen[device := seen[device] + {trap}];
      return trap;
    }
  }
}
