/**
 The template cache: bounded and expiring, against the map it stands for, in
 which every announcement is remembered for its time to live and nothing is
 ever refused. Times are nanoseconds.
 */
module TemplateCache {
  import opened Common
  import opened Bytes
  import opened FlowTypes

  const DEFAULT_TTL: int := 3_600_000_000_000
  const DEFAULT_MAX: int := 10_000

  datatype Entry = Entry(template: Template, seen: int)
  type Entries = map<TemplateKey, Entry>

  datatype Op = Put(key: TemplateKey, template: Template, now: int) | Get(key: TemplateKey, now: int)

  function Ttl(configured: int): (ttl: int)
    ensures ttl > 0
  {
    if configured > 0 then configured else DEFAULT_TTL
  }

  function Max(configured: int): (max: int)
    ensures max > 0
  {
    if configured > 0 then configured else DEFAULT_MAX
  }

  predicate Expired(e: Entry, now: int, ttl: int) {
    now - e.seen > ttl
  }

  function Unexpired(m: Entries, now: int, ttl: int): Entries {
    map k | k in m && !Expired(m[k], now, ttl) :: m[k]
  }

  function PutBounded(m: Entries, k: TemplateKey, t: Template, now: int, ttl: int, max: int): Entries {
    if k in m || |m| < max then m[k := Entry(t, now)]
    else
      var room := Unexpired(m, now, ttl);
      if |room| < max then room[k := Entry(t, now)] else room
  }

  function GetBounded(m: Entries, k: TemplateKey, now: int, ttl: int): (Entries, Option<Template>) {
    if k !in m then (m, None)
    else if Expired(m[k], now, ttl) then (m - {k}, None)
    else (m, Some(m[k].template))
  }

  // ------------------------------------------------ the map it stands for

  function Remember(all: Entries, op: Op): Entries {
    if op.Put? then all[op.key := Entry(op.template, op.now)] else all
  }

  function Recall(all: Entries, k: TemplateKey, now: int, ttl: int): Option<Template> {
    if k in all && !Expired(all[k], now, ttl) then Some(all[k].template) else None
  }

  /** One operation on the bounded cache, and the answer if it was a lookup. */
  function StepBounded(m: Entries, op: Op, ttl: int, max: int): (Entries, Option<Template>) {
    match op
    case Put(k, t, now) => (PutBounded(m, k, t, now, ttl, max), None)
    case Get(k, now) => GetBounded(m, k, now, ttl)
  }

  function AnswersBounded(m: Entries, ops: seq<Op>, ttl: int, max: int): seq<Option<Template>>
    decreases |ops|
  {
    if ops == [] then []
    else
      var (m', answer) := StepBounded(m, ops[0], ttl, max);
      [answer] + AnswersBounded(m', ops[1..], ttl, max)
  }

  function AnswersUnbounded(all: Entries, ops: seq<Op>, ttl: int): seq<Option<Template>>
    decreases |ops|
  {
    if ops == [] then []
    else
      var answer := if ops[0].Get? then Recall(all, ops[0].key, ops[0].now, ttl) else None;
      [answer] + AnswersUnbounded(Remember(all, ops[0]), ops[1..], ttl)
  }

  function AfterBounded(m: Entries, ops: seq<Op>, ttl: int, max: int): Entries
    decreases |ops|
  {
    if ops == [] then m else AfterBounded(StepBounded(m, ops[0], ttl, max).0, ops[1..], ttl, max)
  }

  function AfterUnbounded(all: Entries, ops: seq<Op>): Entries
    decreases |ops|
  {
    if ops == [] then all else AfterUnbounded(Remember(all, ops[0]), ops[1..])
  }

  /** The keys other than `k` whose last announcement is still valid. */
  function LiveOthers(all: Entries, k: TemplateKey, now: int, ttl: int): set<TemplateKey> {
    set o | o in all && o != k && !Expired(all[o], now, ttl)
  }

  /** The clock never steps back. */
  predicate Monotone(ops: seq<Op>, start: int)
    decreases |ops|
  {
    ops == [] || (start <= ops[0].now && Monotone(ops[1..], ops[0].now))
  }

  /** Every announcement finds fewer than `max` other templates live. */
  predicate Roomy(all: Entries, ops: seq<Op>, ttl: int, max: int)
    decreases |ops|
  {
    ops == []
    || ((ops[0].Put? ==> |LiveOthers(all, ops[0].key, ops[0].now, ttl)| < max)
        && Roomy(Remember(all, ops[0]), ops[1..], ttl, max))
  }

  // ------------------------------------------------------------ invariants

  /** Whatever the cache holds is the last thing announced under that key. */
  ghost predicate HoldsNewest(m: Entries, all: Entries) {
    forall k :: k in m ==> k in all && all[k] == m[k]
  }

  /** Everything still valid is held. */
  ghost predicate HoldsLive(m: Entries, all: Entries, now: int, ttl: int) {
    forall k :: k in all && !Expired(all[k], now, ttl) ==> k in m
  }

  lemma StepKeepsNewest(m: Entries, all: Entries, op: Op, ttl: int, max: int)
    requires HoldsNewest(m, all)
    ensures HoldsNewest(StepBounded(m, op, ttl, max).0, Remember(all, op))
  {
  }

  lemma StepKeepsSize(m: Entries, op: Op, ttl: int, max: int)
    requires |m| <= max && max > 0
    ensures |StepBounded(m, op, ttl, max).0| <= max
  {
    match op
    case Put(k, t, now) =>
      var room := Unexpired(m, now, ttl);
      SubsetSize(room.Keys, m.Keys);
      if k in m {
        assert m[k := Entry(t, now)].Keys == m.Keys;
      } else {
        assert m[k := Entry(t, now)].Keys == m.Keys + {k};
      }
      assert room[k := Entry(t, now)].Keys == room.Keys + {k};
    case Get(k, now) =>
      SubsetSize((m - {k}).Keys, m.Keys);
  }

  lemma StepKeepsLive(m: Entries, all: Entries, op: Op, before: int, ttl: int, max: int)
    requires HoldsNewest(m, all) && HoldsLive(m, all, before, ttl) && before <= op.now
    requires op.Put? ==> |LiveOthers(all, op.key, op.now, ttl)| < max
    ensures HoldsLive(StepBounded(m, op, ttl, max).0, Remember(all, op), op.now, ttl)
  {
    if op.Put? && op.key !in m && |m| >= max {
      var room := Unexpired(m, op.now, ttl);
      assert room.Keys <= LiveOthers(all, op.key, op.now, ttl);
      SubsetSize(room.Keys, LiveOthers(all, op.key, op.now, ttl));
    }
  }

  // --------------------------------------------------------- main theorems

  lemma {:induction false} RunKeeps(m: Entries, all: Entries, ops: seq<Op>, ttl: int, max: int)
    requires HoldsNewest(m, all) && |m| <= max && max > 0
    ensures HoldsNewest(AfterBounded(m, ops, ttl, max), AfterUnbounded(all, ops))
    ensures |AfterBounded(m, ops, ttl, max)| <= max
    decreases |ops|
  {
    if ops != [] {
      StepKeepsNewest(m, all, ops[0], ttl, max);
      StepKeepsSize(m, ops[0], ttl, max);
      RunKeeps(StepBounded(m, ops[0], ttl, max).0, Remember(all, ops[0]), ops[1..], ttl, max);
    }
  }

  /**
   After any run, on any clock: the cache is within its bound, and a hit is the
   newest definition announced for that key, still within its time to live.
   */
  lemma HitIsNewest(ops: seq<Op>, k: TemplateKey, now: int, ttl: int, max: int)
    requires max > 0
    ensures |AfterBounded(map[], ops, ttl, max)| <= max
    ensures var hit := GetBounded(AfterBounded(map[], ops, ttl, max), k, now, ttl).1;
            hit.Some? ==> hit == Recall(AfterUnbounded(map[], ops), k, now, ttl)
  {
    RunKeeps(map[], map[], ops, ttl, max);
  }

  /** No operation on one key removes another key's unexpired template. */
  lemma LiveEntrySurvives(m: Entries, op: Op, k: TemplateKey, ttl: int, max: int)
    requires k in m && !Expired(m[k], op.now, ttl)
    requires op.Put? ==> op.key != k
    ensures var m' := StepBounded(m, op, ttl, max).0; k in m' && m'[k] == m[k]
  {
  }

  /** An announcement is turned away exactly when it is new and the bound is filled by live templates. */
  lemma RefusedExactlyWhenFull(m: Entries, k: TemplateKey, t: Template, now: int, ttl: int, max: int)
    ensures var m' := PutBounded(m, k, t, now, ttl, max);
            (k !in m' || m'[k] != Entry(t, now))
            <==> (k !in m && |m| >= max && |Unexpired(m, now, ttl)| >= max)
  {
  }

  lemma {:induction false} AnswersAgree(m: Entries, all: Entries, ops: seq<Op>, start: int, ttl: int, max: int)
    requires HoldsNewest(m, all) && HoldsLive(m, all, start, ttl)
    requires Monotone(ops, start) && Roomy(all, ops, ttl, max)
    ensures AnswersBounded(m, ops, ttl, max) == AnswersUnbounded(all, ops, ttl)
    decreases |ops|
  {
    if ops != [] {
      StepKeepsNewest(m, all, ops[0], ttl, max);
      StepKeepsLive(m, all, ops[0], start, ttl, max);
      AnswersAgree(StepBounded(m, ops[0], ttl, max).0, Remember(all, ops[0]), ops[1..], ops[0].now, ttl, max);
    }
  }

  /**
   On a clock that never steps back, and as long as every announcement finds
   fewer than `max` others live, every lookup answers as if nothing were bounded.
   */
  lemma BoundIsInvisible(ops: seq<Op>, start: int, ttl: int, max: int)
    requires Monotone(ops, start) && Roomy(map[], ops, ttl, max)
    ensures AnswersBounded(map[], ops, ttl, max) == AnswersUnbounded(map[], ops, ttl)
  {
    AnswersAgree(map[], map[], ops, start, ttl, max);
  }

  /** The room condition cannot be dropped: a second live template does not fit in a cache of one. */
  lemma BoundShowsWhenFull(a: TemplateKey, b: TemplateKey, t: Template, ttl: int)
    requires a != b && ttl > 0
    ensures var ops := [Put(a, t, 0), Put(b, t, 0), Get(b, 0)];
            Monotone(ops, 0) && AnswersBounded(map[], ops, ttl, 1) != AnswersUnbounded(map[], ops, ttl)
  {
    var ops := [Put(a, t, 0), Put(b, t, 0), Get(b, 0)];
    var m1 := map[a := Entry(t, 0)];
    assert StepBounded(map[], ops[0], ttl, 1).0 == m1;
    assert Unexpired(m1, 0, ttl) == m1;
    assert StepBounded(m1, ops[1], ttl, 1).0 == m1;
    var last := [Get(b, 0)];
    assert ops[1..] == [Put(b, t, 0)] + last && ops[1..][1..] == last;
    assert Monotone(last, 0) && Monotone(ops[1..], 0);
    var all2 := map[a := Entry(t, 0), b := Entry(t, 0)];
    assert AnswersBounded(m1, last, ttl, 1) == [None] + AnswersBounded(m1, [], ttl, 1);
    assert AnswersUnbounded(all2, last, ttl) == [Some(t)] + AnswersUnbounded(all2, [], ttl);
    assert AnswersBounded(m1, ops[1..], ttl, 1) == [None] + [None];
    assert AnswersUnbounded(Remember(map[], ops[0]), ops[1..], ttl) == [None] + [Some(t)];
    assert AnswersBounded(map[], ops, ttl, 1) == [None] + ([None] + [None]);
    assert AnswersUnbounded(map[], ops, ttl) == [None] + ([None] + [Some(t)]);
    assert ([None] + ([None] + [None]))[2] != ([None] + ([None] + [Some(t)]))[2];
  }

  // ------------------------------------------- a list of announcements

  /** A template announced under an identifier. */
  datatype Announced = Announced(id: uint16, template: Template)

  /** What one turn of a template parser's loop does. */
  datatype Turn = Stop | Skip(next: nat) | Keep(news: Announced, next: nat)

  /** The exporter and domain a template identifier belongs to. */
  datatype Scope = Scope(exporter: Addr, sourceId: uint32, version: uint16)

  function KeyFor(scope: Scope, id: uint16): TemplateKey {
    TemplateKey(scope.exporter, scope.sourceId, id, scope.version)
  }

  /** The cache after a list of announcements. */
  function Learn(m: Entries, scope: Scope, news: seq<Announced>, now: int, ttl: int, max: int): Entries
    decreases |news|
  {
    if news == [] then m
    else Learn(PutBounded(m, KeyFor(scope, news[0].id), news[0].template, now, ttl, max),
               scope, news[1..], now, ttl, max)
  }

  function LearnAll(all: Entries, scope: Scope, news: seq<Announced>, now: int): Entries
    decreases |news|
  {
    if news == [] then all
    else LearnAll(all[KeyFor(scope, news[0].id) := Entry(news[0].template, now)], scope, news[1..], now)
  }

  /** The last definition of an identifier in a list. */
  function Latest(news: seq<Announced>, id: uint16): Option<Template> {
    if news == [] then None
    else if news[|news| - 1].id == id then Some(news[|news| - 1].template)
    else Latest(news[..|news| - 1], id)
  }

  /** With room for them, every announcement is learned, later definitions of one id winning. */
  lemma {:induction false} LearnedWithRoom(m: Entries, scope: Scope, news: seq<Announced>, now: int, ttl: int, max: int, id: uint16)
    requires |m| + |news| <= max && ttl > 0
    ensures var k := KeyFor(scope, id);
            var m' := Learn(m, scope, news, now, ttl, max);
            match Latest(news, id)
            case Some(t) => GetBounded(m', k, now, ttl).1 == Some(t)
            case None => (k in m' <==> k in m) && (k in m ==> m'[k] == m[k])
    decreases |news|
  {
    if news != [] {
      var k0 := KeyFor(scope, news[0].id);
      var m1 := m[k0 := Entry(news[0].template, now)];
      assert m1.Keys == m.Keys + {k0};
      assert PutBounded(m, k0, news[0].template, now, ttl, max) == m1;
      LearnedWithRoom(m1, scope, news[1..], now, ttl, max, id);
      LatestOfTail(news, id);
    }
  }

  lemma {:induction false} LatestOfTail(news: seq<Announced>, id: uint16)
    requires news != []
    ensures Latest(news, id)
         == if Latest(news[1..], id).Some? then Latest(news[1..], id)
            else if news[0].id == id then Some(news[0].template) else None
  {
    var n := |news| - 1;
    if n > 0 {
      assert news[1..][n - 1] == news[n];
      assert news[1..][..n - 1] == news[..n][1..];
      LatestOfTail(news[..n], id);
    } else {
      assert news[..0] == [];
    }
  }

  // ------------------------------------------------------------- the class

  class Cache {
    var ttl: int
    var max: int
    var templates: Entries
    var sampling: map<SamplingKey, uint32>
    /** Every announcement ever made, newest per key. */
    ghost var announced: Entries

    constructor ()
      ensures Valid() && templates == map[] && announced == map[] && sampling == map[]
    {
      ttl, max := DEFAULT_TTL, DEFAULT_MAX;
      templates, sampling, announced := map[], map[], map[];
    }

    ghost predicate Valid()
      reads this
    {
      HoldsNewest(templates, announced) && |templates| <= Max(max)
    }

    method Put(k: TemplateKey, t: Template, now: int)
      requires Valid()
      modifies this`templates, this`announced
      ensures Valid()
      ensures templates == PutBounded(old(templates), k, t, now, Ttl(ttl), Max(max))
      ensures announced == old(announced)[k := Entry(t, now)]
    {
      StepKeepsSize(templates, Op.Put(k, t, now), Ttl(ttl), Max(max));
      announced := announced[k := Entry(t, now)];
      if k !in templates && |templates| >= Max(max) {
        ExpireLocked(now);
        if |templates| >= Max(max) {
          return;
        }
      }
      templates := templates[k := Entry(t, now)];
    }

    method Get(k: TemplateKey, now: int) returns (found: Option<Template>)
      requires Valid()
      modifies this`templates
      ensures Valid()
      ensures (templates, found) == GetBounded(old(templates), k, now, Ttl(ttl))
      ensures found.Some? ==> found == Recall(announced, k, now, Ttl(ttl))
    {
      StepKeepsSize(templates, Op.Get(k, now), Ttl(ttl), Max(max));
      if k !in templates {
        return None;
      }
      if Expired(templates[k], now, Ttl(ttl)) {
        templates := templates - {k};
        return None;
      }
      return Some(templates[k].template);
    }

    /** Visits the entries in whatever order the map yields them. */
    method ExpireLocked(now: int)
      modifies this`templates
      ensures templates == Unexpired(old(templates), now, Ttl(ttl))
    {
      var unseen := templates.Keys;
      while unseen != {}
        invariant unseen <= templates.Keys
        invariant templates
               == map k | k in old(templates) && (k in unseen || !Expired(old(templates)[k], now, Ttl(ttl)))
                    :: old(templates)[k]
        decreases |unseen|
      {
        var k :| k in unseen;
        unseen := unseen - {k};
        if Expired(templates[k], now, Ttl(ttl)) {
          templates := templates - {k};
        }
      }
    }

    method PutSampling(k: SamplingKey, interval: uint32)
      modifies this`sampling
      ensures sampling == old(sampling)[k := interval]
    {
      sampling := sampling[k := interval];
    }

    method GetSampling(k: SamplingKey) returns (interval: uint32)
      ensures interval == if k in sampling then sampling[k] else 0
    {
      interval := if k in sampling then sampling[k] else 0;
    }
  }
}
