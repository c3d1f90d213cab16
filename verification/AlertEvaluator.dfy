/**
 The alert life of one rule: series that appear fire an instance, series that
 disappear resolve it, and a series that keeps coming back is counted as
 flapping and stops being announced.
 */
module AlertEvaluator {
  import opened Common

  /** Nanoseconds. */
  const FLAP_WINDOW: int := 15 * 60 * 1_000_000_000
  const FLAP_THRESHOLD: nat := 3

  datatype State = Firing | Acknowledged | Flapping | Resolved

  /** `resolvedAt` means something once resolved. */
  datatype Instance = Instance(fp: string, state: State, firedAt: int, resolvedAt: int, flapCount: nat) {
    predicate Live() {
      state != Resolved
    }
  }

  datatype Kind = FiredEvent | FlapStartEvent | ResolvedEvent | SilencedEvent

  /** An instance is named by its position in the store. */
  datatype Event = Event(kind: Kind, id: nat, fp: string)

  datatype Notice = FiredNotice(id: nat) | ResolvedNotice(id: nat)

  datatype World = World(instances: seq<Instance>, events: seq<Event>, notices: seq<Notice>)

  // --------------------------------------------------------- the repository

  function LiveFps(instances: seq<Instance>): set<string> {
    set i | 0 <= i < |instances| && instances[i].Live() :: instances[i].fp
  }

  /** The newest resolved instance of a series, if resolved since then. */
  function RecentResolved(instances: seq<Instance>, fp: string, since: int): Option<Instance> {
    if instances == [] then None
    else
      var last := instances[|instances| - 1];
      var before := RecentResolved(instances[..|instances| - 1], fp, since);
      if last.fp == fp && last.state == Resolved && last.resolvedAt >= since
         && (before.None? || last.resolvedAt >= before.value.resolvedAt)
      then Some(last) else before
  }

  // --------------------------------------------------------- one evaluation

  /** The series to fire: those not live, once each, in order. */
  function NewOnes(live: set<string>, fps: seq<string>): seq<string> {
    if fps == [] then []
    else
      var before := NewOnes(live, fps[..|fps| - 1]);
      var fp := fps[|fps| - 1];
      if fp in live || fp in fps[..|fps| - 1] then before else before + [fp]
  }

  function FlapCount(instances: seq<Instance>, fp: string, now: int): nat {
    var prev := RecentResolved(instances, fp, now - FLAP_WINDOW);
    if prev.Some? then prev.value.flapCount + 1 else 0
  }

  function NewInstance(instances: seq<Instance>, fp: string, now: int): Instance {
    var flaps := FlapCount(instances, fp, now);
    Instance(fp, if flaps >= FLAP_THRESHOLD then Flapping else Firing, now, 0, flaps)
  }

  /** A flapping firing is announced to nobody; a silenced one only noted. */
  function FireOne(w: World, fp: string, now: int, silenced: set<string>): World {
    var inst := NewInstance(w.instances, fp, now);
    var id := |w.instances|;
    World(
      w.instances + [inst],
      w.events + (if inst.state == Flapping then [Event(FlapStartEvent, id, fp)]
                  else if fp in silenced then [Event(FiredEvent, id, fp), Event(SilencedEvent, id, fp)]
                  else [Event(FiredEvent, id, fp)]),
      w.notices + (if inst.state == Flapping || fp in silenced then [] else [FiredNotice(id)]))
  }

  function ResolveOne(w: World, id: nat, now: int, silenced: set<string>): World
    requires id < |w.instances|
  {
    var inst := w.instances[id];
    World(
      w.instances[id := inst.(state := Resolved, resolvedAt := now)],
      w.events + (if inst.fp in silenced then [Event(ResolvedEvent, id, inst.fp), Event(SilencedEvent, id, inst.fp)]
                  else [Event(ResolvedEvent, id, inst.fp)]),
      w.notices + (if inst.fp in silenced then [] else [ResolvedNotice(id)]))
  }

  function FireAll(w: World, fps: seq<string>, now: int, silenced: set<string>): World {
    if fps == [] then w
    else FireOne(FireAll(w, fps[..|fps| - 1], now, silenced), fps[|fps| - 1], now, silenced)
  }

  predicate Below(ids: seq<nat>, n: nat) {
    forall i :: 0 <= i < |ids| ==> ids[i] < n
  }

  function ResolveAll(w: World, ids: seq<nat>, now: int, silenced: set<string>): (w': World)
    requires Below(ids, |w.instances|)
    ensures |w'.instances| == |w.instances|
  {
    if ids == [] then w
    else
      ResolveOne(ResolveAll(w, ids[..|ids| - 1], now, silenced), ids[|ids| - 1], now, silenced)
  }

  /** The live instances no series matches any more. */
  function Gone(instances: seq<Instance>, fps: seq<string>): set<nat> {
    set i: nat | i < |instances| && instances[i].Live() && instances[i].fp !in fps
  }

  /** The order in which a map happens to be walked. */
  ghost predicate Walks(order: seq<nat>, ids: set<nat>) {
    && (forall i :: i in order <==> i in ids)
    && (forall i :: 0 <= i < |order| ==> order[i] in ids)
    && (forall i, j :: 0 <= i < j < |order| ==> order[i] != order[j])
  }

  function Evaluated(w: World, fps: seq<string>, now: int, silenced: set<string>, order: seq<nat>): World
    requires Below(order, |w.instances|)
  {
    var fired := FireAll(w, NewOnes(LiveFps(w.instances), fps), now, silenced);
    FireAllGrows(w, NewOnes(LiveFps(w.instances), fps), now, silenced);
    ResolveAll(fired, order, now, silenced)
  }

  lemma {:induction false} FireAllGrows(w: World, fps: seq<string>, now: int, silenced: set<string>)
    ensures |FireAll(w, fps, now, silenced).instances| == |w.instances| + |fps|
    ensures FireAll(w, fps, now, silenced).instances[..|w.instances|] == w.instances
    ensures forall k :: 0 <= k < |fps| ==> FireAll(w, fps, now, silenced).instances[|w.instances| + k].fp == fps[k]
  {
    if fps != [] {
      FireAllGrows(w, fps[..|fps| - 1], now, silenced);
    }
  }

  // --------------------------------------------------------------- invariant

  /** Only the newest instance of a series can be live, and each came after the last ended. */
  predicate OneLive(instances: seq<Instance>) {
    forall i, j :: 0 <= i < j < |instances| && instances[i].fp == instances[j].fp
      ==> instances[i].state == Resolved && instances[i].resolvedAt < instances[j].firedAt
  }

  predicate Dated(instances: seq<Instance>, clock: int) {
    forall i :: 0 <= i < |instances| ==>
      && instances[i].firedAt <= clock
      && (instances[i].state == Resolved ==> instances[i].firedAt <= instances[i].resolvedAt <= clock)
  }

  function LastOf(instances: seq<Instance>, fp: string): (r: Option<nat>)
    ensures r.Some? ==> r.value < |instances| && instances[r.value].fp == fp
    ensures r.Some? ==> forall i :: r.value < i < |instances| ==> instances[i].fp != fp
    ensures r.None? ==> forall i :: 0 <= i < |instances| ==> instances[i].fp != fp
  {
    if instances == [] then None
    else if instances[|instances| - 1].fp == fp then Some(|instances| - 1)
    else LastOf(instances[..|instances| - 1], fp)
  }

  /** A firing within the window of the previous resolve counts one flap more, any other none. */
  predicate FlapRule(instances: seq<Instance>, j: nat)
    requires j < |instances|
  {
    var prev := LastOf(instances[..j], instances[j].fp);
    instances[j].flapCount ==
      if prev.Some? && instances[j].firedAt - instances[prev.value].resolvedAt <= FLAP_WINDOW
      then instances[prev.value].flapCount + 1 else 0
  }

  predicate FlapsCounted(instances: seq<Instance>) {
    forall j :: 0 <= j < |instances| ==> FlapRule(instances, j)
  }

  /** Fired and resolved events of one series, fired as true. */
  function Turns(events: seq<Event>, fp: string): seq<bool> {
    if events == [] then []
    else
      var last := events[|events| - 1];
      Turns(events[..|events| - 1], fp)
      + (if last.fp != fp || last.kind == SilencedEvent then [] else [last.kind != ResolvedEvent])
  }

  predicate Alternates(turns: seq<bool>) {
    forall i :: 0 <= i < |turns| ==> turns[i] == (i % 2 == 0)
  }

  /** Each series fires and resolves in turn, and is live while its last turn was to fire. */
  ghost predicate TakesTurns(w: World) {
    forall fp {:trigger Turns(w.events, fp)} ::
      && Alternates(Turns(w.events, fp))
      && (fp in LiveFps(w.instances) <==> |Turns(w.events, fp)| % 2 == 1)
  }

  function FiredIds(notices: seq<Notice>): seq<nat> {
    if notices == [] then []
    else
      FiredIds(notices[..|notices| - 1])
      + (match notices[|notices| - 1] case FiredNotice(id) => [id] case ResolvedNotice(_) => [])
  }

  /** A firing is announced at most once, and only while it is not yet flapping. */
  predicate AnnouncedOnce(w: World) {
    var ids := FiredIds(w.notices);
    && (forall i, j :: 0 <= i < j < |ids| ==> ids[i] < ids[j])
    && (forall i :: 0 <= i < |ids| ==> ids[i] < |w.instances| && w.instances[ids[i]].flapCount < FLAP_THRESHOLD)
  }

  ghost predicate Inv(w: World, clock: int) {
    && OneLive(w.instances)
    && Dated(w.instances, clock)
    && FlapsCounted(w.instances)
    && TakesTurns(w)
    && AnnouncedOnce(w)
  }

  // ------------------------------------------------------------ preservation

  predicate ResolvedBefore(instances: seq<Instance>, now: int) {
    forall i :: 0 <= i < |instances| && instances[i].state == Resolved ==> instances[i].resolvedAt < now
  }

  /** The newest resolved instance is simply the last one, if recent enough. */
  lemma {:induction false} RecentIsLast(instances: seq<Instance>, fp: string, since: int)
    requires OneLive(instances) && fp !in LiveFps(instances)
    requires forall i :: 0 <= i < |instances| && instances[i].state == Resolved ==> instances[i].firedAt <= instances[i].resolvedAt
    ensures var last := LastOf(instances, fp);
            RecentResolved(instances, fp, since)
            == if last.Some? && instances[last.value].resolvedAt >= since then Some(instances[last.value]) else None
  {
    if instances != [] {
      var n := |instances| - 1;
      var before := instances[..n];
      assert instances[n].Live() ==> instances[n].fp in LiveFps(instances);
      forall g | g in LiveFps(before)
        ensures g in LiveFps(instances)
      {
        var i :| 0 <= i < n && before[i].Live() && before[i].fp == g;
        assert instances[i].Live();
      }
      RecentIsLast(before, fp, since);
    }
  }

  lemma FireInstances(instances: seq<Instance>, fp: string, now: int)
    requires OneLive(instances) && Dated(instances, now) && FlapsCounted(instances)
    requires fp !in LiveFps(instances) && ResolvedBefore(instances, now)
    ensures var instances' := instances + [NewInstance(instances, fp, now)];
            OneLive(instances') && Dated(instances', now) && FlapsCounted(instances')
            && ResolvedBefore(instances', now) && LiveFps(instances') == LiveFps(instances) + {fp}
  {
    var inst := NewInstance(instances, fp, now);
    var instances' := instances + [inst];
    RecentIsLast(instances, fp, now - FLAP_WINDOW);
    forall j | 0 <= j < |instances'|
      ensures FlapRule(instances', j)
    {
      if j < |instances| {
        assert FlapRule(instances, j);
        assert instances'[..j] == instances[..j];
      } else {
        assert instances'[..j] == instances;
      }
    }
    forall i | 0 <= i < |instances| && instances[i].fp == fp
      ensures instances[i].state == Resolved
    {
      LiveIsListed(instances, i);
    }
    LiveFpsOfLast(instances, inst);
  }

  lemma LiveIsListed(instances: seq<Instance>, i: nat)
    requires i < |instances|
    ensures instances[i].Live() ==> instances[i].fp in LiveFps(instances)
  {
  }

  lemma LiveFpsOfLast(instances: seq<Instance>, inst: Instance)
    requires inst.Live()
    ensures LiveFps(instances + [inst]) == LiveFps(instances) + {inst.fp}
  {
    var all := instances + [inst];
    assert all[|instances|] == inst;
    forall fp | fp in LiveFps(instances)
      ensures fp in LiveFps(all)
    {
      var i :| 0 <= i < |instances| && instances[i].Live() && instances[i].fp == fp;
      assert all[i] == instances[i];
    }
  }

  lemma TurnsOfOne(events: seq<Event>, e: Event, fp: string)
    ensures Turns(events + [e], fp)
         == Turns(events, fp) + (if e.fp != fp || e.kind == SilencedEvent then [] else [e.kind != ResolvedEvent])
  {
    assert (events + [e])[..|events|] == events;
  }

  lemma TurnsOfTwo(events: seq<Event>, e: Event, silence: Event, fp: string)
    requires silence.kind == SilencedEvent && e.kind != SilencedEvent
    ensures Turns(events + [e, silence], fp) == Turns(events, fp) + (if e.fp != fp then [] else [e.kind != ResolvedEvent])
  {
    TurnsOfOne(events, e, fp);
    TurnsOfOne(events + [e], silence, fp);
    assert events + [e, silence] == events + [e] + [silence];
  }

  lemma FireTurns(w: World, fp: string, now: int, silenced: set<string>, g: string)
    ensures Turns(FireOne(w, fp, now, silenced).events, g) == Turns(w.events, g) + (if g == fp then [true] else [])
  {
    var id := |w.instances|;
    TurnsOfOne(w.events, Event(FlapStartEvent, id, fp), g);
    TurnsOfOne(w.events, Event(FiredEvent, id, fp), g);
    TurnsOfTwo(w.events, Event(FiredEvent, id, fp), Event(SilencedEvent, id, fp), g);
  }

  lemma ResolveTurns(w: World, id: nat, now: int, silenced: set<string>, g: string)
    requires id < |w.instances|
    ensures Turns(ResolveOne(w, id, now, silenced).events, g)
         == Turns(w.events, g) + (if g == w.instances[id].fp then [false] else [])
  {
    var fp := w.instances[id].fp;
    TurnsOfOne(w.events, Event(ResolvedEvent, id, fp), g);
    TurnsOfTwo(w.events, Event(ResolvedEvent, id, fp), Event(SilencedEvent, id, fp), g);
  }

  lemma FiredIdsOfOne(notices: seq<Notice>, n: Notice)
    ensures FiredIds(notices + [n])
         == FiredIds(notices) + (match n case FiredNotice(id) => [id] case ResolvedNotice(_) => [])
  {
    assert (notices + [n])[..|notices|] == notices;
  }

  lemma FireKeepsInv(w: World, fp: string, now: int, silenced: set<string>)
    requires Inv(w, now) && fp !in LiveFps(w.instances) && ResolvedBefore(w.instances, now)
    ensures var w' := FireOne(w, fp, now, silenced);
            Inv(w', now) && ResolvedBefore(w'.instances, now) && LiveFps(w'.instances) == LiveFps(w.instances) + {fp}
  {
    var w' := FireOne(w, fp, now, silenced);
    FireInstances(w.instances, fp, now);
    FireKeepsTurns(w, fp, now, silenced);
    FireKeepsAnnounced(w, fp, now, silenced);
  }

  lemma FireKeepsTurns(w: World, fp: string, now: int, silenced: set<string>)
    requires TakesTurns(w) && fp !in LiveFps(w.instances)
    ensures TakesTurns(FireOne(w, fp, now, silenced))
  {
    var w' := FireOne(w, fp, now, silenced);
    LiveFpsOfLast(w.instances, NewInstance(w.instances, fp, now));
    forall g
      ensures Alternates(Turns(w'.events, g))
      ensures g in LiveFps(w'.instances) <==> |Turns(w'.events, g)| % 2 == 1
    {
      FireTurns(w, fp, now, silenced, g);
      assert Alternates(Turns(w.events, g));
    }
  }

  lemma FireKeepsAnnounced(w: World, fp: string, now: int, silenced: set<string>)
    requires AnnouncedOnce(w)
    ensures AnnouncedOnce(FireOne(w, fp, now, silenced))
  {
    var id := |w.instances|;
    FiredIdsOfOne(w.notices, FiredNotice(id));
    assert w.notices + [] == w.notices;
  }

  lemma ResolveKeepsInv(w: World, id: nat, now: int, silenced: set<string>)
    requires Inv(w, now) && id < |w.instances| && w.instances[id].Live()
    ensures var w' := ResolveOne(w, id, now, silenced);
            Inv(w', now) && LiveFps(w'.instances) == LiveFps(w.instances) - {w.instances[id].fp}
  {
    var w' := ResolveOne(w, id, now, silenced);
    ResolveInstances(w.instances, id, now);
    forall g
      ensures Alternates(Turns(w'.events, g))
      ensures g in LiveFps(w'.instances) <==> |Turns(w'.events, g)| % 2 == 1
    {
      ResolveTurns(w, id, now, silenced, g);
      assert Alternates(Turns(w.events, g));
      assert w.instances[id].fp in LiveFps(w.instances);
    }
    FiredIdsOfOne(w.notices, ResolvedNotice(id));
    assert w.notices + [] == w.notices;
  }

  lemma ResolveInstances(instances: seq<Instance>, id: nat, now: int)
    requires OneLive(instances) && Dated(instances, now) && FlapsCounted(instances)
    requires id < |instances| && instances[id].Live()
    ensures var instances' := instances[id := instances[id].(state := Resolved, resolvedAt := now)];
            OneLive(instances') && Dated(instances', now) && FlapsCounted(instances')
            && LiveFps(instances') == LiveFps(instances) - {instances[id].fp}
  {
    var instances' := instances[id := instances[id].(state := Resolved, resolvedAt := now)];
    forall j | 0 <= j < |instances'|
      ensures FlapRule(instances', j)
    {
      assert FlapRule(instances, j);
      SameLastOf(instances[..j], instances'[..j], instances[j].fp);
    }
    forall fp | fp in LiveFps(instances) && fp != instances[id].fp
      ensures fp in LiveFps(instances')
    {
      var i :| 0 <= i < |instances| && instances[i].Live() && instances[i].fp == fp;
      assert instances'[i] == instances[i];
    }
    forall fp | fp in LiveFps(instances')
      ensures fp in LiveFps(instances) && fp != instances[id].fp
    {
      var i :| 0 <= i < |instances'| && instances'[i].Live() && instances'[i].fp == fp;
      assert i != id && instances'[i] == instances[i];
    }
  }

  lemma {:induction false} SameLastOf(a: seq<Instance>, b: seq<Instance>, fp: string)
    requires |a| == |b| && forall i :: 0 <= i < |a| ==> a[i].fp == b[i].fp
    ensures LastOf(a, fp) == LastOf(b, fp)
  {
    if a != [] {
      SameLastOf(a[..|a| - 1], b[..|b| - 1], fp);
    }
  }

  lemma {:induction false} NewOnesAre(live: set<string>, fps: seq<string>)
    ensures var news := NewOnes(live, fps);
            && (forall fp :: fp in news <==> fp in fps && fp !in live)
            && (forall i, j :: 0 <= i < j < |news| ==> news[i] != news[j])
  {
    if fps != [] {
      var before, fp := fps[..|fps| - 1], fps[|fps| - 1];
      NewOnesAre(live, before);
      assert fps == before + [fp];
      assert forall g :: g in fps <==> g in before || g == fp;
    }
  }

  lemma {:induction false} FireAllKeepsInv(w: World, news: seq<string>, now: int, silenced: set<string>)
    requires Inv(w, now) && ResolvedBefore(w.instances, now)
    requires forall i :: 0 <= i < |news| ==> news[i] !in LiveFps(w.instances)
    requires forall i, j :: 0 <= i < j < |news| ==> news[i] != news[j]
    ensures var w' := FireAll(w, news, now, silenced);
            Inv(w', now) && ResolvedBefore(w'.instances, now)
            && forall fp :: fp in LiveFps(w'.instances) <==> fp in LiveFps(w.instances) || fp in news
  {
    if news != [] {
      var before, fp := news[..|news| - 1], news[|news| - 1];
      FireAllKeepsInv(w, before, now, silenced);
      FireKeepsInv(FireAll(w, before, now, silenced), fp, now, silenced);
      assert news == before + [fp];
    }
  }

  /** Resolving touches exactly the instances named. */
  lemma {:induction false} ResolveAllTouches(w: World, ids: seq<nat>, now: int, silenced: set<string>, i: nat)
    requires Below(ids, |w.instances|) && i < |w.instances|
    ensures var inst := ResolveAll(w, ids, now, silenced).instances[i];
            inst == if i in ids then w.instances[i].(state := Resolved, resolvedAt := now) else w.instances[i]
  {
    if ids != [] {
      ResolveAllTouches(w, ids[..|ids| - 1], now, silenced, i);
      assert ids == ids[..|ids| - 1] + [ids[|ids| - 1]];
    }
  }

  lemma {:induction false} ResolveAllKeepsInv(w: World, ids: seq<nat>, now: int, silenced: set<string>)
    requires Inv(w, now)
    requires Below(ids, |w.instances|) && forall i :: 0 <= i < |ids| ==> w.instances[ids[i]].Live()
    requires forall i, j :: 0 <= i < j < |ids| ==> ids[i] != ids[j]
    ensures Inv(ResolveAll(w, ids, now, silenced), now)
  {
    if ids != [] {
      var before, id := ids[..|ids| - 1], ids[|ids| - 1];
      ResolveAllKeepsInv(w, before, now, silenced);
      ResolveAllTouches(w, before, now, silenced, id);
      assert id !in before;
      ResolveKeepsInv(ResolveAll(w, before, now, silenced), id, now, silenced);
    }
  }

  /**
   One evaluation: the invariant survives, and the live series are exactly the
   series that match, whichever were live before.
   */
  lemma EvaluationSettles(w: World, clock: int, fps: seq<string>, now: int, silenced: set<string>, order: seq<nat>)
    requires Inv(w, clock) && clock < now && Walks(order, Gone(w.instances, fps))
    ensures var w' := Evaluated(w, fps, now, silenced, order);
            Inv(w', now) && forall fp :: fp in LiveFps(w'.instances) <==> fp in fps
  {
    var news := NewOnes(LiveFps(w.instances), fps);
    NewOnesAre(LiveFps(w.instances), fps);
    Later(w, clock, now);
    FireAllKeepsInv(w, news, now, silenced);
    FireAllGrows(w, news, now, silenced);
    ResolvingSettles(w, FireAll(w, news, now, silenced), fps, news, now, silenced, order);
  }

  lemma Later(w: World, clock: int, now: int)
    requires Inv(w, clock) && clock < now
    ensures Inv(w, now) && ResolvedBefore(w.instances, now)
  {
  }

  lemma ResolvingSettles(w: World, fired: World, fps: seq<string>, news: seq<string>, now: int, silenced: set<string>, order: seq<nat>)
    requires Walks(order, Gone(w.instances, fps)) && Inv(fired, now)
    requires forall fp :: fp in news <==> fp in fps && fp !in LiveFps(w.instances)
    requires forall fp :: fp in LiveFps(fired.instances) <==> fp in LiveFps(w.instances) || fp in news
    requires |fired.instances| == |w.instances| + |news| && fired.instances[..|w.instances|] == w.instances
    requires forall k :: 0 <= k < |news| ==> fired.instances[|w.instances| + k].fp == news[k]
    ensures var w' := ResolveAll(fired, order, now, silenced);
            Inv(w', now) && forall fp :: fp in LiveFps(w'.instances) <==> fp in fps
  {
    var n := |w.instances|;
    assert forall i :: 0 <= i < n ==> fired.instances[i] == w.instances[i];
    ResolveAllKeepsInv(fired, order, now, silenced);
    var w' := ResolveAll(fired, order, now, silenced);
    forall i | 0 <= i < |fired.instances|
      ensures w'.instances[i].fp == fired.instances[i].fp
      ensures w'.instances[i].Live() <==> fired.instances[i].Live() && fired.instances[i].fp in fps
    {
      ResolveAllTouches(fired, order, now, silenced, i);
      if i >= n {
        assert fired.instances[n + (i - n)].fp == news[i - n];
        assert news[i - n] in news;
      }
    }
    LiveAfter(fired.instances, w'.instances, fps);
  }

  lemma LiveAfter(fired: seq<Instance>, after: seq<Instance>, fps: seq<string>)
    requires |fired| == |after| && forall i :: 0 <= i < |fired| ==> after[i].fp == fired[i].fp
    requires forall i :: 0 <= i < |fired| && after[i].Live() ==> fired[i].Live()
    requires forall i :: 0 <= i < |fired| && fired[i].Live() ==> (after[i].Live() <==> fired[i].fp in fps)
    requires forall fp :: fp in fps ==> fp in LiveFps(fired)
    ensures forall fp :: fp in LiveFps(after) <==> fp in fps
  {
    forall fp | fp in fps
      ensures fp in LiveFps(after)
    {
      var i :| 0 <= i < |fired| && fired[i].Live() && fired[i].fp == fp;
      assert after[i].Live();
    }
  }

  /** Evaluating again with the same series, in any order or number, does nothing. */
  lemma UnchangedSeriesDoNothing(w: World, fps: seq<string>, now: int, silenced: set<string>, order: seq<nat>)
    requires forall fp :: fp in LiveFps(w.instances) <==> fp in fps
    requires Walks(order, Gone(w.instances, fps))
    ensures Below(order, |w.instances|) && Evaluated(w, fps, now, silenced, order) == w
  {
    var news := NewOnes(LiveFps(w.instances), fps);
    NewOnesAre(LiveFps(w.instances), fps);
    FirstIsIn(news);
    forall i | 0 <= i < |w.instances| && w.instances[i].Live()
      ensures w.instances[i].fp in fps
    {
      LiveIsListed(w.instances, i);
    }
    assert Gone(w.instances, fps) == {};
    FirstIsIn(order);
  }

  lemma FirstIsIn<T>(s: seq<T>)
    ensures s != [] ==> s[0] in s
  {
  }

  // --------------------------------------------------------------- whole runs

  datatype Step =
    | Evaluate(fps: seq<string>, now: int, silenced: set<string>, order: seq<nat>)
    | Acknowledge(id: nat)
    | Unacknowledge(id: nat)

  /** Only the mark of a live alert changes; it stays live. */
  function Marked(w: World, id: nat, state: State): World
    requires id < |w.instances|
  {
    w.(instances := w.instances[id := w.instances[id].(state := state)])
  }

  function Acked(w: World, id: nat): World {
    if id < |w.instances| && w.instances[id].state in {Firing, Flapping} then Marked(w, id, Acknowledged) else w
  }

  /** Taking an acknowledgement back leaves the alert firing, flapping or not. */
  function Unacked(w: World, id: nat): World {
    if id < |w.instances| && w.instances[id].state == Acknowledged then Marked(w, id, Firing) else w
  }

  const START := World([], [], [])

  /** Evaluations happen at rising times, each walking its maps in some order. */
  ghost predicate Possible(w: World, clock: int, step: Step) {
    match step
    case Evaluate(fps, now, _, order) => clock < now && Walks(order, Gone(w.instances, fps))
    case Acknowledge(_) => true
    case Unacknowledge(_) => true
  }

  ghost function After(w: World, clock: int, step: Step): World
    requires Possible(w, clock, step)
  {
    match step
    case Evaluate(fps, now, silenced, order) => Evaluated(w, fps, now, silenced, order)
    case Acknowledge(id) => Acked(w, id)
    case Unacknowledge(id) => Unacked(w, id)
  }

  function Clock(clock: int, step: Step): int {
    if step.Evaluate? then step.now else clock
  }

  /** `w` at `clock` is where these steps can lead. */
  ghost predicate Reaches(steps: seq<Step>, w: World, clock: int)
    decreases |steps|, 1
  {
    if steps == [] then w == START else Arrives(steps, w, clock)
  }

  /** The last step leads there from somewhere the others lead. */
  ghost predicate Arrives(steps: seq<Step>, w: World, clock: int)
    requires steps != []
    decreases |steps|, 0
  {
    exists w0, clock0 {:trigger Reaches(steps[..|steps| - 1], w0, clock0)} ::
      && Reaches(steps[..|steps| - 1], w0, clock0)
      && Possible(w0, clock0, steps[|steps| - 1])
      && w == After(w0, clock0, steps[|steps| - 1])
      && clock == Clock(clock0, steps[|steps| - 1])
  }

  lemma MarkKeepsInv(w: World, clock: int, id: nat, state: State)
    requires Inv(w, clock) && id < |w.instances| && w.instances[id].Live() && state != Resolved
    ensures Inv(Marked(w, id, state), clock)
  {
    var w' := Marked(w, id, state);
    forall j | 0 <= j < |w.instances|
      ensures FlapRule(w'.instances, j)
    {
      assert FlapRule(w.instances, j);
      SameLastOf(w.instances[..j], w'.instances[..j], w.instances[j].fp);
    }
    forall fp
      ensures fp in LiveFps(w.instances) <==> fp in LiveFps(w'.instances)
    {
      if fp in LiveFps(w.instances) {
        var i :| 0 <= i < |w.instances| && w.instances[i].Live() && w.instances[i].fp == fp;
        assert w'.instances[i].Live() && w'.instances[i].fp == fp;
      }
    }
  }

  /**
   Every run: at most one instance of a series is live, firings and resolves of
   a series take turns, flaps are counted by the window rule, and a firing is
   announced at most once and never while flapping.
   */
  lemma {:induction false} EveryRunKeeps(steps: seq<Step>, w: World, clock: int)
    requires Reaches(steps, w, clock)
    ensures Inv(w, clock)
  {
    if steps == [] {
      assert forall fp :: Turns([], fp) == [];
    } else {
      assert Arrives(steps, w, clock);
      var w0, clock0 :|
        && Reaches(steps[..|steps| - 1], w0, clock0)
        && Possible(w0, clock0, steps[|steps| - 1])
        && w == After(w0, clock0, steps[|steps| - 1])
        && clock == Clock(clock0, steps[|steps| - 1]);
      EveryRunKeeps(steps[..|steps| - 1], w0, clock0);
      match steps[|steps| - 1]
      case Evaluate(fps, now, silenced, order) => EvaluationSettles(w0, clock0, fps, now, silenced, order);
      case Acknowledge(id) =>
        if w != w0 {
          MarkKeepsInv(w0, clock0, id, Acknowledged);
        }
      case Unacknowledge(id) =>
        if w != w0 {
          MarkKeepsInv(w0, clock0, id, Firing);
        }
    }
  }

  /** Successive instances of one series, each fired within the window of the last one's end. */
  predicate Chain(instances: seq<Instance>, chain: seq<nat>) {
    && Below(chain, |instances|)
    && forall k :: 0 < k < |chain| ==>
         && LastOf(instances[..chain[k]], instances[chain[k]].fp) == Some(chain[k - 1])
         && instances[chain[k]].firedAt - instances[chain[k - 1]].resolvedAt <= FLAP_WINDOW
  }

  lemma {:induction false} ChainCountsUp(instances: seq<Instance>, chain: seq<nat>, k: nat)
    requires FlapsCounted(instances) && Chain(instances, chain) && k < |chain|
    ensures instances[chain[k]].flapCount == instances[chain[0]].flapCount + k
  {
    if k > 0 {
      ChainCountsUp(instances, chain, k - 1);
      assert FlapRule(instances, chain[k]);
    }
  }

  /**
   However long a chain of re-fires, in any run, at most FLAP_THRESHOLD of its
   firings are announced: the first ones.
   */
  lemma ChainIsAnnouncedAtMostThrice(steps: seq<Step>, w: World, clock: int, chain: seq<nat>)
    requires Reaches(steps, w, clock) && Chain(w.instances, chain)
    ensures forall k :: FLAP_THRESHOLD <= k < |chain| ==> chain[k] !in FiredIds(w.notices)
    ensures |Elems(FiredIds(w.notices)) * Elems(chain)| <= FLAP_THRESHOLD
    ensures forall i, j :: 0 <= i < j < |FiredIds(w.notices)| ==> FiredIds(w.notices)[i] != FiredIds(w.notices)[j]
  {
    EveryRunKeeps(steps, w, clock);
    var ids := FiredIds(w.notices);
    forall k | FLAP_THRESHOLD <= k < |chain|
      ensures chain[k] !in ids
    {
      ChainCountsUp(w.instances, chain, k);
    }
    OnlyTheFirst(ids, chain);
  }

  lemma OnlyTheFirst(ids: seq<nat>, chain: seq<nat>)
    requires forall k :: FLAP_THRESHOLD <= k < |chain| ==> chain[k] !in ids
    ensures |Elems(ids) * Elems(chain)| <= FLAP_THRESHOLD
  {
    var told := Elems(ids) * Elems(chain);
    var first := if |chain| <= FLAP_THRESHOLD then chain else chain[..FLAP_THRESHOLD];
    forall id | id in told
      ensures id in first
    {
      var k :| 0 <= k < |chain| && chain[k] == id;
      assert first[k] == id;
    }
    var firsts := Elems(first);
    SetOfSeqSize(first);
    SubsetSize(told, firsts);
    assert |told| <= |firsts| <= |first| <= FLAP_THRESHOLD;
  }

  function Elems<T>(s: seq<T>): set<T> {
    set x | x in s
  }

  lemma {:induction false} SetOfSeqSize<T>(s: seq<T>)
    ensures |Elems(s)| <= |s|
  {
    if s == [] {
      assert Elems(s) == {};
    } else {
      var n := |s| - 1;
      SetOfSeqSize(s[..n]);
      assert s == s[..n] + [s[n]];
      assert Elems(s) == Elems(s[..n]) + {s[n]};
    }
  }

  /**
   Flapping quiets firings only: in any run an instance in a flapping chain was
   never announced as fired, yet its end still is, unless silenced.
   */
  lemma FlappingEndIsAnnounced(steps: seq<Step>, w: World, clock: int, id: nat, now: int, silenced: set<string>)
    requires Reaches(steps, w, clock) && id < |w.instances| && w.instances[id].flapCount >= FLAP_THRESHOLD
    ensures id !in FiredIds(w.notices)
    ensures ResolvedNotice(id) in ResolveOne(w, id, now, silenced).notices[|w.notices|..] <==> w.instances[id].fp !in silenced
  {
    EveryRunKeeps(steps, w, clock);
    var ids := FiredIds(w.notices);
    forall i | 0 <= i < |ids|
      ensures ids[i] != id
    {
      assert w.instances[ids[i]].flapCount < FLAP_THRESHOLD;
    }
    assert ResolveOne(w, id, now, silenced).notices[|w.notices|..]
        == if w.instances[id].fp in silenced then [] else [ResolvedNotice(id)];
  }

  function Appears(fp: string, now: int): Step { Evaluate([fp], now, {}, []) }

  function Leaves(id: nat, now: int): Step { Evaluate([], now, {}, [id]) }

  /** A series that appears and disappears again, so many times. */
  function Bounces(fp: string, n: nat): seq<Step> {
    if n == 0 then []
    else Bounces(fp, n - 1) + [Appears(fp, 2 * n - 1)] + [Leaves(n - 1, 2 * n)]
  }

  /** One coming and going, with so many flaps before it: its end is announced, its firing while few. */
  function WithBounce(w: World, fp: string, now: int, flaps: nat): World {
    var id, quiet := |w.instances|, flaps >= FLAP_THRESHOLD;
    World(
      w.instances + [Instance(fp, Resolved, now, now + 1, flaps)],
      w.events + [Event(if quiet then FlapStartEvent else FiredEvent, id, fp)] + [Event(ResolvedEvent, id, fp)],
      w.notices + (if quiet then [] else [FiredNotice(id)]) + [ResolvedNotice(id)])
  }

  /** The traces such a series leaves. */
  function Bounced(fp: string, n: nat): World {
    if n == 0 then START else WithBounce(Bounced(fp, n - 1), fp, 2 * n - 1, n - 1)
  }

  lemma {:induction false} BouncedInstances(fp: string, n: nat)
    ensures |Bounced(fp, n).instances| == n
    ensures forall i :: 0 <= i < n ==> Bounced(fp, n).instances[i] == Instance(fp, Resolved, 2 * i + 1, 2 * i + 2, i)
  {
    if n > 0 {
      BouncedInstances(fp, n - 1);
    }
  }

  lemma NoticesOfBounce(w: World, fp: string, now: int, flaps: nat, notice: Notice)
    ensures notice in WithBounce(w, fp, now, flaps).notices
       <==> || notice in w.notices
            || (notice == FiredNotice(|w.instances|) && flaps < FLAP_THRESHOLD)
            || notice == ResolvedNotice(|w.instances|)
  {
  }

  lemma {:induction false} NoticesOfOne(fp: string, n: nat, i: nat)
    ensures ResolvedNotice(i) in Bounced(fp, n).notices <==> i < n
    ensures FiredNotice(i) in Bounced(fp, n).notices <==> i < n && i < FLAP_THRESHOLD
  {
    if n > 0 {
      var w := Bounced(fp, n - 1);
      BouncedInstances(fp, n - 1);
      NoticesOfOne(fp, n - 1, i);
      NoticesOfBounce(w, fp, 2 * n - 1, n - 1, ResolvedNotice(i));
      NoticesOfBounce(w, fp, 2 * n - 1, n - 1, FiredNotice(i));
    }
  }

  lemma BouncedNotices(fp: string, n: nat)
    ensures forall i: nat :: ResolvedNotice(i) in Bounced(fp, n).notices <==> i < n
    ensures forall i: nat :: FiredNotice(i) in Bounced(fp, n).notices <==> i < n && i < FLAP_THRESHOLD
  {
    forall i: nat
      ensures ResolvedNotice(i) in Bounced(fp, n).notices <==> i < n
      ensures FiredNotice(i) in Bounced(fp, n).notices <==> i < n && i < FLAP_THRESHOLD
    {
      NoticesOfOne(fp, n, i);
    }
  }

  lemma {:induction false} RecentIsNoLater(instances: seq<Instance>, fp: string, since: int, latest: int)
    requires forall i :: 0 <= i < |instances| ==> instances[i].resolvedAt <= latest
    ensures var recent := RecentResolved(instances, fp, since); recent.Some? ==> recent.value.resolvedAt <= latest
  {
    if instances != [] {
      RecentIsNoLater(instances[..|instances| - 1], fp, since, latest);
    }
  }

  lemma FlapsOfBounced(fp: string, n: nat)
    ensures FlapCount(Bounced(fp, n).instances, fp, 2 * n + 1) == n
  {
    if n > 0 {
      var instances := Bounced(fp, n).instances;
      BouncedInstances(fp, n);
      RecentIsNoLater(instances[..n - 1], fp, 2 * n + 1 - FLAP_WINDOW, 2 * n);
      assert instances[n - 1].resolvedAt == 2 * n;
    }
  }

  lemma ReachesOneMore(steps: seq<Step>, w: World, clock: int, step: Step)
    requires Reaches(steps, w, clock) && Possible(w, clock, step)
    ensures Reaches(steps + [step], After(w, clock, step), Clock(clock, step))
  {
    assert (steps + [step])[..|steps|] == steps;
  }

  lemma UpAndDown(w: World, fp: string, now: int, flaps: nat)
    requires FlapCount(w.instances, fp, now) == flaps
    ensures var up, state := FireOne(w, fp, now, {}), if flaps >= FLAP_THRESHOLD then Flapping else Firing;
            && up.instances == w.instances + [Instance(fp, state, now, 0, flaps)]
            && ResolveOne(up, |w.instances|, now + 1, {}) == WithBounce(w, fp, now, flaps)
  {
    var up, id := FireOne(w, fp, now, {}), |w.instances|;
    assert up.instances[id].fp == fp;
    var ended := up.instances[id].(state := Resolved, resolvedAt := now + 1);
    assert ended == Instance(fp, Resolved, now, now + 1, flaps);
    assert up.instances[id := ended] == w.instances + [ended];
  }

  lemma AppearingFires(w: World, fp: string, now: int)
    requires forall i :: 0 <= i < |w.instances| ==> !w.instances[i].Live()
    ensures Walks([], Gone(w.instances, [fp])) && fp !in LiveFps(w.instances)
    ensures Evaluated(w, [fp], now, {}, []) == FireOne(w, fp, now, {})
  {
    var live := LiveFps(w.instances);
    assert [fp][..0] == [] && NewOnes(live, []) == [];
    assert NewOnes(live, [fp]) == [fp];
    FireAllOneMore(w, [], fp, now, {});
    assert [] + [fp] == [fp];
  }

  lemma OneIsGone(instances: seq<Instance>, id: nat)
    requires id < |instances| && instances[id].Live()
    requires forall i :: 0 <= i < |instances| && i != id ==> !instances[i].Live()
    ensures Walks([id], Gone(instances, []))
  {
    assert Gone(instances, []) == {id};
  }

  lemma LeavingResolves(w: World, id: nat, now: int)
    requires id < |w.instances| && w.instances[id].Live()
    requires forall i :: 0 <= i < |w.instances| && i != id ==> !w.instances[i].Live()
    ensures Walks([id], Gone(w.instances, []))
    ensures Evaluated(w, [], now, {}, [id]) == ResolveOne(w, id, now, {})
  {
    OneIsGone(w.instances, id);
    assert NewOnes(LiveFps(w.instances), []) == [];
    ResolveAllOneMore(w, [], id, now, {});
    assert [] + [id] == [id];
  }

  lemma AppearingIsReached(steps: seq<Step>, w: World, clock: int, fp: string)
    requires Reaches(steps, w, clock) && forall i :: 0 <= i < |w.instances| ==> !w.instances[i].Live()
    ensures Reaches(steps + [Appears(fp, clock + 1)], FireOne(w, fp, clock + 1, {}), clock + 1)
  {
    AppearingFires(w, fp, clock + 1);
    ReachesOneMore(steps, w, clock, Appears(fp, clock + 1));
  }

  lemma LeavingIsReached(steps: seq<Step>, w: World, clock: int, id: nat)
    requires Reaches(steps, w, clock) && id < |w.instances| && w.instances[id].Live()
    requires forall i :: 0 <= i < |w.instances| && i != id ==> !w.instances[i].Live()
    ensures Reaches(steps + [Leaves(id, clock + 1)], ResolveOne(w, id, clock + 1, {}), clock + 1)
  {
    LeavingResolves(w, id, clock + 1);
    ReachesOneMore(steps, w, clock, Leaves(id, clock + 1));
  }

  predicate AllEnded(instances: seq<Instance>) {
    forall i :: 0 <= i < |instances| ==> !instances[i].Live()
  }

  /** While nothing is live a series can come and go. */
  lemma OneBounceMore(before: seq<Step>, w: World, clock: int, fp: string, flaps: nat, after: seq<Step>, end: World)
    requires Reaches(before, w, clock) && AllEnded(w.instances) && FlapCount(w.instances, fp, clock + 1) == flaps
    requires after == before + [Appears(fp, clock + 1)] + [Leaves(|w.instances|, clock + 2)]
    requires end == WithBounce(w, fp, clock + 1, flaps)
    ensures Reaches(after, end, clock + 2)
  {
    var up, id := FireOne(w, fp, clock + 1, {}), |w.instances|;
    UpAndDown(w, fp, clock + 1, flaps);
    assert forall i :: 0 <= i < id ==> up.instances[i] == w.instances[i];
    BounceIsReached(before, w, up, fp, clock, id, after, end, clock + 2);
  }

  lemma BouncedEnded(fp: string, n: nat, w: World)
    requires n > 0 && w == Bounced(fp, n - 1)
    ensures |w.instances| == n - 1 && AllEnded(w.instances) && FlapCount(w.instances, fp, 2 * n - 1) == n - 1
  {
    BouncedInstances(fp, n - 1);
    FlapsOfBounced(fp, n - 1);
  }

  lemma BouncedStep(fp: string, n: nat, w: World)
    requires n > 0 && w == Bounced(fp, n - 1)
    ensures Bounced(fp, n) == WithBounce(w, fp, 2 * n - 1, n - 1)
  {
  }

  lemma BouncesStep(fp: string, n: nat, before: seq<Step>)
    requires n > 0 && before == Bounces(fp, n - 1)
    ensures Bounces(fp, n) == before + [Appears(fp, 2 * n - 2 + 1)] + [Leaves(n - 1, 2 * n - 2 + 2)]
  {
  }

  /** In the evaluator's own runs such a series has every end announced, and three firings. */
  lemma {:induction false} BouncingIsReached(fp: string, n: nat)
    ensures Reaches(Bounces(fp, n), Bounced(fp, n), 2 * n)
  {
    if n > 0 {
      var before, w := Bounces(fp, n - 1), Bounced(fp, n - 1);
      BouncingIsReached(fp, n - 1);
      BouncedEnded(fp, n, w);
      BouncedStep(fp, n, w);
      BouncesStep(fp, n, before);
      OneBounceMore(before, w, 2 * n - 2, fp, n - 1, Bounces(fp, n), Bounced(fp, n));
    }
  }

  lemma BounceIsReached(before: seq<Step>, w: World, up: World, fp: string, clock: int, id: nat,
      after: seq<Step>, end: World, time: int)
    requires Reaches(before, w, clock) && up == FireOne(w, fp, clock + 1, {})
    requires forall i :: 0 <= i < |w.instances| ==> !w.instances[i].Live()
    requires id < |up.instances| && up.instances[id].Live()
    requires forall i :: 0 <= i < |up.instances| && i != id ==> !up.instances[i].Live()
    requires time == clock + 2 && end == ResolveOne(up, id, time, {})
    requires after == before + [Appears(fp, clock + 1)] + [Leaves(id, time)]
    ensures Reaches(after, end, time)
  {
    AppearingIsReached(before, w, clock, fp);
    var raised := before + [Appears(fp, clock + 1)];
    assert Reaches(raised, up, clock + 1);
    LeavingIsReached(raised, up, clock + 1, id);
  }

  /** So the documentation's promise fails from the fourth bounce on: a flapping alert announces its end. */
  lemma FlappingIsNotQuiet(fp: string, n: nat)
    requires n > FLAP_THRESHOLD
    ensures var w := Bounced(fp, n);
            && Reaches(Bounces(fp, n), w, 2 * n)
            && |w.instances| == n && w.instances[n - 1].flapCount >= FLAP_THRESHOLD
            && FiredNotice(n - 1) !in w.notices && ResolvedNotice(n - 1) in w.notices
  {
    BouncingIsReached(fp, n);
    BouncedInstances(fp, n);
    BouncedNotices(fp, n);
  }

  // ------------------------------------------------------------ the evaluator

  datatype Series = Series(labels: map<string, string>)

  function Fps(series: seq<Series>, fingerprint: map<string, string> -> string): seq<string> {
    seq(|series|, i requires 0 <= i < |series| => fingerprint(series[i].labels))
  }

  class Evaluator {
    /** Hashes a series' labels; alert identity. */
    const fingerprint: map<string, string> -> string
    var instances: seq<Instance>
    var events: seq<Event>
    var notices: seq<Notice>

    ghost function Abstract(): World
      reads this
    {
      World(instances, events, notices)
    }

    constructor (fingerprint: map<string, string> -> string)
      ensures Abstract() == START && this.fingerprint == fingerprint
    {
      this.fingerprint := fingerprint;
      instances, events, notices := [], [], [];
    }

    /** The live instance of each series. */
    method LiveByFp() returns (live: map<string, nat>)
      requires OneLive(instances)
      ensures live.Keys == LiveFps(instances)
      ensures forall fp :: fp in live ==> live[fp] < |instances| && instances[live[fp]].Live() && instances[live[fp]].fp == fp
      ensures forall i :: 0 <= i < |instances| && instances[i].Live() ==> instances[i].fp in live && live[instances[i].fp] == i
    {
      live := map[];
      for i := 0 to |instances|
        invariant forall fp :: fp in live ==> live[fp] < i && instances[live[fp]].Live() && instances[live[fp]].fp == fp
        invariant forall j :: 0 <= j < i && instances[j].Live() ==> instances[j].fp in live && live[instances[j].fp] == j
      {
        if instances[i].Live() {
          live := live[instances[i].fp := i];
        }
      }
      forall fp
        ensures fp in live <==> fp in LiveFps(instances)
      {
        if fp in live {
          LiveIsListed(instances, live[fp]);
        }
      }
    }

    method Newest(fp: string, since: int) returns (found: Option<Instance>)
      ensures found == RecentResolved(instances, fp, since)
    {
      found := None;
      for i := 0 to |instances|
        invariant found == RecentResolved(instances[..i], fp, since)
      {
        var inst := instances[i];
        assert instances[..i + 1][..i] == instances[..i];
        if inst.fp == fp && inst.state == Resolved && inst.resolvedAt >= since {
          if found.None? || inst.resolvedAt >= found.value.resolvedAt {
            found := Some(inst);
          }
        }
      }
      assert instances[..|instances|] == instances;
    }

    method Notify(notice: Notice, id: nat, silenced: bool)
      requires id < |instances|
      modifies `events, `notices
      ensures var quiet := instances[id].state == Flapping && notice.FiredNotice?;
              && events == old(events) + (if !quiet && silenced then [Event(SilencedEvent, id, instances[id].fp)] else [])
              && notices == old(notices) + (if quiet || silenced then [] else [notice])
    {
      if instances[id].state == Flapping && notice.FiredNotice? {
        return;
      }
      if silenced {
        events := events + [Event(SilencedEvent, id, instances[id].fp)];
        return;
      }
      notices := notices + [notice];
    }

    method Fire(fp: string, now: int, silenced: set<string>)
      modifies this
      ensures Abstract() == FireOne(old(Abstract()), fp, now, silenced)
    {
      var flaps := 0;
      var prev := Newest(fp, now - FLAP_WINDOW);
      if prev.Some? {
        flaps := prev.value.flapCount + 1;
      }
      var id := |instances|;
      var kind := FiredEvent;
      instances := instances + [Instance(fp, Firing, now, 0, flaps)];
      if flaps >= FLAP_THRESHOLD {
        instances := instances[id := instances[id].(state := Flapping)];
        kind := FlapStartEvent;
      }
      events := events + [Event(kind, id, fp)];
      Notify(FiredNotice(id), id, fp in silenced);
    }

    method Resolve(id: nat, now: int, silenced: set<string>)
      requires id < |instances|
      modifies this
      ensures Abstract() == ResolveOne(old(Abstract()), id, now, silenced)
    {
      instances := instances[id := instances[id].(state := Resolved, resolvedAt := now)];
      events := events + [Event(ResolvedEvent, id, instances[id].fp)];
      Notify(ResolvedNotice(id), id, instances[id].fp in silenced);
    }

    /** Fire what is new, once each; then resolve what no longer matches, in any order. */
    method EvalRule(series: seq<Series>, now: int, silenced: set<string>) returns (ghost order: seq<nat>)
      requires OneLive(instances)
      modifies this
      ensures var w := old(Abstract());
              var fps := Fps(series, fingerprint);
              && Walks(order, Gone(w.instances, fps)) && Below(order, |w.instances|)
              && Abstract() == Evaluated(w, fps, now, silenced, order)
    {
      var live := LiveByFp();
      ghost var fps := Fps(series, fingerprint);
      var matched := FireNew(live, series, now, silenced);
      FireAllGrows(old(Abstract()), NewOnes(live.Keys, fps), now, silenced);
      ghost var walked;
      order, walked := ResolveUnmatched(live, matched, now, silenced);
      GoneIsUnmatched(old(instances), live, fps, order, walked);
    }

    method FireNew(live: map<string, nat>, series: seq<Series>, now: int, silenced: set<string>) returns (matched: set<string>)
      modifies this
      ensures Abstract() == FireAll(old(Abstract()), NewOnes(live.Keys, Fps(series, fingerprint)), now, silenced)
      ensures forall fp :: fp in matched <==> fp in Fps(series, fingerprint)
    {
      matched := {};
      ghost var fps := Fps(series, fingerprint);
      for i := 0 to |series|
        invariant Abstract() == FireAll(old(Abstract()), NewOnes(live.Keys, fps[..i]), now, silenced)
        invariant forall fp :: fp in matched <==> fp in fps[..i]
      {
        var fp := fingerprint(series[i].labels);
        assert fps[..i + 1] == fps[..i] + [fp];
        assert fps[..i + 1][..i] == fps[..i];
        if fp in matched {
          continue;
        }
        matched := matched + {fp};
        if fp in live {
          continue;
        }
        FireAllOneMore(old(Abstract()), NewOnes(live.Keys, fps[..i]), fp, now, silenced);
        Fire(fp, now, silenced);
      }
      assert fps[..|fps|] == fps;
    }

    method ResolveUnmatched(live: map<string, nat>, matched: set<string>, now: int, silenced: set<string>)
      returns (ghost order: seq<nat>, ghost walked: seq<string>)
      requires forall fp :: fp in live ==> live[fp] < |instances|
      modifies this
      ensures Below(order, |old(instances)|)
      ensures Walked(order, walked, live) && forall fp :: fp in walked <==> fp in live && fp !in matched
      ensures Abstract() == ResolveAll(old(Abstract()), order, now, silenced)
    {
      order, walked := [], [];
      var rest := live.Keys;
      while rest != {}
        invariant rest <= live.Keys
        invariant Below(order, |old(instances)|)
        invariant Walked(order, walked, live)
        invariant forall fp :: fp in walked <==> fp in live && fp !in rest && fp !in matched
        invariant Abstract() == ResolveAll(old(Abstract()), order, now, silenced)
      {
        var fp :| fp in rest;
        rest := rest - {fp};
        if fp !in matched {
          ResolveAllOneMore(old(Abstract()), order, live[fp], now, silenced);
          Resolve(live[fp], now, silenced);
          order, walked := order + [live[fp]], walked + [fp];
        }
      }
    }
  }

  /** The instances of the series walked, each once. */
  ghost predicate Walked(order: seq<nat>, walked: seq<string>, live: map<string, nat>) {
    && |order| == |walked|
    && (forall i :: 0 <= i < |order| ==> walked[i] in live && order[i] == live[walked[i]])
    && (forall i, j :: 0 <= i < j < |walked| ==> walked[i] != walked[j])
  }

  lemma ResolveAllOneMore(w: World, ids: seq<nat>, id: nat, now: int, silenced: set<string>)
    requires Below(ids, |w.instances|) && id < |w.instances|
    ensures Below(ids + [id], |w.instances|)
    ensures ResolveAll(w, ids + [id], now, silenced) == ResolveOne(ResolveAll(w, ids, now, silenced), id, now, silenced)
  {
    assert (ids + [id])[..|ids|] == ids;
  }

  lemma FireAllOneMore(w: World, fps: seq<string>, fp: string, now: int, silenced: set<string>)
    ensures FireAll(w, fps + [fp], now, silenced) == FireOne(FireAll(w, fps, now, silenced), fp, now, silenced)
  {
    assert (fps + [fp])[..|fps|] == fps;
  }

  lemma GoneIsUnmatched(instances: seq<Instance>, live: map<string, nat>, fps: seq<string>, order: seq<nat>, walked: seq<string>)
    requires forall fp :: fp in live ==> live[fp] < |instances| && instances[live[fp]].Live() && instances[live[fp]].fp == fp
    requires forall i :: 0 <= i < |instances| && instances[i].Live() ==> instances[i].fp in live && live[instances[i].fp] == i
    requires Walked(order, walked, live) && forall fp :: fp in walked <==> fp in live && fp !in fps
    ensures Walks(order, Gone(instances, fps))
  {
    forall id | id in Gone(instances, fps)
      ensures id in order
    {
      var i :| 0 <= i < |walked| && walked[i] == instances[id].fp;
      assert order[i] == id;
    }
    forall i | 0 <= i < |order|
      ensures order[i] in Gone(instances, fps)
    {
      assert walked[i] in walked;
    }
  }
}
