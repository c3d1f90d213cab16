/** Whole runs of syncs: what becomes of an interface that stops being reported. */
module SyncRuns {
  import opened Common
  import opened SyncDiff

  datatype Sync = Sync(recs: seq<Rec>, newId: nat -> string)

  function Run(rows: seq<Row>, syncs: seq<Sync>): (rows': seq<Row>)
    ensures |rows'| >= |rows|
  {
    if syncs == [] then rows
    else Apply(Run(rows, syncs[..|syncs| - 1]), syncs[|syncs| - 1].recs, syncs[|syncs| - 1].newId)
  }

  ghost predicate FreshRun(rows: seq<Row>, syncs: seq<Sync>) {
    syncs == [] || (
      && FreshRun(rows, syncs[..|syncs| - 1])
      && Fresh(Run(rows, syncs[..|syncs| - 1]), syncs[|syncs| - 1].newId))
  }

  predicate MatchedIn(rows: seq<Row>, recs: seq<Rec>, id: string) {
    id in TakenIds(Resolve(rows, LiveIds(rows), recs))
  }

  /** How many of the latest syncs in a row found no record for this interface. */
  function Absences(rows: seq<Row>, syncs: seq<Sync>, id: string): nat {
    if syncs == [] then 0
    else
      var before := syncs[..|syncs| - 1];
      if MatchedIn(Run(rows, before), syncs[|syncs| - 1].recs, id) then 0 else 1 + Absences(rows, before, id)
  }

  lemma OneSync(rows: seq<Row>, recs: seq<Rec>, newId: nat -> string, k: nat)
    requires DistinctIds(rows) && k < |rows|
    ensures var row := Apply(rows, recs, newId)[k];
            && row.id == rows[k].id
            && (MatchedIn(rows, recs, row.id) ==> rows[k].Live() && row.state == Present && row.missStreak == 0)
            && (!MatchedIn(rows, recs, row.id) ==>
                  (row.state, row.missStreak) ==
                    match rows[k].state
                    case Present => (Missing, 1)
                    case Removed => (Removed, rows[k].missStreak)
                    case Missing => if rows[k].missStreak + 1 >= REMOVE_AFTER_MISSES then (Removed, rows[k].missStreak)
                                    else (Missing, rows[k].missStreak + 1))
  {
    assert Apply(rows, recs, newId)[k] == ApplyRow(rows[k], Diff(rows, recs), recs);
    if MatchedIn(rows, recs, rows[k].id) {
      MatchedRow(rows, recs, k);
    } else {
      UnmatchedRow(rows, recs, k);
    }
  }

  lemma MatchedRow(rows: seq<Row>, recs: seq<Rec>, k: nat)
    requires DistinctIds(rows) && k < |rows| && MatchedIn(rows, recs, rows[k].id)
    ensures var row := ApplyRow(rows[k], Diff(rows, recs), recs);
            rows[k].Live() && row.state == Present && row.missStreak == 0
  {
    var matches := Resolve(rows, LiveIds(rows), recs);
    SameIdSameRow(rows);
    RecOfIsMatch(matches, recs, rows[k].id);
    MatchesAreTakenOnce(rows, LiveIds(rows), recs);
    var i :| 0 <= i < |recs| && matches[i].Some? && matches[i].value.id == rows[k].id;
    assert rows[k] in rows && matches[i].value == rows[k];
  }

  lemma UnmatchedRow(rows: seq<Row>, recs: seq<Rec>, k: nat)
    requires DistinctIds(rows) && k < |rows| && !MatchedIn(rows, recs, rows[k].id)
    ensures var row := ApplyRow(rows[k], Diff(rows, recs), recs);
            (row.state, row.missStreak) ==
              match rows[k].state
              case Present => (Missing, 1)
              case Removed => (Removed, rows[k].missStreak)
              case Missing => if rows[k].missStreak + 1 >= REMOVE_AFTER_MISSES then (Removed, rows[k].missStreak)
                              else (Missing, rows[k].missStreak + 1)
  {
    var d := Diff(rows, recs);
    var id := rows[k].id;
    SameIdSameRow(rows);
    RecOfIsMatch(d.matches, recs, id);
    MatchesAreTakenOnce(rows, LiveIds(rows), recs);
    assert RecOf(d.matches, recs, id).None?;
    assert rows[k] in rows;
    assert rows[k].Live() <==> id in LiveIds(rows);
    assert rows[k].Live() <==> id in LeftOver(rows, LiveIds(rows), recs);
  }

  /**
   Over any run of syncs, an interface that started present is present exactly
   when the last sync reported it, missing with its streak counting the syncs
   since while there are fewer than three, and removed, for good, from the
   third on.
   */
  lemma {:induction false} LifecycleCountsAbsences(rows: seq<Row>, syncs: seq<Sync>, k: nat)
    requires DistinctIds(rows) && FreshRun(rows, syncs) && k < |rows|
    requires rows[k].state == Present && rows[k].missStreak == 0
    ensures DistinctIds(Run(rows, syncs))
    ensures var row := Run(rows, syncs)[k];
            var absences := Absences(rows, syncs, rows[k].id);
            && row.id == rows[k].id
            && (row.state == Present <==> absences == 0)
            && (row.state == Missing <==> 0 < absences < REMOVE_AFTER_MISSES)
            && (row.Live() ==> row.missStreak == absences)
  {
    if syncs != [] {
      var before, last := syncs[..|syncs| - 1], syncs[|syncs| - 1];
      LifecycleCountsAbsences(rows, before, k);
      var mid := Run(rows, before);
      OneSync(mid, last.recs, last.newId, k);
      ApplyKeepsIdsDistinct(mid, last.recs, last.newId);
    }
  }
}
