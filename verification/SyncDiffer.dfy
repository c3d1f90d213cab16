/** The differ itself: index maps, records resolved in order, absences classified. */
module SyncDiffer {
  import opened Common
  import opened SyncDiff

  function Lookup<K>(m: map<K, Row>, key: K): Option<Row> {
    if key in m then Some(m[key]) else None
  }

  ghost predicate IndexesPairs(byPair: map<Label, Row>, rows: seq<Row>) {
    forall pair :: Lookup(byPair, pair) == FindPair(rows, pair)
  }

  ghost predicate IndexesNames(byName: map<string, Row>, rows: seq<Row>) {
    forall name :: name != "" ==> Lookup(byName, name) == FindName(rows, name)
  }

  ghost predicate IndexesPhys(byPhys: map<Hardware, Row>, rows: seq<Row>) {
    forall phys, ifType {:trigger FindPhys(rows, phys, ifType)} ::
      phys != "" ==> Lookup(byPhys, Hardware(Lower(phys), ifType)) == FindPhys(rows, phys, ifType)
  }

  /** The rows not yet taken, by id. */
  ghost predicate IndexesLive(unmatched: map<string, Row>, rows: seq<Row>, left: set<string>) {
    && unmatched.Keys == left
    && forall id :: id in unmatched ==> unmatched[id] in rows && unmatched[id].Live() && unmatched[id].id == id
  }

  method BuildIndexes(rows: seq<Row>)
    returns (unmatched: map<string, Row>, byPair: map<Label, Row>, byName: map<string, Row>,
             byPhys: map<Hardware, Row>)
    ensures IndexesLive(unmatched, rows, LiveIds(rows))
    ensures IndexesPairs(byPair, rows) && IndexesNames(byName, rows) && IndexesPhys(byPhys, rows)
  {
    unmatched, byPair, byName, byPhys := map[], map[], map[], map[];
    var i := 0;
    while i < |rows|
      invariant 0 <= i <= |rows|
      invariant IndexesLive(unmatched, rows[..i], LiveIds(rows[..i]))
      invariant IndexesPairs(byPair, rows[..i]) && IndexesNames(byName, rows[..i]) && IndexesPhys(byPhys, rows[..i])
    {
      var row := rows[i];
      assert rows[..i + 1][..i] == rows[..i];
      assert LiveIds(rows[..i + 1]) == LiveIds(rows[..i]) + (if row.Live() then {row.id} else {}) by {
        assert rows[..i + 1] == rows[..i] + [row];
      }
      if row.Live() {
        unmatched := unmatched[row.id := row];
        byPair := byPair[row.Pair() := row];
        if row.name != "" {
          byName := byName[row.name := row];
        }
        if row.traits.phys != "" {
          byPhys := byPhys[Hardware(Lower(row.traits.phys), row.traits.ifType) := row];
        }
      }
      i := i + 1;
    }
    assert rows[..|rows|] == rows;
  }

  method Match(rec: Rec, unmatched: map<string, Row>, byPair: map<Label, Row>, byName: map<string, Row>,
      byPhys: map<Hardware, Row>, ghost rows: seq<Row>)
    returns (m: Option<Row>)
    requires IndexesPairs(byPair, rows) && IndexesNames(byName, rows) && IndexesPhys(byPhys, rows)
    ensures m == MatchOf(rows, unmatched.Keys, rec)
  {
    if rec.Pair() in byPair && byPair[rec.Pair()].id in unmatched {
      return Some(byPair[rec.Pair()]);
    }
    if rec.name != "" {
      if rec.name in byName && byName[rec.name].id in unmatched {
        return Some(byName[rec.name]);
      }
    }
    if rec.traits.phys != "" {
      var key := Hardware(Lower(rec.traits.phys), rec.traits.ifType);
      if key in byPhys && byPhys[key].id in unmatched {
        return Some(byPhys[key]);
      }
    }
    return None;
  }

  lemma {:induction false} ResolveOneMore(rows: seq<Row>, unmatched: set<string>, recs: seq<Rec>, rec: Rec)
    ensures var left := LeftOver(rows, unmatched, recs);
            var m := MatchOf(rows, left, rec);
            && Resolve(rows, unmatched, recs + [rec]) == Resolve(rows, unmatched, recs) + [m]
            && LeftOver(rows, unmatched, recs + [rec]) == Taken(left, m)
    decreases |recs|
  {
    if recs != [] {
      ResolveOneMore(rows, Taken(unmatched, MatchOf(rows, unmatched, recs[0])), recs[1..], rec);
      assert (recs + [rec])[1..] == recs[1..] + [rec];
    } else {
      assert (recs + [rec])[1..] == [];
    }
  }

  lemma ChangesOneMore(matches: seq<Option<Row>>, recs: seq<Rec>, m: Option<Row>, rec: Rec)
    requires |matches| == |recs|
    ensures AllChanges(matches + [m], recs + [rec]) == AllChanges(matches, recs) + ChangesFor(m, rec)
  {
    assert (matches + [m])[..|recs|] == matches && (recs + [rec])[..|recs|] == recs;
  }

  /** Keep the changes that hold, walking the table of compared fields. */
  method Differing(compared: seq<Candidate>) returns (changes: seq<Change>)
    ensures changes == Holding(compared)
  {
    changes := [];
    for i := 0 to |compared|
      invariant changes == Holding(compared[..i])
    {
      assert compared[..i + 1][..i] == compared[..i];
      if compared[i].differs {
        changes := changes + [compared[i].change];
      }
    }
    assert compared[..|compared|] == compared;
  }

  method Describe(m: Option<Row>, rec: Rec) returns (changes: seq<Change>)
    ensures changes == ChangesFor(m, rec)
  {
    if m.None? {
      return [Created(rec.ifIndex, rec.name)];
    }
    changes := Differing(Compared(m.value, rec));
  }

  ghost predicate Reconciled(rows: seq<Row>, recs: seq<Rec>, matches: seq<Option<Row>>, changes: seq<Change>,
      unmatched: map<string, Row>) {
    && matches == Resolve(rows, LiveIds(rows), recs)
    && changes == AllChanges(matches, recs)
    && IndexesLive(unmatched, rows, LeftOver(rows, LiveIds(rows), recs))
  }

  lemma ReconcileOneMore(rows: seq<Row>, recs: seq<Rec>, matches: seq<Option<Row>>, changes: seq<Change>,
      unmatched: map<string, Row>, m: Option<Row>, rec: Rec)
    requires Reconciled(rows, recs, matches, changes, unmatched) && m == MatchOf(rows, unmatched.Keys, rec)
    ensures Reconciled(rows, recs + [rec], matches + [m], changes + ChangesFor(m, rec),
                       if m.Some? then unmatched - {m.value.id} else unmatched)
  {
    ResolveOneMore(rows, LiveIds(rows), recs, rec);
    ChangesOneMore(matches, recs, m, rec);
  }

  method ResolveRecords(rows: seq<Row>, recs: seq<Rec>)
    returns (matches: seq<Option<Row>>, changes: seq<Change>, unmatched: map<string, Row>)
    ensures Reconciled(rows, recs, matches, changes, unmatched)
  {
    var byPair, byName, byPhys;
    unmatched, byPair, byName, byPhys := BuildIndexes(rows);
    matches, changes := [], [];
    for i := 0 to |recs|
      invariant Reconciled(rows, recs[..i], matches, changes, unmatched)
    {
      var m := Match(recs[i], unmatched, byPair, byName, byPhys, rows);
      assert recs[..i + 1] == recs[..i] + [recs[i]];
      matches, changes, unmatched := Reconcile(rows, recs[..i], recs[i], m, matches, changes, unmatched);
    }
    assert recs[..|recs|] == recs;
  }

  method Reconcile(ghost rows: seq<Row>, ghost recs: seq<Rec>, rec: Rec, m: Option<Row>, matches: seq<Option<Row>>,
      changes: seq<Change>, unmatched: map<string, Row>)
    returns (matches': seq<Option<Row>>, changes': seq<Change>, unmatched': map<string, Row>)
    requires Reconciled(rows, recs, matches, changes, unmatched) && m == MatchOf(rows, unmatched.Keys, rec)
    ensures Reconciled(rows, recs + [rec], matches', changes', unmatched')
  {
    ReconcileOneMore(rows, recs, matches, changes, unmatched, m, rec);
    var more := Describe(m, rec);
    matches', changes', unmatched' := matches + [m], changes + more, unmatched;
    if m.Some? {
      unmatched' := unmatched - {m.value.id};
    }
  }

  /** Resolve the records in order, then classify what is left in any order. */
  method DiffInterfaces(rows: seq<Row>, recs: seq<Rec>) returns (d: Outcome)
    requires DistinctIds(rows)
    ensures d == Diff(rows, recs)
  {
    var matches, changes, unmatched := ResolveRecords(rows, recs);
    var missing, streak, removed := ClassifyAbsent(rows, unmatched);
    d := Outcome(matches, changes, missing, streak, removed);
  }

  method ClassifyAbsent(ghost rows: seq<Row>, unmatched: map<string, Row>)
    returns (missing: set<string>, streak: set<string>, removed: set<string>)
    requires DistinctIds(rows) && IndexesLive(unmatched, rows, unmatched.Keys)
    ensures missing == NewlyMissing(rows, unmatched.Keys)
    ensures streak == StillMissing(rows, unmatched.Keys)
    ensures removed == NewlyRemoved(rows, unmatched.Keys)
  {
    missing, streak, removed := {}, {}, {};
    var rest := unmatched.Keys;
    SameIdSameRow(rows);
    while rest != {}
      invariant rest <= unmatched.Keys
      invariant missing == NewlyMissing(rows, unmatched.Keys - rest)
      invariant streak == StillMissing(rows, unmatched.Keys - rest)
      invariant removed == NewlyRemoved(rows, unmatched.Keys - rest)
    {
      var id :| id in rest;
      var row := unmatched[id];
      if row.state == Present {
        missing := missing + {id};
      } else if row.missStreak + 1 >= REMOVE_AFTER_MISSES {
        removed := removed + {id};
      } else {
        streak := streak + {id};
      }
      rest := rest - {id};
    }
  }
}
