/**
 Inventory reconciliation: which stored interface each reported one is, what
 changed, and what its absence means for the others.

 A stored row is live until it is removed. Reported records are resolved in
 order against the live rows not yet taken: by index and name, then by name,
 then by hardware address and type.
 */
module SyncDiff {
  import opened Common

  const REMOVE_AFTER_MISSES: nat := 3

  datatype Lifecycle = Present | Missing | Removed

  /** What the device reports about an interface besides its index and name. */
  datatype Traits = Traits(alias: string, descr: string, ifType: int, mtu: int, speed: int, phys: string, admin: int, oper: int)

  /** What identifies an interface best, and what identifies it last. */
  datatype Label = Label(ifIndex: int, name: string)

  datatype Hardware = Hardware(phys: string, ifType: int)

  datatype Row = Row(id: string, ifIndex: int, name: string, traits: Traits, state: Lifecycle, missStreak: nat) {
    predicate Live() {
      state != Removed
    }

    function Pair(): Label {
      Label(ifIndex, name)
    }
  }

  datatype Rec = Rec(ifIndex: int, name: string, traits: Traits) {
    function Pair(): Label {
      Label(ifIndex, name)
    }
  }

  datatype Change =
    | Created(ifIndex: int, name: string)
    | Restored(id: string)
    | Reindexed(id: string, before: int, after: int)
    | Renamed(id: string, was: string, now: string)
    | Realiased(id: string, was: string, now: string)
    | Respeeded(id: string, before: int, after: int)
    | Resized(id: string, before: int, after: int)

  // ------------------------------------------------------ identity resolution

  function LowerChar(c: char): char {
    if 'A' <= c <= 'Z' then c - 'A' + 'a' else c
  }

  function Lower(s: string): string {
    seq(|s|, i requires 0 <= i < |s| => LowerChar(s[i]))
  }

  /** The last live row with this index and name. */
  function FindPair(rows: seq<Row>, pair: Label): Option<Row> {
    if rows == [] then None
    else if rows[|rows| - 1].Live() && rows[|rows| - 1].Pair() == pair then Some(rows[|rows| - 1])
    else FindPair(rows[..|rows| - 1], pair)
  }

  /** The last live row with this name; an empty name identifies nothing. */
  function FindName(rows: seq<Row>, name: string): Option<Row> {
    if rows == [] || name == "" then None
    else if rows[|rows| - 1].Live() && rows[|rows| - 1].name == name then Some(rows[|rows| - 1])
    else FindName(rows[..|rows| - 1], name)
  }

  /** The last live row with this hardware address, in any case, and type. */
  function FindPhys(rows: seq<Row>, phys: string, ifType: int): Option<Row> {
    if rows == [] || phys == "" then None
    else
      var row := rows[|rows| - 1];
      if row.Live() && row.traits.phys != "" && Lower(row.traits.phys) == Lower(phys) && row.traits.ifType == ifType
      then Some(row)
      else FindPhys(rows[..|rows| - 1], phys, ifType)
  }

  predicate Free(found: Option<Row>, unmatched: set<string>) {
    found.Some? && found.value.id in unmatched
  }

  function MatchOf(rows: seq<Row>, unmatched: set<string>, rec: Rec): Option<Row> {
    var byPair := FindPair(rows, rec.Pair());
    if Free(byPair, unmatched) then byPair
    else
      var byName := FindName(rows, rec.name);
      if Free(byName, unmatched) then byName
      else
        var byPhys := FindPhys(rows, rec.traits.phys, rec.traits.ifType);
        if Free(byPhys, unmatched) then byPhys else None
  }

  function Taken(unmatched: set<string>, m: Option<Row>): set<string> {
    if m.Some? then unmatched - {m.value.id} else unmatched
  }

  /** For each record, in order, the row it is. */
  function Resolve(rows: seq<Row>, unmatched: set<string>, recs: seq<Rec>): (matches: seq<Option<Row>>)
    ensures |matches| == |recs|
    decreases |recs|
  {
    if recs == [] then []
    else
      var m := MatchOf(rows, unmatched, recs[0]);
      [m] + Resolve(rows, Taken(unmatched, m), recs[1..])
  }

  /** The rows no record turned out to be. */
  function LeftOver(rows: seq<Row>, unmatched: set<string>, recs: seq<Rec>): set<string>
    decreases |recs|
  {
    if recs == [] then unmatched
    else LeftOver(rows, Taken(unmatched, MatchOf(rows, unmatched, recs[0])), recs[1..])
  }

  function LiveIds(rows: seq<Row>): set<string> {
    set r | r in rows && r.Live() :: r.id
  }

  // ------------------------------------------------------------- the outcome

  /** `missing`, `streak` and `removed` split what was left over. */
  datatype Outcome = Outcome(
    matches: seq<Option<Row>>,
    changes: seq<Change>,
    missing: set<string>,
    streak: set<string>,
    removed: set<string>
  )

  /** A change one matched record may report, and whether it does. */
  datatype Candidate = Candidate(differs: bool, change: Change)

  /** Every change one matched record can report, in order. */
  function Compared(row: Row, rec: Rec): seq<Candidate> {
    var was, now := row.traits, rec.traits;
    [Candidate(row.state == Missing, Restored(row.id)),
     Candidate(rec.ifIndex != row.ifIndex, Reindexed(row.id, row.ifIndex, rec.ifIndex)),
     Candidate(rec.name != row.name, Renamed(row.id, row.name, rec.name)),
     Candidate(now.alias != was.alias, Realiased(row.id, was.alias, now.alias)),
     Candidate(now.speed != was.speed, Respeeded(row.id, was.speed, now.speed)),
     Candidate(now.mtu != was.mtu, Resized(row.id, was.mtu, now.mtu))]
  }

  function Holding(compared: seq<Candidate>): seq<Change> {
    if compared == [] then []
    else
      var last := compared[|compared| - 1];
      Holding(compared[..|compared| - 1]) + (if last.differs then [last.change] else [])
  }

  function FieldChanges(row: Row, rec: Rec): seq<Change> {
    Holding(Compared(row, rec))
  }

  function ChangesFor(m: Option<Row>, rec: Rec): seq<Change> {
    if m.None? then [Created(rec.ifIndex, rec.name)] else FieldChanges(m.value, rec)
  }

  function AllChanges(matches: seq<Option<Row>>, recs: seq<Rec>): seq<Change>
    requires |matches| == |recs|
  {
    if recs == [] then []
    else AllChanges(matches[..|recs| - 1], recs[..|recs| - 1]) + ChangesFor(matches[|recs| - 1], recs[|recs| - 1])
  }

  predicate GoesMissing(row: Row) {
    row.state == Present
  }

  predicate GoesRemoved(row: Row) {
    row.state != Present && row.missStreak + 1 >= REMOVE_AFTER_MISSES
  }

  function NewlyMissing(rows: seq<Row>, left: set<string>): set<string> {
    set r | r in rows && r.id in left && r.Live() && GoesMissing(r) :: r.id
  }

  function StillMissing(rows: seq<Row>, left: set<string>): set<string> {
    set r | r in rows && r.id in left && r.Live() && !GoesMissing(r) && !GoesRemoved(r) :: r.id
  }

  function NewlyRemoved(rows: seq<Row>, left: set<string>): set<string> {
    set r | r in rows && r.id in left && r.Live() && GoesRemoved(r) :: r.id
  }

  function Diff(rows: seq<Row>, recs: seq<Rec>): Outcome {
    var left := LeftOver(rows, LiveIds(rows), recs);
    var matches := Resolve(rows, LiveIds(rows), recs);
    Outcome(matches, AllChanges(matches, recs), NewlyMissing(rows, left), StillMissing(rows, left), NewlyRemoved(rows, left))
  }

  predicate DistinctIds(rows: seq<Row>) {
    forall i, j :: 0 <= i < j < |rows| ==> rows[i].id != rows[j].id
  }

  /** No two live rows answer to the same index and name. */
  predicate DistinctPairs(rows: seq<Row>) {
    forall i, j :: 0 <= i < j < |rows| && rows[i].Live() && rows[j].Live() ==> rows[i].Pair() != rows[j].Pair()
  }

  predicate DistinctRecs(recs: seq<Rec>) {
    forall i, j :: 0 <= i < j < |recs| ==> recs[i].Pair() != recs[j].Pair()
  }

  // ------------------------------------------------------- resolution lemmas

  predicate Live(found: Option<Row>, rows: seq<Row>) {
    found.Some? ==> found.value in rows && found.value.Live()
  }

  lemma {:induction false} FoundIsLive(rows: seq<Row>, rec: Rec)
    ensures Live(FindPair(rows, rec.Pair()), rows)
    ensures Live(FindName(rows, rec.name), rows)
    ensures Live(FindPhys(rows, rec.traits.phys, rec.traits.ifType), rows)
  {
    if rows != [] {
      FoundIsLive(rows[..|rows| - 1], rec);
      assert forall r :: r in rows[..|rows| - 1] ==> r in rows;
    }
  }

  function TakenIds(matches: seq<Option<Row>>): set<string> {
    set i | 0 <= i < |matches| && matches[i].Some? :: matches[i].value.id
  }

  predicate MatchedFrom(matches: seq<Option<Row>>, rows: seq<Row>, unmatched: set<string>) {
    forall i :: 0 <= i < |matches| && matches[i].Some?
      ==> matches[i].value in rows && matches[i].value.Live() && matches[i].value.id in unmatched
  }

  predicate MatchedOnce(matches: seq<Option<Row>>) {
    forall i, j :: 0 <= i < j < |matches| && matches[i].Some? && matches[j].Some?
      ==> matches[i].value.id != matches[j].value.id
  }

  /** Every match is a live row that was still free, and is taken once. */
  lemma {:induction false} MatchesAreTakenOnce(rows: seq<Row>, unmatched: set<string>, recs: seq<Rec>)
    ensures MatchedFrom(Resolve(rows, unmatched, recs), rows, unmatched)
    ensures MatchedOnce(Resolve(rows, unmatched, recs))
    ensures LeftOver(rows, unmatched, recs) == unmatched - TakenIds(Resolve(rows, unmatched, recs))
    decreases |recs|
  {
    if recs != [] {
      var m := MatchOf(rows, unmatched, recs[0]);
      FoundIsLive(rows, recs[0]);
      assert m.Some? ==> m.value in rows && m.value.Live() && m.value.id in unmatched;
      var rest := Resolve(rows, Taken(unmatched, m), recs[1..]);
      MatchesAreTakenOnce(rows, Taken(unmatched, m), recs[1..]);
      TakenIdsOfCons(m, rest);
    }
  }

  lemma TakenIdsOfCons(m: Option<Row>, rest: seq<Option<Row>>)
    ensures TakenIds([m] + rest) == TakenIds(rest) + (if m.Some? then {m.value.id} else {})
  {
    var all := [m] + rest;
    forall id | id in TakenIds(rest) + (if m.Some? then {m.value.id} else {})
      ensures id in TakenIds(all)
    {
      if id in TakenIds(rest) {
        var i :| 0 <= i < |rest| && rest[i].Some? && rest[i].value.id == id;
        assert all[i + 1] == rest[i];
      } else {
        assert all[0] == m;
      }
    }
  }

  lemma {:induction false} PairIsFound(rows: seq<Row>, k: nat)
    requires DistinctPairs(rows) && k < |rows| && rows[k].Live()
    ensures FindPair(rows, rows[k].Pair()) == Some(rows[k])
  {
    var n := |rows| - 1;
    if k < n {
      assert rows[..n][k] == rows[k];
      PairIsFound(rows[..n], k);
    }
  }

  /** A row whose index and name are reported is never left over. */
  lemma {:induction false} ReportedPairIsMatched(rows: seq<Row>, unmatched: set<string>, recs: seq<Rec>, k: nat)
    requires DistinctPairs(rows) && k < |rows| && rows[k].Live()
    requires rows[k].id in LeftOver(rows, unmatched, recs)
    ensures rows[k].id in unmatched
    ensures forall i :: 0 <= i < |recs| ==> recs[i].Pair() != rows[k].Pair()
    decreases |recs|
  {
    if recs != [] {
      var m := MatchOf(rows, unmatched, recs[0]);
      ReportedPairIsMatched(rows, Taken(unmatched, m), recs[1..], k);
      if recs[0].Pair() == rows[k].Pair() {
        PairIsFound(rows, k);
      }
      assert forall i :: 0 < i < |recs| ==> recs[i] == recs[1..][i - 1];
    }
  }

  // --------------------------------------------------------- main theorems

  /**
   One upsert per reported interface, in order; and every live interface is
   exactly one of: matched by exactly one record, newly missing, still missing,
   or removed.
   */
  lemma DiffPartitions(rows: seq<Row>, recs: seq<Rec>, k: nat)
    requires DistinctIds(rows) && k < |rows| && rows[k].Live()
    ensures var d := Diff(rows, recs);
            var id := rows[k].id;
            var matched := exists i :: 0 <= i < |recs| && d.matches[i] == Some(rows[k]);
            && |d.matches| == |recs|
            && (forall i, j :: 0 <= i < j < |recs| && d.matches[i].Some? ==> d.matches[i] != d.matches[j])
            && (matched <==> id !in d.missing + d.streak + d.removed)
            && d.missing !! d.streak !! d.removed
            && (id in d.missing ==> rows[k].state == Present)
            && (id in d.streak ==> rows[k].missStreak + 1 < REMOVE_AFTER_MISSES)
            && (id in d.removed ==> rows[k].missStreak + 1 >= REMOVE_AFTER_MISSES && rows[k].state == Missing)
  {
    var d := Diff(rows, recs);
    var id := rows[k].id;
    MatchesAreTakenOnce(rows, LiveIds(rows), recs);
    assert rows[k] in rows && id in LiveIds(rows);
    SameIdSameRow(rows);
    if id !in d.missing + d.streak + d.removed {
      assert id !in LeftOver(rows, LiveIds(rows), recs);
      var i :| 0 <= i < |recs| && d.matches[i].Some? && d.matches[i].value.id == id;
      assert d.matches[i] == Some(rows[k]);
    }
  }

  lemma SameIdSameRow(rows: seq<Row>)
    requires DistinctIds(rows)
    ensures forall a, b :: a in rows && b in rows && a.id == b.id ==> a == b
  {
  }

  // ------------------------------------------------------------- applying it

  /** The record a row was matched by. */
  function RecOf(matches: seq<Option<Row>>, recs: seq<Rec>, id: string): Option<Rec>
    requires |matches| == |recs|
    decreases |recs|
  {
    if recs == [] then None
    else if matches[0].Some? && matches[0].value.id == id then Some(recs[0])
    else RecOf(matches[1..], recs[1..], id)
  }

  function ApplyRow(row: Row, d: Outcome, recs: seq<Rec>): (row': Row)
    requires |d.matches| == |recs|
    ensures row'.id == row.id
  {
    var rec := RecOf(d.matches, recs, row.id);
    if rec.Some? then Row(row.id, rec.value.ifIndex, rec.value.name, rec.value.traits, Present, 0)
    else if row.id in d.missing then row.(state := Missing, missStreak := 1)
    else if row.id in d.streak then row.(missStreak := row.missStreak + 1)
    else if row.id in d.removed then row.(state := Removed)
    else row
  }

  /** New rows for the records that matched nothing; `newId` names them. */
  function Inserted(matches: seq<Option<Row>>, recs: seq<Rec>, newId: nat -> string, n: nat): seq<Row>
    requires |matches| == |recs|
    decreases |recs|
  {
    if recs == [] then []
    else if matches[0].Some? then Inserted(matches[1..], recs[1..], newId, n + 1)
    else [Row(newId(n), recs[0].ifIndex, recs[0].name, recs[0].traits, Present, 0)]
         + Inserted(matches[1..], recs[1..], newId, n + 1)
  }

  function Updated(rows: seq<Row>, d: Outcome, recs: seq<Rec>): (rows': seq<Row>)
    requires |d.matches| == |recs|
    ensures |rows'| == |rows|
    ensures forall i :: 0 <= i < |rows| ==> rows'[i] == ApplyRow(rows[i], d, recs)
  {
    seq(|rows|, i requires 0 <= i < |rows| => ApplyRow(rows[i], d, recs))
  }

  function Applied(rows: seq<Row>, d: Outcome, recs: seq<Rec>, newId: nat -> string): seq<Row>
    requires |d.matches| == |recs|
  {
    Updated(rows, d, recs) + Inserted(d.matches, recs, newId, 0)
  }

  function Apply(rows: seq<Row>, recs: seq<Rec>, newId: nat -> string): seq<Row> {
    Applied(rows, Diff(rows, recs), recs, newId)
  }

  /** Identifiers handed to new rows are new, and different from one another. */
  ghost predicate Fresh(rows: seq<Row>, newId: nat -> string) {
    && (forall n, i :: 0 <= i < |rows| ==> newId(n) != rows[i].id)
    && (forall m, n :: m < n ==> newId(m) != newId(n))
  }

  lemma {:induction false} RecOfIsMatch(matches: seq<Option<Row>>, recs: seq<Rec>, id: string)
    requires |matches| == |recs|
    ensures var r := RecOf(matches, recs, id);
            && (r.Some? ==> exists i :: 0 <= i < |recs| && matches[i].Some? && matches[i].value.id == id && recs[i] == r.value)
            && (r.None? ==> forall i :: 0 <= i < |recs| && matches[i].Some? ==> matches[i].value.id != id)
    decreases |recs|
  {
    if recs != [] {
      if matches[0].Some? && matches[0].value.id == id {
        assert recs[0] == RecOf(matches, recs, id).value;
      } else {
        RecOfIsMatch(matches[1..], recs[1..], id);
        if RecOf(matches, recs, id).Some? {
          var i :| 0 <= i < |recs[1..]| && matches[1..][i].Some? && matches[1..][i].value.id == id
                   && recs[1..][i] == RecOf(matches, recs, id).value;
          assert matches[i + 1].Some? && matches[i + 1].value.id == id && recs[i + 1] == RecOf(matches, recs, id).value;
        } else {
          assert forall i :: 0 < i < |recs| ==> matches[i] == matches[1..][i - 1];
        }
      }
    }
  }

  /** Which record each inserted row carries. */
  lemma {:induction false} InsertedCarry(matches: seq<Option<Row>>, recs: seq<Rec>, newId: nat -> string, n: nat, k: nat) returns (i: nat)
    requires |matches| == |recs| && k < |Inserted(matches, recs, newId, n)|
    ensures i < |recs| && matches[i].None?
    ensures var row := Inserted(matches, recs, newId, n)[k];
            row == Row(newId(n + i), recs[i].ifIndex, recs[i].name, recs[i].traits, Present, 0)
    decreases |recs|
  {
    if matches[0].Some? {
      i := InsertedCarry(matches[1..], recs[1..], newId, n + 1, k);
      i := i + 1;
    } else if k == 0 {
      i := 0;
    } else {
      i := InsertedCarry(matches[1..], recs[1..], newId, n + 1, k - 1);
      i := i + 1;
    }
  }

  lemma {:induction false} InsertedInOrder(matches: seq<Option<Row>>, recs: seq<Rec>, newId: nat -> string, n: nat, i: nat) returns (k: nat)
    requires |matches| == |recs| && i < |recs| && matches[i].None?
    ensures k < |Inserted(matches, recs, newId, n)|
    ensures Inserted(matches, recs, newId, n)[k]
         == Row(newId(n + i), recs[i].ifIndex, recs[i].name, recs[i].traits, Present, 0)
    decreases |recs|
  {
    if i == 0 {
      k := 0;
    } else {
      k := InsertedInOrder(matches[1..], recs[1..], newId, n + 1, i - 1);
      if matches[0].None? {
        k := k + 1;
      }
    }
  }

  /**
   Where a live row after applying comes from: record `i`, or an old row left
   over, unchanged but for its lifecycle and now missing.
   */
  lemma Origin(rows: seq<Row>, recs: seq<Rec>, newId: nat -> string, k: nat) returns (i: int)
    requires DistinctIds(rows) && k < |Apply(rows, recs, newId)| && Apply(rows, recs, newId)[k].Live()
    ensures -1 <= i < |recs|
    ensures var row := Apply(rows, recs, newId)[k];
            var matches := Resolve(rows, LiveIds(rows), recs);
            if i >= 0 then
              && row == Row(row.id, recs[i].ifIndex, recs[i].name, recs[i].traits, Present, 0)
              && row.id == (if matches[i].Some? then matches[i].value.id else newId(i))
            else
              && k < |rows| && rows[k].Live() && row.Pair() == rows[k].Pair() && row.id == rows[k].id
              && row.state == Missing && rows[k].id in LeftOver(rows, LiveIds(rows), recs)
  {
    var d := Diff(rows, recs);
    if k < |rows| {
      RecOfIsMatch(d.matches, recs, rows[k].id);
      MatchesAreTakenOnce(rows, LiveIds(rows), recs);
      var rec := RecOf(d.matches, recs, rows[k].id);
      if rec.Some? {
        i :| 0 <= i < |recs| && d.matches[i].Some? && d.matches[i].value.id == rows[k].id && recs[i] == rec.value;
      } else {
        i := -1;
        AbsentRow(rows, recs, k);
      }
    } else {
      var j := InsertedCarry(d.matches, recs, newId, 0, k - |rows|);
      i := j;
    }
  }

  /** A row no record matched: still live afterwards only if it is now missing. */
  lemma AbsentRow(rows: seq<Row>, recs: seq<Rec>, k: nat)
    requires DistinctIds(rows) && k < |rows|
    requires RecOf(Diff(rows, recs).matches, recs, rows[k].id).None?
    ensures var row := ApplyRow(rows[k], Diff(rows, recs), recs);
            row.Live() ==> && rows[k].Live() && row.Pair() == rows[k].Pair() && row.id == rows[k].id
                           && row.state == Missing && rows[k].id in LeftOver(rows, LiveIds(rows), recs)
  {
    var d := Diff(rows, recs);
    SameIdSameRow(rows);
    RecOfIsMatch(d.matches, recs, rows[k].id);
    MatchesAreTakenOnce(rows, LiveIds(rows), recs);
    assert rows[k] in rows;
    if rows[k].Live() {
      assert rows[k].id in LiveIds(rows);
      assert rows[k].id in LeftOver(rows, LiveIds(rows), recs);
      assert rows[k].id in d.missing + d.streak + d.removed;
    }
  }

  /**
   If no two live interfaces share an index and name, and no two reported ones
   do, then none do after the sync either: the invariant one sync hands the next.
   */
  lemma ApplyKeepsPairsDistinct(rows: seq<Row>, recs: seq<Rec>, newId: nat -> string)
    requires DistinctIds(rows) && DistinctPairs(rows) && DistinctRecs(recs) && Fresh(rows, newId)
    ensures DistinctPairs(Apply(rows, recs, newId))
  {
    var rows' := Apply(rows, recs, newId);
    forall k, l | 0 <= k < l < |rows'| && rows'[k].Live() && rows'[l].Live()
      ensures rows'[k].Pair() != rows'[l].Pair()
    {
      var i := Origin(rows, recs, newId, k);
      var j := Origin(rows, recs, newId, l);
      SameIdsMeet(rows, Diff(rows, recs), recs, newId, k, l);
      if i >= 0 && j < 0 {
        ReportedPairIsMatched(rows, LiveIds(rows), recs, l);
      } else if i < 0 && j >= 0 {
        ReportedPairIsMatched(rows, LiveIds(rows), recs, k);
      }
    }
  }

  lemma SameIdsMeet(rows: seq<Row>, d: Outcome, recs: seq<Rec>, newId: nat -> string, k: nat, l: nat)
    requires |d.matches| == |recs|
    requires DistinctIds(rows) && Fresh(rows, newId) && k < l < |Applied(rows, d, recs, newId)|
    ensures Applied(rows, d, recs, newId)[k].id != Applied(rows, d, recs, newId)[l].id
  {
    var added := Inserted(d.matches, recs, newId, 0);
    if k >= |rows| {
      InsertedIdsAscend(d.matches, recs, newId, 0, k - |rows|, l - |rows|);
      assert Applied(rows, d, recs, newId)[k] == added[k - |rows|];
    } else {
      assert Applied(rows, d, recs, newId)[k] == ApplyRow(rows[k], d, recs);
      if l >= |rows| {
        var j := InsertedCarry(d.matches, recs, newId, 0, l - |rows|);
      } else {
        assert Applied(rows, d, recs, newId)[l] == ApplyRow(rows[l], d, recs);
      }
    }
  }

  lemma {:induction false} InsertedIdsAscend(matches: seq<Option<Row>>, recs: seq<Rec>, newId: nat -> string, n: nat, k: nat, l: nat)
    requires |matches| == |recs| && k < l < |Inserted(matches, recs, newId, n)|
    requires forall m, n :: m < n ==> newId(m) != newId(n)
    ensures Inserted(matches, recs, newId, n)[k].id != Inserted(matches, recs, newId, n)[l].id
    decreases |recs|
  {
    if matches[0].Some? {
      InsertedIdsAscend(matches[1..], recs[1..], newId, n + 1, k, l);
    } else if k > 0 {
      InsertedIdsAscend(matches[1..], recs[1..], newId, n + 1, k - 1, l - 1);
    } else {
      var j := InsertedCarry(matches[1..], recs[1..], newId, n + 1, l - 1);
      assert n < n + 1 + j;
    }
  }

  lemma ApplyKeepsIdsDistinct(rows: seq<Row>, recs: seq<Rec>, newId: nat -> string)
    requires DistinctIds(rows) && Fresh(rows, newId)
    ensures DistinctIds(Apply(rows, recs, newId))
  {
    forall k, l | 0 <= k < l < |Apply(rows, recs, newId)|
      ensures Apply(rows, recs, newId)[k].id != Apply(rows, recs, newId)[l].id
    {
      SameIdsMeet(rows, Diff(rows, recs), recs, newId, k, l);
    }
  }

  // ------------------------------------------------- the same snapshot again

  /** Some row still free is exactly what this record reports. */
  predicate Carried(rows: seq<Row>, unmatched: set<string>, rec: Rec) {
    exists k :: 0 <= k < |rows| && rows[k].id in unmatched && Carries(rows[k], rec)
  }

  predicate Carries(row: Row, rec: Rec) {
    row.state == Present && row.Pair() == rec.Pair() && row.traits == rec.traits
  }

  lemma AppliedIsCarried(rows: seq<Row>, recs: seq<Rec>, newId: nat -> string, i: nat) returns (k: nat)
    requires DistinctIds(rows) && i < |recs|
    ensures k < |Apply(rows, recs, newId)| && Carries(Apply(rows, recs, newId)[k], recs[i])
  {
    var d := Diff(rows, recs);
    MatchesAreTakenOnce(rows, LiveIds(rows), recs);
    if d.matches[i].Some? {
      k :| 0 <= k < |rows| && rows[k] == d.matches[i].value;
      RecOfIsMatch(d.matches, recs, rows[k].id);
      assert RecOf(d.matches, recs, rows[k].id) == Some(recs[i]);
    } else {
      k := InsertedInOrder(d.matches, recs, newId, 0, i);
      assert Apply(rows, recs, newId)[|rows| + k] == Inserted(d.matches, recs, newId, 0)[k];
      k := |rows| + k;
    }
  }

  /** When every record is carried, each resolves to the row carrying it. */
  lemma {:induction false} CarriedResolve(rows: seq<Row>, unmatched: set<string>, recs: seq<Rec>, i: nat)
    requires DistinctIds(rows) && DistinctPairs(rows) && DistinctRecs(recs)
    requires forall j :: 0 <= j < |recs| ==> Carried(rows, unmatched, recs[j])
    requires i < |recs|
    ensures var m := Resolve(rows, unmatched, recs)[i]; m.Some? && Carries(m.value, recs[i])
    decreases |recs|
  {
    assert Carried(rows, unmatched, recs[0]);
    var k :| 0 <= k < |rows| && rows[k].id in unmatched && Carries(rows[k], recs[0]);
    PairIsFound(rows, k);
    assert MatchOf(rows, unmatched, recs[0]) == Some(rows[k]);
    if i > 0 {
      var left := unmatched - {rows[k].id};
      forall j | 0 <= j < |recs[1..]|
        ensures Carried(rows, left, recs[1..][j])
      {
        assert Carried(rows, unmatched, recs[j + 1]);
        var l :| 0 <= l < |rows| && rows[l].id in unmatched && Carries(rows[l], recs[j + 1]);
        assert recs[0].Pair() != recs[j + 1].Pair();
        assert l != k && rows[l].id in left && Carries(rows[l], recs[1..][j]);
      }
      CarriedResolve(rows, left, recs[1..], i - 1);
    }
  }

  lemma {:induction false} NoChanges(matches: seq<Option<Row>>, recs: seq<Rec>)
    requires |matches| == |recs|
    requires forall i :: 0 <= i < |recs| ==> matches[i].Some? && Carries(matches[i].value, recs[i])
    ensures AllChanges(matches, recs) == []
  {
    if recs != [] {
      NoChanges(matches[..|recs| - 1], recs[..|recs| - 1]);
      NothingHolds(Compared(matches[|recs| - 1].value, recs[|recs| - 1]));
    }
  }

  lemma {:induction false} NothingHolds(compared: seq<Candidate>)
    requires forall i :: 0 <= i < |compared| ==> !compared[i].differs
    ensures Holding(compared) == []
  {
    if compared != [] {
      NothingHolds(compared[..|compared| - 1]);
    }
  }

  /**
   Syncing the same snapshot again reports nothing: every record is the row it
   became, no field differs, nothing is created, restored or newly missing;
   only the absences already running move on.
   */
  lemma SecondSyncIsQuiet(rows: seq<Row>, recs: seq<Rec>, newId: nat -> string)
    requires DistinctIds(rows) && DistinctPairs(rows) && DistinctRecs(recs) && Fresh(rows, newId)
    ensures var again := Diff(Apply(rows, recs, newId), recs);
            && again.changes == [] && again.missing == {}
            && forall i :: 0 <= i < |recs| ==> again.matches[i].Some?
  {
    var rows' := Apply(rows, recs, newId);
    ApplyKeepsPairsDistinct(rows, recs, newId);
    ApplyKeepsIdsDistinct(rows, recs, newId);
    forall j | 0 <= j < |recs|
      ensures Carried(rows', LiveIds(rows'), recs[j])
    {
      var k := AppliedIsCarried(rows, recs, newId, j);
      assert rows'[k] in rows' && rows'[k].id in LiveIds(rows');
    }
    forall i | 0 <= i < |recs|
      ensures Resolve(rows', LiveIds(rows'), recs)[i].Some? && Carries(Resolve(rows', LiveIds(rows'), recs)[i].value, recs[i])
    {
      CarriedResolve(rows', LiveIds(rows'), recs, i);
    }
    NoChanges(Resolve(rows', LiveIds(rows'), recs), recs);
    forall r | r in rows' && r.id in LeftOver(rows', LiveIds(rows'), recs) && r.Live()
      ensures !GoesMissing(r)
    {
      var k :| 0 <= k < |rows'| && rows'[k] == r;
      var i := Origin(rows, recs, newId, k);
      ReportedPairIsMatched(rows', LiveIds(rows'), recs, k);
    }
  }

  // ---------------------------------------------------------- renumbering

  predicate NamedApart(rows: seq<Row>) {
    && (forall i :: 0 <= i < |rows| && rows[i].Live() ==> rows[i].name != "")
    && (forall i, j :: 0 <= i < j < |rows| && rows[i].Live() && rows[j].Live() ==> rows[i].name != rows[j].name)
  }

  lemma {:induction false} NameIsFound(rows: seq<Row>, k: nat)
    requires NamedApart(rows) && k < |rows| && rows[k].Live()
    ensures FindName(rows, rows[k].name) == Some(rows[k])
  {
    var n := |rows| - 1;
    if k < n {
      assert rows[..n][k] == rows[k];
      NameIsFound(rows[..n], k);
    }
  }

  lemma {:induction false} PairHasItsName(rows: seq<Row>, pair: Label)
    ensures FindPair(rows, pair).Some? ==>
              && FindPair(rows, pair).value in rows && FindPair(rows, pair).value.Live()
              && FindPair(rows, pair).value.name == pair.name
  {
    if rows != [] {
      PairHasItsName(rows[..|rows| - 1], pair);
      assert forall r :: r in rows[..|rows| - 1] ==> r in rows;
    }
  }

  /** Some live row still free has this name. */
  predicate Named(rows: seq<Row>, unmatched: set<string>, name: string) {
    exists k :: 0 <= k < |rows| && rows[k].Live() && rows[k].id in unmatched && rows[k].name == name
  }

  lemma {:induction false} NamesResolve(rows: seq<Row>, unmatched: set<string>, recs: seq<Rec>, i: nat)
    requires DistinctIds(rows) && NamedApart(rows)
    requires forall j :: 0 <= j < |recs| ==> Named(rows, unmatched, recs[j].name)
    requires forall j, l :: 0 <= j < l < |recs| ==> recs[j].name != recs[l].name
    requires i < |recs|
    ensures var m := Resolve(rows, unmatched, recs)[i]; m.Some? && m.value.name == recs[i].name
    decreases |recs|
  {
    assert Named(rows, unmatched, recs[0].name);
    var k :| 0 <= k < |rows| && rows[k].Live() && rows[k].id in unmatched && rows[k].name == recs[0].name;
    NameIsFound(rows, k);
    PairHasItsName(rows, recs[0].Pair());
    var m := MatchOf(rows, unmatched, recs[0]);
    assert m == Some(rows[k]);
    if i > 0 {
      var left := unmatched - {rows[k].id};
      forall j | 0 <= j < |recs[1..]|
        ensures Named(rows, left, recs[1..][j].name)
      {
        assert Named(rows, unmatched, recs[j + 1].name);
        var l :| 0 <= l < |rows| && rows[l].Live() && rows[l].id in unmatched && rows[l].name == recs[j + 1].name;
        assert recs[0].name != recs[j + 1].name;
        assert l != k && rows[l].id in left && rows[l].name == recs[1..][j].name;
      }
      NamesResolve(rows, left, recs[1..], i - 1);
    }
  }

  lemma NothingLeft(rows: seq<Row>, left: set<string>)
    requires forall r :: r in rows && r.Live() ==> r.id !in left
    ensures NewlyMissing(rows, left) == StillMissing(rows, left) == NewlyRemoved(rows, left) == {}
  {
  }

  lemma TakenByName(rows: seq<Row>, unmatched: set<string>, recs: seq<Rec>, j: nat, k: nat)
    requires NamedApart(rows) && j < |recs| && k < |rows| && rows[k].Live()
    requires var m := Resolve(rows, unmatched, recs)[j]; m.Some? && m.value.name == rows[k].name
    ensures rows[k].id !in LeftOver(rows, unmatched, recs)
  {
    MatchesAreTakenOnce(rows, unmatched, recs);
    var m := Resolve(rows, unmatched, recs)[j];
    var l :| 0 <= l < |rows| && rows[l] == m.value;
    assert l == k;
    assert rows[k].id in TakenIds(Resolve(rows, unmatched, recs));
  }

  /**
   However a device renumbers its interfaces, a snapshot with the same distinct
   names keeps every interface's identity: each record is the row of its name,
   and no row is lost.
   */
  lemma RenumberingKeepsIdentity(rows: seq<Row>, recs: seq<Rec>)
    requires DistinctIds(rows) && NamedApart(rows)
    requires forall j, l :: 0 <= j < l < |recs| ==> recs[j].name != recs[l].name
    requires forall j :: 0 <= j < |recs| ==> Named(rows, LiveIds(rows), recs[j].name)
    requires forall k :: 0 <= k < |rows| && rows[k].Live() ==> exists j :: 0 <= j < |recs| && recs[j].name == rows[k].name
    ensures var d := Diff(rows, recs);
            && (forall i :: 0 <= i < |recs| ==> d.matches[i].Some? && d.matches[i].value.name == recs[i].name)
            && d.missing == d.streak == d.removed == {}
  {
    var ids := LiveIds(rows);
    forall i | 0 <= i < |recs|
      ensures Resolve(rows, ids, recs)[i].Some? && Resolve(rows, ids, recs)[i].value.name == recs[i].name
    {
      NamesResolve(rows, ids, recs, i);
    }
    forall r | r in rows && r.Live()
      ensures r.id !in LeftOver(rows, ids, recs)
    {
      var k :| 0 <= k < |rows| && rows[k] == r;
      var j :| 0 <= j < |recs| && recs[j].name == rows[k].name;
      TakenByName(rows, ids, recs, j, k);
    }
    NothingLeft(rows, LeftOver(rows, ids, recs));
  }

  // ------------------------------------------------- hardware as last resort

  predicate SameHardware(row: Row, rec: Rec) {
    row.traits.phys != "" && Lower(row.traits.phys) == Lower(rec.traits.phys) && row.traits.ifType == rec.traits.ifType
  }

  lemma {:induction false} HardwareIsFound(rows: seq<Row>, rec: Rec, k: nat)
    requires k < |rows| && rows[k].Live() && SameHardware(rows[k], rec) && rec.traits.phys != ""
    requires forall i :: 0 <= i < |rows| && i != k && rows[i].Live() ==> !SameHardware(rows[i], rec)
    ensures FindPhys(rows, rec.traits.phys, rec.traits.ifType) == Some(rows[k])
  {
    var n := |rows| - 1;
    if k < n {
      assert rows[..n][k] == rows[k];
      HardwareIsFound(rows[..n], rec, k);
    }
  }

  lemma {:induction false} NobodyAnswers(rows: seq<Row>, rec: Rec)
    requires forall i :: 0 <= i < |rows| && rows[i].Live() ==> rows[i].Pair() != rec.Pair() && rows[i].name != rec.name
    ensures FindPair(rows, rec.Pair()).None? && FindName(rows, rec.name).None?
  {
    if rows != [] {
      NobodyAnswers(rows[..|rows| - 1], rec);
    }
  }

  /**
   An interface reported under a new name and index is still itself when it is
   the one free interface with that hardware address, in any case, and type.
   */
  lemma HardwareIdentifies(rows: seq<Row>, unmatched: set<string>, rec: Rec, k: nat)
    requires k < |rows| && rows[k].Live() && rows[k].id in unmatched
    requires SameHardware(rows[k], rec) && rec.traits.phys != ""
    requires forall i :: 0 <= i < |rows| && i != k && rows[i].Live() ==> !SameHardware(rows[i], rec)
    requires forall i :: 0 <= i < |rows| && rows[i].Live() ==> rows[i].Pair() != rec.Pair() && rows[i].name != rec.name
    ensures MatchOf(rows, unmatched, rec) == Some(rows[k])
  {
    NobodyAnswers(rows, rec);
    HardwareIsFound(rows, rec, k);
  }

  // ----------------------------------------------------- what changes report

  /** The fields the history follows. */
  datatype Tracked = Tracked(missing: bool, ifIndex: int, name: string, alias: string, speed: int, mtu: int)

  function TrackedRow(row: Row): Tracked {
    Tracked(row.state == Missing, row.ifIndex, row.name, row.traits.alias, row.traits.speed, row.traits.mtu)
  }

  function TrackedRec(rec: Rec): Tracked {
    Tracked(false, rec.ifIndex, rec.name, rec.traits.alias, rec.traits.speed, rec.traits.mtu)
  }

  /** One change carried out, where it starts from what it says it does. */
  function Replay1(t: Tracked, c: Change): Option<Tracked> {
    match c
    case Created(_, _) => None
    case Restored(_) => if t.missing then Some(t.(missing := false)) else None
    case Reindexed(_, before, after) => if t.ifIndex == before then Some(t.(ifIndex := after)) else None
    case Renamed(_, was, now) => if t.name == was then Some(t.(name := now)) else None
    case Realiased(_, was, now) => if t.alias == was then Some(t.(alias := now)) else None
    case Respeeded(_, before, after) => if t.speed == before then Some(t.(speed := after)) else None
    case Resized(_, before, after) => if t.mtu == before then Some(t.(mtu := after)) else None
  }

  function Replay(t: Tracked, changes: seq<Change>): Option<Tracked> {
    if changes == [] then Some(t)
    else
      var before := Replay(t, changes[..|changes| - 1]);
      if before.None? then None else Replay1(before.value, changes[|changes| - 1])
  }

  lemma ReplayOneMore(t: Tracked, compared: seq<Candidate>, c: Candidate)
    ensures var before := Replay(t, Holding(compared));
            Replay(t, Holding(compared + [c]))
            == if !c.differs then before else if before.None? then None else Replay1(before.value, c.change)
  {
    assert (compared + [c])[..|compared|] == compared;
    var held := Holding(compared);
    if c.differs {
      assert (held + [c.change])[..|held|] == held;
    } else {
      assert held + [] == held;
    }
  }

  /** What each comparison leaves of the stored interface: a differing one carries out its change. */
  ghost predicate Stages(compared: seq<Candidate>, states: seq<Tracked>) {
    && |states| == |compared| + 1
    && forall i :: 0 <= i < |compared| ==>
         if compared[i].differs then Replay1(states[i], compared[i].change) == Some(states[i + 1]) else states[i] == states[i + 1]
  }

  lemma {:induction false} StagesReplay(compared: seq<Candidate>, states: seq<Tracked>)
    requires Stages(compared, states)
    ensures Replay(states[0], Holding(compared)) == Some(states[|compared|])
  {
    if compared != [] {
      var n := |compared| - 1;
      StagesReplay(compared[..n], states[..n + 1]);
      ReplayOneMore(states[0], compared[..n], compared[n]);
      assert compared == compared[..n] + [compared[n]];
    }
  }

  /** Replaying the reported changes on the stored interface gives the reported one, each from its old value. */
  lemma HistoryExplainsTheReport(row: Row, rec: Rec)
    ensures Replay(TrackedRow(row), FieldChanges(row, rec)) == Some(TrackedRec(rec))
  {
    var t := TrackedRow(row);
    var t1 := t.(missing := false);
    var t2 := t1.(ifIndex := rec.ifIndex);
    var t3 := t2.(name := rec.name);
    var t4 := t3.(alias := rec.traits.alias);
    var t5 := t4.(speed := rec.traits.speed);
    StagesReplay(Compared(row, rec), [t, t1, t2, t3, t4, t5, TrackedRec(rec)]);
  }
}
