/**
 Which of a rule's interface series are worth an alert: a subinterface whose
 parent fires the same rule, and an interface never seen in service, are not.
 */
module NoiseSuppression {
  import opened Common

  datatype Info = Info(name: string, everUp: bool)

  /** A series as the pass reads it: an absent label is empty. */
  datatype Series = Series(device: string, ifIndex: string)

  /** What inventory holds of a device's interfaces, by index. */
  type Inventory = map<string, Info>

  // ------------------------------------------------------------------ names

  function LastDot(name: string): (i: int)
    ensures -1 <= i < |name|
    ensures i >= 0 ==> name[i] == '.'
    ensures forall k :: i < k < |name| ==> name[k] != '.'
  {
    if name == [] then -1
    else if name[|name| - 1] == '.' then |name| - 1
    else LastDot(name[..|name| - 1])
  }

  /** What a subinterface hangs off, empty when the name is not one. */
  function Parent(name: string): string {
    if LastDot(name) > 0 then name[..LastDot(name)] else ""
  }

  /** `a` is a proper dotted prefix of `name`. */
  predicate Ancestor(a: string, name: string) {
    a != "" && |a| < |name| && name[..|a|] == a && name[|a|] == '.'
  }

  lemma ParentIsNearest(name: string)
    ensures Parent(name) != "" <==> exists a :: Ancestor(a, name)
    ensures Parent(name) != "" ==>
              Ancestor(Parent(name), name) && forall a :: Ancestor(a, name) ==> |a| <= |Parent(name)|
  {
    if Parent(name) != "" {
      assert Ancestor(Parent(name), name);
    }
  }

  lemma AncestorsChain(a: string, b: string, name: string)
    requires Ancestor(a, b) && Ancestor(b, name)
    ensures Ancestor(a, name)
  {
    assert name[..|a|] == b[..|a|];
  }

  // ------------------------------------------------------------------- spec

  function InfoOf(found: map<string, Inventory>, s: Series): Option<Info> {
    if s.device in found && s.ifIndex in found[s.device] then Some(found[s.device][s.ifIndex]) else None
  }

  /** Devices are looked up only for series that name both labels. */
  function Loaded(series: seq<Series>, inventory: string -> Inventory): map<string, Inventory> {
    map s | s in series && s.device != "" && s.ifIndex != "" :: s.device := inventory(s.device)
  }

  /** The named interfaces of a device that some series is about. */
  function FiringNames(series: seq<Series>, inventory: string -> Inventory, device: string): set<string> {
    set s | s in series && s.device == device && s.device != "" && s.ifIndex != ""
            && s.ifIndex in inventory(device) && inventory(device)[s.ifIndex].name != ""
          :: inventory(device)[s.ifIndex].name
  }

  predicate Dependent(series: seq<Series>, inventory: string -> Inventory, s: Series) {
    var info := InfoOf(Loaded(series, inventory), s);
    info.Some? && info.value.name != "" && Parent(info.value.name) in FiringNames(series, inventory, s.device)
  }

  predicate NeverUp(series: seq<Series>, inventory: string -> Inventory, s: Series) {
    var info := InfoOf(Loaded(series, inventory), s);
    info.Some? && !info.value.everUp
  }

  predicate Kept(series: seq<Series>, inventory: string -> Inventory, s: Series) {
    !Dependent(series, inventory, s) && !NeverUp(series, inventory, s)
  }

  function Keep(all: seq<Series>, inventory: string -> Inventory, series: seq<Series>): seq<Series> {
    if series == [] then []
    else
      var last := series[|series| - 1];
      Keep(all, inventory, series[..|series| - 1]) + (if Kept(all, inventory, last) then [last] else [])
  }

  /** Without an inventory nothing is suppressed. */
  function Suppressed(series: seq<Series>, inventory: Option<string -> Inventory>): seq<Series> {
    if inventory.None? then series else Keep(series, inventory.value, series)
  }

  // ------------------------------------------------------------------ lemmas

  predicate Subsequence<T(==)>(a: seq<T>, b: seq<T>) {
    a == [] || (b != [] && if a[|a| - 1] == b[|b| - 1] then Subsequence(a[..|a| - 1], b[..|b| - 1])
                           else Subsequence(a, b[..|b| - 1]))
  }

  lemma {:induction false} KeepIsSubsequence(all: seq<Series>, inventory: string -> Inventory, series: seq<Series>)
    ensures Subsequence(Keep(all, inventory, series), series)
    ensures forall s :: s in Keep(all, inventory, series) <==> s in series && Kept(all, inventory, s)
  {
    if series != [] {
      var before, last := series[..|series| - 1], series[|series| - 1];
      KeepIsSubsequence(all, inventory, before);
      assert series == before + [last];
      var kept := Keep(all, inventory, before);
      if Kept(all, inventory, last) {
        assert (kept + [last])[..|kept|] == kept;
      } else {
        WidenSubsequence(kept, before, last);
        assert Keep(all, inventory, series) == kept;
      }
    }
  }

  lemma {:induction false} WidenSubsequence<T>(a: seq<T>, b: seq<T>, x: T)
    requires Subsequence(a, b)
    ensures Subsequence(a, b + [x])
    decreases |b|, 1
  {
    assert (b + [x])[..|b|] == b;
    if a != [] && a[|a| - 1] == x {
      DropLastOfSub(a, b);
    }
  }

  lemma {:induction false} DropLastOfSub<T>(a: seq<T>, b: seq<T>)
    requires a != [] && Subsequence(a, b)
    ensures Subsequence(a[..|a| - 1], b)
    decreases |b|, 0
  {
    var a', b' := a[..|a| - 1], b[..|b| - 1];
    assert b == b' + [b[|b| - 1]];
    if a[|a| - 1] == b[|b| - 1] {
      WidenSubsequence(a', b', b[|b| - 1]);
    } else {
      DropLastOfSub(a, b');
      WidenSubsequence(a', b', b[|b| - 1]);
    }
  }

  /** Some series of the device is about an interface of this name. */
  ghost predicate Fires(series: seq<Series>, inventory: string -> Inventory, device: string, name: string) {
    exists s :: s in series && IsAbout(inventory, s, device, name)
  }

  predicate IsAbout(inventory: string -> Inventory, s: Series, device: string, name: string) {
    && s.device == device != "" && s.ifIndex != "" && name != ""
    && s.ifIndex in inventory(device) && inventory(device)[s.ifIndex].name == name
  }

  lemma FiringNamesFire(series: seq<Series>, inventory: string -> Inventory, device: string, name: string)
    ensures name in FiringNames(series, inventory, device) <==> Fires(series, inventory, device, name)
  {
    if Fires(series, inventory, device, name) {
      var s :| s in series && IsAbout(inventory, s, device, name);
      assert s in series;
    }
    if name in FiringNames(series, inventory, device) {
      var s :| s in series && s.device == device && s.device != "" && s.ifIndex != ""
               && s.ifIndex in inventory(device) && inventory(device)[s.ifIndex].name == name && name != "";
      assert IsAbout(inventory, s, device, name);
    }
  }

  /** The topmost firing interface a firing name leads up to through firing parents. */
  function Top(series: seq<Series>, inventory: string -> Inventory, device: string, name: string): string
    decreases |name|
  {
    if Parent(name) != "" && Parent(name) in FiringNames(series, inventory, device)
    then Top(series, inventory, device, Parent(name))
    else name
  }

  lemma {:induction false} TopFires(series: seq<Series>, inventory: string -> Inventory, device: string, name: string)
    requires name in FiringNames(series, inventory, device)
    ensures var top := Top(series, inventory, device, name);
            && top in FiringNames(series, inventory, device) && Parent(top) !in FiringNames(series, inventory, device)
            && (top == name || Ancestor(top, name))
    decreases |name|
  {
    ParentIsNearest(name);
    var parent := Parent(name);
    FiringNamesFire(series, inventory, device, "");
    if parent in FiringNames(series, inventory, device) {
      TopFires(series, inventory, device, parent);
      var top := Top(series, inventory, device, parent);
      if top != parent {
        AncestorsChain(top, parent, name);
      }
    }
  }

  /**
   Whatever is dropped as a consequence has a cause still in view: a firing
   dotted ancestor on the same device whose own parent is not firing. No series
   about that ancestor is dropped as dependent, only as never in service.
   */
  lemma EveryConsequenceHasACause(series: seq<Series>, inventory: string -> Inventory, s: Series) returns (cause: string)
    requires s in series && Dependent(series, inventory, s)
    ensures Fires(series, inventory, s.device, cause)
    ensures Ancestor(cause, inventory(s.device)[s.ifIndex].name)
    ensures !Fires(series, inventory, s.device, Parent(cause))
    ensures forall c :: c in series && IsAbout(inventory, c, s.device, cause) ==>
              && !Dependent(series, inventory, c)
              && (c in Keep(series, inventory, series) <==> inventory(c.device)[c.ifIndex].everUp)
  {
    var name := inventory(s.device)[s.ifIndex].name;
    var firing := FiringNames(series, inventory, s.device);
    ParentIsNearest(name);
    FiringNamesFire(series, inventory, s.device, "");
    TopFires(series, inventory, s.device, Parent(name));
    cause := Top(series, inventory, s.device, Parent(name));
    if cause != Parent(name) {
      AncestorsChain(cause, Parent(name), name);
    }
    FiringNamesFire(series, inventory, s.device, cause);
    FiringNamesFire(series, inventory, s.device, Parent(cause));
    KeepIsSubsequence(series, inventory, series);
    forall c | c in series && IsAbout(inventory, c, s.device, cause)
      ensures !Dependent(series, inventory, c)
      ensures c in Keep(series, inventory, series) <==> inventory(c.device)[c.ifIndex].everUp
    {
      assert InfoOf(Loaded(series, inventory), c) == Some(inventory(c.device)[c.ifIndex]);
    }
  }

  function Digits(n: nat): (r: string)
    ensures r != ""
  {
    if n < 10 then [(n + '0' as int) as char] else Digits(n / 10) + [(n % 10 + '0' as int) as char]
  }

  /** An index as inventory writes it. */
  function Written(ifIndex: int): (r: string)
    ensures r != ""
  {
    if ifIndex < 0 then "-" + Digits(-ifIndex) else Digits(ifIndex)
  }

  /** What the store hands out: every key is some interface's index, written out. */
  ghost predicate KeyedByIndex(found: Inventory) {
    forall key :: key in found ==> exists ifIndex :: key == Written(ifIndex)
  }

  /** A series without an interface index passes straight through, whatever else fires. */
  lemma IndexlessPasses(series: seq<Series>, inventory: string -> Inventory, s: Series)
    requires s in series && s.ifIndex == "" && KeyedByIndex(inventory(s.device))
    ensures s in Keep(series, inventory, series)
  {
    IndexlessPassesUnlessListed(series, inventory, s);
    assert "" !in inventory(s.device);
  }

  /**
   For any inventory at all: it passes exactly unless its device was looked up
   for another series and an interface listed under the empty index is never up
   or hangs off a firing one.
   */
  lemma IndexlessPassesUnlessListed(series: seq<Series>, inventory: string -> Inventory, s: Series)
    requires s in series && s.ifIndex == ""
    ensures s in Keep(series, inventory, series)
       <==> !(&& (exists t :: t in series && t.device == s.device && t.device != "" && t.ifIndex != "")
              && "" in inventory(s.device)
              && var info := inventory(s.device)[""];
                 !info.everUp || (info.name != "" && Fires(series, inventory, s.device, Parent(info.name))))
  {
    KeepIsSubsequence(series, inventory, series);
    var loaded := Loaded(series, inventory);
    assert s.device in loaded <==> exists t :: t in series && t.device == s.device && t.device != "" && t.ifIndex != "";
    if "" in inventory(s.device) {
      FiringNamesFire(series, inventory, s.device, Parent(inventory(s.device)[""].name));
    }
  }

  // ----------------------------------------------------------------- the pass

  method FindParent(name: string) returns (parent: string)
    ensures parent == Parent(name)
  {
    var i := |name| - 1;
    while i >= 0 && name[i] != '.'
      invariant -1 <= i < |name|
      invariant LastDot(name) == LastDot(name[..i + 1])
    {
      assert name[..i + 1][..i] == name[..i];
      i := i - 1;
    }
    assert name[..0] == [];
    if i > 0 {
      return name[..i];
    }
    return "";
  }

  ghost predicate Surveyed(found: map<string, Inventory>, firing: map<string, set<string>>, series: seq<Series>,
      inventory: string -> Inventory) {
    && found == Loaded(series, inventory)
    && firing.Keys == found.Keys
    && forall dev :: dev in firing ==> firing[dev] == FiringNames(series, inventory, dev)
  }

  predicate Labelled(s: Series) {
    s.device != "" && s.ifIndex != ""
  }

  /** The name a labelled series makes fire. */
  function NameOf(inventory: string -> Inventory, s: Series): set<string> {
    if s.ifIndex in inventory(s.device) && inventory(s.device)[s.ifIndex].name != ""
    then {inventory(s.device)[s.ifIndex].name} else {}
  }

  function Noted(firing: map<string, set<string>>, inventory: string -> Inventory, s: Series): map<string, set<string>> {
    firing[s.device := (if s.device in firing then firing[s.device] else {}) + NameOf(inventory, s)]
  }

  /** Look up each device once and note which of its interfaces are firing. */
  method Survey(series: seq<Series>, inventory: string -> Inventory)
    returns (found: map<string, Inventory>, firing: map<string, set<string>>)
    ensures Surveyed(found, firing, series, inventory)
  {
    found, firing := map[], map[];
    for i := 0 to |series|
      invariant Surveyed(found, firing, series[..i], inventory)
    {
      assert series[..i + 1] == series[..i] + [series[i]];
      if series[i].device == "" || series[i].ifIndex == "" {
        SurveyPasses(found, firing, series[..i], inventory, series[i]);
        continue;
      }
      SurveyNotes(found, firing, series[..i], inventory, series[i]);
      found, firing := Note(found, firing, series[i], inventory);
    }
    assert series[..|series|] == series;
  }

  method Note(found: map<string, Inventory>, firing: map<string, set<string>>, s: Series, inventory: string -> Inventory)
    returns (found': map<string, Inventory>, firing': map<string, set<string>>)
    requires firing.Keys == found.Keys && (s.device in found ==> found[s.device] == inventory(s.device))
    ensures found' == found[s.device := inventory(s.device)]
    ensures firing' == Noted(firing, inventory, s)
  {
    found', firing' := found, firing;
    if s.device !in found' {
      found' := found'[s.device := inventory(s.device)];
      firing' := firing'[s.device := {}];
    }
    if s.ifIndex in found'[s.device] {
      var name := found'[s.device][s.ifIndex].name;
      if name != "" {
        firing' := firing'[s.device := firing'[s.device] + {name}];
      }
    }
    assert firing'[s.device] == Noted(firing, inventory, s)[s.device];
    assert firing' == Noted(firing, inventory, s);
  }

  lemma NothingFires(series: seq<Series>, inventory: string -> Inventory, device: string)
    requires device !in Loaded(series, inventory)
    ensures FiringNames(series, inventory, device) == {}
  {
  }

  lemma SurveyPasses(found: map<string, Inventory>, firing: map<string, set<string>>, series: seq<Series>,
      inventory: string -> Inventory, s: Series)
    requires Surveyed(found, firing, series, inventory) && !Labelled(s)
    ensures Surveyed(found, firing, series + [s], inventory)
  {
    LoadedOneMore(series, inventory, s);
    forall dev | dev in firing
      ensures firing[dev] == FiringNames(series + [s], inventory, dev)
    {
      FiringOneMore(series, inventory, s, dev);
    }
  }

  lemma SurveyNotes(found: map<string, Inventory>, firing: map<string, set<string>>, series: seq<Series>,
      inventory: string -> Inventory, s: Series)
    requires Surveyed(found, firing, series, inventory) && Labelled(s)
    ensures s.device in found ==> found[s.device] == inventory(s.device)
    ensures Surveyed(found[s.device := inventory(s.device)], Noted(firing, inventory, s), series + [s], inventory)
  {
    var firing' := Noted(firing, inventory, s);
    LoadedOneMore(series, inventory, s);
    forall dev | dev in firing'
      ensures firing'[dev] == FiringNames(series + [s], inventory, dev)
    {
      FiringOneMore(series, inventory, s, dev);
      if dev !in firing {
        NothingFires(series, inventory, dev);
      }
    }
  }

  lemma FiringOneMore(series: seq<Series>, inventory: string -> Inventory, s: Series, dev: string)
    ensures FiringNames(series + [s], inventory, dev)
         == FiringNames(series, inventory, dev) + (if Labelled(s) && dev == s.device then NameOf(inventory, s) else {})
  {
    assert forall t :: t in series + [s] <==> t in series || t == s;
  }

  lemma LoadedOneMore(series: seq<Series>, inventory: string -> Inventory, s: Series)
    ensures Loaded(series + [s], inventory)
         == if Labelled(s) then Loaded(series, inventory)[s.device := inventory(s.device)] else Loaded(series, inventory)
  {
    assert forall t :: t in series + [s] <==> t in series || t == s;
  }

  method SuppressNoise(series: seq<Series>, inventory: Option<string -> Inventory>) returns (out: seq<Series>)
    ensures out == Suppressed(series, inventory)
  {
    if inventory.None? {
      return series;
    }
    var found, firing := Survey(series, inventory.value);
    out := [];
    for i := 0 to |series|
      invariant out == Keep(series, inventory.value, series[..i])
    {
      var s := series[i];
      assert series[..i + 1][..i] == series[..i];
      var info := InfoOf(found, s);
      if info.Some? && info.value.name != "" {
        var parent := FindParent(info.value.name);
        if parent in firing[s.device] {
          continue;
        }
      }
      if info.Some? && !info.value.everUp {
        continue;
      }
      out := out + [s];
    }
    assert series[..|series|] == series;
  }
}
