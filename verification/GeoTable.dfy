/**
 Address ranges with a value each: ranges are added in any order, sorted once,
 and looked up by binary search.
 */
module GeoTable {
  import opened Common
  import opened Wrap

  type uint32 = x: int | 0 <= x < 0x1_0000_0000

  /** A 4-byte address, or a 16-byte one as two words. */
  datatype Addr = V4(x: uint32) | V6(hi: uint64, lo: uint64)

  /** The IPv4 address a mapped IPv6 address stands for. */
  function Unmap(a: Addr): Addr {
    if a.V6? && a.hi == 0 && 0xFFFF_0000_0000 <= a.lo < 0x1_0000_0000_0000 then V4(a.lo - 0xFFFF_0000_0000) else a
  }

  datatype Range4 = Range4(start: uint32, end: uint32, val: uint32)

  datatype Range6 = Range6(startHi: uint64, startLo: uint64, endHi: uint64, endLo: uint64, val: uint32)

  /** The 128-bit number two words hold. */
  function Number(hi: uint64, lo: uint64): nat {
    (hi as int) * TWO_64 + lo
  }

  predicate WordsLess(aHi: uint64, aLo: uint64, bHi: uint64, bLo: uint64) {
    aHi < bHi || (aHi == bHi && aLo < bLo)
  }

  /** Comparing word by word is comparing the numbers. */
  lemma WordsAreNumbers(aHi: uint64, aLo: uint64, bHi: uint64, bLo: uint64)
    ensures WordsLess(aHi, aLo, bHi, bLo) <==> Number(aHi, aLo) < Number(bHi, bLo)
    ensures aHi < bHi || (aHi == bHi && aLo <= bLo) <==> Number(aHi, aLo) <= Number(bHi, bLo)
  {
  }

  // ------------------------------------------------------------------ ranges

  /** What lookup needs of a range, as numbers. */
  datatype Span = Span(from: nat, till: nat, val: uint32) {
    predicate Holds(x: nat) {
      from <= x <= till
    }
  }

  function Span4(r: Range4): Span {
    Span(r.start, r.end, r.val)
  }

  function Span6(r: Range6): Span {
    Span(Number(r.startHi, r.startLo), Number(r.endHi, r.endLo), r.val)
  }

  function Spans<R>(rs: seq<R>, span: R -> Span): (spans: seq<Span>)
    ensures |spans| == |rs| && forall i :: 0 <= i < |rs| ==> spans[i] == span(rs[i])
  {
    seq(|rs|, i requires 0 <= i < |rs| => span(rs[i]))
  }

  /** The value of the first range that holds a number: what a linear scan answers. */
  function Scan(spans: seq<Span>, x: nat): Option<uint32> {
    if spans == [] then None
    else if spans[0].Holds(x) then Some(spans[0].val)
    else Scan(spans[1..], x)
  }

  /** Of any two ranges one ends before the other starts. */
  predicate Apart(spans: seq<Span>) {
    forall i, j :: 0 <= i < j < |spans| ==> spans[i].till < spans[j].from || spans[j].till < spans[i].from
  }

  predicate AllForward(spans: seq<Span>) {
    forall i :: 0 <= i < |spans| ==> spans[i].from <= spans[i].till
  }

  /** No number is in two ranges, and none is empty. */
  predicate Disjoint(spans: seq<Span>) {
    AllForward(spans) && Apart(spans)
  }

  predicate Sorted(spans: seq<Span>) {
    forall i, j :: 0 <= i < j < |spans| ==> spans[i].from <= spans[j].from
  }

  /** How many ranges start at or before a number. */
  ghost predicate Starts(spans: seq<Span>, x: nat, n: nat) {
    && n <= |spans|
    && (forall i :: 0 <= i < n ==> spans[i].from <= x)
    && (forall i :: n <= i < |spans| ==> spans[i].from > x)
  }

  lemma {:induction false} ScanFinds(spans: seq<Span>, x: nat, i: nat)
    requires Disjoint(spans) && i < |spans| && spans[i].Holds(x)
    ensures Scan(spans, x) == Some(spans[i].val)
  {
    if i > 0 {
      assert !spans[0].Holds(x);
      TailDisjoint(spans);
      assert spans[1..][i - 1] == spans[i];
      ScanFinds(spans[1..], x, i - 1);
    }
  }

  lemma TailDisjoint(spans: seq<Span>)
    requires Disjoint(spans) && spans != []
    ensures Disjoint(spans[1..])
  {
  }

  lemma {:induction false} ScanMisses(spans: seq<Span>, x: nat)
    requires forall i :: 0 <= i < |spans| ==> !spans[i].Holds(x)
    ensures Scan(spans, x) == None
  {
    if spans != [] {
      assert forall i :: 0 <= i < |spans[1..]| ==> spans[1..][i] == spans[i + 1];
      ScanMisses(spans[1..], x);
    }
  }

  /**
   In sorted, pairwise disjoint ranges only the last one starting at or before a
   number can hold it: looking at that one alone answers as scanning them all.
   */
  lemma LastStartDecides(spans: seq<Span>, x: nat, n: nat)
    requires Disjoint(spans) && Sorted(spans) && Starts(spans, x, n)
    ensures Scan(spans, x) == if n > 0 && x <= spans[n - 1].till then Some(spans[n - 1].val) else None
  {
    if n > 0 && x <= spans[n - 1].till {
      ScanFinds(spans, x, n - 1);
    } else {
      forall i | 0 <= i < |spans|
        ensures !spans[i].Holds(x)
      {
        if i < n - 1 {
          assert spans[i].from <= spans[n - 1].from;
        }
      }
      ScanMisses(spans, x);
    }
  }

  /** The order ranges were added in does not matter to a scan of disjoint ones. */
  lemma ScanIgnoresOrder(a: seq<Span>, b: seq<Span>, x: nat)
    requires multiset(a) == multiset(b) && Disjoint(a) && Disjoint(b)
    ensures Scan(a, x) == Scan(b, x)
  {
    if i :| 0 <= i < |a| && a[i].Holds(x) {
      assert a[i] in multiset(b);
      var j :| 0 <= j < |b| && b[j] == a[i];
      ScanFinds(a, x, i);
      ScanFinds(b, x, j);
    } else {
      forall j | 0 <= j < |b|
        ensures !b[j].Holds(x)
      {
        assert b[j] in multiset(a);
      }
      ScanMisses(a, x);
      ScanMisses(b, x);
    }
  }

  lemma DisjointIgnoresOrder(a: seq<Span>, b: seq<Span>)
    requires multiset(a) == multiset(b) && Disjoint(a)
    ensures Disjoint(b)
  {
    forall i | 0 <= i < |b|
      ensures b[i].from <= b[i].till
    {
      assert b[i] in multiset(a);
    }
    forall i, j | 0 <= i < j < |b|
      ensures b[i].till < b[j].from || b[j].till < b[i].from
    {
      assert b[i] in multiset(a) && b[j] in multiset(a);
      if b[i] == b[j] {
        Twice(b, i, j);
        NoDuplicates(a, b[i]);
      } else {
        var k :| 0 <= k < |a| && a[k] == b[i];
        var l :| 0 <= l < |a| && a[l] == b[j];
      }
    }
  }

  lemma Twice<T>(s: seq<T>, i: nat, j: nat)
    requires i < j < |s| && s[i] == s[j]
    ensures multiset(s)[s[i]] >= 2
  {
    assert s == s[..j] + [s[j]] + s[j + 1..];
    assert s[i] in s[..j];
  }

  lemma {:induction false} NoDuplicates(a: seq<Span>, x: Span)
    requires Disjoint(a)
    ensures multiset(a)[x] <= 1
  {
    if a != [] {
      TailDisjoint(a);
      NoDuplicates(a[1..], x);
      assert a == [a[0]] + a[1..];
      if a[0] == x {
        forall k | 0 <= k < |a[1..]|
          ensures a[1..][k] != x
        {
          assert a[1..][k] == a[k + 1];
        }
      }
    }
  }

  // ----------------------------------------------------------------- sorting

  ghost predicate Orders<R(!new)>(less: (R, R) -> bool, span: R -> Span) {
    forall a, b :: less(a, b) <==> span(a).from < span(b).from
  }

  /** Any sort by start: what matters is order and contents. */
  method SortBy<R(!new)>(rs: seq<R>, less: (R, R) -> bool, ghost span: R -> Span) returns (sorted: seq<R>)
    requires Orders(less, span)
    ensures multiset(sorted) == multiset(rs) && multiset(Spans(sorted, span)) == multiset(Spans(rs, span))
    ensures Sorted(Spans(sorted, span))
  {
    sorted := [];
    for n := 0 to |rs|
      invariant multiset(sorted) == multiset(rs[..n])
      invariant multiset(Spans(sorted, span)) == multiset(Spans(rs[..n], span))
      invariant Sorted(Spans(sorted, span))
    {
      assert rs[..n + 1] == rs[..n] + [rs[n]];
      assert Spans(rs[..n + 1], span) == Spans(rs[..n], span) + [span(rs[n])];
      sorted := InsertBy(sorted, rs[n], less, span);
    }
    assert rs[..|rs|] == rs;
  }

  method InsertBy<R(!new)>(sorted: seq<R>, r: R, less: (R, R) -> bool, ghost span: R -> Span) returns (more: seq<R>)
    requires Orders(less, span)
    requires Sorted(Spans(sorted, span))
    ensures multiset(more) == multiset(sorted) + multiset{r}
    ensures multiset(Spans(more, span)) == multiset(Spans(sorted, span)) + multiset{span(r)}
    ensures Sorted(Spans(more, span))
  {
    var i := |sorted|;
    while i > 0 && less(r, sorted[i - 1])
      invariant 0 <= i <= |sorted|
      invariant i < |sorted| ==> span(r).from < span(sorted[i]).from
    {
      i := i - 1;
    }
    more := sorted[..i] + [r] + sorted[i..];
    InsertedSpans(sorted, r, i, span);
    InsertAdds(sorted, r, i);
    InsertAdds(Spans(sorted, span), span(r), i);
    InsertedInOrder(Spans(sorted, span), span(r), i);
  }

  lemma InsertAdds<T>(s: seq<T>, x: T, i: nat)
    requires i <= |s|
    ensures multiset(s[..i] + [x] + s[i..]) == multiset(s) + multiset{x}
  {
    assert s == s[..i] + s[i..];
  }

  lemma InsertedSpans<R>(rs: seq<R>, r: R, i: nat, span: R -> Span)
    requires i <= |rs|
    ensures Spans(rs[..i] + [r] + rs[i..], span) == Spans(rs, span)[..i] + [span(r)] + Spans(rs, span)[i..]
  {
  }

  lemma InsertedInOrder(spans: seq<Span>, s: Span, i: nat)
    requires Sorted(spans) && i <= |spans|
    requires i < |spans| ==> s.from < spans[i].from
    requires i > 0 ==> spans[i - 1].from <= s.from
    ensures Sorted(spans[..i] + [s] + spans[i..])
  {
  }

  /** The standard library's binary search: the least index the predicate holds at. */
  method Search<R>(rs: seq<R>, past: R -> bool) returns (n: nat)
    requires forall i, j :: 0 <= i < j < |rs| && past(rs[i]) ==> past(rs[j])
    ensures n <= |rs|
    ensures forall i :: 0 <= i < n ==> !past(rs[i])
    ensures forall i :: n <= i < |rs| ==> past(rs[i])
  {
    var lo, hi := 0, |rs|;
    while lo < hi
      invariant 0 <= lo <= hi <= |rs|
      invariant lo > 0 ==> !past(rs[lo - 1])
      invariant hi < |rs| ==> past(rs[hi])
    {
      var mid := (lo + hi) / 2;
      if !past(rs[mid]) {
        lo := mid + 1;
      } else {
        hi := mid;
      }
    }
    n := lo;
  }

  // --------------------------------------------------------------- the table

  class Table {
    var v4: seq<Range4>
    var v6: seq<Range6>

    constructor ()
      ensures v4 == [] && v6 == []
    {
      v4, v6 := [], [];
    }

    /** Every range added runs forward, by the check on adding. */
    ghost predicate Forward()
      reads this
    {
      AllForward(Spans(v4, Span4)) && AllForward(Spans(v6, Span6))
    }

    /** Two ends of one family, in order, after unmapping; anything else is refused. */
    method Add(first: Addr, last: Addr, val: uint32) returns (ok: bool)
      requires Forward()
      modifies this
      ensures Forward()
      ensures var s, e := Unmap(first), Unmap(last);
              && ok == ((s.V4? && e.V4? && s.x <= e.x) || (s.V6? && e.V6? && Number(s.hi, s.lo) <= Number(e.hi, e.lo)))
              && v4 == old(v4) + (if ok && s.V4? then [Range4(s.x, e.x, val)] else [])
              && v6 == old(v6) + (if ok && s.V6? then [Range6(s.hi, s.lo, e.hi, e.lo, val)] else [])
    {
      var s, e := Unmap(first), Unmap(last);
      if s.V4? != e.V4? {
        return false;
      }
      if s.V4? {
        if e.x < s.x {
          return false;
        }
        v4 := v4 + [Range4(s.x, e.x, val)];
        return true;
      }
      WordsAreNumbers(e.hi, e.lo, s.hi, s.lo);
      if WordsLess(e.hi, e.lo, s.hi, s.lo) {
        return false;
      }
      v6 := v6 + [Range6(s.hi, s.lo, e.hi, e.lo, val)];
      return true;
    }

    method Sort()
      modifies this
      ensures multiset(v4) == multiset(old(v4)) && multiset(v6) == multiset(old(v6))
      ensures multiset(Spans(v4, Span4)) == multiset(Spans(old(v4), Span4))
      ensures multiset(Spans(v6, Span6)) == multiset(Spans(old(v6), Span6))
      ensures Sorted(Spans(v4, Span4)) && Sorted(Spans(v6, Span6))
    {
      forall a: Range6, b: Range6
        ensures WordsLess(a.startHi, a.startLo, b.startHi, b.startLo) <==> Span6(a).from < Span6(b).from
      {
        WordsAreNumbers(a.startHi, a.startLo, b.startHi, b.startLo);
      }
      v4 := SortBy(v4, (a: Range4, b: Range4) => a.start < b.start, Span4);
      v6 := SortBy(v6, (a: Range6, b: Range6) => WordsLess(a.startHi, a.startLo, b.startHi, b.startLo), Span6);
    }

    /** The value of the range holding an address: what scanning the ranges answers. */
    method Find(a: Addr) returns (found: Option<uint32>)
      requires Sorted(Spans(v4, Span4)) && Sorted(Spans(v6, Span6))
      requires Disjoint(Spans(v4, Span4)) && Disjoint(Spans(v6, Span6))
      ensures found == Lookup(a)
    {
      var u := Unmap(a);
      if u.V4? {
        found := Find4(u.x);
      } else {
        found := Find6(u.hi, u.lo);
      }
    }

    ghost function Lookup(a: Addr): Option<uint32>
      reads this
    {
      match Unmap(a)
      case V4(x) => Scan(Spans(v4, Span4), x)
      case V6(hi, lo) => Scan(Spans(v6, Span6), Number(hi, lo))
    }

    method Find4(x: uint32) returns (found: Option<uint32>)
      requires Sorted(Spans(v4, Span4)) && Disjoint(Spans(v4, Span4))
      ensures found == Scan(Spans(v4, Span4), x)
    {
      ghost var spans := Spans(v4, Span4);
      var n := Search(v4, (r: Range4) => r.start > x);
      LastStartDecides(spans, x, n);
      if n > 0 && x <= v4[n - 1].end {
        return Some(v4[n - 1].val);
      }
      return None;
    }

    method Find6(hi: uint64, lo: uint64) returns (found: Option<uint32>)
      requires Sorted(Spans(v6, Span6)) && Disjoint(Spans(v6, Span6))
      ensures found == Scan(Spans(v6, Span6), Number(hi, lo))
    {
      ghost var spans := Spans(v6, Span6);
      forall r: Range6
        ensures WordsLess(hi, lo, r.startHi, r.startLo) <==> Span6(r).from > Number(hi, lo)
      {
        WordsAreNumbers(hi, lo, r.startHi, r.startLo);
      }
      var n := Search(v6, (r: Range6) => WordsLess(hi, lo, r.startHi, r.startLo));
      LastStartDecides(spans, Number(hi, lo), n);
      if n == 0 {
        return None;
      }
      var r := v6[n - 1];
      WordsAreNumbers(hi, lo, r.endHi, r.endLo);
      if hi < r.endHi || (hi == r.endHi && lo <= r.endLo) {
        return Some(r.val);
      }
      return None;
    }
  }

  /**
   Ranges added in any order, sorted and searched: if no two overlap the answer
   is that of scanning them as they were added.
   */
  method SortedLookup(t: Table, a: Addr) returns (found: Option<uint32>)
    requires t.Forward() && Apart(Spans(t.v4, Span4)) && Apart(Spans(t.v6, Span6))
    modifies t
    ensures found == old(t.Lookup(a))
  {
    ghost var was4, was6 := t.v4, t.v6;
    t.Sort();
    DisjointIgnoresOrder(Spans(was4, Span4), Spans(t.v4, Span4));
    DisjointIgnoresOrder(Spans(was6, Span6), Spans(t.v6, Span6));
    match Unmap(a) {
      case V4(x) => ScanIgnoresOrder(Spans(was4, Span4), Spans(t.v4, Span4), x);
      case V6(hi, lo) => ScanIgnoresOrder(Spans(was6, Span6), Spans(t.v6, Span6), Number(hi, lo));
    }
    found := t.Find(a);
  }
}
