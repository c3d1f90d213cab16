/**
 Filtering by an address prefix: the first and last address of the prefix, and
 testing a stored address to lie between them.
 */
module PrefixRange {
  import opened Bytes

  /** Addresses as 4 or 16 bytes. */
  datatype Address = V4(b4: bytes) | V6(b16: bytes) {
    predicate Valid() {
      match this
      case V4(b) => |b| == 4
      case V6(b) => |b| == 16
    }

    function Width(): nat {
      if V4? then 32 else 128
    }

    /** The 16-byte form a column holds; IPv4 is mapped. */
    function As16(): bytes {
      match this
      case V4(b) => MAPPED + b
      case V6(b) => b
    }
  }

  const MAPPED: bytes := [0, 0, 0, 0, 0, 0, 0, 0, 0, 0, 0xFF, 0xFF]

  datatype Prefix = Prefix(addr: Address, bits: nat) {
    predicate Valid() {
      addr.Valid() && bits <= addr.Width()
    }
  }

  // ------------------------------------------------------------------- bits

  function Pow2(n: nat): (p: nat)
    ensures p >= 1
  {
    if n == 0 then 1 else 2 * Pow2(n - 1)
  }

  /** A number of `n` bits. */
  predicate IsWord(o: nat, n: nat) {
    o < Pow2(n)
  }

  /** Such a number without its highest bit. */
  function Below(o: nat, n: nat): (r: nat)
    requires 0 < n && IsWord(o, n)
    ensures IsWord(r, n - 1)
  {
    if o >= Pow2(n - 1) then o - Pow2(n - 1) else o
  }

  /** The bit at a position, the highest first. */
  predicate HasBit(o: nat, n: nat, k: nat)
    requires k < n && IsWord(o, n)
  {
    if k == 0 then o >= Pow2(n - 1) else HasBit(Below(o, n), n - 1, k - 1)
  }

  function High(o: nat, n: nat): nat
    requires 0 < n
  {
    if o >= Pow2(n - 1) then Pow2(n - 1) else 0
  }

  /** The number with that bit set, whatever it was. */
  function SetBit(o: nat, n: nat, k: nat): (r: nat)
    requires k < n && IsWord(o, n)
    ensures IsWord(r, n)
  {
    if k == 0 then Pow2(n - 1) + Below(o, n) else High(o, n) + SetBit(Below(o, n), n - 1, k - 1)
  }

  /** The first `k` bits kept, the others cleared. */
  function Keep(o: nat, n: nat, k: nat): (r: nat)
    requires k <= n && IsWord(o, n)
    ensures IsWord(r, n)
  {
    if k == 0 then 0 else High(o, n) + Keep(Below(o, n), n - 1, k - 1)
  }

  /** The first `k` bits kept, the others set. */
  function Fill(o: nat, n: nat, k: nat): (r: nat)
    requires k <= n && IsWord(o, n)
    ensures IsWord(r, n)
  {
    if k == 0 then Pow2(n) - 1 else High(o, n) + Fill(Below(o, n), n - 1, k - 1)
  }

  predicate SameBits(a: nat, b: nat, n: nat, k: nat)
    requires k <= n && IsWord(a, n) && IsWord(b, n)
  {
    k == 0 || ((a >= Pow2(n - 1) <==> b >= Pow2(n - 1)) && SameBits(Below(a, n), Below(b, n), n - 1, k - 1))
  }

  lemma {:induction false} SetSetsOne(o: nat, n: nat, k: nat, j: nat)
    requires k < n && j < n && IsWord(o, n)
    ensures HasBit(SetBit(o, n, k), n, j) <==> j == k || HasBit(o, n, j)
  {
    if k > 0 && j > 0 {
      SetSetsOne(Below(o, n), n - 1, k - 1, j - 1);
    }
  }

  lemma {:induction false} FillSetsRest(o: nat, n: nat, k: nat, j: nat)
    requires k <= n && j < n && IsWord(o, n)
    ensures HasBit(Fill(o, n, k), n, j) <==> j >= k || HasBit(o, n, j)
  {
    if j > 0 {
      FillSetsRest(Below(o, n), n - 1, if k > 0 then k - 1 else 0, j - 1);
    }
  }

  /** The numbers between clearing and setting the rest share the first bits. */
  lemma {:induction false} RangeIsSameBits(o: nat, x: nat, n: nat, k: nat)
    requires k <= n && IsWord(o, n) && IsWord(x, n)
    ensures Keep(o, n, k) <= x <= Fill(o, n, k) <==> SameBits(x, o, n, k)
  {
    if k > 0 {
      RangeIsSameBits(Below(o, n), Below(x, n), n - 1, k - 1);
    }
  }

  lemma {:induction false} FillAfterKeep(o: nat, n: nat, k: nat)
    requires k <= n && IsWord(o, n)
    ensures Fill(Keep(o, n, k), n, k) == Fill(o, n, k)
  {
    if k > 0 {
      FillAfterKeep(Below(o, n), n - 1, k - 1);
    }
  }

  lemma {:induction false} EqualIsSameBits(a: nat, b: nat, n: nat)
    requires IsWord(a, n) && IsWord(b, n)
    ensures a == b <==> SameBits(a, b, n, n)
  {
    if n > 0 {
      EqualIsSameBits(Below(a, n), Below(b, n), n - 1);
    }
  }

  predicate AllSame(a: nat, b: nat, n: nat, k: nat)
    requires k <= n && IsWord(a, n) && IsWord(b, n)
  {
    forall i :: 0 <= i < k ==> HasBit(a, n, i) == HasBit(b, n, i)
  }

  lemma AllSameSplits(a: nat, b: nat, n: nat, k: nat)
    requires 0 < k <= n && IsWord(a, n) && IsWord(b, n)
    ensures AllSame(a, b, n, k)
       <==> HasBit(a, n, 0) == HasBit(b, n, 0) && AllSame(Below(a, n), Below(b, n), n - 1, k - 1)
  {
    var a', b', m := Below(a, n), Below(b, n), n - 1;
    if AllSame(a, b, n, k) {
      forall i | 0 <= i < k - 1
        ensures HasBit(a', m, i) == HasBit(b', m, i)
      {
        assert HasBit(a, n, i + 1) == HasBit(b, n, i + 1);
      }
    }
    if HasBit(a, n, 0) == HasBit(b, n, 0) && AllSame(a', b', m, k - 1) {
      forall i | 0 <= i < k
        ensures HasBit(a, n, i) == HasBit(b, n, i)
      {
        assert i > 0 ==> HasBit(a', m, i - 1) == HasBit(b', m, i - 1);
      }
    }
  }

  lemma {:induction false} SameBitsIsAll(a: nat, b: nat, n: nat, k: nat)
    requires k <= n && IsWord(a, n) && IsWord(b, n)
    ensures SameBits(a, b, n, k) <==> AllSame(a, b, n, k)
  {
    if k > 0 {
      AllSameSplits(a, b, n, k);
      SameBitsIsAll(Below(a, n), Below(b, n), n - 1, k - 1);
    }
  }

  lemma ByteIsWord(o: byte)
    ensures IsWord(o, 8) && Pow2(8) == 256
  {
    assert Pow2(2) == 4 && Pow2(4) == 16 && Pow2(6) == 64;
  }

  predicate Bit(a: bytes, i: nat)
    requires i < 8 * |a|
  {
    ByteIsWord(a[i / 8]);
    HasBit(a[i / 8], 8, i % 8)
  }

  predicate AgreeOnBits(a: bytes, b: bytes, bits: nat)
    requires |a| == |b| && bits <= 8 * |a|
  {
    forall i :: 0 <= i < bits ==> Bit(a, i) == Bit(b, i)
  }

  lemma BitOfTail(a: bytes, i: nat)
    requires a != [] && 8 <= i < 8 * |a|
    ensures i - 8 < 8 * |a[1..]| && Bit(a, i) == Bit(a[1..], i - 8)
  {
    assert (i - 8) / 8 == i / 8 - 1 && (i - 8) % 8 == i % 8;
  }

  lemma BitOfHead(a: bytes, i: nat)
    requires a != [] && i < 8
    ensures IsWord(a[0], 8) && Bit(a, i) == HasBit(a[0], 8, i)
  {
    ByteIsWord(a[0]);
  }

  // ------------------------------------------------------------------- spec

  /** The network: every bit from `bits` on cleared. */
  function Masked(a: bytes, bits: nat): (r: bytes)
    ensures |r| == |a|
  {
    if a == [] then []
    else if bits >= 8 then [a[0]] + Masked(a[1..], bits - 8)
    else
      ByteIsWord(a[0]);
      [Keep(a[0], 8, bits)] + Masked(a[1..], 0)
  }

  /** The last address: every bit from `bits` on set. */
  function Filled(a: bytes, bits: nat): (r: bytes)
    ensures |r| == |a|
  {
    if a == [] then []
    else if bits >= 8 then [a[0]] + Filled(a[1..], bits - 8)
    else
      ByteIsWord(a[0]);
      [Fill(a[0], 8, bits)] + Filled(a[1..], 0)
  }

  /** Byte by byte, as 16-byte columns are compared. */
  predicate AtMost(a: bytes, b: bytes)
    requires |a| == |b|
  {
    a == [] || a[0] < b[0] || (a[0] == b[0] && AtMost(a[1..], b[1..]))
  }

  predicate Between(lo: bytes, hi: bytes, x: bytes)
    requires |lo| == |hi| == |x|
  {
    AtMost(lo, x) && AtMost(x, hi)
  }

  /** Agreement byte by byte, the last one bit by bit. */
  predicate SamePrefix(a: bytes, b: bytes, bits: nat)
    requires |a| == |b|
  {
    a == [] ||
    if bits >= 8 then a[0] == b[0] && SamePrefix(a[1..], b[1..], bits - 8)
    else
      ByteIsWord(a[0]);
      ByteIsWord(b[0]);
      SameBits(a[0], b[0], 8, bits)
  }

  lemma {:induction false} LowestAndHighest(a: bytes, x: bytes)
    requires |a| == |x|
    ensures AtMost(Masked(a, 0), x) && AtMost(x, Filled(a, 0))
  {
    if a != [] {
      ByteIsWord(a[0]);
      LowestAndHighest(a[1..], x[1..]);
      assert Masked(a, 0)[1..] == Masked(a[1..], 0) && Filled(a, 0)[1..] == Filled(a[1..], 0);
    }
  }

  /** With the rest unconstrained, the first byte decides. */
  lemma FirstByteDecides(lo: bytes, hi: bytes, x: bytes)
    requires |lo| == |hi| == |x| > 0
    requires AtMost(lo[1..], x[1..]) && AtMost(x[1..], hi[1..])
    ensures Between(lo, hi, x) <==> lo[0] <= x[0] <= hi[0]
  {
  }

  lemma {:induction false} BetweenIsSamePrefix(a: bytes, x: bytes, bits: nat)
    requires |a| == |x|
    ensures Between(Masked(a, bits), Filled(a, bits), x) <==> SamePrefix(x, a, bits)
    decreases |a|
  {
    if a != [] {
      if bits >= 8 {
        BetweenIsSamePrefix(a[1..], x[1..], bits - 8);
        assert Masked(a, bits)[1..] == Masked(a[1..], bits - 8) && Filled(a, bits)[1..] == Filled(a[1..], bits - 8);
      } else {
        LowestAndHighest(a[1..], x[1..]);
        assert Masked(a, bits)[1..] == Masked(a[1..], 0) && Filled(a, bits)[1..] == Filled(a[1..], 0);
        FirstByteDecides(Masked(a, bits), Filled(a, bits), x);
        ByteIsWord(a[0]);
        ByteIsWord(x[0]);
        RangeIsSameBits(a[0], x[0], 8, bits);
      }
    }
  }

  lemma AgreeOnHead(a: bytes, b: bytes, k: nat)
    requires |a| == |b| && a != [] && k <= 8
    ensures IsWord(a[0], 8) && IsWord(b[0], 8) && (AgreeOnBits(a, b, k) <==> SameBits(a[0], b[0], 8, k))
  {
    ByteIsWord(a[0]);
    ByteIsWord(b[0]);
    SameBitsIsAll(a[0], b[0], 8, k);
    forall i | 0 <= i < k
      ensures Bit(a, i) == HasBit(a[0], 8, i) && Bit(b, i) == HasBit(b[0], 8, i)
    {
      BitOfHead(a, i);
      BitOfHead(b, i);
    }
    if AgreeOnBits(a, b, k) {
      forall i | 0 <= i < k
        ensures HasBit(a[0], 8, i) == HasBit(b[0], 8, i)
      {
        assert Bit(a, i) == Bit(b, i);
      }
    }
    if SameBits(a[0], b[0], 8, k) {
      forall i | 0 <= i < k
        ensures Bit(a, i) == Bit(b, i)
      {
        assert HasBit(a[0], 8, i) == HasBit(b[0], 8, i);
      }
    }
  }

  lemma AgreeOnTail(a: bytes, b: bytes, bits: nat)
    requires |a| == |b| && a != [] && 8 <= bits <= 8 * |a|
    ensures AgreeOnBits(a, b, bits) <==> AgreeOnBits(a, b, 8) && AgreeOnBits(a[1..], b[1..], bits - 8)
  {
    forall i | 8 <= i < bits
      ensures Bit(a, i) == Bit(a[1..], i - 8) && Bit(b, i) == Bit(b[1..], i - 8)
    {
      BitOfTail(a, i);
      BitOfTail(b, i);
    }
    if AgreeOnBits(a, b, bits) {
      forall i | 0 <= i < bits - 8
        ensures Bit(a[1..], i) == Bit(b[1..], i)
      {
        assert Bit(a, i + 8) == Bit(b, i + 8);
      }
    }
    if AgreeOnBits(a, b, 8) && AgreeOnBits(a[1..], b[1..], bits - 8) {
      forall i | 0 <= i < bits
        ensures Bit(a, i) == Bit(b, i)
      {
        assert i >= 8 ==> Bit(a[1..], i - 8) == Bit(b[1..], i - 8);
      }
    }
  }

  /** Agreement byte by byte is agreement on every one of the first bits. */
  lemma {:induction false} SamePrefixIsBits(a: bytes, b: bytes, bits: nat)
    requires |a| == |b| && bits <= 8 * |a|
    ensures SamePrefix(a, b, bits) <==> AgreeOnBits(a, b, bits)
    decreases |a|
  {
    if a != [] {
      AgreeOnHead(a, b, if bits >= 8 then 8 else bits);
      if bits >= 8 {
        EqualIsSameBits(a[0], b[0], 8);
        SamePrefixIsBits(a[1..], b[1..], bits - 8);
        AgreeOnTail(a, b, bits);
      }
    }
  }

  // ------------------------------------------------------------ main theorem

  function Shift(p: Prefix): nat {
    if p.addr.V4? then p.bits + 96 else p.bits
  }

  function Network(p: Prefix): bytes {
    Masked(p.addr.As16(), Shift(p))
  }

  function Last(p: Prefix): bytes {
    Filled(p.addr.As16(), Shift(p))
  }

  /**
   A stored address lies between the ends of a prefix, however long, exactly
   when it agrees with the prefix's address on the prefix's bits, counted from
   the start of the mapped form.
   */
  lemma BetweenIsMembership(p: Prefix, x: bytes)
    requires p.Valid() && |x| == 16
    ensures |p.addr.As16()| == 16 && Shift(p) <= 128
    ensures Between(Network(p), Last(p), x) <==> AgreeOnBits(x, p.addr.As16(), Shift(p))
  {
    BetweenIsSamePrefix(p.addr.As16(), x, Shift(p));
    SamePrefixIsBits(x, p.addr.As16(), Shift(p));
  }

  /** Every address an IPv4 prefix selects is IPv4, and agrees with it on its own bits. */
  lemma Ipv4PrefixSelectsIpv4(p: Prefix, x: bytes)
    requires p.Valid() && p.addr.V4? && |x| == 16
    ensures Between(Network(p), Last(p), x) <==> x[..12] == MAPPED && AgreeOnBits(x[12..], p.addr.b4, p.bits)
  {
    var b := p.addr.As16();
    BetweenIsSamePrefix(b, x, Shift(p));
    SamePrefixSplits(x, b, p.bits, 12);
    assert b[..12] == MAPPED && b[12..] == p.addr.b4;
    SamePrefixIsBits(x[12..], b[12..], p.bits);
  }

  lemma {:induction false} SamePrefixSplits(a: bytes, b: bytes, bits: nat, k: nat)
    requires |a| == |b| && k <= |a|
    ensures SamePrefix(a, b, bits + 8 * k) <==> a[..k] == b[..k] && SamePrefix(a[k..], b[k..], bits)
  {
    if k > 0 {
      SamePrefixSplits(a[1..], b[1..], bits, k - 1);
      assert a[1..][k - 1..] == a[k..] && b[1..][k - 1..] == b[k..];
      assert a[..k] == [a[0]] + a[1..][..k - 1] && b[..k] == [b[0]] + b[1..][..k - 1];
      assert bits + 8 * k - 8 == bits + 8 * (k - 1);
    } else {
      assert a[0..] == a && b[0..] == b;
    }
  }

  // ---------------------------------------------------------------- the loop

  function SetIn(a: bytes, i: nat): (r: bytes)
    requires i < 8 * |a|
    ensures |r| == |a|
  {
    ByteIsWord(a[i / 8]);
    a[i / 8 := SetBit(a[i / 8], 8, i % 8)]
  }

  lemma SetInSetsOne(a: bytes, i: nat, j: nat)
    requires i < 8 * |a| && j < 8 * |a|
    ensures Bit(SetIn(a, i), j) <==> j == i || Bit(a, j)
  {
    ByteIsWord(a[i / 8]);
    if i / 8 == j / 8 {
      SetSetsOne(a[i / 8], 8, i % 8, j % 8);
      assert j == i <==> j % 8 == i % 8;
    }
  }

  /** Which bits the loop has set when it reaches `i`. */
  predicate SetUpTo(hi: bytes, lo: bytes, bits: nat, i: nat)
    requires |hi| == |lo|
  {
    forall j :: 0 <= j < 8 * |lo| ==> (Bit(hi, j) <==> Bit(lo, j) || bits <= j < i)
  }

  lemma SetKeepsOthers(hi: bytes, lo: bytes, bits: nat, i: nat)
    requires |hi| == |lo| && bits <= i < 8 * |lo| && SetUpTo(hi, lo, bits, i)
    ensures SetUpTo(SetIn(hi, i), lo, bits, i + 1)
  {
    forall j | 0 <= j < 8 * |lo|
      ensures Bit(SetIn(hi, i), j) <==> Bit(lo, j) || bits <= j < i + 1
    {
      SetInSetsOne(hi, i, j);
    }
  }

  lemma FilledHead(a: bytes, bits: nat, i: nat)
    requires a != [] && i < 8
    ensures Bit(Filled(a, bits), i) <==> Bit(a, i) || i >= bits
  {
    BitOfHead(a, i);
    BitOfHead(Filled(a, bits), i);
    if bits < 8 {
      FillSetsRest(a[0], 8, bits, i);
    }
  }

  /** Past the first byte, filling a string is filling its rest. */
  lemma FilledTail(a: bytes, bits: nat, i: nat)
    requires a != [] && 8 <= i < 8 * |a|
    ensures var rest := if bits >= 8 then bits - 8 else 0;
            Bit(Filled(a, bits), i) == Bit(Filled(a[1..], rest), i - 8)
  {
    var rest := if bits >= 8 then bits - 8 else 0;
    assert Filled(a, bits)[1..] == Filled(a[1..], rest);
    BitOfTail(Filled(a, bits), i);
  }

  lemma {:induction false} FilledBits(a: bytes, bits: nat, i: nat)
    requires i < 8 * |a|
    ensures Bit(Filled(a, bits), i) <==> Bit(a, i) || i >= bits
    decreases |a|
  {
    if i < 8 {
      FilledHead(a, bits, i);
    } else {
      BitOfTail(a, i);
      FilledTail(a, bits, i);
      FilledBits(a[1..], if bits >= 8 then bits - 8 else 0, i - 8);
    }
  }

  /** Bytes are their bits. */
  lemma SameBitsSameBytes(a: bytes, b: bytes)
    requires |a| == |b| && forall i :: 0 <= i < 8 * |a| ==> Bit(a, i) == Bit(b, i)
    ensures a == b
  {
    forall k | 0 <= k < |a|
      ensures a[k] == b[k]
    {
      ByteIsWord(a[k]);
      ByteIsWord(b[k]);
      forall j | 0 <= j < 8
        ensures HasBit(a[k], 8, j) == HasBit(b[k], 8, j)
      {
        assert (8 * k + j) / 8 == k && (8 * k + j) % 8 == j;
        assert Bit(a, 8 * k + j) == Bit(b, 8 * k + j);
      }
      SameBitsIsAll(a[k], b[k], 8, 8);
      EqualIsSameBits(a[k], b[k], 8);
    }
  }

  lemma LoopFills(hi: bytes, lo: bytes, bits: nat)
    requires |hi| == |lo| && SetUpTo(hi, lo, bits, 8 * |lo|)
    ensures hi == Filled(lo, bits)
  {
    forall i | 0 <= i < 8 * |lo|
      ensures Bit(hi, i) == Bit(Filled(lo, bits), i)
    {
      FilledBits(lo, bits, i);
    }
    SameBitsSameBytes(hi, Filled(lo, bits));
  }

  /** The ends of a prefix, the last by setting bits one by one. */
  method Range(p: Prefix) returns (lo: bytes, hi: bytes)
    requires p.Valid()
    ensures lo == p.addr.As16() && hi == Last(p)
  {
    lo := p.addr.As16();
    var bits := p.bits;
    if p.addr.V4? {
      bits := bits + 96;
    }
    var start := lo;
    var last := new byte[16](i requires 0 <= i < 16 => start[i]);
    hi := SetFrom(last, bits, lo);
  }

  method SetFrom(last: array<byte>, bits: nat, ghost lo: bytes) returns (hi: bytes)
    requires last.Length == 16 && last[..] == lo && bits <= 128
    modifies last
    ensures hi == Filled(lo, bits)
  {
    var i := bits;
    while i < 128
      invariant bits <= i <= 128
      invariant SetUpTo(last[..], lo, bits, i)
    {
      ghost var before := last[..];
      SetKeepsOthers(before, lo, bits, i);
      ByteIsWord(last[i / 8]);
      last[i / 8] := SetBit(last[i / 8], 8, i % 8);
      assert last[..] == SetIn(before, i);
      i := i + 1;
    }
    hi := last[..];
    LoopFills(hi, lo, bits);
  }

  // ------------------------------------------------------ the compiled filter

  /** A prefix with its host bits cleared. */
  function Canonical(p: Prefix): Prefix {
    Prefix(match p.addr case V4(b) => V4(Masked(b, p.bits)) case V6(b) => V6(Masked(b, p.bits)), p.bits)
  }

  lemma {:induction false} FilledOfMasked(a: bytes, bits: nat)
    ensures Filled(Masked(a, bits), bits) == Filled(a, bits)
  {
    if a != [] {
      if bits < 8 {
        ByteIsWord(a[0]);
        FillAfterKeep(a[0], 8, bits);
        FilledOfMasked(a[1..], 0);
        assert Masked(a, bits)[1..] == Masked(a[1..], 0);
      } else {
        FilledOfMasked(a[1..], bits - 8);
        assert Masked(a, bits)[1..] == Masked(a[1..], bits - 8);
      }
    }
  }

  lemma {:induction false} MaskedSkips(front: bytes, b: bytes, bits: nat)
    ensures Masked(front + b, bits + 8 * |front|) == front + Masked(b, bits)
  {
    if front == [] {
      assert front + b == b;
    } else {
      assert (front + b)[1..] == front[1..] + b;
      MaskedSkips(front[1..], b, bits);
    }
  }

  lemma CanonicalEnds(p: Prefix)
    requires p.Valid()
    ensures Canonical(p).Valid() && Canonical(p).addr.As16() == Network(p) && Last(Canonical(p)) == Last(p)
  {
    if p.addr.V4? {
      MaskedSkips(MAPPED, p.addr.b4, p.bits);
    }
    FilledOfMasked(p.addr.As16(), Shift(p));
  }

  /** A prefix filter as compiled: the stored addresses between the ends are the prefix's. */
  method Condition(p: Prefix) returns (lo: bytes, hi: bytes)
    requires p.Valid()
    ensures |lo| == |hi| == |p.addr.As16()| == 16 && Shift(p) <= 128
    ensures forall x: bytes :: |x| == 16 ==> (Between(lo, hi, x) <==> AgreeOnBits(x, p.addr.As16(), Shift(p)))
  {
    CanonicalEnds(p);
    lo, hi := Range(Canonical(p));
    forall x: bytes | |x| == 16
      ensures Between(lo, hi, x) <==> AgreeOnBits(x, p.addr.As16(), Shift(p))
    {
      BetweenIsMembership(p, x);
    }
  }
}
