/** Big-endian words over byte sequences, and the value of a byte string. */
module Bytes {
  import opened Wrap

  type byte = x: int | 0 <= x < 0x100
  type bytes = seq<byte>
  type uint16 = x: int | 0 <= x < 0x1_0000
  type uint32 = x: int | 0 <= x < 0x1_0000_0000

  /** An address after unmapping: 4 or 16 bytes, or none. */
  type Addr = bytes

  function U16(b: bytes, off: nat): uint16
    requires off + 2 <= |b|
  {
    (b[off] as int) * 0x100 + b[off + 1]
  }

  function U32(b: bytes, off: nat): uint32
    requires off + 4 <= |b|
  {
    (U16(b, off) as int) * 0x1_0000 + U16(b, off + 2)
  }

  lemma WordExists(v: uint16)
    ensures exists b: bytes :: |b| == 2 && U16(b, 0) == v
  {
    var b: bytes := [v / 0x100, v % 0x100];
    assert |b| == 2 && U16(b, 0) == v;
  }

  /** The two bytes that read back as `v`. */
  ghost function PutU16(v: uint16): (b: bytes)
    ensures |b| == 2 && U16(b, 0) == v
  {
    WordExists(v);
    var b: bytes :| |b| == 2 && U16(b, 0) == v;
    b
  }

  lemma LongWordExists(v: uint32)
    ensures exists b: bytes :: |b| == 4 && U32(b, 0) == v
  {
    var hi, lo := v / 0x1_0000, v % 0x1_0000;
    var b := PutU16(hi) + PutU16(lo);
    assert |b| == 4 && U16(b, 0) == hi && U16(b, 2) == lo;
    assert U32(b, 0) == v;
  }

  /** The four bytes that read back as `v`. */
  ghost function PutU32(v: uint32): (b: bytes)
    ensures |b| == 4 && U32(b, 0) == v
  {
    LongWordExists(v);
    var b: bytes :| |b| == 4 && U32(b, 0) == v;
    b
  }

  lemma U16At(pre: bytes, v: uint16, post: bytes)
    ensures U16(pre + PutU16(v) + post, |pre|) == v
  {
    var b := pre + PutU16(v) + post;
    assert b[|pre|] == PutU16(v)[0] && b[|pre| + 1] == PutU16(v)[1];
  }

  lemma U32At(pre: bytes, v: uint32, post: bytes)
    ensures U32(pre + PutU32(v) + post, |pre|) == v
  {
    var b := pre + PutU32(v) + post;
    assert forall i :: 0 <= i < 4 ==> b[|pre| + i] == PutU32(v)[i];
  }

  /** `part` lies in `body` at `off`. */
  ghost predicate At(body: bytes, off: nat, part: bytes) {
    off + |part| <= |body| && body[off..off + |part|] == part
  }

  lemma AtSplits(body: bytes, off: nat, head: bytes, tail: bytes)
    requires At(body, off, head + tail)
    ensures At(body, off, head) && At(body, off + |head|, tail)
    ensures off + |head| + |tail| <= |body|
  {
    var whole := body[off..off + |head| + |tail|];
    assert whole[..|head|] == head && whole[|head|..] == tail;
  }

  lemma AtFront(part: bytes, rest: bytes)
    ensures At(part + rest, 0, part)
  {
  }

  /** Words read from the middle of a buffer are words of the part that lies there. */
  lemma WordsAt(body: bytes, off: nat, part: bytes, i: nat)
    requires At(body, off, part)
    ensures off + |part| <= |body|
    ensures i + 2 <= |part| ==> U16(body, off + i) == U16(part, i)
    ensures i + 4 <= |part| ==> U32(body, off + i) == U32(part, i)
  {
    var window := body[off..off + |part|];
    assert forall k :: 0 <= k < |part| ==> body[off + k] == window[k];
  }

  /** The number a byte string denotes, of any width. */
  function Value(b: bytes): nat {
    if b == [] then 0 else Value(b[..|b| - 1]) * 0x100 + b[|b| - 1]
  }

  /** What the decoder's shift loop leaves in a uint64. */
  method BeUint(b: bytes) returns (v: uint64)
    ensures v == Wrap64(Value(b))
  {
    v := 0;
    assert b[..0] == [];
    for i := 0 to |b|
      invariant v == Wrap64(Value(b[..i]))
    {
      assert b[..i + 1][..i] == b[..i];
      WrapProduct(Value(b[..i]), 0x100);
      WrapSum(Value(b[..i]) * 0x100, b[i]);
      WrapSum(v * 0x100, b[i]);
      v := Wrap64(v * 0x100 + b[i]);
    }
    assert b[..|b|] == b;
  }
}
