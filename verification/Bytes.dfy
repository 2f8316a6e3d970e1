/** Bytes and the big-endian fields of the Teltonika wire formats (Node's Buffer reads and writes). */
module Bytes {
  /** One octet of a buffer. */
  type byte = x: int | 0 <= x < 256

  function U16(s: seq<byte>, off: nat): (v: nat)
    requires off + 2 <= |s|
    ensures v < 0x1_0000
  {
    s[off] as int * 0x100 + s[off + 1] as int
  }

  function U32(s: seq<byte>, off: nat): (v: nat)
    requires off + 4 <= |s|
    ensures v < 0x1_0000_0000
  {
    U16(s, off) * 0x1_0000 + U16(s, off + 2)
  }

  function U64(s: seq<byte>, off: nat): (v: nat)
    requires off + 8 <= |s|
    ensures v < 0x1_0000_0000_0000_0000
  {
    U32(s, off) * 0x1_0000_0000 + U32(s, off + 4)
  }

  /** Two's complement reading of an unsigned value of `modulus` values. */
  function Signed(u: nat, modulus: nat): (v: int)
    requires u < modulus && modulus % 2 == 0
    ensures -(modulus / 2) <= v < modulus / 2
  {
    if u < modulus / 2 then u else u - modulus
  }

  function Unsigned(v: int, modulus: nat): (u: nat)
    requires modulus % 2 == 0 && -(modulus / 2) <= v < modulus / 2
    ensures u < modulus && Signed(u, modulus) == v
  {
    if v >= 0 then v else v + modulus
  }

  function W16(v: nat): (s: seq<byte>)
    requires v < 0x1_0000
    ensures |s| == 2 && U16(s, 0) == v
  {
    [v / 0x100, v % 0x100]
  }

  function W32(v: nat): (s: seq<byte>)
    requires v < 0x1_0000_0000
    ensures |s| == 4 && U32(s, 0) == v
  {
    var s := W16(v / 0x1_0000) + W16(v % 0x1_0000);
    assert s[0] == W16(v / 0x1_0000)[0] && s[1] == W16(v / 0x1_0000)[1];
    s
  }

  function W64(v: nat): (s: seq<byte>)
    requires v < 0x1_0000_0000_0000_0000
    ensures |s| == 8 && U64(s, 0) == v
  {
    var hi, lo := W32(v / 0x1_0000_0000), W32(v % 0x1_0000_0000);
    var s := hi + lo;
    assert s[0..4] == hi && s[4..8] == lo;
    SliceReads(s, 0, 4);
    SliceReads(s, 4, 8);
    s
  }

  /** Unsigned big-endian value of a whole buffer (BigInt of its hex string). */
  function Big(s: seq<byte>): nat {
    if s == [] then 0 else Big(s[..|s| - 1]) * 0x100 + s[|s| - 1] as int
  }

  /** The fields are the big-endian values of their bytes. */
  lemma BigLastTwo(s: seq<byte>)
    requires |s| >= 2
    ensures Big(s) == Big(s[..|s| - 2]) * 0x1_0000 + U16(s, |s| - 2)
  {
    assert s[..|s| - 1][..|s| - 2] == s[..|s| - 2];
  }

  lemma BigLastFour(s: seq<byte>)
    requires |s| >= 4
    ensures Big(s) == Big(s[..|s| - 4]) * 0x1_0000_0000 + U32(s, |s| - 4)
  {
    hide Big, U16;
    var front := s[..|s| - 2];
    BigLastTwo(s);
    BigLastTwo(front);
    assert front[..|s| - 4] == s[..|s| - 4];
    assert U16(front, |s| - 4) == U16(s, |s| - 4) by { SameU16(front, s, |s| - 4); }
  }

  lemma SameU16(s: seq<byte>, t: seq<byte>, off: nat)
    requires off + 2 <= |s| <= |t| && t[..|s|] == s
    ensures U16(s, off) == U16(t, off)
  {
    assert s[off] == t[off] && s[off + 1] == t[off + 1];
  }

  lemma BigOfFields(s: seq<byte>)
    ensures |s| == 1 ==> Big(s) == s[0]
    ensures |s| == 2 ==> Big(s) == U16(s, 0)
    ensures |s| == 4 ==> Big(s) == U32(s, 0)
    ensures |s| == 8 ==> Big(s) == U64(s, 0)
  {
    if |s| == 1 || |s| == 2 {
      assert Big(s[..0]) == 0;
      if |s| == 2 { BigLastTwo(s); }
    } else if |s| == 4 {
      assert Big(s[..0]) == 0;
      BigLastFour(s);
    } else if |s| == 8 {
      BigOfEight(s);
    }
  }

  lemma BigOfEight(s: seq<byte>)
    requires |s| == 8
    ensures Big(s) == U64(s, 0)
  {
    hide U16;
    var front := s[..4];
    assert front[..0] == [] && Big([]) == 0;
    hide Big;
    BigLastFour(s);
    BigLastFour(front);
    SameU16(front, s, 0);
    SameU16(front, s, 2);
  }

  /** A field read inside a slice is the same field of the whole buffer. */
  lemma SliceReads(s: seq<byte>, lo: nat, hi: nat)
    requires lo <= hi <= |s|
    ensures hi - lo >= 2 ==> U16(s[lo..hi], 0) == U16(s, lo)
    ensures hi - lo >= 4 ==> U32(s[lo..hi], 0) == U32(s, lo)
  {
  }

  lemma FieldIsUnique(b: seq<byte>, off: nat)
    requires off + 4 <= |b|
    ensures W32(U32(b, off)) == b[off..off + 4]
  {
    var v := U32(b, off);
    assert v / 0x1_0000 == U16(b, off) && v % 0x1_0000 == U16(b, off + 2);
    assert W16(U16(b, off)) == b[off..off + 2] && W16(U16(b, off + 2)) == b[off + 2..off + 4];
    assert b[off..off + 4] == b[off..off + 2] + b[off + 2..off + 4];
  }

  lemma ShortFieldIsUnique(b: seq<byte>, off: nat)
    requires off + 2 <= |b|
    ensures W16(U16(b, off)) == b[off..off + 2]
  {
  }

  lemma SliceOfSlice(s: seq<byte>, from: nat, to: nat, lo: nat, hi: nat)
    requires from <= to <= |s| && lo <= hi <= to - from
    ensures s[from..to][lo..hi] == s[from + lo..from + hi]
  {
    var a, b := s[from..to][lo..hi], s[from + lo..from + hi];
    assert |a| == |b| && forall k :: 0 <= k < |a| ==> a[k] == b[k];
  }

  /** `Buffer.subarray`: indices are clamped, a crossed range is empty. */
  function Subarray(s: seq<byte>, lo: nat, hi: nat): (r: seq<byte>)
    ensures lo <= hi <= |s| ==> r == s[lo..hi]
    ensures hi <= lo ==> r == []
  {
    if lo <= hi <= |s| then s[lo..hi] else if hi <= lo || |s| <= lo then [] else s[lo..]
  }
}
