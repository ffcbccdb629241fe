/** Byte strings: four-byte alignment, and pieces standing at a position. */
module Bytes {
  import opened Machine

  function AlignUp4(v: nat): (r: nat)
    ensures v <= r < v + 4 && r % 4 == 0
  {
    v + 3 - (v + 3) % 4
  }

  function Ascii(s: string): (b: seq<byte>)
    requires forall i :: 0 <= i < |s| ==> s[i] < 128 as char
    ensures |b| == |s| && forall i :: 0 <= i < |s| ==> b[i] == s[i] as int
  {
    seq(|s|, i requires 0 <= i < |s| => s[i] as int)
  }

  function Zeros(n: nat): (z: seq<byte>)
    ensures |z| == n
  {
    seq(n, _ => 0)
  }

  function PadLen(n: nat): nat { (4 - n % 4) % 4 }

  lemma PaddedLength(c: nat, n: nat)
    requires c % 4 == 0
    ensures (n + PadLen(n)) % 4 == 0 && AlignUp4(c + n) == c + n + PadLen(n) && (c + n + PadLen(n)) % 4 == 0
  {
    PadReaches(n);
    Mod4Sum(c, n + PadLen(n));
    NextMultiple(c + n, c + n + PadLen(n));
  }

  lemma PadReaches(n: nat)
    ensures (n + PadLen(n)) % 4 == 0 && PadLen(n) < 4
  {
  }

  /** The multiple of four at or above `v` is unique within four. */
  lemma NextMultiple(v: nat, r: nat)
    requires v <= r < v + 4 && r % 4 == 0
    ensures AlignUp4(v) == r
  {
  }

  lemma Mod4Sum(a: nat, b: nat)
    requires a % 4 == 0 && b % 4 == 0
    ensures (a + b) % 4 == 0
  {
  }

  /** The bytes `e` stand in `s` at position `c`. */
  ghost predicate At(s: seq<byte>, c: nat, e: seq<byte>) { c + |e| <= |s| && s[c..c + |e|] == e }

  lemma AtSplit(s: seq<byte>, c: nat, a: seq<byte>, b: seq<byte>)
    requires At(s, c, a + b)
    ensures At(s, c, a) && At(s, c + |a|, b)
  {
    var e := s[c..c + |a + b|];
    assert e[..|a|] == a && e[|a|..] == b;
    assert s[c..c + |a|] == e[..|a|] && s[c + |a|..c + |a| + |b|] == e[|a|..];
  }
}
