/** Hexadecimal text: the digits both parsers accept, and the digits Python's
    `%08X` formatting prints. */
module Hex {
  import opened Machine

  function Nibble(b: byte): Option<nat> {
    if 48 <= b <= 57 then Some(b - 48)
    else if 97 <= b <= 102 then Some(b - 97 + 10)
    else if 65 <= b <= 70 then Some(b - 65 + 10)
    else None
  }

  const LOWER: string := "0123456789abcdef"
  const UPPER: string := "0123456789ABCDEF"

  /** The digits are those of the two alphabets, each with its place as value. */
  lemma NibbleMeans(b: byte, v: nat)
    ensures Nibble(b) == Some(v) <==> v < 16 && (b == LOWER[v] as int || b == UPPER[v] as int)
  {
  }

  predicate IsHex(s: seq<byte>) { forall i :: 0 <= i < |s| ==> Nibble(s[i]).Some? }

  function HexValue(s: seq<byte>): nat
    requires IsHex(s)
  {
    if s == [] then 0 else HexValue(s[..|s| - 1]) * 16 + Nibble(s[|s| - 1]).value
  }

  lemma {:induction false} HexGrows(s: seq<byte>, k: nat)
    requires IsHex(s) && k <= |s|
    ensures HexValue(s[..k]) <= HexValue(s)
    decreases |s|
  {
    if k < |s| {
      assert s[..|s| - 1][..k] == s[..k];
      HexGrows(s[..|s| - 1], k);
    } else {
      assert s[..k] == s;
    }
  }

  lemma HexStep(s: seq<byte>, i: nat)
    requires i < |s| && IsHex(s[..i]) && Nibble(s[i]).Some?
    ensures IsHex(s[..i + 1]) && HexValue(s[..i + 1]) == HexValue(s[..i]) * 16 + Nibble(s[i]).value
  {
    assert s[..i + 1][..i] == s[..i] && s[..i + 1][i] == s[i];
  }

  function Digit(v: nat): byte
    requires v < 16
  {
    if v < 10 then 48 + v else 55 + v
  }

  /** At least `width` upper-case digits, more when the value needs them. */
  function Print(v: nat, width: nat): seq<byte>
    decreases width, v
  {
    if v < 16 && width <= 1 then [Digit(v)]
    else Print(v / 16, if width == 0 then 0 else width - 1) + [Digit(v % 16)]
  }

  function Pow16(k: nat): (p: nat)
    ensures p >= 1
  {
    if k == 0 then 1 else 16 * Pow16(k - 1)
  }

  /** Printing fills exactly the width when the value fits it, else overflows it. */
  lemma {:induction false} PrintLength(v: nat, width: nat)
    requires width >= 1
    ensures |Print(v, width)| >= width && (|Print(v, width)| == width <==> v < Pow16(width))
    decreases width, v
  {
    if width == 1 {
      if v >= 16 { PrintNonEmpty(v / 16, 0); }
    } else {
      PrintLength(v / 16, width - 1);
    }
  }

  lemma PrintNonEmpty(v: nat, width: nat)
    ensures |Print(v, width)| >= 1
  {
  }

  /** What is printed reads back. */
  lemma {:induction false} PrintReads(v: nat, width: nat)
    ensures IsHex(Print(v, width)) && HexValue(Print(v, width)) == v
    decreases width, v
  {
    if v < 16 && width <= 1 {
      assert [Digit(v)][..0] == [];
    } else {
      var front := Print(v / 16, if width == 0 then 0 else width - 1);
      PrintReads(v / 16, if width == 0 then 0 else width - 1);
      assert (front + [Digit(v % 16)])[..|front|] == front;
    }
  }
}
