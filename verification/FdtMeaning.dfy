/** What the bytes of a devicetree blob mean, read off the Devicetree
    Specification v0.4 and apart from the lookups: big-endian numbers, node
    names with unit addresses, header fields and structure-block tokens. */
module FdtMeaning {
  import opened Machine
  import opened Bytes
  import opened Hex
  import opened Fdt

  // ------------------------------------------------------------------ numbers

  /** The base-256 value, most significant byte first. */
  function BigEndian(b: seq<byte>): nat {
    if b == [] then 0 else BigEndian(b[..|b| - 1]) * 256 + b[|b| - 1]
  }

  lemma {:induction false} BigEndianMore(a: seq<byte>, b: seq<byte>)
    ensures BigEndian(a + b) == BigEndian(a) * Pow256(|b|) + BigEndian(b)
    decreases |b|
  {
    if b == [] {
      assert a + b == a;
    } else {
      assert (a + b)[..|a + b| - 1] == a + b[..|b| - 1];
      BigEndianMore(a, b[..|b| - 1]);
      Distribute(BigEndian(a), Pow256(|b| - 1), BigEndian(b[..|b| - 1]));
    }
  }

  function Pow256(n: nat): nat { if n == 0 then 1 else Pow256(n - 1) * 256 }

  lemma Distribute(a: nat, p: nat, r: nat)
    ensures (a * p + r) * 256 == a * (p * 256) + r * 256
  {
  }

  lemma FourBytes(b: seq<byte>, at: nat)
    requires at + 4 <= |b|
    ensures ReadBe32(b, at) == Some(BigEndian(b[at..at + 4])) && BigEndian(b[at..at + 4]) < 0x1_0000_0000
  {
    var w := b[at..at + 4];
    var w0: int, w1: int, w2: int := w[0], w[1], w[2];
    assert w[..3][..2] == w[..2] && w[..2][..1] == w[..1] && w[..1][..0] == [];
    assert BigEndian(w[..1]) == w0 && BigEndian(w[..2]) == w0 * 256 + w1;
    assert BigEndian(w[..3]) == (w0 * 256 + w1) * 256 + w2;
  }

  /** A 32-bit word stands at `at` and has value `v`. */
  ghost predicate WordAt(b: seq<byte>, at: nat, v: nat) { at + 4 <= |b| && BigEndian(b[at..at + 4]) == v }

  lemma WordReads(b: seq<byte>, at: nat, v: nat)
    ensures ReadBe32(b, at) == Some(v) <==> WordAt(b, at, v)
  {
    if at + 4 <= |b| { FourBytes(b, at); }
  }

  lemma EightBytes(b: seq<byte>, at: nat)
    requires at + 8 <= |b|
    ensures BigEndian(b[at..at + 8]) == BigEndian(b[at..at + 4]) * 0x1_0000_0000 + BigEndian(b[at + 4..at + 8])
  {
    assert b[at..at + 8] == b[at..at + 4] + b[at + 4..at + 8];
    BigEndianMore(b[at..at + 4], b[at + 4..at + 8]);
    assert Pow256(2) == 0x1_0000 && Pow256(4) == 0x1_0000_0000;
  }

  /** The first address and size of a `reg` under the given cell counts: one or
      two cells each, and nothing when the counts or the bytes do not allow it. */
  function RegPair(data: seq<byte>, a: nat, s: nat): Option<(nat, nat)> {
    if 1 <= a <= 2 && 1 <= s <= 2 && |data| >= 4 * (a + s)
    then Some((BigEndian(data[..4 * a]), BigEndian(data[4 * a..4 * (a + s)])))
    else None
  }

  lemma CellsMean(data: seq<byte>, at: nat, cells: nat)
    ensures DecodeCells(data, at, cells)
            == if 1 <= cells <= 2 && at + 4 * cells <= |data| then Some(BigEndian(data[at..at + 4 * cells])) else None
  {
    if 1 <= cells <= 2 && at + 4 <= |data| {
      FourBytes(data, at);
      if cells == 2 && at + 8 <= |data| {
        FourBytes(data, at + 4);
        EightBytes(data, at);
      }
    }
  }

  lemma RegPairMeans(data: seq<byte>, a: nat, s: nat)
    ensures DecodeRegPair(data, a, s) == RegPair(data, a, s)
  {
    CellsMean(data, 0, a);
    CellsMean(data, a * 4, s);
  }

  /** The hart id a `reg` gives: its last cell, when it has one or two cells. */
  function HartReg(data: seq<byte>): Option<nat> {
    if |data| == 4 || |data| == 8 then Some(BigEndian(data[|data| - 4..])) else None
  }

  lemma HartRegMeans(data: seq<byte>)
    ensures RegValue(data) == HartReg(data)
  {
    if |data| == 4 {
      FourBytes(data, 0);
      assert data[0..4] == data[0..];
    } else if |data| == 8 {
      FourBytes(data, 4);
      assert data[4..8] == data[4..];
    }
  }

  // -------------------------------------------------------------------- names

  /** The node and property names the lookups compare with. */
  lemma NamesSpelled()
    ensures CHOSEN == Ascii("chosen") && BOOTARGS == Ascii("bootargs") && MEMORY == Ascii("memory")
    ensures CPUS == Ascii("cpus") && CPU == Ascii("cpu") && REG == Ascii("reg") && [AT] == Ascii("@")
    ensures ADDRESS_CELLS == Ascii("#address-cells") && SIZE_CELLS == Ascii("#size-cells")
  {
  }

  /** The part of a node name before its first `@`. */
  function BaseName(name: seq<byte>): seq<byte> {
    if name == [] || name[0] == AT then [] else [name[0]] + BaseName(name[1..])
  }

  lemma {:induction false} BaseNameIs(name: seq<byte>, base: seq<byte>)
    requires AT !in base
    ensures BaseName(name) == base <==> name == base || base + [AT] <= name
    decreases |base|
  {
    if name != [] && base != [] && name[0] == base[0] && name[0] != AT {
      BaseNameIs(name[1..], base[1..]);
      assert base == [base[0]] + base[1..] && name == [name[0]] + name[1..];
      assert forall b :: b in base[1..] ==> b in base;
      assert name == base <==> name[1..] == base[1..];
      assert base + [AT] <= name <==> base[1..] + [AT] <= name[1..] by {
        assert base + [AT] == [base[0]] + (base[1..] + [AT]);
        if base + [AT] <= name { assert name[1..][..|base|] == (base + [AT])[1..]; }
        if base[1..] + [AT] <= name[1..] { assert name[..|base| + 1] == [name[0]] + name[1..][..|base|]; }
      }
    } else if base != [] {
      assert base[0] in base;
    }
  }

  /** `memory` and `cpu` nodes are recognised by the name before the `@`. */
  lemma NodeKinds(name: seq<byte>)
    ensures IsMemory(name) <==> BaseName(name) == Ascii("memory")
    ensures IsCpu(name) <==> BaseName(name) == Ascii("cpu")
  {
    NamesSpelled();
    BaseNameIs(name, MEMORY);
    BaseNameIs(name, CPU);
  }

  lemma {:induction false} AtSignAfterBase(name: seq<byte>, from: nat)
    requires from <= |name|
    ensures var at := AtSign(name, from); var end := from + |BaseName(name[from..])|;
            end <= |name| && (if end == |name| then at == None else at == Some(end))
    decreases |name| - from
  {
    if from < |name| && name[from] != AT {
      assert name[from..][1..] == name[from + 1..];
      AtSignAfterBase(name, from + 1);
    }
  }

  /** The unit address: the 32-bit hexadecimal number after the first `@`. */
  function UnitNumber(name: seq<byte>): Option<nat>
  {
    var n := |BaseName(name)|;
    if n + 1 < |name| && IsHex(name[n + 1..]) && HexValue(name[n + 1..]) < 0x1_0000_0000
    then Some(HexValue(name[n + 1..])) else None
  }

  lemma UnitNumberMeans(name: seq<byte>)
    ensures UnitAddress(name) == UnitNumber(name)
  {
    AtSignAfterBase(name, 0);
    assert name[0..] == name;
  }

  // ------------------------------------------------------------------- tokens

  /** A name stands at `at`, ended by its NUL. */
  ghost predicate NameAt(b: seq<byte>, at: nat, name: seq<byte>) { 0 !in name && At(b, at, name + [0]) }

  /** The next multiple of four. */
  predicate Rounded(v: nat, r: nat) { v <= r < v + 4 && r % 4 == 0 }

  /** The token at `c`, and where the next one starts, by section 5.4 of the
      Devicetree Specification. */
  ghost predicate TokenAt(s: seq<byte>, strings: seq<byte>, c: nat, event: Event, after: nat) {
    match event
    case BeginNode(name) => WordAt(s, c, 1) && NameAt(s, c + 4, name) && Rounded(c + 4 + |name| + 1, after)
    case EndNode => WordAt(s, c, 2) && after == c + 4
    case Property(name, data) =>
      && WordAt(s, c, 3) && WordAt(s, c + 4, |data|) && At(s, c + 12, data) && Rounded(c + 12 + |data|, after)
      && exists off: nat :: WordAt(s, c + 8, off) && NameAt(strings, off, name)
    case Nop => WordAt(s, c, 4) && after == c + 4
    case Stop => WordAt(s, c, 9) && after == c + 4
  }

  lemma {:induction false} NulIs(b: seq<byte>, at: nat, nul: nat)
    ensures NulAt(b, at) == Some(nul) <==> at <= nul < |b| && b[nul] == 0 && forall i :: at <= i < nul ==> b[i] != 0
    decreases |b| - at
  {
    if at < |b| && b[at] != 0 { NulIs(b, at + 1, nul); }
  }

  lemma NameReads(b: seq<byte>, at: nat, name: seq<byte>, end: nat)
    ensures ReadCstr(b, at) == Some((name, end)) <==> NameAt(b, at, name) && end == at + |name| + 1
  {
    if ReadCstr(b, at) == Some((name, end)) {
      var nul := end - 1;
      NulIs(b, at, nul);
      assert b[at..end] == name + [0];
      forall x | x in name ensures x != 0 {
        var i :| 0 <= i < |name| && name[i] == x;
        assert b[at + i] == name[i];
      }
    }
    if NameAt(b, at, name) && end == at + |name| + 1 {
      AtSplit(b, at, name, [0]);
      var nul := at + |name|;
      assert b[nul] == b[nul..nul + 1][0];
      forall i | at <= i < nul ensures b[i] != 0 { assert b[i] == b[at..nul][i - at] && name[i - at] in name; }
      NulIs(b, at, nul);
      assert b[at..nul] == name;
    }
  }

  lemma RoundedIs(v: nat, r: nat)
    ensures AlignUp4(v) == r <==> Rounded(v, r)
  {
    if Rounded(v, r) { NextMultiple(v, r); }
  }

  lemma BeginMeans(s: seq<byte>, strings: seq<byte>, c: nat, name: seq<byte>, after: nat)
    requires c + 4 <= |s|
    ensures Next(s, strings, c) == Some((BeginNode(name), after)) <==> TokenAt(s, strings, c, BeginNode(name), after)
  {
    FourBytes(s, c);
    NameReads(s, c + 4, name, c + 4 + |name| + 1);
    RoundedIs(c + 4 + |name| + 1, after);
    var read := ReadCstr(s, c + 4);
    if read.Some? { NameReads(s, c + 4, read.value.0, read.value.1); }
  }

  lemma PropertyMeans(s: seq<byte>, strings: seq<byte>, c: nat, name: seq<byte>, data: seq<byte>, after: nat)
    requires c + 4 <= |s|
    ensures Next(s, strings, c) == Some((Property(name, data), after)) <==> TokenAt(s, strings, c, Property(name, data), after)
  {
    FourBytes(s, c);
    WordReads(s, c + 4, |data|);
    RoundedIs(c + 12 + |data|, after);
    if c + 12 <= |s| {
      FourBytes(s, c + 4);
      FourBytes(s, c + 8);
      var off := BigEndian(s[c + 8..c + 12]);
      var read := ReadCstr(strings, off);
      NameReads(strings, off, name, off + |name| + 1);
      if read.Some? { NameReads(strings, off, read.value.0, read.value.1); }
    }
  }

  /** The walk's tokens are exactly the tokens of the specification: anything
      else is malformed. */
  lemma NextMeans(s: seq<byte>, strings: seq<byte>, c: nat, event: Event, after: nat)
    requires c + 4 <= |s|
    ensures Next(s, strings, c) == Some((event, after)) <==> TokenAt(s, strings, c, event, after)
  {
    FourBytes(s, c);
    match event
    case BeginNode(name) => BeginMeans(s, strings, c, name, after);
    case Property(name, data) => PropertyMeans(s, strings, c, name, data, after);
    case EndNode =>
    case Nop =>
    case Stop =>
  }

  // --------------------------------------------------------------------- walk

  /** The items a walk from `c` must see: one token after another, up to and with
      FDT_END, a place where no token stands, or the end of the block. */
  ghost predicate Traces(s: seq<byte>, strings: seq<byte>, c: nat, items: seq<Item>, ps: seq<nat>) {
    var n := |items|;
    && |ps| == n + 1 && ps[0] == c
    && (forall i :: 0 <= i < n && items[i].Seen? ==> TokenAt(s, strings, ps[i], items[i].event, ps[i + 1]))
    && (forall i :: 0 <= i < n && items[i].Malformed? ==> ps[i] + 4 <= |s| && forall e, a :: !TokenAt(s, strings, ps[i], e, a))
    && (forall i :: 0 <= i < n - 1 ==> items[i].Seen? && items[i].event != Stop)
    && (n == 0 || (items[n - 1].Seen? && items[n - 1].event != Stop) ==> ps[n] + 4 > |s|)
  }

  lemma TracesCons(s: seq<byte>, strings: seq<byte>, c: nat, event: Event, rest: seq<Item>, ps: seq<nat>)
    requires ps != [] && Traces(s, strings, ps[0], rest, ps) && TokenAt(s, strings, c, event, ps[0]) && event != Stop
    ensures Traces(s, strings, c, [Seen(event)] + rest, [c] + ps)
  {
  }

  lemma {:induction false} WalkTraces(s: seq<byte>, strings: seq<byte>, c: nat) returns (ps: seq<nat>)
    ensures Traces(s, strings, c, Walk(s, strings, c), ps)
    decreases |s| - c
  {
    if c + 4 > |s| { return [c]; }
    var next := Next(s, strings, c);
    if next.None? {
      forall e, a ensures !TokenAt(s, strings, c, e, a) { NextMeans(s, strings, c, e, a); }
      return [c, c];
    }
    var (event, after) := next.value;
    NextMeans(s, strings, c, event, after);
    if event == Stop { return [c, after]; }
    var rest := WalkTraces(s, strings, after);
    TracesCons(s, strings, c, event, Walk(s, strings, after), rest);
    ps := [c] + rest;
  }

  // ------------------------------------------------------------------- header

  /** The structure and strings blocks of a version 17 header, section 5.2: both
      inside the total size, and that inside the bytes given. */
  ghost predicate BlocksAt(b: seq<byte>, structure: seq<byte>, strings: seq<byte>) {
    && WordAt(b, 0, 0xD00D_FEED) && WordAt(b, 32, |strings|) && WordAt(b, 36, |structure|)
    && exists total: nat, at: nat, names: nat ::
         && WordAt(b, 4, total) && WordAt(b, 8, at) && WordAt(b, 12, names)
         && total <= |b| && At(b[..total], at, structure) && At(b[..total], names, strings)
  }

  lemma PieceWithin(b: seq<byte>, total: nat, at: nat, e: seq<byte>)
    requires total <= |b|
    ensures At(b[..total], at, e) <==> at + |e| <= total && b[at..at + |e|] == e
  {
    if at + |e| <= total { assert b[..total][at..at + |e|] == b[at..at + |e|]; }
  }

  lemma HeaderMeans(b: seq<byte>)
    ensures |b| < 40 ==> Blocks(b) == None
    ensures |b| >= 40 ==>
              var total, at, names := BigEndian(b[4..8]), BigEndian(b[8..12]), BigEndian(b[12..16]);
              var namesLen, len := BigEndian(b[32..36]), BigEndian(b[36..40]);
              Blocks(b) == if BigEndian(b[0..4]) != 0xD00D_FEED || total > |b| || at + len > total || names + namesLen > total
                           then None else Some((b[at..at + len], b[names..names + namesLen]))
  {
    if |b| >= 40 {
      FourBytes(b, 0);
      FourBytes(b, 4);
      FourBytes(b, 8);
      FourBytes(b, 12);
      FourBytes(b, 32);
      FourBytes(b, 36);
    }
  }

  lemma BlocksMean(b: seq<byte>, structure: seq<byte>, strings: seq<byte>)
    ensures Blocks(b) == Some((structure, strings)) <==> BlocksAt(b, structure, strings)
  {
    HeaderMeans(b);
    if |b| >= 40 && BigEndian(b[4..8]) <= |b| {
      var total, at, names := BigEndian(b[4..8]), BigEndian(b[8..12]), BigEndian(b[12..16]);
      assert WordAt(b, 4, total) && WordAt(b, 8, at) && WordAt(b, 12, names);
      PieceWithin(b, total, at, structure);
      PieceWithin(b, total, names, strings);
    }
  }
}
