/** Devicetrees as trees, their flattened form (sections 5.2, 5.4 and 5.5 of the
    Devicetree Specification v0.4), and the proof that a walk over the bytes
    sees exactly the tree. */
module FdtTree {
  import opened Machine
  import opened Bytes
  import opened Fdt

  /** A property; `nameOff` is where its name stands in the strings block. */
  datatype Prop = Prop(name: seq<byte>, nameOff: nat, data: seq<byte>)

  datatype Node = Node(name: seq<byte>, props: seq<Prop>, children: seq<Node>)

  /** Structure-block tokens; `Filler` is FDT_NOP, allowed anywhere. */
  datatype Token = Open(name: seq<byte>) | Close | Attr(prop: Prop) | Filler

  // ------------------------------------------------------------- flattening

  function Attrs(props: seq<Prop>): seq<Token> {
    if props == [] then [] else [Attr(props[0])] + Attrs(props[1..])
  }

  function Flatten(n: Node): seq<Token>
    decreases n, 1
  {
    [Open(n.name)] + (Attrs(n.props) + (FlattenAll(n.children) + [Close]))
  }

  function FlattenAll(ns: seq<Node>): seq<Token>
    decreases ns, 0
  {
    if ns == [] then [] else Flatten(ns[0]) + FlattenAll(ns[1..])
  }

  /** The tokens without fillers. */
  function Erase(toks: seq<Token>): seq<Token> {
    if toks == [] then []
    else (if toks[0].Filler? then [] else [toks[0]]) + Erase(toks[1..])
  }

  // ---------------------------------------------------------------- encoding

  function Be32(v: nat): (b: seq<byte>)
    requires v < 0x1_0000_0000
    ensures |b| == 4
  {
    [v / 0x100_0000, (v / 0x1_0000) % 0x100, (v / 0x100) % 0x100, v % 0x100]
  }

  predicate TokenOk(t: Token, strings: seq<byte>) {
    match t
    case Open(name) => 0 !in name
    case Attr(p) =>
      && |p.data| < 0x1_0000_0000 && p.nameOff < 0x1_0000_0000
      && ReadCstr(strings, p.nameOff).Some? && ReadCstr(strings, p.nameOff).value.0 == p.name
    case _ => true
  }

  predicate TokensOk(toks: seq<Token>, strings: seq<byte>) { forall i :: 0 <= i < |toks| ==> TokenOk(toks[i], strings) }

  function Encode(t: Token, strings: seq<byte>): seq<byte>
    requires TokenOk(t, strings)
  {
    match t
    case Open(name) => Be32(BEGIN_NODE) + (name + [0] + Zeros(PadLen(|name| + 1)))
    case Close => Be32(END_NODE)
    case Attr(p) => Be32(PROP) + (Be32(|p.data|) + (Be32(p.nameOff) + (p.data + Zeros(PadLen(|p.data|)))))
    case Filler => Be32(NOP)
  }

  function EncodeAll(toks: seq<Token>, strings: seq<byte>): seq<byte>
    requires TokensOk(toks, strings)
  {
    if toks == [] then [] else Encode(toks[0], strings) + EncodeAll(toks[1..], strings)
  }

  function View(t: Token): Event {
    match t
    case Open(name) => BeginNode(name)
    case Close => EndNode
    case Attr(p) => Property(p.name, p.data)
    case Filler => Nop
  }

  function Views(toks: seq<Token>, tail: seq<Item>): seq<Item> {
    if toks == [] then tail else [Seen(View(toks[0]))] + Views(toks[1..], tail)
  }

  // -------------------------------------------------------- decoding encodings

  lemma Digits(v: nat)
    requires v < 0x1_0000_0000
    ensures Word(v / 0x100_0000, (v / 0x1_0000) % 0x100, (v / 0x100) % 0x100, v % 0x100) == v
  {
  }

  lemma ReadAt(s: seq<byte>, c: nat, v: nat)
    requires v < 0x1_0000_0000 && At(s, c, Be32(v))
    ensures ReadBe32(s, c) == Some(v)
  {
    var e := s[c..c + 4];
    assert e[0] == s[c] && e[1] == s[c + 1] && e[2] == s[c + 2] && e[3] == s[c + 3];
    Digits(v);
  }

  lemma {:induction false} FirstNul(s: seq<byte>, c: nat, n: nat, k: nat)
    requires k <= n && c + n < |s| && s[c + n] == 0 && forall i :: c <= i < c + n ==> s[i] != 0
    ensures NulAt(s, c + k) == Some(c + n)
    decreases n - k
  {
    if k < n { FirstNul(s, c, n, k + 1); }
  }

  lemma ReadName(s: seq<byte>, c: nat, name: seq<byte>, end: nat)
    requires 0 !in name && At(s, c, name + [0]) && end == c + |name| + 1
    ensures ReadCstr(s, c) == Some((name, end))
  {
    AtSplit(s, c, name, [0]);
    assert s[c + |name|] == s[c + |name|..c + |name| + 1][0];
    forall i | c <= i < c + |name| ensures s[i] != 0 { assert s[i] == s[c..c + |name|][i - c] && name[i - c] in name; }
    FirstNul(s, c, |name|, 0);
  }

  lemma OpenFields(s: seq<byte>, c: nat, name: seq<byte>, strings: seq<byte>, end: nat)
    requires 0 !in name && At(s, c, Encode(Open(name), strings)) && end == c + 4 + (|name| + 1)
    ensures ReadBe32(s, c) == Some(BEGIN_NODE) && ReadCstr(s, c + 4) == Some((name, end))
    ensures |Encode(Open(name), strings)| == 4 + (|name| + 1 + PadLen(|name| + 1))
  {
    var pad := Zeros(PadLen(|name| + 1));
    AtSplit(s, c, Be32(BEGIN_NODE), name + [0] + pad);
    ReadAt(s, c, BEGIN_NODE);
    AtSplit(s, c + 4, name + [0], pad);
    ReadName(s, c + 4, name, end);
  }

  ghost predicate NextIs(s: seq<byte>, strings: seq<byte>, c: nat, event: Event, after: nat) {
    c + 4 <= |s| && Next(s, strings, c) == Some((event, after))
  }

  lemma NextOpen(s: seq<byte>, c: nat, name: seq<byte>, strings: seq<byte>, end: nat)
    requires ReadBe32(s, c) == Some(BEGIN_NODE) && ReadCstr(s, c + 4) == Some((name, end))
    ensures Next(s, strings, c) == Some((BeginNode(name), AlignUp4(end)))
  {
  }

  lemma OpenDecodes(s: seq<byte>, c: nat, name: seq<byte>, strings: seq<byte>, after: nat)
    requires c % 4 == 0 && 0 !in name && At(s, c, Encode(Open(name), strings)) && after == c + |Encode(Open(name), strings)|
    ensures after % 4 == 0 && NextIs(s, strings, c, BeginNode(name), after)
  {
    var end := c + 4 + (|name| + 1);
    OpenFields(s, c, name, strings, end);
    NextOpen(s, c, name, strings, end);
    Mod4Sum(c, 4);
    PaddedLength(c + 4, |name| + 1);
  }

  lemma AttrFields(s: seq<byte>, c: nat, p: Prop, strings: seq<byte>)
    requires TokenOk(Attr(p), strings) && At(s, c, Encode(Attr(p), strings))
    ensures ReadBe32(s, c) == Some(PROP) && ReadBe32(s, c + 4) == Some(|p.data|) && ReadBe32(s, c + 8) == Some(p.nameOff)
    ensures At(s, c + 12, p.data) && |Encode(Attr(p), strings)| == 12 + (|p.data| + PadLen(|p.data|))
  {
    var body := p.data + Zeros(PadLen(|p.data|));
    AtSplit(s, c, Be32(PROP), Be32(|p.data|) + (Be32(p.nameOff) + body));
    ReadAt(s, c, PROP);
    AtSplit(s, c + 4, Be32(|p.data|), Be32(p.nameOff) + body);
    ReadAt(s, c + 4, |p.data|);
    AtSplit(s, c + 8, Be32(p.nameOff), body);
    ReadAt(s, c + 8, p.nameOff);
    AtSplit(s, c + 12, p.data, Zeros(PadLen(|p.data|)));
  }

  lemma NextProp(s: seq<byte>, c: nat, len: nat, nameOff: nat, strings: seq<byte>)
    requires ReadBe32(s, c) == Some(PROP) && ReadBe32(s, c + 4) == Some(len) && ReadBe32(s, c + 8) == Some(nameOff)
    requires c + 12 + len <= |s| && ReadCstr(strings, nameOff).Some?
    ensures Next(s, strings, c)
            == Some((Property(ReadCstr(strings, nameOff).value.0, s[c + 12..c + 12 + len]), AlignUp4(c + 12 + len)))
  {
  }

  lemma AttrDecodes(s: seq<byte>, c: nat, p: Prop, strings: seq<byte>, after: nat)
    requires c % 4 == 0 && TokenOk(Attr(p), strings) && At(s, c, Encode(Attr(p), strings)) && after == c + |Encode(Attr(p), strings)|
    ensures after % 4 == 0 && NextIs(s, strings, c, Property(p.name, p.data), after)
  {
    AttrFields(s, c, p, strings);
    NextProp(s, c, |p.data|, p.nameOff, strings);
    Mod4Sum(c, 12);
    PaddedLength(c + 12, |p.data|);
  }

  lemma PlainDecodes(s: seq<byte>, c: nat, token: nat, strings: seq<byte>)
    requires c % 4 == 0 && token in {END_NODE, NOP} && At(s, c, Be32(token))
    ensures (c + 4) % 4 == 0 && NextIs(s, strings, c, if token == END_NODE then EndNode else Nop, c + 4)
  {
    ReadAt(s, c, token);
    Mod4Sum(c, 4);
  }

  lemma TokenDecodes(s: seq<byte>, c: nat, t: Token, strings: seq<byte>, after: nat)
    requires c % 4 == 0 && TokenOk(t, strings) && At(s, c, Encode(t, strings)) && after == c + |Encode(t, strings)|
    ensures after % 4 == 0 && NextIs(s, strings, c, View(t), after)
  {
    if t.Open? {
      OpenDecodes(s, c, t.name, strings, after);
    } else if t.Attr? {
      AttrDecodes(s, c, t.prop, strings, after);
    } else {
      PlainDecodes(s, c, if t.Close? then END_NODE else NOP, strings);
    }
  }

  lemma EncodeSplit(toks: seq<Token>, strings: seq<byte>)
    requires TokensOk(toks, strings) && toks != []
    ensures TokenOk(toks[0], strings) && TokensOk(toks[1..], strings)
    ensures EncodeAll(toks, strings) + Be32(END) == Encode(toks[0], strings) + (EncodeAll(toks[1..], strings) + Be32(END))
  {
  }

  lemma TokenAt(s: seq<byte>, c: nat, t: Token, rest: seq<byte>, strings: seq<byte>) returns (after: nat)
    requires c % 4 == 0 && TokenOk(t, strings) && At(s, c, Encode(t, strings) + rest)
    ensures NextIs(s, strings, c, View(t), after) && after % 4 == 0 && At(s, after, rest)
  {
    AtSplit(s, c, Encode(t, strings), rest);
    after := c + |Encode(t, strings)|;
    TokenDecodes(s, c, t, strings, after);
  }

  lemma FirstToken(s: seq<byte>, c: nat, toks: seq<Token>, strings: seq<byte>) returns (after: nat)
    requires c % 4 == 0 && TokensOk(toks, strings) && toks != [] && At(s, c, EncodeAll(toks, strings) + Be32(END))
    ensures TokensOk(toks[1..], strings) && NextIs(s, strings, c, View(toks[0]), after)
    ensures after % 4 == 0 && At(s, after, EncodeAll(toks[1..], strings) + Be32(END))
  {
    EncodeSplit(toks, strings);
    after := TokenAt(s, c, toks[0], EncodeAll(toks[1..], strings) + Be32(END), strings);
  }

  /** The token positions `ps` from `c` on, each leading to the next. */
  ghost predicate Chain(s: seq<byte>, strings: seq<byte>, toks: seq<Token>, ps: seq<nat>) {
    && |ps| == |toks| + 1
    && (forall i :: 0 <= i < |toks| ==> NextIs(s, strings, ps[i], View(toks[i]), ps[i + 1]))
    && NextIs(s, strings, ps[|toks|], Stop, ps[|toks|] + 4)
  }

  lemma LastToken(s: seq<byte>, c: nat, strings: seq<byte>)
    requires At(s, c, EncodeAll([], strings) + Be32(END))
    ensures NextIs(s, strings, c, Stop, c + 4)
  {
    assert EncodeAll([], strings) + Be32(END) == Be32(END);
    ReadAt(s, c, END);
  }

  lemma ChainCons(s: seq<byte>, strings: seq<byte>, toks: seq<Token>, c: nat, ps: seq<nat>)
    requires toks != [] && Chain(s, strings, toks[1..], ps) && NextIs(s, strings, c, View(toks[0]), ps[0])
    ensures Chain(s, strings, toks, [c] + ps)
  {
    var qs := [c] + ps;
    forall i | 0 <= i < |toks| ensures NextIs(s, strings, qs[i], View(toks[i]), qs[i + 1]) {
      if i > 0 { assert toks[i] == toks[1..][i - 1] && qs[i] == ps[i - 1] && qs[i + 1] == ps[i]; }
    }
  }

  lemma {:induction false} EncodedChain(s: seq<byte>, c: nat, toks: seq<Token>, strings: seq<byte>) returns (ps: seq<nat>)
    requires c % 4 == 0 && TokensOk(toks, strings) && At(s, c, EncodeAll(toks, strings) + Be32(END))
    ensures Chain(s, strings, toks, ps) && ps[0] == c
    decreases |toks|
  {
    if toks == [] {
      LastToken(s, c, strings);
      ps := [c];
    } else {
      var after := FirstToken(s, c, toks, strings);
      var rest := EncodedChain(s, after, toks[1..], strings);
      ChainCons(s, strings, toks, c, rest);
      ps := [c] + rest;
    }
  }

  lemma WalkStep(s: seq<byte>, strings: seq<byte>, c: nat, event: Event, after: nat)
    requires NextIs(s, strings, c, event, after)
    ensures Walk(s, strings, c) == if event == Stop then [Seen(Stop)] else [Seen(event)] + Walk(s, strings, after)
  {
  }

  lemma {:induction false} ChainWalk(s: seq<byte>, strings: seq<byte>, toks: seq<Token>, ps: seq<nat>, i: nat)
    requires Chain(s, strings, toks, ps) && i <= |toks|
    ensures Walk(s, strings, ps[i]) == Views(toks[i..], [Seen(Stop)])
    decreases |toks| - i
  {
    if i == |toks| {
      WalkStep(s, strings, ps[i], Stop, ps[i] + 4);
    } else {
      WalkStep(s, strings, ps[i], View(toks[i]), ps[i + 1]);
      ChainWalk(s, strings, toks, ps, i + 1);
      assert toks[i..][1..] == toks[i + 1..];
    }
  }

  /** The walk over an encoded token list sees the tokens, then FDT_END. */
  lemma WalkDecodes(s: seq<byte>, toks: seq<Token>, strings: seq<byte>)
    requires TokensOk(toks, strings) && s == EncodeAll(toks, strings) + Be32(END)
    ensures Walk(s, strings, 0) == Views(toks, [Seen(Stop)])
  {
    assert At(s, 0, s) by { assert s[0..|s|] == s; }
    var ps := EncodedChain(s, 0, toks, strings);
    ChainWalk(s, strings, toks, ps, 0);
    assert toks[0..] == toks;
  }

  // ------------------------------------------------------- items of a tree

  function AttrItems(props: seq<Prop>, tail: seq<Item>): seq<Item> {
    if props == [] then tail else [Seen(Property(props[0].name, props[0].data))] + AttrItems(props[1..], tail)
  }

  function Items(n: Node, tail: seq<Item>): seq<Item>
    decreases n, 1
  {
    [Seen(BeginNode(n.name))] + AttrItems(n.props, ItemsAll(n.children, [Seen(EndNode)] + tail))
  }

  function ItemsAll(ns: seq<Node>, tail: seq<Item>): seq<Item>
    decreases ns, 0
  {
    if ns == [] then tail else Items(ns[0], ItemsAll(ns[1..], tail))
  }

  lemma {:induction false} ViewsConcat(a: seq<Token>, b: seq<Token>, tail: seq<Item>)
    ensures Views(a + b, tail) == Views(a, Views(b, tail))
    decreases |a|
  {
    if a == [] {
      assert a + b == b;
    } else {
      assert (a + b)[1..] == a[1..] + b;
      ViewsConcat(a[1..], b, tail);
    }
  }

  lemma {:induction false} ViewsAttrs(props: seq<Prop>, tail: seq<Item>)
    ensures Views(Attrs(props), tail) == AttrItems(props, tail)
    decreases |props|
  {
    if props != [] {
      assert Attrs(props)[1..] == Attrs(props[1..]);
      ViewsAttrs(props[1..], tail);
    }
  }

  lemma {:induction false} ViewsFlatten(n: Node, tail: seq<Item>)
    ensures Views(Flatten(n), tail) == Items(n, tail)
    decreases n, 1
  {
    var inner := FlattenAll(n.children) + [Close];
    assert Flatten(n)[1..] == Attrs(n.props) + inner;
    ViewsConcat(Attrs(n.props), inner, tail);
    ViewsConcat(FlattenAll(n.children), [Close], tail);
    assert Views([Close], tail) == [Seen(EndNode)] + tail by { assert [Close][1..] == []; }
    ViewsFlattenAll(n.children, [Seen(EndNode)] + tail);
    ViewsAttrs(n.props, ItemsAll(n.children, [Seen(EndNode)] + tail));
  }

  lemma {:induction false} ViewsFlattenAll(ns: seq<Node>, tail: seq<Item>)
    ensures Views(FlattenAll(ns), tail) == ItemsAll(ns, tail)
    decreases ns, 0
  {
    if ns != [] {
      ViewsConcat(Flatten(ns[0]), FlattenAll(ns[1..]), tail);
      ViewsFlattenAll(ns[1..], tail);
      ViewsFlatten(ns[0], ItemsAll(ns[1..], tail));
    }
  }

  // ------------------------------------------------------------- whole blobs

  /** `bytes` holds the tree: its header points at a structure block that
      encodes the tree's tokens, fillers anywhere, and at `strings`. */
  ghost predicate Holds(bytes: seq<byte>, root: Node, toks: seq<Token>, strings: seq<byte>) {
    && TokensOk(toks, strings) && Erase(toks) == Flatten(root)
    && Blocks(bytes) == Some((EncodeAll(toks, strings) + Be32(END), strings))
  }

  lemma HoldsWalk(bytes: seq<byte>, root: Node, toks: seq<Token>, strings: seq<byte>)
    requires Holds(bytes, root, toks, strings)
    ensures var (s, names) := Blocks(bytes).value;
            Walk(s, names, 0) == Views(toks, [Seen(Stop)])
    ensures Views(Erase(toks), [Seen(Stop)]) == Items(root, [Seen(Stop)])
  {
    WalkDecodes(EncodeAll(toks, strings) + Be32(END), toks, strings);
    ViewsFlatten(root, [Seen(Stop)]);
  }

  function Words(ws: seq<nat>): (b: seq<byte>)
    requires forall i :: 0 <= i < |ws| ==> ws[i] < 0x1_0000_0000
    ensures |b| == 4 * |ws|
  {
    if ws == [] then [] else Be32(ws[0]) + Words(ws[1..])
  }

  lemma {:induction false} ReadWord(s: seq<byte>, c: nat, ws: seq<nat>, i: nat)
    requires (forall i :: 0 <= i < |ws| ==> ws[i] < 0x1_0000_0000) && i < |ws| && At(s, c, Words(ws))
    ensures ReadBe32(s, c + 4 * i) == Some(ws[i])
    decreases i
  {
    AtSplit(s, c, Be32(ws[0]), Words(ws[1..]));
    if i == 0 { ReadAt(s, c, ws[0]); } else { ReadWord(s, c + 4, ws[1..], i - 1); }
  }

  ghost predicate FitsBlob(toks: seq<Token>, strings: seq<byte>) {
    TokensOk(toks, strings) && 56 + |EncodeAll(toks, strings)| + 4 + |strings| < 0x1_0000_0000
  }

  function Header(sizeStruct: nat, sizeStrings: nat): seq<nat> {
    [MAGIC, 56 + sizeStruct + sizeStrings, 56, 56 + sizeStruct, 40, 17, 16, 0, sizeStrings, sizeStruct]
  }

  /** A complete blob: header, empty reservation map, structure, strings. */
  ghost function Blob(toks: seq<Token>, strings: seq<byte>): seq<byte>
    requires FitsBlob(toks, strings)
  {
    var s := EncodeAll(toks, strings) + Be32(END);
    Words(Header(|s|, |strings|)) + (Zeros(16) + (s + strings))
  }

  lemma BlobParts(header: seq<byte>, s: seq<byte>, strings: seq<byte>)
    requires |header| == 40
    ensures var b := header + (Zeros(16) + (s + strings));
            && |b| == 56 + |s| + |strings| && At(b, 0, header) && b[56..56 + |s|] == s
            && b[56 + |s|..56 + |s| + |strings|] == strings
  {
    var b := header + (Zeros(16) + (s + strings));
    assert At(b, 0, b) by { assert b[0..|b|] == b; }
    AtSplit(b, 0, header, Zeros(16) + (s + strings));
    AtSplit(b, 40, Zeros(16), s + strings);
    AtSplit(b, 56, s, strings);
  }

  lemma HeaderReads(b: seq<byte>, s: seq<byte>, strings: seq<byte>)
    requires 56 + |s| + |strings| < 0x1_0000_0000
    requires b == Words(Header(|s|, |strings|)) + (Zeros(16) + (s + strings))
    ensures Blocks(b) == Some((s, strings))
  {
    var ws := Header(|s|, |strings|);
    BlobParts(Words(ws), s, strings);
    ReadWord(b, 0, ws, 0);
    ReadWord(b, 0, ws, 1);
    ReadWord(b, 0, ws, 2);
    ReadWord(b, 0, ws, 3);
    ReadWord(b, 0, ws, 8);
    ReadWord(b, 0, ws, 9);
  }

  /** Every tree whose tokens fit has a blob that holds it. */
  lemma BlobHolds(root: Node, toks: seq<Token>, strings: seq<byte>)
    requires FitsBlob(toks, strings) && Erase(toks) == Flatten(root)
    ensures Holds(Blob(toks, strings), root, toks, strings)
  {
    HeaderReads(Blob(toks, strings), EncodeAll(toks, strings) + Be32(END), strings);
  }
}
