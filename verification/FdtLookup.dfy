/** The three lookups answer, on every blob that holds a tree, exactly what the
    corresponding lookup on the tree answers. */
module FdtLookup {
  import opened Machine
  import opened Bits
  import opened Fdt
  import opened FdtMeaning
  import opened FdtTree

  const DONE: seq<Item> := [Seen(Stop)]

  function FindProp(props: seq<Prop>, name: seq<byte>): Option<seq<byte>> {
    if props == [] then None
    else if props[0].name == name then Some(props[0].data)
    else FindProp(props[1..], name)
  }

  // ---------------------------------------------------------------- bootargs

  /** The first `bootargs` of the first `/chosen` that has one. */
  function FirstBootargs(children: seq<Node>): Option<seq<byte>> {
    if children == [] then None
    else if children[0].name == CHOSEN && FindProp(children[0].props, BOOTARGS).Some?
    then FindProp(children[0].props, BOOTARGS)
    else FirstBootargs(children[1..])
  }

  lemma {:induction false} BootargsErase(toks: seq<Token>, tail: seq<Item>, st: ChosenState)
    ensures Bootargs(Views(toks, tail), st) == Bootargs(Views(Erase(toks), tail), st)
    decreases |toks|
  {
    if toks != [] {
      if toks[0].Filler? {
        assert Erase(toks) == Erase(toks[1..]);
      } else {
        assert Erase(toks)[0] == toks[0] && Erase(toks)[1..] == Erase(toks[1..]);
      }
      match toks[0]
      case Open(name) => BootargsErase(toks[1..], tail, ChosenBegin(st, name));
      case Close => if st.depth > 0 { BootargsErase(toks[1..], tail, ChosenEnd(st)); }
      case Attr(p) => BootargsErase(toks[1..], tail, st);
      case Filler => BootargsErase(toks[1..], tail, st);
    }
  }

  lemma {:induction false} BootargsProps(props: seq<Prop>, tail: seq<Item>, st: ChosenState)
    ensures Bootargs(AttrItems(props, tail), st)
            == if st.chosen == Some(st.depth) && FindProp(props, BOOTARGS).Some?
               then FindProp(props, BOOTARGS) else Bootargs(tail, st)
    decreases |props|
  {
    if props != [] { BootargsProps(props[1..], tail, st); }
  }

  /** Below depth 2 nothing is found and the state comes back. */
  lemma {:induction false} BootargsDeep(n: Node, tail: seq<Item>, st: ChosenState)
    requires st.depth >= 2 && st.chosen in {None, Some(2)}
    ensures Bootargs(Items(n, tail), st) == Bootargs(tail, st)
    decreases n, 1
  {
    var inside := ChosenBegin(st, n.name);
    var end := [Seen(EndNode)] + tail;
    BootargsProps(n.props, ItemsAll(n.children, end), inside);
    BootargsDeepAll(n.children, end, inside);
    assert end[1..] == tail && ChosenEnd(inside) == st;
  }

  lemma {:induction false} BootargsDeepAll(ns: seq<Node>, tail: seq<Item>, st: ChosenState)
    requires st.depth >= 2 && st.chosen in {None, Some(2)}
    ensures Bootargs(ItemsAll(ns, tail), st) == Bootargs(tail, st)
    decreases ns, 0
  {
    if ns != [] {
      BootargsDeep(ns[0], ItemsAll(ns[1..], tail), st);
      BootargsDeepAll(ns[1..], tail, st);
    }
  }

  lemma BootargsChild(n: Node, tail: seq<Item>)
    ensures Bootargs(Items(n, tail), ChosenState(1, None))
            == if n.name == CHOSEN && FindProp(n.props, BOOTARGS).Some?
               then FindProp(n.props, BOOTARGS) else Bootargs(tail, ChosenState(1, None))
  {
    var inside := ChosenBegin(ChosenState(1, None), n.name);
    var end := [Seen(EndNode)] + tail;
    BootargsProps(n.props, ItemsAll(n.children, end), inside);
    BootargsDeepAll(n.children, end, inside);
    assert end[1..] == tail && ChosenEnd(inside) == ChosenState(1, None);
  }

  lemma {:induction false} BootargsChildren(ns: seq<Node>, tail: seq<Item>)
    ensures Bootargs(ItemsAll(ns, tail), ChosenState(1, None))
            == if FirstBootargs(ns).Some? then FirstBootargs(ns) else Bootargs(tail, ChosenState(1, None))
    decreases |ns|
  {
    if ns != [] {
      BootargsChild(ns[0], ItemsAll(ns[1..], tail));
      BootargsChildren(ns[1..], tail);
    }
  }

  lemma BootargsRoot(root: Node)
    ensures Bootargs(Items(root, DONE), ChosenState(0, None)) == FirstBootargs(root.children)
  {
    var end := [Seen(EndNode)] + DONE;
    BootargsProps(root.props, ItemsAll(root.children, end), ChosenState(1, None));
    BootargsChildren(root.children, end);
    assert end[1..] == DONE && Bootargs(DONE, ChosenState(0, None)) == None;
    assert Bootargs(end, ChosenState(1, None)) == None;
  }

  /** `chosen_bootargs` on any blob that holds the tree. */
  lemma BootargsExact(bytes: seq<byte>, root: Node, toks: seq<Token>, strings: seq<byte>)
    requires Holds(bytes, root, toks, strings)
    ensures Bootargs(Walk(Blocks(bytes).value.0, Blocks(bytes).value.1, 0), ChosenState(0, None))
            == FirstBootargs(root.children)
  {
    HoldsWalk(bytes, root, toks, strings);
    BootargsErase(toks, DONE, ChosenState(0, None));
    BootargsRoot(root);
  }

  // ------------------------------------------------------------------ memory

  predicate IsCells(p: Prop) { p.name == ADDRESS_CELLS || p.name == SIZE_CELLS }

  /** A cell count is shorter than one cell. */
  predicate ShortCells(props: seq<Prop>) { exists p :: p in props && IsCells(p) && |p.data| < 4 }

  /** The last value given for the cell count `name`, if any is given. */
  function LastCells(props: seq<Prop>, name: seq<byte>, default: nat): nat {
    if props == [] then default
    else
      var p := props[|props| - 1];
      if p.name == name && |p.data| >= 4 then BigEndian(p.data[..4])
      else LastCells(props[..|props| - 1], name, default)
  }

  /** The first `reg` of the first memory node that has one, decoded. */
  function FirstMemory(children: seq<Node>, addressCells: nat, sizeCells: nat): Option<(nat, nat)> {
    if children == [] then None
    else if BaseName(children[0].name) == MEMORY && FindProp(children[0].props, REG).Some?
    then RegPair(FindProp(children[0].props, REG).value, addressCells, sizeCells)
    else FirstMemory(children[1..], addressCells, sizeCells)
  }

  /** Cell counts default to two; one that cannot be read answers nothing. */
  function MemoryLookup(root: Node): Option<(nat, nat)> {
    if ShortCells(root.props) then None
    else FirstMemory(root.children, LastCells(root.props, ADDRESS_CELLS, 2), LastCells(root.props, SIZE_CELLS, 2))
  }

  lemma {:induction false} MemoryErase(toks: seq<Token>, tail: seq<Item>, st: MemoryState)
    ensures MemoryOf(Views(toks, tail), st) == MemoryOf(Views(Erase(toks), tail), st)
    decreases |toks|
  {
    if toks != [] {
      if toks[0].Filler? {
        assert Erase(toks) == Erase(toks[1..]);
      } else {
        assert Erase(toks)[0] == toks[0] && Erase(toks)[1..] == Erase(toks[1..]);
      }
      match toks[0]
      case Open(name) => MemoryErase(toks[1..], tail, MemoryBegin(st, name));
      case Close => if st.depth > 0 { MemoryErase(toks[1..], tail, MemoryEnd(st)); }
      case Attr(p) =>
        var next := MemoryCells(st, p.name, p.data);
        if next.Some? { MemoryErase(toks[1..], tail, next.value); }
      case Filler => MemoryErase(toks[1..], tail, st);
    }
  }

  lemma {:induction false} MemoryProps(props: seq<Prop>, tail: seq<Item>, st: MemoryState)
    requires st.depth >= 2
    ensures MemoryOf(AttrItems(props, tail), st)
            == if st.memory == Some(st.depth) && FindProp(props, REG).Some?
               then DecodeRegPair(FindProp(props, REG).value, st.addressCells, st.sizeCells) else MemoryOf(tail, st)
    decreases |props|
  {
    if props != [] { MemoryProps(props[1..], tail, st); }
  }

  function CellsAfter(p: Prop, name: seq<byte>, default: nat): nat {
    if p.name == name && |p.data| >= 4 then BigEndian(p.data[..4]) else default
  }

  lemma {:induction false} LastCellsCons(props: seq<Prop>, name: seq<byte>, default: nat)
    requires props != []
    ensures LastCells(props, name, default) == LastCells(props[1..], name, CellsAfter(props[0], name, default))
  {
    var k := |props| - 1;
    if k > 0 {
      LastCellsCons(props[..k], name, default);
      assert props[1..][..k - 1] == props[..k][1..];
    }
  }

  function WithCells(st: MemoryState, props: seq<Prop>): MemoryState {
    st.(addressCells := LastCells(props, ADDRESS_CELLS, st.addressCells),
        sizeCells := LastCells(props, SIZE_CELLS, st.sizeCells))
  }

  lemma {:induction false} MemoryRootProps(props: seq<Prop>, tail: seq<Item>, st: MemoryState)
    requires st.depth == 1 && st.memory == None
    ensures MemoryOf(AttrItems(props, tail), st)
            == if ShortCells(props) then None else MemoryOf(tail, WithCells(st, props))
    decreases |props|
  {
    if props != [] {
      var next := MemoryCells(st, props[0].name, props[0].data);
      assert props == [props[0]] + props[1..];
      if |props[0].data| >= 4 {
        FourBytes(props[0].data, 0);
        assert props[0].data[0..4] == props[0].data[..4];
      }
      if next.Some? {
        LastCellsCons(props, ADDRESS_CELLS, st.addressCells);
        LastCellsCons(props, SIZE_CELLS, st.sizeCells);
        MemoryRootProps(props[1..], tail, next.value);
      } else {
        assert props[0] in props;
      }
    }
  }

  lemma {:induction false} MemoryDeep(n: Node, tail: seq<Item>, st: MemoryState)
    requires st.depth >= 2 && st.memory in {None, Some(2)}
    ensures MemoryOf(Items(n, tail), st) == MemoryOf(tail, st)
    decreases n, 1
  {
    var inside := MemoryBegin(st, n.name);
    var end := [Seen(EndNode)] + tail;
    MemoryProps(n.props, ItemsAll(n.children, end), inside);
    MemoryDeepAll(n.children, end, inside);
    assert end[1..] == tail && MemoryEnd(inside) == st;
  }

  lemma {:induction false} MemoryDeepAll(ns: seq<Node>, tail: seq<Item>, st: MemoryState)
    requires st.depth >= 2 && st.memory in {None, Some(2)}
    ensures MemoryOf(ItemsAll(ns, tail), st) == MemoryOf(tail, st)
    decreases ns, 0
  {
    if ns != [] {
      MemoryDeep(ns[0], ItemsAll(ns[1..], tail), st);
      MemoryDeepAll(ns[1..], tail, st);
    }
  }

  lemma MemoryChild(n: Node, tail: seq<Item>, st: MemoryState)
    requires st.depth == 1 && st.memory == None
    ensures MemoryOf(Items(n, tail), st)
            == if BaseName(n.name) == MEMORY && FindProp(n.props, REG).Some?
               then RegPair(FindProp(n.props, REG).value, st.addressCells, st.sizeCells) else MemoryOf(tail, st)
  {
    NamesSpelled();
    NodeKinds(n.name);
    if FindProp(n.props, REG).Some? { RegPairMeans(FindProp(n.props, REG).value, st.addressCells, st.sizeCells); }
    var inside := MemoryBegin(st, n.name);
    var end := [Seen(EndNode)] + tail;
    MemoryProps(n.props, ItemsAll(n.children, end), inside);
    MemoryDeepAll(n.children, end, inside);
    assert end[1..] == tail && MemoryEnd(inside) == st;
  }

  lemma {:induction false} MemoryChildren(ns: seq<Node>, tail: seq<Item>, st: MemoryState)
    requires st.depth == 1 && st.memory == None && MemoryOf(tail, st) == None
    ensures MemoryOf(ItemsAll(ns, tail), st) == FirstMemory(ns, st.addressCells, st.sizeCells)
    decreases |ns|
  {
    if ns != [] {
      MemoryChild(ns[0], ItemsAll(ns[1..], tail), st);
      MemoryChildren(ns[1..], tail, st);
    }
  }

  lemma MemoryRoot(root: Node)
    ensures MemoryOf(Items(root, DONE), MemoryState(0, 2, 2, None)) == MemoryLookup(root)
  {
    var end := [Seen(EndNode)] + DONE;
    var st := MemoryState(1, 2, 2, None);
    MemoryRootProps(root.props, ItemsAll(root.children, end), st);
    var cells := WithCells(st, root.props);
    assert end[1..] == DONE && MemoryOf(DONE, MemoryEnd(cells)) == None;
    MemoryChildren(root.children, end, cells);
  }

  /** `memory_reg` on any blob that holds the tree. */
  lemma MemoryExact(bytes: seq<byte>, root: Node, toks: seq<Token>, strings: seq<byte>)
    requires Holds(bytes, root, toks, strings)
    ensures MemoryOf(Walk(Blocks(bytes).value.0, Blocks(bytes).value.1, 0), MemoryState(0, 2, 2, None)) == MemoryLookup(root)
  {
    HoldsWalk(bytes, root, toks, strings);
    MemoryErase(toks, DONE, MemoryState(0, 2, 2, None));
    MemoryRoot(root);
  }

  // ---------------------------------------------------------------- hart ids

  /** The last well-formed `reg`, if any. */
  function LastReg(props: seq<Prop>, before: Option<nat>): Option<nat> {
    if props == [] then before
    else LastReg(props[1..], if props[0].name == REG && HartReg(props[0].data).Some? then HartReg(props[0].data) else before)
  }

  /** A cpu node's hart id: its `reg`, or else its unit address. */
  function NodeId(n: Node): Option<nat> {
    var reg := LastReg(n.props, None);
    if reg.Some? then reg else UnitNumber(n.name)
  }

  /** The hart ids of the cpu nodes under one `/cpus`, in order. */
  function CpuIds(ns: seq<Node>): seq<nat> {
    if ns == [] then []
    else
      var id := NodeId(ns[0]);
      (if BaseName(ns[0].name) == CPU && id.Some? then [id.value] else []) + CpuIds(ns[1..])
  }

  function HartIds(children: seq<Node>): seq<nat> {
    if children == [] then []
    else (if children[0].name == CPUS then CpuIds(children[0].children) else []) + HartIds(children[1..])
  }

  function RecordAll(bitmap: nat, ids: seq<nat>): nat
    decreases |ids|
  {
    if ids == [] then bitmap else RecordAll(Record(bitmap, ids[0]), ids[1..])
  }

  lemma {:induction false} RecordConcat(bitmap: nat, a: seq<nat>, b: seq<nat>)
    ensures RecordAll(bitmap, a + b) == RecordAll(RecordAll(bitmap, a), b)
    decreases |a|
  {
    if a == [] {
      assert a + b == b;
    } else {
      assert (a + b)[1..] == a[1..] + b;
      RecordConcat(Record(bitmap, a[0]), a[1..], b);
    }
  }

  /** A bit is set exactly when its number is a listed id below 64. */
  lemma {:induction false} RecordExact(bitmap: nat, ids: seq<nat>, j: nat)
    ensures Bit(RecordAll(bitmap, ids), j) <==> Bit(bitmap, j) || (j < 64 && j in ids)
    decreases |ids|
  {
    if ids != [] {
      if ids[0] < 64 { SetBitExact(bitmap, ids[0], j); }
      RecordExact(Record(bitmap, ids[0]), ids[1..], j);
      assert ids == [ids[0]] + ids[1..];
    }
  }

  lemma {:induction false} RecordBound(bitmap: nat, ids: seq<nat>, width: nat)
    requires bitmap < Pow2(width) && width == 64
    ensures RecordAll(bitmap, ids) < Pow2(width)
    decreases |ids|
  {
    if ids != [] {
      if ids[0] < 64 { SetBitBound(bitmap, ids[0], width); }
      RecordBound(Record(bitmap, ids[0]), ids[1..], width);
    }
  }

  lemma {:induction false} HartErase(toks: seq<Token>, tail: seq<Item>, st: CpuState)
    ensures HartBitmap(Views(toks, tail), st) == HartBitmap(Views(Erase(toks), tail), st)
    decreases |toks|
  {
    if toks != [] {
      if toks[0].Filler? {
        assert Erase(toks) == Erase(toks[1..]);
      } else {
        assert Erase(toks)[0] == toks[0] && Erase(toks)[1..] == Erase(toks[1..]);
      }
      match toks[0]
      case Open(name) => HartErase(toks[1..], tail, CpuBegin(st, name));
      case Close => if st.depth > 0 { HartErase(toks[1..], tail, CpuEnd(st)); }
      case Attr(p) => HartErase(toks[1..], tail, CpuProperty(st, p.name, p.data));
      case Filler => HartErase(toks[1..], tail, st);
    }
  }

  lemma {:induction false} HartProps(props: seq<Prop>, tail: seq<Item>, st: CpuState)
    ensures HartBitmap(AttrItems(props, tail), st)
            == HartBitmap(tail, if st.cpu == Some(st.depth) then st.(reg := LastReg(props, st.reg)) else st)
    decreases |props|
  {
    if props != [] {
      HartRegMeans(props[0].data);
      HartProps(props[1..], tail, CpuProperty(st, props[0].name, props[0].data));
    }
  }

  /** Nodes that open no cpu leave the state alone. */
  ghost predicate Quiet(st: CpuState) {
    st.cpu in {None, Some(3)} && ((st.depth >= 3 && st.cpus in {None, Some(2)}) || (st.depth >= 2 && st.cpus == None))
  }

  lemma {:induction false} HartDeep(n: Node, tail: seq<Item>, st: CpuState)
    requires Quiet(st) && (st.depth == 2 ==> st.cpu == None)
    ensures HartBitmap(Items(n, tail), st) == HartBitmap(tail, st)
    decreases n, 1
  {
    var inside := CpuBegin(st, n.name);
    var end := [Seen(EndNode)] + tail;
    HartProps(n.props, ItemsAll(n.children, end), inside);
    HartDeepAll(n.children, end, inside);
    assert end[1..] == tail && CpuEnd(inside) == st;
  }

  lemma {:induction false} HartDeepAll(ns: seq<Node>, tail: seq<Item>, st: CpuState)
    requires Quiet(st) && (st.depth == 2 ==> st.cpu == None)
    ensures HartBitmap(ItemsAll(ns, tail), st) == HartBitmap(tail, st)
    decreases ns, 0
  {
    if ns != [] {
      HartDeep(ns[0], ItemsAll(ns[1..], tail), st);
      HartDeepAll(ns[1..], tail, st);
    }
  }

  /** Closing a node under `/cpus` records the id of a cpu node. */
  lemma CloseCpu(n: Node, bitmap: nat, inside: CpuState)
    requires inside == CpuBegin(CpuState(2, Some(2), None, None, None, bitmap), n.name)
    ensures var filled := if inside.cpu == Some(3) then inside.(reg := LastReg(n.props, None)) else inside;
            filled.depth == 3 && CpuEnd(filled) == CpuState(2, Some(2), None, None, None, RecordAll(bitmap, CpuIds([n])))
  {
    NamesSpelled();
    NodeKinds(n.name);
    UnitNumberMeans(n.name);
    assert [n][1..] == [];
    var id := NodeId(n);
    assert CpuIds([n]) == if BaseName(n.name) == CPU && id.Some? then [id.value] else [];
    if BaseName(n.name) == CPU && id.Some? { assert [id.value][1..] == []; }
  }

  /** One node under `/cpus`: a cpu node records its id, any other is skipped. */
  lemma HartCpu(n: Node, tail: seq<Item>, bitmap: nat)
    ensures var st := CpuState(2, Some(2), None, None, None, bitmap);
            HartBitmap(Items(n, tail), st) == HartBitmap(tail, st.(bitmap := RecordAll(bitmap, CpuIds([n]))))
  {
    var st := CpuState(2, Some(2), None, None, None, bitmap);
    var inside := CpuBegin(st, n.name);
    var end := [Seen(EndNode)] + tail;
    HartProps(n.props, ItemsAll(n.children, end), inside);
    var filled := if inside.cpu == Some(3) then inside.(reg := LastReg(n.props, None)) else inside;
    HartDeepAll(n.children, end, filled);
    CloseCpu(n, bitmap, inside);
    assert end[1..] == tail;
  }

  lemma {:induction false} HartCpus(ns: seq<Node>, tail: seq<Item>, bitmap: nat)
    ensures var st := CpuState(2, Some(2), None, None, None, bitmap);
            HartBitmap(ItemsAll(ns, tail), st) == HartBitmap(tail, st.(bitmap := RecordAll(bitmap, CpuIds(ns))))
    decreases |ns|
  {
    if ns != [] {
      HartCpu(ns[0], ItemsAll(ns[1..], tail), bitmap);
      HartCpus(ns[1..], tail, RecordAll(bitmap, CpuIds([ns[0]])));
      assert [ns[0]][1..] == [] && CpuIds([ns[0]]) + [] == CpuIds([ns[0]]);
      RecordConcat(bitmap, CpuIds([ns[0]]), CpuIds(ns[1..]));
    }
  }

  /** One child of the root: `/cpus` records its nodes' ids, any other nothing. */
  lemma HartChild(n: Node, tail: seq<Item>, bitmap: nat)
    ensures var st := CpuState(1, None, None, None, None, bitmap);
            HartBitmap(Items(n, tail), st)
            == HartBitmap(tail, st.(bitmap := if n.name == CPUS then RecordAll(bitmap, CpuIds(n.children)) else bitmap))
  {
    var st := CpuState(1, None, None, None, None, bitmap);
    var inside := CpuBegin(st, n.name);
    var end := [Seen(EndNode)] + tail;
    HartProps(n.props, ItemsAll(n.children, end), inside);
    assert end[1..] == tail;
    if n.name == CPUS { HartCpus(n.children, end, bitmap); } else { HartDeepAll(n.children, end, inside); }
  }

  lemma {:induction false} HartChildren(ns: seq<Node>, tail: seq<Item>, bitmap: nat)
    ensures var st := CpuState(1, None, None, None, None, bitmap);
            HartBitmap(ItemsAll(ns, tail), st) == HartBitmap(tail, st.(bitmap := RecordAll(bitmap, HartIds(ns))))
    decreases |ns|
  {
    if ns != [] {
      var first := if ns[0].name == CPUS then CpuIds(ns[0].children) else [];
      HartChild(ns[0], ItemsAll(ns[1..], tail), bitmap);
      HartChildren(ns[1..], tail, RecordAll(bitmap, first));
      RecordConcat(bitmap, first, HartIds(ns[1..]));
    }
  }

  lemma HartRoot(root: Node)
    ensures HartBitmap(Items(root, DONE), CpuState(0, None, None, None, None, 0)) == Some(RecordAll(0, HartIds(root.children)))
  {
    var end := [Seen(EndNode)] + DONE;
    HartProps(root.props, ItemsAll(root.children, end), CpuState(1, None, None, None, None, 0));
    HartChildren(root.children, end, 0);
    assert end[1..] == DONE;
  }

  /** `cpus_hart_id_bitmap` on any blob that holds the tree: bit `j` is set
      exactly when some cpu node under `/cpus` has hart id `j`. */
  lemma HartExact(bytes: seq<byte>, root: Node, toks: seq<Token>, strings: seq<byte>, j: nat)
    requires Holds(bytes, root, toks, strings)
    ensures var out := HartBitmap(Walk(Blocks(bytes).value.0, Blocks(bytes).value.1, 0), CpuState(0, None, None, None, None, 0));
            && out.Some? && out.value < Pow2(64)
            && (Bit(out.value, j) <==> j < 64 && j in HartIds(root.children))
  {
    HoldsWalk(bytes, root, toks, strings);
    HartErase(toks, DONE, CpuState(0, None, None, None, None, 0));
    HartRoot(root);
    RecordExact(0, HartIds(root.children), j);
    RecordBound(0, HartIds(root.children), 64);
    ZeroBits(j);
  }
}
