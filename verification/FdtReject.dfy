/** What the three lookups do with arbitrary structure blocks, well formed or
    not: which errors they notice and which they never reach. */
module FdtReject {
  import opened Machine
  import opened Bytes
  import opened Bits
  import opened Fdt
  import opened FdtMeaning
  import opened FdtTree

  // ------------------------------------------------------------ open nodes

  /** The names of the nodes left open, outermost first. */
  function Path(items: seq<Item>): seq<seq<byte>> {
    if items == [] then [] else PathStep(Path(items[..|items| - 1]), items[|items| - 1])
  }

  function PathStep(path: seq<seq<byte>>, item: Item): seq<seq<byte>> {
    match item
    case Seen(BeginNode(name)) => path + [name]
    case Seen(EndNode) => if path == [] then [] else path[..|path| - 1]
    case _ => path
  }

  /** An error a walk can see: a malformed token, or an end with nothing open. */
  predicate Bad(items: seq<Item>, k: nat)
    requires k < |items|
  {
    items[k].Malformed? || (items[k] == Seen(EndNode) && Path(items[..k]) == [])
  }

  /** No error and no FDT_END before item `k`. */
  ghost predicate Reaches(items: seq<Item>, k: nat) {
    k <= |items| && forall i :: 0 <= i < k ==> !Bad(items, i) && items[i] != Seen(Stop)
  }

  ghost predicate BreaksAt(items: seq<Item>, k: nat) { k < |items| && Reaches(items, k) && Bad(items, k) }

  ghost predicate StopsAt(items: seq<Item>, k: nat) { k < |items| && Reaches(items, k) && items[k] == Seen(Stop) }

  /** The walk meets an error before FDT_END and before the block runs out. */
  ghost predicate Broken(items: seq<Item>) { exists k: nat :: BreaksAt(items, k) }

  /** FDT_END is reached, without error, with every node closed. */
  ghost predicate Closed(items: seq<Item>) { exists k: nat :: StopsAt(items, k) && Path(items[..k]) == [] }

  /** FDT_END is reached, without error, with a node still open. */
  ghost predicate StopsOpen(items: seq<Item>) { exists k: nat :: StopsAt(items, k) && Path(items[..k]) != [] }

  lemma PathNext(items: seq<Item>, k: nat)
    requires k < |items|
    ensures Path(items[..k + 1]) == PathStep(Path(items[..k]), items[k])
  {
    assert items[..k + 1][..k] == items[..k];
  }

  lemma TailAt(items: seq<Item>, k: nat)
    requires k < |items|
    ensures items[k..] != [] && items[k..][0] == items[k] && items[k..][1..] == items[k + 1..]
  {
  }

  /** Every walk ends in one of three ways. */
  lemma {:induction false} EndsOneWay(items: seq<Item>, k: nat)
    requires Reaches(items, k)
    ensures Broken(items) || Reaches(items, |items|) || exists j: nat :: StopsAt(items, j)
    decreases |items| - k
  {
    if k < |items| {
      if Bad(items, k) {
        assert BreaksAt(items, k);
      } else if items[k] == Seen(Stop) {
        assert StopsAt(items, k);
      } else {
        EndsOneWay(items, k + 1);
      }
    }
  }

  // --------------------------------------------------------------- hart ids

  const HARTS: CpuState := CpuState(0, None, None, None, None, 0)

  /** The state after one more event, when the walk goes on. */
  function CpuNext(st: CpuState, event: Event): CpuState
    requires event == EndNode ==> st.depth > 0
  {
    match event
    case BeginNode(name) => CpuBegin(st, name)
    case EndNode => CpuEnd(st)
    case Property(name, data) => CpuProperty(st, name, data)
    case _ => st
  }

  lemma {:induction false} HartFrom(items: seq<Item>, k: nat, st: CpuState)
    requires Reaches(items, k) && st.depth == |Path(items[..k])|
    ensures HartBitmap(items[k..], st).None? <==> exists j: nat :: k <= j && BreaksAt(items, j)
    decreases |items| - k
  {
    if k < |items| {
      TailAt(items, k);
      if Bad(items, k) {
        assert BreaksAt(items, k);
      } else if items[k] != Seen(Stop) {
        PathNext(items, k);
        HartFrom(items, k + 1, CpuNext(st, items[k].event));
      }
    }
  }

  /** `cpus_hart_id_bitmap` rejects a structure block exactly when a malformed
      token, or an end with no node open, comes before FDT_END. */
  lemma HartNoneIff(items: seq<Item>)
    ensures HartBitmap(items, HARTS).None? <==> Broken(items)
  {
    HartFrom(items, 0, HARTS);
    assert items[0..] == items;
    if k: nat :| BreaksAt(items, k) { assert 0 <= k && BreaksAt(items, k); }
  }

  /** So it rejects exactly the blocks that are not closed by FDT_END unless the
      block runs out, or FDT_END comes, with nothing else wrong. */
  lemma HartPromise(items: seq<Item>)
    ensures (HartBitmap(items, HARTS).None? <==> !Closed(items)) <==> !(Reaches(items, |items|) || StopsOpen(items))
  {
    HartNoneIff(items);
    EndsOneWay(items, 0);
    if k: nat :| BreaksAt(items, k) {
      assert !items[k].Seen? || items[k].event != Stop;
    }
  }

  /** The last readable `reg` of the open depth-3 node. */
  function OpenReg(items: seq<Item>): Option<nat> {
    if items == [] then None
    else
      var k := |items| - 1;
      var path, item := Path(items[..k]), items[k];
      if item.Seen? && item.event.BeginNode? && |path| == 2 then None
      else if PropertyAt(items, k, REG) && |path| == 3 && HartReg(item.event.data).Some? then HartReg(item.event.data)
      else OpenReg(items[..k])
  }

  predicate InCpu(path: seq<seq<byte>>) { |path| >= 3 && path[1] == CPUS && BaseName(path[2]) == CPU }

  /** The id of the cpu node that an end at depth 3 closes. */
  function ClosedId(items: seq<Item>): Option<nat> {
    var path := Path(items);
    if !InCpu(path) then None else if OpenReg(items).Some? then OpenReg(items) else UnitNumber(path[2])
  }

  /** Item `k` closes a cpu node with hart id `id`. */
  ghost predicate ClosesCpu(items: seq<Item>, k: nat, id: nat) {
    && k < |items| && Reaches(items, k) && items[k] == Seen(EndNode) && |Path(items[..k])| == 3
    && ClosedId(items[..k]) == Some(id)
  }

  ghost predicate CpuFits(st: CpuState, items: seq<Item>) {
    var path := Path(items);
    && st.depth == |path| && st.cpus == (if |path| >= 2 && path[1] == CPUS then Some(2) else None)
    && st.cpu == (if InCpu(path) then Some(3) else None)
    && st.unit == (if InCpu(path) then UnitNumber(path[2]) else None)
    && st.reg == (if InCpu(path) then OpenReg(items) else None)
  }

  /** The bits set so far are the ids of the cpu nodes closed before `k`. */
  ghost predicate BitsFit(bitmap: nat, items: seq<Item>, k: nat) {
    forall j: nat :: Bit(bitmap, j) <==> j < 64 && exists i: nat :: i < k && ClosesCpu(items, i, j)
  }

  lemma OpenRegNext(items: seq<Item>, k: nat)
    requires k < |items|
    ensures OpenReg(items[..k + 1]) ==
              var path, item := Path(items[..k]), items[k];
              if item.Seen? && item.event.BeginNode? && |path| == 2 then None
              else if PropertyAt(items, k, REG) && |path| == 3 && HartReg(item.event.data).Some? then HartReg(item.event.data)
              else OpenReg(items[..k])
  {
    assert items[..k + 1][..k] == items[..k];
  }

  lemma CpuStep(items: seq<Item>, k: nat, st: CpuState)
    requires k < |items| && CpuFits(st, items[..k]) && !Bad(items, k)
    ensures CpuFits(CpuNext(st, items[k].event), items[..k + 1])
    ensures CpuNext(st, items[k].event).bitmap
            == if items[k] == Seen(EndNode) && |Path(items[..k])| == 3 && ClosedId(items[..k]).Some?
               then Record(st.bitmap, ClosedId(items[..k]).value) else st.bitmap
  {
    PathNext(items, k);
    OpenRegNext(items, k);
    NamesSpelled();
    match items[k].event
    case BeginNode(name) =>
      NodeKinds(name);
      UnitNumberMeans(name);
    case Property(name, data) => HartRegMeans(data);
    case _ =>
  }

  lemma BitsStep(items: seq<Item>, k: nat, st: CpuState)
    requires Reaches(items, k) && k < |items| && CpuFits(st, items[..k]) && !Bad(items, k) && BitsFit(st.bitmap, items, k)
    ensures BitsFit(CpuNext(st, items[k].event).bitmap, items, k + 1)
  {
    CpuStep(items, k, st);
    var next := CpuNext(st, items[k].event).bitmap;
    forall j: nat ensures Bit(next, j) <==> j < 64 && exists i: nat :: i < k + 1 && ClosesCpu(items, i, j) {
      var id := ClosedId(items[..k]);
      if items[k] == Seen(EndNode) && |Path(items[..k])| == 3 && id.Some? && id.value < 64 {
        SetBitExact(st.bitmap, id.value, j);
        assert ClosesCpu(items, k, j) <==> j == id.value;
      } else {
        assert j < 64 ==> !ClosesCpu(items, k, j);
      }
    }
  }

  lemma BitsEnd(items: seq<Item>, k: nat, bitmap: nat)
    requires BitsFit(bitmap, items, k) && forall j: nat :: k < j ==> !Reaches(items, j)
    requires k < |items| ==> items[k] != Seen(EndNode)
    ensures BitsFit(bitmap, items, |items|)
  {
    forall j: nat, i: nat | ClosesCpu(items, i, j) ensures i < k { assert i <= k; }
  }

  lemma {:induction false} HartBitsFrom(items: seq<Item>, k: nat, st: CpuState)
    requires Reaches(items, k) && CpuFits(st, items[..k]) && BitsFit(st.bitmap, items, k)
    ensures HartBitmap(items[k..], st).Some? ==> BitsFit(HartBitmap(items[k..], st).value, items, |items|)
    decreases |items| - k
  {
    if k < |items| {
      TailAt(items, k);
      if !Bad(items, k) {
        if items[k] == Seen(Stop) {
          BitsEnd(items, k, st.bitmap);
        } else {
          CpuStep(items, k, st);
          BitsStep(items, k, st);
          HartBitsFrom(items, k + 1, CpuNext(st, items[k].event));
        }
      }
    } else {
      assert items[k..] == [];
    }
  }

  /** On any structure block that is not refused, bit `j` is set exactly when a
      cpu node directly under a `/cpus` with hart id `j` below 64 is closed before
      FDT_END: its last readable `reg`, or else its unit address. */
  lemma HartBits(items: seq<Item>)
    requires HartBitmap(items, HARTS).Some?
    ensures BitsFit(HartBitmap(items, HARTS).value, items, |items|)
  {
    forall j: nat ensures !Bit(0, j) { ZeroBits(j); }
    HartBitsFrom(items, 0, HARTS);
    assert items[0..] == items;
  }

  // ---------------------------------------------------------------- bootargs

  const ARGS: ChosenState := ChosenState(0, None)

  /** Item `k`, still reached, is a `bootargs` property of a `/chosen`. */
  ghost predicate GivesArgs(items: seq<Item>, k: nat) {
    && k < |items| && Reaches(items, k) && items[k].Seen? && items[k].event.Property?
    && items[k].event.name == BOOTARGS
    && |Path(items[..k])| == 2 && Path(items[..k])[1] == CHOSEN
  }

  ghost predicate ChosenFits(st: ChosenState, path: seq<seq<byte>>) {
    st.depth == |path| && st.chosen == if |path| >= 2 && path[1] == CHOSEN then Some(2) else None
  }

  function ChosenNext(st: ChosenState, event: Event): ChosenState
    requires event == EndNode ==> st.depth > 0
  {
    match event
    case BeginNode(name) => ChosenBegin(st, name)
    case EndNode => ChosenEnd(st)
    case _ => st
  }

  lemma ChosenStep(st: ChosenState, path: seq<seq<byte>>, event: Event)
    requires ChosenFits(st, path) && (event == EndNode ==> path != [])
    ensures ChosenFits(ChosenNext(st, event), PathStep(path, Seen(event)))
  {
  }

  /** The first item from `k` on that gives the arguments decides. */
  ghost predicate ArgsFrom(items: seq<Item>, k: nat, args: Option<seq<byte>>) {
    && (args.None? ==> forall j: nat :: k <= j ==> !GivesArgs(items, j))
    && (args.Some? ==> exists j: nat :: k <= j && GivesArgs(items, j) && items[j].event.data == args.value
                                        && forall i: nat :: k <= i < j ==> !GivesArgs(items, i))
  }

  lemma ArgsLater(items: seq<Item>, k: nat, args: Option<seq<byte>>)
    requires !GivesArgs(items, k) && ArgsFrom(items, k + 1, args)
    ensures ArgsFrom(items, k, args)
  {
    if args.Some? {
      var j: nat :| k + 1 <= j && GivesArgs(items, j) && items[j].event.data == args.value
                    && forall i: nat :: k + 1 <= i < j ==> !GivesArgs(items, i);
      assert k <= j && forall i: nat :: k <= i < j ==> !GivesArgs(items, i);
    }
  }

  lemma {:induction false} BootargsFrom(items: seq<Item>, k: nat, st: ChosenState)
    requires Reaches(items, k) && ChosenFits(st, Path(items[..k]))
    ensures ArgsFrom(items, k, Bootargs(items[k..], st))
    decreases |items| - k
  {
    if k < |items| {
      TailAt(items, k);
      if GivesArgs(items, k) {
        assert Bootargs(items[k..], st) == Some(items[k].event.data);
      } else if Bad(items, k) || items[k] == Seen(Stop) {
        assert forall j: nat :: k < j ==> !Reaches(items, j);
      } else {
        PathNext(items, k);
        ChosenStep(st, Path(items[..k]), items[k].event);
        BootargsFrom(items, k + 1, ChosenNext(st, items[k].event));
        ArgsLater(items, k, Bootargs(items[k..], st));
      }
    }
  }

  /** `chosen_bootargs` answers with the first `bootargs` that stands directly
      in a `/chosen` before any error and before FDT_END; whatever follows it is
      never read. */
  lemma BootargsIff(items: seq<Item>)
    ensures ArgsFrom(items, 0, Bootargs(items, ARGS))
  {
    BootargsFrom(items, 0, ARGS);
    assert items[0..] == items;
  }

  // ------------------------------------------------------------------ memory

  const CELLS: MemoryState := MemoryState(0, 2, 2, None)

  predicate PropertyAt(items: seq<Item>, k: nat, name: seq<byte>) {
    k < |items| && items[k].Seen? && items[k].event.Property? && items[k].event.name == name
  }

  /** The last value of a cell-count property among the root's own, else 2. */
  function CellsIn(items: seq<Item>, name: seq<byte>): nat {
    if items == [] then 2
    else
      var k := |items| - 1;
      if PropertyAt(items, k, name) && |Path(items[..k])| == 1 && |items[k].event.data| >= 4
      then BigEndian(items[k].event.data[..4])
      else CellsIn(items[..k], name)
  }

  /** A cell count of the root too short to read. */
  predicate ShortCells(items: seq<Item>, k: nat) {
    && (PropertyAt(items, k, ADDRESS_CELLS) || PropertyAt(items, k, SIZE_CELLS))
    && |Path(items[..k])| == 1 && |items[k].event.data| < 4
  }

  /** A `reg` directly in a memory node under the root. */
  predicate RegAt(items: seq<Item>, k: nat) {
    PropertyAt(items, k, REG) && |Path(items[..k])| == 2 && BaseName(Path(items[..k])[1]) == MEMORY
  }

  /** Item `k` is still reached and settles the lookup. */
  ghost predicate Settles(items: seq<Item>, k: nat) {
    k < |items| && Reaches(items, k) && (ShortCells(items, k) || RegAt(items, k))
  }

  function Settled(items: seq<Item>, k: nat): Option<(nat, nat)>
    requires k < |items|
  {
    if RegAt(items, k)
    then RegPair(items[k].event.data, CellsIn(items[..k], ADDRESS_CELLS), CellsIn(items[..k], SIZE_CELLS))
    else None
  }

  /** The first item from `k` on that settles the lookup decides. */
  ghost predicate SettledFrom(items: seq<Item>, k: nat, reg: Option<(nat, nat)>) {
    && (reg.Some? ==> exists j: nat :: k <= j && Settles(items, j))
    && forall j: nat :: k <= j && Settles(items, j) && (forall i: nat :: k <= i < j ==> !Settles(items, i))
                        ==> reg == Settled(items, j)
  }

  ghost predicate MemoryFits(st: MemoryState, items: seq<Item>) {
    && st.depth == |Path(items)| && st.memory == (if |Path(items)| >= 2 && BaseName(Path(items)[1]) == MEMORY then Some(2) else None)
    && st.addressCells == CellsIn(items, ADDRESS_CELLS) && st.sizeCells == CellsIn(items, SIZE_CELLS)
  }

  function MemoryNext(st: MemoryState, event: Event): MemoryState
    requires event == EndNode ==> st.depth > 0
    requires event.Property? ==> MemoryCells(st, event.name, event.data).Some?
  {
    match event
    case BeginNode(name) => MemoryBegin(st, name)
    case EndNode => MemoryEnd(st)
    case Property(name, data) => MemoryCells(st, name, data).value
    case _ => st
  }

  lemma CellsNext(items: seq<Item>, k: nat, name: seq<byte>)
    requires k < |items|
    ensures CellsIn(items[..k + 1], name)
            == if PropertyAt(items, k, name) && |Path(items[..k])| == 1 && |items[k].event.data| >= 4
               then BigEndian(items[k].event.data[..4]) else CellsIn(items[..k], name)
  {
    assert items[..k + 1][..k] == items[..k];
  }

  lemma MemoryStep(items: seq<Item>, k: nat, st: MemoryState)
    requires k < |items| && MemoryFits(st, items[..k]) && !Bad(items, k) && !ShortCells(items, k)
    ensures items[k].event.Property? ==> MemoryCells(st, items[k].event.name, items[k].event.data).Some?
    ensures MemoryFits(MemoryNext(st, items[k].event), items[..k + 1])
  {
    PathNext(items, k);
    CellsNext(items, k, ADDRESS_CELLS);
    CellsNext(items, k, SIZE_CELLS);
    NamesSpelled();
    if items[k].event.BeginNode? { NodeKinds(items[k].event.name); }
    if items[k].event.Property? && |items[k].event.data| >= 4 {
      FourBytes(items[k].event.data, 0);
      assert items[k].event.data[0..4] == items[k].event.data[..4];
    }
  }

  lemma SettledLater(items: seq<Item>, k: nat, reg: Option<(nat, nat)>)
    requires !Settles(items, k) && SettledFrom(items, k + 1, reg)
    ensures SettledFrom(items, k, reg)
  {
    forall j: nat | k <= j && Settles(items, j) && (forall i: nat :: k <= i < j ==> !Settles(items, i))
      ensures reg == Settled(items, j)
    {
      assert k + 1 <= j;
    }
  }

  lemma {:induction false} MemoryFrom(items: seq<Item>, k: nat, st: MemoryState)
    requires Reaches(items, k) && MemoryFits(st, items[..k])
    ensures SettledFrom(items, k, MemoryOf(items[k..], st))
    decreases |items| - k
  {
    if k < |items| {
      TailAt(items, k);
      if Bad(items, k) || items[k] == Seen(Stop) {
        assert forall j: nat :: k < j ==> !Reaches(items, j);
      } else if ShortCells(items, k) || RegAt(items, k) {
        RegPairMeans(items[k].event.data, st.addressCells, st.sizeCells);
        assert Settles(items, k) && MemoryOf(items[k..], st) == Settled(items, k);
      } else {
        MemoryStep(items, k, st);
        MemoryFrom(items, k + 1, MemoryNext(st, items[k].event));
        SettledLater(items, k, MemoryOf(items[k..], st));
      }
    }
  }

  /** `memory_reg` is settled by the first `reg` of a memory node, or the first
      unreadable cell count of the root, before any error and before FDT_END;
      whatever follows it is never read. */
  lemma MemoryIff(items: seq<Item>)
    ensures SettledFrom(items, 0, MemoryOf(items, CELLS))
  {
    MemoryFrom(items, 0, CELLS);
    assert items[0..] == items;
  }

  // -------------------------------------------------------- accepted all the same

  const UNCLOSED: seq<byte> := [0, 0, 0, 1, 0, 0, 0, 0]

  lemma UnclosedWalk(strings: seq<byte>)
    ensures Walk(UNCLOSED, strings, 0) == [Seen(BeginNode([]))]
  {
    assert ReadBe32(UNCLOSED, 0) == Some(BEGIN_NODE);
    assert NulAt(UNCLOSED, 4) == Some(4) && UNCLOSED[4..4] == [];
    assert Next(UNCLOSED, strings, 0) == Some((BeginNode([]), 8));
    assert Walk(UNCLOSED, strings, 8) == [];
  }

  /** A blob whose structure block opens the root and ends there, without
      closing it and without FDT_END, yields an empty hart bitmap. */
  lemma UnclosedRootAccepted(b: seq<byte>)
    requires b == Words(Header(|UNCLOSED|, 0)) + (Zeros(16) + (UNCLOSED + []))
    ensures Blocks(b) == Some((UNCLOSED, [])) && !Closed(Walk(UNCLOSED, [], 0))
    ensures HartBitmap(Walk(UNCLOSED, [], 0), HARTS) == Some(0)
  {
    HeaderReads(b, UNCLOSED, []);
    UnclosedWalk([]);
    RootOnly();
  }

  lemma RootOnly()
    ensures var items := [Seen(BeginNode([]))];
            !Closed(items) && HartBitmap(items, HARTS) == Some(0)
  {
    assert [Seen(BeginNode([]))][1..] == [];
  }

  /** Boot arguments are returned although FDT_END comes with `/chosen` and the
      root both open. */
  lemma UnclosedChosenAccepted(data: seq<byte>)
    requires |data| < 0x1_0000_0000
    ensures var toks := [Open([]), Open(CHOSEN), Attr(Prop(BOOTARGS, 0, data))]; var strings := BOOTARGS + [0];
            && TokensOk(toks, strings)
            && var items := Walk(EncodeAll(toks, strings) + Be32(END), strings, 0);
               !Closed(items) && Bootargs(items, ARGS) == Some(data)
  {
    var toks, strings := [Open([]), Open(CHOSEN), Attr(Prop(BOOTARGS, 0, data))], BOOTARGS + [0];
    assert At(strings, 0, strings) by { assert strings[0..|strings|] == strings; }
    ReadName(strings, 0, BOOTARGS, 9);
    WalkDecodes(EncodeAll(toks, strings) + Be32(END), toks, strings);
    UnclosedItems(toks, data);
  }

  lemma UnclosedItems(toks: seq<Token>, data: seq<byte>)
    requires toks == [Open([]), Open(CHOSEN), Attr(Prop(BOOTARGS, 0, data))]
    ensures var items := Views(toks, [Seen(Stop)]);
            !Closed(items) && Bootargs(items, ARGS) == Some(data)
  {
    var items := [Seen(BeginNode([])), Seen(BeginNode(CHOSEN)), Seen(Property(BOOTARGS, data)), Seen(Stop)];
    assert Views(toks[3..], [Seen(Stop)]) == [Seen(Stop)];
    assert toks[1..][1..] == toks[2..] && toks[2..][1..] == toks[3..];
    assert Views(toks[2..], [Seen(Stop)]) == items[2..];
    assert Views(toks[1..], [Seen(Stop)]) == items[1..];
    assert Views(toks, [Seen(Stop)]) == items;
    PathNext(items, 0);
    PathNext(items, 1);
    PathNext(items, 2);
    assert Path(items[..0]) == [] && |Path(items[..3])| == 2;
    assert items[1..][1..] == items[2..] && items[2..][0] == items[2];
    assert Bootargs(items[2..], ChosenState(2, Some(2))) == Some(data);
  }
}
