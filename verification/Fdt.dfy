/** The flattened-devicetree lookups: one walk over the structure block, three
    questions asked of it. */
module Fdt {
  import opened Machine
  import opened Bits
  import opened Hex
  import opened Bytes

  const MAGIC: nat := 0xD00D_FEED
  const BEGIN_NODE: nat := 1
  const END_NODE: nat := 2
  const PROP: nat := 3
  const NOP: nat := 4
  const END: nat := 9

  const AT: byte := 64
  const CHOSEN: seq<byte> := [99, 104, 111, 115, 101, 110]
  const BOOTARGS: seq<byte> := [98, 111, 111, 116, 97, 114, 103, 115]
  const MEMORY: seq<byte> := [109, 101, 109, 111, 114, 121]
  const CPUS: seq<byte> := [99, 112, 117, 115]
  const CPU: seq<byte> := [99, 112, 117]
  const REG: seq<byte> := [114, 101, 103]
  const ADDRESS_CELLS: seq<byte> := [35, 97, 100, 100, 114, 101, 115, 115, 45, 99, 101, 108, 108, 115]
  const SIZE_CELLS: seq<byte> := [35, 115, 105, 122, 101, 45, 99, 101, 108, 108, 115]

  // ------------------------------------------------------------------ readers

  function Word(a: int, b: int, c: int, d: int): int { a * 0x100_0000 + b * 0x1_0000 + c * 0x100 + d }

  function ReadBe32(b: seq<byte>, offset: nat): Option<nat> {
    if offset + 4 <= |b|
    then Some(Word(b[offset], b[offset + 1], b[offset + 2], b[offset + 3]))
    else None
  }

  /** The first NUL at or after `offset`. */
  function NulAt(b: seq<byte>, offset: nat): (r: Option<nat>)
    ensures r.Some? ==> offset <= r.value < |b|
    decreases |b| - offset
  {
    if offset >= |b| then None
    else if b[offset] == 0 then Some(offset)
    else NulAt(b, offset + 1)
  }

  /** A NUL-terminated name and the position after its NUL. */
  function ReadCstr(b: seq<byte>, offset: nat): Option<(seq<byte>, nat)> {
    var nul :- NulAt(b, offset);
    Some((b[offset..nul], nul + 1))
  }

  function DecodeCells(data: seq<byte>, offset: nat, cells: nat): Option<nat> {
    if cells == 1 then ReadBe32(data, offset)
    else if cells == 2 then
      var hi :- ReadBe32(data, offset);
      var lo :- ReadBe32(data, offset + 4);
      Some(hi * 0x1_0000_0000 + lo)
    else None
  }

  function DecodeRegPair(data: seq<byte>, addressCells: nat, sizeCells: nat): Option<(nat, nat)> {
    var address :- DecodeCells(data, 0, addressCells);
    var size :- DecodeCells(data, addressCells * 4, sizeCells);
    Some((address, size))
  }

  /** The structure and strings blocks the header points at. */
  function Blocks(b: seq<byte>): Option<(seq<byte>, seq<byte>)> {
    var magic :- ReadBe32(b, 0);
    if magic != MAGIC then None
    else
      var total :- ReadBe32(b, 4);
      var offStruct :- ReadBe32(b, 8);
      var offStrings :- ReadBe32(b, 12);
      var sizeStrings :- ReadBe32(b, 32);
      var sizeStruct :- ReadBe32(b, 36);
      if total > |b| || offStruct + sizeStruct > total || offStrings + sizeStrings > total then None
      else Some((b[offStruct..offStruct + sizeStruct], b[offStrings..offStrings + sizeStrings]))
  }

  // --------------------------------------------------------------------- walk

  datatype Event = BeginNode(name: seq<byte>) | EndNode | Property(name: seq<byte>, data: seq<byte>) | Nop | Stop

  /** The token at `cursor` and the position after it; `None` when malformed. */
  function Next(s: seq<byte>, strings: seq<byte>, cursor: nat): (r: Option<(Event, nat)>)
    requires cursor + 4 <= |s|
    ensures r.Some? ==> r.value.1 > cursor
  {
    var token := ReadBe32(s, cursor).value;
    var at := cursor + 4;
    if token == BEGIN_NODE then
      var (name, next) :- ReadCstr(s, at);
      Some((BeginNode(name), AlignUp4(next)))
    else if token == END_NODE then Some((EndNode, at))
    else if token == PROP then
      var len :- ReadBe32(s, at);
      var nameOff :- ReadBe32(s, at + 4);
      var dataEnd := at + 8 + len;
      if dataEnd > |s| then None
      else
        var (name, _) :- ReadCstr(strings, nameOff);
        Some((Property(name, s[at + 8..dataEnd]), AlignUp4(dataEnd)))
    else if token == NOP then Some((Nop, at))
    else if token == END then Some((Stop, at))
    else None
  }

  /** What a walk sees: the events up to FDT_END, a malformed token, or the end
      of the block, whichever comes first. */
  datatype Item = Seen(event: Event) | Malformed

  function Walk(s: seq<byte>, strings: seq<byte>, cursor: nat): seq<Item>
    decreases |s| - cursor
  {
    if cursor + 4 > |s| then []
    else
      var next := Next(s, strings, cursor);
      if next.None? then [Malformed]
      else if next.value.0 == Stop then [Seen(Stop)]
      else [Seen(next.value.0)] + Walk(s, strings, next.value.1)
  }

  // ----------------------------------------------------------- chosen bootargs

  datatype ChosenState = ChosenState(depth: nat, chosen: Option<nat>)

  function ChosenBegin(st: ChosenState, name: seq<byte>): ChosenState {
    var d := st.depth + 1;
    ChosenState(d, if d == 2 && name == CHOSEN then Some(d) else st.chosen)
  }

  function ChosenEnd(st: ChosenState): ChosenState
    requires st.depth > 0
  {
    ChosenState(st.depth - 1, if st.chosen == Some(st.depth) then None else st.chosen)
  }

  function Bootargs(items: seq<Item>, st: ChosenState): Option<seq<byte>> {
    if items == [] || items[0].Malformed? then None
    else match items[0].event
      case BeginNode(name) => Bootargs(items[1..], ChosenBegin(st, name))
      case EndNode => if st.depth == 0 then None else Bootargs(items[1..], ChosenEnd(st))
      case Property(name, data) =>
        if st.chosen == Some(st.depth) && name == BOOTARGS then Some(data) else Bootargs(items[1..], st)
      case Nop => Bootargs(items[1..], st)
      case Stop => None
  }

  method ChosenBootargs(bytes: seq<byte>) returns (args: Option<seq<byte>>)
    ensures var blocks := Blocks(bytes);
            args == if blocks.None? then None
                    else Bootargs(Walk(blocks.value.0, blocks.value.1, 0), ChosenState(0, None))
  {
    var blocks := Blocks(bytes);
    if blocks.None? { return None; }
    var (s, strings) := blocks.value;
    var cursor: nat := 0;
    var st := ChosenState(0, None);
    while cursor + 4 <= |s|
      invariant Bootargs(Walk(s, strings, 0), ChosenState(0, None)) == Bootargs(Walk(s, strings, cursor), st)
      decreases |s| - cursor
    {
      var next := Next(s, strings, cursor);
      if next.None? { return None; }
      var (event, after) := next.value;
      WalkTail(s, strings, cursor);
      match event {
        case BeginNode(name) => st := ChosenBegin(st, name);
        case EndNode =>
          if st.depth == 0 { return None; }
          st := ChosenEnd(st);
        case Property(name, data) =>
          if st.chosen == Some(st.depth) && name == BOOTARGS { return Some(data); }
        case Nop =>
        case Stop => return None;
      }
      cursor := after;
    }
    return None;
  }

  lemma WalkTail(s: seq<byte>, strings: seq<byte>, cursor: nat)
    requires cursor + 4 <= |s| && Next(s, strings, cursor).Some?
    ensures var (event, after) := Next(s, strings, cursor).value; var w := Walk(s, strings, cursor);
            w != [] && w[0] == Seen(event) && (event != Stop ==> w[1..] == Walk(s, strings, after))
  {
  }

  // --------------------------------------------------------------- memory reg

  datatype MemoryState = MemoryState(depth: nat, addressCells: nat, sizeCells: nat, memory: Option<nat>)

  predicate IsMemory(name: seq<byte>) { name == MEMORY || MEMORY + [AT] <= name }

  function MemoryBegin(st: MemoryState, name: seq<byte>): MemoryState {
    var d := st.depth + 1;
    st.(depth := d, memory := if d == 2 && IsMemory(name) then Some(d) else st.memory)
  }

  function MemoryEnd(st: MemoryState): MemoryState
    requires st.depth > 0
  {
    st.(depth := st.depth - 1, memory := if st.memory == Some(st.depth) then None else st.memory)
  }

  /** The root's cell counts, when this property sets one; `None` if it is short. */
  function MemoryCells(st: MemoryState, name: seq<byte>, data: seq<byte>): Option<MemoryState> {
    if st.depth == 1 && name == ADDRESS_CELLS then
      var cells :- ReadBe32(data, 0);
      Some(st.(addressCells := cells))
    else if st.depth == 1 && name == SIZE_CELLS then
      var cells :- ReadBe32(data, 0);
      Some(st.(sizeCells := cells))
    else Some(st)
  }

  function MemoryOf(items: seq<Item>, st: MemoryState): Option<(nat, nat)> {
    if items == [] || items[0].Malformed? then None
    else match items[0].event
      case BeginNode(name) => MemoryOf(items[1..], MemoryBegin(st, name))
      case EndNode => if st.depth == 0 then None else MemoryOf(items[1..], MemoryEnd(st))
      case Property(name, data) =>
        var next :- MemoryCells(st, name, data);
        if next.memory == Some(next.depth) && name == REG
        then DecodeRegPair(data, next.addressCells, next.sizeCells)
        else MemoryOf(items[1..], next)
      case Nop => MemoryOf(items[1..], st)
      case Stop => None
  }

  method MemoryReg(bytes: seq<byte>) returns (reg: Option<(nat, nat)>)
    ensures var blocks := Blocks(bytes);
            reg == if blocks.None? then None
                   else MemoryOf(Walk(blocks.value.0, blocks.value.1, 0), MemoryState(0, 2, 2, None))
  {
    var blocks := Blocks(bytes);
    if blocks.None? { return None; }
    var (s, strings) := blocks.value;
    var cursor: nat := 0;
    var st := MemoryState(0, 2, 2, None);
    while cursor + 4 <= |s|
      invariant MemoryOf(Walk(s, strings, 0), MemoryState(0, 2, 2, None)) == MemoryOf(Walk(s, strings, cursor), st)
      decreases |s| - cursor
    {
      var next := Next(s, strings, cursor);
      if next.None? { return None; }
      var (event, after) := next.value;
      WalkTail(s, strings, cursor);
      match event {
        case BeginNode(name) => st := MemoryBegin(st, name);
        case EndNode =>
          if st.depth == 0 { return None; }
          st := MemoryEnd(st);
        case Property(name, data) =>
          var cells := MemoryCells(st, name, data);
          if cells.None? { return None; }
          st := cells.value;
          if st.memory == Some(st.depth) && name == REG {
            return DecodeRegPair(data, st.addressCells, st.sizeCells);
          }
        case Nop =>
        case Stop => return None;
      }
      cursor := after;
    }
    return None;
  }

  // ------------------------------------------------------------------ hart ids

  datatype CpuState = CpuState(depth: nat, cpus: Option<nat>, cpu: Option<nat>, unit: Option<nat>, reg: Option<nat>, bitmap: nat)

  predicate IsCpu(name: seq<byte>) { name == CPU || CPU + [AT] <= name }

  /** The position of the first `@`. */
  function AtSign(name: seq<byte>, from: nat): (r: Option<nat>)
    ensures r.Some? ==> from <= r.value < |name|
    decreases |name| - from
  {
    if from >= |name| then None else if name[from] == AT then Some(from) else AtSign(name, from + 1)
  }

  /** A unit address: hexadecimal digits after the first `@`, below 2^32. */
  function UnitAddress(name: seq<byte>): Option<nat> {
    var at :- AtSign(name, 0);
    var tail := name[at + 1..];
    if tail == [] || !IsHex(tail) || HexValue(tail) >= 0x1_0000_0000 then None else Some(HexValue(tail))
  }

  /** The checked 32-bit accumulation agrees with the positional value. */
  method ParseUnitAddress(name: seq<byte>) returns (address: Option<nat>)
    ensures address == UnitAddress(name)
  {
    var at := AtSign(name, 0);
    if at.None? { return None; }
    var tail := name[at.value + 1..];
    var value: nat := 0;
    for i := 0 to |tail|
      invariant IsHex(tail[..i]) && value == HexValue(tail[..i]) < 0x1_0000_0000
    {
      var nibble := Nibble(tail[i]);
      if nibble.None? { return None; }
      HexStep(tail, i);
      if value * 16 + nibble.value >= 0x1_0000_0000 {
        if IsHex(tail) { HexGrows(tail, i + 1); }
        return None;
      }
      value := value * 16 + nibble.value;
    }
    assert tail[..|tail|] == tail;
    return if tail == [] then None else Some(value);
  }

  function Record(bitmap: nat, id: nat): nat { if id < 64 then SetBit(bitmap, id) else bitmap }

  function CpuBegin(st: CpuState, name: seq<byte>): CpuState {
    var d := st.depth + 1;
    var cpus := if d == 2 && name == CPUS then Some(d) else st.cpus;
    if cpus == Some(d - 1) && IsCpu(name)
    then st.(depth := d, cpus := cpus, cpu := Some(d), unit := UnitAddress(name), reg := None)
    else st.(depth := d, cpus := cpus)
  }

  /** `reg` wins over the unit address. */
  function HartId(reg: Option<nat>, unit: Option<nat>): Option<nat> { if reg.Some? then reg else unit }

  function CpuEnd(st: CpuState): CpuState
    requires st.depth > 0
  {
    var id := HartId(st.reg, st.unit);
    var closed := if st.cpu == Some(st.depth)
                  then st.(cpu := None, unit := None, reg := None,
                           bitmap := if id.Some? then Record(st.bitmap, id.value) else st.bitmap)
                  else st;
    closed.(depth := st.depth - 1, cpus := if st.cpus == Some(st.depth) then None else st.cpus)
  }

  /** A one- or two-cell `reg`; any other length is ignored. */
  function RegValue(data: seq<byte>): Option<nat> {
    if |data| == 4 then ReadBe32(data, 0) else if |data| == 8 then ReadBe32(data, 4) else None
  }

  function CpuProperty(st: CpuState, name: seq<byte>, data: seq<byte>): CpuState {
    if st.cpu == Some(st.depth) && name == REG && RegValue(data).Some? then st.(reg := RegValue(data)) else st
  }

  function HartBitmap(items: seq<Item>, st: CpuState): Option<nat> {
    if items == [] then Some(st.bitmap)
    else if items[0].Malformed? then None
    else match items[0].event
      case BeginNode(name) => HartBitmap(items[1..], CpuBegin(st, name))
      case EndNode => if st.depth == 0 then None else HartBitmap(items[1..], CpuEnd(st))
      case Property(name, data) => HartBitmap(items[1..], CpuProperty(st, name, data))
      case Nop => HartBitmap(items[1..], st)
      case Stop => Some(st.bitmap)
  }

  method CpusHartIdBitmap(bytes: seq<byte>) returns (bitmap: Option<nat>)
    ensures var blocks := Blocks(bytes);
            bitmap == if blocks.None? then None
                      else HartBitmap(Walk(blocks.value.0, blocks.value.1, 0), CpuState(0, None, None, None, None, 0))
  {
    var blocks := Blocks(bytes);
    if blocks.None? { return None; }
    var (s, strings) := blocks.value;
    var cursor: nat := 0;
    var st := CpuState(0, None, None, None, None, 0);
    while cursor + 4 <= |s|
      invariant HartBitmap(Walk(s, strings, 0), CpuState(0, None, None, None, None, 0)) == HartBitmap(Walk(s, strings, cursor), st)
      decreases |s| - cursor
    {
      var next := Next(s, strings, cursor);
      if next.None? { return None; }
      var (event, after) := next.value;
      WalkTail(s, strings, cursor);
      match event {
        case BeginNode(name) => st := CpuBegin(st, name);
        case EndNode =>
          if st.depth == 0 { return None; }
          st := CpuEnd(st);
        case Property(name, data) => st := CpuProperty(st, name, data);
        case Nop =>
        case Stop => return Some(st.bitmap);
      }
      cursor := after;
    }
    return Some(st.bitmap);
  }
}
