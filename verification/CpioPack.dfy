/** The initramfs packer: CPIO newc entries on one growing byte array, with
    padding entries that put selected payloads on page boundaries. */
module CpioPack {
  import opened Machine
  import opened Bytes
  import opened Hex
  import opened Newc

  const PAGE_ALIGN: nat := 4096
  const PAD_HEADER: nat := 120
  const PAD_PREFIX: seq<byte> := [46, 95, 112, 97, 100]
  const ELF_MAGIC: seq<byte> := [127, 69, 76, 70]
  const DIR_MODE: nat := 0x41ED
  const FILE_MODE: nat := 0x8000
  const PAD_MODE: nat := 0x8124

  /** One archive entry; the name is written with a NUL after it. */
  datatype Item = Item(name: seq<byte>, data: seq<byte>, ino: nat, mode: nat)

  const TRAILER: Item := Item(TRAILER_NAME, [], 0, 0)

  // ----------------------------------------------------------------- headers

  function NLink(mode: nat): nat { if (mode / 4096) % 16 == 4 then 2 else 1 }

  /** Field `i` of the header. */
  function FieldOf(it: Item, i: nat): nat {
    if i == 0 then it.ino
    else if i == 1 then it.mode
    else if i == 4 then NLink(it.mode)
    else if i == 6 then |it.data|
    else if i == 11 then |it.name| + 1
    else 0
  }

  /** The fields from number `i` on, eight digits each. */
  function Fields(it: Item, i: nat): seq<byte>
    decreases it, 13 - i
  {
    if i >= 13 then [] else Print(FieldOf(it, i), 8) + Fields(it, i + 1)
  }

  function Header(it: Item): seq<byte> { NEWC_MAGIC + Fields(it, 0) }

  /** Inode, mode and sizes fit 32 bits. */
  predicate Printable(it: Item) {
    it.ino < 0x1_0000_0000 && it.mode < 0x1_0000_0000 && |it.data| < 0x1_0000_0000 && |it.name| + 1 < 0x1_0000_0000
  }

  lemma FieldWidth(v: nat)
    ensures |Print(v, 8)| >= 8 && (|Print(v, 8)| == 8 <==> v < 0x1_0000_0000)
  {
    PrintLength(v, 8);
    assert Pow16(8) == 0x1_0000_0000;
  }

  lemma {:induction false} FieldsLength(it: Item, i: nat)
    requires i <= 13
    ensures |Fields(it, i)| >= 8 * (13 - i)
    ensures |Fields(it, i)| == 8 * (13 - i) <==> forall k :: i <= k < 13 ==> FieldOf(it, k) < 0x1_0000_0000
    decreases 13 - i
  {
    if i < 13 {
      FieldWidth(FieldOf(it, i));
      FieldsLength(it, i + 1);
    }
  }

  /** The header assertion, every field in eight digits, holds exactly for
      32-bit inode, mode and sizes. */
  lemma HeaderLength(it: Item)
    ensures |Header(it)| == HEADER_LEN <==> Printable(it)
  {
    FieldsLength(it, 0);
    if |Header(it)| == HEADER_LEN {
      assert FieldOf(it, 0) < 0x1_0000_0000 && FieldOf(it, 1) < 0x1_0000_0000;
      assert FieldOf(it, 6) < 0x1_0000_0000 && FieldOf(it, 11) < 0x1_0000_0000;
    }
  }

  // ----------------------------------------------------------------- entries

  /** Where the payload starts, counted from the entry's first byte. */
  function DataStart(namesize: nat): nat { AlignUp4(HEADER_LEN + namesize) }

  function EntrySize(it: Item): nat { DataStart(|it.name| + 1) + AlignUp4(|it.data|) }

  function EntryHead(it: Item): seq<byte> { Header(it) + it.name + [0] }

  function EntryBytes(it: Item): seq<byte> {
    EntryHead(it) + (Zeros(PadLen(HEADER_LEN + |it.name| + 1)) + (it.data + Zeros(PadLen(|it.data|))))
  }

  lemma ModShift(at: nat, n: nat)
    requires at % 4 == 0
    ensures (at + n) % 4 == n % 4
  {
    assert at == 4 * (at / 4);
  }

  lemma PadIsAlign(n: nat)
    ensures n + PadLen(n) == AlignUp4(n)
  {
  }

  lemma AlignedPad(at: nat, n: nat)
    requires at % 4 == 0
    ensures PadLen(at + n) == PadLen(n) && n + PadLen(n) == AlignUp4(n) && (at + AlignUp4(n)) % 4 == 0
  {
    ModShift(at, n);
    PadIsAlign(n);
    Mod4Sum(at, AlignUp4(n));
  }

  lemma EntrySizeExact(it: Item)
    requires Printable(it)
    ensures |EntryBytes(it)| == EntrySize(it) && EntrySize(it) % 4 == 0
    ensures DataStart(|it.name| + 1) == |EntryHead(it)| + PadLen(HEADER_LEN + |it.name| + 1)
  {
    HeaderLength(it);
    AlignedPad(0, HEADER_LEN + |it.name| + 1);
    AlignedPad(0, |it.data|);
    Mod4Sum(DataStart(|it.name| + 1), AlignUp4(|it.data|));
  }

  /** Items one after another, each written by `enc`. */
  function Flatten(enc: Item -> seq<byte>, items: seq<Item>): seq<byte> {
    if items == [] then [] else enc(items[0]) + Flatten(enc, items[1..])
  }

  function Concat(items: seq<Item>): seq<byte> { Flatten(EntryBytes, items) }

  function Size(items: seq<Item>): nat {
    if items == [] then 0 else EntrySize(items[0]) + Size(items[1..])
  }

  predicate AllPrintable(items: seq<Item>) { forall i :: 0 <= i < |items| ==> Printable(items[i]) }

  lemma {:induction false} FlattenMore(enc: Item -> seq<byte>, a: seq<Item>, b: seq<Item>)
    ensures Flatten(enc, a + b) == Flatten(enc, a) + Flatten(enc, b) && Size(a + b) == Size(a) + Size(b)
    decreases |a|
  {
    if a == [] {
      assert a + b == b;
    } else {
      assert (a + b)[1..] == a[1..] + b;
      FlattenMore(enc, a[1..], b);
    }
  }

  lemma ConcatMore(a: seq<Item>, b: seq<Item>)
    ensures Concat(a + b) == Concat(a) + Concat(b) && Size(a + b) == Size(a) + Size(b)
  {
    FlattenMore(EntryBytes, a, b);
  }

  /** `enc` writes each item in its size. */
  ghost predicate Sized(enc: Item -> seq<byte>, items: seq<Item>) {
    forall i :: 0 <= i < |items| ==> |enc(items[i])| == EntrySize(items[i])
  }

  lemma EntriesSized(items: seq<Item>)
    requires AllPrintable(items)
    ensures Sized(EntryBytes, items)
  {
    forall i | 0 <= i < |items| ensures |EntryBytes(items[i])| == EntrySize(items[i]) { EntrySizeExact(items[i]); }
  }

  lemma SizeAligned(it: Item)
    ensures EntrySize(it) % 4 == 0 && EntrySize(it) >= HEADER_LEN
  {
    Mod4Sum(DataStart(|it.name| + 1), AlignUp4(|it.data|));
  }

  lemma {:induction false} FlattenSize(enc: Item -> seq<byte>, items: seq<Item>)
    requires Sized(enc, items)
    ensures |Flatten(enc, items)| == Size(items) && Size(items) % 4 == 0
    decreases |items|
  {
    if items != [] {
      SizeAligned(items[0]);
      FlattenSize(enc, items[1..]);
      Mod4Sum(EntrySize(items[0]), Size(items[1..]));
    }
  }

  lemma ConcatSize(items: seq<Item>)
    requires AllPrintable(items)
    ensures |Concat(items)| == Size(items) && Size(items) % 4 == 0
  {
    EntriesSized(items);
    FlattenSize(EntryBytes, items);
  }

  // ----------------------------------------------------------------- padding

  /** `%04d`. */
  function Decimal(v: nat, width: nat): seq<byte>
    decreases width, v
  {
    if v < 10 && width <= 1 then [48 + v]
    else Decimal(v / 10, if width == 0 then 0 else width - 1) + [48 + v % 10]
  }

  lemma FourDigits(v: nat)
    ensures |Decimal(v, 4)| == 4 <==> v < 10000
  {
    var d3, d2, d1 := Decimal(v / 10, 3), Decimal(v / 100, 2), Decimal(v / 1000, 1);
    assert v / 10 / 10 == v / 100 && v / 100 / 10 == v / 1000;
    assert |Decimal(v, 4)| == |d3| + 1 && |d3| == |d2| + 1 && |d2| == |d1| + 1;
    if v >= 10000 { assert |Decimal(v / 1000 / 10, 0)| >= 1; }
  }

  /** The bytes a padding entry must fill before an entry whose name is
      `namesize` long can start at `at` and have its data on a page. */
  function Needed(at: nat, namesize: nat): nat {
    var next := at + DataStart(namesize);
    if next % PAGE_ALIGN == 0 then 0
    else
      var first := PAGE_ALIGN - next % PAGE_ALIGN;
      if first < PAD_HEADER then first + PAGE_ALIGN else first
  }

  function PadItem(needed: nat, counter: nat): Item
    requires needed >= PAD_HEADER
  {
    Item(PAD_PREFIX + Decimal(counter, 4), Zeros(needed - PAD_HEADER), 0, PAD_MODE)
  }

  function Pads(at: nat, namesize: nat, counter: nat): seq<Item> {
    if Needed(at, namesize) == 0 then [] else [PadItem(Needed(at, namesize), counter)]
  }

  /** A padding entry lands the next payload on a page: it is long enough for
      its own header, a multiple of four, and fills exactly the gap. */
  lemma NeededAligns(at: nat, namesize: nat)
    requires at % 4 == 0
    ensures var n := Needed(at, namesize);
            && (at + n + DataStart(namesize)) % PAGE_ALIGN == 0
            && (n > 0 ==> PAD_HEADER <= n < PAD_HEADER + PAGE_ALIGN && (n - PAD_HEADER) % 4 == 0)
  {
    var h := DataStart(namesize);
    assert h % 4 == 0;
    PageGap(at + h);
  }

  lemma PageGap(next: nat)
    requires next % 4 == 0
    ensures var gap := PAGE_ALIGN - next % PAGE_ALIGN;
            && (next + gap) % PAGE_ALIGN == 0 && (next + gap + PAGE_ALIGN) % PAGE_ALIGN == 0
            && gap % 4 == 0 && (gap + PAGE_ALIGN) % 4 == 0
  {
  }

  lemma PadFills(at: nat, namesize: nat, counter: nat)
    requires at % 4 == 0 && Needed(at, namesize) > 0 && counter < 10000
    ensures PAD_HEADER <= Needed(at, namesize)
    ensures var p := PadItem(Needed(at, namesize), counter);
            |p.name| == 9 && Printable(p) && EntrySize(p) == Needed(at, namesize)
  {
    NeededAligns(at, namesize);
    FourDigits(counter);
    var p := PadItem(Needed(at, namesize), counter);
    AlignedPad(0, |p.data|);
  }

  // ------------------------------------------------------------------ layout

  /** A file system entry: a directory, or a file whose content may be
      unreadable; `forced` when it was named for alignment. */
  datatype Entry = Entry(name: seq<byte>, isDir: bool, content: Option<seq<byte>>, perm: nat, forced: bool)

  predicate NeedsAlign(e: Entry) {
    e.forced || (!e.isDir && e.content.Some? && ELF_MAGIC <= e.content.value)
  }

  function ItemOf(e: Entry, ino: nat): Option<Item> {
    if e.isDir then Some(Item(e.name, [], ino, DIR_MODE))
    else if e.content.None? then None
    else Some(Item(e.name, e.content.value, ino, FILE_MODE + e.perm % 512))
  }

  function PadsFor(e: Entry, at: nat, counter: nat): seq<Item> {
    if NeedsAlign(e) then Pads(at, |e.name| + 1, counter) else []
  }

  /** The items an entry becomes at position `at`: its padding, then itself. */
  function ItemsFor(e: Entry, at: nat, ino: nat, counter: nat): seq<Item> {
    PadsFor(e, at, counter) + Listed(ItemOf(e, ino))
  }

  function Listed(it: Option<Item>): seq<Item> { if it.Some? then [it.value] else [] }

  function Bump(e: Entry, counter: nat): nat { if NeedsAlign(e) then counter + 1 else counter }

  function OffsetOf(e: Entry, at: nat, ino: nat, counter: nat): seq<(seq<byte>, nat)> {
    if NeedsAlign(e) && ItemOf(e, ino).Some?
    then [(e.name, at + Size(PadsFor(e, at, counter)) + DataStart(|e.name| + 1))] else []
  }

  /** What packing some entries has produced: the items, the next inode, the
      padding counter, and the aligned payloads with their offsets. */
  datatype Laid = Laid(items: seq<Item>, ino: nat, counter: nat, aligned: seq<(seq<byte>, nat)>)

  function LayOne(l: Laid, e: Entry): Laid {
    var c, at := Bump(e, l.counter), Size(l.items);
    Laid(l.items + ItemsFor(e, at, l.ino, c), if ItemOf(e, l.ino).Some? then l.ino + 1 else l.ino, c,
         l.aligned + OffsetOf(e, at, l.ino, c))
  }

  function Lay(entries: seq<Entry>): Laid {
    if entries == [] then Laid([], 1, 0, []) else LayOne(Lay(entries[..|entries| - 1]), entries[|entries| - 1])
  }

  /** The whole archive: the laid-out items and the trailer. */
  function Layout(entries: seq<Entry>): seq<Item> { Lay(entries).items + [TRAILER] }

  /** How many entries ask for alignment. */
  function AlignCount(entries: seq<Entry>): nat {
    if entries == [] then 0 else AlignCount(entries[..|entries| - 1]) + if NeedsAlign(entries[|entries| - 1]) then 1 else 0
  }

  lemma LaySnoc(entries: seq<Entry>, k: nat)
    requires k < |entries|
    ensures Lay(entries[..k + 1]) == LayOne(Lay(entries[..k]), entries[k])
  {
    assert entries[..k + 1][..k] == entries[..k];
  }

  lemma {:induction false} LayCounters(entries: seq<Entry>)
    ensures Lay(entries).counter == AlignCount(entries) && 1 <= Lay(entries).ino <= |entries| + 1
  {
    if entries != [] { LayCounters(entries[..|entries| - 1]); }
  }

  /** Within the format: sizes in 32 bits, at most 9999 aligned entries. */
  predicate WithinFormat(entries: seq<Entry>) {
    && |entries| < 0x1_0000_0000 - 1 && AlignCount(entries) < 10000
    && forall i :: 0 <= i < |entries| ==> EntryFits(entries[i])
  }

  predicate EntryFits(e: Entry) {
    |e.name| + 1 < 0x1_0000_0000 && (e.content.Some? ==> |e.content.value| < 0x1_0000_0000)
  }

  // ------------------------------------------------------ steps of the methods

  lemma PaddedStop(n: nat, k: nat)
    requires k <= PadLen(n) && (n + k) % 4 == 0
    ensures k == PadLen(n)
  {
  }

  lemma EntryWritten(before: seq<byte>, it: Item)
    requires |before| % 4 == 0 && Printable(it)
    ensures var head := before + EntryHead(it);
            var mid := head + Zeros(PadLen(|head|));
            var body := mid + it.data;
            && |mid| == |before| + DataStart(|it.name| + 1)
            && body + Zeros(PadLen(|body|)) == before + EntryBytes(it)
            && (|before| + |EntryBytes(it)|) % 4 == 0
  {
    HeaderLength(it);
    AlignedPad(|before|, HEADER_LEN + |it.name| + 1);
    AlignedPad(|before| + DataStart(|it.name| + 1), |it.data|);
    EntrySizeExact(it);
    Mod4Sum(|before|, EntrySize(it));
  }

  lemma ConcatOne(it: Item)
    ensures Concat([it]) == EntryBytes(it) && Size([it]) == EntrySize(it)
  {
    FlattenOne(EntryBytes, it);
  }

  lemma FlattenOne(enc: Item -> seq<byte>, it: Item)
    ensures Flatten(enc, [it]) == enc(it) && Size([it]) == EntrySize(it)
  {
    assert [it][1..] == [];
    assert Flatten(enc, [it]) == enc(it) + [];
  }

  lemma AllPrintableMore(a: seq<Item>, b: seq<Item>)
    requires AllPrintable(a) && AllPrintable(b)
    ensures AllPrintable(a + b)
  {
  }

  lemma {:induction false} AlignCountPrefix(entries: seq<Entry>, k: nat)
    requires k <= |entries|
    ensures AlignCount(entries[..k]) <= AlignCount(entries)
    decreases |entries|
  {
    if k < |entries| {
      assert entries[..|entries| - 1][..k] == entries[..k];
      AlignCountPrefix(entries[..|entries| - 1], k);
    } else {
      assert entries[..k] == entries;
    }
  }

  // -------------------------------------------------------------- the methods

  class Archive {
    var out: seq<byte>

    ghost predicate Valid()
      reads this
    {
      |out| % 4 == 0
    }

    constructor ()
      ensures Valid() && out == []
    {
      out := [];
    }

    method PadToFour()
      modifies this
      ensures out == old(out) + Zeros(PadLen(|old(out)|))
    {
      ghost var before := out;
      ghost var n := 0;
      while |out| % 4 != 0
        invariant n <= PadLen(|before|) && out == before + Zeros(n)
        decreases PadLen(|before|) - n
      {
        out := out + [0];
        assert Zeros(n) + [0] == Zeros(n + 1);
        n := n + 1;
      }
      PaddedStop(|before|, n);
    }

    /** Appends one entry, unless a header field needs more than eight digits. */
    method WriteEntry(it: Item) returns (ok: bool, dataOffset: nat)
      requires Valid()
      modifies this
      ensures Valid() && (ok <==> Printable(it))
      ensures out == if ok then old(out) + EntryBytes(it) else old(out)
      ensures ok ==> dataOffset == |old(out)| + DataStart(|it.name| + 1)
    {
      ghost var before := out;
      var header := Header(it);
      HeaderLength(it);
      if |header| != HEADER_LEN { return false, 0; }
      EntryWritten(before, it);
      out := out + header + it.name + [0];
      assert out == before + EntryHead(it);
      PadToFour();
      dataOffset := |out|;
      out := out + it.data;
      PadToFour();
      ok := true;
    }

    /** Appends the padding entry the next name needs; its name assertion fails
        exactly from the ten-thousandth padding on. */
    method InsertAlignmentPad(namesize: nat, counter: nat) returns (ok: bool)
      requires Valid()
      modifies this
      ensures Valid()
      ensures ok <==> Needed(|old(out)|, namesize) == 0 || counter < 10000
      ensures ok ==> out == old(out) + Concat(Pads(|old(out)|, namesize, counter))
      ensures ok ==> AllPrintable(Pads(|old(out)|, namesize, counter))
      ensures ok ==> |out| == |old(out)| + Size(Pads(|old(out)|, namesize, counter)) == |old(out)| + Needed(|old(out)|, namesize)
    {
      var h := AlignUp4(HEADER_LEN + namesize);
      var at := |out|;
      if (at + h) % PAGE_ALIGN == 0 {
        assert out + [] == out;
        return true;
      }
      NeededAligns(at, namesize);
      var needed := PAGE_ALIGN - (at + h) % PAGE_ALIGN;
      if needed < PAD_HEADER { needed := needed + PAGE_ALIGN; }
      var pad := PadItem(needed, counter);
      FourDigits(counter);
      if |pad.name| + 1 != 10 { return false; }
      PadFills(at, namesize, counter);
      ConcatOne(pad);
      EntrySizeExact(pad);
      var offset;
      ok, offset := WriteEntry(pad);
    }

    /** The padding an entry needs, if it needs alignment. */
    method AlignFor(e: Entry, counter: nat) returns (ok: bool)
      requires Valid()
      modifies this
      ensures Valid() && (ok <==> PadWorks(e, |old(out)|, counter))
      ensures ok ==> && out == old(out) + Concat(PadsFor(e, |old(out)|, counter))
                     && AllPrintable(PadsFor(e, |old(out)|, counter))
                     && |out| == |old(out)| + Size(PadsFor(e, |old(out)|, counter))
                     && (NeedsAlign(e) ==> (|out| + DataStart(|e.name| + 1)) % PAGE_ALIGN == 0)
    {
      if !NeedsAlign(e) {
        assert out + [] == out;
        return true;
      }
      NeededAligns(|out|, |e.name| + 1);
      ok := InsertAlignmentPad(|e.name| + 1, counter);
    }

    /** The entry itself, unless its file could not be read. */
    method AppendItem(item: Option<Item>, ghost before: seq<byte>, ghost pads: seq<Item>)
      returns (ok: bool, offset: Option<nat>)
      requires Valid() && out == before + Concat(pads) && AllPrintable(pads)
      modifies this
      ensures Valid() && (ok <==> ItemWorks(item))
      ensures ok ==> out == before + Concat(pads + Listed(item)) && AllPrintable(pads + Listed(item))
      ensures ok ==> offset == if item.Some? then Some(|old(out)| + DataStart(|item.value.name| + 1)) else None
    {
      if item.None? {
        assert pads + Listed(item) == pads;
        return true, None;
      }
      var dataOffset;
      ok, dataOffset := WriteEntry(item.value);
      if !ok { return ok, None; }
      offset := Some(dataOffset);
      ItemsAppend(before, pads, item.value);
      AllPrintableMore(pads, [item.value]);
    }

    /** One round of the loop: the padding the entry needs, then the entry. */
    method PackOne(e: Entry, ino: nat, counter: nat, ghost l: Laid) returns (ok: bool, offset: Option<nat>)
      requires Valid() && |out| == Size(l.items) && ino == l.ino && counter == Bump(e, l.counter)
      modifies this
      ensures Valid() && (ok <==> Packs(l, e))
      ensures ok ==> PackedOne(e, ino, counter, old(out), out, offset)
    {
      ghost var before := out;
      offset := None;
      ok := AlignFor(e, counter);
      if !ok { return; }
      ok, offset := AppendItem(ItemOf(e, ino), before, PadsFor(e, |before|, counter));
    }

    /** Packs the entries in order; returns every aligned payload's name and
        offset. */
    method PackEntries(entries: seq<Entry>) returns (ok: bool, aligned: seq<(seq<byte>, nat)>)
      requires Valid() && out == []
      modifies this
      ensures Valid() && (ok <==> AllPack(entries))
      ensures ok ==> Progress(Lay(entries), out, Lay(entries).ino, Lay(entries).counter, aligned)
    {
      aligned := [];
      var ino: nat, counter: nat := 1, 0;
      for k := 0 to |entries|
        invariant Valid() && Progress(Lay(entries[..k]), out, ino, counter, aligned)
        invariant AllPack(entries[..k])
      {
        var e := entries[k];
        ghost var before := out;
        ghost var l := Lay(entries[..k]);
        PackSnoc(entries, k);
        var offset;
        ok, offset := PackOne(e, ino, Bump(e, counter), l);
        if !ok {
          PackStops(entries, k + 1);
          return;
        }
        ProgressStep(l, e, before, out, offset);
        LaySnoc(entries, k);
        counter := Bump(e, counter);
        if NeedsAlign(e) && offset.Some? { aligned := aligned + [(e.name, offset.value)]; }
        if offset.Some? { ino := ino + 1; }
      }
      assert entries[..|entries|] == entries;
      ok := true;
    }

    /** The whole packer: entries, then the trailer. */
    method Pack(entries: seq<Entry>) returns (ok: bool, aligned: seq<(seq<byte>, nat)>)
      requires Valid() && out == []
      modifies this
      ensures (ok <==> AllPack(entries)) && (WithinFormat(entries) ==> ok)
      ensures ok ==> AllPrintable(Layout(entries)) && out == Concat(Layout(entries))
      ensures ok ==> aligned == Lay(entries).aligned && OnPages(aligned)
    {
      ok, aligned := PackEntries(entries);
      if WithinFormat(entries) {
        FormatPacks(entries, |entries|);
        assert entries[..|entries|] == entries;
      }
      if ok { Close(TRAILER, Lay(entries).items); }
    }

    method Close(last: Item, ghost items: seq<Item>)
      requires Valid() && AllPrintable(items) && Printable(last) && out == Concat(items)
      modifies this
      ensures Valid() && AllPrintable(items + [last]) && out == Concat(items + [last])
    {
      ItemsEnd(items, last);
      var ok, offset := WriteEntry(last);
    }
  }

  /** The padding the entry needs, if any, has a four-digit number. */
  predicate PadWorks(e: Entry, at: nat, counter: nat) {
    NeedsAlign(e) && Needed(at, |e.name| + 1) > 0 ==> counter < 10000
  }

  /** The entry, unless unreadable, fits its header. */
  predicate ItemWorks(item: Option<Item>) { item.Some? ==> Printable(item.value) }

  predicate Packs(l: Laid, e: Entry) { PadWorks(e, Size(l.items), Bump(e, l.counter)) && ItemWorks(ItemOf(e, l.ino)) }

  /** No assertion of the packer fails on any entry, given those before it. */
  predicate AllPack(entries: seq<Entry>) {
    entries == [] || (var k := |entries| - 1; AllPack(entries[..k]) && Packs(Lay(entries[..k]), entries[k]))
  }

  lemma PackSnoc(entries: seq<Entry>, k: nat)
    requires k < |entries|
    ensures AllPack(entries[..k + 1]) <==> AllPack(entries[..k]) && Packs(Lay(entries[..k]), entries[k])
  {
    assert entries[..k + 1][..k] == entries[..k];
  }

  lemma {:induction false} PackStops(entries: seq<Entry>, k: nat)
    requires k <= |entries| && !AllPack(entries[..k])
    ensures !AllPack(entries)
    decreases |entries|
  {
    if k < |entries| {
      assert entries[..|entries| - 1][..k] == entries[..k];
      PackStops(entries[..|entries| - 1], k);
    } else {
      assert entries[..k] == entries;
    }
  }

  /** Packing within the format never fails. */
  lemma {:induction false} FormatPacks(entries: seq<Entry>, n: nat)
    requires WithinFormat(entries) && n <= |entries|
    ensures AllPack(entries[..n])
    decreases n
  {
    if n > 0 {
      FormatPacks(entries, n - 1);
      FormatStep(entries, n - 1);
      PackSnoc(entries, n - 1);
    }
  }

  ghost predicate OnPages(aligned: seq<(seq<byte>, nat)>) {
    forall i :: 0 <= i < |aligned| ==> aligned[i].1 % PAGE_ALIGN == 0
  }

  /** What one round leaves behind. */
  ghost predicate PackedOne(e: Entry, ino: nat, counter: nat, before: seq<byte>, after: seq<byte>, offset: Option<nat>) {
    && AllPrintable(ItemsFor(e, |before|, ino, counter))
    && after == before + Concat(ItemsFor(e, |before|, ino, counter))
    && (offset.Some? <==> ItemOf(e, ino).Some?)
    && (offset.Some? && NeedsAlign(e) ==>
          && offset.value == |before| + Size(PadsFor(e, |before|, counter)) + DataStart(|e.name| + 1)
          && offset.value % PAGE_ALIGN == 0)
  }

  lemma ItemsAppend(before: seq<byte>, pads: seq<Item>, it: Item)
    ensures (before + Concat(pads)) + EntryBytes(it) == before + Concat(pads + [it])
  {
    ConcatMore(pads, [it]);
    ConcatOne(it);
    Associate(before, Concat(pads), EntryBytes(it));
  }

  lemma ItemsEnd(items: seq<Item>, it: Item)
    requires AllPrintable(items) && Printable(it)
    ensures AllPrintable(items + [it]) && Concat(items) + EntryBytes(it) == Concat(items + [it])
  {
    ConcatMore(items, [it]);
    ConcatOne(it);
  }

  lemma Associate<T>(a: seq<T>, b: seq<T>, c: seq<T>)
    ensures (a + b) + c == a + (b + c)
  {
  }

  /** The loop's variables are those of the layout so far. */
  ghost predicate Progress(l: Laid, out: seq<byte>, ino: nat, counter: nat, aligned: seq<(seq<byte>, nat)>) {
    && AllPrintable(l.items) && out == Concat(l.items) && |out| == Size(l.items)
    && ino == l.ino && counter == l.counter && aligned == l.aligned && OnPages(aligned)
  }

  lemma WrittenStep(done: seq<Item>, items: seq<Item>, out: seq<byte>, out': seq<byte>)
    requires AllPrintable(done) && AllPrintable(items) && out == Concat(done) && out' == out + Concat(items)
    requires |out| == Size(done)
    ensures AllPrintable(done + items) && out' == Concat(done + items) && |out'| == Size(done + items)
  {
    ConcatMore(done, items);
    ConcatSize(items);
  }

  lemma AlignedStep(l: Laid, e: Entry, at: nat, offset: Option<nat>)
    requires OnPages(l.aligned) && at == Size(l.items) && (offset.Some? <==> ItemOf(e, l.ino).Some?)
    requires offset.Some? && NeedsAlign(e) ==>
               && offset.value == at + Size(PadsFor(e, at, Bump(e, l.counter))) + DataStart(|e.name| + 1)
               && offset.value % PAGE_ALIGN == 0
    ensures OnPages(LayOne(l, e).aligned)
    ensures LayOne(l, e).aligned == if NeedsAlign(e) && offset.Some? then l.aligned + [(e.name, offset.value)] else l.aligned
  {
    assert l.aligned + [] == l.aligned;
  }

  lemma ProgressStep(l: Laid, e: Entry, out: seq<byte>, out': seq<byte>, offset: Option<nat>)
    requires Progress(l, out, l.ino, l.counter, l.aligned) && PackedOne(e, l.ino, Bump(e, l.counter), out, out', offset)
    ensures Progress(LayOne(l, e), out', if offset.Some? then l.ino + 1 else l.ino, Bump(e, l.counter),
                     if NeedsAlign(e) && offset.Some? then l.aligned + [(e.name, offset.value)] else l.aligned)
  {
    WrittenStep(l.items, ItemsFor(e, |out|, l.ino, Bump(e, l.counter)), out, out');
    AlignedStep(l, e, |out|, offset);
  }

  /** Within the format no assertion can fail on entry `k`. */
  lemma FormatStep(entries: seq<Entry>, k: nat)
    requires k < |entries|
    ensures WithinFormat(entries) ==>
              var l := Lay(entries[..k]);
              && Bump(entries[k], l.counter) < 10000
              && (ItemOf(entries[k], l.ino).Some? ==> Printable(ItemOf(entries[k], l.ino).value))
  {
    var l := Lay(entries[..k]);
    LayCounters(entries[..k]);
    assert entries[..k + 1][..k] == entries[..k] && entries[..k + 1][k] == entries[k];
    AlignCountPrefix(entries, k + 1);
  }
}
