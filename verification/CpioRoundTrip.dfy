/** What the packer writes, the lookup finds. */
module CpioRoundTrip {
  import opened Machine
  import opened Bytes
  import opened Hex
  import opened Newc
  import opened CpioPack
  import opened CpioFind

  // ------------------------------------------------------------- one entry

  lemma {:induction false} FieldAt(s: seq<byte>, c: nat, it: Item, i: nat, j: nat)
    requires i <= j < 13 && At(s, c, Fields(it, i)) && Printable(it)
    ensures At(s, c + 8 * (j - i), Print(FieldOf(it, j), 8)) && |Print(FieldOf(it, j), 8)| == 8
    decreases j - i
  {
    FieldWidth(FieldOf(it, i));
    AtSplit(s, c, Print(FieldOf(it, i), 8), Fields(it, i + 1));
    if i < j { FieldAt(s, c + 8, it, i + 1, j); }
  }

  lemma FieldReads(s: seq<byte>, c: nat, v: nat)
    requires At(s, c, Print(v, 8)) && |Print(v, 8)| == 8
    ensures c + 8 <= |s| && Field(s, c) == Some(v)
  {
    PrintReads(v, 8);
  }

  lemma HeaderReads(s: seq<byte>, c: nat, it: Item)
    requires Printable(it) && At(s, c, Header(it))
    ensures c + HEADER_LEN <= |s| && s[c..c + 6] == NEWC_MAGIC
    ensures Field(s, c + 54) == Some(|it.data|) && Field(s, c + 94) == Some(|it.name| + 1)
  {
    HeaderLength(it);
    AtSplit(s, c, NEWC_MAGIC, Fields(it, 0));
    FieldAt(s, c + 6, it, 0, 6);
    FieldAt(s, c + 6, it, 0, 11);
    FieldReads(s, c + 54, |it.data|);
    FieldReads(s, c + 94, |it.name| + 1);
  }

  lemma FramePieces(s: seq<byte>, c: nat, head: seq<byte>, name: seq<byte>, gap: seq<byte>, data: seq<byte>, tail: seq<byte>)
    requires At(s, c, (head + name + [0]) + (gap + (data + tail)))
    ensures At(s, c, head) && At(s, c + |head|, name) && At(s, c + |head| + |name|, [0])
    ensures At(s, c + |head| + |name| + 1 + |gap|, data)
  {
    AtSplit(s, c, head + name + [0], gap + (data + tail));
    AtSplit(s, c, head + name, [0]);
    AtSplit(s, c, head, name);
    AtSplit(s, c + |head| + |name| + 1, gap, data + tail);
    AtSplit(s, c + |head| + |name| + 1 + |gap|, data, tail);
  }

  /** The pieces of an entry, each at its place. */
  lemma EntryPieces(s: seq<byte>, c: nat, it: Item)
    requires Printable(it) && At(s, c, EntryBytes(it))
    ensures At(s, c, Header(it)) && At(s, c + HEADER_LEN, it.name) && At(s, c + HEADER_LEN + |it.name|, [0])
    ensures At(s, c + DataStart(|it.name| + 1), it.data)
    ensures c + DataStart(|it.name| + 1) == c + HEADER_LEN + |it.name| + 1 + PadLen(HEADER_LEN + |it.name| + 1)
  {
    HeaderLength(it);
    EntrySizeExact(it);
    FramePieces(s, c, Header(it), it.name, Zeros(PadLen(HEADER_LEN + |it.name| + 1)), it.data, Zeros(PadLen(|it.data|)));
  }

  lemma Positions(c: nat, n: nat, m: nat, nameEnd: nat, dataEnd: nat)
    requires c % 4 == 0 && nameEnd == c + HEADER_LEN + n && dataEnd == c + DataStart(n) + m
    ensures AlignUp4(nameEnd) == c + DataStart(n)
    ensures AlignUp4(dataEnd) == c + DataStart(n) + AlignUp4(m)
  {
    AlignedPad(c, HEADER_LEN + n);
    PadIsAlign(nameEnd);
    AlignedPad(c + DataStart(n), m);
    PadIsAlign(dataEnd);
  }

  ghost predicate ShortName(it: Item) { |it.name| + 1 <= MAX_NAME }

  lemma NulLast(s: seq<byte>, c: nat, name: seq<byte>)
    requires At(s, c, name) && At(s, c + |name|, [0])
    ensures c + |name| < |s| && s[c + |name|] == 0 && s[c..c + |name|] == name
  {
    assert s[c + |name|..c + |name| + 1][0] == 0;
  }

  /** The parser's answer from what stands in the header and after it. */
  lemma ParseEntryIs(s: seq<byte>, c: nat, name: seq<byte>, nameEnd: nat, size: nat, dataOffset: nat, dataEnd: nat, next: nat)
    requires c + HEADER_LEN <= |s| && s[c..c + 6] == NEWC_MAGIC && |name| + 1 <= MAX_NAME
    requires Field(s, c + 54) == Some(size) && Field(s, c + 94) == Some(|name| + 1)
    requires At(s, c + HEADER_LEN, name) && At(s, c + HEADER_LEN + |name|, [0])
    requires nameEnd == c + HEADER_LEN + (|name| + 1) && AlignUp4(nameEnd) == dataOffset
    requires dataEnd == dataOffset + size <= |s| && AlignUp4(dataEnd) == next
    ensures ParseEntry(s, c) == Success(Parsed(name, dataOffset, size, next))
  {
    NulLast(s, c + HEADER_LEN, name);
  }

  lemma FieldsParse(s: seq<byte>, c: nat, it: Item)
    requires c % 4 == 0 && ShortName(it) && c + HEADER_LEN <= |s| && s[c..c + 6] == NEWC_MAGIC
    requires Field(s, c + 54) == Some(|it.data|) && Field(s, c + 94) == Some(|it.name| + 1)
    requires At(s, c + HEADER_LEN, it.name) && At(s, c + HEADER_LEN + |it.name|, [0])
    requires At(s, c + DataStart(|it.name| + 1), it.data)
    ensures ParseEntry(s, c) == Success(ParsedAt(c, it))
  {
    var nameEnd, dataOffset := c + HEADER_LEN + (|it.name| + 1), c + DataStart(|it.name| + 1);
    var dataEnd := dataOffset + |it.data|;
    Positions(c, |it.name| + 1, |it.data|, nameEnd, dataEnd);
    ParseEntryIs(s, c, it.name, nameEnd, |it.data|, dataOffset, dataEnd, c + EntrySize(it));
  }

  /** What the parser makes of an item that starts at `at`. */
  function ParsedAt(at: nat, it: Item): Parsed {
    Parsed(it.name, at + DataStart(|it.name| + 1), |it.data|, at + EntrySize(it))
  }

  /** A written entry parses back to itself, and the next one starts after it. */
  lemma EntryParses(s: seq<byte>, c: nat, it: Item)
    requires c % 4 == 0 && Printable(it) && ShortName(it) && At(s, c, EntryBytes(it))
    ensures ParseEntry(s, c) == Success(ParsedAt(c, it))
  {
    EntryPieces(s, c, it);
    HeaderReads(s, c, it);
    FieldsParse(s, c, it);
  }

  // ------------------------------------------------------------- the archive

  type Parse = nat -> Result<Parsed, LookupFailure>

  function Parser(archive: seq<byte>): Parse { (offset: nat) => ParseEntry(archive, offset) }

  /** The lookup loop over any reader of entries, in `len` bytes. */
  function Walk(parse: Parse, len: nat, offset: nat, budget: nat): Result<CpioFile, LookupFailure>
    decreases len, budget
  {
    if budget == 0 then Failure(EntryLimit)
    else
      var entry :- parse(offset);
      if IsInit(entry.name) then Success(CpioFile(entry.dataOffset, entry.size))
      else if entry.name == TRAILER_NAME then Failure(NotFound)
      else if entry.next == len then Failure(MissingTrailer)
      else Walk(parse, len, entry.next, budget - 1)
  }

  lemma {:induction false} FindWalks(archive: seq<byte>, offset: nat, budget: nat)
    ensures Find(archive, offset, budget) == Walk(Parser(archive), |archive|, offset, budget)
    decreases budget
  {
    if budget > 0 && ParseEntry(archive, offset).Success? {
      FindWalks(archive, ParseEntry(archive, offset).value.next, budget - 1);
    }
  }

  ghost predicate AllShort(items: seq<Item>) { forall k :: 0 <= k < |items| ==> ShortName(items[k]) }

  /** From `at` on, the bytes hold the items one after another. */
  ghost predicate Stands(enc: Item -> seq<byte>, s: seq<byte>, at: nat, items: seq<Item>)
    decreases |items|
  {
    items != [] ==> At(s, at, enc(items[0])) && Stands(enc, s, at + EntrySize(items[0]), items[1..])
  }

  lemma {:induction false} FlattenStands(enc: Item -> seq<byte>, s: seq<byte>, at: nat, items: seq<Item>)
    requires Sized(enc, items) && At(s, at, Flatten(enc, items))
    ensures Stands(enc, s, at, items)
    decreases |items|
  {
    if items != [] {
      AtSplit(s, at, enc(items[0]), Flatten(enc, items[1..]));
      FlattenStands(enc, s, at + EntrySize(items[0]), items[1..]);
    }
  }

  /** `parse` reads what `enc` writes, at any aligned place in `s`. */
  ghost predicate Inverse(enc: Item -> seq<byte>, parse: Parse, s: seq<byte>, it: Item) {
    forall at: nat :: at % 4 == 0 && At(s, at, enc(it)) ==> parse(at) == Success(ParsedAt(at, it))
  }

  ghost predicate Inverses(enc: Item -> seq<byte>, parse: Parse, s: seq<byte>, items: seq<Item>) {
    forall i :: 0 <= i < |items| ==> Inverse(enc, parse, s, items[i])
  }

  /** From `at` on, `parse` reads the items one after another. */
  ghost predicate Reads(parse: Parse, at: nat, items: seq<Item>)
    decreases |items|
  {
    items != [] ==>
      parse(at) == Success(ParsedAt(at, items[0])) && Reads(parse, at + EntrySize(items[0]), items[1..])
  }

  lemma {:induction false} StandsReads(enc: Item -> seq<byte>, parse: Parse, s: seq<byte>, at: nat, items: seq<Item>)
    requires Stands(enc, s, at, items) && at % 4 == 0 && Inverses(enc, parse, s, items)
    ensures Reads(parse, at, items)
    decreases |items|
  {
    if items != [] {
      assert Inverse(enc, parse, s, items[0]);
      SizeAligned(items[0]);
      Mod4Sum(at, EntrySize(items[0]));
      StandsReads(enc, parse, s, at + EntrySize(items[0]), items[1..]);
    }
  }

  /** The stage-2B parser reads what the packer writes. */
  lemma ParserInverse(s: seq<byte>, it: Item)
    requires Printable(it) && ShortName(it)
    ensures Inverse(EntryBytes, Parser(s), s, it)
  {
    forall at: nat | at % 4 == 0 && At(s, at, EntryBytes(it))
      ensures Parser(s)(at) == Success(ParsedAt(at, it))
    {
      EntryParses(s, at, it);
    }
  }

  /** The lookup over items instead of bytes. */
  function Scan(at: nat, items: seq<Item>, budget: nat): Result<CpioFile, LookupFailure>
    requires items != [] && items[|items| - 1].name == TRAILER_NAME
    decreases |items|, budget
  {
    if budget == 0 then Failure(EntryLimit)
    else if IsInit(items[0].name) then Success(CpioFile(at + DataStart(|items[0].name| + 1), |items[0].data|))
    else if items[0].name == TRAILER_NAME then Failure(NotFound)
    else Scan(at + EntrySize(items[0]), items[1..], budget - 1)
  }

  /** On any archive that ends with the trailer the byte lookup gives exactly
      the item lookup's answer: never `MissingTrailer`, never a parse error. */
  lemma {:induction false} WalkScans(parse: Parse, len: nat, at: nat, items: seq<Item>, budget: nat)
    requires Reads(parse, at, items) && len == at + Size(items)
    requires items != [] && items[|items| - 1].name == TRAILER_NAME
    ensures Walk(parse, len, at, budget) == Scan(at, items, budget)
    decreases |items|
  {
    if budget > 0 && !IsInit(items[0].name) && items[0].name != TRAILER_NAME {
      SizeAligned(items[1]);
      WalkScans(parse, len, at + EntrySize(items[0]), items[1..], budget - 1);
    }
  }

  /** The position of item `j`. */
  function Offset(items: seq<Item>, j: nat): nat
    requires j <= |items|
  {
    if j == 0 then 0 else EntrySize(items[0]) + Offset(items[1..], j - 1)
  }

  /** Every item stands at its offset. */
  lemma {:induction false} StandsAt(enc: Item -> seq<byte>, s: seq<byte>, at: nat, items: seq<Item>, j: nat)
    requires Stands(enc, s, at, items) && j < |items|
    ensures At(s, at + Offset(items, j), enc(items[j]))
    decreases j
  {
    if j > 0 { StandsAt(enc, s, at + EntrySize(items[0]), items[1..], j - 1); }
  }

  lemma PayloadAt(s: seq<byte>, items: seq<Item>, j: nat)
    requires Stands(EntryBytes, s, 0, items) && j < |items| && Printable(items[j])
    ensures At(s, Offset(items, j) + DataStart(|items[j].name| + 1), items[j].data)
  {
    StandsAt(EntryBytes, s, 0, items, j);
    EntryPieces(s, Offset(items, j), items[j]);
  }

  // ------------------------------------------------------------- the entries

  predicate Stops(name: seq<byte>) { IsInit(name) || name == TRAILER_NAME }

  function Payload(e: Entry): seq<byte> { if e.isDir || e.content.None? then [] else e.content.value }

  predicate Packed(e: Entry) { e.isDir || e.content.Some? }

  /** The first packed entry whose name ends a lookup. */
  function FirstStop(entries: seq<Entry>): Option<Entry> {
    if entries == [] then None
    else
      var n := |entries| - 1;
      var earlier := FirstStop(entries[..n]);
      if earlier.Some? then earlier
      else if Packed(entries[n]) && Stops(entries[n].name) then Some(entries[n])
      else None
  }

  /** What the laid-out items say about the entries they came from. */
  ghost predicate Agrees(items: seq<Item>, stop: Option<Entry>) {
    match stop
    case None => forall k :: 0 <= k < |items| ==> !Stops(items[k].name)
    case Some(e) =>
      exists j :: 0 <= j < |items| && Stops(items[j].name) && items[j].name == e.name && items[j].data == Payload(e)
                  && forall k :: 0 <= k < j ==> !Stops(items[k].name)
  }

  lemma PadNameDiffers(needed: nat, counter: nat)
    requires needed >= PAD_HEADER
    ensures !Stops(PadItem(needed, counter).name)
  {
    var name := PadItem(needed, counter).name;
    assert name[0] == 46;
  }

  lemma AgreesMore(a: seq<Item>, b: seq<Item>, stop: Option<Entry>, e: Option<Entry>)
    requires Agrees(a, stop) && Agrees(b, e)
    ensures Agrees(a + b, if stop.Some? then stop else e)
  {
    if stop.Some? {
      var j :| 0 <= j < |a| && Stops(a[j].name) && a[j].name == stop.value.name && a[j].data == Payload(stop.value)
               && forall k :: 0 <= k < j ==> !Stops(a[k].name);
      assert (a + b)[j] == a[j];
    } else if e.Some? {
      var j :| 0 <= j < |b| && Stops(b[j].name) && b[j].name == e.value.name && b[j].data == Payload(e.value)
               && forall k :: 0 <= k < j ==> !Stops(b[k].name);
      assert (a + b)[|a| + j] == b[j];
    }
  }

  lemma ItemsAgree(e: Entry, at: nat, ino: nat, counter: nat)
    ensures Agrees(ItemsFor(e, at, ino, counter), if Packed(e) && Stops(e.name) then Some(e) else None)
  {
    var pads, own := PadsFor(e, at, counter), Listed(ItemOf(e, ino));
    var stop := if Packed(e) && Stops(e.name) then Some(e) else None;
    if pads != [] { PadNameDiffers(Needed(at, |e.name| + 1), counter); }
    assert Agrees(pads, None);
    assert Agrees(own, stop) by { if stop.Some? { assert own[0].name == e.name && own[0].data == Payload(e); } }
    AgreesMore(pads, own, None, stop);
  }

  lemma {:induction false} LayAgrees(entries: seq<Entry>)
    ensures Agrees(Lay(entries).items, FirstStop(entries))
  {
    if entries != [] {
      var n := |entries| - 1;
      LayAgrees(entries[..n]);
      var l, e := Lay(entries[..n]), entries[n];
      var at, c := Size(l.items), Bump(e, l.counter);
      ItemsAgree(e, at, l.ino, c);
      AgreesMore(l.items, ItemsFor(e, at, l.ino, c), FirstStop(entries[..n]),
                 if Packed(e) && Stops(e.name) then Some(e) else None);
    }
  }

  /** The scan answers from the first item whose name stops it, if the budget
      reaches it. */
  lemma {:induction false} ScanStop(at: nat, items: seq<Item>, j: nat, budget: nat)
    requires items != [] && items[|items| - 1].name == TRAILER_NAME && j < |items|
    requires Stops(items[j].name) && (forall k :: 0 <= k < j ==> !Stops(items[k].name))
    ensures Scan(at, items, budget) ==
            if budget <= j then Failure(EntryLimit)
            else if IsInit(items[j].name)
            then Success(CpioFile(at + Offset(items, j) + DataStart(|items[j].name| + 1), |items[j].data|))
            else Failure(NotFound)
    decreases j
  {
    if budget > 0 && j > 0 { ScanStop(at + EntrySize(items[0]), items[1..], j - 1, budget - 1); }
  }

  // ------------------------------------------------------------ the round trip

  lemma PadsPrintable(e: Entry, at: nat, counter: nat)
    requires at % 4 == 0 && counter < 10000
    ensures AllPrintable(PadsFor(e, at, counter))
  {
    if NeedsAlign(e) && Needed(at, |e.name| + 1) > 0 { PadFills(at, |e.name| + 1, counter); }
  }

  lemma PrintableStep(l: Laid, e: Entry)
    requires AllPrintable(l.items) && Bump(e, l.counter) < 10000
    requires ItemOf(e, l.ino).Some? ==> Printable(ItemOf(e, l.ino).value)
    ensures AllPrintable(LayOne(l, e).items)
  {
    SizesAligned(l.items);
    PadsPrintable(e, Size(l.items), Bump(e, l.counter));
  }

  /** Within the format every header fits its eight-digit fields. */
  lemma {:induction false} LayPrintable(entries: seq<Entry>, n: nat)
    requires WithinFormat(entries) && n <= |entries|
    ensures AllPrintable(Lay(entries[..n]).items)
    decreases n
  {
    if n > 0 {
      LayPrintable(entries, n - 1);
      LaySnoc(entries, n - 1);
      FormatStep(entries, n - 1);
      PrintableStep(Lay(entries[..n - 1]), entries[n - 1]);
    }
  }

  lemma LayoutPrintable(entries: seq<Entry>)
    requires WithinFormat(entries)
    ensures AllPrintable(Layout(entries))
  {
    LayPrintable(entries, |entries|);
    assert entries[..|entries|] == entries;
  }

  lemma {:induction false} LayShort(entries: seq<Entry>)
    requires forall i :: 0 <= i < |entries| ==> |entries[i].name| + 1 <= MAX_NAME
    requires AlignCount(entries) < 10000
    ensures AllShort(Lay(entries).items)
  {
    if entries != [] {
      var n := |entries| - 1;
      LayShort(entries[..n]);
      LayCounters(entries);
      FourDigits(Lay(entries).counter);
    }
  }

  lemma ConcatStands(items: seq<Item>)
    requires AllPrintable(items)
    ensures Stands(EntryBytes, Concat(items), 0, items)
  {
    EntriesSized(items);
    FlattenStands(EntryBytes, Concat(items), 0, items);
  }

  lemma ParserInverses(s: seq<byte>, items: seq<Item>)
    requires AllPrintable(items) && AllShort(items)
    ensures Inverses(EntryBytes, Parser(s), s, items)
  {
    forall i | 0 <= i < |items| ensures Inverse(EntryBytes, Parser(s), s, items[i]) { ParserInverse(s, items[i]); }
  }

  /** Some reader reads every item that stands in the bytes, and the byte
      lookup is the walk with that reader. */
  lemma ArchiveReader(s: seq<byte>, items: seq<Item>, budget: nat) returns (parse: Parse)
    requires AllPrintable(items) && AllShort(items) && Stands(EntryBytes, s, 0, items)
    ensures Reads(parse, 0, items)
    ensures Find(s, 0, budget) == Walk(parse, |s|, 0, budget)
  {
    parse := Parser(s);
    ParserInverses(s, items);
    StandsReads(EntryBytes, parse, s, 0, items);
    FindWalks(s, 0, budget);
  }

  /** Every archive that ends with the trailer and reads item by item answers
      like the item scan, whatever it holds. */
  lemma ArchiveFinds(s: seq<byte>, parse: Parse, items: seq<Item>, budget: nat)
    requires Reads(parse, 0, items) && Find(s, 0, budget) == Walk(parse, |s|, 0, budget) && |s| == Size(items)
    requires items != [] && items[|items| - 1].name == TRAILER_NAME
    ensures Find(s, 0, budget) == Scan(0, items, budget)
  {
    WalkScans(parse, |s|, 0, items, budget);
  }

  /** The lookup on written items answers like a scan of the items. */
  lemma ConcatFinds(items: seq<Item>, budget: nat)
    requires AllPrintable(items) && AllShort(items) && items != [] && items[|items| - 1].name == TRAILER_NAME
    ensures Find(Concat(items), 0, budget) == Scan(0, items, budget)
  {
    ConcatStands(items);
    ConcatSize(items);
    var parse := ArchiveReader(Concat(items), items, budget);
    ArchiveFinds(Concat(items), parse, items, budget);
  }

  /** The place of the first item the lookup stops at. */
  function StopIndex(items: seq<Item>): nat {
    if items == [] || Stops(items[0].name) then 0 else 1 + StopIndex(items[1..])
  }

  lemma {:induction false} StopIndexIs(items: seq<Item>, j: nat)
    requires j < |items| && Stops(items[j].name) && forall k :: 0 <= k < j ==> !Stops(items[k].name)
    ensures StopIndex(items) == j
    decreases j
  {
    if j > 0 { StopIndexIs(items[1..], j - 1); }
  }

  lemma StopOf(items: seq<Item>, stop: Option<Entry>) returns (j: nat)
    requires Agrees(items, stop)
    ensures j <= |items| && Stops((items + [TRAILER])[j].name)
    ensures forall k :: 0 <= k < j ==> !Stops((items + [TRAILER])[k].name)
    ensures if stop.Some? then j < |items| && items[j].name == stop.value.name && items[j].data == Payload(stop.value)
            else j == |items|
  {
    j := |items|;
    if stop.Some? {
      j :| 0 <= j < |items| && Stops(items[j].name) && items[j].name == stop.value.name
           && items[j].data == Payload(stop.value) && forall k :: 0 <= k < j ==> !Stops(items[k].name);
    }
  }

  /** The lookup's answer when `stop` is the first entry it stops at. */
  ghost predicate Answers(archive: seq<byte>, found: Result<CpioFile, LookupFailure>, stop: Option<Entry>) {
    if stop.Some? && IsInit(stop.value.name)
    then found.Success? && found.value.size == |Payload(stop.value)| && At(archive, found.value.dataOffset, Payload(stop.value))
    else found == Failure(NotFound)
  }

  lemma AnswersAt(s: seq<byte>, all: seq<Item>, j: nat, stop: Option<Entry>, budget: nat)
    requires j < |all| && all[|all| - 1].name == TRAILER_NAME
    requires Stops(all[j].name) && (forall k :: 0 <= k < j ==> !Stops(all[k].name))
    requires At(s, Offset(all, j) + DataStart(|all[j].name| + 1), all[j].data)
    requires if stop.Some? then all[j].name == stop.value.name && all[j].data == Payload(stop.value)
             else all[j].name == TRAILER_NAME
    ensures if StopIndex(all) >= budget then Scan(0, all, budget) == Failure(EntryLimit)
            else Answers(s, Scan(0, all, budget), stop)
  {
    ScanStop(0, all, j, budget);
    StopIndexIs(all, j);
  }

  /** The round trip: on what the packer wrote for any entries with short names
      the lookup returns the bytes of the first entry named `init` or `/init`, or
      `NotFound` when there is none before an entry named like the trailer, and
      `EntryLimit` exactly when 4096 written items come before that stop. */
  lemma PackFindRoundTrip(entries: seq<Entry>)
    requires WithinFormat(entries) && (forall i :: 0 <= i < |entries| ==> |entries[i].name| + 1 <= MAX_NAME)
    ensures var s := Concat(Layout(entries)); var found := Find(s, 0, MAX_ENTRIES);
            if StopIndex(Layout(entries)) >= MAX_ENTRIES then found == Failure(EntryLimit)
            else Answers(s, found, FirstStop(entries))
  {
    var s, all := Concat(Layout(entries)), Layout(entries);
    LayShort(entries);
    LayAgrees(entries);
    LayoutPrintable(entries);
    ConcatStands(all);
    ConcatFinds(all, MAX_ENTRIES);
    var j := StopOf(Lay(entries).items, FirstStop(entries));
    PayloadAt(s, all, j);
    AnswersAt(s, all, j, FirstStop(entries), MAX_ENTRIES);
  }

  // ------------------------------------------------------------ aligned payloads

  lemma {:induction false} LayPrefix(entries: seq<Entry>, n: nat)
    requires n <= |entries|
    ensures Lay(entries[..n]).items <= Lay(entries).items && Lay(entries[..n]).aligned <= Lay(entries).aligned
    decreases |entries|
  {
    if n < |entries| {
      var front := entries[..|entries| - 1];
      assert front[..n] == entries[..n];
      LayPrefix(front, n);
    } else {
      assert entries[..n] == entries;
    }
  }

  lemma {:induction false} OffsetIsSize(items: seq<Item>, j: nat)
    requires j <= |items|
    ensures Offset(items, j) == Size(items[..j])
    decreases j
  {
    if j > 0 {
      assert items[..j][1..] == items[1..][..j - 1];
      OffsetIsSize(items[1..], j - 1);
    }
  }

  lemma {:induction false} SizesAligned(items: seq<Item>)
    ensures Size(items) % 4 == 0
  {
    if items != [] {
      SizeAligned(items[0]);
      SizesAligned(items[1..]);
      Mod4Sum(EntrySize(items[0]), Size(items[1..]));
    }
  }

  /** The padding before an entry puts its payload on a page. */
  lemma PaddedOffset(e: Entry, at: nat, counter: nat)
    requires NeedsAlign(e) && at % 4 == 0 && counter < 10000
    ensures (at + Size(PadsFor(e, at, counter)) + DataStart(|e.name| + 1)) % PAGE_ALIGN == 0
  {
    NeededAligns(at, |e.name| + 1);
    if Needed(at, |e.name| + 1) > 0 {
      PadFills(at, |e.name| + 1, counter);
      FlattenOne(EntryBytes, PadItem(Needed(at, |e.name| + 1), counter));
    }
  }

  lemma OffsetAfter(a: seq<Item>, b: seq<Item>, items: seq<Item>)
    requires a + b <= items
    ensures Offset(items, |a| + |b|) == Size(a) + Size(b)
  {
    assert items[..|a| + |b|] == a + b;
    OffsetIsSize(items, |a| + |b|);
    FlattenMore(EntryBytes, a, b);
  }

  /** The item of an aligned entry, and where it stands among the items laid
      out with it. */
  lemma EntryPlace(l: Laid, e: Entry, items: seq<Item>) returns (j: nat)
    requires NeedsAlign(e) && Packed(e) && Bump(e, l.counter) < 10000 && Size(l.items) % 4 == 0
    requires LayOne(l, e).items <= items
    ensures j < |items| && items[j].name == e.name && items[j].data == Payload(e)
    ensures var offset := Offset(items, j) + DataStart(|e.name| + 1);
            offset % PAGE_ALIGN == 0 && LayOne(l, e).aligned == l.aligned + [(e.name, offset)]
  {
    var c, at := Bump(e, l.counter), Size(l.items);
    var pads := PadsFor(e, at, c);
    j := |l.items| + |pads|;
    assert l.items + pads <= LayOne(l, e).items && LayOne(l, e).items[j] == ItemOf(e, l.ino).value;
    OffsetAfter(l.items, pads, items);
    PaddedOffset(e, at, c);
  }

  ghost predicate PlacedAt(all: seq<Item>, aligned: seq<(seq<byte>, nat)>, e: Entry, j: nat) {
    && j < |all| && all[j].name == e.name && all[j].data == Payload(e)
    && (Offset(all, j) + DataStart(|e.name| + 1)) % PAGE_ALIGN == 0
    && (e.name, Offset(all, j) + DataStart(|e.name| + 1)) in aligned
  }

  lemma PlaceIn(l: Laid, e: Entry, all: seq<Item>, aligned: seq<(seq<byte>, nat)>) returns (j: nat)
    requires NeedsAlign(e) && Packed(e) && Bump(e, l.counter) < 10000
    requires LayOne(l, e).items <= all && LayOne(l, e).aligned <= aligned
    ensures PlacedAt(all, aligned, e, j)
  {
    SizesAligned(l.items);
    j := EntryPlace(l, e, all);
    assert aligned[|l.aligned|] == (e.name, Offset(all, j) + DataStart(|e.name| + 1));
  }

  lemma AlignedPlace(entries: seq<Entry>, n: nat) returns (j: nat)
    requires WithinFormat(entries) && n < |entries| && NeedsAlign(entries[n]) && Packed(entries[n])
    ensures PlacedAt(Layout(entries), Lay(entries).aligned, entries[n], j)
  {
    LaySnoc(entries, n);
    LayPrefix(entries, n + 1);
    FormatStep(entries, n);
    j := PlaceIn(Lay(entries[..n]), entries[n], Layout(entries), Lay(entries).aligned);
  }

  lemma PlacedPayload(s: seq<byte>, all: seq<Item>, aligned: seq<(seq<byte>, nat)>, e: Entry, j: nat) returns (offset: nat)
    requires PlacedAt(all, aligned, e, j) && Printable(all[j]) && Stands(EntryBytes, s, 0, all)
    ensures offset % PAGE_ALIGN == 0 && (e.name, offset) in aligned && At(s, offset, Payload(e))
  {
    offset := Offset(all, j) + DataStart(|e.name| + 1);
    PayloadAt(s, all, j);
  }

  /** Every packed entry that asks for alignment is reported with a page
      offset, and the archive holds its payload there. */
  lemma AlignedPayload(entries: seq<Entry>, n: nat) returns (offset: nat)
    requires WithinFormat(entries) && n < |entries| && NeedsAlign(entries[n]) && Packed(entries[n])
    ensures offset % PAGE_ALIGN == 0 && (entries[n].name, offset) in Lay(entries).aligned
    ensures At(Concat(Layout(entries)), offset, Payload(entries[n]))
  {
    var j := AlignedPlace(entries, n);
    LayoutPrintable(entries);
    ConcatStands(Layout(entries));
    offset := PlacedPayload(Concat(Layout(entries)), Layout(entries), Lay(entries).aligned, entries[n], j);
  }
}
