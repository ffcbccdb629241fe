/** What the packer writes besides the payloads, and what the lookup answers on
    any bytes, read off the newc format. */
module CpioMeaning {
  import opened Machine
  import opened Bytes
  import opened Hex
  import opened Newc
  import opened CpioPack
  import opened CpioFind
  import opened CpioRoundTrip

  lemma NamesSpelled()
    ensures NEWC_MAGIC == Ascii("070701") && TRAILER_NAME == Ascii("TRAILER!!!") && PAD_PREFIX == Ascii("._pad")
    ensures INIT == Ascii("init") && SLASH_INIT == Ascii("/init") && ELF_MAGIC == [0x7f] + Ascii("ELF")
  {
  }

  /** Header field `k` of the entry at `c`: eight hexadecimal digits. */
  function NewcField(s: seq<byte>, c: nat, k: nat): Option<nat>
    requires c + 110 <= |s| && k < 13
  {
    var text := s[c + 6 + 8 * k..c + 14 + 8 * k];
    if IsHex(text) then Some(HexValue(text)) else None
  }

  /** The link count of a directory is two, of anything else one. */
  predicate IsDirectory(mode: nat) { (mode / 0x1000) % 0x10 == 4 }

  /** Every header field of a written entry: inode, mode, link count, file size
      and name size in their places, and zero in all the others. */
  lemma HeaderMeans(s: seq<byte>, c: nat, it: Item, k: nat)
    requires Printable(it) && At(s, c, EntryBytes(it)) && k < 13
    ensures c + 110 <= |s| && s[c..c + 6] == Ascii("070701")
    ensures NewcField(s, c, k) == Some(if k == 0 then it.ino
                                       else if k == 1 then it.mode
                                       else if k == 4 then (if IsDirectory(it.mode) then 2 else 1)
                                       else if k == 6 then |it.data|
                                       else if k == 11 then |it.name| + 1
                                       else 0)
  {
    NamesSpelled();
    EntryPieces(s, c, it);
    HeaderReads(s, c, it);
    AtSplit(s, c, NEWC_MAGIC, Fields(it, 0));
    FieldAt(s, c + 6, it, 0, k);
    FieldReads(s, c + 6 + 8 * k, FieldOf(it, k));
  }

  /** Which entries are put on a page: those named for it, and readable files
      that start with the ELF magic. */
  lemma AlignMeans(e: Entry)
    ensures NeedsAlign(e) <==>
              e.forced || (!e.isDir && e.content.Some? && |e.content.value| >= 4 && e.content.value[..4] == [0x7f] + Ascii("ELF"))
  {
    NamesSpelled();
  }

  /** Directories are written empty with mode 040755, files with their content
      and their permission bits; an unreadable file is left out. */
  lemma ItemMeans(e: Entry, ino: nat)
    ensures ItemOf(e, ino).None? <==> !e.isDir && e.content.None?
    ensures ItemOf(e, ino).Some? ==>
              var it := ItemOf(e, ino).value;
              && it.name == e.name && it.ino == ino && it.data == (if e.isDir then [] else e.content.value)
              && it.mode == if e.isDir then 4 * 0x1000 + 7 * 64 + 5 * 8 + 5 else 8 * 0x1000 + e.perm % 512
  {
  }

  /** The number a run of decimal digits writes. */
  function DecimalValue(s: seq<byte>): int {
    if s == [] then 0 else DecimalValue(s[..|s| - 1]) * 10 - 48 + s[|s| - 1]
  }

  predicate AllDigits(s: seq<byte>) { forall i :: 0 <= i < |s| ==> 48 <= s[i] <= 57 }

  lemma {:induction false} DecimalMeans(v: nat, width: nat)
    ensures AllDigits(Decimal(v, width)) && DecimalValue(Decimal(v, width)) == v
    decreases width, v
  {
    var last := [48 + v % 10];
    if v < 10 && width <= 1 {
      assert [48 + v][..0] == [];
    } else {
      var front := Decimal(v / 10, if width == 0 then 0 else width - 1);
      DecimalMeans(v / 10, if width == 0 then 0 else width - 1);
      assert (front + last)[..|front|] == front;
    }
  }

  /** A padding entry: named by its number, read-only, of zeros. */
  lemma PadMeans(needed: nat, counter: nat)
    requires needed >= PAD_HEADER
    ensures var p := PadItem(needed, counter);
            && Ascii("._pad") <= p.name && DecimalValue(p.name[5..]) == counter && AllDigits(p.name[5..])
            && p.ino == 0 && p.mode == 8 * 0x1000 + 4 * 64 + 4 * 8 + 4 && |p.data| == needed - 120
            && forall i :: 0 <= i < |p.data| ==> p.data[i] == 0
  {
    NamesSpelled();
    DecimalMeans(counter, 4);
    assert PadItem(needed, counter).name[5..] == Decimal(counter, 4);
  }

  // ------------------------------------------------------------------ the lookup

  function Up4(n: nat): nat { n + (4 - n % 4) % 4 }

  /** The first thing wrong with the entry at `c`. */
  function EntryFault(s: seq<byte>, c: nat): Option<LookupFailure> {
    if c + 110 > |s| then Some(HeaderTruncated)
    else if s[c..c + 6] != Ascii("070701") then Some(BadMagic)
    else if NewcField(s, c, 6).None? || NewcField(s, c, 11).None? then Some(InvalidHex)
    else
      var size, named := NewcField(s, c, 6).value, NewcField(s, c, 11).value;
      if named < 1 || named > 256 then Some(InvalidNameSize)
      else if c + 110 + named > |s| then Some(NameTruncated)
      else if s[c + 109 + named] != 0 then Some(NameNotTerminated)
      else if Up4(c + 110 + named) + size > |s| then Some(EntryTruncated)
      else None
  }

  /** A sound entry at `c`: its name, where its payload lies, and the next entry. */
  ghost predicate EntryIs(s: seq<byte>, c: nat, name: seq<byte>, data: nat, size: nat, next: nat)
    requires EntryFault(s, c).None?
  {
    && NewcField(s, c, 6) == Some(size) && NewcField(s, c, 11) == Some(|name| + 1) && At(s, c + 110, name)
    && data == Up4(c + 111 + |name|) && next == Up4(data + size)
  }

  lemma Up4Means(n: nat)
    ensures AlignUp4(n) == Up4(n)
  {
  }

  lemma EntryMeans(s: seq<byte>, c: nat)
    ensures var fault := EntryFault(s, c);
            if fault.Some? then ParseEntry(s, c) == Failure(fault.value)
            else && ParseEntry(s, c).Success?
                 && var p := ParseEntry(s, c).value; EntryIs(s, c, p.name, p.dataOffset, p.size, p.next)
  {
    NamesSpelled();
    if c + 110 <= |s| && NewcField(s, c, 6).Some? && NewcField(s, c, 11).Some? {
      Up4Means(c + 110 + NewcField(s, c, 11).value);
      Up4Means(Up4(c + 110 + NewcField(s, c, 11).value) + NewcField(s, c, 6).value);
    }
  }

  predicate NamedInit(name: seq<byte>) { name == Ascii("init") || name == Ascii("/init") }

  /** The entry at `c` is sound, is not `init` nor the trailer, and another one
      is due at `next`. */
  ghost predicate PassedOver(s: seq<byte>, c: nat, next: nat) {
    && EntryFault(s, c).None? && next != |s|
    && exists name, data, size :: EntryIs(s, c, name, data, size, next) && !NamedInit(name) && name != Ascii("TRAILER!!!")
  }

  /** The entry at `c` settles the lookup. */
  ghost predicate SettledBy(s: seq<byte>, c: nat, out: Result<CpioFile, LookupFailure>) {
    if EntryFault(s, c).Some? then out == Failure(EntryFault(s, c).value)
    else exists name, data, size, next :: EntryIs(s, c, name, data, size, next) &&
           if NamedInit(name) then out == Success(CpioFile(data, size))
           else if name == Ascii("TRAILER!!!") then out == Failure(NotFound)
           else next == |s| && out == Failure(MissingTrailer)
  }

  /** The places looked at: each but the last is passed over to the next. */
  ghost predicate Visits(s: seq<byte>, ps: seq<nat>) {
    |ps| > 0 && forall i :: 0 <= i < |ps| - 1 ==> PassedOver(s, ps[i], ps[i + 1])
  }

  lemma {:induction false} FindFromMeans(s: seq<byte>, c: nat, budget: nat) returns (ps: seq<nat>)
    ensures Visits(s, ps) && ps[0] == c && |ps| <= budget + 1
    ensures if |ps| == budget + 1 then Find(s, c, budget) == Failure(EntryLimit) else SettledBy(s, ps[|ps| - 1], Find(s, c, budget))
    decreases budget
  {
    ps := [c];
    if budget > 0 {
      NamesSpelled();
      EntryMeans(s, c);
      if EntryFault(s, c).None? {
        var p := ParseEntry(s, c).value;
        assert EntryIs(s, c, p.name, p.dataOffset, p.size, p.next);
        if !IsInit(p.name) && p.name != TRAILER_NAME && p.next != |s| {
          var rest := FindFromMeans(s, p.next, budget - 1);
          ps := [c] + rest;
          forall i | 0 <= i < |ps| - 1 ensures PassedOver(s, ps[i], ps[i + 1]) {
            if i > 0 { assert PassedOver(s, rest[i - 1], rest[i - 1 + 1]); }
          }
        }
      }
    }
  }

  /** The lookup on any bytes: sound entries other than `init` and the trailer are
      passed over from the start of the archive, 4096 of them at most, and the
      next one settles the answer. */
  lemma FindMeans(s: seq<byte>) returns (ps: seq<nat>)
    ensures Visits(s, ps) && ps[0] == 0 && |ps| <= 4097
    ensures var out := Find(s, 0, MAX_ENTRIES);
            if |ps| == 4097 then out == Failure(EntryLimit) else SettledBy(s, ps[|ps| - 1], out)
  {
    ps := FindFromMeans(s, 0, MAX_ENTRIES);
  }
}
