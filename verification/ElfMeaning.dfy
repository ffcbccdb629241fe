/** What the ELF and task planners decide, said of the file's bytes: little-endian
    fields at their ELF64 offsets, apart from the planners' own readers. */
module ElfMeaning {
  import opened Machine
  import opened Bits
  import opened InitElf

  // ------------------------------------------------------------ little endian

  /** The base-256 value, least significant byte first. */
  function LittleEndian(b: seq<byte>): nat { if b == [] then 0 else b[0] + 256 * LittleEndian(b[1..]) }

  lemma TwoBytes(b: seq<byte>)
    requires |b| == 2
    ensures LittleEndian(b) == b[0] as int + 256 * (b[1] as int)
  {
    assert b[1..][1..] == [] && LittleEndian(b[1..]) == b[1];
  }

  lemma TwoMore(a: seq<byte>, b: seq<byte>)
    requires |a| == 2
    ensures LittleEndian(a + b) == LittleEndian(a) + 0x1_0000 * LittleEndian(b)
  {
    assert (a + b)[1..] == a[1..] + b && (a[1..] + b)[1..] == b;
    assert LittleEndian(a[1..] + b) == a[1] + 256 * LittleEndian(b);
    TwoBytes(a);
  }

  lemma FourMore(a: seq<byte>, b: seq<byte>)
    requires |a| == 4
    ensures LittleEndian(a + b) == LittleEndian(a) + 0x1_0000_0000 * LittleEndian(b)
  {
    assert a + b == a[..2] + (a[2..] + b) && a == a[..2] + a[2..];
    TwoMore(a[..2], a[2..] + b);
    TwoMore(a[2..], b);
    TwoMore(a[..2], a[2..]);
  }

  /** The field of `len` bytes at `at`. */
  function Field(b: seq<byte>, at: nat, len: nat): nat
    requires at + len <= |b|
  {
    LittleEndian(b[at..at + len])
  }

  lemma Field16(b: seq<byte>, at: nat)
    requires at + 2 <= |b|
    ensures Le16(b, at) == Field(b, at, 2)
  {
    TwoBytes(b[at..at + 2]);
  }

  lemma Field32(b: seq<byte>, at: nat)
    requires at + 4 <= |b|
    ensures Le32(b, at) == Field(b, at, 4)
  {
    Field16(b, at);
    Field16(b, at + 2);
    assert b[at..at + 4] == b[at..at + 2] + b[at + 2..at + 4];
    TwoMore(b[at..at + 2], b[at + 2..at + 4]);
  }

  lemma Field64(b: seq<byte>, at: nat)
    requires at + 8 <= |b|
    ensures Le64(b, at) == Field(b, at, 8)
  {
    Field32(b, at);
    Field32(b, at + 4);
    assert b[at..at + 8] == b[at..at + 4] + b[at + 4..at + 8];
    FourMore(b[at..at + 4], b[at + 4..at + 8]);
  }

  // ------------------------------------------------------------------- header

  const ELF_TEXT: string := "ELF"

  /** The first wrong field of the header, in the order they are looked at. */
  function HeaderFault(elf: seq<byte>): Option<ElfFailure> {
    if |elf| < 64 then Some(HeaderTruncated)
    else if elf[0] != 0x7f || exists i :: 0 <= i < 3 && elf[i + 1] != ELF_TEXT[i] as int then Some(BadMagic)
    else if elf[4] != 2 then Some(WrongClass)
    else if elf[5] != 1 then Some(WrongEndian)
    else if elf[6] != 1 || Field(elf, 20, 4) != 1 then Some(WrongVersion)
    else if Field(elf, 16, 2) != 2 then Some(WrongType)
    else if Field(elf, 18, 2) != 183 then Some(WrongMachine)
    else if Field(elf, 24, 8) == 0 then Some(InvalidEntry)
    else if Field(elf, 54, 2) != 56 || Field(elf, 56, 2) == 0 then Some(InvalidProgramHeaderSize)
    else if Field(elf, 32, 8) + 56 * Field(elf, 56, 2) > |elf| then Some(ProgramHeadersOutOfBounds)
    else None
  }

  lemma MagicMeans(elf: seq<byte>)
    requires |elf| >= 64
    ensures elf[..4] == ELF_IDENT <==> elf[0] == 0x7f && forall i :: 0 <= i < 3 ==> elf[i + 1] == ELF_TEXT[i] as int
  {
    if elf[..4] == ELF_IDENT {
      assert elf[0] == elf[..4][0] && elf[1] == elf[..4][1] && elf[2] == elf[..4][2] && elf[3] == elf[..4][3];
    }
    if elf[0] == 0x7f && forall i :: 0 <= i < 3 ==> elf[i + 1] == ELF_TEXT[i] as int {
      assert elf[0 + 1] == ELF_TEXT[0] as int && elf[1 + 1] == ELF_TEXT[1] as int && elf[2 + 1] == ELF_TEXT[2] as int;
    }
  }

  lemma HeaderFields(elf: seq<byte>)
    requires |elf| >= 64
    ensures Le32(elf, 20) == Field(elf, 20, 4) && Le16(elf, 16) == Field(elf, 16, 2) && Le16(elf, 18) == Field(elf, 18, 2)
    ensures Le64(elf, 24) == Field(elf, 24, 8) && Le64(elf, 32) == Field(elf, 32, 8)
    ensures Le16(elf, 54) == Field(elf, 54, 2) && Le16(elf, 56) == Field(elf, 56, 2)
  {
    Field32(elf, 20);
    Field16(elf, 16);
    Field16(elf, 18);
    Field64(elf, 24);
    Field64(elf, 32);
    Field16(elf, 54);
    Field16(elf, 56);
  }

  /** The header is refused for its first wrong field, and otherwise gives the
      entry, the table's place and its length. */
  lemma HeaderMeans(elf: seq<byte>)
    ensures var fault := HeaderFault(elf);
            if fault.Some? then ReadHeader(elf) == Failure(fault.value)
            else && ReadHeader(elf).Success? && ReadHeader(elf).value.entry == Field(elf, 24, 8)
                 && ReadHeader(elf).value.offset == Field(elf, 32, 8) && ReadHeader(elf).value.count == Field(elf, 56, 2)
  {
    if |elf| >= 64 {
      MagicMeans(elf);
      HeaderFields(elf);
    }
  }

  // ---------------------------------------------------------- program headers

  /** The places of the loadable program headers numbered `i` to `n`. */
  function Places(elf: seq<byte>, table: nat, i: nat, n: nat): seq<nat>
    requires i <= n && table + 56 * n <= |elf|
    decreases n - i
  {
    if i == n then []
    else (if Field(elf, table + 56 * i, 4) == 1 then [table + 56 * i] else []) + Places(elf, table, i + 1, n)
  }

  /** A place is listed exactly when a loadable header stands there, and the
      places ascend. */
  lemma {:induction false} PlacesExact(elf: seq<byte>, table: nat, i: nat, n: nat, at: nat)
    requires i <= n && table + 56 * n <= |elf|
    ensures at in Places(elf, table, i, n) <==> exists k :: i <= k < n && at == table + 56 * k && Field(elf, at, 4) == 1
    ensures forall j, k :: 0 <= j < k < |Places(elf, table, i, n)| ==> Places(elf, table, i, n)[j] < Places(elf, table, i, n)[k]
    decreases n - i
  {
    if i < n {
      PlacesExact(elf, table, i + 1, n, at);
      var rest := Places(elf, table, i + 1, n);
      forall j | 0 <= j < |rest| ensures table + 56 * i < rest[j] { PlacesExact(elf, table, i + 1, n, rest[j]); }
    }
  }

  /** The header at `at` is `p`, field by field. */
  ghost predicate Reads(elf: seq<byte>, at: nat, p: Program) {
    && at + 56 <= |elf| && p.kind == Field(elf, at, 4) && p.flags == Field(elf, at + 4, 4)
    && p.fileOffset == Field(elf, at + 8, 8) && p.vaddr == Field(elf, at + 16, 8)
    && p.fileSize == Field(elf, at + 32, 8) && p.memSize == Field(elf, at + 40, 8) && p.alignment == Field(elf, at + 48, 8)
  }

  lemma ProgramMeans(elf: seq<byte>, at: nat)
    requires at + 56 <= |elf|
    ensures Reads(elf, at, ProgramAt(elf, at))
  {
    Field32(elf, at);
    Field32(elf, at + 4);
    Field64(elf, at + 8);
    Field64(elf, at + 16);
    Field64(elf, at + 32);
    Field64(elf, at + 40);
    Field64(elf, at + 48);
  }

  ghost predicate AllRead(elf: seq<byte>, ats: seq<nat>, ps: seq<Program>) {
    |ats| == |ps| && forall k :: 0 <= k < |ps| ==> Reads(elf, ats[k], ps[k])
  }

  lemma AllReadCons(elf: seq<byte>, at: nat, p: Program, ats: seq<nat>, ps: seq<Program>)
    requires Reads(elf, at, p) && AllRead(elf, ats, ps)
    ensures AllRead(elf, [at] + ats, [p] + ps)
  {
  }

  lemma {:induction false} LoadsMean(elf: seq<byte>, h: Header, i: nat)
    requires Fits(elf, h) && i <= h.count
    ensures AllRead(elf, Places(elf, h.offset, i, h.count), Loads(elf, h, i))
    decreases h.count - i
  {
    if i < h.count {
      var at := h.offset + PROGRAM_SIZE * i;
      ProgramMeans(elf, at);
      LoadsMean(elf, h, i + 1);
      if Field(elf, at, 4) == 1 {
        AllReadCons(elf, at, ProgramAt(elf, at), Places(elf, h.offset, i + 1, h.count), Loads(elf, h, i + 1));
      }
    }
  }

  // ------------------------------------------------------------ one header

  ghost predicate PowerOfTwo(n: nat) { exists k: nat :: n == Pow2(k) }

  lemma {:induction false} PowerMeans(n: nat)
    ensures IsPowerOfTwo(n) <==> PowerOfTwo(n)
  {
    if n > 1 {
      PowerMeans(n / 2);
      if IsPowerOfTwo(n) {
        var k: nat :| n / 2 == Pow2(k);
        assert n == Pow2(k + 1);
      }
      if k: nat :| n == Pow2(k) {
        assert k > 0 && n == 2 * Pow2(k - 1);
        assert n / 2 == Pow2(k - 1);
      }
    } else if n == 1 {
      assert n == Pow2(0);
    }
  }

  /** The header at `at` describes memory the file can fill. */
  ghost predicate Fillable(elf: seq<byte>, at: nat)
    requires at + 56 <= |elf|
  {
    var offset, vaddr, fileSize, memSize := Field(elf, at + 8, 8), Field(elf, at + 16, 8), Field(elf, at + 32, 8), Field(elf, at + 40, 8);
    var alignment := Field(elf, at + 48, 8);
    && 0 < memSize && fileSize <= memSize && vaddr + memSize < U64_LIMIT
    && offset + fileSize < U64_LIMIT && offset + fileSize <= |elf|
    && (alignment > 1 ==> PowerOfTwo(alignment) && offset % alignment == vaddr % alignment)
  }

  /** Both the write and the execute flag are set. */
  predicate WriteExecute(elf: seq<byte>, at: nat)
    requires at + 56 <= |elf|
  {
    Bit(Field(elf, at + 4, 4), 0) && Bit(Field(elf, at + 4, 4), 1)
  }

  /** The header's memory holds the entry and is executable. */
  predicate HoldsEntry(elf: seq<byte>, at: nat, entry: nat)
    requires at + 56 <= |elf|
  {
    Bit(Field(elf, at + 4, 4), 0) && Field(elf, at + 16, 8) <= entry < Field(elf, at + 16, 8) + Field(elf, at + 40, 8)
  }

  lemma FlagsMean(flags: nat)
    ensures Executable(flags) <==> Bit(flags, 0)
    ensures Writable(flags) <==> Bit(flags, 1)
  {
  }

  lemma JudgedAlike(elf: seq<byte>, at: nat, p: Program, entry: u64)
    requires Reads(elf, at, p)
    ensures ValidLoad(p, |elf|) <==> Fillable(elf, at)
    ensures Writable(p.flags) && Executable(p.flags) <==> WriteExecute(elf, at)
    ensures Enters(p, entry) <==> HoldsEntry(elf, at, entry)
  {
    PowerMeans(p.alignment);
    FlagsMean(p.flags);
  }

  // ----------------------------------------------------------------- the plan

  ghost predicate PlacesIn(elf: seq<byte>, ats: seq<nat>) { forall k :: 0 <= k < |ats| ==> ats[k] + 56 <= |elf| }

  /** Each of the first `n` headers can be taken. */
  ghost predicate Good(elf: seq<byte>, ats: seq<nat>, n: nat)
    requires PlacesIn(elf, ats)
  {
    forall k :: 0 <= k < n && k < |ats| ==> Fillable(elf, ats[k]) && !WriteExecute(elf, ats[k])
  }

  /** Why the loop stops at header number `k`, all before it taken. */
  ghost predicate StopsAt(elf: seq<byte>, ats: seq<nat>, k: nat, why: ElfFailure)
    requires PlacesIn(elf, ats)
  {
    && k < |ats| && k <= 8 && Good(elf, ats, k)
    && (if k == 8 then why == TooManyLoadSegments
        else if !Fillable(elf, ats[k]) then why == InvalidLoadSegment
        else WriteExecute(elf, ats[k]) && why == WritableExecutableSegment)
  }

  /** The loop goes through: at most eight headers, all of them good. */
  ghost predicate GoesThrough(elf: seq<byte>, ats: seq<nat>)
    requires PlacesIn(elf, ats)
  {
    |ats| <= 8 && Good(elf, ats, |ats|)
  }

  lemma {:induction false} RefusalMeans(elf: seq<byte>, ats: seq<nat>, ps: seq<Program>, k: nat)
    requires AllRead(elf, ats, ps) && k <= |ps| && k <= 8 && Good(elf, ats, k)
    ensures PlacesIn(elf, ats)
    ensures var why := Refusal(ps[k..], k, |elf|);
            if why.Some? then exists j: nat :: StopsAt(elf, ats, j, why.value) else GoesThrough(elf, ats)
    decreases |ps| - k
  {
    if k < |ps| {
      JudgedAlike(elf, ats[k], ps[k], 0);
      assert ps[k..][1..] == ps[k + 1..];
      if k < 8 && Fillable(elf, ats[k]) && !WriteExecute(elf, ats[k]) {
        RefusalMeans(elf, ats, ps, k + 1);
      } else {
        assert StopsAt(elf, ats, k, Refusal(ps[k..], k, |elf|).value);
      }
    } else {
      assert ps[k..] == [];
    }
  }

  ghost predicate SegmentReads(elf: seq<byte>, at: nat, s: Segment) {
    && at + 56 <= |elf| && s.flags == Field(elf, at + 4, 4) && s.fileOffset == Field(elf, at + 8, 8)
    && s.vaddr == Field(elf, at + 16, 8) && s.fileSize == Field(elf, at + 32, 8) && s.memSize == Field(elf, at + 40, 8)
  }

  ghost predicate SomeEntry(elf: seq<byte>, ats: seq<nat>, entry: nat)
    requires PlacesIn(elf, ats)
  {
    exists k :: 0 <= k < |ats| && HoldsEntry(elf, ats[k], entry)
  }

  /** What the planner answers, given the places of the loadable headers. */
  ghost predicate Planned(elf: seq<byte>, ats: seq<nat>, out: Result<LoadPlan, ElfFailure>)
    requires |elf| >= 64 && PlacesIn(elf, ats)
  {
    var entry := Field(elf, 24, 8);
    if !GoesThrough(elf, ats) then out.Failure? && exists k: nat :: StopsAt(elf, ats, k, out.error)
    else if ats == [] then out == Failure(InvalidLoadSegment)
    else if !SomeEntry(elf, ats, entry) then out == Failure(EntryNotExecutable)
    else && out.Success? && out.value.entry == entry && |out.value.segments| == |ats|
         && forall k :: 0 <= k < |ats| ==> SegmentReads(elf, ats[k], out.value.segments[k])
  }

  lemma StopsNotThrough(elf: seq<byte>, ats: seq<nat>, k: nat, why: ElfFailure)
    requires PlacesIn(elf, ats) && StopsAt(elf, ats, k, why)
    ensures !GoesThrough(elf, ats)
  {
  }

  lemma SegmentsMean(elf: seq<byte>, ats: seq<nat>, ps: seq<Program>)
    requires AllRead(elf, ats, ps)
    ensures |Segments(ps)| == |ats| && forall k :: 0 <= k < |ats| ==> SegmentReads(elf, ats[k], Segments(ps)[k])
  {
    SegmentsAt(ps);
    forall k | 0 <= k < |ats| ensures SegmentReads(elf, ats[k], Segments(ps)[k]) { assert Reads(elf, ats[k], ps[k]); }
  }

  lemma EntryMeans(elf: seq<byte>, ats: seq<nat>, ps: seq<Program>, entry: u64)
    requires AllRead(elf, ats, ps)
    ensures PlacesIn(elf, ats) && (AnyEnters(ps, entry) <==> SomeEntry(elf, ats, entry))
  {
    forall k | 0 <= k < |ps| ensures Enters(ps[k], entry) <==> HoldsEntry(elf, ats[k], entry) {
      JudgedAlike(elf, ats[k], ps[k], entry);
    }
  }

  lemma LoadsPlanned(elf: seq<byte>, h: Header)
    requires ReadHeader(elf) == Success(h) && |elf| >= 64 && h.entry == Field(elf, 24, 8) && Fits(elf, h)
    ensures var ats := Places(elf, h.offset, 0, h.count);
            PlacesIn(elf, ats) && Planned(elf, ats, ElfPlan(elf))
  {
    var ats, ps := Places(elf, h.offset, 0, h.count), Loads(elf, h, 0);
    LoadsMean(elf, h, 0);
    EntryMeans(elf, ats, ps, h.entry);
    SegmentsMean(elf, ats, ps);
    RefusalMeans(elf, ats, ps, 0);
    assert ps[0..] == ps;
    if why: ElfFailure, k: nat :| StopsAt(elf, ats, k, why) { StopsNotThrough(elf, ats, k, why); }
  }

  /** The plan of any file: the header's first fault, else the first loadable
      header that cannot be taken, else no header or no entry, else one segment
      per loadable header, field by field, in file order. */
  lemma PlanMeans(elf: seq<byte>)
    ensures var fault := HeaderFault(elf);
            if fault.Some? then ElfPlan(elf) == Failure(fault.value)
            else var ats := Places(elf, Field(elf, 32, 8), 0, Field(elf, 56, 2));
                 PlacesIn(elf, ats) && Planned(elf, ats, ElfPlan(elf))
  {
    HeaderMeans(elf);
    if HeaderFault(elf).None? { LoadsPlanned(elf, ReadHeader(elf).value); }
  }
}
