/** The stage-2B ELF planner: header checks, then the loadable segments of an
    AArch64 executable in program-header order. */
module InitElf {
  import opened Machine

  const MAX_SEGMENTS: nat := 8
  const HEADER_SIZE: nat := 64
  const PROGRAM_SIZE: nat := 56
  const ELF_IDENT: seq<byte> := [0x7f, 0x45, 0x4c, 0x46]
  const PT_LOAD: nat := 1

  datatype ElfFailure =
    | HeaderTruncated | BadMagic | WrongClass | WrongEndian | WrongVersion | WrongType | WrongMachine
    | InvalidEntry | InvalidProgramHeaderSize | ProgramHeadersOutOfBounds | TooManyLoadSegments
    | InvalidLoadSegment | WritableExecutableSegment | EntryNotExecutable

  datatype Segment = Segment(vaddr: u64, memSize: u64, fileSize: u64, fileOffset: u64, flags: nat)

  datatype LoadPlan = LoadPlan(entry: u64, segments: seq<Segment>)

  /** The fields of the ELF header the planner uses. */
  datatype Header = Header(entry: u64, offset: u64, count: nat)

  /** One program header. */
  datatype Program = Program(kind: nat, flags: nat, fileOffset: u64, vaddr: u64, fileSize: u64, memSize: u64, alignment: u64)

  // -------------------------------------------------------------- the readers

  function Le16(b: seq<byte>, at: nat): (v: nat)
    requires at + 2 <= |b|
    ensures v < 0x1_0000
  {
    (b[at] as int) + 256 * (b[at + 1] as int)
  }

  function Le32(b: seq<byte>, at: nat): (v: nat)
    requires at + 4 <= |b|
    ensures v < 0x1_0000_0000
  {
    Le16(b, at) + 0x1_0000 * Le16(b, at + 2)
  }

  function Le64(b: seq<byte>, at: nat): (v: u64)
    requires at + 8 <= |b|
  {
    Le32(b, at) + 0x1_0000_0000 * Le32(b, at + 4)
  }

  // --------------------------------------------------------------- the checks

  function ReadHeader(elf: seq<byte>): Result<Header, ElfFailure> {
    if |elf| < HEADER_SIZE then Failure(HeaderTruncated)
    else if elf[..4] != ELF_IDENT then Failure(BadMagic)
    else if elf[4] != 2 then Failure(WrongClass)
    else if elf[5] != 1 then Failure(WrongEndian)
    else if elf[6] != 1 || Le32(elf, 20) != 1 then Failure(WrongVersion)
    else if Le16(elf, 16) != 2 then Failure(WrongType)
    else if Le16(elf, 18) != 183 then Failure(WrongMachine)
    else if Le64(elf, 24) == 0 then Failure(InvalidEntry)
    else if Le16(elf, 54) != PROGRAM_SIZE || Le16(elf, 56) == 0 then Failure(InvalidProgramHeaderSize)
    else if Le64(elf, 32) + PROGRAM_SIZE * Le16(elf, 56) > |elf| then Failure(ProgramHeadersOutOfBounds)
    else Success(Header(Le64(elf, 24), Le64(elf, 32), Le16(elf, 56)))
  }

  /** The program headers lie inside the file. */
  predicate Fits(elf: seq<byte>, h: Header) { h.offset + PROGRAM_SIZE * h.count <= |elf| }

  function ProgramAt(elf: seq<byte>, at: nat): Program
    requires at + PROGRAM_SIZE <= |elf|
  {
    Program(Le32(elf, at), Le32(elf, at + 4), Le64(elf, at + 8), Le64(elf, at + 16),
            Le64(elf, at + 32), Le64(elf, at + 40), Le64(elf, at + 48))
  }

  predicate IsPowerOfTwo(n: nat) { n == 1 || (n > 0 && n % 2 == 0 && IsPowerOfTwo(n / 2)) }

  predicate Executable(flags: nat) { flags % 2 == 1 }

  predicate Writable(flags: nat) { (flags / 2) % 2 == 1 }

  predicate ValidLoad(p: Program, fileLen: nat) {
    && p.memSize != 0 && p.fileSize <= p.memSize
    && p.vaddr + p.memSize < U64_LIMIT
    && p.fileOffset + p.fileSize < U64_LIMIT && p.fileOffset + p.fileSize <= fileLen
    && (p.alignment > 1 ==> IsPowerOfTwo(p.alignment) && p.fileOffset % p.alignment == p.vaddr % p.alignment)
  }

  predicate GoodLoad(p: Program, fileLen: nat) { ValidLoad(p, fileLen) && !(Writable(p.flags) && Executable(p.flags)) }

  predicate Enters(p: Program, entry: u64) { Executable(p.flags) && p.vaddr <= entry < p.vaddr + p.memSize }

  function SegmentOf(p: Program): Segment { Segment(p.vaddr, p.memSize, p.fileSize, p.fileOffset, p.flags) }

  // ------------------------------------------------------------- specification

  /** The loadable program headers from number `i` on, in order. */
  function Loads(elf: seq<byte>, h: Header, i: nat): seq<Program>
    requires Fits(elf, h) && i <= h.count
    decreases h.count - i
  {
    if i == h.count then []
    else
      var p := ProgramAt(elf, h.offset + PROGRAM_SIZE * i);
      if p.kind == PT_LOAD then [p] + Loads(elf, h, i + 1) else Loads(elf, h, i + 1)
  }

  /** Why the first loadable header that cannot be taken after `n` others is
      refused, if there is one. */
  function Refusal(ps: seq<Program>, n: nat, fileLen: nat): Option<ElfFailure> {
    if ps == [] then None
    else if n == MAX_SEGMENTS then Some(TooManyLoadSegments)
    else if !ValidLoad(ps[0], fileLen) then Some(InvalidLoadSegment)
    else if Writable(ps[0].flags) && Executable(ps[0].flags) then Some(WritableExecutableSegment)
    else Refusal(ps[1..], n + 1, fileLen)
  }

  function Segments(ps: seq<Program>): seq<Segment> {
    if ps == [] then [] else [SegmentOf(ps[0])] + Segments(ps[1..])
  }

  predicate AnyEnters(ps: seq<Program>, entry: u64) { exists k :: 0 <= k < |ps| && Enters(ps[k], entry) }

  function ElfPlan(elf: seq<byte>): Result<LoadPlan, ElfFailure> {
    var h :- ReadHeader(elf);
    var ps := Loads(elf, h, 0);
    match Refusal(ps, 0, |elf|)
    case Some(f) => Failure(f)
    case None =>
      if ps == [] then Failure(InvalidLoadSegment)
      else if !AnyEnters(ps, h.entry) then Failure(EntryNotExecutable)
      else Success(LoadPlan(h.entry, Segments(ps)))
  }

  // ------------------------------------------------------------------- method

  /** Part-way through: what the loop took stands for the first of `all`
      loadable headers, and `rest` decides the outcome. */
  ghost predicate Taken(all: seq<Program>, rest: seq<Program>, fileLen: nat, entry: u64, segments: seq<Segment>, enters: bool) {
    && |segments| <= MAX_SEGMENTS && |segments| + |rest| == |all| && rest == all[|segments|..]
    && Refusal(all, 0, fileLen) == Refusal(rest, |segments|, fileLen)
    && segments + Segments(rest) == Segments(all)
    && (enters <==> AnyEnters(all[..|segments|], entry))
  }

  lemma LoadsStep(elf: seq<byte>, h: Header, i: nat, p: Program)
    requires Fits(elf, h) && i < h.count && p == ProgramAt(elf, h.offset + PROGRAM_SIZE * i)
    ensures if p.kind == PT_LOAD then Loads(elf, h, i) != [] && Loads(elf, h, i)[0] == p && Loads(elf, h, i)[1..] == Loads(elf, h, i + 1)
            else Loads(elf, h, i) == Loads(elf, h, i + 1)
  {
  }

  lemma EntersMore(all: seq<Program>, n: nat, entry: u64)
    requires n < |all|
    ensures AnyEnters(all[..n + 1], entry) <==> AnyEnters(all[..n], entry) || Enters(all[n], entry)
  {
    if Enters(all[n], entry) { assert Enters(all[..n + 1][n], entry); }
    if AnyEnters(all[..n], entry) {
      var k :| 0 <= k < n && Enters(all[..n][k], entry);
      assert Enters(all[..n + 1][k], entry);
    }
  }

  lemma TakeStep(all: seq<Program>, rest: seq<Program>, fileLen: nat, entry: u64, segments: seq<Segment>, enters: bool)
    requires Taken(all, rest, fileLen, entry, segments, enters)
    requires rest != [] && |segments| < MAX_SEGMENTS && GoodLoad(rest[0], fileLen)
    ensures Taken(all, rest[1..], fileLen, entry, segments + [SegmentOf(rest[0])], enters || Enters(rest[0], entry))
  {
    EntersMore(all, |segments|, entry);
    assert segments + Segments(rest) == (segments + [SegmentOf(rest[0])]) + Segments(rest[1..]);
  }

  /** One loadable header: refused, or appended to the array. */
  method TakeLoad(segments: array<Segment>, count: nat, p: Program, fileLen: nat) returns (refused: Option<ElfFailure>)
    requires segments.Length == MAX_SEGMENTS && count <= MAX_SEGMENTS
    modifies segments
    ensures refused == if count == MAX_SEGMENTS then Some(TooManyLoadSegments)
                       else if !ValidLoad(p, fileLen) then Some(InvalidLoadSegment)
                       else if Writable(p.flags) && Executable(p.flags) then Some(WritableExecutableSegment)
                       else None
    ensures refused.None? ==> segments[..count + 1] == old(segments[..count]) + [SegmentOf(p)]
  {
    if count == MAX_SEGMENTS { return Some(TooManyLoadSegments); }
    if !ValidLoad(p, fileLen) { return Some(InvalidLoadSegment); }
    if Writable(p.flags) && Executable(p.flags) { return Some(WritableExecutableSegment); }
    segments[count] := SegmentOf(p);
    return None;
  }

  /** The loop over the program headers, on an eight-entry array. */
  method TakeLoads(elf: seq<byte>, h: Header, segments: array<Segment>) returns (refused: Option<ElfFailure>, count: nat, enters: bool)
    requires Fits(elf, h) && segments.Length == MAX_SEGMENTS
    modifies segments
    ensures refused == Refusal(Loads(elf, h, 0), 0, |elf|)
    ensures refused.None? ==> && count == |Loads(elf, h, 0)| <= MAX_SEGMENTS && segments[..count] == Segments(Loads(elf, h, 0))
                              && (enters <==> AnyEnters(Loads(elf, h, 0), h.entry))
  {
    count, enters := 0, false;
    ghost var all := Loads(elf, h, 0);
    for i := 0 to h.count
      invariant count <= MAX_SEGMENTS && Taken(all, Loads(elf, h, i), |elf|, h.entry, segments[..count], enters)
    {
      var p := ProgramAt(elf, h.offset + PROGRAM_SIZE * i);
      LoadsStep(elf, h, i, p);
      if p.kind == PT_LOAD {
        ghost var before, rest := segments[..count], Loads(elf, h, i);
        refused := TakeLoad(segments, count, p, |elf|);
        if refused.Some? { return; }
        TakeStep(all, rest, |elf|, h.entry, before, enters);
        enters := enters || Enters(p, h.entry);
        count := count + 1;
      }
    }
    assert all[..count] == all && segments[..count] + [] == segments[..count];
    refused := None;
  }

  /** The whole planner. */
  method PlanInitElf(elf: seq<byte>) returns (plan: Result<LoadPlan, ElfFailure>)
    ensures plan == ElfPlan(elf)
  {
    var header := ReadHeader(elf);
    if header.Failure? { return Failure(header.error); }
    var h := header.value;
    var segments := new Segment[MAX_SEGMENTS](_ => Segment(0, 0, 0, 0, 0));
    var refused, count, enters := TakeLoads(elf, h, segments);
    if refused.Some? { return Failure(refused.value); }
    if count == 0 { return Failure(InvalidLoadSegment); }
    if !enters { return Failure(EntryNotExecutable); }
    return Success(LoadPlan(h.entry, segments[..count]));
  }

  // ------------------------------------------------------------------- results

  lemma {:induction false} RefusesNone(ps: seq<Program>, n: nat, fileLen: nat)
    requires n <= MAX_SEGMENTS
    ensures Refusal(ps, n, fileLen).None? <==>
            n + |ps| <= MAX_SEGMENTS && forall k :: 0 <= k < |ps| ==> GoodLoad(ps[k], fileLen)
    decreases |ps|
  {
    if ps != [] {
      assert ps == [ps[0]] + ps[1..];
      if n < MAX_SEGMENTS && GoodLoad(ps[0], fileLen) { RefusesNone(ps[1..], n + 1, fileLen); }
    }
  }

  lemma {:induction false} SegmentsAt(ps: seq<Program>)
    ensures |Segments(ps)| == |ps| && forall k :: 0 <= k < |ps| ==> Segments(ps)[k] == SegmentOf(ps[k])
  {
    if ps != [] { SegmentsAt(ps[1..]); }
  }

  /** Acceptance, exactly: the header is right, there are one to eight loadable
      headers, every one of them is good, and an executable one holds the entry;
      the plan then lists them all, in file order. */
  lemma ElfAccepts(elf: seq<byte>, h: Header)
    requires ReadHeader(elf) == Success(h)
    ensures var ps := Loads(elf, h, 0);
            && (ElfPlan(elf).Success? <==>
                  && 1 <= |ps| <= MAX_SEGMENTS && (forall k :: 0 <= k < |ps| ==> GoodLoad(ps[k], |elf|))
                  && AnyEnters(ps, h.entry))
            && (ElfPlan(elf).Success? ==> ElfPlan(elf).value == LoadPlan(h.entry, Segments(ps)))
  {
    RefusesNone(Loads(elf, h, 0), 0, |elf|);
  }

  /** What a segment of an accepted plan may be. */
  predicate GoodSegment(s: Segment, fileLen: nat) {
    && s.memSize > 0 && s.fileSize <= s.memSize && s.vaddr + s.memSize < U64_LIMIT
    && s.fileOffset + s.fileSize <= fileLen
    && !(Writable(s.flags) && Executable(s.flags))
  }

  predicate EntersSegment(s: Segment, entry: u64) { Executable(s.flags) && s.vaddr <= entry < s.vaddr + s.memSize }

  /** One to eight good segments, one of them executable around the entry. */
  ghost predicate GoodPlan(plan: LoadPlan, fileLen: nat) {
    && 1 <= |plan.segments| <= MAX_SEGMENTS
    && (forall k :: 0 <= k < |plan.segments| ==> GoodSegment(plan.segments[k], fileLen))
    && exists k :: 0 <= k < |plan.segments| && EntersSegment(plan.segments[k], plan.entry)
  }

  /** Every plan the planner returns. */
  lemma PlanIsGood(elf: seq<byte>, plan: LoadPlan)
    requires ElfPlan(elf) == Success(plan)
    ensures GoodPlan(plan, |elf|)
  {
    var h := ReadHeader(elf).value;
    var ps := Loads(elf, h, 0);
    ElfAccepts(elf, h);
    SegmentsAt(ps);
    var k :| 0 <= k < |ps| && Enters(ps[k], h.entry);
    assert EntersSegment(plan.segments[k], plan.entry);
  }
}
