/** ELF headers as bytes: what a file built from a header and program headers
    reads back as. */
module ElfImage {
  import opened Machine
  import opened Bytes
  import opened InitElf

  // ------------------------------------------------------------ little endian

  function Two(v: nat): (b: seq<byte>)
    requires v < 0x1_0000
    ensures |b| == 2
  {
    [v % 256, v / 256]
  }

  function Four(v: nat): (b: seq<byte>)
    requires v < 0x1_0000_0000
    ensures |b| == 4
  {
    Two(v % 0x1_0000) + Two(v / 0x1_0000)
  }

  function Eight(v: u64): (b: seq<byte>)
    ensures |b| == 8
  {
    Four(v % 0x1_0000_0000) + Four(v / 0x1_0000_0000)
  }

  // ------------------------------------------------------------ program headers

  predicate Encodable(p: Program) { p.kind < 0x1_0000_0000 && p.flags < 0x1_0000_0000 }

  /** Type, flags, offset, virtual and physical address, file size, memory size,
      alignment. */
  function ProgramBytes(p: Program, paddr: u64): (b: seq<byte>)
    requires Encodable(p)
    ensures |b| == PROGRAM_SIZE
  {
    Four(p.kind) + (Four(p.flags) + (Eight(p.fileOffset) + (Eight(p.vaddr) + (Eight(paddr)
    + (Eight(p.fileSize) + (Eight(p.memSize) + Eight(p.alignment)))))))
  }

  lemma ProgramReads(s: seq<byte>, c: nat, p: Program, paddr: u64)
    requires Encodable(p) && At(s, c, ProgramBytes(p, paddr))
    ensures c + PROGRAM_SIZE <= |s| && ProgramAt(s, c) == p
  {
  }

  /** A table of program headers, in order, each written by `enc`. */
  function Table(enc: Program -> seq<byte>, ps: seq<Program>): seq<byte> {
    if ps == [] then [] else enc(ps[0]) + Table(enc, ps[1..])
  }

  function Encode(p: Program): seq<byte> { if Encodable(p) then ProgramBytes(p, 0) else Zeros(PROGRAM_SIZE) }

  /** Wherever the bytes of `p` stand in `s`, the planner reads `p`. */
  ghost predicate ReadsBack(enc: Program -> seq<byte>, s: seq<byte>, p: Program) {
    |enc(p)| == PROGRAM_SIZE && forall c: nat :: At(s, c, enc(p)) ==> c + PROGRAM_SIZE <= |s| && ProgramAt(s, c) == p
  }

  lemma EncodeReadsBack(s: seq<byte>, p: Program)
    requires Encodable(p)
    ensures ReadsBack(Encode, s, p)
  {
    forall c: nat | At(s, c, Encode(p)) ensures c + PROGRAM_SIZE <= |s| && ProgramAt(s, c) == p { ProgramReads(s, c, p, 0); }
  }

  function Loadable(ps: seq<Program>): seq<Program> {
    if ps == [] then [] else (if ps[0].kind == PT_LOAD then [ps[0]] else []) + Loadable(ps[1..])
  }

  lemma TableHead(enc: Program -> seq<byte>, s: seq<byte>, c: nat, ps: seq<Program>, next: nat)
    requires ps != [] && ReadsBack(enc, s, ps[0]) && At(s, c, Table(enc, ps)) && next == c + PROGRAM_SIZE
    ensures next <= |s| && ProgramAt(s, c) == ps[0] && At(s, next, Table(enc, ps[1..]))
  {
    AtSplit(s, c, enc(ps[0]), Table(enc, ps[1..]));
  }

  lemma LoadsAt(s: seq<byte>, h: Header, i: nat, at: nat, p: Program)
    requires Fits(s, h) && i < h.count && at == h.offset + PROGRAM_SIZE * i && ProgramAt(s, at) == p
    ensures Loads(s, h, i) == if p.kind == PT_LOAD then [p] + Loads(s, h, i + 1) else Loads(s, h, i + 1)
  {
  }

  lemma LoadsHead(enc: Program -> seq<byte>, s: seq<byte>, h: Header, ps: seq<Program>, i: nat, at: nat, next: nat)
    requires Fits(s, h) && ps != [] && i + |ps| == h.count && ReadsBack(enc, s, ps[0])
    requires at == h.offset + PROGRAM_SIZE * i && At(s, at, Table(enc, ps)) && next == at + PROGRAM_SIZE
    ensures Loads(s, h, i) == if ps[0].kind == PT_LOAD then [ps[0]] + Loads(s, h, i + 1) else Loads(s, h, i + 1)
    ensures At(s, next, Table(enc, ps[1..]))
  {
    TableHead(enc, s, at, ps, next);
    LoadsAt(s, h, i, at, ps[0]);
  }

  ghost predicate AllReadBack(enc: Program -> seq<byte>, s: seq<byte>, ps: seq<Program>) {
    ps != [] ==> ReadsBack(enc, s, ps[0]) && AllReadBack(enc, s, ps[1..])
  }

  lemma {:induction false} EncodeReadBack(s: seq<byte>, ps: seq<Program>)
    requires forall k :: 0 <= k < |ps| ==> Encodable(ps[k])
    ensures AllReadBack(Encode, s, ps)
  {
    if ps != [] {
      EncodeReadsBack(s, ps[0]);
      EncodeReadBack(s, ps[1..]);
    }
  }

  /** The planner's loadable headers are the table's, whatever else the file
      holds. */
  lemma {:induction false} TableLoads(enc: Program -> seq<byte>, s: seq<byte>, h: Header, ps: seq<Program>, i: nat, at: nat)
    requires Fits(s, h) && i + |ps| == h.count && AllReadBack(enc, s, ps)
    requires at == h.offset + PROGRAM_SIZE * i && At(s, at, Table(enc, ps))
    ensures Loads(s, h, i) == Loadable(ps)
    decreases |ps|
  {
    if ps != [] {
      var next := at + PROGRAM_SIZE;
      LoadsHead(enc, s, h, ps, i, at, next);
      TableLoads(enc, s, h, ps[1..], i + 1, next);
      LoadableHead(ps);
    }
  }

  lemma LoadableHead(ps: seq<Program>)
    requires ps != []
    ensures Loadable(ps) == if ps[0].kind == PT_LOAD then [ps[0]] + Loadable(ps[1..]) else Loadable(ps[1..])
  {
  }

  // ------------------------------------------------------------ the ELF header

  /** Identification, type, machine, version, entry, program-header offset; then
      section offset, flags and header size, which the planner ignores; then the
      program-header size and count; then section fields. */
  function HeaderBytes(h: Header, shoff: u64, flags: nat): (b: seq<byte>)
    requires h.count < 0x1_0000 && flags < 0x1_0000_0000
    ensures |b| == HEADER_SIZE
  {
    Ident() + (Two(2) + (Two(183) + (Four(1) + (Eight(h.entry) + (Eight(h.offset) + Rest(h, shoff, flags))))))
  }

  function Ident(): (b: seq<byte>)
    ensures |b| == 16
  {
    ELF_IDENT + ([2, 1, 1] + Zeros(9))
  }

  function Rest(h: Header, shoff: u64, flags: nat): (b: seq<byte>)
    requires h.count < 0x1_0000 && flags < 0x1_0000_0000
    ensures |b| == 24
  {
    Eight(shoff) + (Four(flags) + (Two(64) + (Two(PROGRAM_SIZE) + (Two(h.count) + Zeros(6)))))
  }

  /** A file that starts with a written header reads as that header exactly when
      it has an entry, a program header, and room for the table. */
  lemma HeaderRoundTrip(s: seq<byte>, h: Header, shoff: u64, flags: nat)
    requires h.count < 0x1_0000 && flags < 0x1_0000_0000 && At(s, 0, HeaderBytes(h, shoff, flags))
    ensures ReadHeader(s) == if h.entry == 0 then Failure(InvalidEntry)
                             else if h.count == 0 then Failure(InvalidProgramHeaderSize)
                             else if !Fits(s, h) then Failure(ProgramHeadersOutOfBounds)
                             else Success(h)
  {
  }

  predicate Carries(s: Segment, p: Program) {
    && s.vaddr == p.vaddr && s.memSize == p.memSize && s.fileSize == p.fileSize
    && s.fileOffset == p.fileOffset && s.flags == p.flags
  }

  /** The plan of any file built from a header and a table: accepted exactly when
      the table has one to eight loadable headers, all good, one executable around
      the entry, and then it lists them in table order, field by field. */
  lemma ImagePlan(s: seq<byte>, h: Header, shoff: u64, flags: nat, ps: seq<Program>)
    requires 0 < |ps| < 0x1_0000 && flags < 0x1_0000_0000 && h.count == |ps| && h.entry != 0 && Fits(s, h)
    requires forall k :: 0 <= k < |ps| ==> Encodable(ps[k])
    requires At(s, 0, HeaderBytes(h, shoff, flags)) && At(s, h.offset, Table(Encode, ps))
    ensures var ls := Loadable(ps);
            && (ElfPlan(s).Success? <==>
                  && 1 <= |ls| <= MAX_SEGMENTS && (forall k :: 0 <= k < |ls| ==> GoodLoad(ls[k], |s|))
                  && AnyEnters(ls, h.entry))
            && (ElfPlan(s).Success? ==>
                  && ElfPlan(s).value.entry == h.entry && |ElfPlan(s).value.segments| == |ls|
                  && forall k :: 0 <= k < |ls| ==> Carries(ElfPlan(s).value.segments[k], ls[k]))
  {
    SegmentsAt(Loadable(ps));
    HeaderRoundTrip(s, h, shoff, flags);
    EncodeReadBack(s, ps);
    TableLoads(Encode, s, h, ps, 0, h.offset);
    ElfAccepts(s, h);
  }
}
