/** The stage-2B archive lookup: walk newc entries until `init`, the trailer, or
    a malformed entry. */
module CpioFind {
  import opened Machine
  import opened Bytes
  import opened Hex
  import opened Newc

  const MAX_ENTRIES: nat := 4096
  const MAX_NAME: nat := 256
  const INIT: seq<byte> := [105, 110, 105, 116]
  const SLASH_INIT: seq<byte> := [47, 105, 110, 105, 116]

  datatype LookupFailure =
    | NotFound | EntryLimit | HeaderTruncated | BadMagic | InvalidHex | InvalidNameSize
    | NameTruncated | NameNotTerminated | EntryTruncated | MissingTrailer

  datatype CpioFile = CpioFile(dataOffset: nat, size: nat)

  /** One parsed entry and where the next one starts. */
  datatype Parsed = Parsed(name: seq<byte>, dataOffset: nat, size: nat, next: nat)

  /** The eight-digit fields hold at most 32 bits, so the checked accumulation
      never overflows. */
  method ParseNewcHex(digits: seq<byte>) returns (value: Option<nat>)
    requires |digits| == 8
    ensures value == if IsHex(digits) then Some(HexValue(digits)) else None
    ensures value.Some? ==> value.value < 0x1_0000_0000
  {
    var v: nat := 0;
    for i := 0 to 8
      invariant IsHex(digits[..i]) && v == HexValue(digits[..i]) < Pow16(i)
    {
      var d := Nibble(digits[i]);
      if d.None? { return None; }
      HexStep(digits, i);
      v := v * 16 + d.value;
    }
    assert digits[..8] == digits && Pow16(8) == 0x1_0000_0000;
    return Some(v);
  }

  function Field(archive: seq<byte>, at: nat): Option<nat>
    requires at + 8 <= |archive|
  {
    if IsHex(archive[at..at + 8]) then Some(HexValue(archive[at..at + 8])) else None
  }

  function ParseEntry(archive: seq<byte>, offset: nat): Result<Parsed, LookupFailure> {
    if offset + HEADER_LEN > |archive| then Failure(HeaderTruncated)
    else if archive[offset..offset + 6] != NEWC_MAGIC then Failure(BadMagic)
    else if Field(archive, offset + 54).None? then Failure(InvalidHex)
    else if Field(archive, offset + 94).None? then Failure(InvalidHex)
    else
      var fileSize, nameSize := Field(archive, offset + 54).value, Field(archive, offset + 94).value;
      var nameStart := offset + HEADER_LEN;
      var nameEnd := nameStart + nameSize;
      if nameSize == 0 || nameSize > MAX_NAME then Failure(InvalidNameSize)
      else if nameEnd > |archive| then Failure(NameTruncated)
      else if archive[nameEnd - 1] != 0 then Failure(NameNotTerminated)
      else
        var dataOffset := AlignUp4(nameEnd);
        if dataOffset + fileSize > |archive| then Failure(EntryTruncated)
        else Success(Parsed(archive[nameStart..nameEnd - 1], dataOffset, fileSize, AlignUp4(dataOffset + fileSize)))
  }

  predicate IsInit(name: seq<byte>) { name == INIT || name == SLASH_INIT }

  /** The lookup from `offset` with room for `budget` more entries. */
  function Find(archive: seq<byte>, offset: nat, budget: nat): Result<CpioFile, LookupFailure>
    decreases |archive|, budget
  {
    if budget == 0 then Failure(EntryLimit)
    else
      var entry :- ParseEntry(archive, offset);
      if IsInit(entry.name) then Success(CpioFile(entry.dataOffset, entry.size))
      else if entry.name == TRAILER_NAME then Failure(NotFound)
      else if entry.next == |archive| then Failure(MissingTrailer)
      else Find(archive, entry.next, budget - 1)
  }

  lemma FindStep(archive: seq<byte>, offset: nat, budget: nat, p: Parsed)
    requires budget > 0 && ParseEntry(archive, offset) == Success(p)
    ensures Find(archive, offset, budget) ==
            if IsInit(p.name) then Success(CpioFile(p.dataOffset, p.size))
            else if p.name == TRAILER_NAME then Failure(NotFound)
            else if p.next == |archive| then Failure(MissingTrailer)
            else Find(archive, p.next, budget - 1)
  {
  }

  method ReadEntry(archive: seq<byte>, offset: nat) returns (entry: Result<Parsed, LookupFailure>)
    ensures entry == ParseEntry(archive, offset)
    ensures entry.Success? ==> entry.value.dataOffset + entry.value.size <= |archive|
  {
    if offset + HEADER_LEN > |archive| { return Failure(HeaderTruncated); }
    if archive[offset..offset + 6] != NEWC_MAGIC { return Failure(BadMagic); }
    var fileSize := ParseNewcHex(archive[offset + 54..offset + 62]);
    if fileSize.None? { return Failure(InvalidHex); }
    var nameSize := ParseNewcHex(archive[offset + 94..offset + 102]);
    if nameSize.None? { return Failure(InvalidHex); }
    if nameSize.value == 0 || nameSize.value > MAX_NAME { return Failure(InvalidNameSize); }
    var nameStart := offset + HEADER_LEN;
    var nameEnd := nameStart + nameSize.value;
    if nameEnd > |archive| { return Failure(NameTruncated); }
    if archive[nameEnd - 1] != 0 { return Failure(NameNotTerminated); }
    var dataOffset := AlignUp4(nameEnd);
    var dataEnd := dataOffset + fileSize.value;
    if dataEnd > |archive| { return Failure(EntryTruncated); }
    return Success(Parsed(archive[nameStart..nameEnd - 1], dataOffset, fileSize.value, AlignUp4(dataEnd)));
  }

  /** The bounded loop; a file it returns lies inside the archive. */
  method FindInit(archive: seq<byte>) returns (file: Result<CpioFile, LookupFailure>)
    ensures file == Find(archive, 0, MAX_ENTRIES)
    ensures file.Success? ==> file.value.dataOffset + file.value.size <= |archive|
  {
    var offset: nat := 0;
    for i := 0 to MAX_ENTRIES
      invariant Find(archive, 0, MAX_ENTRIES) == Find(archive, offset, MAX_ENTRIES - i)
    {
      var entry := ReadEntry(archive, offset);
      if entry.Failure? { return Failure(entry.error); }
      FindStep(archive, offset, MAX_ENTRIES - i, entry.value);
      if IsInit(entry.value.name) { return Success(CpioFile(entry.value.dataOffset, entry.value.size)); }
      if entry.value.name == TRAILER_NAME { return Failure(NotFound); }
      offset := entry.value.next;
      if offset == |archive| { return Failure(MissingTrailer); }
    }
    return Failure(EntryLimit);
  }
}
