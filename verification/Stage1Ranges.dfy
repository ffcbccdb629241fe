/** Fixed-capacity lists of half-open address ranges: in-place subtraction and
    aligned first-fit allocation. */
module Stage1Ranges {
  import opened Machine

  datatype Range = Range(start: u64, end: u64) {
    predicate IsEmpty() { start >= end }

    predicate Overlaps(other: Range) { start < other.end && other.start < end }

    /** The interval `[a, b)` lies inside this range. */
    predicate Holds(a: int, b: int) { start <= a && b <= end }

    /** The interval `[a, b)` shares no address with this range. */
    predicate Misses(a: int, b: int) { b <= start || end <= a }
  }

  /** How many listed ranges hold the whole interval `[a, b)`. With
      `b == a + 1` this is the multiplicity of address `a`. */
  ghost function Holders(s: seq<Range>, a: int, b: int): nat {
    if s == [] then 0
    else Holders(s[..|s| - 1], a, b) + (if s[|s| - 1].Holds(a, b) then 1 else 0)
  }

  /** How many listed ranges hold address `a`. */
  ghost function Multiplicity(s: seq<Range>, a: int): nat {
    Holders(s, a, a + 1)
  }

  /** No address is listed twice. */
  ghost predicate Disjoint(s: seq<Range>) {
    forall a: int :: Multiplicity(s, a) <= 1
  }

  ghost predicate AllMiss(s: seq<Range>, a: int, b: int) {
    forall r :: r in s ==> r.Misses(a, b)
  }

  predicate NoneEmpty(s: seq<Range>) {
    forall r :: r in s ==> !r.IsEmpty()
  }

  lemma {:induction false} HoldersConcat(s: seq<Range>, t: seq<Range>, a: int, b: int)
    ensures Holders(s + t, a, b) == Holders(s, a, b) + Holders(t, a, b)
  {
    if t == [] {
      assert s + t == s;
    } else {
      var t' := t[..|t| - 1];
      assert (s + t)[..|s + t| - 1] == s + t';
      HoldersConcat(s, t', a, b);
    }
  }

  lemma {:induction false} HoldersPositive(s: seq<Range>, a: int, b: int)
    ensures Holders(s, a, b) > 0 <==> exists r :: r in s && r.Holds(a, b)
  {
    if s != [] {
      var s' := s[..|s| - 1];
      HoldersPositive(s', a, b);
      assert s == s' + [s[|s| - 1]];
    }
  }

  lemma {:induction false} TwoHolders(s: seq<Range>, i: nat, j: nat, a: int, b: int)
    requires i < j < |s| && s[i].Holds(a, b) && s[j].Holds(a, b)
    ensures Holders(s, a, b) >= 2
  {
    var front, back := s[..j], s[j..];
    assert s == front + back;
    HoldersConcat(front, back, a, b);
    HoldersPositive(front, a, b);
    HoldersPositive(back, a, b);
    assert s[i] in front && s[j] in back by { assert front[i] == s[i] && back[0] == s[j]; }
  }

  /** Two distinct entries of a disjoint list share no address. */
  lemma DisjointPair(s: seq<Range>, i: nat, j: nat)
    requires Disjoint(s) && i < j < |s|
    ensures !s[i].Overlaps(s[j]) || s[i].IsEmpty() || s[j].IsEmpty()
  {
    if s[i].Overlaps(s[j]) && !s[i].IsEmpty() && !s[j].IsEmpty() {
      var x := Max(s[i].start, s[j].start);
      assert Multiplicity(s, x) <= 1;
      TwoHolders(s, i, j, x, x + 1);
      assert false;
    }
  }

  // ---------------------------------------------------------------- subtract

  function Left(current: Range, reserved: Range): Range {
    Range(current.start, Min(current.end, reserved.start))
  }

  function Right(current: Range, reserved: Range): Range {
    Range(Max(current.start, reserved.end), current.end)
  }

  predicate Splits(current: Range, reserved: Range) {
    current.Overlaps(reserved)
    && !Left(current, reserved).IsEmpty() && !Right(current, reserved).IsEmpty()
  }

  /** What stays in the entry's own slot. */
  function Kept(current: Range, reserved: Range): seq<Range> {
    if !current.Overlaps(reserved) then [current]
    else if !Left(current, reserved).IsEmpty() then [Left(current, reserved)]
    else if !Right(current, reserved).IsEmpty() then [Right(current, reserved)]
    else []
  }

  /** What is appended at the end of the list. */
  function Spilled(current: Range, reserved: Range): seq<Range> {
    if Splits(current, reserved) then [Right(current, reserved)] else []
  }

  function KeptAll(s: seq<Range>, reserved: Range): (k: seq<Range>)
    ensures |k| <= |s|
  {
    if s == [] then []
    else KeptAll(s[..|s| - 1], reserved) + Kept(s[|s| - 1], reserved)
  }

  function SpilledAll(s: seq<Range>, reserved: Range): (k: seq<Range>)
    ensures |k| <= |s|
    ensures forall r :: r in k ==> !r.Overlaps(reserved)
  {
    if s == [] then []
    else SpilledAll(s[..|s| - 1], reserved) + Spilled(s[|s| - 1], reserved)
  }

  /** The list the subtraction leaves: surviving heads in order, then the right
      halves of the entries that were split, in order. */
  function Subtracted(s: seq<Range>, reserved: Range): seq<Range> {
    KeptAll(s, reserved) + SpilledAll(s, reserved)
  }

  /** The number of occupied slots when entry `i` is reached. */
  function Occupied(s: seq<Range>, reserved: Range, i: nat): nat
    requires i <= |s|
  {
    |KeptAll(s[..i], reserved)| + (|s| - i) + |SpilledAll(s[..i], reserved)|
  }

  /** Every split finds a free slot. */
  ghost predicate Fits(s: seq<Range>, reserved: Range, capacity: nat) {
    FitsUpTo(s, reserved, |s|, capacity)
  }

  ghost predicate FitsUpTo(s: seq<Range>, reserved: Range, n: nat, capacity: nat)
    requires n <= |s|
  {
    n == 0 || (&& FitsUpTo(s, reserved, n - 1, capacity)
               && (Splits(s[n - 1], reserved) ==> Occupied(s, reserved, n - 1) < capacity))
  }

  lemma {:induction false} FitsPrefix(s: seq<Range>, reserved: Range, m: nat, n: nat, capacity: nat)
    requires m <= n <= |s| && FitsUpTo(s, reserved, n, capacity)
    ensures FitsUpTo(s, reserved, m, capacity)
    decreases n
  {
    if m < n { FitsPrefix(s, reserved, m, n - 1, capacity); }
  }

  /** The list when the first `i` entries have been processed. */
  ghost function Midway(s: seq<Range>, reserved: Range, i: nat): seq<Range>
    requires i <= |s|
  {
    KeptAll(s[..i], reserved) + s[i..] + SpilledAll(s[..i], reserved)
  }

  /** One entry processed: its slot takes what is kept of it and the spilled
      half goes to the end. */
  lemma MidwayStep(s: seq<Range>, reserved: Range, i: nat)
    requires i < |s|
    ensures var k := |KeptAll(s[..i], reserved)|; var m := Midway(s, reserved, i);
            && k < |m| && m[k] == s[i] && |m| == Occupied(s, reserved, i)
            && |KeptAll(s[..i + 1], reserved)| == k + |Kept(s[i], reserved)|
            && Midway(s, reserved, i + 1) == m[..k] + Kept(s[i], reserved) + m[k + 1..] + Spilled(s[i], reserved)
  {
    var kept, spilled := KeptAll(s[..i], reserved), SpilledAll(s[..i], reserved);
    assert s[..i + 1][..i] == s[..i] && s[..i + 1][i] == s[i];
    assert s[i..] == [s[i]] + s[i + 1..];
    Around(kept, s[i], s[i + 1..], spilled, Midway(s, reserved, i));
    Refilled(kept, s[i + 1..], spilled, Kept(s[i], reserved), Spilled(s[i], reserved));
  }

  lemma Around(a: seq<Range>, x: Range, b: seq<Range>, c: seq<Range>, m: seq<Range>)
    requires m == a + ([x] + b) + c
    ensures |a| < |m| && m[|a|] == x && m[..|a|] == a && m[|a| + 1..] == b + c
  {
  }

  lemma Refilled(a: seq<Range>, b: seq<Range>, c: seq<Range>, kept: seq<Range>, spilled: seq<Range>)
    ensures (a + kept) + b + (c + spilled) == a + kept + (b + c) + spilled
  {
  }

  ghost function Replaced(s: seq<Range>, index: nat, reserved: Range): seq<Range>
    requires index < |s|
  {
    s[..index] + Kept(s[index], reserved) + s[index + 1..] + Spilled(s[index], reserved)
  }

  /** The loop stands at `index` with the first `i` original entries done; once
      all are done only spilled halves, which miss the reservation, remain. */
  ghost predicate AtEntry(s: seq<Range>, reserved: Range, i: nat, index: nat, now: seq<Range>) {
    && i <= |s| && index <= |now| && now == Midway(s, reserved, i)
    && (if i < |s| then index == |KeptAll(s[..i], reserved)| else |KeptAll(s[..i], reserved)| <= index)
  }

  lemma EntryStep(s: seq<Range>, reserved: Range, i: nat, index: nat, now: seq<Range>)
    requires AtEntry(s, reserved, i, index, now) && index < |now|
    ensures i < |s| ==> now[index] == s[i] && |now| == Occupied(s, reserved, i)
    ensures i == |s| ==> !now[index].Overlaps(reserved)
    ensures AtEntry(s, reserved, if i < |s| then i + 1 else i, index + |Kept(now[index], reserved)|,
                    Replaced(now, index, reserved))
  {
    if i < |s| { MidwayStep(s, reserved, i); } else { SpilledStep(s, reserved, index, now); }
  }

  lemma SpilledStep(s: seq<Range>, reserved: Range, index: nat, now: seq<Range>)
    requires AtEntry(s, reserved, |s|, index, now) && index < |now|
    ensures !now[index].Overlaps(reserved) && Replaced(now, index, reserved) == now
  {
    var kept, spilled := KeptAll(s[..|s|], reserved), SpilledAll(s[..|s|], reserved);
    assert now == kept + spilled;
    assert now[index] == spilled[index - |kept|];
    assert now == now[..index] + [now[index]] + now[index + 1..];
  }

  /** The room test of round `i`, read off the current length. */
  lemma RoomStep(s: seq<Range>, reserved: Range, i: nat, index: nat, now: seq<Range>, capacity: nat)
    requires AtEntry(s, reserved, i, index, now) && index < |now| <= capacity
    requires FitsUpTo(s, reserved, i, capacity)
    ensures Splits(now[index], reserved) && |now| == capacity ==> !Fits(s, reserved, capacity)
    ensures !(Splits(now[index], reserved) && |now| == capacity)
            ==> FitsUpTo(s, reserved, if i < |s| then i + 1 else i, capacity)
  {
    EntryStep(s, reserved, i, index, now);
    if i < |s| && Fits(s, reserved, capacity) { FitsPrefix(s, reserved, i + 1, |s|, capacity); }
  }

  lemma MidwayDone(s: seq<Range>, reserved: Range, i: nat, index: nat)
    requires i <= |s| && AtEntry(s, reserved, i, index, Midway(s, reserved, i))
    requires index == |Midway(s, reserved, i)|
    ensures i == |s| && Midway(s, reserved, i) == Subtracted(s, reserved)
  {
    if i == |s| { assert s[..i] == s; }
  }

  /** One round of the loop on the entry at `index`: drop it, replace it, or
      cut it in two with the right half appended. */
  method SubtractEntry(ranges: array<Range>, count: nat, index: nat, reserved: Range, ghost before: seq<Range>)
    returns (ok: bool, newCount: nat, next: nat)
    requires index < count <= ranges.Length && ranges[..count] == before
    modifies ranges
    ensures newCount <= ranges.Length
    ensures !ok <==> Splits(before[index], reserved) && count == ranges.Length
    ensures ok ==> ranges[..newCount] == Replaced(before, index, reserved)
    ensures ok ==> next == index + |Kept(before[index], reserved)|
  {
    var current := ranges[index];
    assert current == before[index];
    ok, newCount, next := true, count, index + 1;
    if current.Overlaps(reserved) {
      var left, right := Left(current, reserved), Right(current, reserved);
      if left.IsEmpty() {
        ranges[index] := right;
        if right.IsEmpty() {
          forall k | index <= k < count - 1 { ranges[k] := ranges[k + 1]; }
          newCount, next := count - 1, index;
        }
      } else {
        ranges[index] := left;
        if !right.IsEmpty() {
          if count == ranges.Length { return false, count, next; }
          ranges[count] := right;
          newCount := count + 1;
        }
      }
    }
    assert ranges[..newCount] == before[..index] + Kept(current, reserved) + before[index + 1..] + Spilled(current, reserved);
  }

  /** The in-place loop: fragments appended while it runs are themselves
      visited, yet it ends with exactly `Subtracted`, and it fails exactly when
      a split finds the array full. */
  method Subtract(ranges: array<Range>, count: nat, reserved: Range) returns (ok: bool, newCount: nat)
    requires count <= ranges.Length
    modifies ranges
    ensures newCount <= ranges.Length
    ensures ok <==> Fits(old(ranges[..count]), reserved, ranges.Length)
    ensures ok ==> ranges[..newCount] == Subtracted(old(ranges[..count]), reserved)
  {
    ghost var s := ranges[..count];
    ghost var i: nat := 0;
    var index: nat := 0;
    newCount := count;
    while index < newCount
      invariant newCount <= ranges.Length
      invariant AtEntry(s, reserved, i, index, ranges[..newCount])
      invariant FitsUpTo(s, reserved, i, ranges.Length)
      decreases |s| - i, newCount - index
    {
      ghost var before := ranges[..newCount];
      EntryStep(s, reserved, i, index, before);
      RoomStep(s, reserved, i, index, before, ranges.Length);
      ok, newCount, index := SubtractEntry(ranges, newCount, index, reserved, before);
      if !ok { return; }
      if i < |s| { i := i + 1; }
    }
    ok := true;
    MidwayDone(s, reserved, i, index);
  }

  // ------------------------------------------------- what subtraction keeps

  lemma PieceHolders(c: Range, reserved: Range, a: int, b: int)
    requires a < b && !reserved.IsEmpty()
    ensures Holders(Kept(c, reserved), a, b) + Holders(Spilled(c, reserved), a, b)
            == if c.Holds(a, b) && reserved.Misses(a, b) then 1 else 0
  {
    HoldersOne(c, a, b);
    HoldersOne(Left(c, reserved), a, b);
    HoldersOne(Right(c, reserved), a, b);
  }

  lemma HoldersOne(c: Range, a: int, b: int)
    ensures Holders([c], a, b) == if c.Holds(a, b) then 1 else 0
  {
    assert [c][..0] == [];
  }

  /** Conservation: an interval that misses the reservation keeps all its
      holders, one that meets it loses them all. */
  lemma {:induction false} SubtractedHolders(s: seq<Range>, reserved: Range, a: int, b: int)
    requires a < b && !reserved.IsEmpty()
    ensures Holders(Subtracted(s, reserved), a, b) == if reserved.Misses(a, b) then Holders(s, a, b) else 0
  {
    HoldersConcat(KeptAll(s, reserved), SpilledAll(s, reserved), a, b);
    if s != [] {
      var front, last := s[..|s| - 1], s[|s| - 1];
      SubtractedHolders(front, reserved, a, b);
      HoldersConcat(KeptAll(front, reserved), SpilledAll(front, reserved), a, b);
      HoldersConcat(KeptAll(front, reserved), Kept(last, reserved), a, b);
      HoldersConcat(SpilledAll(front, reserved), Spilled(last, reserved), a, b);
      PieceHolders(last, reserved, a, b);
    }
  }

  lemma SubtractedDisjoint(s: seq<Range>, reserved: Range)
    requires Disjoint(s) && !reserved.IsEmpty()
    ensures Disjoint(Subtracted(s, reserved))
  {
    forall a: int ensures Multiplicity(Subtracted(s, reserved), a) <= 1 {
      SubtractedHolders(s, reserved, a, a + 1);
      assert Multiplicity(s, a) <= 1;
    }
  }

  /** Every entry lies inside an entry of `ram`. */
  ghost predicate Within(s: seq<Range>, ram: seq<Range>) {
    forall r :: r in s ==> exists m :: m in ram && m.Holds(r.start, r.end)
  }

  /** Every fragment comes from an entry that contains it. */
  lemma {:induction false} FragmentOf(s: seq<Range>, reserved: Range, r: Range) returns (c: Range)
    requires r in Subtracted(s, reserved)
    ensures c in s && c.Holds(r.start, r.end) && (!c.IsEmpty() ==> !r.IsEmpty())
  {
    var front, last := s[..|s| - 1], s[|s| - 1];
    assert s == front + [last];
    if r in Kept(last, reserved) || r in Spilled(last, reserved) {
      c := last;
    } else {
      c := FragmentOf(front, reserved, r);
    }
  }

  lemma SubtractedWithin(s: seq<Range>, reserved: Range, ram: seq<Range>)
    requires Within(s, ram) && NoneEmpty(s)
    ensures Within(Subtracted(s, reserved), ram) && NoneEmpty(Subtracted(s, reserved))
  {
    forall r | r in Subtracted(s, reserved)
      ensures !r.IsEmpty() && exists m :: m in ram && m.Holds(r.start, r.end)
    {
      var c := FragmentOf(s, reserved, r);
      var m :| m in ram && m.Holds(c.start, c.end);
      assert m.Holds(r.start, r.end);
    }
  }

  /** Each split entry holds the reservation's first address. */
  lemma {:induction false} SpilledBound(s: seq<Range>, reserved: Range)
    requires !reserved.IsEmpty()
    ensures |SpilledAll(s, reserved)| <= Multiplicity(s, reserved.start)
  {
    if s != [] { SpilledBound(s[..|s| - 1], reserved); }
  }

  /** A disjoint list grows by at most one entry, and only needs one free slot. */
  lemma SubtractedGrowth(s: seq<Range>, reserved: Range, capacity: nat)
    requires Disjoint(s) && !reserved.IsEmpty()
    ensures |Subtracted(s, reserved)| <= |s| + 1
    ensures |s| < capacity ==> Fits(s, reserved, capacity)
  {
    SpilledBound(s, reserved);
    assert Multiplicity(s, reserved.start) <= 1;
    if |s| < capacity { RoomWhileDisjoint(s, reserved, |s|, capacity); }
  }

  /** In a disjoint list no entry before the one that holds `a` holds it too. */
  lemma OthersMiss(s: seq<Range>, i: nat, a: int)
    requires Disjoint(s) && i < |s| && s[i].Holds(a, a + 1)
    ensures Multiplicity(s[..i], a) == 0
  {
    assert s == s[..i] + s[i..];
    HoldersConcat(s[..i], s[i..], a, a + 1);
    HoldersPositive(s[i..], a, a + 1);
    assert s[i..][0] == s[i] && s[i] in s[i..];
    assert Multiplicity(s, a) <= 1;
  }

  lemma {:induction false} RoomWhileDisjoint(s: seq<Range>, reserved: Range, n: nat, capacity: nat)
    requires Disjoint(s) && !reserved.IsEmpty() && n <= |s| < capacity
    ensures FitsUpTo(s, reserved, n, capacity)
  {
    if n > 0 {
      RoomWhileDisjoint(s, reserved, n - 1, capacity);
      var i := n - 1;
      if Splits(s[i], reserved) {
        SpilledBound(s[..i], reserved);
        OthersMiss(s, i, reserved.start);
      }
    }
  }

  // -------------------------------------------------------------- allocation

  const BLOCK_ALIGNMENT: u64 := 0x10000

  /** The aligned block at the front of one range: `None` on overflow. */
  function Candidate(r: Range, size: u64, alignment: u64): Option<Range>
    requires alignment > 0
  {
    var start :- AlignUp(r.start, alignment);
    var end :- CheckedAdd(start, size);
    Some(Range(start, end))
  }

  /** First fit: the first range that can take the block, unless an earlier
      range overflows, which ends the search. */
  function FirstFit(s: seq<Range>, size: u64, alignment: u64): Option<Range>
    requires alignment > 0
  {
    if s == [] then None
    else
      var c :- Candidate(s[0], size, alignment);
      if c.end > s[0].end then FirstFit(s[1..], size, alignment) else Some(c)
  }

  method Allocate(ranges: array<Range>, count: nat, size: u64, alignment: u64)
    returns (block: Option<Range>, newCount: nat)
    requires count <= ranges.Length && alignment > 0
    modifies ranges
    ensures newCount <= ranges.Length
    ensures var s := old(ranges[..count]); var fit := FirstFit(s, size, alignment);
            && block == (if fit.Some? && Fits(s, fit.value, ranges.Length) then fit else None)
            && (block.Some? ==> ranges[..newCount] == Subtracted(s, block.value))
  {
    ghost var s := ranges[..count];
    newCount := count;
    for index := 0 to count
      invariant ranges[..count] == s
      invariant FirstFit(s, size, alignment) == FirstFit(s[index..], size, alignment)
    {
      assert ranges[index] == s[index] && s[index..][1..] == s[index + 1..];
      var candidate := Candidate(ranges[index], size, alignment);
      if candidate.None? { return None, count; }
      if candidate.value.end > ranges[index].end { continue; }
      var ok;
      ok, newCount := Subtract(ranges, count, candidate.value);
      return if ok then candidate else None, newCount;
    }
    return None, count;
  }

  /** A block found is aligned, of the exact size, and inside a listed range. */
  lemma {:induction false} FirstFitSound(s: seq<Range>, size: u64)
    requires FirstFit(s, size, BLOCK_ALIGNMENT).Some?
    ensures var c := FirstFit(s, size, BLOCK_ALIGNMENT).value;
            && c.start % BLOCK_ALIGNMENT == 0 && c.end == c.start + size
            && exists r :: r in s && r.Holds(c.start, c.end)
  {
    if Candidate(s[0], size, BLOCK_ALIGNMENT).value.end > s[0].end {
      FirstFitSound(s[1..], size);
    } else {
      assert s[0].Holds(s[0].start, s[0].end) && s[0] in s;
    }
  }
}
