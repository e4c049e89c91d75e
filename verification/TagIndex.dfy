/** The reverse index from a mark to the addresses that hold it: one list of records per mark, updated
    by every memory write. */
module TagIndex {
  import opened MachineIntegers

  datatype Rec = Rec(addr: nat, cleared: bool)

  // The records of a list, without its sentinel tail.
  type Records = seq<Rec>

  /** A 64-bit unsigned value converted to a 32-bit signed one. */
  function ToInt(x: int): int {
    var r := x % TWO_TO_32;
    if r > INT_MAX then r - TWO_TO_32 else r
  }

  /** The conversion gives the int that differs from the value by a multiple of 2^32. */
  lemma ToIntIs(x: int)
    ensures -0x8000_0000 <= ToInt(x) <= 0x7FFF_FFFF && (ToInt(x) - x) % 0x1_0000_0000 == 0
  {
    var q := x / TWO_TO_32;
    assert x == TWO_TO_32 * q + x % TWO_TO_32;
    ResidueOfMultiple(0, q);
    ResidueOfMultiple(0, q + 1);
  }

  /** The offset of a recorded address as the tagging walk computes it: a wrapped 64-bit difference cut
      down to an int. */
  function Offset(a: nat, start: nat): int {
    ToInt((a - start) % TWO_TO_64)
  }

  /** A non-negative int offset identifies an address only up to multiples of 2^32. */
  lemma OffsetIsResidue(a: nat, start: nat, i: nat)
    requires i <= INT_MAX
    ensures Offset(a, start) == i <==> a % TWO_TO_32 == (start + i) % TWO_TO_32
  {
    WordResidue(a - start);
    ResidueOfDifference(a, start, i);
  }

  lemma WordResidue(x: int)
    ensures (x % TWO_TO_64) % TWO_TO_32 == x % TWO_TO_32
  {
    var q := TWO_TO_32 * (x / TWO_TO_64);
    assert x % TWO_TO_64 == x - TWO_TO_32 * q;
    ResidueOfMultiple(x, q);
  }

  lemma ResidueOfMultiple(x: int, q: int)
    ensures (x - TWO_TO_32 * q) % TWO_TO_32 == x % TWO_TO_32
  {
  }

  lemma ResidueOfDifference(a: int, start: int, i: nat)
    requires i < TWO_TO_32
    ensures (a - start) % TWO_TO_32 == i <==> a % TWO_TO_32 == (start + i) % TWO_TO_32
  {
  }

  /** An address is recorded in the list. */
  ghost predicate Recorded(rs: Records, a: nat) {
    exists k :: 0 <= k < |rs| && rs[k].addr == a
  }

  /** A cleared record for the address is in the list. */
  ghost predicate Cleared(rs: Records, a: nat) {
    exists k :: 0 <= k < |rs| && rs[k].addr == a && rs[k].cleared
  }

  /** At most one uncleared record and at most one later cleared record per address, and no cleared
      record without the uncleared one. */
  ghost predicate Kept(rs: Records) {
    && (forall i, j | 0 <= i < j < |rs| && rs[i].addr == rs[j].addr :: !rs[i].cleared && rs[j].cleared)
    && (forall j | 0 <= j < |rs| && rs[j].cleared :: exists i :: 0 <= i < j && rs[i].addr == rs[j].addr)
  }

  /** A memory range as an instruction writes it: no address wrap-around, and a size that fits in int. */
  predicate Range(start: nat, size: nat) {
    start + size <= TWO_TO_64 && size <= INT_MAX
  }

  // ---------------------------------------------------------------- tagging

  /** Some record has the offset of address a. */
  predicate Flagged(rs: Records, start: nat, a: nat) {
    exists k :: 0 <= k < |rs| && Offset(rs[k].addr, start) == a - start
  }

  /** Uncleared records for the addresses from a up to end whose offset no record has. */
  function Missing(rs: Records, start: nat, a: nat, end: nat): Records
    requires start <= a
    decreases end - a
  {
    if a >= end then []
    else (if Flagged(rs, start, a) then [] else [Rec(a, false)]) + Missing(rs, start, a + 1, end)
  }

  /** The list of a mark that the written taint holds. */
  function Tagged(rs: Records, start: nat, size: nat): Records {
    rs + Missing(rs, start, start, start + size)
  }

  /** Ascending uncleared records for the given range of addresses without a flagged offset. */
  ghost predicate Fills(ms: Records, rs: Records, start: nat, a: nat, end: nat) {
    && (forall k | 0 <= k < |ms| :: a <= ms[k].addr < end && !ms[k].cleared && !Flagged(rs, start, ms[k].addr))
    && (forall i, j | 0 <= i < j < |ms| :: ms[i].addr < ms[j].addr)
    && (forall b | a <= b < end && !Flagged(rs, start, b) :: Recorded(ms, b))
  }

  lemma {:induction false} MissingHolds(rs: Records, start: nat, a: nat, end: nat)
    requires start <= a
    ensures Fills(Missing(rs, start, a, end), rs, start, a, end)
    decreases end - a
  {
    if a < end {
      MissingHolds(rs, start, a + 1, end);
      var rest := Missing(rs, start, a + 1, end);
      if Flagged(rs, start, a) {
        assert [] + rest == rest;
        FillsSkip(rest, rs, start, a, end);
      } else {
        FillsFirst(rest, rs, start, a, end);
      }
    }
  }

  lemma FillsSkip(rest: Records, rs: Records, start: nat, a: nat, end: nat)
    requires Fills(rest, rs, start, a + 1, end) && Flagged(rs, start, a)
    ensures Fills(rest, rs, start, a, end)
  {
    hide Flagged, Recorded;
  }

  lemma FillsFirst(rest: Records, rs: Records, start: nat, a: nat, end: nat)
    requires start <= a < end && Fills(rest, rs, start, a + 1, end) && !Flagged(rs, start, a)
    ensures Fills([Rec(a, false)] + rest, rs, start, a, end)
  {
    hide Flagged, Recorded;
    var ms := [Rec(a, false)] + rest;
    RecordedAfterFirst(Rec(a, false), rest);
    forall i, j | 0 <= i < j < |ms| ensures ms[i].addr < ms[j].addr {
      assert ms[j] == rest[j - 1];
      if i > 0 {
        assert ms[i] == rest[i - 1];
      }
    }
  }

  lemma RecordedAfterFirst(r: Rec, rest: Records)
    ensures forall b :: Recorded([r] + rest, b) <==> b == r.addr || Recorded(rest, b)
  {
    forall b
      ensures Recorded([r] + rest, b) <==> b == r.addr || Recorded(rest, b)
    {
      RecordedInEither([r], rest, b);
      assert [r][0] == r;
    }
  }

  lemma RecordedInEither(rs: Records, ms: Records, a: nat)
    ensures Recorded(rs + ms, a) <==> Recorded(rs, a) || Recorded(ms, a)
    ensures Cleared(rs + ms, a) <==> Cleared(rs, a) || Cleared(ms, a)
  {
    var all := rs + ms;
    assert forall k | 0 <= k < |rs| :: all[k] == rs[k];
    assert forall k | 0 <= k < |ms| :: all[|rs| + k] == ms[k];
  }

  /** A recorded address has its own offset flagged. */
  lemma RecordedIsFlagged(rs: Records, start: nat, size: nat, a: nat)
    requires Range(start, size) && start <= a < start + size && Recorded(rs, a)
    ensures Flagged(rs, start, a)
  {
    OffsetIsResidue(a, start, a - start);
  }

  lemma TaggedKept(rs: Records, start: nat, size: nat)
    requires Kept(rs) && Range(start, size)
    ensures Kept(Tagged(rs, start, size))
  {
    MissingHolds(rs, start, start, start + size);
    var ms, all := Missing(rs, start, start, start + size), Tagged(rs, start, size);
    forall i, j | 0 <= i < j < |all| && all[i].addr == all[j].addr
      ensures !all[i].cleared && all[j].cleared
    {
      if j >= |rs| && i < |rs| {
        assert all[j] == ms[j - |rs|];
        assert Recorded(rs, all[j].addr);
        RecordedIsFlagged(rs, start, size, all[j].addr);
      }
    }
    forall j | 0 <= j < |all| && all[j].cleared
      ensures exists i :: 0 <= i < j && all[i].addr == all[j].addr
    {
      if j < |rs| {
        var i :| 0 <= i < j && rs[i].addr == rs[j].addr;
        assert all[i].addr == all[j].addr;
      }
    }
  }

  /** Exactly what tagging records: an address of the range that was not recorded is recorded if and
      only if no recorded address differs from it by a multiple of 2^32.  Nothing becomes cleared. */
  lemma TaggedRecords(rs: Records, start: nat, size: nat, a: nat)
    requires Range(start, size)
    ensures Recorded(Tagged(rs, start, size), a) <==>
            || Recorded(rs, a)
            || (start <= a < start + size && forall k | 0 <= k < |rs| :: rs[k].addr % TWO_TO_32 != a % TWO_TO_32)
    ensures Cleared(Tagged(rs, start, size), a) <==> Cleared(rs, a)
  {
    MissingHolds(rs, start, start, start + size);
    var ms := Missing(rs, start, start, start + size);
    RecordedInEither(rs, ms, a);
    if start <= a < start + size {
      FlaggedIffResidue(rs, start, a);
    }
  }

  lemma FlaggedIffResidue(rs: Records, start: nat, a: nat)
    requires start <= a <= start + INT_MAX
    ensures Flagged(rs, start, a) <==> exists k :: 0 <= k < |rs| && rs[k].addr % TWO_TO_32 == a % TWO_TO_32
  {
    hide Offset;
    forall k | 0 <= k < |rs|
      ensures Offset(rs[k].addr, start) == a - start <==> rs[k].addr % TWO_TO_32 == a % TWO_TO_32
    {
      OffsetIsResidue(rs[k].addr, start, a - start);
    }
  }

  // ---------------------------------------------------------------- clearing

  /** The cleared flag of the last record for a between positions i and n, exclusive; off if none. */
  function LaterFlag(rs: Records, a: nat, i: nat, n: nat): bool
    requires n <= |rs|
  {
    if n <= i + 1 then false
    else if rs[n - 1].addr == a then rs[n - 1].cleared
    else LaterFlag(rs, a, i, n - 1)
  }

  /** Whether the clearing walk appends a cleared record when it stands at record i. */
  predicate Clears(rs: Records, start: nat, size: nat, i: nat)
    requires i < |rs|
  {
    start <= rs[i].addr < start + size && !rs[i].cleared && !LaterFlag(rs, rs[i].addr, i, |rs|)
  }

  /** The list after the walk stood at record i. */
  function ClearAt(rs: Records, start: nat, size: nat, i: nat): Records
    requires i < |rs|
  {
    if Clears(rs, start, size, i) then rs + [Rec(rs[i].addr, true)] else rs
  }

  /** What is left to walk: uncleared records count twice, since each may append a cleared one. */
  function Ahead(rs: Records, i: nat): nat
    decreases |rs| - i
  {
    if i >= |rs| then 0 else (if rs[i].cleared then 1 else 2) + Ahead(rs, i + 1)
  }

  lemma {:induction false} AheadAppend(rs: Records, i: nat, r: Rec)
    requires i <= |rs|
    ensures Ahead(rs + [r], i) == Ahead(rs, i) + if r.cleared then 1 else 2
    decreases |rs| - i
  {
    if i < |rs| {
      AheadAppend(rs, i + 1, r);
    }
  }

  /** The walk terminates although it appends to the list it walks. */
  lemma ClearingDecreases(rs: Records, start: nat, size: nat, i: nat)
    requires i < |rs|
    ensures Ahead(ClearAt(rs, start, size, i), i + 1) < Ahead(rs, i)
  {
    if Clears(rs, start, size, i) {
      AheadAppend(rs, i + 1, Rec(rs[i].addr, true));
    }
  }

  /** The list of a mark that the written taint does not hold: the walk from record i on. */
  function ClearFrom(rs: Records, start: nat, size: nat, i: nat): Records
    decreases Ahead(rs, i)
  {
    if i >= |rs| then rs
    else
      ClearingDecreases(rs, start, size, i);
      ClearFrom(ClearAt(rs, start, size, i), start, size, i + 1)
  }

  lemma {:induction false} LaterFlagHolds(rs: Records, i: nat, n: nat)
    requires Kept(rs) && i < |rs| && !rs[i].cleared && n <= |rs|
    ensures LaterFlag(rs, rs[i].addr, i, n) <==> exists j :: i < j < n && rs[j].addr == rs[i].addr
  {
    if n > i + 1 {
      LaterFlagHolds(rs, i, n - 1);
    }
  }

  /** One step of the walk: it keeps the list's shape and records nothing new, and afterwards an
      uncleared record of the range at position i has its cleared one. */
  lemma ClearAtHolds(rs: Records, start: nat, size: nat, i: nat, a: nat)
    requires Kept(rs) && i < |rs|
    ensures Kept(ClearAt(rs, start, size, i))
    ensures Recorded(ClearAt(rs, start, size, i), a) <==> Recorded(rs, a)
    ensures Cleared(ClearAt(rs, start, size, i), a) <==>
            Cleared(rs, a) || (start <= a < start + size && !rs[i].cleared && rs[i].addr == a)
  {
    var rs' := ClearAt(rs, start, size, i);
    if !rs[i].cleared {
      LaterFlagHolds(rs, i, |rs|);
      if Clears(rs, start, size, i) {
        forall j | 0 <= j < |rs| && rs[j].addr == rs[i].addr ensures j == i {}
        ClearAtKept(rs, i);
        RecordedInEither(rs, [Rec(rs[i].addr, true)], a);
        assert Cleared([Rec(rs[i].addr, true)], a) <==> a == rs[i].addr by {
          assert a == rs[i].addr ==> [Rec(rs[i].addr, true)][0].addr == a;
        }
      }
    }
  }

  lemma ClearAtKept(rs: Records, i: nat)
    requires Kept(rs) && i < |rs| && !rs[i].cleared
    requires forall j | 0 <= j < |rs| && rs[j].addr == rs[i].addr :: j == i
    ensures Kept(rs + [Rec(rs[i].addr, true)])
  {
    var rs' := rs + [Rec(rs[i].addr, true)];
    forall j | 0 <= j < |rs'| && rs'[j].cleared
      ensures exists k :: 0 <= k < j && rs'[k].addr == rs'[j].addr
    {
      if j == |rs| {
        assert rs'[i].addr == rs'[j].addr;
      } else {
        var k :| 0 <= k < j && rs[k].addr == rs[j].addr;
        assert rs'[k].addr == rs'[j].addr;
      }
    }
  }

  /** An uncleared record for a lies at position i or later. */
  ghost predicate UnclearedAhead(rs: Records, a: nat, i: nat) {
    exists k :: i <= k < |rs| && rs[k].addr == a && !rs[k].cleared
  }

  lemma {:induction false} ClearFromHolds(rs: Records, start: nat, size: nat, i: nat, a: nat)
    requires Kept(rs)
    ensures Kept(ClearFrom(rs, start, size, i))
    ensures Recorded(ClearFrom(rs, start, size, i), a) <==> Recorded(rs, a)
    ensures Cleared(ClearFrom(rs, start, size, i), a) <==>
            Cleared(rs, a) || (start <= a < start + size && UnclearedAhead(rs, a, i))
    decreases Ahead(rs, i)
  {
    if i < |rs| {
      hide Kept, Clears, LaterFlag, Ahead, Recorded, Cleared;
      var rs' := ClearAt(rs, start, size, i);
      ClearAtHolds(rs, start, size, i, a);
      ClearingDecreases(rs, start, size, i);
      ClearFromHolds(rs', start, size, i + 1, a);
      AheadAfterStep(rs, start, size, i, a);
    }
  }

  lemma AheadAfterStep(rs: Records, start: nat, size: nat, i: nat, a: nat)
    requires i < |rs|
    ensures UnclearedAhead(rs, a, i) <==>
            UnclearedAhead(ClearAt(rs, start, size, i), a, i + 1) || (rs[i].addr == a && !rs[i].cleared)
  {
    hide Clears;
    var rs' := ClearAt(rs, start, size, i);
    if k :| i <= k < |rs| && rs[k].addr == a && !rs[k].cleared {
      assert rs'[k] == rs[k];
    }
    if k :| i + 1 <= k < |rs'| && rs'[k].addr == a && !rs'[k].cleared {
      assert rs'[k] == rs[k];
    }
  }

  /** Every recorded address has an uncleared record. */
  lemma RecordedHasUncleared(rs: Records, a: nat)
    requires Kept(rs)
    ensures Recorded(rs, a) <==> UnclearedAhead(rs, a, 0)
  {
    if k :| 0 <= k < |rs| && rs[k].addr == a {
      if rs[k].cleared {
        var i :| 0 <= i < k && rs[i].addr == rs[k].addr;
        assert !rs[i].cleared;
      }
    }
  }

  /** Exactly what clearing does: the recorded addresses of the range become cleared. */
  lemma ClearedRecords(rs: Records, start: nat, size: nat, a: nat)
    requires Kept(rs)
    ensures Kept(ClearFrom(rs, start, size, 0))
    ensures Recorded(ClearFrom(rs, start, size, 0), a) <==> Recorded(rs, a)
    ensures Cleared(ClearFrom(rs, start, size, 0), a) <==>
            Cleared(rs, a) || (start <= a < start + size && Recorded(rs, a))
  {
    ClearFromHolds(rs, start, size, 0, a);
    RecordedHasUncleared(rs, a);
  }

  /** The list of a mark after a write of taint that holds the mark or does not. */
  function Updated(rs: Records, start: nat, size: nat, tainted: bool): Records {
    if tainted then Tagged(rs, start, size) else ClearFrom(rs, start, size, 0)
  }
}
