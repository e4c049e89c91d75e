/** Taint sources: how the bytes of a read get their marks. */
module TaintSources {
  import opened MachineIntegers
  import opened Bitsets
  import opened Cells
  import opened Taint
  import opened Engines
  import opened TaintGenerators

  /** What a source does to a byte: taints it with one mark or leaves it alone. */
  datatype Stamp = Mark(mark: nat) | Untouched

  /** The bytes from start on are stamped in order, and nothing else changes. */
  ghost predicate Stamped(before: State, after: State, start: nat, stamps: seq<Stamp>) {
    forall l: Loc ::
      TaintOf(after, l) ==
      if l.M? && start <= l.addr < start + |stamps| && stamps[l.addr - start].Mark?
      then {stamps[l.addr - start].mark} else TaintOf(before, l)
  }

  lemma StampOne(before: State, after: State, start: nat, stamps: seq<Stamp>, mark: nat)
    requires Stamped(before, after, start, stamps)
    ensures Stamped(before, after[M(start + |stamps|) := {mark}], start, stamps + [Mark(mark)])
    ensures Stamped(before, after, start, stamps + [Untouched])
  {
  }

  /** The generator yields proper marks for an engine's bitsets, and n more without overflow. */
  ghost predicate Supplies(gen: TaintGenerator, e: Engine, n: int)
    reads gen
  {
    0 < gen.max <= e.maps.marks && gen.current >= -1 && gen.current + n <= INT_MAX
  }

  /** The k-th mark from a counter that is not negative by then. */
  function NewMark(current: int, max: int, k: nat): nat
    requires max > 0 && current + k >= 0
  {
    MarkAt(current, max, k)
  }

  // ---------------------------------------------------------------- a mark per byte, a mark per read

  ghost function PerByte(current: int, max: int, n: nat): seq<Stamp>
    requires max > 0 && current >= -1
  {
    seq(n, i requires 0 <= i < n => Mark(NewMark(current, max, i + 1)))
  }

  lemma PerByteStep(current: int, max: int, n: nat)
    requires max > 0 && current >= -1
    ensures 0 <= MarkAt(current + n, max, 1) < max
    ensures PerByte(current, max, n + 1) == PerByte(current, max, n) + [Mark(MarkAt(current + n, max, 1))]
  {
  }

  /** Byte i gets the remainder that the generator's counter has left after i + 1 more calls. */
  lemma PerByteMarks(current: int, max: int, n: nat, i: nat)
    requires max > 0 && current >= -1 && i < n
    ensures |PerByte(current, max, n)| == n && 0 <= (current + i + 1) % max
    ensures PerByte(current, max, n)[i] == Mark((current + i + 1) % max)
    ensures NewMark(current, max, 1) == (current + 1) % max
  {
    MarkIs(current, max, i + 1);
    MarkIs(current, max, 1);
  }

  /** All bytes get the one mark. */
  lemma PerReadMarks(mark: nat, n: nat)
    ensures |PerRead(mark, n)| == n && forall i | 0 <= i < n :: PerRead(mark, n)[i] == Mark(mark)
  {
  }

  /** What stamping means: byte i from start on holds just its mark, or what it held; nothing else changes. */
  lemma StampedMeans(before: State, after: State, start: nat, stamps: seq<Stamp>)
    requires Stamped(before, after, start, stamps)
    ensures forall i | 0 <= i < |stamps| ::
              TaintOf(after, M(start + i)) ==
              if stamps[i].Mark? then {stamps[i].mark} else TaintOf(before, M(start + i))
    ensures forall l: Loc | !l.M? || l.addr < start || start + |stamps| <= l.addr ::
              TaintOf(after, l) == TaintOf(before, l)
  {
  }

  /** Gives a byte one mark by way of a shared empty set. */
  method StampByte(e: Engine, s: Bitset, addr: nat, tag: nat)
    requires e.Valid() && tag < e.maps.marks
    requires s.Valid() && s.nbits == e.maps.marks && s.Marks() == {} && s.bits !in Storage(e.maps.cells)
    modifies e.Repr(), s.bits
    ensures e.Valid() && fresh(e.Repr() - old(e.Repr())) && e.Abs() == old(e.Abs())[M(addr) := {tag}]
    ensures s.Valid() && s.Marks() == {} && s.bits !in Storage(e.maps.cells)
  {
    hide Engine.Valid, Engine.Abs, Bitset.Valid, Bitset.Marks;
    s.SetBit(tag);
    e.BindByte(addr, s, tag);
    s.Reset();
  }

  /** Every byte of a read gets the next mark. */
  method ReadPerByte(e: Engine, gen: TaintGenerator, start: nat, ret: int)
    requires e.Valid() && Supplies(gen, e, ret)
    modifies e.Repr(), gen
    ensures e.Valid() && fresh(e.Repr() - old(e.Repr()))
    ensures var n := if ret > 0 then ret else 0;
            && gen.max == old(gen.max) && gen.current == old(gen.current) + n
            && Stamped(old(e.Abs()), e.Abs(), start, PerByte(old(gen.current), gen.max, n))
  {
    hide Engine.Valid, Engine.Abs, Bitset.Valid, Bitset.Marks, Stamped, MarkAt;
    ghost var before, current, max, stamps: seq<Stamp> := e.Abs(), gen.current, gen.max, [];
    NothingStamped(before, start);
    assert PerByte(current, max, 0) == [];
    hide PerByte;
    if ret <= 0 {
      return;
    }
    var s := new Bitset.Init(e.maps.marks);
    for addr := start to start + ret
      invariant e.Valid() && fresh(e.Repr() - old(e.Repr()))
      invariant s.Valid() && s.Marks() == {} && s.bits !in Storage(e.maps.cells) && fresh(s.bits)
      invariant gen.max == max && gen.current == current + |stamps| && |stamps| == addr - start
      invariant stamps == PerByte(current, max, |stamps|) && Stamped(before, e.Abs(), start, stamps)
    {
      PerByteStep(current, max, |stamps|);
      var tag := gen.NextTaintMark();
      StampOne(before, e.Abs(), start, stamps, tag);
      StampByte(e, s, addr, tag);
      stamps := stamps + [Mark(tag)];
    }
  }

  lemma NothingStamped(s: State, start: nat)
    ensures Stamped(s, s, start, [])
  {
  }

  ghost function PerRead(mark: nat, n: nat): seq<Stamp> {
    seq(n, _ => Mark(mark))
  }

  lemma PerReadStep(mark: nat, n: nat)
    ensures PerRead(mark, n + 1) == PerRead(mark, n) + [Mark(mark)] && PerRead(mark, 0) == []
  {
  }

  /** Binds every byte of a range to a copy of one set. */
  method BindBytes(e: Engine, s: Bitset, start: nat, n: nat, ghost mark: nat)
    requires e.Valid() && s.bits !in Storage(e.maps.cells)
    requires s.Valid() && s.nbits == e.maps.marks && s.Marks() == {mark}
    modifies e.Repr()
    ensures e.Valid() && fresh(e.Repr() - old(e.Repr()))
    ensures Stamped(old(e.Abs()), e.Abs(), start, PerRead(mark, n))
  {
    hide Engine.Valid, Engine.Abs, Bitset.Valid, Bitset.Marks, Stamped, PerRead;
    ghost var before := e.Abs();
    NothingStamped(before, start);
    PerReadStep(mark, 0);
    for addr := start to start + n
      invariant e.Valid() && fresh(e.Repr() - old(e.Repr()))
      invariant s.Valid() && s.Marks() == {mark} && s.bits !in Storage(e.maps.cells)
      invariant Stamped(before, e.Abs(), start, PerRead(mark, addr - start))
      invariant |PerRead(mark, addr - start)| == addr - start
    {
      PerReadStep(mark, addr - start);
      StampOne(before, e.Abs(), start, PerRead(mark, addr - start), mark);
      e.BindByte(addr, s, mark);
    }
  }

  /** All bytes of a read get the same new mark. */
  method ReadPerRead(e: Engine, gen: TaintGenerator, start: nat, ret: int)
    requires e.Valid() && Supplies(gen, e, 1)
    modifies e.Repr(), gen
    ensures e.Valid() && fresh(e.Repr() - old(e.Repr()))
    ensures gen.max == old(gen.max) && gen.current == old(gen.current) + if ret > 0 then 1 else 0
    ensures Stamped(old(e.Abs()), e.Abs(), start,
                    PerRead(NewMark(old(gen.current), gen.max, 1), if ret > 0 then ret else 0))
  {
    hide Engine.Valid, Engine.Abs, Bitset.Valid, Bitset.Marks, Stamped, PerRead;
    NothingStamped(e.Abs(), start);
    PerReadStep(NewMark(gen.current, gen.max, 1), 0);
    if ret <= 0 {
      return;
    }
    var s := new Bitset.Init(e.maps.marks);
    var tag := gen.NextTaintMark();
    s.SetBit(tag);
    BindBytes(e, s, start, ret, tag);
  }

  /** A read of n bytes per byte gives n distinct marks if and only if n is at most max. */
  lemma PerByteDistinctIff(current: int, max: int, n: nat)
    requires max > 0 && current >= -1
    ensures (forall i, j | 0 <= i < j < n :: PerByte(current, max, n)[i] != PerByte(current, max, n)[j]) <==> n <= max
  {
    FirstMarksDistinctIff(current, max, n);
    var stamps := PerByte(current, max, n);
    if n <= max {
      forall i, j | 0 <= i < j < n ensures stamps[i] != stamps[j] {
        assert MarkAt(current, max, i + 1) != MarkAt(current, max, j + 1);
      }
    } else {
      var j, k :| 1 <= j < k <= n && MarkAt(current, max, j) == MarkAt(current, max, k);
      assert stamps[j - 1] == stamps[k - 1];
    }
  }

  // ---------------------------------------------------------------- taint assigned by a caller

  /** Gives a range of memory one mark: the caller's, or the generator's next for -1.  The call fails, by an
      assertion or by aborting the program, if a mark is asked of a generator that is not there, or if no bitset
      can hold the caller's mark. */
  method SetNewTaint(e: Engine, gen: TaintGenerator?, start: nat, size: nat, taintMark: int) returns (accepted: bool)
    requires e.Valid() && (taintMark == -1 && gen != null ==> Supplies(gen, e, 1))
    modifies e.Repr(), gen
    ensures e.Valid() && fresh(e.Repr() - old(e.Repr()))
    ensures accepted <==> if taintMark == -1 then gen != null else 0 <= taintMark < e.maps.marks
    ensures !accepted ==> e.Abs() == old(e.Abs())
    ensures accepted && taintMark >= 0 ==> e.Abs() == Apply(old(e.Abs()), NewTaint(start, size, taintMark))
    ensures accepted && taintMark == -1 ==>
              e.Abs() == Apply(old(e.Abs()), NewTaint(start, size, NewMark(old(gen.current), old(gen.max), 1)))
    ensures gen != null ==> gen.current == old(gen.current) + if taintMark == -1 then 1 else 0
  {
    hide Engine.Valid, Engine.Abs, Apply;
    var mark := taintMark;
    if taintMark == -1 {
      if gen == null {
        return false;
      }
      MarkIsProperIff(gen.current, gen.max, 1);
      mark := gen.NextTaintMark();
    } else if taintMark >= e.maps.marks || taintMark < 0 {
      return false;
    }
    e.SetNewTaintForMemory(start, size, mark);
    accepted := true;
  }
}
