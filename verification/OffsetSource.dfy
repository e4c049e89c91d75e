/** The taint source that gives every word of a file one mark, by a table of word offsets. */
module OffsetSources {
  import opened MachineIntegers
  import opened Bitsets
  import opened Cells
  import opened Taint
  import opened Engines
  import opened TaintGenerators
  import opened TaintSources

  // The length of the tables.
  const WORDS: nat := 256

  /** The first and last offset of each word. */
  datatype WordTable = WordTable(starts: seq<int>, ends: seq<int>)

  /** n sorted disjoint words, and zeros behind them.  A table of zeros only is that of the word [0, 0]. */
  ghost predicate Table(w: WordTable, n: nat) {
    && |w.starts| == |w.ends| == WORDS && 1 <= n < WORDS && 0 <= w.starts[0]
    && (forall i | 0 <= i < n :: w.starts[i] <= w.ends[i])
    && (forall i, j | 0 <= i < j < n :: w.ends[i] < w.starts[j])
    && (forall i | n <= i < WORDS :: w.starts[i] == w.ends[i] == 0)
  }

  lemma TableSize(w: WordTable, n: nat)
    requires Table(w, n)
    ensures |w.starts| == |w.ends| == 256
  {
  }

  ghost predicate InWord(w: WordTable, i: nat, offset: int)
    requires i < |w.starts| && i < |w.ends|
  {
    w.starts[i] <= offset <= w.ends[i]
  }

  ghost predicate Outside(w: WordTable, n: nat, offset: int)
    requires n <= |w.starts| && n <= |w.ends|
  {
    forall i: nat | i < n :: !InWord(w, i, offset)
  }

  /** A byte in word i gets the mark number i + 1 from the generator, and a byte in no word is left alone. */
  ghost predicate StampIs(stamp: Stamp, w: WordTable, n: nat, current: int, max: int, offset: int)
    requires Table(w, n) && max > 0 && current >= -1
  {
    && (forall i: nat | i < n && InWord(w, i, offset) :: stamp == Mark(NewMark(current, max, i + 1)))
    && (Outside(w, n, offset) ==> stamp == Untouched)
  }

  /** Byte j of a read has file offset base + j. */
  ghost predicate StampedByWord(stamps: seq<Stamp>, w: WordTable, n: nat, current: int, max: int, base: int)
    requires Table(w, n) && max > 0 && current >= -1
  {
    forall j | 0 <= j < |stamps| :: StampIs(stamps[j], w, n, current, max, base + j)
  }

  /** Where the scan stands: the offset of the last byte, the word it looks for, the last mark, and how
      many marks were drawn. */
  datatype Scan = Scan(count: int, index: nat, tag: int, drawn: nat)

  ghost predicate Hit(w: WordTable, s: Scan)
    requires |w.starts| == |w.ends| == WORDS && s.index < WORDS
  {
    InWord(w, s.index, s.count + 1)
  }

  /** The scan of one byte. */
  ghost function Next(w: WordTable, current: int, max: int, s: Scan): Scan
    requires |w.starts| == |w.ends| == WORDS && s.index < WORDS && max > 0
  {
    var count := s.count + 1;
    if !Hit(w, s) then s.(count := count)
    else
      var starts := count == w.starts[s.index];
      Scan(count, if count == w.ends[s.index] then s.index + 1 else s.index,
           if starts then MarkAt(current + s.drawn, max, 1) else s.tag, if starts then s.drawn + 1 else s.drawn)
  }

  /** The scan is inside word s.index, which has its mark. */
  ghost predicate Inside(w: WordTable, n: nat, s: Scan)
    requires Table(w, n)
  {
    s.index < n && w.starts[s.index] <= s.count
  }

  /** A scan that began before the first word: the words before s.index have ended, and every word that
      has started has its mark. */
  ghost predicate OnTrack(w: WordTable, n: nat, current: int, max: int, base: int, s: Scan, stamps: seq<Stamp>)
    requires Table(w, n) && max > 0 && current >= -1
  {
    && s.count == base + |stamps| - 1 && s.index <= n
    && (forall i | 0 <= i < s.index :: w.ends[i] <= s.count)
    && (s.index < n ==> s.count < w.ends[s.index])
    && s.drawn == s.index + (if Inside(w, n, s) then 1 else 0)
    && (Inside(w, n, s) ==> s.tag == NewMark(current, max, s.index + 1))
    && StampedByWord(stamps, w, n, current, max, base)
  }

  lemma NextOnTrack(w: WordTable, n: nat, current: int, max: int, base: int, s: Scan, stamps: seq<Stamp>)
    requires Table(w, n) && max > 0 && current >= -1 && base >= 0 && OnTrack(w, n, current, max, base, s, stamps)
    ensures var t := Next(w, current, max, s);
            if Hit(w, s) then 0 <= t.tag < max && OnTrack(w, n, current, max, base, t, stamps + [Mark(t.tag)])
            else OnTrack(w, n, current, max, base, t, stamps + [Untouched])
    ensures s.index < WORDS && s.drawn <= n && (Hit(w, s) && s.count + 1 == w.starts[s.index] ==> s.drawn < n)
  {
    hide Remainder, StampedByWord;
    var t := Next(w, current, max, s);
    var offset := s.count + 1;
    forall i: nat | i < n ensures InWord(w, i, offset) <==> i == s.index && Hit(w, s) {
      OnlyNextWord(w, n, s, i);
    }
    if s.index == n {
      assert w.ends[n - 1] <= s.count;
    }
    MarkIsProperIff(current, max, s.index + 1);
    var stamp := if Hit(w, s) then Mark(NewMark(current, max, s.index + 1)) else Untouched;
    assert StampIs(stamp, w, n, current, max, offset);
    StampNext(w, n, current, max, base, stamps, stamp);
  }

  /** The next byte can only lie in the word that the scan looks for. */
  lemma OnlyNextWord(w: WordTable, n: nat, s: Scan, i: nat)
    requires Table(w, n) && i < n && s.index <= n
    requires (forall i | 0 <= i < s.index :: w.ends[i] <= s.count) && (s.index < n ==> s.count < w.ends[s.index])
    ensures InWord(w, i, s.count + 1) ==> i == s.index
  {
  }

  lemma StampNext(w: WordTable, n: nat, current: int, max: int, base: int, stamps: seq<Stamp>, stamp: Stamp)
    requires Table(w, n) && max > 0 && current >= -1 && StampedByWord(stamps, w, n, current, max, base)
    requires StampIs(stamp, w, n, current, max, base + |stamps|)
    ensures StampedByWord(stamps + [stamp], w, n, current, max, base)
  {
    hide StampIs;
  }

  /** A scan that began behind the first word: it looks for the first word for ever. */
  ghost predicate Late(w: WordTable, s: Scan, stamps: seq<Stamp>)
    requires |w.ends| == WORDS
  {
    s.index == 0 && s.drawn == 0 && w.ends[0] <= s.count && forall j | 0 <= j < |stamps| :: stamps[j] == Untouched
  }

  /** A read whose first byte has offset base begins inside the first word, behind its start. */
  ghost predicate Midword(w: WordTable, base: int)
    requires |w.starts| == |w.ends| == WORDS
  {
    w.starts[0] < base <= w.ends[0]
  }

  /** The scan of a read whose first byte has offset base. */
  ghost predicate Scanning(w: WordTable, n: nat, current: int, max: int, base: int, s: Scan, stamps: seq<Stamp>)
    requires Table(w, n) && max > 0 && current >= -1
  {
    if base <= w.starts[0] then OnTrack(w, n, current, max, base, s, stamps)
    else if Midword(w, base) then stamps == [] && s == Scan(base - 1, 0, -1, 0)
    else Late(w, s, stamps) && s.count == base + |stamps| - 1
  }

  lemma NothingScanned(w: WordTable, n: nat, current: int, max: int, base: int)
    requires Table(w, n) && max > 0 && current >= -1 && base >= 0
    ensures Scanning(w, n, current, max, base, Scan(base - 1, 0, -1, 0), [])
  {
  }

  /** The next byte: no mark is there for it exactly when the read began inside the first word. */
  lemma NextScanning(w: WordTable, n: nat, current: int, max: int, base: int, s: Scan, stamps: seq<Stamp>)
    requires Table(w, n) && max > 0 && current >= -1 && base >= 0 && Scanning(w, n, current, max, base, s, stamps)
    ensures s.index < WORDS
    ensures var t := Next(w, current, max, s);
            if Midword(w, base) then Hit(w, s) && t.tag == -1 && t.drawn == s.drawn
            else if Hit(w, s) then 0 <= t.tag < max && Scanning(w, n, current, max, base, t, stamps + [Mark(t.tag)])
            else Scanning(w, n, current, max, base, t, stamps + [Untouched])
    ensures s.drawn <= n && (s.count + 1 == w.starts[s.index] ==> s.drawn < n)
  {
    hide OnTrack;
    if base <= w.starts[0] {
      NextOnTrack(w, n, current, max, base, s, stamps);
    }
  }

  /** What a read whose first byte has offset base does.  If it starts before the first word or with it,
      every byte of a word gets the word's mark, and as many marks are drawn as words have started.  If it
      starts behind the first word nothing is stamped, since the scan looks for the first word again. */
  ghost predicate Outcome(w: WordTable, n: nat, current: int, max: int, base: int, drawn: int, stamps: seq<Stamp>)
    requires Table(w, n) && max > 0 && current >= -1
  {
    && (base <= w.starts[0] ==>
          && StampedByWord(stamps, w, n, current, max, base)
          && forall i | 0 <= i < n :: i < drawn <==> w.starts[i] < base + |stamps|)
    && (base > w.ends[0] ==> drawn == 0 && forall j | 0 <= j < |stamps| :: stamps[j] == Untouched)
  }

  lemma ScanningMeans(w: WordTable, n: nat, current: int, max: int, base: int, s: Scan, stamps: seq<Stamp>)
    requires Table(w, n) && max > 0 && current >= -1 && base >= 0
    requires Scanning(w, n, current, max, base, s, stamps) && (Midword(w, base) ==> s.drawn == 0 && stamps == [])
    ensures Outcome(w, n, current, max, base, s.drawn, stamps)
  {
    hide StampedByWord, NewMark;
  }

  /** A table without words is read as that of one word, the first byte of the file, which a first read
      therefore taints. */
  lemma EmptyTableHasOneWord(w: WordTable, stamps: seq<Stamp>, current: int, max: int)
    requires |w.starts| == |w.ends| == WORDS && forall i | 0 <= i < WORDS :: w.starts[i] == w.ends[i] == 0
    requires max > 0 && current >= -1 && |stamps| > 0
    ensures Table(w, 1)
    ensures StampedByWord(stamps, w, 1, current, max, 0) <==>
            stamps[0] == Mark(NewMark(current, max, 1)) && forall j | 1 <= j < |stamps| :: stamps[j] == Untouched
  {
    hide NewMark;
    assert InWord(w, 0, 0);
    forall j | 1 <= j < |stamps|
      ensures StampIs(stamps[j], w, 1, current, max, j) <==> stamps[j] == Untouched
    {
      assert Outside(w, 1, j);
    }
    assert StampIs(stamps[0], w, 1, current, max, 0) <==> stamps[0] == Mark(NewMark(current, max, 1));
  }

  /** What is stamped, byte by byte: a byte whose offset lies between the first and the last offset of a word gets
      that word's mark, and every other byte none. */
  lemma ByteOfWord(stamps: seq<Stamp>, w: WordTable, n: nat, current: int, max: int, base: int, j: nat)
    requires Table(w, n) && max > 0 && current >= -1 && j < |stamps|
    requires StampedByWord(stamps, w, n, current, max, base)
    ensures forall i: nat | i < n && w.starts[i] <= base + j <= w.ends[i] ::
              stamps[j].Mark? && stamps[j].mark == (current + i + 1) % max
    ensures (forall i: nat | i < n :: base + j < w.starts[i] || w.ends[i] < base + j) ==> stamps[j] == Untouched
  {
    hide NewMark;
    assert StampIs(stamps[j], w, n, current, max, base + j);
    forall i: nat | i < n && w.starts[i] <= base + j <= w.ends[i]
      ensures stamps[j].Mark? && stamps[j].mark == (current + i + 1) % max
    {
      assert InWord(w, i, base + j);
      WordMark(current, max, i + 1);
    }
    if forall i: nat | i < n :: base + j < w.starts[i] || w.ends[i] < base + j {
      assert Outside(w, n, base + j);
    }
  }

  lemma WordMark(current: int, max: int, k: nat)
    requires max > 0 && current + k >= 0
    ensures NewMark(current, max, k) == (current + k) % max
  {
    MarkIs(current, max, k);
  }

  class OffsetReader {
    // The offset of the last byte read, kept from call to call.
    var count: int

    constructor ()
      ensures count == -1
    {
      count := -1;
    }

    /** The scan of the next byte: whether it lies in a word, and the word's mark. */
    method ScanByte(gen: TaintGenerator, w: WordTable, index: nat, tag: int, ghost current: int)
      returns (hit: bool, index': nat, tag': int)
      requires |w.starts| == |w.ends| == WORDS && index < WORDS && gen.max > 0 && current <= gen.current
      requires count + 1 == w.starts[index] ==> gen.current < INT_MAX
      modifies this, gen`current
      ensures gen.current >= current && count == old(count) + 1
      ensures var s := old(Scan(count, index, tag, gen.current - current));
              hit == Hit(w, s) && Scan(count, index', tag', gen.current - current) == Next(w, current, gen.max, s)
    {
      var flag := false;
      hit, index', tag' := false, index, tag;
      count := count + 1;
      if count < w.starts[index] || count > w.ends[index] {
        return;
      }
      if count == w.starts[index] {
        flag := true;
      }
      if count == w.ends[index] {
        index' := index + 1;
      }
      if flag {
        tag' := gen.NextTaintMark();
      }
      hit := true;
    }

    /** One round of the loop: the scan of a byte, and its mark.  Setting bit -1 fails an assertion. */
    method ReadByte(e: Engine, gen: TaintGenerator, s: Bitset, addr: nat, w: WordTable, index: nat, tag: int,
                    ghost n: nat, ghost current: int, ghost base: int, ghost stamps: seq<Stamp>)
      returns (ok: bool, index': nat, tag': int, ghost stamp: Stamp)
      requires e.Valid() && 0 < gen.max <= e.maps.marks && gen !in e.Repr() && this !in e.Repr() && s.bits !in e.Repr()
      requires s.Valid() && s.nbits == e.maps.marks && s.Marks() == {} && s.bits !in Storage(e.maps.cells)
      requires Table(w, n) && -1 <= current <= gen.current && current + n <= INT_MAX && base >= 0
      requires Scanning(w, n, current, gen.max, base, Scan(count, index, tag, gen.current - current), stamps)
      modifies e.Repr(), s.bits, this, gen`current
      ensures e.Valid() && fresh(e.Repr() - old(e.Repr()))
      ensures s.Valid() && s.Marks() == {} && s.bits !in Storage(e.maps.cells)
      ensures count == old(count) + 1 && gen.current >= current && gen.max == old(gen.max)
      ensures ok <==> !Midword(w, base)
      ensures ok ==> Scanning(w, n, current, gen.max, base, Scan(count, index', tag', gen.current - current),
                              stamps + [stamp])
      ensures !ok ==> stamp == Untouched && gen.current == old(gen.current)
      ensures e.Abs() == if stamp.Mark? then old(e.Abs())[M(addr) := {stamp.mark}] else old(e.Abs())
    {
      hide Engine.Valid, Engine.Abs, Bitset.Valid, Bitset.Marks, Scanning, Table, Next, Hit, Midword;
      TableSize(w, n);
      NextScanning(w, n, current, gen.max, base, Scan(count, index, tag, gen.current - current), stamps);
      var hit;
      hit, index', tag' := ScanByte(gen, w, index, tag, current);
      stamp := Untouched;
      if hit {
        if tag' == -1 {
          return false, index', tag', Untouched;
        }
        stamp := Mark(tag');
        StampByte(e, s, addr, tag');
      }
      ok := true;
    }

    /** The loop over the bytes of a read. */
    method ReadBytes(e: Engine, gen: TaintGenerator, s: Bitset, start: nat, ret: nat, w: WordTable,
                     ghost n: nat, ghost current: int, ghost base: int)
      returns (ok: bool, ghost final: Scan, ghost stamps: seq<Stamp>)
      requires e.Valid() && 0 < gen.max <= e.maps.marks && gen !in e.Repr() && this !in e.Repr() && s.bits !in e.Repr()
      requires s.Valid() && s.nbits == e.maps.marks && s.Marks() == {} && s.bits !in Storage(e.maps.cells)
      requires Table(w, n) && -1 <= current == gen.current && current + n <= INT_MAX && base == count + 1 >= 0
      requires Scanning(w, n, current, gen.max, base, Scan(count, 0, -1, 0), []) && ret > 0
      modifies e.Repr(), s.bits, this, gen`current
      ensures e.Valid() && fresh(e.Repr() - old(e.Repr()))
      ensures ok <==> !Midword(w, base)
      ensures ok ==> |stamps| == ret && count == old(count) + ret
      ensures ok ==> Scanning(w, n, current, gen.max, base, final, stamps)
      ensures ok ==> final.count == count && final.drawn == gen.current - current
      ensures !ok ==> stamps == [] && count == old(count) + 1 && gen.current == current
      ensures gen.max == old(gen.max) && Stamped(old(e.Abs()), e.Abs(), start, stamps)
    {
      hide Engine.Valid, Engine.Abs, Bitset.Valid, Bitset.Marks, Stamped, Scanning, Table, Midword;
      TableSize(w, n);
      ghost var before := e.Abs();
      var index, tag := 0, -1;
      stamps := [];
      NothingStamped(before, start);
      final := Scan(count, 0, -1, 0);
      for addr := start to start + ret
        invariant e.Valid() && fresh(e.Repr() - old(e.Repr()))
        invariant s.Valid() && s.Marks() == {} && s.bits !in Storage(e.maps.cells)
        invariant gen !in e.Repr() && this !in e.Repr() && s.bits !in e.Repr()
        invariant |stamps| == addr - start && count == base - 1 + |stamps| && gen.current >= current
        invariant stamps != [] ==> !Midword(w, base)
        invariant stamps == [] ==> gen.current == current
        invariant Stamped(before, e.Abs(), start, stamps)
        invariant Scanning(w, n, current, gen.max, base, Scan(count, index, tag, gen.current - current), stamps)
      {
        ghost var stamp, state := Untouched, e.Abs();
        var more;
        more, index, tag, stamp := ReadByte(e, gen, s, addr, w, index, tag, n, current, base, stamps);
        if !more {
          return false, final, stamps;
        }
        StampOne(before, state, start, stamps, if stamp.Mark? then stamp.mark else 0);
        stamps := stamps + [stamp];
      }
      ok, final := true, Scan(count, index, tag, gen.current - current);
    }

    /** Reads ret bytes, the first of which has file offset count + 1.  A read that begins inside the first word
        fails at its first byte. */
    method Read(e: Engine, gen: TaintGenerator, start: nat, ret: int, w: WordTable, ghost n: nat)
      returns (ok: bool, ghost stamps: seq<Stamp>)
      requires e.Valid() && Table(w, n) && Supplies(gen, e, n) && count >= -1
      modifies e.Repr(), gen, this
      ensures e.Valid() && fresh(e.Repr() - old(e.Repr()))
      ensures ok <==> !(ret > 0 && w.starts[0] <= old(count) < w.ends[0])
      ensures gen.max == old(gen.max) && Stamped(old(e.Abs()), e.Abs(), start, stamps)
      ensures ok ==> |stamps| == (if ret > 0 then ret else 0) && count == old(count) + |stamps|
      ensures ok ==> Outcome(w, n, old(gen.current), gen.max, old(count) + 1, gen.current - old(gen.current), stamps)
      ensures !ok ==> stamps == [] && count == old(count) + 1 && gen.current == old(gen.current)
    {
      hide Engine.Valid, Engine.Abs, Bitset.Valid, Bitset.Marks, Stamped, Scanning, Table, Outcome;
      TableSize(w, n);
      ghost var before, current, max, base := e.Abs(), gen.current, gen.max, count + 1;
      stamps := [];
      NothingStamped(before, start);
      NothingScanned(w, n, current, max, base);
      ghost var final := Scan(count, 0, -1, 0);
      ok := true;
      if ret > 0 {
        var s := new Bitset.Init(e.maps.marks);
        ok, final, stamps := ReadBytes(e, gen, s, start, ret, w, n, current, base);
      }
      if ok {
        ScanningMeans(w, n, current, max, base, final, stamps);
      }
    }
  }
}
