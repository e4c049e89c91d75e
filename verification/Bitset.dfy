/** The word-packed bitset. */
module Bitsets {
  import opened Words
  import opened PackedBits

  class Bitset {
    const nbits: nat
    const bits: array<Word>

    ghost predicate Valid()
      reads bits
    {
      Packed(bits[..], nbits)
    }

    /** The set of naturals below nbits that the words represent. */
    ghost function Marks(): set<nat>
      reads bits
    {
      MarksOf(bits[..], nbits)
    }

    constructor Init(nbits: nat)
      ensures Valid() && this.nbits == nbits && fresh(bits)
      ensures Marks() == {}
    {
      this.nbits := nbits;
      bits := new Word[Used(nbits)](_ => 0);
      new;
      UsedBounds(nbits);
      ZeroBits(bits[..]);
    }

    constructor Copy(set_: Bitset)
      requires set_.Valid()
      ensures Valid() && nbits == set_.nbits && fresh(bits)
      ensures Marks() == set_.Marks()
    {
      nbits := set_.nbits;
      bits := new Word[Used(set_.nbits)](_ => 0);
      new;
      hide Bit;
      ghost var words := set_.bits[..];
      forall k | 0 <= k < bits.Length {
        bits[k] := set_.bits[k];
      }
      assert bits[..] == words == set_.bits[..];
    }

    method Reset()
      requires Valid()
      modifies bits
      ensures Valid() && Marks() == {}
    {
      forall k | 0 <= k < bits.Length {
        bits[k] := 0;
      }
      UsedBounds(nbits);
      ZeroBits(bits[..]);
    }

    method ClearBit(pos: nat)
      requires Valid() && pos < nbits
      modifies bits
      ensures Valid() && Marks() == old(Marks()) - {pos}
    {
      hide Bit, And, Not, Mask;
      UsedBounds(nbits);
      bits[pos / BITS] := And(bits[pos / BITS], Not(Mask(Place(pos % BITS))));
      ClearBits(old(bits[..]), pos, bits[..]);
    }

    method SetBit(pos: nat)
      requires Valid() && pos < nbits
      modifies bits
      ensures Valid() && Marks() == old(Marks()) + {pos}
    {
      hide Bit, Or, Mask;
      UsedBounds(nbits);
      bits[pos / BITS] := Or(bits[pos / BITS], Mask(Place(pos % BITS)));
      SetBits(old(bits[..]), pos, bits[..]);
    }

    /** Copies src's words; the words of a wider set beyond them stay. */
    method SetAll(src: Bitset)
      requires Valid() && src.Valid() && nbits >= src.nbits
      modifies bits
      ensures Valid()
      ensures Marks() == old(src.Marks()) + set i | i in old(Marks()) && i >= BITS * Used(src.nbits)
      ensures nbits == src.nbits ==> Marks() == old(src.Marks())
    {
      hide Bit;
      UsedBounds(nbits);
      UsedBounds(src.nbits);
      UsedMonotonic(src.nbits, nbits);
      ghost var a, b := bits[..], src.bits[..];
      forall k | 0 <= k < Used(src.nbits) {
        bits[k] := src.bits[k];
      }
      CopyBits(a, b, bits[..], nbits, src.nbits);
    }

    method TestBit(pos: nat) returns (b: bool)
      requires Valid() && pos < nbits
      ensures b <==> pos in Marks()
    {
      UsedBounds(nbits);
      b := On(bits[pos / BITS], Place(pos % BITS));
    }

    method ToggleBit(pos: nat)
      requires Valid() && pos < nbits
      modifies bits
      ensures Valid()
      ensures Marks() == if pos in old(Marks()) then old(Marks()) - {pos} else old(Marks()) + {pos}
    {
      var b := TestBit(pos);
      if b {
        ClearBit(pos);
      } else {
        SetBit(pos);
      }
    }

    method Union(src: Bitset)
      requires Valid() && src.Valid() && nbits == src.nbits
      modifies bits
      ensures Valid() && Marks() == old(Marks()) + old(src.Marks())
    {
      hide Bit, Or;
      ghost var a, b := bits[..], src.bits[..];
      var i := Used(nbits);
      while i != 0
        invariant 0 <= i <= bits.Length == src.bits.Length
        invariant forall k | 0 <= k < i :: bits[k] == a[k] && src.bits[k] == b[k]
        invariant forall k | i <= k < bits.Length :: bits[k] == Or(a[k], b[k])
      {
        i := i - 1;
        bits[i] := Or(bits[i], src.bits[i]);
      }
      OrBits(a, b, bits[..], nbits);
    }

    method Intersection(src: Bitset)
      requires Valid() && src.Valid() && nbits == src.nbits
      modifies bits
      ensures Valid() && Marks() == old(Marks()) * old(src.Marks())
    {
      hide Bit, And;
      ghost var a, b := bits[..], src.bits[..];
      var i := Used(nbits);
      while i != 0
        invariant 0 <= i <= bits.Length == src.bits.Length
        invariant forall k | 0 <= k < i :: bits[k] == a[k] && src.bits[k] == b[k]
        invariant forall k | i <= k < bits.Length :: bits[k] == And(a[k], b[k])
      {
        i := i - 1;
        bits[i] := And(bits[i], src.bits[i]);
      }
      AndBits(a, b, bits[..], nbits);
    }

    method Difference(src: Bitset)
      requires Valid() && src.Valid() && nbits == src.nbits
      modifies bits
      ensures Valid() && Marks() == old(Marks()) - old(src.Marks())
    {
      hide Bit, And, Not;
      ghost var a, b := bits[..], src.bits[..];
      var i := Used(nbits);
      while i != 0
        invariant 0 <= i <= bits.Length == src.bits.Length
        invariant forall k | 0 <= k < i :: bits[k] == a[k] && src.bits[k] == b[k]
        invariant forall k | i <= k < bits.Length :: bits[k] == And(a[k], Not(b[k]))
      {
        i := i - 1;
        bits[i] := And(bits[i], Not(src.bits[i]));
      }
      AndNotBits(a, b, bits[..], nbits);
    }

    method SymmetricDifference(src: Bitset)
      requires Valid() && src.Valid() && nbits == src.nbits
      modifies bits
      ensures Valid()
      ensures Marks() == (old(Marks()) - old(src.Marks())) + (old(src.Marks()) - old(Marks()))
    {
      hide Bit, Xor;
      ghost var a, b := bits[..], src.bits[..];
      var i := Used(nbits);
      while i != 0
        invariant 0 <= i <= bits.Length == src.bits.Length
        invariant forall k | 0 <= k < i :: bits[k] == a[k] && src.bits[k] == b[k]
        invariant forall k | i <= k < bits.Length :: bits[k] == Xor(a[k], b[k])
      {
        i := i - 1;
        bits[i] := Xor(bits[i], src.bits[i]);
      }
      XorBits(a, b, bits[..], nbits);
    }

    /** Compares from the last word down; running below word 0 means that all words agreed. */
    method Equal(b: Bitset) returns (r: bool)
      requires Valid() && b.Valid()
      ensures r <==> nbits == b.nbits && Marks() == b.Marks()
    {
      hide Bit;
      if nbits != b.nbits {
        return false;
      }
      var i: int := Used(nbits);
      var agree := true;
      while agree
        invariant -1 <= i <= bits.Length
        invariant i == -1 ==> !agree
        invariant forall k | 0 <= k < bits.Length && (if agree || i == -1 then i <= k else i < k) ::
                    bits[k] == b.bits[k]
        invariant !agree && i != -1 ==> i < bits.Length && bits[i] != b.bits[i]
        decreases agree, i + 1
      {
        i := i - 1;
        agree := i != -1 && bits[i] == b.bits[i];
      }
      r := i == -1;
      EqualIffSameMarks(bits[..], b.bits[..], nbits);
    }

    /** Despite its name, decides whether the argument's marks are among this set's. */
    method IsSubset(b: Bitset) returns (r: bool)
      requires Valid() && b.Valid() && nbits == b.nbits
      ensures r <==> b.Marks() <= Marks()
    {
      hide Bit, Or;
      var i: int := Used(nbits);
      var absorbs := true;
      while absorbs
        invariant -1 <= i <= bits.Length
        invariant i == -1 ==> !absorbs
        invariant forall k | 0 <= k < bits.Length && (if absorbs || i == -1 then i <= k else i < k) ::
                    Or(bits[k], b.bits[k]) == bits[k]
        invariant !absorbs && i != -1 ==> i < bits.Length && Or(bits[i], b.bits[i]) != bits[i]
        decreases absorbs, i + 1
      {
        i := i - 1;
        absorbs := i != -1 && Or(bits[i], b.bits[i]) == bits[i];
      }
      r := i == -1;
      SubsetIffWordsAbsorb(bits[..], b.bits[..], nbits);
    }

    method IsEmpty() returns (r: bool)
      requires Valid()
      ensures r <==> Marks() == {}
    {
      hide Bit;
      var i: int := Used(nbits);
      var zero := true;
      while zero
        invariant -1 <= i <= bits.Length
        invariant i == -1 ==> !zero
        invariant forall k | 0 <= k < bits.Length && (if zero || i == -1 then i <= k else i < k) :: bits[k] == 0
        invariant !zero && i != -1 ==> i < bits.Length && bits[i] != 0
        decreases zero, i + 1
      {
        i := i - 1;
        zero := i != -1 && bits[i] == 0;
      }
      r := i == -1;
      EmptyIffZero(bits[..], nbits);
    }

    method Population() returns (total: nat)
      requires Valid()
      ensures total == |Marks()|
    {
      hide Packed, MarksOf;
      total := 0;
      for i := 0 to nbits
        invariant total == |MarksBelow(Marks(), i)|
      {
        var b := TestBit(i);
        MarksBelowStep(Marks(), i);
        if b {
          total := total + 1;
        }
      }
      MarksBelowAll(bits[..], nbits);
    }
  }

  ghost function MarksBelow(marks: set<nat>, n: nat): set<nat> {
    set m | m in marks && m < n
  }

  lemma MarksBelowStep(marks: set<nat>, n: nat)
    ensures |MarksBelow(marks, n + 1)| == |MarksBelow(marks, n)| + if n in marks then 1 else 0
  {
    assert MarksBelow(marks, n + 1) == MarksBelow(marks, n) + if n in marks then {n} else {};
  }

  lemma MarksBelowAll(ws: seq<Word>, n: nat)
    ensures MarksBelow(MarksOf(ws, n), n) == MarksOf(ws, n)
  {
  }
}
