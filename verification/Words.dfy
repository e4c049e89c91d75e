/** Bits of 64-bit machine words. */
module Words {

  type Word = bv64

  const BITS: nat := 64

  /** The mask of bit j. */
  function Mask(j: Word): Word
    requires j < 64
  {
    1 << j
  }

  predicate Meets(w: Word, m: Word) {
    w & m != 0
  }

  predicate On(w: Word, j: Word)
    requires j < 64
  {
    Meets(w, Mask(j))
  }

  /** The word that stands for bit number k. */
  function Place(k: nat): (j: Word)
    requires k < BITS
    ensures j < 64
  {
    IndexRoundTrip(k);
    k as Word
  }

  lemma PlaceIsUnique(j: nat, k: nat)
    requires j < BITS && k < BITS
    ensures Place(j) == Place(k) <==> j == k
  {
    IndexRoundTrip(j);
    IndexRoundTrip(k);
  }

  lemma PlaceOf(j: Word)
    requires j < 64
    ensures j as nat < BITS && Place(j as nat) == j
  {
    WordRoundTrip(j);
  }

  /** Bit numbers as words and as naturals correspond. */
  lemma IndexRoundTrip(k: nat)
    requires k < 64
    ensures (k as Word) < 64 && (k as Word) as nat == k
  {
    IndexBack(k);
  }

  lemma NextIndex(w: Word)
    requires w < 63
    ensures (w + 1) as nat == w as nat + 1
  {
  }

  lemma Small(w: Word)
    requires w as nat < 63
    ensures w < 63
  {
  }

  lemma {:induction false} WordFor(k: nat) returns (w: Word)
    requires k < 64
    ensures w as nat == k
  {
    if k == 0 {
      w := 0;
    } else {
      w := WordFor(k - 1);
      Small(w);
      NextIndex(w);
      w := w + 1;
    }
  }

  lemma IndexBack(k: nat)
    requires k < 64
    ensures (k as Word) as nat == k
  {
    var w := WordFor(k);
    WordRoundTrip(w);
  }

  lemma WordRoundTrip(j: Word)
    requires j < 64
    ensures j as nat < 64 && (j as nat) as Word == j
  {
  }

  lemma MaskIsOneBit(j: Word)
    requires j < 64
    ensures Mask(j) != 0 && Mask(j) & (Mask(j) - 1) == 0
  {
  }

  lemma MasksDisjoint(j: Word, k: Word)
    requires j < 64 && k < 64 && j != k
    ensures Mask(j) & Mask(k) == 0
  {
  }

  /** A one-bit mask selects all or nothing of itself. */
  lemma AllOrNothing(a: Word, m: Word)
    requires m & (m - 1) == 0
    ensures a & m == 0 || a & m == m
  {
  }

  lemma ZeroOff(j: Word)
    requires j < 64
    ensures !On(0, j)
  {
  }

  lemma OrMask(a: Word, b: Word, m: Word)
    ensures Meets(a | b, m) <==> Meets(a, m) || Meets(b, m)
  {
    assert (a | b) & m == (a & m) | (b & m);
  }

  lemma AndMask(a: Word, b: Word, m: Word)
    requires m & (m - 1) == 0
    ensures Meets(a & b, m) <==> Meets(a, m) && Meets(b, m)
  {
    AllOrNothing(a, m);
    AllOrNothing(b, m);
    assert (a & b) & m == (a & m) & (b & m);
  }

  lemma NotMask(a: Word, m: Word)
    requires m & (m - 1) == 0 && m != 0
    ensures Meets(!a, m) <==> !Meets(a, m)
  {
    AllOrNothing(a, m);
    AllOrNothing(!a, m);
    assert (a & m) | (!a & m) == m;
    assert (a & m) & (!a & m) == 0;
  }

  // The word operations, each under a name that proofs about whole bitsets can use without looking
  // into the bits.

  function Or(a: Word, b: Word): Word { a | b }

  function And(a: Word, b: Word): Word { a & b }

  function Not(a: Word): Word { !a }

  function Xor(a: Word, b: Word): Word { a ^ b }

  lemma OrOn(a: Word, b: Word, j: Word)
    requires j < 64
    ensures On(Or(a, b), j) <==> On(a, j) || On(b, j)
  {
    hide Mask, Meets;
    OrMask(a, b, Mask(j));
  }

  lemma AndOn(a: Word, b: Word, j: Word)
    requires j < 64
    ensures On(And(a, b), j) <==> On(a, j) && On(b, j)
  {
    hide Mask, Meets;
    MaskIsOneBit(j);
    AndMask(a, b, Mask(j));
  }

  lemma NotOn(a: Word, j: Word)
    requires j < 64
    ensures On(Not(a), j) <==> !On(a, j)
  {
    hide Mask, Meets;
    MaskIsOneBit(j);
    NotMask(a, Mask(j));
  }

  lemma XorParts(a: Word, b: Word)
    ensures Xor(a, b) == Or(And(a, Not(b)), And(Not(a), b))
  {
  }

  lemma XorOn(a: Word, b: Word, j: Word)
    requires j < 64
    ensures On(Xor(a, b), j) <==> (On(a, j) <==> !On(b, j))
  {
    hide On, Or, And, Not, Xor;
    XorParts(a, b);
    OrOn(And(a, Not(b)), And(Not(a), b), j);
    AndOn(a, Not(b), j);
    AndOn(Not(a), b, j);
    NotOn(a, j);
    NotOn(b, j);
  }

  lemma SelfMeets(m: Word)
    ensures m & m == m
  {
  }

  lemma MaskOn(j: Word, k: Word)
    requires j < 64 && k < 64
    ensures On(Mask(j), k) <==> j == k
  {
    hide Mask;
    MaskIsOneBit(j);
    SelfMeets(Mask(j));
    if j != k {
      MasksDisjoint(j, k);
    }
  }

  lemma ShiftOne(w: Word, k: Word)
    requires k < 64 && w >> (k + 1) == 0 && !On(w, k)
    ensures w >> k == 0
  {
  }

  lemma {:induction false} UpperBitsOff(w: Word, k: Word)
    requires k <= 64 && forall j: Word | k <= j < 64 :: !On(w, j)
    ensures w >> k == 0
    decreases 64 - k
  {
    if k < 64 {
      UpperBitsOff(w, k + 1);
      ShiftOne(w, k);
    }
  }

  /** A word is zero exactly when all its bits are off. */
  lemma ZeroIffAllOff(w: Word)
    ensures w == 0 <==> forall j: Word | j < 64 :: !On(w, j)
  {
    if w == 0 {
      forall j: Word | j < 64 ensures !On(w, j) {
        ZeroOff(j);
      }
    }
    if forall j: Word | j < 64 :: !On(w, j) {
      UpperBitsOff(w, 0);
      assert w >> 0 == w;
    }
  }

  /** Words are equal exactly when all their bits agree. */
  lemma EqualIffBitsAgree(a: Word, b: Word)
    ensures a == b <==> forall j: Word | j < 64 :: On(a, j) <==> On(b, j)
  {
    hide On, Xor;
    if forall j: Word | j < 64 :: On(a, j) <==> On(b, j) {
      forall j: Word {:trigger On(Xor(a, b), j)} | j < 64 ensures !On(Xor(a, b), j) {
        XorOn(a, b, j);
      }
      ZeroIffAllOff(Xor(a, b));
      XorZero(a, b);
    }
  }

  lemma XorZero(a: Word, b: Word)
    requires Xor(a, b) == 0
    ensures a == b
  {
  }

  /** b adds nothing to a exactly when every bit of b is on in a. */
  lemma OrAbsorbs(a: Word, b: Word)
    ensures Or(a, b) == a <==> forall j: Word | j < 64 && On(b, j) :: On(a, j)
  {
    hide On, Or;
    forall j: Word {:trigger On(Or(a, b), j)} | j < 64
      ensures On(Or(a, b), j) <==> On(a, j) || On(b, j)
    {
      OrOn(a, b, j);
    }
    EqualIffBitsAgree(Or(a, b), a);
  }
}
