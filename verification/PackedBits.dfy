/** Sequences of words as sets of naturals. */
module PackedBits {
  import opened Words

  /** Words needed for n bits. */
  function Used(n: nat): nat {
    (n + (BITS - 1)) / BITS
  }

  /** Bit i of a word sequence. */
  predicate Bit(ws: seq<Word>, i: nat)
    requires i < BITS * |ws|
  {
    On(ws[i / BITS], Place(i % BITS))
  }

  ghost function MarksOf(ws: seq<Word>, n: nat): set<nat> {
    set i | 0 <= i < n && i < BITS * |ws| && Bit(ws, i)
  }

  /** The words hold n bits, and the padding bits of the last word are off. */
  ghost predicate Packed(ws: seq<Word>, n: nat) {
    && |ws| == Used(n)
    && forall i | n <= i < BITS * |ws| :: !Bit(ws, i)
  }

  lemma UsedBounds(n: nat)
    ensures n <= BITS * Used(n) < n + BITS
  {
  }

  /** Every bit of word k is bit number 64k + j of the sequence. */
  lemma BitOfWord(ws: seq<Word>, k: nat, j: Word)
    requires k < |ws| && j < 64
    ensures BITS * k + j as nat < BITS * |ws|
    ensures Bit(ws, BITS * k + j as nat) <==> On(ws[k], j)
  {
    PlaceOf(j);
    Position(k, j as nat);
  }

  lemma Position(k: nat, j: nat)
    requires j < BITS
    ensures (BITS * k + j) / BITS == k && (BITS * k + j) % BITS == j
  {
  }

  lemma OrBits(a: seq<Word>, b: seq<Word>, c: seq<Word>, n: nat)
    requires |a| == |b| == |c| && forall k | 0 <= k < |a| :: c[k] == Or(a[k], b[k])
    ensures forall i | 0 <= i < BITS * |a| :: Bit(c, i) <==> Bit(a, i) || Bit(b, i)
    ensures MarksOf(c, n) == MarksOf(a, n) + MarksOf(b, n)
  {
    hide Place, On, Or;
    forall i | 0 <= i < BITS * |a|
      ensures Bit(c, i) <==> Bit(a, i) || Bit(b, i)
    {
      OrOn(a[i / BITS], b[i / BITS], Place(i % BITS));
    }
  }

  lemma AndBits(a: seq<Word>, b: seq<Word>, c: seq<Word>, n: nat)
    requires |a| == |b| == |c| && forall k | 0 <= k < |a| :: c[k] == And(a[k], b[k])
    ensures forall i | 0 <= i < BITS * |a| :: Bit(c, i) <==> Bit(a, i) && Bit(b, i)
    ensures MarksOf(c, n) == MarksOf(a, n) * MarksOf(b, n)
  {
    hide Place, On, And;
    forall i | 0 <= i < BITS * |a|
      ensures Bit(c, i) <==> Bit(a, i) && Bit(b, i)
    {
      AndOn(a[i / BITS], b[i / BITS], Place(i % BITS));
    }
  }

  lemma AndNotBits(a: seq<Word>, b: seq<Word>, c: seq<Word>, n: nat)
    requires |a| == |b| == |c| && forall k | 0 <= k < |a| :: c[k] == And(a[k], Not(b[k]))
    ensures forall i | 0 <= i < BITS * |a| :: Bit(c, i) <==> Bit(a, i) && !Bit(b, i)
    ensures MarksOf(c, n) == MarksOf(a, n) - MarksOf(b, n)
  {
    hide Place, On, And, Not;
    forall i | 0 <= i < BITS * |a|
      ensures Bit(c, i) <==> Bit(a, i) && !Bit(b, i)
    {
      AndOn(a[i / BITS], Not(b[i / BITS]), Place(i % BITS));
      NotOn(b[i / BITS], Place(i % BITS));
    }
  }

  lemma XorBits(a: seq<Word>, b: seq<Word>, c: seq<Word>, n: nat)
    requires |a| == |b| == |c| && forall k | 0 <= k < |a| :: c[k] == Xor(a[k], b[k])
    ensures forall i | 0 <= i < BITS * |a| :: Bit(c, i) <==> (Bit(a, i) <==> !Bit(b, i))
    ensures MarksOf(c, n) == (MarksOf(a, n) - MarksOf(b, n)) + (MarksOf(b, n) - MarksOf(a, n))
  {
    hide Place, On, Xor;
    forall i | 0 <= i < BITS * |a|
      ensures Bit(c, i) <==> (Bit(a, i) <==> !Bit(b, i))
    {
      XorOn(a[i / BITS], b[i / BITS], Place(i % BITS));
    }
  }

  lemma ZeroBits(a: seq<Word>)
    requires forall k | 0 <= k < |a| :: a[k] == 0
    ensures forall i | 0 <= i < BITS * |a| :: !Bit(a, i)
  {
    hide Place, On;
    forall i | 0 <= i < BITS * |a| ensures !Bit(a, i) {
      ZeroOff(Place(i % BITS));
    }
  }

  /** Setting a bit. */
  lemma SetBits(a: seq<Word>, pos: nat, c: seq<Word>)
    requires pos < BITS * |a|
    requires c == a[pos / BITS := Or(a[pos / BITS], Mask(Place(pos % BITS)))]
    ensures forall i | 0 <= i < BITS * |a| :: Bit(c, i) <==> i == pos || Bit(a, i)
  {
    hide Place, On, Or, Mask;
    forall i | 0 <= i < BITS * |a|
      ensures Bit(c, i) <==> i == pos || Bit(a, i)
    {
      SetInWord(a, pos / BITS, pos % BITS, c, i / BITS, i % BITS);
      SamePlace(i, pos);
    }
  }

  lemma SetInWord(a: seq<Word>, q: nat, p: nat, c: seq<Word>, k: nat, j: nat)
    requires q < |a| && k < |a| && p < BITS && j < BITS && c == a[q := Or(a[q], Mask(Place(p)))]
    ensures On(c[k], Place(j)) <==> (k == q && j == p) || On(a[k], Place(j))
  {
    hide Place, On, Or, Mask;
    WordWithBit(a[q], p, j);
  }

  lemma WordWithBit(w: Word, p: nat, k: nat)
    requires p < BITS && k < BITS
    ensures On(Or(w, Mask(Place(p))), Place(k)) <==> k == p || On(w, Place(k))
  {
    hide Place, On, Or, Mask;
    PlaceIsUnique(p, k);
    OrOn(w, Mask(Place(p)), Place(k));
    MaskOn(Place(p), Place(k));
  }

  /** Clearing a bit. */
  lemma ClearBits(a: seq<Word>, pos: nat, c: seq<Word>)
    requires pos < BITS * |a|
    requires c == a[pos / BITS := And(a[pos / BITS], Not(Mask(Place(pos % BITS))))]
    ensures forall i | 0 <= i < BITS * |a| :: Bit(c, i) <==> i != pos && Bit(a, i)
  {
    hide Place, On, And, Not, Mask;
    forall i | 0 <= i < BITS * |a|
      ensures Bit(c, i) <==> i != pos && Bit(a, i)
    {
      ClearInWord(a, pos / BITS, pos % BITS, c, i / BITS, i % BITS);
      SamePlace(i, pos);
    }
  }

  lemma ClearInWord(a: seq<Word>, q: nat, p: nat, c: seq<Word>, k: nat, j: nat)
    requires q < |a| && k < |a| && p < BITS && j < BITS && c == a[q := And(a[q], Not(Mask(Place(p))))]
    ensures On(c[k], Place(j)) <==> !(k == q && j == p) && On(a[k], Place(j))
  {
    hide Place, On, And, Not, Mask;
    WordWithoutBit(a[q], p, j);
  }

  lemma WordWithoutBit(w: Word, p: nat, k: nat)
    requires p < BITS && k < BITS
    ensures On(And(w, Not(Mask(Place(p)))), Place(k)) <==> k != p && On(w, Place(k))
  {
    hide Place, On, And, Not, Mask;
    PlaceIsUnique(p, k);
    AndOn(w, Not(Mask(Place(p))), Place(k));
    NotOn(Mask(Place(p)), Place(k));
    MaskOn(Place(p), Place(k));
  }

  lemma SamePlace(i: nat, k: nat)
    ensures i == k <==> i / BITS == k / BITS && i % BITS == k % BITS
  {
  }

  /** A set bit of a packed sequence is one of its n bits. */
  lemma MarkOfBit(ws: seq<Word>, n: nat, i: nat)
    requires Packed(ws, n) && i < BITS * |ws|
    ensures Bit(ws, i) <==> i in MarksOf(ws, n)
  {
    hide Place, Bit;
  }

  /** Adding b changes no word of a exactly when b's marks are among a's. */
  lemma SubsetIffWordsAbsorb(a: seq<Word>, b: seq<Word>, n: nat)
    requires Packed(a, n) && Packed(b, n)
    ensures (forall k | 0 <= k < |a| :: Or(a[k], b[k]) == a[k]) <==> MarksOf(b, n) <= MarksOf(a, n)
  {
    hide Place, On, Or, Bit;
    if forall k | 0 <= k < |a| :: Or(a[k], b[k]) == a[k] {
      forall i | i in MarksOf(b, n) ensures i in MarksOf(a, n) {
        OrBits(a, b, a, n);
      }
    }
    if MarksOf(b, n) <= MarksOf(a, n) {
      forall k | 0 <= k < |a| ensures Or(a[k], b[k]) == a[k] {
        forall j: Word | j < 64 && On(b[k], j) ensures On(a[k], j) {
          BitOfWord(a, k, j);
          BitOfWord(b, k, j);
          MarkOfBit(a, n, BITS * k + j as nat);
          MarkOfBit(b, n, BITS * k + j as nat);
        }
        OrAbsorbs(a[k], b[k]);
      }
    }
  }

  /** Packed sequences are equal exactly when they hold the same marks. */
  lemma EqualIffSameMarks(a: seq<Word>, b: seq<Word>, n: nat)
    requires Packed(a, n) && Packed(b, n)
    ensures a == b <==> MarksOf(a, n) == MarksOf(b, n)
  {
    hide Place, On, Bit;
    if MarksOf(a, n) == MarksOf(b, n) {
      forall k | 0 <= k < |a| ensures a[k] == b[k] {
        forall j: Word | j < 64 ensures On(a[k], j) <==> On(b[k], j) {
          BitOfWord(a, k, j);
          BitOfWord(b, k, j);
          MarkOfBit(a, n, BITS * k + j as nat);
          MarkOfBit(b, n, BITS * k + j as nat);
        }
        EqualIffBitsAgree(a[k], b[k]);
      }
    }
  }

  /** A packed sequence holds no marks exactly when all its words are zero. */
  lemma EmptyIffZero(a: seq<Word>, n: nat)
    requires Packed(a, n)
    ensures (forall k | 0 <= k < |a| :: a[k] == 0) <==> MarksOf(a, n) == {}
  {
    hide Place, Bit;
    var z := seq(|a|, _ => 0 as Word);
    ZeroBits(z);
    assert MarksOf(z, n) == {};
    EqualIffSameMarks(a, z, n);
  }

  lemma UsedMonotonic(m: nat, n: nat)
    requires m <= n
    ensures Used(m) <= Used(n)
  {
  }

  /** Overwriting the first words of a by those of b, which holds m <= n bits. */
  lemma CopyBits(a: seq<Word>, b: seq<Word>, c: seq<Word>, n: nat, m: nat)
    requires Packed(a, n) && Packed(b, m) && m <= n && |b| <= |a| && c == b + a[|b|..]
    ensures Packed(c, n)
    ensures MarksOf(c, n) == MarksOf(b, m) + set i | i in MarksOf(a, n) && i >= BITS * Used(m)
    ensures m == n ==> MarksOf(c, n) == MarksOf(b, m)
  {
    hide Place, On;
    UsedBounds(m);
    forall i | 0 <= i < BITS * |a|
      ensures Bit(c, i) <==> if i < BITS * |b| then Bit(b, i) else Bit(a, i)
    {
      if i < BITS * |b| {
        assert i / BITS < |b|;
      } else {
        assert i / BITS >= |b|;
      }
    }
  }
}
