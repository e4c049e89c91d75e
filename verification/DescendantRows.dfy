/** The redundant descendant maps of the blocks, on values, as the code fills them.

    Looking a block up in a `std::map` by `operator[]` inserts the key with a NULL value, and the loop that
    takes a moved block out of the maps erases every key of its own map, the ones with NULL values included.
    So a row keeps its keys apart from the blocks it counts. */
module DescendantRows {
  import opened PostDominance

  /** The descendant map of one block: true where a block is stored, false where NULL is. */
  type Row = map<Addr, bool>

  /** The descendant maps of all blocks. */
  type Rows = map<Addr, Row>

  predicate Counts(r: Row, d: Addr) {
    d in r && r[d]
  }

  /** A lookup of d. */
  function Ask(r: Row, d: Addr): Row {
    if d in r then r else r[d := false]
  }

  function Put(r: Row, d: Addr): Row {
    r[d := true]
  }

  /** The blocks that count d. */
  ghost function Counting(T: Rows, d: Addr): set<Addr> {
    set a | a in T && Counts(T[a], d)
  }

  ghost function AskAlong(T: Rows, along: set<Addr>, d: Addr): Rows {
    map a | a in T :: if a in along then Ask(T[a], d) else T[a]
  }

  ghost function PutAlong(T: Rows, along: set<Addr>, d: Addr): Rows {
    map a | a in T :: if a in along then Put(T[a], d) else T[a]
  }

  ghost function EraseAlong(T: Rows, along: set<Addr>, gone: set<Addr>): Rows {
    map a | a in T :: if a in along then T[a] - gone else T[a]
  }

  /** Where the climb from c ends: at the first block of `stops`, or at the return block. */
  ghost function Found(f: Forest, stops: set<Addr>, c: Addr): (n: Addr)
    requires f.Valid() && c in f.rank
    ensures n in f.rank
    decreases f.rank[c]
  {
    if c in stops || c == RETURN then c else Found(f, stops, f.parent[c])
  }

  /** The blocks in which the climb from c looks, the last one included. */
  ghost function Climbed(f: Forest, stops: set<Addr>, c: Addr): set<Addr>
    requires f.Valid() && c in f.rank
    decreases f.rank[c]
  {
    {c} + if c in stops || c == RETURN then {} else Climbed(f, stops, f.parent[c])
  }

  /** The chain from q up to, but not including, n; the whole chain if n is not on it. */
  ghost function Passed(f: Forest, q: Addr, n: Addr): set<Addr>
    requires f.Valid() && q in f.rank
    decreases f.rank[q]
  {
    if q == n then {} else {q} + if q in f.parent then Passed(f, f.parent[q], n) else {}
  }

  /** The parent that p gets when the edge from p to c is visited. */
  ghost function NewParent(f: Forest, T: Rows, c: Addr, p: Addr): (n: Addr)
    requires f.Valid() && c in f.rank
    ensures n in f.rank
  {
    if p in f.parent then Found(f, Counting(T, p), c) else c
  }

  /** The tree of pointers after p's has been set to n. */
  ghost function Relinked(f: Forest, p: Addr, n: Addr): Forest
    requires n in f.rank
  {
    if p in f.parent then f.Move(p, n) else f.Attach(p, n)
  }

  /** The rows after the climb that looks for p from c. */
  ghost function AskedRows(f: Forest, T: Rows, c: Addr, p: Addr): Rows
    requires f.Valid() && c in f.rank
  {
    AskAlong(T, Climbed(f, Counting(T, p), c), p)
  }

  /** The rows after p has moved: every key of p's row is erased up to the new parent. */
  ghost function MovedRows(f: Forest, T: Rows, c: Addr, p: Addr): Rows
    requires f.Valid() && c in f.rank && p in f.parent && p in T
  {
    var A := AskedRows(f, T, c, p);
    EraseAlong(A, Passed(f, f.parent[p], NewParent(f, T, c, p)), {p} + A[p].Keys)
  }

  /** The rows after the edge from p to c has been visited. */
  ghost function VisitedRows(f: Forest, T: Rows, c: Addr, p: Addr): Rows
    requires f.Valid() && c in f.rank && p in T
  {
    if p in f.parent then MovedRows(f, T, c, p) else PutAlong(T, f.Up(c), p)
  }

  lemma VisitedKeys(f: Forest, T: Rows, c: Addr, p: Addr)
    requires f.Valid() && c in f.rank && p in T
    ensures VisitedRows(f, T, c, p).Keys == T.Keys
  {
  }

  // ---------------------------------------------------------------- the climb

  /** The climb ends at the lowest common ancestor if and only if the blocks below that ancestor do not count
      p and the ancestor does, unless it is the return block. */
  lemma {:induction false} FoundIsCommonIff(f: Forest, stops: set<Addr>, c: Addr, p: Addr)
    requires f.Valid() && c in f.rank && p in f.parent
    ensures var n := f.Common(c, p);
            Found(f, stops, c) == n <==> Passed(f, c, n) !! stops && (n == RETURN || n in stops)
    decreases f.rank[c]
  {
    var n := f.Common(c, p);
    if c == RETURN || f.Above(c, p) {
      if c in f.parent && c !in stops {
        FoundAbove(f, stops, f.parent[c]);
        f.UpStep(c);
      }
    } else {
      CommonAbove(f, f.parent[c], p);
      f.UpStep(c);
      FoundIsCommonIff(f, stops, f.parent[c], p);
    }
  }

  lemma {:induction false} FoundAbove(f: Forest, stops: set<Addr>, c: Addr)
    requires f.Valid() && c in f.rank
    ensures Found(f, stops, c) in f.Up(c)
    decreases f.rank[c]
  {
    if !(c in stops || c == RETURN) {
      FoundAbove(f, stops, f.parent[c]);
    }
  }

  lemma {:induction false} CommonAbove(f: Forest, c: Addr, p: Addr)
    requires f.Valid() && c in f.rank
    ensures f.Common(c, p) in f.Up(c)
    decreases f.rank[c]
  {
    if !(c == RETURN || f.Above(c, p)) {
      CommonAbove(f, f.parent[c], p);
    }
  }

  /** Rows that count p exactly at its ancestors lead the climb to the lowest common ancestor. */
  lemma {:induction false} FoundIsCommon(f: Forest, stops: set<Addr>, c: Addr, p: Addr)
    requires f.Valid() && c in f.rank && p in f.parent
    requires forall a | a in f.rank :: a in stops <==> f.Above(a, p)
    ensures Found(f, stops, c) == f.Common(c, p)
    decreases f.rank[c]
  {
    if !(c == RETURN || f.Above(c, p)) {
      FoundIsCommon(f, stops, f.parent[c], p);
    }
  }

  lemma {:induction false} PassedBetween(f: Forest, q: Addr, n: Addr)
    requires f.Valid() && q in f.rank && n in f.Up(q)
    ensures n in f.rank && Passed(f, q, n) == f.Up(q) - f.Up(n)
    decreases f.rank[q]
  {
    f.UpTransitive(q, n);
    if q != n {
      f.UpStep(q);
      PassedBetween(f, f.parent[q], n);
      assert q !in f.Up(n) by {
        if q in f.Up(n) { f.UpTransitive(n, q); }
      }
    }
  }

  // ---------------------------------------------------------------- rows that follow the tree

  /** Every row counts exactly the strict tree descendants, as far as blocks outside `asked` go. */
  ghost predicate CountsBelow(f: Forest, asked: set<Addr>, T: Rows)
    requires f.Valid()
  {
    forall a, d | a in T && d !in asked :: Counts(T[a], d) <==> f.Above(a, d)
  }

  /** Only blocks of `asked` have NULL entries. */
  ghost predicate NullsIn(T: Rows, asked: set<Addr>) {
    forall a, k | a in T && k in T[a] && !T[a][k] :: k in asked
  }

  /** The rows follow the tree except for the blocks of `asked`, those that have been looked up. */
  ghost predicate Tracks(f: Forest, asked: set<Addr>, T: Rows) {
    f.Valid() && CountsBelow(f, asked, T) && NullsIn(T, asked)
  }

  lemma TracksMore(f: Forest, asked: set<Addr>, more: set<Addr>, T: Rows)
    requires Tracks(f, asked, T) && asked <= more
    ensures Tracks(f, more, T)
  {
  }

  /** An attach adds the new block to the descendants of the blocks above it, and to no others. */
  lemma AttachAbove(f: Forest, p: Addr, c: Addr, a: Addr, d: Addr)
    requires f.Valid() && c in f.rank && p !in f.rank
    ensures f.Attach(p, c).Valid()
    ensures f.Attach(p, c).Above(a, d) <==> if d == p then a in f.Up(c) else f.Above(a, d)
  {
    f.AttachUp(p, c, c);
    if d in f.parent {
      f.AttachUp(p, c, f.parent[d]);
    }
  }

  lemma AttachTracks(f: Forest, asked: set<Addr>, T: Rows, c: Addr, p: Addr)
    requires Tracks(f, asked, T) && c in f.rank && p !in f.rank && p in T
    ensures Tracks(f.Attach(p, c), asked, VisitedRows(f, T, c, p))
  {
    hide Forest.Up, Forest.Above, Forest.Valid, Counts, VisitedRows;
    f.AttachUp(p, c, c);
    var f', T' := f.Attach(p, c), VisitedRows(f, T, c, p);
    VisitedKeys(f, T, c, p);
    forall a, d | a in T' && d !in asked
      ensures Counts(T'[a], d) <==> f'.Above(a, d)
    {
      AttachAbove(f, p, c, a, d);
      AttachedCounts(f, T, c, p, a, d);
      NotAttached(f, p, a);
    }
    AttachNulls(f, asked, T, c, p);
  }

  lemma NotAttached(f: Forest, p: Addr, a: Addr)
    requires f.Valid() && p !in f.rank
    ensures !f.Above(a, p)
  {
  }

  /** What the rows count after an attach, entry by entry. */
  lemma AttachedCounts(f: Forest, T: Rows, c: Addr, p: Addr, a: Addr, d: Addr)
    requires f.Valid() && c in f.rank && p !in f.rank && p in T && a in T
    ensures a in VisitedRows(f, T, c, p)
    ensures Counts(VisitedRows(f, T, c, p)[a], d) <==> Counts(T[a], d) || (d == p && a in f.Up(c))
  {
  }

  lemma AttachNulls(f: Forest, asked: set<Addr>, T: Rows, c: Addr, p: Addr)
    requires f.Valid() && NullsIn(T, asked) && c in f.rank && p !in f.rank && p in T
    ensures NullsIn(VisitedRows(f, T, c, p), asked)
  {
  }

  /** A move takes p's subtree from the descendants of the blocks between its old parent and n. */
  lemma MoveAbove(f: Forest, p: Addr, n: Addr, a: Addr, d: Addr)
    requires f.Valid() && p in f.parent && n in f.Up(f.parent[p])
    ensures f.Move(p, n).Valid() && n in f.rank
    ensures f.Move(p, n).Above(a, d) <==>
            f.Above(a, d) && !(a in f.Up(f.parent[p]) - f.Up(n) && (d == p || f.Above(p, d)))
  {
    f.UpTransitive(f.parent[p], n);
    f.MoveUp(p, n, n);
    if d in f.parent {
      f.MoveUp(p, n, f.parent[d]);
    }
    if p in f.Up(n) {
      f.UpTransitive(n, p);
    }
  }

  /** What the rows count after a move, entry by entry. */
  lemma MovedCounts(f: Forest, T: Rows, c: Addr, p: Addr, a: Addr, d: Addr)
    requires f.Valid() && c in f.rank && p in f.parent && p in T && a in T
    ensures a in MovedRows(f, T, c, p)
    ensures var passed := Passed(f, f.parent[p], NewParent(f, T, c, p));
            Counts(MovedRows(f, T, c, p)[a], d) <==>
            Counts(T[a], d) && !(a in passed && (d == p || d in T[p]))
  {
  }

  /** p's row holds a NULL entry for k, which a block passed by p's move up to n has as a descendant. */
  ghost predicate Loses(f: Forest, T: Rows, p: Addr, n: Addr, a: Addr, k: Addr)
    requires f.Valid() && p in f.parent && n in f.rank
  {
    && a in T && a in f.Up(f.parent[p]) - f.Up(n) && f.Above(a, k)
    && k != p && p in T && k in T[p] && !T[p][k]
  }

  /** Where the rows of a and p are right about d before a move, a's row is right about it afterwards unless
      it loses d. */
  lemma MoveEntry(f: Forest, T: Rows, c: Addr, p: Addr, a: Addr, d: Addr)
    requires f.Valid() && c in f.rank && p in f.parent && p in T && a in T
    requires NewParent(f, T, c, p) == f.Common(c, p)
    requires Counts(T[a], d) <==> f.Above(a, d)
    requires d != p ==> (Counts(T[p], d) <==> f.Above(p, d))
    ensures var n, T' := f.Common(c, p), VisitedRows(f, T, c, p);
            && f.Move(p, n).Valid() && a in T'
            && ((Counts(T'[a], d) <==> f.Move(p, n).Above(a, d)) <==> !Loses(f, T, p, n, a, d))
  {
    f.CommonIsLowest(c, p);
    var n := f.Common(c, p);
    MoveAbove(f, p, n, a, d);
    MovedCounts(f, T, c, p, a, d);
    PassedBetween(f, f.parent[p], n);
  }

  lemma MoveNulls(f: Forest, asked: set<Addr>, T: Rows, c: Addr, p: Addr)
    requires f.Valid() && NullsIn(T, asked) && c in f.rank && p in f.parent && p in T
    ensures NullsIn(MovedRows(f, T, c, p), asked + {p})
  {
  }

  /** A visit to a block that was never looked up takes the right parent, and the rows go on following the
      tree. */
  lemma MoveTracks(f: Forest, asked: set<Addr>, T: Rows, c: Addr, p: Addr)
    requires Tracks(f, asked, T) && c in f.rank && p in f.parent && p !in asked && f.rank.Keys <= T.Keys
    ensures NewParent(f, T, c, p) == f.Common(c, p)
    ensures Tracks(f.Move(p, f.Common(c, p)), asked + {p}, VisitedRows(f, T, c, p))
  {
    assert p in T;
    assert NewParent(f, T, c, p) == f.Common(c, p) by {
      FoundIsCommon(f, Counting(T, p), c, p);
    }
    MoveNulls(f, asked, T, c, p);
    hide Counts, Forest.Above, Forest.Common, Forest.Up, MovedRows, NewParent;
    MoveEntry(f, T, c, p, p, p);
    var f', T' := f.Move(p, f.Common(c, p)), VisitedRows(f, T, c, p);
    VisitedKeys(f, T, c, p);
    forall a, d | a in T' && d !in asked + {p}
      ensures Counts(T'[a], d) <==> f'.Above(a, d)
    {
      MoveEntry(f, T, c, p, a, d);
    }
  }

  // ---------------------------------------------------------------- what holds of all rows

  /** Block d is farther from the return block than a. */
  ghost predicate Farther(f: Forest, a: Addr, d: Addr) {
    a in f.rank && d in f.rank && f.rank[a] < f.rank[d]
  }

  /** A row only counts blocks farther from the return block than its own. */
  ghost predicate ByRank(f: Forest, T: Rows) {
    forall a, d | a in T && Counts(T[a], d) :: Farther(f, a, d)
  }

  lemma {:induction false} FoundStops(f: Forest, stops: set<Addr>, c: Addr)
    requires f.Valid() && c in f.rank
    ensures Found(f, stops, c) in stops || Found(f, stops, c) == RETURN
    decreases f.rank[c]
  {
    if !(c in stops || c == RETURN) {
      FoundStops(f, stops, f.parent[c]);
    }
  }

  /** Wherever the climb ends, it is nearer to the return block than the block looked up. */
  lemma FoundLower(f: Forest, T: Rows, c: Addr, p: Addr)
    requires f.Valid() && ByRank(f, T) && c in f.rank && p in f.parent
    ensures f.rank[NewParent(f, T, c, p)] < f.rank[p]
  {
    FoundStops(f, Counting(T, p), c);
    f.UpBasics(f.parent[p]);
    f.UpTransitive(f.parent[p], RETURN);
  }

  lemma RelinkedValid(f: Forest, p: Addr, n: Addr)
    requires f.Valid() && n in f.rank && p != RETURN && (p in f.parent ==> f.rank[n] < f.rank[p])
    ensures Relinked(f, p, n).Valid() && Relinked(f, p, n).rank.Keys == f.rank.Keys + {p}
    ensures forall a | a in f.rank :: Relinked(f, p, n).rank[a] == f.rank[a]
    ensures p !in f.parent ==> p !in f.rank && Relinked(f, p, n).rank[p] == f.rank[n] + 1
  {
  }

  /** Whatever the rows count, a visit leaves a tree. */
  lemma VisitedValid(f: Forest, T: Rows, c: Addr, p: Addr)
    requires f.Valid() && ByRank(f, T) && c in f.rank && p != RETURN
    ensures Relinked(f, p, NewParent(f, T, c, p)).Valid()
    ensures Relinked(f, p, NewParent(f, T, c, p)).rank.Keys == f.rank.Keys + {p}
    ensures forall a | a in f.rank :: Relinked(f, p, NewParent(f, T, c, p)).rank[a] == f.rank[a]
  {
    hide NewParent, Relinked, ByRank, Forest.Valid;
    if p in f.parent {
      FoundLower(f, T, c, p);
    }
    RelinkedValid(f, p, NewParent(f, T, c, p));
  }

  lemma VisitedByRank(f: Forest, T: Rows, c: Addr, p: Addr)
    requires f.Valid() && ByRank(f, T) && c in f.rank && p != RETURN && p in T
    ensures ByRank(Relinked(f, p, NewParent(f, T, c, p)), VisitedRows(f, T, c, p))
  {
    hide VisitedRows, NewParent, Relinked, Forest.Valid, Counts, Farther;
    VisitedKeys(f, T, c, p);
    var f', T' := Relinked(f, p, NewParent(f, T, c, p)), VisitedRows(f, T, c, p);
    forall a, d | a in T' && Counts(T'[a], d) ensures Farther(f', a, d) {
      StaysFarther(f, T, c, p, a, d);
    }
  }

  lemma StaysFarther(f: Forest, T: Rows, c: Addr, p: Addr, a: Addr, d: Addr)
    requires f.Valid() && ByRank(f, T) && c in f.rank && p != RETURN && p in T
    requires a in T && a in VisitedRows(f, T, c, p) && Counts(VisitedRows(f, T, c, p)[a], d)
    ensures Farther(Relinked(f, p, NewParent(f, T, c, p)), a, d)
  {
    hide VisitedRows, NewParent, Relinked, Forest.Valid, Counts, ByRank;
    VisitedValid(f, T, c, p);
    CountedBefore(f, T, c, p, a, d);
    if Counts(T[a], d) {
      CountsByRank(f, T, a, d);
    }
  }

  lemma CountsByRank(f: Forest, T: Rows, a: Addr, d: Addr)
    requires ByRank(f, T) && a in T && Counts(T[a], d)
    ensures Farther(f, a, d)
  {
  }

  /** A row that counts d after a visit counted it before, or d has just been attached below it. */
  lemma CountedBefore(f: Forest, T: Rows, c: Addr, p: Addr, a: Addr, d: Addr)
    requires f.Valid() && c in f.rank && p != RETURN && p in T && a in T
    ensures a in VisitedRows(f, T, c, p)
    ensures Counts(VisitedRows(f, T, c, p)[a], d) ==>
              || Counts(T[a], d)
              || (d == p && p !in f.parent && a in f.rank && f.rank[a] <= f.rank[c] &&
                  Relinked(f, p, NewParent(f, T, c, p)).rank[p] == f.rank[c] + 1)
  {
    hide MovedRows, Counts;
    if p in f.parent {
      MovedCounts(f, T, c, p, a, d);
    } else {
      AttachedCounts(f, T, c, p, a, d);
      if a in f.Up(c) {
        AttachedRank(f, T, c, p, a);
      }
    }
  }

  lemma AttachedRank(f: Forest, T: Rows, c: Addr, p: Addr, a: Addr)
    requires f.Valid() && c in f.rank && p !in f.rank && a in f.Up(c)
    ensures a in f.rank && f.rank[a] <= f.rank[c]
    ensures NewParent(f, T, c, p) == c && Relinked(f, p, c).rank[p] == f.rank[c] + 1
  {
    f.UpTransitive(c, a);
  }

  // ---------------------------------------------------------------- when a move keeps the rows right

  /** All rows count exactly the strict tree descendants. */
  ghost predicate Exact(f: Forest, T: Rows)
    requires f.Valid()
  {
    CountsBelow(f, {}, T)
  }

  /** A move from exact rows takes the right parent, and it leaves the rows exact if and only if no block it
      passes has a descendant for which p's row holds a NULL entry. */
  lemma MoveExactIff(f: Forest, T: Rows, c: Addr, p: Addr)
    requires f.Valid() && Exact(f, T) && c in f.rank && p in f.parent && f.rank.Keys <= T.Keys
    ensures var n := f.Common(c, p);
            && NewParent(f, T, c, p) == n && f.Move(p, n).Valid()
            && (Exact(f.Move(p, n), VisitedRows(f, T, c, p)) <==> forall a, k :: !Loses(f, T, p, n, a, k))
  {
    hide Counts, Forest.Above, Forest.Common, Forest.Up, Forest.Valid, VisitedRows, NewParent, Exact, Loses;
    ExactFinds(f, T, c, p);
    var n := f.Common(c, p);
    EntriesOnly(f, T, f.Move(p, n), VisitedRows(f, T, c, p), p, n);
  }

  /** Exact rows lead the climb to the lowest common ancestor. */
  lemma ExactFinds(f: Forest, T: Rows, c: Addr, p: Addr)
    requires f.Valid() && Exact(f, T) && c in f.rank && p in f.parent && f.rank.Keys <= T.Keys
    ensures p in T
    ensures var n, T' := f.Common(c, p), VisitedRows(f, T, c, p);
            && NewParent(f, T, c, p) == n && f.Move(p, n).Valid() && T'.Keys == T.Keys
            && forall a, d | a in T ::
                 (Counts(T'[a], d) <==> f.Move(p, n).Above(a, d)) <==> !Loses(f, T, p, n, a, d)
  {
    hide Counts, Forest.Above, Forest.Common, Forest.Up, VisitedRows, Loses;
    assert NewParent(f, T, c, p) == f.Common(c, p) by {
      CountsParents(f, T, p);
      FoundIsCommon(f, Counting(T, p), c, p);
    }
    hide NewParent;
    var n := f.Common(c, p);
    assert p in T;
    VisitedKeys(f, T, c, p);
    MoveEntry(f, T, c, p, p, p);
    forall a, d | a in T
      ensures (Counts(VisitedRows(f, T, c, p)[a], d) <==> f.Move(p, n).Above(a, d)) <==> !Loses(f, T, p, n, a, d)
    {
      MoveEntry(f, T, c, p, a, d);
    }
  }

  lemma CountsParents(f: Forest, T: Rows, p: Addr)
    requires f.Valid() && Exact(f, T) && f.rank.Keys <= T.Keys
    ensures forall a | a in f.rank :: a in Counting(T, p) <==> f.Above(a, p)
  {
  }

  lemma EntriesOnly(f: Forest, T: Rows, f': Forest, T': Rows, p: Addr, n: Addr)
    requires f.Valid() && p in f.parent && n in f.rank && f'.Valid() && T'.Keys == T.Keys
    requires forall a, d | a in T :: (Counts(T'[a], d) <==> f'.Above(a, d)) <==> !Loses(f, T, p, n, a, d)
    ensures Exact(f', T') <==> forall a, k :: !Loses(f, T, p, n, a, k)
  {
    hide Counts, Forest.Above, Forest.Up, Forest.Valid;
  }
}
