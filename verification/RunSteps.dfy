/** Running the pass by hand: one lemma for each kind of step, and how the climb and the erasing walk go along
    a given chain. */
module RunSteps {
  import opened PostDominance
  import opened PostDominancePass
  import opened DescendantRows
  import opened KeyedPass

  /** tr is a run that ends in s, whose pointers form a tree and which has rows for all blocks. */
  ghost predicate Arrives(g: Graph, tr: seq<Keyed>, s: Keyed) {
    && WellFormed(g) && IsKeyedRun(g, tr) && s == tr[|tr| - 1]
    && Rooted(s) && s.rows.Keys == g.Keys
  }

  /** The rows hold key k for a. */
  ghost predicate HasKey(T: Rows, a: Addr, k: Addr) {
    a in T && k in T[a]
  }

  lemma Begin(g: Graph) returns (tr: seq<Keyed>, s: Keyed)
    requires WellFormed(g)
    ensures Arrives(g, tr, s) && s.at == Start(g) && s.at.forest.Valid()
    ensures forall d :: Counting(s.rows, d) == {}
    ensures forall a, k :: !HasKey(s.rows, a, k)
  {
    s := KeyedStart(g);
    tr := [s];
  }

  /** The next block is taken from the queue. */
  lemma TakeNext(g: Graph, tr: seq<Keyed>, s: Keyed) returns (run: seq<Keyed>, t: Keyed)
    requires Arrives(g, tr, s) && s.at.todo == {} && s.at.queue != []
    requires s.at.queue[0] in g && s.at.queue[0] in s.at.forest.rank
    ensures Arrives(g, run, t) && t.at == Pop(g, s.at) && t.rows == s.rows && t.at.forest.Valid()
  {
    t := Keyed(Pop(g, s.at), s.rows);
    run := tr + [t];
    assert KeyedPop(g, s, t);
    ExtendRun(g, tr, t);
  }

  /** A predecessor is met for the first time. */
  lemma TakeAttach(g: Graph, tr: seq<Keyed>, s: Keyed, p: Addr) returns (run: seq<Keyed>, t: Keyed)
    requires Arrives(g, tr, s) && p in s.at.todo && p in g && p !in s.at.forest.rank
    ensures Arrives(g, run, t) && t.at.forest.Valid() && s.at.forest.Valid() && s.at.cur in s.at.forest.rank
    ensures t.at == s.at.(forest := s.at.forest.Attach(p, s.at.cur), todo := s.at.todo - {p},
                          queue := s.at.queue + [p])
    ensures forall d | d != p :: Counting(t.rows, d) == Counting(s.rows, d)
    ensures Counting(t.rows, p) == Counting(s.rows, p) + s.at.forest.Up(s.at.cur)
    ensures forall a, k | k != p :: HasKey(t.rows, a, k) <==> HasKey(s.rows, a, k)
  {
    hide VisitedRows, Forest.Up, Counting, HasKey;
    var f, c := s.at.forest, s.at.cur;
    t := Keyed(s.at.(forest := f.Attach(p, c), todo := s.at.todo - {p}, queue := s.at.queue + [p]),
               VisitedRows(f, s.rows, c, p));
    run := tr + [t];
    VisitedKeys(f, s.rows, c, p);
    AttachIsVisit(s, t, p);
    ExtendRun(g, tr, t);
    forall d ensures Counting(t.rows, d) == if d == p then Counting(s.rows, d) + f.Up(c) else Counting(s.rows, d) {
      AttachedColumns(f, s.rows, c, p, d);
    }
    forall a, k | k != p ensures HasKey(t.rows, a, k) <==> HasKey(s.rows, a, k) {
      AttachedKeys(f, s.rows, c, p, a, k);
    }
  }

  lemma AttachedColumns(f: Forest, T: Rows, c: Addr, p: Addr, d: Addr)
    requires f.Valid() && c in f.rank && p !in f.rank && p in T && f.rank.Keys <= T.Keys
    ensures Counting(VisitedRows(f, T, c, p), d) ==
            if d == p then Counting(T, d) + f.Up(c) else Counting(T, d)
  {
    hide VisitedRows, Counts, Forest.Up, Forest.Valid;
    f.UpBasics(c);
    VisitedKeys(f, T, c, p);
    forall a | a in T
      ensures Counts(VisitedRows(f, T, c, p)[a], d) <==> Counts(T[a], d) || (d == p && a in f.Up(c))
    {
      AttachedCounts(f, T, c, p, a, d);
    }
  }

  lemma AttachedKeys(f: Forest, T: Rows, c: Addr, p: Addr, a: Addr, k: Addr)
    requires f.Valid() && c in f.rank && p !in f.rank && p in T && k != p
    ensures HasKey(VisitedRows(f, T, c, p), a, k) <==> HasKey(T, a, k)
  {
  }

  lemma AttachIsVisit(s: Keyed, t: Keyed, p: Addr)
    requires Rooted(s) && p in s.at.todo && p in s.rows && p !in s.at.forest.rank
    requires t == Keyed(s.at.(forest := s.at.forest.Attach(p, s.at.cur), todo := s.at.todo - {p},
                              queue := s.at.queue + [p]),
                        VisitedRows(s.at.forest, s.rows, s.at.cur, p))
    ensures KeyedVisit(s, t, p) && Rooted(Keyed(t.at, s.rows))
  {
    var f, c := s.at.forest, s.at.cur;
    f.AttachUp(p, c, c);
    AttachesToCurrent(f, s.rows, c, p);
    hide VisitedRows, NewParent, Forest.Up;
  }

  lemma MovedColumns(f: Forest, T: Rows, c: Addr, p: Addr, d: Addr)
    requires f.Valid() && c in f.rank && p in f.parent && p in T
    ensures var passed := Passed(f, f.parent[p], NewParent(f, T, c, p));
            Counting(MovedRows(f, T, c, p), d) ==
            if d == p || d in T[p] then Counting(T, d) - passed else Counting(T, d)
  {
    forall a | a in T
      ensures a in Counting(MovedRows(f, T, c, p), d) <==>
              a in Counting(T, d) &&
              !(a in Passed(f, f.parent[p], NewParent(f, T, c, p)) && (d == p || d in T[p]))
    {
      MovedCounts(f, T, c, p, a, d);
    }
    VisitedKeys(f, T, c, p);
  }

  lemma MovedKeys(f: Forest, T: Rows, c: Addr, p: Addr, a: Addr, k: Addr)
    requires f.Valid() && c in f.rank && p in f.parent && p in T && f.rank.Keys <= T.Keys
    ensures HasKey(MovedRows(f, T, c, p), a, k) <==>
            && (HasKey(T, a, k) || (k == p && a in T && a in Climbed(f, Counting(T, p), c)))
            && !(a in Passed(f, f.parent[p], NewParent(f, T, c, p)) && (k == p || HasKey(T, p, k)))
  {
    hide Counting, NewParent, Climbed, Passed;
    var A, passed := AskedRows(f, T, c, p), Passed(f, f.parent[p], NewParent(f, T, c, p));
    if a in T {
      assert A[a] == if a in Climbed(f, Counting(T, p), c) then Ask(T[a], p) else T[a];
      assert MovedRows(f, T, c, p)[a] == if a in passed then A[a] - ({p} + A[p].Keys) else A[a];
    }
  }

  /** A predecessor that has a parent moves to the block that the climb finds. */
  lemma TakeMove(g: Graph, tr: seq<Keyed>, s: Keyed, p: Addr, n: Addr, stops: set<Addr>,
                 climbed: set<Addr>, passed: set<Addr>)
    returns (run: seq<Keyed>, t: Keyed)
    requires Arrives(g, tr, s) && p in s.at.todo && p in g && p in s.at.forest.parent
    requires Counting(s.rows, p) == stops
    requires Found(s.at.forest, stops, s.at.cur) == n && Climbed(s.at.forest, stops, s.at.cur) == climbed
    requires n in s.at.forest.rank && s.at.forest.rank[n] < s.at.forest.rank[p]
    requires Passed(s.at.forest, s.at.forest.parent[p], n) == passed
    ensures Arrives(g, run, t) && t.at.forest.Valid() && s.at.forest.Valid() && s.at.cur in s.at.forest.rank
    ensures t.at == s.at.(forest := s.at.forest.Move(p, n), todo := s.at.todo - {p})
    ensures forall d :: Counting(t.rows, d) ==
                        if d == p || HasKey(s.rows, p, d) then Counting(s.rows, d) - passed
                        else Counting(s.rows, d)
    ensures forall a, k :: HasKey(t.rows, a, k) <==>
                           && (HasKey(s.rows, a, k) || (k == p && a in g && a in climbed))
                           && !(a in passed && (k == p || HasKey(s.rows, p, k)))
  {
    var f, c := s.at.forest, s.at.cur;
    t := Keyed(s.at.(forest := f.Move(p, n), todo := s.at.todo - {p}), VisitedRows(f, s.rows, c, p));
    run := tr + [t];
    MoveIsVisit(s, t, p, n);
    VisitedKeys(f, s.rows, c, p);
    ExtendRun(g, tr, t);
    forall d ensures Counting(t.rows, d) == if d == p || HasKey(s.rows, p, d) then Counting(s.rows, d) - passed
                                            else Counting(s.rows, d) {
      MovedColumns(f, s.rows, c, p, d);
    }
    forall a, k ensures HasKey(t.rows, a, k) <==>
                        && (HasKey(s.rows, a, k) || (k == p && a in g && a in climbed))
                        && !(a in passed && (k == p || HasKey(s.rows, p, k))) {
      MovedKeys(f, s.rows, c, p, a, k);
    }
  }

  lemma MoveIsVisit(s: Keyed, t: Keyed, p: Addr, n: Addr)
    requires Rooted(s) && p in s.at.todo && p in s.rows && p in s.at.forest.parent
    requires n in s.at.forest.rank && s.at.forest.rank[n] < s.at.forest.rank[p]
    requires n == NewParent(s.at.forest, s.rows, s.at.cur, p)
    requires t == Keyed(s.at.(forest := s.at.forest.Move(p, n), todo := s.at.todo - {p}),
                        VisitedRows(s.at.forest, s.rows, s.at.cur, p))
    ensures KeyedVisit(s, t, p) && Rooted(Keyed(t.at, s.rows))
  {
    hide VisitedRows, NewParent;
  }

  // ---------------------------------------------------------------- along a chain

  lemma ParentRank(f: Forest, a: Addr)
    requires f.Valid() && a in f.parent
    ensures f.parent[a] in f.rank && a in f.rank && f.rank[f.parent[a]] < f.rank[a]
  {
  }

  lemma UpTop(f: Forest)
    requires f.Valid()
    ensures RETURN in f.rank && f.Up(RETURN) == {RETURN}
  {
  }

  lemma UpOn(f: Forest, a: Addr, up: set<Addr>)
    requires f.Valid() && a in f.parent && f.Up(f.parent[a]) == up
    ensures a in f.rank && f.Up(a) == {a} + up
  {
  }

  lemma ClimbEnds(f: Forest, stops: set<Addr>, n: Addr)
    requires f.Valid() && n in f.rank && (n in stops || n == RETURN)
    ensures Found(f, stops, n) == n && Climbed(f, stops, n) == {n}
  {
  }

  lemma ClimbOn(f: Forest, stops: set<Addr>, c: Addr)
    requires f.Valid() && c in f.parent && c !in stops
    ensures c in f.rank && Found(f, stops, c) == Found(f, stops, f.parent[c])
    ensures Climbed(f, stops, c) == {c} + Climbed(f, stops, f.parent[c])
  {
  }

  lemma PassEnds(f: Forest, n: Addr)
    requires f.Valid() && n in f.rank
    ensures Passed(f, n, n) == {}
  {
  }

  /** The walk runs past the return block if it never meets n. */
  lemma PassTop(f: Forest, n: Addr)
    requires f.Valid() && n != RETURN
    ensures RETURN in f.rank && Passed(f, RETURN, n) == {RETURN}
  {
  }

  lemma PassOn(f: Forest, q: Addr, n: Addr)
    requires f.Valid() && q in f.parent && q != n
    ensures q in f.rank && Passed(f, q, n) == {q} + Passed(f, f.parent[q], n)
  {
  }
}
