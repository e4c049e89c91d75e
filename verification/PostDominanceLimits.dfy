/** A graph on which the single pass is not exact, neither in its tree nor in its descendant maps.

    Block 10 branches to 20 and 40, block 20 to 30 and 40; 30 leads to 50, and 40 and 50 return.  Block 20 is
    processed while its parent is still 40, so 10 stays below 40 although 20 later moves up to the return
    block, when 30 is processed.  Looking 10 up from 20 has left a NULL entry for 10 in 20's map; that move
    erases it from 40's map together with 20's. */
module PostDominanceLimits {
  import opened PostDominance
  import opened PostDominancePass
  import opened DescendantRows
  import opened KeyedPass
  import opened PassExactness
  import opened RunSteps

  ghost function MissGraph(): Graph {
    map[2 := {40, 50}, 10 := {}, 20 := {10}, 30 := {20}, 40 := {10, 20}, 50 := {30}]
  }

  lemma MissWellFormed()
    ensures WellFormed(MissGraph())
  {
  }

  /** The blocks next to the return block, and those in front of 40. */
  lemma MissFirst() returns (tr: seq<Keyed>, s: Keyed)
    ensures Arrives(MissGraph(), tr, s)
    ensures s.at == Config(Forest(map[40 := 2, 50 := 2, 20 := 40, 10 := 40],
                                  map[2 := 0, 40 := 1, 50 := 1, 20 := 2, 10 := 2]),
                           40, {}, [50, 20, 10], {2, 40})
    ensures Counting(s.rows, 10) == {40, 2} && Counting(s.rows, 20) == {40, 2}
  {
    hide Counting, HasKey, Forest.Up, Forest.Valid, Arrives, WellFormed;
    var g := MissGraph();
    MissWellFormed();
    tr, s := Begin(g);
    tr, s := TakeAttach(g, tr, s, 40);
    tr, s := TakeAttach(g, tr, s, 50);
    tr, s := TakeNext(g, tr, s);
    UpTop(s.at.forest);
    UpOn(s.at.forest, 40, {2});
    tr, s := TakeAttach(g, tr, s, 20);
    UpTop(s.at.forest);
    UpOn(s.at.forest, 40, {2});
    tr, s := TakeAttach(g, tr, s, 10);
  }

  /** The block in front of 50. */
  lemma MissSecond() returns (tr: seq<Keyed>, s: Keyed)
    ensures Arrives(MissGraph(), tr, s) && s.at.forest.Valid()
    ensures s.at == Config(Forest(map[40 := 2, 50 := 2, 20 := 40, 10 := 40, 30 := 50],
                                  map[2 := 0, 40 := 1, 50 := 1, 20 := 2, 10 := 2, 30 := 2]),
                           50, {}, [20, 10, 30], {2, 40, 50})
    ensures Counting(s.rows, 10) == {40, 2} && Counting(s.rows, 20) == {40, 2}
  {
    hide Counting, HasKey, Forest.Up, Forest.Valid, Arrives, Found, Climbed, Passed;
    var g := MissGraph();
    tr, s := MissFirst();
    tr, s := TakeNext(g, tr, s);
    tr, s := TakeAttach(g, tr, s, 30);
  }

  /** Block 20 is processed: 10 is looked up in its map and found in that of 40. */
  lemma MissAsks() returns (tr: seq<Keyed>, s: Keyed)
    ensures Arrives(MissGraph(), tr, s)
    ensures s.at == Config(Forest(map[40 := 2, 50 := 2, 20 := 40, 10 := 40, 30 := 50],
                                  map[2 := 0, 40 := 1, 50 := 1, 20 := 2, 10 := 2, 30 := 2]),
                           20, {}, [10, 30], {2, 40, 50, 20})
    ensures Counting(s.rows, 10) == {40, 2} && Counting(s.rows, 20) == {40, 2} && HasKey(s.rows, 20, 10)
  {
    hide Counting, HasKey, Forest.Up, Forest.Valid, Arrives, Found, Climbed, Passed;
    var g := MissGraph();
    tr, s := MissSecond();
    tr, s := TakeNext(g, tr, s);
    ClimbEnds(s.at.forest, {40, 2}, 40);
    ClimbOn(s.at.forest, {40, 2}, 20);
    PassEnds(s.at.forest, 40);
    assert s.at.forest.Move(10, 40).parent == s.at.forest.parent;
    tr, s := TakeMove(g, tr, s, 10, 40, {40, 2}, {20} + {40}, {});
  }

  /** Block 30 is processed: 20 moves to the return block, and takes 10 from 40's map with it. */
  lemma MissRun() returns (tr: seq<Keyed>, s: Keyed)
    ensures Arrives(MissGraph(), tr, s) && Finished(s.at)
    ensures s.at.forest == Forest(map[40 := 2, 50 := 2, 20 := 2, 10 := 40, 30 := 50],
                                  map[2 := 0, 40 := 1, 50 := 1, 20 := 2, 10 := 2, 30 := 2])
    ensures Counting(s.rows, 10) == {2}
  {
    hide Counting, HasKey, Forest.Up, Forest.Valid, Arrives, Found, Climbed, Passed;
    var g := MissGraph();
    tr, s := MissAsks();
    tr, s := TakeNext(g, tr, s);
    tr, s := TakeNext(g, tr, s);
    ClimbEnds(s.at.forest, {40, 2}, 2);
    ClimbOn(s.at.forest, {40, 2}, 50);
    ClimbOn(s.at.forest, {40, 2}, 30);
    PassEnds(s.at.forest, 2);
    PassOn(s.at.forest, 40, 2);
    tr, s := TakeMove(g, tr, s, 20, 2, {40, 2}, {30} + ({50} + {2}), {40} + {});
  }

  lemma MissAtMostTwo()
    ensures AtMost(MissGraph(), 2)
  {
    var g := MissGraph();
    forall p ensures |Succs(g, p)| <= 2 {
      var few := if p == 10 then {20, 40} else if p == 20 then {30, 40} else if p == 30 then {50} else {2};
      assert Succs(g, p) <= few;
      SubsetSize(Succs(g, p), few);
    }
  }

  /** The finished tree puts 40 above 10, yet a path from 10 to the return block avoids 40; and 40's map does
      not count 10. */
  lemma MissRunFails() returns (tr: seq<Keyed>, a: Addr, d: Addr)
    ensures WellFormed(MissGraph()) && IsKeyedRun(MissGraph(), tr) && Finished(tr[|tr| - 1].at)
    ensures !PostDominates(MissGraph(), d, a)
    ensures var s := tr[|tr| - 1];
            && s.at.forest.Valid() && a in s.at.forest.rank && s.at.forest.Above(d, a)
            && d in s.rows && !Counts(s.rows[d], a)
  {
    var s;
    tr, s := MissRun();
    a, d := 10, 40;
    AvoidsForty();
    FortyAboveTen(s.at.forest);
    assert 40 !in Counting(s.rows, 10);
  }

  /** The single pass is not exact. */
  lemma SinglePassIsNotExact() returns (g: Graph, tr: seq<Keyed>, a: Addr, d: Addr)
    ensures WellFormed(g) && AtMost(g, 2) && IsKeyedRun(g, tr) && Finished(tr[|tr| - 1].at)
    ensures var f := tr[|tr| - 1].at.forest;
            f.Valid() && a in f.rank && f.Above(d, a) && !PostDominates(g, d, a)
  {
    tr, a, d := MissRunFails();
    g := MissGraph();
    MissAtMostTwo();
  }

  /** So its graph is not decided. */
  lemma MissIsUndecided()
    ensures !Decided(MissGraph())
  {
    if Decided(MissGraph()) {
      var run, a, d := MissRunFails();
      MissAtMostTwo();
      DecidedIsExact(MissGraph(), run);
    }
  }

  lemma FortyAboveTen(f: Forest)
    requires f.Valid() && 10 in f.parent && f.parent[10] == 40 && 40 in f.rank
    ensures f.Above(40, 10)
  {
    f.UpBasics(40);
  }

  // ---------------------------------------------------------------- the maps

  /** In every state of the run all rows count exactly the strict tree descendants. */
  ghost predicate KeepsRows(g: Graph, tr: seq<Keyed>) {
    forall i: nat | i < |tr| :: tr[i].at.forest.Valid() && Exact(tr[i].at.forest, tr[i].rows)
  }

  /** Where every block precedes at most one block no block is looked up, and the maps are exact. */
  lemma NeverAsked(g: Graph, tr: seq<Keyed>, i: nat)
    requires WellFormed(g) && AtMost(g, 1) && IsKeyedRun(g, tr) && i < |tr|
    ensures tr[i].at.forest.Valid() && Exact(tr[i].at.forest, tr[i].rows)
  {
    assert AtMost(g, 2) by {
      forall p ensures |Succs(g, p)| <= 2 {
        assert |Succs(g, p)| <= 1;
      }
    }
    KeyedFollows(g, tr, i);
    forall p | p in g ensures |VisitedFrom(g, tr[i].at, p)| <= 1 {
      VisitedAreSuccs(g, tr[i].at, p);
      SubsetSize(VisitedFrom(g, tr[i].at, p), Succs(g, p));
      assert |Succs(g, p)| <= 1;
    }
    assert Asked(g, tr[i].at) == {};
  }

  /** The maps of all blocks are right in all runs on all graphs whose blocks precede at most k blocks if and
      only if k is at most one. */
  lemma MapsRightIff(k: nat)
    ensures (forall g: Graph, tr: seq<Keyed> | WellFormed(g) && AtMost(g, k) && IsKeyedRun(g, tr) ::
               KeepsRows(g, tr)) <==> k <= 1
  {
    if k <= 1 {
      forall g: Graph, tr: seq<Keyed> | WellFormed(g) && AtMost(g, k) && IsKeyedRun(g, tr) ensures KeepsRows(g, tr) {
        assert AtMost(g, 1);
        forall i: nat | i < |tr| ensures tr[i].at.forest.Valid() && Exact(tr[i].at.forest, tr[i].rows) {
          NeverAsked(g, tr, i);
        }
      }
    } else {
      var tr, a, d := MissRunFails();
      MissAtMostTwo();
      assert AtMost(MissGraph(), k);
      assert !KeepsRows(MissGraph(), tr) by { RowsLost(MissGraph(), tr, a, d); }
    }
  }

  lemma RowsLost(g: Graph, tr: seq<Keyed>, a: Addr, d: Addr)
    requires |tr| > 0 && tr[|tr| - 1].at.forest.Valid() && tr[|tr| - 1].at.forest.Above(d, a)
    requires d in tr[|tr| - 1].rows && !Counts(tr[|tr| - 1].rows[d], a)
    ensures !KeepsRows(g, tr)
  {
  }

  lemma DetourPath()
    ensures IsPath(MissGraph(), [10, 20, 30, 50, 2], 10, RETURN)
    ensures IsPath(MissGraph(), [30, 50, 2], 30, RETURN)
  {
    var g := MissGraph();
    assert [50, 2][1..] == [2];
    assert [30, 50, 2][1..] == [50, 2];
    assert [20, 30, 50, 2][1..] == [30, 50, 2];
    assert [10, 20, 30, 50, 2][1..] == [20, 30, 50, 2];
    assert IsPath(g, [50, 2], 50, RETURN);
    assert IsPath(g, [30, 50, 2], 30, RETURN);
    assert IsPath(g, [20, 30, 50, 2], 20, RETURN);
  }

  lemma AvoidsForty()
    ensures !PostDominates(MissGraph(), 40, 10)
  {
    DetourPath();
    assert 40 !in [10, 20, 30, 50, 2];
  }
}
