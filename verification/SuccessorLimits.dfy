/** A graph with a block that precedes three others, on which the code loses a post-dominator.

    Block 25 leads to 21, 23 and 24, block 14 to 11, 24 and 25, and every path ends through 11.  The first two
    visits of 14 and of 25 leave NULL entries in maps on the way.  Moves erase these entries' keys elsewhere, so
    that 14 still counts 25 when it is no longer above it, and 11 no longer counts 14 when it is.  The third
    visits of 25 and 14 then take the wrong parents. */
module SuccessorLimits {
  import opened PostDominance
  import opened PostDominancePass
  import opened DescendantRows
  import opened KeyedPass
  import opened RunSteps

  ghost function LostGraph(): Graph {
    map[2 := {11}, 11 := {14, 15}, 14 := {17, 23}, 15 := {18},
        17 := {19}, 18 := {20}, 19 := {21, 24}, 20 := {23}, 21 := {25}, 23 := {21, 25}, 24 := {14, 25}, 25 := {14}]
  }

  /** In tree f, a has parent b and rank k. */
  ghost predicate Points(f: Forest, a: Addr, b: Addr, k: nat) {
    a in f.parent && f.parent[a] == b && a in f.rank && f.rank[a] == k
  }

  lemma LostWellFormed()
    ensures WellFormed(LostGraph())
  {
  }

  /** The block next to the return block. */
  lemma ReachEleven() returns (tr: seq<Keyed>, s: Keyed)
    ensures Arrives(LostGraph(), tr, s) && s.at.forest.Valid()
    ensures s.at.cur == 11 && s.at.todo == {14, 15} && s.at.queue == []
    ensures s.at.forest.rank.Keys == {2, 11}
    ensures Points(s.at.forest, 11, 2, 1)
    ensures Counting(s.rows, 14) == {} && Counting(s.rows, 21) == {}
    ensures Counting(s.rows, 23) == {} && Counting(s.rows, 25) == {}
  {
    hide Counting, HasKey, Forest.Up, Forest.Valid, Arrives, WellFormed, Found, Climbed, Passed;
    var g := LostGraph();
    LostWellFormed();
    tr, s := Begin(g);
    tr, s := TakeAttach(g, tr, s, 11);
    tr, s := TakeNext(g, tr, s);
  }

  /** The blocks up to two edges away. */
  lemma ReachFifteen() returns (tr: seq<Keyed>, s: Keyed)
    ensures Arrives(LostGraph(), tr, s) && s.at.forest.Valid()
    ensures s.at.cur == 11 && s.at.todo == {} && s.at.queue == [14, 15]
    ensures s.at.forest.rank.Keys == {2, 11, 14, 15}
    ensures Points(s.at.forest, 11, 2, 1) && Points(s.at.forest, 14, 11, 2) && Points(s.at.forest, 15, 11, 2)
    ensures Counting(s.rows, 14) == {2, 11} && Counting(s.rows, 21) == {}
    ensures Counting(s.rows, 23) == {} && Counting(s.rows, 25) == {}
  {
    hide Counting, HasKey, Forest.Up, Forest.Valid, Arrives, WellFormed, Found, Climbed, Passed;
    var g := LostGraph();
    tr, s := ReachEleven();
    UpTop(s.at.forest);
    UpOn(s.at.forest, 11, {2});
    tr, s := TakeAttach(g, tr, s, 14);
    tr, s := TakeAttach(g, tr, s, 15);
  }

  /** The blocks in front of 14. */
  lemma ReachSeventeen() returns (tr: seq<Keyed>, s: Keyed)
    ensures Arrives(LostGraph(), tr, s) && s.at.forest.Valid()
    ensures s.at.cur == 14 && s.at.todo == {} && s.at.queue == [15, 23, 17]
    ensures s.at.forest.rank.Keys == {2, 11, 14, 15, 17, 23}
    ensures Points(s.at.forest, 11, 2, 1) && Points(s.at.forest, 14, 11, 2) && Points(s.at.forest, 15, 11, 2)
    ensures Points(s.at.forest, 17, 14, 3) && Points(s.at.forest, 23, 14, 3)
    ensures Counting(s.rows, 14) == {2, 11} && Counting(s.rows, 21) == {}
    ensures Counting(s.rows, 23) == {2, 11, 14} && Counting(s.rows, 25) == {}
  {
    hide Counting, HasKey, Forest.Up, Forest.Valid, Arrives, WellFormed, Found, Climbed, Passed;
    var g := LostGraph();
    tr, s := ReachFifteen();
    tr, s := TakeNext(g, tr, s);
    UpTop(s.at.forest);
    UpOn(s.at.forest, 11, {2});
    UpOn(s.at.forest, 14, {2, 11});
    tr, s := TakeAttach(g, tr, s, 23);
    tr, s := TakeAttach(g, tr, s, 17);
  }

  /** 18 is attached. */
  lemma ReachEighteen() returns (tr: seq<Keyed>, s: Keyed)
    ensures Arrives(LostGraph(), tr, s) && s.at.forest.Valid()
    ensures s.at.cur == 15 && s.at.todo == {} && s.at.queue == [23, 17, 18]
    ensures s.at.forest.rank.Keys == {2, 11, 14, 15, 17, 18, 23}
    ensures Points(s.at.forest, 11, 2, 1) && Points(s.at.forest, 14, 11, 2) && Points(s.at.forest, 15, 11, 2)
    ensures Points(s.at.forest, 17, 14, 3) && Points(s.at.forest, 18, 15, 3) && Points(s.at.forest, 23, 14, 3)
    ensures Counting(s.rows, 14) == {2, 11} && Counting(s.rows, 21) == {}
    ensures Counting(s.rows, 23) == {2, 11, 14} && Counting(s.rows, 25) == {}
  {
    hide Counting, HasKey, Forest.Up, Forest.Valid, Arrives, WellFormed, Found, Climbed, Passed;
    var g := LostGraph();
    tr, s := ReachSeventeen();
    tr, s := TakeNext(g, tr, s);
    tr, s := TakeAttach(g, tr, s, 18);
  }

  /** 25 is attached. */
  lemma ReachTwentyFive() returns (tr: seq<Keyed>, s: Keyed)
    ensures Arrives(LostGraph(), tr, s) && s.at.forest.Valid()
    ensures s.at.cur == 23 && s.at.todo == {21} && s.at.queue == [17, 18, 25]
    ensures s.at.forest.rank.Keys == {2, 11, 14, 15, 17, 18, 23, 25}
    ensures Points(s.at.forest, 11, 2, 1) && Points(s.at.forest, 14, 11, 2) && Points(s.at.forest, 15, 11, 2)
    ensures Points(s.at.forest, 17, 14, 3) && Points(s.at.forest, 18, 15, 3) && Points(s.at.forest, 23, 14, 3)
    ensures Points(s.at.forest, 25, 23, 4)
    ensures Counting(s.rows, 14) == {2, 11} && Counting(s.rows, 21) == {}
    ensures Counting(s.rows, 23) == {2, 11, 14} && Counting(s.rows, 25) == {2, 11, 14, 23}
  {
    hide Counting, HasKey, Forest.Up, Forest.Valid, Arrives, WellFormed, Found, Climbed, Passed;
    var g := LostGraph();
    tr, s := ReachEighteen();
    tr, s := TakeNext(g, tr, s);
    UpTop(s.at.forest);
    UpOn(s.at.forest, 11, {2});
    UpOn(s.at.forest, 14, {2, 11});
    UpOn(s.at.forest, 23, {2, 11, 14});
    tr, s := TakeAttach(g, tr, s, 25);
  }

  /** 21 is attached. */
  lemma ReachTwentyOne() returns (tr: seq<Keyed>, s: Keyed)
    ensures Arrives(LostGraph(), tr, s) && s.at.forest.Valid()
    ensures s.at.cur == 23 && s.at.todo == {} && s.at.queue == [17, 18, 25, 21]
    ensures s.at.forest.rank.Keys == {2, 11, 14, 15, 17, 18, 21, 23, 25}
    ensures Points(s.at.forest, 11, 2, 1) && Points(s.at.forest, 14, 11, 2) && Points(s.at.forest, 15, 11, 2)
    ensures Points(s.at.forest, 17, 14, 3) && Points(s.at.forest, 18, 15, 3) && Points(s.at.forest, 21, 23, 4)
    ensures Points(s.at.forest, 23, 14, 3) && Points(s.at.forest, 25, 23, 4)
    ensures Counting(s.rows, 14) == {2, 11} && Counting(s.rows, 21) == {2, 11, 14, 23}
    ensures Counting(s.rows, 23) == {2, 11, 14} && Counting(s.rows, 25) == {2, 11, 14, 23}
  {
    hide Counting, HasKey, Forest.Up, Forest.Valid, Arrives, WellFormed, Found, Climbed, Passed;
    var g := LostGraph();
    tr, s := ReachTwentyFive();
    UpTop(s.at.forest);
    UpOn(s.at.forest, 11, {2});
    UpOn(s.at.forest, 14, {2, 11});
    UpOn(s.at.forest, 23, {2, 11, 14});
    tr, s := TakeAttach(g, tr, s, 21);
  }

  /** 19 is attached. */
  lemma ReachNineteen() returns (tr: seq<Keyed>, s: Keyed)
    ensures Arrives(LostGraph(), tr, s) && s.at.forest.Valid()
    ensures s.at.cur == 17 && s.at.todo == {} && s.at.queue == [18, 25, 21, 19]
    ensures s.at.forest.rank.Keys == {2, 11, 14, 15, 17, 18, 19, 21, 23, 25}
    ensures Points(s.at.forest, 11, 2, 1) && Points(s.at.forest, 14, 11, 2) && Points(s.at.forest, 15, 11, 2)
    ensures Points(s.at.forest, 17, 14, 3) && Points(s.at.forest, 18, 15, 3) && Points(s.at.forest, 19, 17, 4)
    ensures Points(s.at.forest, 21, 23, 4) && Points(s.at.forest, 23, 14, 3) && Points(s.at.forest, 25, 23, 4)
    ensures Counting(s.rows, 14) == {2, 11} && Counting(s.rows, 21) == {2, 11, 14, 23}
    ensures Counting(s.rows, 23) == {2, 11, 14} && Counting(s.rows, 25) == {2, 11, 14, 23}
  {
    hide Counting, HasKey, Forest.Up, Forest.Valid, Arrives, WellFormed, Found, Climbed, Passed;
    var g := LostGraph();
    tr, s := ReachTwentyOne();
    tr, s := TakeNext(g, tr, s);
    tr, s := TakeAttach(g, tr, s, 19);
  }

  /** 20 is attached. */
  lemma ReachTwenty() returns (tr: seq<Keyed>, s: Keyed)
    ensures Arrives(LostGraph(), tr, s) && s.at.forest.Valid()
    ensures s.at.cur == 18 && s.at.todo == {} && s.at.queue == [25, 21, 19, 20]
    ensures s.at.forest.rank.Keys == {2, 11, 14, 15, 17, 18, 19, 20, 21, 23, 25}
    ensures Points(s.at.forest, 11, 2, 1) && Points(s.at.forest, 14, 11, 2) && Points(s.at.forest, 15, 11, 2)
    ensures Points(s.at.forest, 17, 14, 3) && Points(s.at.forest, 18, 15, 3) && Points(s.at.forest, 19, 17, 4)
    ensures Points(s.at.forest, 20, 18, 4) && Points(s.at.forest, 21, 23, 4) && Points(s.at.forest, 23, 14, 3)
    ensures Points(s.at.forest, 25, 23, 4)
    ensures Counting(s.rows, 14) == {2, 11} && Counting(s.rows, 21) == {2, 11, 14, 23}
    ensures Counting(s.rows, 23) == {2, 11, 14} && Counting(s.rows, 25) == {2, 11, 14, 23}
  {
    hide Counting, HasKey, Forest.Up, Forest.Valid, Arrives, WellFormed, Found, Climbed, Passed;
    var g := LostGraph();
    tr, s := ReachNineteen();
    tr, s := TakeNext(g, tr, s);
    tr, s := TakeAttach(g, tr, s, 20);
  }

  /** Block 25 is processed: its map gets a NULL entry for 14. */
  lemma AskFourteen() returns (tr: seq<Keyed>, s: Keyed)
    ensures Arrives(LostGraph(), tr, s) && s.at.forest.Valid()
    ensures s.at.cur == 25 && s.at.todo == {} && s.at.queue == [21, 19, 20]
    ensures s.at.forest.rank.Keys == {2, 11, 14, 15, 17, 18, 19, 20, 21, 23, 25}
    ensures Points(s.at.forest, 11, 2, 1) && Points(s.at.forest, 14, 11, 2) && Points(s.at.forest, 15, 11, 2)
    ensures Points(s.at.forest, 17, 14, 3) && Points(s.at.forest, 18, 15, 3) && Points(s.at.forest, 19, 17, 4)
    ensures Points(s.at.forest, 20, 18, 4) && Points(s.at.forest, 21, 23, 4) && Points(s.at.forest, 23, 14, 3)
    ensures Points(s.at.forest, 25, 23, 4)
    ensures Counting(s.rows, 14) == {2, 11} && Counting(s.rows, 21) == {2, 11, 14, 23}
    ensures Counting(s.rows, 23) == {2, 11, 14} && Counting(s.rows, 25) == {2, 11, 14, 23}
    ensures HasKey(s.rows, 25, 14)
  {
    hide Counting, HasKey, Forest.Up, Forest.Valid, Arrives, WellFormed, Found, Climbed, Passed;
    var g := LostGraph();
    tr, s := ReachTwenty();
    tr, s := TakeNext(g, tr, s);
    ClimbEnds(s.at.forest, {2, 11}, 11);
    ClimbOn(s.at.forest, {2, 11}, 14);
    ClimbOn(s.at.forest, {2, 11}, 23);
    ClimbOn(s.at.forest, {2, 11}, 25);
    PassEnds(s.at.forest, 11);
    tr, s := TakeMove(g, tr, s, 14, 11, {2, 11}, {25} + ({23} + ({14} + {11})), {});
  }

  /** Block 21 is processed: its map gets a NULL entry for 25. */
  lemma AskTwentyFive() returns (tr: seq<Keyed>, s: Keyed)
    ensures Arrives(LostGraph(), tr, s) && s.at.forest.Valid()
    ensures s.at.cur == 21 && s.at.todo == {} && s.at.queue == [19, 20]
    ensures s.at.forest.rank.Keys == {2, 11, 14, 15, 17, 18, 19, 20, 21, 23, 25}
    ensures Points(s.at.forest, 11, 2, 1) && Points(s.at.forest, 14, 11, 2) && Points(s.at.forest, 15, 11, 2)
    ensures Points(s.at.forest, 17, 14, 3) && Points(s.at.forest, 18, 15, 3) && Points(s.at.forest, 19, 17, 4)
    ensures Points(s.at.forest, 20, 18, 4) && Points(s.at.forest, 21, 23, 4) && Points(s.at.forest, 23, 14, 3)
    ensures Points(s.at.forest, 25, 23, 4)
    ensures Counting(s.rows, 14) == {2, 11} && Counting(s.rows, 21) == {2, 11, 14, 23}
    ensures Counting(s.rows, 23) == {2, 11, 14} && Counting(s.rows, 25) == {2, 11, 14, 23}
    ensures HasKey(s.rows, 25, 14) && HasKey(s.rows, 21, 25)
  {
    hide Counting, HasKey, Forest.Up, Forest.Valid, Arrives, WellFormed, Found, Climbed, Passed;
    var g := LostGraph();
    tr, s := AskFourteen();
    tr, s := TakeNext(g, tr, s);
    ClimbEnds(s.at.forest, {2, 11, 14, 23}, 23);
    ClimbOn(s.at.forest, {2, 11, 14, 23}, 21);
    PassEnds(s.at.forest, 23);
    tr, s := TakeMove(g, tr, s, 25, 23, {2, 11, 14, 23}, {21} + {23}, {});
  }

  /** The last block is attached. */
  lemma ReachTwentyFour() returns (tr: seq<Keyed>, s: Keyed)
    ensures Arrives(LostGraph(), tr, s) && s.at.forest.Valid()
    ensures s.at.cur == 19 && s.at.todo == {21} && s.at.queue == [20, 24]
    ensures s.at.forest.rank.Keys == {2, 11, 14, 15, 17, 18, 19, 20, 21, 23, 24, 25}
    ensures Points(s.at.forest, 11, 2, 1) && Points(s.at.forest, 14, 11, 2) && Points(s.at.forest, 15, 11, 2)
    ensures Points(s.at.forest, 17, 14, 3) && Points(s.at.forest, 18, 15, 3) && Points(s.at.forest, 19, 17, 4)
    ensures Points(s.at.forest, 20, 18, 4) && Points(s.at.forest, 21, 23, 4) && Points(s.at.forest, 23, 14, 3)
    ensures Points(s.at.forest, 24, 19, 5) && Points(s.at.forest, 25, 23, 4)
    ensures Counting(s.rows, 14) == {2, 11} && Counting(s.rows, 21) == {2, 11, 14, 23}
    ensures Counting(s.rows, 23) == {2, 11, 14} && Counting(s.rows, 25) == {2, 11, 14, 23}
    ensures HasKey(s.rows, 25, 14) && HasKey(s.rows, 21, 25)
  {
    hide Counting, HasKey, Forest.Up, Forest.Valid, Arrives, WellFormed, Found, Climbed, Passed;
    var g := LostGraph();
    tr, s := AskTwentyFive();
    tr, s := TakeNext(g, tr, s);
    tr, s := TakeAttach(g, tr, s, 24);
  }

  /** 21 moves from 23 up to 14, which erases 25 from the map of 23. */
  lemma MoveTwentyOne() returns (tr: seq<Keyed>, s: Keyed)
    ensures Arrives(LostGraph(), tr, s) && s.at.forest.Valid()
    ensures s.at.cur == 19 && s.at.todo == {} && s.at.queue == [20, 24]
    ensures s.at.forest.rank.Keys == {2, 11, 14, 15, 17, 18, 19, 20, 21, 23, 24, 25}
    ensures Points(s.at.forest, 11, 2, 1) && Points(s.at.forest, 14, 11, 2) && Points(s.at.forest, 15, 11, 2)
    ensures Points(s.at.forest, 17, 14, 3) && Points(s.at.forest, 18, 15, 3) && Points(s.at.forest, 19, 17, 4)
    ensures Points(s.at.forest, 20, 18, 4) && Points(s.at.forest, 23, 14, 3) && Points(s.at.forest, 24, 19, 5)
    ensures Points(s.at.forest, 25, 23, 4)
    ensures Counting(s.rows, 14) == {2, 11} && Counting(s.rows, 23) == {2, 11, 14}
    ensures Counting(s.rows, 25) == {2, 11, 14}
    ensures HasKey(s.rows, 25, 14) && !HasKey(s.rows, 23, 25)
  {
    hide Counting, HasKey, Forest.Up, Forest.Valid, Arrives, WellFormed, Found, Climbed, Passed;
    var g := LostGraph();
    tr, s := ReachTwentyFour();
    ClimbEnds(s.at.forest, {2, 11, 14, 23}, 14);
    ClimbOn(s.at.forest, {2, 11, 14, 23}, 17);
    ClimbOn(s.at.forest, {2, 11, 14, 23}, 19);
    PassEnds(s.at.forest, 14);
    PassOn(s.at.forest, 23, 14);
    tr, s := TakeMove(g, tr, s, 21, 14, {2, 11, 14, 23}, {19} + ({17} + {14}), {23} + {});
  }

  /** 23 moves from 14 up to 11; its map has no entry for 25, which stays in that of 14. */
  lemma MoveTwentyThree() returns (tr: seq<Keyed>, s: Keyed)
    ensures Arrives(LostGraph(), tr, s) && s.at.forest.Valid()
    ensures s.at.cur == 20 && s.at.todo == {} && s.at.queue == [24]
    ensures s.at.forest.rank.Keys == {2, 11, 14, 15, 17, 18, 19, 20, 21, 23, 24, 25}
    ensures Points(s.at.forest, 11, 2, 1) && Points(s.at.forest, 14, 11, 2) && Points(s.at.forest, 17, 14, 3)
    ensures Points(s.at.forest, 19, 17, 4) && Points(s.at.forest, 23, 11, 3) && Points(s.at.forest, 24, 19, 5)
    ensures Points(s.at.forest, 25, 23, 4)
    ensures Counting(s.rows, 14) == {2, 11} && Counting(s.rows, 25) == {2, 11, 14}
    ensures HasKey(s.rows, 25, 14)
  {
    hide Counting, HasKey, Forest.Up, Forest.Valid, Arrives, WellFormed, Found, Climbed, Passed;
    var g := LostGraph();
    tr, s := MoveTwentyOne();
    tr, s := TakeNext(g, tr, s);
    ClimbEnds(s.at.forest, {2, 11, 14}, 11);
    ClimbOn(s.at.forest, {2, 11, 14}, 15);
    ClimbOn(s.at.forest, {2, 11, 14}, 18);
    ClimbOn(s.at.forest, {2, 11, 14}, 20);
    PassEnds(s.at.forest, 11);
    PassOn(s.at.forest, 14, 11);
    tr, s := TakeMove(g, tr, s, 23, 11, {2, 11, 14}, {20} + ({18} + ({15} + {11})), {14} + {});
  }

  /** Block 24 is processed. */
  lemma LastBlock() returns (tr: seq<Keyed>, s: Keyed)
    ensures Arrives(LostGraph(), tr, s) && s.at.forest.Valid()
    ensures s.at.cur == 24 && s.at.todo == {14, 25} && s.at.queue == []
    ensures s.at.forest.rank.Keys == {2, 11, 14, 15, 17, 18, 19, 20, 21, 23, 24, 25}
    ensures Points(s.at.forest, 11, 2, 1) && Points(s.at.forest, 14, 11, 2) && Points(s.at.forest, 17, 14, 3)
    ensures Points(s.at.forest, 19, 17, 4) && Points(s.at.forest, 23, 11, 3) && Points(s.at.forest, 24, 19, 5)
    ensures Points(s.at.forest, 25, 23, 4)
    ensures Counting(s.rows, 14) == {2, 11} && Counting(s.rows, 25) == {2, 11, 14}
    ensures HasKey(s.rows, 25, 14)
  {
    hide Counting, HasKey, Forest.Up, Forest.Valid, Arrives, WellFormed, Found, Climbed, Passed;
    var g := LostGraph();
    tr, s := MoveTwentyThree();
    tr, s := TakeNext(g, tr, s);
  }

  /** 25 is found in the map of 14, though 14 is no longer above it; on the way 14 is erased from all maps above. */
  lemma MoveTwentyFive() returns (tr: seq<Keyed>, s: Keyed)
    ensures Arrives(LostGraph(), tr, s) && s.at.forest.Valid()
    ensures s.at.cur == 24 && s.at.todo == {14} && s.at.queue == []
    ensures s.at.forest.rank.Keys == {2, 11, 14, 15, 17, 18, 19, 20, 21, 23, 24, 25}
    ensures Points(s.at.forest, 11, 2, 1) && Points(s.at.forest, 14, 11, 2) && Points(s.at.forest, 17, 14, 3)
    ensures Points(s.at.forest, 19, 17, 4) && Points(s.at.forest, 24, 19, 5) && Points(s.at.forest, 25, 14, 4)
    ensures Counting(s.rows, 14) == {}
  {
    hide Counting, HasKey, Forest.Up, Forest.Valid, Arrives, WellFormed, Found, Climbed, Passed;
    var g := LostGraph();
    tr, s := LastBlock();
    ClimbEnds(s.at.forest, {2, 11, 14}, 14);
    ClimbOn(s.at.forest, {2, 11, 14}, 17);
    ClimbOn(s.at.forest, {2, 11, 14}, 19);
    ClimbOn(s.at.forest, {2, 11, 14}, 24);
    PassTop(s.at.forest, 14);
    PassOn(s.at.forest, 11, 14);
    PassOn(s.at.forest, 23, 14);
    tr, s := TakeMove(g, tr, s, 25, 14, {2, 11, 14}, {24} + ({19} + ({17} + {14})), {23} + ({11} + {2}));
  }

  /** 14 is not found in the map of 11, and moves to the return block. */
  lemma LostRun() returns (tr: seq<Keyed>, s: Keyed)
    ensures Arrives(LostGraph(), tr, s) && s.at.forest.Valid()
    ensures s.at.cur == 24 && s.at.todo == {} && s.at.queue == []
    ensures s.at.forest.rank.Keys == {2, 11, 14, 15, 17, 18, 19, 20, 21, 23, 24, 25}
    ensures Points(s.at.forest, 14, 2, 2) && Points(s.at.forest, 25, 14, 4)
  {
    hide Counting, HasKey, Forest.Up, Forest.Valid, Arrives, WellFormed, Found, Climbed, Passed;
    var g := LostGraph();
    tr, s := MoveTwentyFive();
    ClimbEnds(s.at.forest, {}, 2);
    ClimbOn(s.at.forest, {}, 11);
    ClimbOn(s.at.forest, {}, 14);
    ClimbOn(s.at.forest, {}, 17);
    ClimbOn(s.at.forest, {}, 19);
    ClimbOn(s.at.forest, {}, 24);
    PassEnds(s.at.forest, 2);
    PassOn(s.at.forest, 11, 2);
    ParentRank(s.at.forest, 11);
    tr, s := TakeMove(g, tr, s, 14, 2, {}, {24} + ({19} + ({17} + ({14} + ({11} + {2})))), {11} + {});
  }

  // ---------------------------------------------------------------- what is lost

  /** Every path to the return block ends through 11. */
  lemma {:induction false} ThroughEleven(path: seq<Addr>, a: Addr)
    requires IsPath(LostGraph(), path, a, RETURN) && a != RETURN
    ensures 11 in path
    decreases |path|
  {
    if path[1] == RETURN {
      assert LostGraph()[2] == {11};
    } else {
      ThroughEleven(path[1..], path[1]);
    }
  }

  lemma LostAtMostThree()
    ensures AtMost(LostGraph(), 3)
  {
    var g := LostGraph();
    forall p ensures |Succs(g, p)| <= 3 {
      var few := LostSuccs(p);
      assert Succs(g, p) <= few;
      SubsetSize(Succs(g, p), few);
    }
  }

  ghost function LostSuccs(p: Addr): (few: set<Addr>)
    ensures |few| <= 3
  {
    if p == 14 then {11, 24, 25} else if p == 25 then {21, 23, 24}
    else if p == 21 then {19, 23} else if p == 23 then {14, 20}
    else if p == 11 then {2} else if p == 15 then {11} else if p == 17 then {14} else if p == 18 then {15}
    else if p == 19 then {17} else if p == 20 then {18} else if p == 24 then {19} else {}
  }

  lemma NotAbove(f: Forest)
    requires f.Valid() && Points(f, 25, 14, 4) && Points(f, 14, 2, 2)
    ensures !f.Above(11, 25)
  {
    UpTop(f);
    UpOn(f, 14, {2});
  }

  /** 11 lies on every path from 25 to the return block, and the finished tree does not put it above 25. */
  lemma PostDominatorIsLost() returns (g: Graph, tr: seq<Keyed>, a: Addr, d: Addr)
    ensures WellFormed(g) && AtMost(g, 3) && IsKeyedRun(g, tr) && Finished(tr[|tr| - 1].at)
    ensures var f := tr[|tr| - 1].at.forest;
            f.Valid() && a in f.rank && d != a && PostDominates(g, d, a) && !f.Above(d, a)
  {
    var s;
    tr, s := LostRun();
    g, a, d := LostGraph(), 25, 11;
    LostAtMostThree();
    NotAbove(s.at.forest);
    forall path | IsPath(g, path, a, RETURN) ensures d in path {
      ThroughEleven(path, a);
    }
  }

  /** In every state of the run all strict post-dominators of attached blocks are tree ancestors. */
  ghost predicate KeepsAncestors(g: Graph, tr: seq<Keyed>) {
    forall i: nat, a, d | i < |tr| && a in tr[i].at.forest.rank && d != a && PostDominates(g, d, a) ::
      tr[i].at.forest.Valid() && tr[i].at.forest.Above(d, a)
  }

  /** It is two successors that the code can do with: every run on every graph whose blocks precede at most k
      blocks keeps all post-dominators above the blocks they post-dominate if and only if k is at most two. */
  lemma TwoSuccessorsIff(k: nat)
    ensures (forall g: Graph, tr: seq<Keyed> | WellFormed(g) && AtMost(g, k) && IsKeyedRun(g, tr) ::
               KeepsAncestors(g, tr)) <==> k <= 2
  {
    if k <= 2 {
      forall g: Graph, tr: seq<Keyed> | WellFormed(g) && AtMost(g, k) && IsKeyedRun(g, tr)
        ensures KeepsAncestors(g, tr)
      {
        FewKeepAncestors(g, tr, k);
      }
    } else {
      var g, tr, a, d := PostDominatorIsLost();
      assert AtMost(g, k);
      assert !KeepsAncestors(g, tr) by { LostKeepsNot(g, tr, a, d); }
    }
  }

  lemma FewKeepAncestors(g: Graph, tr: seq<Keyed>, k: nat)
    requires WellFormed(g) && AtMost(g, k) && IsKeyedRun(g, tr) && k <= 2
    ensures KeepsAncestors(g, tr)
  {
    assert AtMost(g, 2);
    forall i: nat, a, d | i < |tr| && a in tr[i].at.forest.rank && d != a && PostDominates(g, d, a)
      ensures tr[i].at.forest.Valid() && tr[i].at.forest.Above(d, a)
    {
      KeyedAncestors(g, tr, i, a, d);
    }
  }

  lemma LostKeepsNot(g: Graph, tr: seq<Keyed>, a: Addr, d: Addr)
    requires |tr| > 0 && tr[|tr| - 1].at.forest.Valid() && a in tr[|tr| - 1].at.forest.rank
    requires d != a && PostDominates(g, d, a) && !tr[|tr| - 1].at.forest.Above(d, a)
    ensures !KeepsAncestors(g, tr)
  {
  }
}
