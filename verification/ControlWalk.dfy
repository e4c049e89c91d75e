/** Which pushed branches are still pending when control reaches the return block.

    At the start of a block the branches whose blocks have it as their parent are popped, in rising order.
    PopControl stops at the first of them that is not pending, so that a branch can outlive its place. */
module ControlWalk {
  import opened PostDominance
  import opened KeyedPass
  import opened PassExactness
  import opened Routine
  import opened AddressMaps
  import opened PostDominanceTree
  import opened GraphHandover
  import opened RoutineGraphs
  import opened ControlPlacement
  import opened Taint

  // ---------------------------------------------------------------- one pop

  /** The elements of a set in rising order. */
  ghost function Rising(bs: set<Addr>): seq<Addr>
    decreases bs
  {
    if bs == {} then [] else [Least(bs)] + Rising(bs - {Least(bs)})
  }

  /** The branches with a control entry. */
  ghost function PendingOf(s: State): set<Addr> {
    set l | l in s && l.C? :: l.branch
  }

  /** Branch a is listed in bs behind one that is not pending. */
  ghost predicate Blocked(pending: set<Addr>, bs: set<Addr>, a: Addr) {
    exists x :: x in bs && x < a && x !in pending
  }

  /** What is pending after bs have been popped. */
  ghost function Left(pending: set<Addr>, bs: set<Addr>): set<Addr> {
    set a | a in pending && (a !in bs || Blocked(pending, bs, a))
  }

  /** PopControl, called with a set of branches in rising order, removes those that no branch missing from the
      control map precedes. */
  lemma {:induction false} PopLeaves(s: State, bs: set<Addr>)
    ensures PendingOf(PopAll(s, Rising(bs))) == Left(PendingOf(s), bs)
    decreases bs
  {
    if bs == {} {
      assert Left(PendingOf(s), bs) == PendingOf(s);
    } else {
      var m := Least(bs);
      var rest := bs - {m};
      assert Rising(bs)[0] == m && Rising(bs)[1..] == Rising(rest);
      if C(m) in s {
        PopLeaves(s - {C(m)}, rest);
        assert PendingOf(s - {C(m)}) == PendingOf(s) - {m};
        LeftFirst(PendingOf(s), bs, m);
      } else {
        assert m !in PendingOf(s);
        forall a | a in PendingOf(s) ensures a in Left(PendingOf(s), bs) {
          assert a in bs ==> m < a;
        }
      }
    }
  }

  lemma LeftFirst(pending: set<Addr>, bs: set<Addr>, m: Addr)
    requires bs != {} && m == Least(bs) && m in pending
    ensures Left(pending - {m}, bs - {m}) == Left(pending, bs)
  {
    forall a | a in pending ensures a in Left(pending - {m}, bs - {m}) <==> a in Left(pending, bs) {
      if a != m && Blocked(pending, bs, a) {
        var x :| x in bs && x < a && x !in pending;
        assert x in bs - {m} && x !in pending - {m};
      }
      if a != m && Blocked(pending - {m}, bs - {m}, a) {
        var x :| x in bs - {m} && x < a && x !in pending - {m};
        assert Blocked(pending, bs, a);
      }
    }
  }

  // ---------------------------------------------------------------- a walk

  /** A visit of a block, with the branches that were pushed there and found tainted flags.  The pops come first;
      a push at the block's first instruction is inserted before them, but its branch is not among those popped
      there, which makes no difference to what is pending. */
  datatype Stop = Stop(block: Addr, pushed: set<Addr>)

  /** The branches popped at the start of a block; none at the return block, which has no instruction. */
  ghost function PopsOf(controls: AddressSets, q: Addr): set<Addr> {
    if q == RETURN then {} else At(controls, q)
  }

  /** What is pending after the first n blocks of a walk, of the branches pending at its start and those pushed on
      it. */
  ghost function Waiting(controls: AddressSets, before: set<Addr>, w: seq<Stop>, n: nat): set<Addr>
    requires n <= |w|
  {
    if n == 0 then before
    else Left(Waiting(controls, before, w, n - 1), PopsOf(controls, w[n - 1].block)) + w[n - 1].pushed
  }

  /** Branch a outlives its pop at stop j. */
  ghost predicate Outlives(controls: AddressSets, before: set<Addr>, w: seq<Stop>, j: nat, a: Addr)
    requires j < |w|
  {
    var pops := PopsOf(controls, w[j].block);
    a in pops ==> Blocked(Waiting(controls, before, w, j), pops, a)
  }

  /** Branch a outlives all its pops from stop i up to stop n. */
  ghost predicate Survives(controls: AddressSets, before: set<Addr>, w: seq<Stop>, i: nat, n: nat, a: Addr)
    requires n <= |w|
  {
    forall j: nat | i <= j < n :: Outlives(controls, before, w, j, a)
  }

  lemma SurvivesStep(controls: AddressSets, before: set<Addr>, w: seq<Stop>, i: nat, n: nat, a: Addr)
    requires i <= n < |w|
    ensures Survives(controls, before, w, i, n + 1, a) <==>
            Survives(controls, before, w, i, n, a) && Outlives(controls, before, w, n, a)
  {
    hide Outlives;
  }

  /** A branch is pending after n blocks if and only if it was pending at the start or pushed at some stop, and has
      outlived all its pops since. */
  lemma {:induction false} WaitingIff(controls: AddressSets, before: set<Addr>, w: seq<Stop>, n: nat, a: Addr)
    requires n <= |w|
    ensures a in Waiting(controls, before, w, n) <==>
            || (a in before && Survives(controls, before, w, 0, n, a))
            || exists i: nat :: i < n && a in w[i].pushed && Survives(controls, before, w, i + 1, n, a)
  {
    hide Blocked, Survives;
    if n == 0 {
      SurvivesNone(controls, before, w, 0, a);
    } else {
      WaitingIff(controls, before, w, n - 1, a);
      SurvivesNone(controls, before, w, n, a);
      forall i: nat | i < n
        ensures Survives(controls, before, w, i, n, a) <==>
                Survives(controls, before, w, i, n - 1, a) && Outlives(controls, before, w, n - 1, a)
      {
        SurvivesStep(controls, before, w, i, n - 1, a);
      }
      assert a in w[n - 1].pushed ==> Survives(controls, before, w, n - 1 + 1, n, a);
      if i: nat :| i < n - 1 && a in w[i].pushed && Survives(controls, before, w, i + 1, n - 1, a) {
        if Outlives(controls, before, w, n - 1, a) {
          assert Survives(controls, before, w, i + 1, n, a);
        }
      }
    }
  }

  lemma SurvivesNone(controls: AddressSets, before: set<Addr>, w: seq<Stop>, n: nat, a: Addr)
    requires n <= |w|
    ensures Survives(controls, before, w, n, n, a)
  {
  }

  // ---------------------------------------------------------------- the walk on taint states

  /** The branches of a routine that were pushed while the flags were tainted. */
  ghost function Gained(own: set<Addr>, s: State, es: seq<Event>, n: nat): set<Addr>
    requires n <= |es|
  {
    if n == 0 then {}
    else Gained(own, s, es, n - 1) + GainedBy(own, Run(s, es, n - 1), es[n - 1])
  }

  ghost function GainedBy(own: set<Addr>, s: State, e: Event): set<Addr> {
    if e.Push? && e.branch in own && TaintOf(s, R(FLAGS)) != {} then {e.branch} else {}
  }

  /** A pop of branches of other routines only. */
  ghost predicate Foreign(own: set<Addr>, e: Event) {
    e.Pop? ==> forall b | b in e.branches :: b !in own
  }

  lemma {:induction false} EventsGain(own: set<Addr>, s: State, es: seq<Event>, n: nat)
    requires n <= |es| && forall k | 0 <= k < n :: Foreign(own, es[k])
    ensures PendingOf(Run(s, es, n)) * own == PendingOf(s) * own + Gained(own, s, es, n)
  {
    hide Apply, PendingOf, GainedBy, Foreign;
    if n > 0 {
      EventsGain(own, s, es, n - 1);
      EventGains(own, Run(s, es, n - 1), es[n - 1]);
    }
  }

  lemma EventGains(own: set<Addr>, s: State, e: Event)
    requires Foreign(own, e)
    ensures PendingOf(Apply(s, e)) * own == PendingOf(s) * own + GainedBy(own, s, e)
  {
    PendingHas(s);
    PendingHas(Apply(s, e));
    hide PendingOf;
    forall b | b in own ensures b in PendingOf(Apply(s, e)) <==> b in PendingOf(s) || b in GainedBy(own, s, e) {
      if e.Pop? {
        PopAt(s, e.branches, C(b));
      }
    }
  }

  lemma PendingHas(s: State)
    ensures forall b :: b in PendingOf(s) <==> C(b) in s
  {
    forall b ensures b in PendingOf(s) <==> C(b) in s {
      if C(b) in s {
        assert C(b).branch in PendingOf(s);
      }
    }
  }

  /** Events es happen at a stop behind its pop, between states s and t. */
  ghost predicate Stays(controls: AddressSets, own: set<Addr>, stop: Stop, es: seq<Event>, s: State, t: State) {
    var popped := PopAll(s, Rising(PopsOf(controls, stop.block)));
    && PopsOf(controls, stop.block) <= own && (forall k | 0 <= k < |es| :: Foreign(own, es[k]))
    && t == Run(popped, es, |es|) && stop.pushed == Gained(own, popped, es, |es|)
  }

  /** states are those of a walk through a routine with branches own, in which events es[n] happen at stop n behind
      its pop.  What was pending at the start is free, and so are the events of other routines. */
  ghost predicate Walked(controls: AddressSets, own: set<Addr>, w: seq<Stop>, es: seq<seq<Event>>,
                         states: seq<State>)
  {
    && |es| == |w| && |states| == |w| + 1
    && forall n | 0 <= n < |w| :: Stays(controls, own, w[n], es[n], states[n], states[n + 1])
  }

  lemma StayKeeps(controls: AddressSets, own: set<Addr>, stop: Stop, es: seq<Event>, s: State, t: State)
    requires Stays(controls, own, stop, es, s, t)
    ensures PendingOf(t) * own == Left(PendingOf(s) * own, PopsOf(controls, stop.block)) + stop.pushed
  {
    hide PendingOf, Left, PopAll, Run, Gained, PopsOf, Foreign, Rising;
    var pops := PopsOf(controls, stop.block);
    PopLeaves(s, pops);
    LeftOfOwn(PendingOf(s), pops, own);
    EventsGain(own, PopAll(s, Rising(pops)), es, |es|);
  }

  lemma LeftOfOwn(pending: set<Addr>, bs: set<Addr>, own: set<Addr>)
    requires bs <= own
    ensures Left(pending, bs) * own == Left(pending * own, bs)
  {
    forall a | a in own ensures Blocked(pending, bs, a) <==> Blocked(pending * own, bs, a) {
      if x :| x in bs && x < a && x !in pending {
        assert x !in pending * own;
      }
      if x :| x in bs && x < a && x !in pending * own {
        assert x !in pending;
      }
    }
  }

  /** The control entries of a routine's branches along a walk are those of the branches waiting. */
  lemma {:induction false} WalkedWaits(controls: AddressSets, own: set<Addr>, w: seq<Stop>, es: seq<seq<Event>>,
                                       states: seq<State>, n: nat)
    requires Walked(controls, own, w, es, states) && n <= |w|
    ensures PendingOf(states[n]) * own == Waiting(controls, PendingOf(states[0]) * own, w, n)
  {
    hide PendingOf, Left, PopsOf, Stays;
    if n > 0 {
      WalkedWaits(controls, own, w, es, states, n - 1);
      StayKeeps(controls, own, w[n - 1], es[n - 1], states[n - 1], states[n]);
    }
  }

  // ---------------------------------------------------------------- walks through a routine

  /** Branch a is pushed in the block at s. */
  ghost predicate PushedIn(g: RoutineGraph, conditional: seq<bool>, s: Addr, a: Addr)
    requires |g.run| > 0 && |conditional| == |g.code| == |g.layout.start|
    reads g`run
  {
    s in g.Tree().parent && PopsAt(g, conditional, |g.code|, g.Tree().parent[s], a) && InBlock(g, s, a)
  }

  ghost predicate InBlock(g: RoutineGraph, s: Addr, a: Addr)
    requires |g.code| == |g.layout.start|
  {
    exists i: nat :: i < |g.code| && g.code[i].addr == a && g.layout.start[i] == s
  }

  ghost function BlocksOf(w: seq<Stop>): seq<Addr> {
    seq(|w|, i requires 0 <= i < |w| => w[i].block)
  }

  /** w walks from some block of the routine to the return block, and pushes branches in their own blocks. */
  ghost predicate IsWalk(g: RoutineGraph, conditional: seq<bool>, w: seq<Stop>)
    requires |g.run| > 0 && |conditional| == |g.code| == |g.layout.start|
    reads g`run, g`cfg
  {
    && |w| > 0 && IsPath(g.Predecessors(), BlocksOf(w), w[0].block, RETURN)
    && forall i, a | 0 <= i < |w| && a in w[i].pushed :: PushedIn(g, conditional, w[i].block, a)
  }

  /** The routine is built, and its branches are collected under the parents of their blocks. */
  ghost predicate Placed(g: RoutineGraph, conditional: seq<bool>, controls: AddressSets)
    reads g`addressMap, g`heads, g`cfg, g`run, g.heads.Values
  {
    && g.Built() && |g.run| > 0 && |conditional| == |g.code| == |g.layout.start|
    && Collected(g, conditional, |g.code|, controls)
  }

  lemma CollectedAt(g: RoutineGraph, conditional: seq<bool>, controls: AddressSets, q: Addr, a: Addr)
    requires Placed(g, conditional, controls)
    ensures a in At(controls, q) <==> PopsAt(g, conditional, |g.code|, q, a)
  {
    hide PopsAt, RoutineGraph.Built;
  }

  /** A branch pushed in a block is collected under that block's parent and nowhere else. */
  lemma PushedUnderParent(g: RoutineGraph, conditional: seq<bool>, controls: AddressSets, s: Addr, a: Addr, q: Addr)
    requires Placed(g, conditional, controls) && PushedIn(g, conditional, s, a)
    ensures a in At(controls, q) <==> q == g.Tree().parent[s]
  {
    CollectedAt(g, conditional, controls, q, a);
    assert Plausible(g.code, g.beyond);
    hide RoutineGraph.Built, Collected;
  }

  lemma {:induction false} PathFrom(g: Graph, s: seq<Addr>, a: Addr, i: nat)
    requires IsPath(g, s, a, RETURN) && i < |s|
    ensures IsPath(g, s[i..], s[i], RETURN)
    decreases i
  {
    if i > 0 {
      PathFrom(g, s[1..], s[1], i - 1);
      assert s[1..][i - 1..] == s[i..];
    } else {
      assert s[0..] == s;
    }
  }

  /** In an exact tree a walk meets the place where a branch is popped behind every push. */
  lemma {:induction false} MeetsItsPop(g: RoutineGraph, conditional: seq<bool>, w: seq<Stop>, i: nat) returns (j: nat)
    requires |g.run| > 0 && |conditional| == |g.code| == |g.layout.start| && IsWalk(g, conditional, w)
    requires ExactTree(g.Predecessors(), g.Tree()) && i < |w| && w[i].block in g.Tree().parent
    ensures i < j < |w| && w[j].block == g.Tree().parent[w[i].block]
  {
    hide Forest.Valid, Forest.Above, PushedIn, ExactTree;
    var f, s, path := g.Tree(), w[i].block, BlocksOf(w);
    var q := f.parent[s];
    ParentPostDominates(g.Predecessors(), f, s);
    PathFrom(g.Predecessors(), path, w[0].block, i);
    assert q in path[i..];
    var k :| 0 <= k < |path[i..]| && path[i..][k] == q;
    j := i + k;
  }

  lemma ParentPostDominates(g: Graph, f: Forest, s: Addr)
    requires ExactTree(g, f) && s in f.parent
    ensures f.parent[s] != s && PostDominates(g, f.parent[s], s)
  {
    f.UpBasics(f.parent[s]);
  }

  /** No two branches share a place other than the return block. */
  ghost predicate Apart(controls: AddressSets) {
    forall q, x, y | q != RETURN && x in At(controls, q) && y in At(controls, q) :: x == y
  }

  /** Whatever walk control takes, and whichever branches find tainted flags, the only ones pending at its end are
      those that are popped nowhere, their blocks' parent being the return block. */
  ghost predicate Clean(g: RoutineGraph, conditional: seq<bool>, controls: AddressSets)
    requires |g.run| > 0 && |conditional| == |g.code| == |g.layout.start|
    reads g`run, g`cfg
  {
    forall w, a | IsWalk(g, conditional, w) && a in Waiting(controls, {}, w, |w|) :: a in At(controls, RETURN)
  }

  lemma {:induction false} ApartIsClean(g: RoutineGraph, conditional: seq<bool>, controls: AddressSets,
                                        w: seq<Stop>, a: Addr)
    requires Placed(g, conditional, controls) && ExactTree(g.Predecessors(), g.Tree()) && Apart(controls)
    requires IsWalk(g, conditional, w) && a in Waiting(controls, {}, w, |w|)
    ensures a in At(controls, RETURN)
  {
    hide RoutineGraph.Built, Collected, PopsAt, ExactTree, Waiting;
    WaitingIff(controls, {}, w, |w|, a);
    var i: nat :| i < |w| && a in w[i].pushed && Survives(controls, {}, w, i + 1, |w|, a);
    assert PushedIn(g, conditional, w[i].block, a);
    var q := g.Tree().parent[w[i].block];
    PushedUnderParent(g, conditional, controls, w[i].block, a, q);
    if q != RETURN {
      var j := MeetsItsPop(g, conditional, w, i);
      assert Outlives(controls, {}, w, j, a);
    }
  }

  /** The walk along a path on which branch y alone is pushed, in the first block. */
  ghost function Lone(path: seq<Addr>, y: Addr): seq<Stop> {
    seq(|path|, i requires 0 <= i < |path| => Stop(path[i], if i == 0 then {y} else {}))
  }

  lemma {:induction false} LoneIsWalk(g: RoutineGraph, conditional: seq<bool>, path: seq<Addr>, s: Addr, y: Addr)
    requires |g.run| > 0 && |conditional| == |g.code| == |g.layout.start| && PushedIn(g, conditional, s, y)
    requires |path| > 0 && path[0] == s && IsPath(g.Predecessors(), path, s, RETURN)
    ensures IsWalk(g, conditional, Lone(path, y))
  {
    hide PushedIn, IsPath;
    assert BlocksOf(Lone(path, y)) == path;
  }

  /** If the list popped at q names x before y, then y outlives every pop on a walk without x. */
  lemma {:induction false} LoneWaits(controls: AddressSets, path: seq<Addr>, q: Addr, x: Addr, y: Addr)
    requires |path| > 0 && q != RETURN && x < y && x in At(controls, q) && y in At(controls, q)
    requires forall b :: y in At(controls, b) ==> b == q
    ensures y in Waiting(controls, {}, Lone(path, y), |path|)
  {
    hide Waiting, At;
    var w := Lone(path, y);
    forall j: nat | 0 < j < |w| ensures Outlives(controls, {}, w, j, y) {
      NeverWaits(controls, w, x, j);
    }
    WaitingIff(controls, {}, w, |w|, y);
    assert y in w[0].pushed;
  }

  /** A walk from the block of a branch y on which no other branch is pushed leaves y pending if one is listed
      before it. */
  lemma SharedIsNotClean(g: RoutineGraph, conditional: seq<bool>, controls: AddressSets, q: Addr, x: Addr, y: Addr)
    requires Placed(g, conditional, controls)
    requires q != RETURN && x < y && x in At(controls, q) && y in At(controls, q)
    ensures !Clean(g, conditional, controls)
  {
    hide RoutineGraph.Built, Collected, PopsAt, PushedIn, IsWalk, Waiting;
    var s, path := PathOfBranch(g, conditional, controls, q, y);
    LoneIsWalk(g, conditional, path, s, y);
    forall b ensures y in At(controls, b) <==> b == q {
      PushedUnderParent(g, conditional, controls, s, y, b);
    }
    LoneWaits(controls, path, q, x, y);
    NotClean(g, conditional, controls, Lone(path, y), y);
  }

  lemma {:induction false} NotClean(g: RoutineGraph, conditional: seq<bool>, controls: AddressSets,
                                    w: seq<Stop>, a: Addr)
    requires |g.run| > 0 && |conditional| == |g.code| == |g.layout.start| && IsWalk(g, conditional, w)
    requires a in Waiting(controls, {}, w, |w|) && a !in At(controls, RETURN)
    ensures !Clean(g, conditional, controls)
  {
  }

  /** The block of a collected branch, and a path from there to the return block. */
  lemma PathOfBranch(g: RoutineGraph, conditional: seq<bool>, controls: AddressSets, q: Addr, y: Addr)
    returns (s: Addr, path: seq<Addr>)
    requires Placed(g, conditional, controls) && y in At(controls, q)
    ensures PushedIn(g, conditional, s, y) && g.Tree().parent[s] == q
    ensures IsPath(g.Predecessors(), path, s, RETURN) && |path| > 0 && path[0] == s
  {
    hide RoutineGraph.Built, Collected, IsPath;
    CollectedAt(g, conditional, controls, q, y);
    var i: nat :| i < |g.code| && g.code[i].addr == y && Controls(g, conditional, i, q);
    s := g.layout.start[i];
    path := PathOut(g, s);
  }

  lemma PathOut(g: RoutineGraph, s: Addr) returns (path: seq<Addr>)
    requires g.Built() && |g.run| > 0 && s in g.Tree().parent
    ensures IsPath(g.Predecessors(), path, s, RETURN) && |path| > 0 && path[0] == s
  {
    hide IsKeyedRun, Completed, PassBlocks;
    CompletedFacts(PassBlocks(g.heads, g.layout), g.Predecessors(), g.run);
    AttachedIffReachesReturn(g.Predecessors(), g.run, s);
    path :| IsPath(g.Predecessors(), path, s, RETURN) && forall v | v in path :: v !in {};
  }

  lemma {:induction false} NeverWaits(controls: AddressSets, w: seq<Stop>, x: Addr, n: nat)
    requires n <= |w| && forall i | 0 <= i < |w| :: x !in w[i].pushed
    ensures x !in Waiting(controls, {}, w, n)
  {
    if n > 0 {
      NeverWaits(controls, w, x, n - 1);
    }
  }

  /** In a routine with an exact tree every walk ends clean if and only if no two branches share a place. */
  lemma CleanIffApart(g: RoutineGraph, conditional: seq<bool>, controls: AddressSets)
    requires Placed(g, conditional, controls) && ExactTree(g.Predecessors(), g.Tree())
    ensures Clean(g, conditional, controls) <==> Apart(controls)
  {
    hide Waiting, IsWalk, ExactTree, PopsAt, RoutineGraph.Built, Collected;
    if Apart(controls) {
      forall w, a | IsWalk(g, conditional, w) && a in Waiting(controls, {}, w, |w|) ensures a in At(controls, RETURN) {
        ApartIsClean(g, conditional, controls, w, a);
      }
    } else {
      var q, x, y :| q != RETURN && x in At(controls, q) && y in At(controls, q) && x != y;
      if x < y {
        SharedIsNotClean(g, conditional, controls, q, x, y);
      } else {
        SharedIsNotClean(g, conditional, controls, q, y, x);
      }
    }
  }
}
