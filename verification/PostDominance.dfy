/** The post-dominance pass of RoutineGraph, on block addresses.

    A predecessor graph maps each block's starting address to the addresses of its predecessors.
    The pass keeps a parent-pointer tree rooted at the return block (address 2).  `Forest` is that
    tree, `Config` is the state of the worklist pass, and `IsRun` describes every execution of it. */
module PostDominance {

  type Addr = nat

  const RETURN: Addr := 2

  // ---------------------------------------------------------------- graphs and paths

  type Graph = map<Addr, set<Addr>>

  /** Every predecessor is a block of the graph, and the return block precedes nothing. */
  ghost predicate WellFormed(g: Graph) {
    && RETURN in g
    && forall a | a in g :: g[a] <= g.Keys && RETURN !in g[a]
  }

  /** There is a control-flow edge from a to b. */
  ghost predicate Edge(g: Graph, a: Addr, b: Addr) {
    b in g && a in g[b]
  }

  ghost predicate IsPath(g: Graph, s: seq<Addr>, a: Addr, b: Addr) {
    && |s| > 0 && s[0] == a
    && if |s| == 1 then a == b else Edge(g, a, s[1]) && IsPath(g, s[1..], s[1], b)
  }

  /** Some path leads from a to b and meets no block of `avoid`. */
  ghost predicate Reach(g: Graph, a: Addr, b: Addr, avoid: set<Addr>) {
    exists s :: IsPath(g, s, a, b) && forall v | v in s :: v !in avoid
  }

  /** d lies on every path from a to the return block. */
  ghost predicate PostDominates(g: Graph, d: Addr, a: Addr) {
    forall s | IsPath(g, s, a, RETURN) :: d in s
  }

  lemma ReachSelf(g: Graph, a: Addr, avoid: set<Addr>)
    requires a !in avoid
    ensures Reach(g, a, a, avoid)
  {
    assert IsPath(g, [a], a, a);
  }

  lemma ReachPrepend(g: Graph, p: Addr, c: Addr, b: Addr, avoid: set<Addr>)
    requires Edge(g, p, c) && p !in avoid
    requires Reach(g, c, b, avoid)
    ensures Reach(g, p, b, avoid)
  {
    var s :| IsPath(g, s, c, b) && forall v | v in s :: v !in avoid;
    assert ([p] + s)[1..] == s;
    assert IsPath(g, [p] + s, p, b);
  }

  lemma {:induction false} PathConcat(g: Graph, s: seq<Addr>, t: seq<Addr>, a: Addr, b: Addr, c: Addr)
    requires IsPath(g, s, a, b) && IsPath(g, t, b, c)
    ensures IsPath(g, s[..|s| - 1] + t, a, c)
    decreases |s|
  {
    var st := s[..|s| - 1] + t;
    if |s| == 1 {
      assert st == t;
    } else {
      PathConcat(g, s[1..], t, s[1], b, c);
      assert st[1..] == s[1..][..|s| - 2] + t;
    }
  }

  lemma ReachTrans(g: Graph, a: Addr, b: Addr, c: Addr, avoid: set<Addr>)
    requires Reach(g, a, b, avoid) && Reach(g, b, c, avoid)
    ensures Reach(g, a, c, avoid)
  {
    var s :| IsPath(g, s, a, b) && forall v | v in s :: v !in avoid;
    var t :| IsPath(g, t, b, c) && forall v | v in t :: v !in avoid;
    PathConcat(g, s, t, a, b, c);
  }

  lemma ReachWeaken(g: Graph, a: Addr, b: Addr, avoid: set<Addr>, less: set<Addr>)
    requires Reach(g, a, b, avoid) && less <= avoid
    ensures Reach(g, a, b, less)
  {
    var s :| IsPath(g, s, a, b) && forall v | v in s :: v !in avoid;
    assert forall v | v in s :: v !in less;
  }

  // ---------------------------------------------------------------- the parent-pointer tree

  /** `parent` is the PostDominator pointer of every attached block.  `rank` grows strictly away
      from the return block; a move never changes it, because blocks only move upwards. */
  datatype Forest = Forest(parent: map<Addr, Addr>, rank: map<Addr, nat>) {

    ghost predicate Valid() {
      && RETURN !in parent
      && rank.Keys == parent.Keys + {RETURN}
      && forall a | a in parent :: parent[a] in rank && rank[parent[a]] < rank[a]
    }

    /** a and all its tree ancestors. */
    ghost function Up(a: Addr): set<Addr>
      requires Valid() && a in rank
      decreases rank[a]
    {
      {a} + if a in parent then Up(parent[a]) else {}
    }

    /** x is a strict tree ancestor of d. */
    ghost predicate Above(x: Addr, d: Addr)
      requires Valid()
    {
      d in parent && x in Up(parent[d])
    }

    /** The climb from c to the first block that is strictly above p. */
    ghost function Common(c: Addr, p: Addr): (n: Addr)
      requires Valid() && c in rank
      ensures n in rank
      decreases rank[c]
    {
      if c == RETURN || Above(c, p) then c else Common(parent[c], p)
    }

    function Attach(p: Addr, c: Addr): Forest
      requires c in rank
    {
      Forest(parent[p := c], rank[p := rank[c] + 1])
    }

    function Move(p: Addr, n: Addr): Forest {
      this.(parent := parent[p := n])
    }

    /** The effect of visiting the edge from p to c. */
    ghost function AddPred(c: Addr, p: Addr): Forest
      requires Valid() && c in rank
    {
      if p in parent then Move(p, Common(c, p)) else Attach(p, c)
    }

    lemma {:induction false} UpBasics(a: Addr)
      requires Valid() && a in rank
      ensures a in Up(a) && RETURN in Up(a) && Up(a) <= rank.Keys
      decreases rank[a]
    {
      if a in parent {
        UpBasics(parent[a]);
      }
    }

    lemma UpStep(a: Addr)
      requires Valid() && a in rank
      ensures Up(a) == {a} + if a in parent then Up(parent[a]) else {}
      ensures a in parent ==> a !in Up(parent[a]) && Up(parent[a]) == Up(a) - {a}
    {
      if a in parent && a in Up(parent[a]) {
        UpTransitive(parent[a], a);
      }
    }

    lemma {:induction false} UpTransitive(a: Addr, b: Addr)
      requires Valid() && a in rank && b in Up(a)
      ensures b in rank && Up(b) <= Up(a)
      ensures b != a ==> rank[b] < rank[a]
      decreases rank[a]
    {
      if b != a {
        UpTransitive(parent[a], b);
      }
    }

    /** The ancestors of a block form a chain. */
    lemma {:induction false} UpChain(a: Addr, x: Addr, y: Addr)
      requires Valid() && a in rank && x in Up(a) && y in Up(a)
      ensures x in rank && y in rank
      ensures x in Up(y) || y in Up(x)
      decreases rank[a]
    {
      if x == a {
        UpTransitive(a, y);
      } else if y == a {
        UpTransitive(a, x);
      } else {
        UpChain(parent[a], x, y);
      }
    }

    /** The climb stops at the lowest common ancestor-or-self of c and p's parent. */
    lemma {:induction false} CommonIsLowest(c: Addr, p: Addr)
      requires Valid() && c in rank && p in parent
      ensures var n := Common(c, p);
              && n in Up(c) && n in Up(parent[p]) && n in rank
              && forall x | x in Up(c) && x in Up(parent[p]) :: x in Up(n)
      decreases rank[c]
    {
      UpBasics(c);
      UpBasics(parent[p]);
      if c == RETURN || Above(c, p) {
      } else {
        CommonIsLowest(parent[c], p);
      }
    }

    lemma {:induction false} AttachUp(p: Addr, c: Addr, a: Addr)
      requires Valid() && c in rank && p !in rank
      ensures Attach(p, c).Valid()
      ensures Attach(p, c).Up(p) == {p} + Attach(p, c).Up(c)
      ensures a in rank ==> Attach(p, c).Up(a) == Up(a)
      decreases if a in rank then rank[a] else 0
    {
      var f := Attach(p, c);
      if a in parent {
        AttachUp(p, c, parent[a]);
      }
    }

    /** Moving p up to an ancestor n of its parent q removes exactly the blocks between q and n
        from the ancestors of p's subtree, and changes no other ancestor set. */
    lemma {:induction false} MoveUp(p: Addr, n: Addr, a: Addr)
      requires Valid() && p in parent && n in Up(parent[p]) && a in rank
      ensures Move(p, n).Valid() && n in rank
      ensures Move(p, n).Up(a) ==
              if p in Up(a) then Up(a) - (Up(parent[p]) - Up(n)) else Up(a)
      decreases rank[a]
    {
      var q := parent[p];
      UpTransitive(q, n);
      var f := Move(p, n);
      if a == p {
        MoveUp(p, n, n);
        assert p !in Up(n) by {
          if p in Up(n) { UpTransitive(n, p); }
        }
        assert p !in Up(q) by {
          if p in Up(q) { UpTransitive(q, p); }
        }
        UpTransitive(q, n);
        assert f.Up(p) == {p} + Up(n);
      } else if a in parent {
        MoveUp(p, n, parent[a]);
        if p in Up(parent[a]) {
          UpTransitive(parent[a], p);
          assert a !in Up(q) by {
            if a in Up(q) { UpTransitive(q, a); }
          }
        }
      }
    }
  }
}
