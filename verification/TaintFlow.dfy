/** Where a mark comes from: taint at the end of a run is exactly what chains of writes carry. */
module TaintFlow {
  import opened Taint

  /** Event e, applied in state s, carries the taint of location `from` to location `to`: a write reads
      its sources and, for registers and memory, every pending control entry, and whatever is not
      overwritten or removed stays. */
  ghost predicate Carries(s: State, e: Event, from: Loc, to: Loc) {
    match e
    case LoadReg(r, x) => if to == S(x) then from == R(r) else from == to
    case LoadMem(start, size, x) => if to == S(x) then from in MemLocs(start, size) else from == to
    case ClearScratch(x) => to != S(x) && from == to
    case SetReg(r, xs) => if to in RegLocs(r) then from in ScratchLocs(xs) || from.C? else from == to
    case SetMem(start, size, xs) =>
      if to in MemLocs(start, size) then from in ScratchLocs(xs) || from.C? else from == to
    case ClearReg(r) => if to == R(r) && to in s then from.C? else from == to
    case ClearMem(start, size) => if to in MemLocs(start, size) && to in s then from.C? else from == to
    case NewTaint(start, size, _) => to !in MemLocs(start, size) && from == to
    case Push(b) => from == to || (to == C(b) && from == R(FLAGS))
    case Pop(bs) => from == to && to !in BranchLocs(bs[..Pending(s, bs)])
  }

  /** Event e introduces mark m at location l. */
  ghost predicate Introduces(e: Event, l: Loc, m: nat) {
    e.NewTaint? && l in MemLocs(e.start, e.size) && m == e.mark
  }

  /** One step: a mark is at a location afterwards exactly when it was introduced there or carried
      there from a location that held it. */
  lemma StepCarries(s: State, e: Event, l: Loc, m: nat)
    ensures m in TaintOf(Apply(s, e), l) <==>
            Introduces(e, l, m) || exists from :: Carries(s, e, from, l) && m in TaintOf(s, from)
  {
    match e
    case SetReg(r, xs) => StepWriteCarries(s, RegLocs(r), xs, l, m);
    case SetMem(start, size, xs) => StepWriteCarries(s, MemLocs(start, size), xs, l, m);
    case ClearReg(r) =>
      WriteAt(s, {R(r)} * s.Keys, ControlOf(s), l);
      ControlHas(s, m);
      Stays(s, e, l, m);
    case ClearMem(start, size) =>
      WriteAt(s, MemLocs(start, size) * s.Keys, ControlOf(s), l);
      ControlHas(s, m);
      Stays(s, e, l, m);
    case LoadReg(r, x) =>
      assert Carries(s, e, R(r), S(x));
      Stays(s, e, l, m);
    case LoadMem(start, size, x) =>
      UnionHas(s, MemLocs(start, size), m);
      Stays(s, e, l, m);
    case ClearScratch(x) => Stays(s, e, l, m);
    case NewTaint(start, size, mark) => Stays(s, e, l, m);
    case Push(b) => StepPushCarries(s, b, l, m);
    case Pop(bs) =>
      PopAt(s, bs, l);
      Stays(s, e, l, m);
  }

  /** What a location keeps through an event. */
  lemma Stays(s: State, e: Event, l: Loc, m: nat)
    ensures Carries(s, e, l, l) && m in TaintOf(s, l) ==>
              exists from :: Carries(s, e, from, l) && m in TaintOf(s, from)
  {
  }

  lemma StepWriteCarries(s: State, ls: set<Loc>, xs: seq<Scratch>, l: Loc, m: nat)
    ensures var t := Write(s, ls, UnionOf(s, ScratchLocs(xs)) + ControlOf(s));
            m in TaintOf(t, l) <==>
            if l in ls then exists from :: (from in ScratchLocs(xs) || from.C?) && m in TaintOf(s, from)
            else m in TaintOf(s, l)
  {
    UnionHas(s, ScratchLocs(xs), m);
    ControlHas(s, m);
  }

  lemma StepPushCarries(s: State, b: nat, l: Loc, m: nat)
    ensures m in TaintOf(Apply(s, Push(b)), l) <==>
            exists from :: Carries(s, Push(b), from, l) && m in TaintOf(s, from)
  {
    assert Carries(s, Push(b), l, l);
    assert l == C(b) ==> Carries(s, Push(b), R(FLAGS), l);
  }

  // ---------------------------------------------------------------- chains over a run

  /** c[0], c[1], ... are locations such that each event from number i on carries the taint of one to
      the next. */
  ghost predicate Chain(s: State, es: seq<Event>, i: nat, c: seq<Loc>) {
    && |c| > 0 && i + |c| - 1 <= |es|
    && forall k, l | 0 <= k < l < |c| && l == k + 1 :: Carries(Run(s, es, i + k), es[i + k], c[k], c[l])
  }

  /** Before event i mark m appears at l: it is there at the start, or event i - 1 introduces it. */
  ghost predicate Appears(s: State, es: seq<Event>, i: nat, l: Loc, m: nat)
    requires i <= |es|
  {
    if i == 0 then m in TaintOf(s, l) else Introduces(es[i - 1], l, m)
  }

  /** A chain of writes leads from an appearance of m to location l, where it arrives at step n. */
  ghost predicate Led(s: State, es: seq<Event>, n: nat, l: Loc, m: nat, i: nat, c: seq<Loc>) {
    && i <= |es| && Chain(s, es, i, c) && i + |c| - 1 == n && c[|c| - 1] == l
    && Appears(s, es, i, c[0], m)
  }

  lemma ChainExtend(s: State, es: seq<Event>, i: nat, c: seq<Loc>, l: Loc)
    requires Chain(s, es, i, c) && i + |c| - 1 < |es|
    requires Carries(Run(s, es, i + |c| - 1), es[i + |c| - 1], c[|c| - 1], l)
    ensures Chain(s, es, i, c + [l])
  {
    var d := c + [l];
    forall k, j | 0 <= k < j < |d| && j == k + 1
      ensures Carries(Run(s, es, i + k), es[i + k], d[k], d[j])
    {
      if j < |c| {
        assert Carries(Run(s, es, i + k), es[i + k], c[k], c[j]);
      }
    }
  }

  lemma ChainShorten(s: State, es: seq<Event>, i: nat, c: seq<Loc>)
    requires Chain(s, es, i, c) && |c| > 1
    ensures Chain(s, es, i, c[..|c| - 1])
    ensures Carries(Run(s, es, i + |c| - 2), es[i + |c| - 2], c[|c| - 2], c[|c| - 1])
  {
    var d := c[..|c| - 1];
    forall k, j | 0 <= k < j < |d| && j == k + 1
      ensures Carries(Run(s, es, i + k), es[i + k], d[k], d[j])
    {
      assert Carries(Run(s, es, i + k), es[i + k], c[k], c[j]);
    }
  }

  /** After any run a mark is at a location if and only if a chain of writes, with no intervening
      overwrite, leads there from where the mark appeared. */
  lemma {:induction false} TaintedIffLed(s: State, es: seq<Event>, n: nat, l: Loc, m: nat)
    requires n <= |es|
    ensures m in TaintOf(Run(s, es, n), l) <==> exists i, c :: Led(s, es, n, l, m, i, c)
  {
    if m in TaintOf(Run(s, es, n), l) {
      var i, c := FindChain(s, es, n, l, m);
    }
    if i, c :| Led(s, es, n, l, m, i, c) {
      ChainCarries(s, es, n, l, m, i, c);
    }
  }

  lemma {:induction false} FindChain(s: State, es: seq<Event>, n: nat, l: Loc, m: nat) returns (i: nat, c: seq<Loc>)
    requires n <= |es| && m in TaintOf(Run(s, es, n), l)
    ensures Led(s, es, n, l, m, i, c)
    decreases n
  {
    if n == 0 || Introduces(es[n - 1], l, m) {
      i, c := n, [l];
    } else {
      var before := Run(s, es, n - 1);
      StepCarries(before, es[n - 1], l, m);
      var from :| Carries(before, es[n - 1], from, l) && m in TaintOf(before, from);
      i, c := FindChain(s, es, n - 1, from, m);
      ChainExtend(s, es, i, c, l);
      c := c + [l];
    }
  }

  lemma {:induction false} ChainCarries(s: State, es: seq<Event>, n: nat, l: Loc, m: nat, i: nat, c: seq<Loc>)
    requires n <= |es| && Led(s, es, n, l, m, i, c)
    ensures m in TaintOf(Run(s, es, n), l)
    decreases n
  {
    if |c| == 1 {
      if i > 0 {
        StepCarries(Run(s, es, n - 1), es[n - 1], l, m);
      }
    } else {
      ChainShorten(s, es, i, c);
      ChainCarries(s, es, n - 1, c[|c| - 2], m, i, c[..|c| - 1]);
      StepCarries(Run(s, es, n - 1), es[n - 1], l, m);
    }
  }

  /** Writes to the stack and frame pointers are dropped, so no run ever taints them. */
  lemma {:induction false} PointerRegistersStayClean(s: State, es: seq<Event>, n: nat, r: Reg)
    requires n <= |es| && (r == ESP || r == EBP) && R(r) !in s
    ensures R(r) !in Run(s, es, n)
  {
    if n > 0 {
      PointerRegistersStayClean(s, es, n - 1, r);
      PointerStep(Run(s, es, n - 1), es[n - 1], r);
    }
  }

  lemma PointerStep(s: State, e: Event, r: Reg)
    requires (r == ESP || r == EBP) && R(r) !in s
    ensures R(r) !in Apply(s, e)
  {
    if e.Pop? {
      PopAt(s, e.branches, R(r));
    }
  }
}
