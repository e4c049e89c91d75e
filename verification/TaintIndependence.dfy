/** Marks do not interfere: what happens to one mark does not depend on the others. */
module TaintIndependence {
  import opened Taint

  /** Both states hold taint for the same registers, memory bytes and scratch sets, and mark m is at
      the same locations in both.  Pending control entries may differ where they do not hold m. */
  ghost predicate Agree(m: nat, s: State, t: State) {
    && (forall l: Loc | !l.C? :: l in s <==> l in t)
    && forall l :: m in TaintOf(s, l) <==> m in TaintOf(t, l)
  }

  /** The same event, up to which other mark is introduced. */
  ghost predicate SameFor(m: nat, e: Event, f: Event) {
    || e == f
    || (e.NewTaint? && f.NewTaint? && e.start == f.start && e.size == f.size && e.mark != m && f.mark != m)
  }

  /** A pop that can remove at most one entry, whichever entries are pending. */
  ghost predicate RemovesAtMostOne(bs: seq<nat>) {
    |bs| < 2 || bs[0] == bs[1]
  }

  ghost predicate SinglePop(e: Event) {
    e.Pop? ==> RemovesAtMostOne(e.branches)
  }

  lemma UnionAgrees(m: nat, s: State, t: State, ls: set<Loc>)
    requires Agree(m, s, t)
    ensures m in UnionOf(s, ls) <==> m in UnionOf(t, ls)
  {
    UnionHas(s, ls, m);
    UnionHas(t, ls, m);
  }

  lemma ControlAgrees(m: nat, s: State, t: State)
    requires Agree(m, s, t)
    ensures m in ControlOf(s) <==> m in ControlOf(t)
  {
    ControlHas(s, m);
    ControlHas(t, m);
  }

  lemma WriteAgrees(m: nat, s: State, t: State, ls: set<Loc>, us: Marks, vs: Marks)
    requires Agree(m, s, t) && (m in us <==> m in vs)
    ensures Agree(m, Write(s, ls, us), Write(t, ls, vs))
  {
    forall l
      ensures m in TaintOf(Write(s, ls, us), l) <==> m in TaintOf(Write(t, ls, vs), l)
    {
      WriteAt(s, ls, us, l);
      WriteAt(t, ls, vs, l);
    }
  }

  /** A write to those of some registers or bytes that already hold taint. */
  lemma OverwriteAgrees(m: nat, s: State, t: State, ls: set<Loc>, us: Marks, vs: Marks)
    requires Agree(m, s, t) && (m in us <==> m in vs) && forall l | l in ls :: !l.C?
    ensures Agree(m, Write(s, ls * s.Keys, us), Write(t, ls * t.Keys, vs))
  {
    assert ls * s.Keys == ls * t.Keys;
    WriteAgrees(m, s, t, ls * s.Keys, us, vs);
  }

  /** PushControl branches on whether the flags are tainted at all, but for mark m this is invisible. */
  lemma PushAgrees(m: nat, s: State, t: State, b: nat)
    requires Agree(m, s, t)
    ensures Agree(m, Apply(s, Push(b)), Apply(t, Push(b)))
  {
    forall l
      ensures m in TaintOf(Apply(s, Push(b)), l) <==> m in TaintOf(Apply(t, Push(b)), l)
    {
      PushAt(s, b, l, m);
      PushAt(t, b, l, m);
    }
  }

  lemma PushAt(s: State, b: nat, l: Loc, m: nat)
    ensures m in TaintOf(Apply(s, Push(b)), l) <==>
            m in TaintOf(s, l) || (l == C(b) && m in TaintOf(s, R(FLAGS)))
  {
  }

  lemma RemoveAgrees(m: nat, s: State, t: State, l: Loc)
    requires Agree(m, s, t)
    ensures Agree(m, s - {l}, t - {l})
  {
    forall k ensures m in TaintOf(s - {l}, k) <==> m in TaintOf(t - {l}, k) {
      assert m in TaintOf(s, k) <==> m in TaintOf(t, k);
    }
  }

  lemma PopOneAgrees(m: nat, s: State, t: State, bs: seq<nat>)
    requires Agree(m, s, t) && RemovesAtMostOne(bs)
    ensures Agree(m, PopAll(s, bs), PopAll(t, bs))
  {
    hide RemovesAtMostOne;
    if bs != [] {
      hide PopAll;
      PopOne(s, bs);
      PopOne(t, bs);
      RemoveAgrees(m, s, t, C(bs[0]));
    }
  }

  lemma PopOne(s: State, bs: seq<nat>)
    requires bs != [] && RemovesAtMostOne(bs)
    ensures PopAll(s, bs) == s - {C(bs[0])}
  {
    if C(bs[0]) in s {
      assert |bs| > 1 ==> bs[1..][0] == bs[0];
    } else {
      assert s - {C(bs[0])} == s;
    }
  }

  lemma StepAgrees(m: nat, s: State, t: State, e: Event)
    requires Agree(m, s, t) && SinglePop(e)
    ensures Agree(m, Apply(s, e), Apply(t, e))
  {
    ControlAgrees(m, s, t);
    match e
    case LoadReg(r, x) => WriteAgrees(m, s, t, {S(x)}, TaintOf(s, R(r)), TaintOf(t, R(r)));
    case LoadMem(start, size, x) =>
      UnionAgrees(m, s, t, MemLocs(start, size));
      WriteAgrees(m, s, t, {S(x)}, UnionOf(s, MemLocs(start, size)), UnionOf(t, MemLocs(start, size)));
    case ClearScratch(x) => WriteAgrees(m, s, t, {S(x)}, {}, {});
    case SetReg(r, xs) =>
      UnionAgrees(m, s, t, ScratchLocs(xs));
      WriteAgrees(m, s, t, RegLocs(r), Written(s, xs), Written(t, xs));
    case SetMem(start, size, xs) =>
      UnionAgrees(m, s, t, ScratchLocs(xs));
      WriteAgrees(m, s, t, MemLocs(start, size), Written(s, xs), Written(t, xs));
    case ClearReg(r) => OverwriteAgrees(m, s, t, {R(r)}, ControlOf(s), ControlOf(t));
    case ClearMem(start, size) => OverwriteAgrees(m, s, t, MemLocs(start, size), ControlOf(s), ControlOf(t));
    case NewTaint(start, size, mark) => WriteAgrees(m, s, t, MemLocs(start, size), {mark}, {mark});
    case Push(b) => PushAgrees(m, s, t, b);
    case Pop(bs) => PopOneAgrees(m, s, t, bs);
  }

  lemma EventAgrees(m: nat, s: State, e: Event, f: Event)
    requires SameFor(m, e, f)
    ensures Agree(m, Apply(s, e), Apply(s, f))
  {
    if e != f {
      assert Agree(m, s, s);
      WriteAgrees(m, s, s, MemLocs(e.start, e.size), {e.mark}, {f.mark});
    }
  }

  /** Whole runs: from states that agree on mark m, event sequences that are the same for m lead to
      states that agree on m, as long as every pop names one branch. */
  lemma {:induction false} RunsAgree(m: nat, s: State, t: State, es: seq<Event>, fs: seq<Event>, n: nat)
    requires Agree(m, s, t) && n <= |es| == |fs|
    requires forall i | 0 <= i < n :: SameFor(m, es[i], fs[i]) && SinglePop(es[i])
    ensures Agree(m, Run(s, es, n), Run(t, fs, n))
  {
    if n > 0 {
      RunsAgree(m, s, t, es, fs, n - 1);
      var s', t' := Run(s, es, n - 1), Run(t, fs, n - 1);
      StepAgrees(m, s', t', es[n - 1]);
      EventAgrees(m, t', es[n - 1], fs[n - 1]);
    }
  }

  /** The state with all marks but m removed. */
  function Only(m: nat, s: State): State {
    map l | l in s :: s[l] * {m}
  }

  /** Running and then keeping only mark m gives the same taints as running from the start state
      restricted to m and then keeping only m. */
  lemma RestrictionCommutes(m: nat, s: State, es: seq<Event>, n: nat, l: Loc)
    requires n <= |es| && forall i | 0 <= i < n :: SinglePop(es[i])
    ensures TaintOf(Run(s, es, n), l) * {m} == TaintOf(Run(Only(m, s), es, n), l) * {m}
  {
    assert Agree(m, s, Only(m, s));
    RunsAgree(m, s, Only(m, s), es, es, n);
  }

  // ---------------------------------------------------------------- pops that name several branches

  /** Popping keeps marks apart from every pair of states exactly when it can remove at most one entry:
      an entry that holds only other marks decides how far a longer list is followed. */
  lemma PopAgreesIff(m: nat, bs: seq<nat>)
    ensures (forall s, t | Agree(m, s, t) :: Agree(m, PopAll(s, bs), PopAll(t, bs))) <==> RemovesAtMostOne(bs)
  {
    if RemovesAtMostOne(bs) {
      forall s, t | Agree(m, s, t) ensures Agree(m, PopAll(s, bs), PopAll(t, bs)) {
        PopOneAgrees(m, s, t, bs);
      }
    } else {
      var s, t := LongPopInterferes(m, bs);
    }
  }

  /** Entry bs[1] holds m.  It is removed if bs[0] is pending, even if only with another mark. */
  lemma LongPopInterferes(m: nat, bs: seq<nat>) returns (s: State, t: State)
    requires !RemovesAtMostOne(bs)
    ensures Agree(m, s, t) && !Agree(m, PopAll(s, bs), PopAll(t, bs))
  {
    s := map[C(bs[0]) := {m + 1}, C(bs[1]) := {m}];
    t := map[C(bs[1]) := {m}];
    assert Pending(t, bs) == 0;
    assert bs[1..][0] == bs[1];
    assert Pending(s, bs) >= 2;
    PopAt(s, bs, C(bs[1]));
    assert bs[1] in bs[..Pending(s, bs)];
    assert m in TaintOf(PopAll(t, bs), C(bs[1]));
  }
}
