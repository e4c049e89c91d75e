/** The maps that the first pass over a routine's instructions fills. */
module AddressMaps {
  import opened PostDominance
  import opened Routine

  type AddressSets = map<Addr, set<Addr>>

  /** The set stored for an address; an absent entry reads as empty. */
  function At(m: AddressSets, a: Addr): set<Addr> {
    if a in m then m[a] else {}
  }

  function Insert(m: AddressSets, a: Addr, x: Addr): (m': AddressSets)
    ensures At(m', a) == At(m, a) + {x}
    ensures forall b | b != a :: At(m', b) == At(m, b)
  {
    m[a := At(m, a) + {x}]
  }

  /** From b, t to b', t': `bs` was added to the branches of addr, and addr to the targets of each
      element of `ts`. */
  ghost predicate Recorded(b: AddressSets, t: AddressSets, b': AddressSets, t': AddressSets,
                           addr: Addr, bs: set<Addr>, ts: set<Addr>) {
    && At(b', addr) == At(b, addr) + bs
    && (forall a | a != addr :: At(b', a) == At(b, a))
    && (forall a :: At(t', a) == At(t, a) + if a in ts then {addr} else {})
  }

  lemma RecordedTwice(b: AddressSets, t: AddressSets, b': AddressSets, t': AddressSets,
                      b'': AddressSets, t'': AddressSets, addr: Addr,
                      bs: set<Addr>, ts: set<Addr>, bs': set<Addr>, ts': set<Addr>)
    requires Recorded(b, t, b', t', addr, bs, ts) && Recorded(b', t', b'', t'', addr, bs', ts')
    ensures Recorded(b, t, b'', t'', addr, bs + bs', ts + ts')
  {
    assert (At(b, addr) + bs) + bs' == At(b, addr) + (bs + bs');
    forall a ensures At(t'', a) == At(t, a) + if a in ts + ts' then {addr} else {} {
      assert At(t'', a) == At(t', a) + if a in ts' then {addr} else {};
    }
  }

  /** `branches` records the branch sets of the first n instructions. */
  ghost predicate MappedBranches(code: seq<Ins>, branches: AddressSets, n: nat)
    requires n <= |code|
  {
    && (forall i | 0 <= i < n :: At(branches, code[i].addr) == BranchSet(code[i]))
    && (forall i | n <= i < |code| :: At(branches, code[i].addr) == {})
  }

  /** `targets` records, for every address, which of the first n instructions target it. */
  ghost predicate MappedTargets(code: seq<Ins>, targets: AddressSets, n: nat)
    requires n <= |code|
  {
    forall a :: At(targets, a) == Targeting(code, n, a)
  }

  lemma MappedBranchesStep(code: seq<Ins>, beyond: Addr, b: AddressSets, t: AddressSets,
                           b': AddressSets, t': AddressSets, n: nat)
    requires n < |code| && Plausible(code, beyond) && MappedBranches(code, b, n)
    requires Recorded(b, t, b', t', code[n].addr, BranchSet(code[n]), TargetsOf(code[n]))
    ensures MappedBranches(code, b', n + 1)
  {
  }

  lemma MappedTargetsStep(code: seq<Ins>, b: AddressSets, t: AddressSets, b': AddressSets, t': AddressSets, n: nat)
    requires n < |code| && MappedTargets(code, t, n)
    requires Recorded(b, t, b', t', code[n].addr, BranchSet(code[n]), TargetsOf(code[n]))
    ensures MappedTargets(code, t', n + 1)
  {
    forall a ensures At(t', a) == Targeting(code, n + 1, a) {
      TargetingStep(code, n, a);
    }
  }
}
