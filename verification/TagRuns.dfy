/** The reverse index of one mark over whole runs of the engine. */
module TagRuns {
  import opened MachineIntegers
  import opened Taint
  import opened TagIndex

  /** The list of mark t after the first n events. */
  function IndexAfter(s: State, es: seq<Event>, n: nat, t: nat): Records
    requires n <= |es|
  {
    if n == 0 then []
    else
      var rs := IndexAfter(s, es, n - 1, t);
      match es[n - 1]
      case SetMem(start, size, xs) => Updated(rs, start, size, t in Written(Run(s, es, n - 1), xs))
      case _ => rs
  }

  /** What is appended to a sequence of events does not change the lists before. */
  lemma {:induction false} IndexOfPrefix(s: State, es: seq<Event>, fs: seq<Event>, n: nat, t: nat)
    requires n <= |es|
    ensures IndexAfter(s, es + fs, n, t) == IndexAfter(s, es, n, t)
  {
    hide Updated, Written, Run;
    if n > 0 {
      IndexOfPrefix(s, es, fs, n - 1, t);
      RunOfPrefix(s, es, fs, n - 1);
    }
  }

  /** One more event. */
  lemma ExtendRun(s: State, h: seq<Event>, e: Event, t: nat)
    ensures Run(s, h + [e], |h| + 1) == Apply(Run(s, h, |h|), e)
    ensures var rs := IndexAfter(s, h, |h|, t);
            IndexAfter(s, h + [e], |h| + 1, t) ==
            if e.SetMem? then Updated(rs, e.start, e.size, t in Written(Run(s, h, |h|), e.from)) else rs
  {
    hide Apply, Written, Updated;
    RunOfPrefix(s, h, [e], |h|);
    IndexOfPrefix(s, h, [e], |h|, t);
    assert (h + [e])[|h|] == e;
  }

  /** The writes among the first n events do not wrap around, and their sizes fit in int. */
  ghost predicate AllSized(es: seq<Event>, n: nat)
    requires n <= |es|
  {
    forall i | 0 <= i < n :: Sized(es[i])
  }

  predicate Sized(e: Event) {
    e.SetMem? ==> Range(e.start, e.size)
  }

  /** Event i writes taint with mark t to address a. */
  ghost predicate Tags(s: State, es: seq<Event>, i: nat, t: nat, a: nat)
    requires i < |es|
  {
    es[i].SetMem? && M(a) in MemLocs(es[i].start, es[i].size) && t in Written(Run(s, es, i), es[i].from)
  }

  /** Event i writes taint without mark t to address a. */
  ghost predicate Untags(s: State, es: seq<Event>, i: nat, t: nat, a: nat)
    requires i < |es|
  {
    es[i].SetMem? && M(a) in MemLocs(es[i].start, es[i].size) && t !in Written(Run(s, es, i), es[i].from)
  }

  /** Event i gives address a mark t without telling the index: a source does, and a clear when a control entry
      holds the mark. */
  ghost predicate Gains(s: State, es: seq<Event>, i: nat, t: nat, a: nat)
    requires i < |es|
  {
    match es[i]
    case NewTaint(start, size, mark) => M(a) in MemLocs(start, size) && mark == t
    case ClearMem(start, size) =>
      M(a) in MemLocs(start, size) && M(a) in Run(s, es, i) && t in ControlOf(Run(s, es, i))
    case _ => false
  }

  /** Event i takes mark t from address a without telling the index. */
  ghost predicate Loses(s: State, es: seq<Event>, i: nat, t: nat, a: nat)
    requires i < |es|
  {
    match es[i]
    case NewTaint(start, size, mark) => M(a) in MemLocs(start, size) && mark != t
    case ClearMem(start, size) => M(a) in MemLocs(start, size) && t !in ControlOf(Run(s, es, i))
    case _ => false
  }

  /** What one event does to a byte's taint. */
  lemma MemoryStep(s: State, es: seq<Event>, i: nat, t: nat, a: nat)
    requires i < |es|
    ensures t in TaintOf(Run(s, es, i + 1), M(a)) <==>
            || Tags(s, es, i, t, a) || Gains(s, es, i, t, a)
            || (t in TaintOf(Run(s, es, i), M(a)) && !Untags(s, es, i, t, a) && !Loses(s, es, i, t, a))
  {
    hide UnionOf, ControlOf, ScratchLocs;
    var before, e := Run(s, es, i), es[i];
    match e
    case Pop(bs) => PopAt(before, bs, M(a));
    case ClearMem(start, size) => WriteAt(before, MemLocs(start, size) * before.Keys, ControlOf(before), M(a));
    case _ =>
  }

  /** No event does two of these. */
  lemma OneEffect(s: State, es: seq<Event>, i: nat, t: nat, a: nat)
    requires i < |es|
    ensures !(Tags(s, es, i, t, a) && Untags(s, es, i, t, a))
    ensures Loses(s, es, i, t, a) ==> !Gains(s, es, i, t, a) && !Tags(s, es, i, t, a) && !Untags(s, es, i, t, a)
    ensures Gains(s, es, i, t, a) ==> !Tags(s, es, i, t, a) && !Untags(s, es, i, t, a)
  {
    hide Written, ControlOf, Run, MemLocs;
  }

  /** What one event does to the records of an address. */
  lemma IndexStep(s: State, es: seq<Event>, i: nat, t: nat, a: nat)
    requires i < |es| && Sized(es[i]) && Kept(IndexAfter(s, es, i, t))
    ensures var rs, rs' := IndexAfter(s, es, i, t), IndexAfter(s, es, i + 1, t);
            && Kept(rs')
            && (Recorded(rs', a) <==> Recorded(rs, a) || (Tags(s, es, i, t, a) && Unaliased(rs, a)))
            && (Cleared(rs', a) <==> Cleared(rs, a) || (Untags(s, es, i, t, a) && Recorded(rs, a)))
  {
    if es[i].SetMem? {
      var start, size, rs := es[i].start, es[i].size, IndexAfter(s, es, i, t);
      hide Kept, Recorded, Cleared, ClearFrom, Tagged, Written;
      if t in Written(Run(s, es, i), es[i].from) {
        TaggedKept(rs, start, size);
        TaggedRecords(rs, start, size, a);
      } else {
        ClearedRecords(rs, start, size, a);
      }
    }
  }

  /** No recorded address differs from a by a multiple of 2^32. */
  ghost predicate Unaliased(rs: Records, a: nat) {
    forall k | 0 <= k < |rs| :: rs[k].addr % TWO_TO_32 != a % TWO_TO_32
  }

  /** In every run each list keeps its shape: at most one uncleared and at most one later cleared record
      per address. */
  lemma {:induction false} IndexKept(s: State, es: seq<Event>, n: nat, t: nat)
    requires n <= |es| && AllSized(es, n)
    ensures Kept(IndexAfter(s, es, n, t))
  {
    hide Kept, Recorded, Cleared, Tags, Untags, Unaliased, IndexAfter, Sized;
    if n == 0 {
      NoneKept(s, es, t);
    } else {
      IndexKept(s, es, n - 1, t);
      IndexStep(s, es, n - 1, t, 0);
    }
  }

  lemma NoneKept(s: State, es: seq<Event>, t: nat)
    ensures Kept(IndexAfter(s, es, 0, t))
  {
  }

  // ---------------------------------------------------------------- what a byte holds

  ghost predicate Gives(s: State, es: seq<Event>, i: nat, t: nat, a: nat)
    requires i < |es|
  {
    Tags(s, es, i, t, a) || Gains(s, es, i, t, a)
  }

  ghost predicate Takes(s: State, es: seq<Event>, i: nat, t: nat, a: nat)
    requires i < |es|
  {
    Untags(s, es, i, t, a) || Loses(s, es, i, t, a)
  }

  /** Some event gave the mark to the address, and none has taken it since. */
  ghost predicate Given(s: State, es: seq<Event>, n: nat, t: nat, a: nat)
    requires n <= |es|
  {
    exists i :: 0 <= i < n && Gives(s, es, i, t, a) && forall k | i < k < n :: !Takes(s, es, k, t, a)
  }

  lemma GivenStep(s: State, es: seq<Event>, n: nat, t: nat, a: nat)
    requires n < |es|
    ensures Given(s, es, n + 1, t, a) <==>
            Gives(s, es, n, t, a) || (Given(s, es, n, t, a) && !Takes(s, es, n, t, a))
  {
    hide Gives, Takes;
    if i :| 0 <= i < n && Gives(s, es, i, t, a) && forall k | i < k < n :: !Takes(s, es, k, t, a) {
      if !Takes(s, es, n, t, a) {
        assert forall k | i < k < n + 1 :: !Takes(s, es, k, t, a);
      }
    }
  }

  /** A byte holds a mark that it did not hold at first if and only if some event gave it and none has taken it
      since. */
  lemma {:induction false} HoldsIffGiven(s: State, es: seq<Event>, n: nat, t: nat, a: nat)
    requires n <= |es| && t !in TaintOf(s, M(a))
    ensures t in TaintOf(Run(s, es, n), M(a)) <==> Given(s, es, n, t, a)
  {
    hide Tags, Untags, Gains, Loses, Run, Given;
    if n == 0 {
      NoneGiven(s, es, t, a);
    } else {
      HoldsIffGiven(s, es, n - 1, t, a);
      MemoryStep(s, es, n - 1, t, a);
      GivenStep(s, es, n - 1, t, a);
    }
  }

  lemma NoneGiven(s: State, es: seq<Event>, t: nat, a: nat)
    ensures !Given(s, es, 0, t, a) && Run(s, es, 0) == s
  {
  }

  /** An event took the mark from the address without telling the index, and none has given it since. */
  ghost predicate Lost(s: State, es: seq<Event>, n: nat, t: nat, a: nat)
    requires n <= |es|
  {
    exists i :: 0 <= i < n && Loses(s, es, i, t, a) && forall k | i < k < n :: !Gives(s, es, k, t, a)
  }

  lemma LostStep(s: State, es: seq<Event>, n: nat, t: nat, a: nat)
    requires n < |es|
    ensures Lost(s, es, n + 1, t, a) <==> Loses(s, es, n, t, a) || (Lost(s, es, n, t, a) && !Gives(s, es, n, t, a))
  {
    hide Gives, Loses;
    if i :| 0 <= i < n && Loses(s, es, i, t, a) && forall k | i < k < n :: !Gives(s, es, k, t, a) {
      if !Gives(s, es, n, t, a) {
        assert forall k | i < k < n + 1 :: !Gives(s, es, k, t, a);
      }
    }
  }

  /** After any run an address recorded as not cleared holds the mark, unless a source or a clear has taken it and
      nothing has given it since. */
  lemma {:induction false} ReportedHoldsIff(s: State, es: seq<Event>, n: nat, t: nat, a: nat)
    requires n <= |es| && AllSized(es, n) && Reports(IndexAfter(s, es, n, t), a)
    ensures t in TaintOf(Run(s, es, n), M(a)) <==> !Lost(s, es, n, t, a)
  {
    hide Recorded, Cleared, Tags, Untags, Gains, Loses, Lost, Unaliased, IndexAfter, Run, Kept, Sized;
    if n == 0 {
      NothingRecorded(s, es, t, a);
    } else {
      IndexKept(s, es, n - 1, t);
      IndexStep(s, es, n - 1, t, a);
      MemoryStep(s, es, n - 1, t, a);
      LostStep(s, es, n - 1, t, a);
      OneEffect(s, es, n - 1, t, a);
      if !Tags(s, es, n - 1, t, a) {
        ReportedHoldsIff(s, es, n - 1, t, a);
      }
    }
  }

  /** No source and no clear among the first n events wrote to the address. */
  ghost predicate Spared(es: seq<Event>, n: nat, a: nat)
    requires n <= |es|
  {
    forall i | 0 <= i < n && (es[i].NewTaint? || es[i].ClearMem?) :: M(a) !in MemLocs(es[i].start, es[i].size)
  }

  lemma SparedHas(s: State, es: seq<Event>, n: nat, t: nat, a: nat, i: nat)
    requires i < n <= |es| && Spared(es, n, a)
    ensures !Gains(s, es, i, t, a) && !Loses(s, es, i, t, a)
  {
    hide MemLocs;
  }

  /** After any run an address recorded as not cleared holds the mark, and one that did not hold it at first and
      holds it now was written with it, if no source and no clear wrote to the address. */
  lemma ReportedHoldsMark(s: State, es: seq<Event>, n: nat, t: nat, a: nat)
    requires n <= |es| && AllSized(es, n) && Spared(es, n, a)
    ensures Reports(IndexAfter(s, es, n, t), a) ==> t in TaintOf(Run(s, es, n), M(a))
    ensures t !in TaintOf(s, M(a)) && t in TaintOf(Run(s, es, n), M(a)) ==> TaggedBefore(s, es, n, t, a)
  {
    hide Reports, Tags, Untags, Gains, Loses, IndexAfter, Run, Spared, Sized;
    forall i | 0 <= i < n ensures !Gains(s, es, i, t, a) && !Loses(s, es, i, t, a) {
      SparedHas(s, es, n, t, a, i);
    }
    if Reports(IndexAfter(s, es, n, t), a) {
      ReportedHoldsIff(s, es, n, t, a);
    }
    if t !in TaintOf(s, M(a)) && t in TaintOf(Run(s, es, n), M(a)) {
      HoldsIffGiven(s, es, n, t, a);
    }
  }

  /** The list says that the address holds the mark. */
  ghost predicate Reports(rs: Records, a: nat) {
    Recorded(rs, a) && !Cleared(rs, a)
  }

  ghost predicate TaggedBefore(s: State, es: seq<Event>, n: nat, t: nat, a: nat)
    requires n <= |es|
  {
    exists i :: 0 <= i < n && Tags(s, es, i, t, a)
  }

  ghost predicate Congruent(a: nat, b: nat) {
    a % TWO_TO_32 == b % TWO_TO_32
  }

  /** Two different addresses written with the mark never differ by a multiple of 2^32. */
  ghost predicate NoAliases(s: State, es: seq<Event>, n: nat, t: nat)
    requires n <= |es|
  {
    forall a: nat, b: nat | TaggedBefore(s, es, n, t, a) && TaggedBefore(s, es, n, t, b) && Congruent(a, b) :: a == b
  }

  // ---------------------------------------------------------------- what is recorded

  /** Event i is the first that writes the mark to an address congruent to a, and writes it to a. */
  ghost predicate First(s: State, es: seq<Event>, i: nat, t: nat, a: nat)
    requires i < |es|
  {
    Tags(s, es, i, t, a) && forall b | Congruent(a, b) :: !TaggedBefore(s, es, i, t, b)
  }

  ghost predicate FirstBefore(s: State, es: seq<Event>, n: nat, t: nat, a: nat)
    requires n <= |es|
  {
    exists i :: 0 <= i < n && First(s, es, i, t, a)
  }

  /** Some recorded address is congruent to a. */
  ghost predicate Represented(rs: Records, a: nat) {
    exists b :: Congruent(a, b) && Recorded(rs, b)
  }

  lemma UnaliasedIffNotRepresented(rs: Records, a: nat)
    ensures Unaliased(rs, a) <==> !Represented(rs, a)
  {
    forall k | 0 <= k < |rs| && Congruent(a, rs[k].addr) ensures Represented(rs, a) {
      assert Recorded(rs, rs[k].addr);
    }
  }

  /** An address congruent to a was written with the mark. */
  ghost predicate ClassTagged(s: State, es: seq<Event>, n: nat, t: nat, a: nat)
    requires n <= |es|
  {
    exists b :: Congruent(a, b) && TaggedBefore(s, es, n, t, b)
  }

  lemma TaggedStep(s: State, es: seq<Event>, n: nat, t: nat, a: nat)
    requires n < |es|
    ensures TaggedBefore(s, es, n + 1, t, a) <==> TaggedBefore(s, es, n, t, a) || Tags(s, es, n, t, a)
  {
    hide Tags;
  }

  /** Event n writes the mark to an address congruent to a. */
  ghost predicate TagsClass(s: State, es: seq<Event>, n: nat, t: nat, a: nat)
    requires n < |es|
  {
    exists b :: Congruent(a, b) && Tags(s, es, n, t, b)
  }

  lemma ClassTaggedStep(s: State, es: seq<Event>, n: nat, t: nat, a: nat)
    requires n < |es|
    ensures ClassTagged(s, es, n + 1, t, a) <==> ClassTagged(s, es, n, t, a) || TagsClass(s, es, n, t, a)
  {
    hide Tags, Congruent, TaggedBefore;
    forall b ensures TaggedBefore(s, es, n + 1, t, b) <==> TaggedBefore(s, es, n, t, b) || Tags(s, es, n, t, b) {
      TaggedStep(s, es, n, t, b);
    }
  }

  lemma RepresentedStep(s: State, es: seq<Event>, n: nat, t: nat, a: nat)
    requires n < |es| && AllSized(es, n + 1)
    ensures Represented(IndexAfter(s, es, n + 1, t), a) <==>
            Represented(IndexAfter(s, es, n, t), a) || TagsClass(s, es, n, t, a)
  {
    hide Tags, Congruent, Recorded, IndexAfter, Sized;
    var rs, rs' := IndexAfter(s, es, n, t), IndexAfter(s, es, n + 1, t);
    if b :| Congruent(a, b) && Recorded(rs', b) {
      RecordedStep(s, es, n, t, b);
    }
    if b :| Congruent(a, b) && Recorded(rs, b) {
      RecordedStep(s, es, n, t, b);
    }
    if b :| Congruent(a, b) && Tags(s, es, n, t, b) {
      RecordedStep(s, es, n, t, b);
      CongruentClass(rs, a, b);
      if c :| Congruent(a, c) && Recorded(rs, c) {
        RecordedStep(s, es, n, t, c);
      }
    }
  }

  /** An address is represented by a recorded one exactly when a congruent one was written with the mark. */
  lemma {:induction false} RepresentedIffTagged(s: State, es: seq<Event>, n: nat, t: nat, a: nat)
    requires n <= |es| && AllSized(es, n)
    ensures Represented(IndexAfter(s, es, n, t), a) <==> ClassTagged(s, es, n, t, a)
  {
    hide IndexAfter, ClassTagged, Represented, Tags;
    if n > 0 {
      RepresentedIffTagged(s, es, n - 1, t, a);
      RepresentedStep(s, es, n - 1, t, a);
      ClassTaggedStep(s, es, n - 1, t, a);
    } else {
      NothingRecorded(s, es, t, a);
    }
  }

  lemma NothingRecorded(s: State, es: seq<Event>, t: nat, a: nat)
    ensures !Represented(IndexAfter(s, es, 0, t), a) && !ClassTagged(s, es, 0, t, a)
    ensures !Recorded(IndexAfter(s, es, 0, t), a)
  {
  }

  lemma CongruentSymmetric(a: nat, b: nat)
    requires Congruent(a, b)
    ensures Congruent(b, a)
  {
  }

  lemma CongruentClass(rs: Records, a: nat, b: nat)
    requires Congruent(a, b)
    ensures Represented(rs, a) <==> Represented(rs, b)
  {
    hide Recorded;
    if c :| Congruent(a, c) && Recorded(rs, c) {
      assert Congruent(b, c);
    }
    if c :| Congruent(b, c) && Recorded(rs, c) {
      assert Congruent(a, c);
    }
  }

  lemma RecordedStep(s: State, es: seq<Event>, n: nat, t: nat, a: nat)
    requires n < |es| && AllSized(es, n + 1)
    ensures var rs, rs' := IndexAfter(s, es, n, t), IndexAfter(s, es, n + 1, t);
            Recorded(rs', a) <==> Recorded(rs, a) || (Tags(s, es, n, t, a) && !Represented(rs, a))
  {
    hide Kept, Cleared, Recorded, Tags, Untags, Unaliased, IndexAfter, Congruent;
    IndexKept(s, es, n, t);
    IndexStep(s, es, n, t, a);
    UnaliasedIffNotRepresented(IndexAfter(s, es, n, t), a);
  }

  /** The list records exactly the first address of each residue class modulo 2^32: an address is
      recorded if and only if it was the first of its class to be written with the mark. */
  lemma {:induction false} RecordedIffFirst(s: State, es: seq<Event>, n: nat, t: nat, a: nat)
    requires n <= |es| && AllSized(es, n)
    ensures Recorded(IndexAfter(s, es, n, t), a) <==> FirstBefore(s, es, n, t, a)
  {
    hide IndexAfter, First, ClassTagged, Represented, Recorded, Tags;
    if n > 0 {
      RecordedIffFirst(s, es, n - 1, t, a);
      RecordedStep(s, es, n - 1, t, a);
      RepresentedIffTagged(s, es, n - 1, t, a);
      FirstIff(s, es, n - 1, t, a);
      FirstBeforeStep(s, es, n - 1, t, a);
    } else {
      NothingRecorded(s, es, t, a);
    }
  }

  lemma FirstBeforeStep(s: State, es: seq<Event>, n: nat, t: nat, a: nat)
    requires n < |es|
    ensures FirstBefore(s, es, n + 1, t, a) <==> FirstBefore(s, es, n, t, a) || First(s, es, n, t, a)
  {
    hide First;
  }

  lemma FirstIff(s: State, es: seq<Event>, i: nat, t: nat, a: nat)
    requires i < |es|
    ensures First(s, es, i, t, a) <==> Tags(s, es, i, t, a) && !ClassTagged(s, es, i, t, a)
  {
    hide Tags, TaggedBefore, Congruent;
  }

  lemma RecordedIncongruent(s: State, es: seq<Event>, n: nat, t: nat, a: nat, b: nat)
    requires n <= |es| && AllSized(es, n)
    requires Recorded(IndexAfter(s, es, n, t), a) && Recorded(IndexAfter(s, es, n, t), b) && Congruent(a, b)
    ensures a == b
  {
    hide First, IndexAfter, Recorded, Congruent, Sized;
    CongruentSymmetric(a, b);
    RecordedIffFirst(s, es, n, t, a);
    RecordedIffFirst(s, es, n, t, b);
    var i :| 0 <= i < n && First(s, es, i, t, a);
    var j :| 0 <= j < n && First(s, es, j, t, b);
    FirstExcludes(s, es, i, j, t, a, b);
    FirstExcludes(s, es, j, i, t, b, a);
    TaggedTogether(s, es, i, t, a, b);
  }

  lemma TaggedTogether(s: State, es: seq<Event>, i: nat, t: nat, a: nat, b: nat)
    requires i < |es| && Sized(es[i]) && First(s, es, i, t, a) && First(s, es, i, t, b) && Congruent(a, b)
    ensures a == b
  {
    hide Written, TaggedBefore;
    ResidueOfDifference(a, b, 0);
    ResidueOfDifference(b, a, 0);
  }

  lemma FirstExcludes(s: State, es: seq<Event>, i: nat, j: nat, t: nat, a: nat, b: nat)
    requires i < |es| && j < |es| && First(s, es, i, t, a) && Congruent(a, b)
    ensures i < j ==> !First(s, es, j, t, b)
  {
    hide Tags, Congruent;
    CongruentSymmetric(a, b);
    if i < j {
      assert TaggedBefore(s, es, j, t, a);
    }
  }

  /** A write gave the mark to the address, and no event has taken it since. */
  ghost predicate HeldByWrite(s: State, es: seq<Event>, n: nat, t: nat, a: nat)
    requires n <= |es|
  {
    exists i :: 0 <= i < n && Tags(s, es, i, t, a) && forall k | i < k < n :: !Takes(s, es, k, t, a)
  }

  /** Such a byte holds the mark, and if no source and no clear wrote to it, it does so in no other way. */
  lemma HeldByWriteHolds(s: State, es: seq<Event>, n: nat, t: nat, a: nat)
    requires n <= |es| && t !in TaintOf(s, M(a))
    ensures HeldByWrite(s, es, n, t, a) ==> t in TaintOf(Run(s, es, n), M(a))
    ensures Spared(es, n, a) && t in TaintOf(Run(s, es, n), M(a)) ==> HeldByWrite(s, es, n, t, a)
  {
    hide Tags, Takes, Gains, Run, Spared;
    HoldsIffGiven(s, es, n, t, a);
    if Spared(es, n, a) {
      forall i | 0 <= i < n ensures !Gains(s, es, i, t, a) {
        SparedHas(s, es, n, t, a, i);
      }
    }
    if i :| 0 <= i < n && Tags(s, es, i, t, a) && forall k | i < k < n :: !Takes(s, es, k, t, a) {
      assert Gives(s, es, i, t, a);
    }
  }

  /** At every point of the run every byte that holds the mark since a write is recorded. */
  ghost predicate AllRecorded(s: State, es: seq<Event>, n: nat, t: nat)
    requires n <= |es|
  {
    forall i, a | 0 <= i <= n && HeldByWrite(s, es, i, t, a) :: Recorded(IndexAfter(s, es, i, t), a)
  }

  /** Every byte that holds the mark since a write is recorded throughout the run if and only if no two different
      addresses written with it differ by a multiple of 2^32. */
  lemma AllRecordedIffNoAliases(s: State, es: seq<Event>, n: nat, t: nat)
    requires n <= |es| && AllSized(es, n)
    ensures AllRecorded(s, es, n, t) <==> NoAliases(s, es, n, t)
  {
    hide Kept, Recorded, Cleared, Tags, Takes, IndexAfter, Congruent, Sized;
    if NoAliases(s, es, n, t) {
      forall i, a | 0 <= i <= n && HeldByWrite(s, es, i, t, a) ensures Recorded(IndexAfter(s, es, i, t), a) {
        assert TaggedBefore(s, es, i, t, a);
        UnaliasedIsRecorded(s, es, i, n, t, a);
      }
    }
    if AllRecorded(s, es, n, t) {
      forall a, b | TaggedBefore(s, es, n, t, a) && TaggedBefore(s, es, n, t, b) && Congruent(a, b) ensures a == b {
        TaggedIsRecorded(s, es, n, t, a);
        TaggedIsRecorded(s, es, n, t, b);
        RecordedIncongruent(s, es, n, t, a, b);
      }
    }
  }

  lemma UnaliasedIsRecorded(s: State, es: seq<Event>, i: nat, n: nat, t: nat, a: nat)
    requires i <= n <= |es| && AllSized(es, n) && NoAliases(s, es, n, t)
    requires TaggedBefore(s, es, i, t, a)
    ensures Recorded(IndexAfter(s, es, i, t), a)
  {
    hide Kept, Cleared, Tags, IndexAfter, Recorded;
    RepresentedIffTagged(s, es, i, t, a);
    assert Congruent(a, a);
    var b :| Congruent(a, b) && Recorded(IndexAfter(s, es, i, t), b);
    RecordedIffFirst(s, es, i, t, b);
    assert TaggedBefore(s, es, n, t, a) && TaggedBefore(s, es, n, t, b);
  }

  lemma RecordedStays(s: State, es: seq<Event>, i: nat, n: nat, t: nat, a: nat)
    requires i <= n <= |es| && AllSized(es, n)
    requires Recorded(IndexAfter(s, es, i, t), a)
    ensures Recorded(IndexAfter(s, es, n, t), a)
  {
    hide Recorded, Tags, First;
    RecordedIffFirst(s, es, i, t, a);
    RecordedIffFirst(s, es, n, t, a);
  }

  lemma TaggedIsRecorded(s: State, es: seq<Event>, n: nat, t: nat, a: nat)
    requires n <= |es| && AllSized(es, n) && AllRecorded(s, es, n, t)
    requires TaggedBefore(s, es, n, t, a)
    ensures Recorded(IndexAfter(s, es, n, t), a)
  {
    hide Tags, Recorded, IndexAfter, Takes, Sized;
    var i :| 0 <= i < n && Tags(s, es, i, t, a);
    assert HeldByWrite(s, es, i + 1, t, a);
    RecordedStays(s, es, i + 1, n, t, a);
  }

  // ---------------------------------------------------------------- what is reported

  /** Address a was written with the mark and later without it. */
  ghost predicate Dropped(s: State, es: seq<Event>, n: nat, t: nat, a: nat)
    requires n <= |es|
  {
    exists j :: 0 <= j < n && Untags(s, es, j, t, a) && TaggedBefore(s, es, j, t, a)
  }

  lemma {:induction false} ClearedIffDropped(s: State, es: seq<Event>, n: nat, t: nat, a: nat)
    requires n <= |es| && AllSized(es, n) && NoAliases(s, es, n, t)
    ensures Cleared(IndexAfter(s, es, n, t), a) <==> Dropped(s, es, n, t, a)
  {
    hide Kept, Recorded, Cleared, Tags, Untags, Unaliased, IndexAfter, TaggedBefore, Sized, Dropped, NoAliases;
    if n == 0 {
      NoneCleared(s, es, t, a);
    } else {
      DroppedStep(s, es, n - 1, t, a);
      NoAliasesBefore(s, es, n - 1, t);
      ClearedIffDropped(s, es, n - 1, t, a);
      IndexKept(s, es, n - 1, t);
      IndexStep(s, es, n - 1, t, a);
      RecordedIffTagged(s, es, n - 1, t, a);
    }
  }

  lemma NoneCleared(s: State, es: seq<Event>, t: nat, a: nat)
    ensures !Cleared(IndexAfter(s, es, 0, t), a) && !Dropped(s, es, 0, t, a)
  {
  }

  lemma NoAliasesBefore(s: State, es: seq<Event>, n: nat, t: nat)
    requires n < |es| && NoAliases(s, es, n + 1, t)
    ensures NoAliases(s, es, n, t)
  {
    hide Tags, TaggedBefore, Congruent;
    forall b ensures TaggedBefore(s, es, n, t, b) ==> TaggedBefore(s, es, n + 1, t, b) {
      TaggedStep(s, es, n, t, b);
    }
  }

  lemma DroppedStep(s: State, es: seq<Event>, n: nat, t: nat, a: nat)
    requires n < |es|
    ensures Dropped(s, es, n + 1, t, a) <==>
            Dropped(s, es, n, t, a) || (Untags(s, es, n, t, a) && TaggedBefore(s, es, n, t, a))
  {
    hide Tags, Untags, TaggedBefore;
  }

  lemma RecordedIffTagged(s: State, es: seq<Event>, n: nat, t: nat, a: nat)
    requires n <= |es| && AllSized(es, n) && NoAliases(s, es, n, t)
    ensures Recorded(IndexAfter(s, es, n, t), a) <==> TaggedBefore(s, es, n, t, a)
  {
    hide Recorded, Tags, IndexAfter;
    RecordedIffFirst(s, es, n, t, a);
    if TaggedBefore(s, es, n, t, a) {
      UnaliasedIsRecorded(s, es, n, n, t, a);
    }
  }

  /** What the list says, in terms of the run: an address was written with the mark and not without it since. */
  lemma ReportsIff(s: State, es: seq<Event>, n: nat, t: nat, a: nat)
    requires n <= |es| && AllSized(es, n) && NoAliases(s, es, n, t)
    ensures Reports(IndexAfter(s, es, n, t), a) <==> TaggedBefore(s, es, n, t, a) && !Dropped(s, es, n, t, a)
  {
    hide Recorded, Cleared, IndexAfter, Dropped, TaggedBefore, NoAliases;
    RecordedIffTagged(s, es, n, t, a);
    ClearedIffDropped(s, es, n, t, a);
  }

  /** When the list is right about an address, in every run: unless the address holds the mark but was never
      written with it, or written without it at some time after that; or a source or a clear took the mark and
      left the record.  A record, once cleared, stays cleared. */
  lemma ReportRightIff(s: State, es: seq<Event>, n: nat, t: nat, a: nat)
    requires n <= |es| && AllSized(es, n) && NoAliases(s, es, n, t)
    ensures var held, tagged := t in TaintOf(Run(s, es, n), M(a)), TaggedBefore(s, es, n, t, a);
            var dropped := Dropped(s, es, n, t, a);
            (Reports(IndexAfter(s, es, n, t), a) <==> held) <==>
            !(held && (!tagged || dropped)) && !(tagged && !dropped && Lost(s, es, n, t, a))
  {
    hide Reports, IndexAfter, Dropped, TaggedBefore, NoAliases, Lost, Run;
    ReportsIff(s, es, n, t, a);
    if Reports(IndexAfter(s, es, n, t), a) {
      ReportedHoldsIff(s, es, n, t, a);
    }
  }

  /** When the list is right about an address that no source and no clear wrote to: unless the address holds the
      mark but was at some time written without it after it was first written with it. */
  lemma SparedRightIff(s: State, es: seq<Event>, n: nat, t: nat, a: nat)
    requires n <= |es| && AllSized(es, n) && NoAliases(s, es, n, t) && Spared(es, n, a) && t !in TaintOf(s, M(a))
    ensures var held := t in TaintOf(Run(s, es, n), M(a));
            (Reports(IndexAfter(s, es, n, t), a) <==> held) <==> !(held && Dropped(s, es, n, t, a))
  {
    hide Reports, IndexAfter, Dropped, TaggedBefore, NoAliases, Spared, Run;
    ReportsIff(s, es, n, t, a);
    ReportedHoldsMark(s, es, n, t, a);
  }

  // ---------------------------------------------------------------- addresses whose distances fit in int

  /** Addresses that lie at most INT_MAX apart do not alias. */
  lemma NearMeansNoAliases(s: State, es: seq<Event>, n: nat, t: nat, low: nat)
    requires n <= |es| && forall a: nat | TaggedBefore(s, es, n, t, a) :: low <= a <= low + INT_MAX
    ensures NoAliases(s, es, n, t)
  {
    hide TaggedBefore;
    forall a: nat, b: nat | TaggedBefore(s, es, n, t, a) && TaggedBefore(s, es, n, t, b) && Congruent(a, b)
      ensures a == b
    {
      ResidueOfDifference(a, b, 0);
      ResidueOfDifference(b, a, 0);
    }
  }

  /** Two bytes 2^32 apart: the second is never recorded. */
  lemma FarAddressIsLost(t: nat) returns (s: State, es: seq<Event>)
    ensures AllSized(es, |es|) && forall a :: t !in TaintOf(s, M(a))
    ensures t in TaintOf(Run(s, es, |es|), M(TWO_TO_32)) && !Recorded(IndexAfter(s, es, |es|, t), TWO_TO_32)
  {
    hide Tags, Written, IndexAfter, Recorded, Run;
    s := map[S(SRC) := {t}];
    es := [SetMem(0, 1, [SRC]), SetMem(TWO_TO_32, 1, [SRC])];
    FarWrites(s, es, t);
    RecordedIffFirst(s, es, 2, t, TWO_TO_32);
    assert Congruent(TWO_TO_32, 0);
    assert TaggedBefore(s, es, 1, t, 0);
    MemoryStep(s, es, 1, t, TWO_TO_32);
  }

  lemma FarWrites(s: State, es: seq<Event>, t: nat)
    requires t in TaintOf(s, S(SRC))
    requires es == [SetMem(0, 1, [SRC]), SetMem(TWO_TO_32, 1, [SRC])]
    ensures Tags(s, es, 0, t, 0) && Tags(s, es, 1, t, TWO_TO_32) && !Tags(s, es, 0, t, TWO_TO_32)
  {
    assert Run(s, es, 0) == s && Run(s, es, 1) == Apply(s, es[0]);
    assert Apply(s, es[0]) == Write(s, MemLocs(0, 1), Written(s, [SRC]));
    hide Written, Write, Run, Apply;
    WrittenFrom(s, t);
    WriteAt(s, MemLocs(0, 1), Written(s, [SRC]), S(SRC));
    WrittenFrom(Run(s, es, 1), t);
  }

  lemma WrittenFrom(s: State, t: nat)
    requires t in TaintOf(s, S(SRC))
    ensures t in Written(s, [SRC])
  {
    assert SRC in [SRC];
  }
}
