/** The main results about the ASID protocol: they hold in every state of every run. */
module AsidSafety {
  import opened AsidSpec
  import opened AsidProtocol
  import opened AsidInvariant
  import opened AsidFrames
  import opened AsidFast
  import opened AsidSlow
  import opened AsidNumbers
  import opened AsidGenerations
  import opened AsidReleases

  lemma SlowDecideInv(st: State, c: nat)
    requires Inv(st) && Enabled(st, SlowDecide(c))
    ensures Inv(SlowDecideStep(st, c))
  {
    if st.pc[c].id.gen == st.gen {
      SlowCurrentInv(st, c);
    } else if Adoptable(st.alloc, st.pc[c].id) {
      AdoptOwners(st, c);
      AdoptRest(st, c);
    } else if st.alloc.free == 0 {
      RaiseInv(st, c);
    } else {
      MapNotNegative(st.alloc);
      TakeOwners(st, c);
      TakeRest(st, c);
    }
  }

  lemma MapNotNegative(a: Alloc)
    requires MapOk(a)
    ensures a.free >= 0
  {
    var all := NumbersBelow(Limit(a.bits));
    SubsetSize(a.used, all);
  }

  lemma FillInv(st: State, c: nat)
    requires Inv(st) && Enabled(st, Fill(c))
    ensures Inv(FillStep(st, c))
  {
    var n := FillStep(st, c);
    ViewOf(st, n);
    ViewIds(st, n);
    ViewUnique(st, n);
    ViewUsed(st, n);
    ViewActive(st, n);
    ViewReserved(st, n);
    forall d | 0 <= d < CPUS ensures FastOkAt(n, d) {
      assert FastOkAt(st, d);
      ViewFast(st, n, d);
    }
    ViewTtbr(st, n);
    FillTlb(st, c);
  }

  lemma FillTlb(st: State, c: nat)
    requires Inv(st) && Enabled(st, Fill(c)) && SameView(st, FillStep(st, c))
    ensures TlbOk(FillStep(st, c)) && CleanOk(FillStep(st, c))
  {
    var n := FillStep(st, c);
    forall d | 0 <= d < CPUS && !Owes(n, d)
      ensures forall e <- n.tlb[d] :: Has(n, e.space, e.asid)
      ensures n.ttbr[d].Runs? ==> Has(n, n.ttbr[d].space, n.ttbr[d].asid)
    {
      assert !Owes(st, d);
    }
  }

  lemma LeaveInv(st: State, c: nat)
    requires Inv(st) && Enabled(st, Leave(c))
    ensures Inv(LeaveStep(st, c))
  {
    var n := LeaveStep(st, c);
    ViewOf(st, n);
    ViewIds(st, n);
    ViewUnique(st, n);
    ViewUsed(st, n);
    ViewActive(st, n);
    ViewReserved(st, n);
    forall d | 0 <= d < CPUS ensures FastOkAt(n, d) {
      assert FastOkAt(st, d);
      ViewFast(st, n, d);
    }
    ViewTtbr(st, n);
    assert forall d | 0 <= d < CPUS :: Owes(n, d) == Owes(st, d);
    ViewTlb(st, n);
    SubClean(st, n);
  }

  predicate IsFast(step: Step) {
    step.FastTag? || step.FastActive? || step.FastCheck? || step.FastSwap? || step.FastInstall?
  }

  predicate IsSwitch(step: Step) {
    step.SlowMine? || step.SlowActive? || step.SlowPark? || step.SlowFlush? || step.SlowInstall?
  }

  predicate IsNumber(step: Step) {
    step.SlowLock? || step.SlowLoad? || step.SlowDecide? || step.GenSwap? || step.GenFlush? || step.SlowStore?
  }

  lemma FastStepInv(st: State, step: Step)
    requires Inv(st) && Enabled(st, step) && IsFast(step)
    ensures Inv(Apply(st, step))
  {
    hide Inv;
    match step
    case FastTag(c, s) => FastTagInv(st, c, s);
    case FastActive(c) => FastActiveInv(st, c);
    case FastCheck(c) => FastCheckInv(st, c);
    case FastSwap(c) => FastSwapInv(st, c);
    case FastInstall(c) => FastInstallInv(st, c);
  }

  lemma NumberStepInv(st: State, step: Step)
    requires Inv(st) && Enabled(st, step) && IsNumber(step)
    ensures Inv(Apply(st, step))
  {
    hide Inv;
    match step
    case SlowLock(c) => SlowLockInv(st, c);
    case SlowLoad(c) => SlowLoadInv(st, c);
    case SlowDecide(c) => SlowDecideInv(st, c);
    case GenSwap(c) => GenSwapInv(st, c);
    case GenFlush(c) => GenFlushInv(st, c);
    case SlowStore(c) => SlowStoreInv(st, c);
  }

  lemma SwitchStepInv(st: State, step: Step)
    requires Inv(st) && Enabled(st, step) && IsSwitch(step)
    ensures Inv(Apply(st, step))
  {
    hide Inv;
    match step
    case SlowMine(c) => SlowMineInv(st, c);
    case SlowActive(c) => SlowActiveInv(st, c);
    case SlowPark(c) => SlowParkInv(st, c);
    case SlowFlush(c) => SlowFlushInv(st, c);
    case SlowInstall(c) => SlowInstallInv(st, c);
  }

  lemma OtherStepInv(st: State, step: Step)
    requires Inv(st) && Enabled(st, step) && !IsFast(step) && !IsNumber(step) && !IsSwitch(step)
    ensures Inv(Apply(st, step))
  {
    hide Inv;
    match step
    case RelLock(c, s) => RelLockInv(st, c, s);
    case RelSwap(c) => RelSwapInv(st, c);
    case RelCasStep(c) => RelCasInv(st, c);
    case RelInvalidate(c) => RelInvalidateInv(st, c);
    case Fill(c) => FillInv(st, c);
    case Leave(c) => LeaveInv(st, c);
  }

  /** Every step, in whatever order the CPUs take them, keeps the invariant. */
  lemma StepInv(st: State, step: Step)
    requires Inv(st) && Enabled(st, step)
    ensures Inv(Apply(st, step))
  {
    hide Inv, Apply, Enabled;
    if IsFast(step) {
      FastStepInv(st, step);
    } else if IsNumber(step) {
      NumberStepInv(st, step);
    } else if IsSwitch(step) {
      SwitchStepInv(st, step);
    } else {
      OtherStepInv(st, step);
    }
  }

  lemma {:induction false} RunInv(states: seq<State>, steps: seq<Step>, i: nat)
    requires Run(states, steps) && i < |states|
    ensures Inv(states[i])
  {
    if i == 0 {
      InitInv(states[0]);
    } else {
      RunInv(states, steps, i - 1);
      StepInv(states[i - 1], steps[i - 1]);
    }
  }

  /** In every state of every run, no CPU runs a space under a number while its TLB holds
      another space's entry for that number, and no assertion of the allocator fired. */
  lemma NoCpuRunsForeignEntries(states: seq<State>, steps: seq<Step>, i: nat)
    requires Run(states, steps) && i < |states|
    ensures Shape(states[i]) && NoForeignEntry(states[i]) && NoPanic(states[i])
  {
    RunInv(states, steps, i);
  }

  /** In every state of every run in which the lock is free, two spaces that hold numbers
      hold different ones; each number is above 0 and its bit is set; and as many numbers
      are free as bits are clear. */
  lemma NumbersAreDistinct(states: seq<State>, steps: seq<Step>, i: nat, s: Space, t: Space)
    requires Run(states, steps) && i < |states| && states[i].lock.None?
    ensures var st := states[i];
            && |st.alloc.used| + st.alloc.free == Limit(st.alloc.bits)
            && (HoldsNumber(st, s) ==>
                  0 < Tag(st, s).asid < Limit(st.alloc.bits) && Tag(st, s).asid in st.alloc.used)
            && (HoldsNumber(st, s) && HoldsNumber(st, t) && Tag(st, s).asid == Tag(st, t).asid ==> s == t)
  {
    RunInv(states, steps, i);
    var st := states[i];
    assert forall u :: HoldsNumber(st, u) <==> Live(st, u);
    assert IdOk(st, Tag(st, s));
    assert Live(st, s) ==> Held(st, s) == Tag(st, s);
    assert Live(st, t) ==> Held(st, t) == Tag(st, t);
  }

  /** In every state of every run, also while the lock holder is in the middle of its work:
      two spaces that own numbers own different ones, none of them 0, and the free count is
      the count of clear bits. */
  lemma OwnersAreDistinct(states: seq<State>, steps: seq<Step>, i: nat, s: Space, t: Space)
    requires Run(states, steps) && i < |states| && Live(states[i], s)
    ensures var st := states[i];
            && |st.alloc.used| + st.alloc.free == Limit(st.alloc.bits)
            && 0 < Held(st, s).asid < Limit(st.alloc.bits)
            && (Live(st, t) && Held(st, s).asid == Held(st, t).asid ==> s == t)
  {
    RunInv(states, steps, i);
    assert IdOk(states[i], Held(states[i], s));
  }

  /** A lock-free switch that won, at any later moment before its TTBR0 write: the CPU's
      own words still hold the space's tag, in `active` or, when a generation began
      meanwhile, in `reserved`; so the number is the space's alone. */
  lemma WinnerKeepsNumber(states: seq<State>, steps: seq<Step>, i: nat, c: nat)
    requires Run(states, steps) && i < |states| && c < CPUS
    requires Shape(states[i]) && states[i].pc[c].Won?
    ensures var st := states[i]; var p := st.pc[c];
            && Held(st, p.s).asid == p.id.asid && Live(st, p.s)
            && Held(st, p.s) == (if st.active[c] != VOID then st.active[c] else st.alloc.reserved[c])
            && forall t | Live(st, t) && Held(st, t).asid == p.id.asid :: t == p.s
  {
    RunInv(states, steps, i);
    var st := states[i];
    assert FastOkAt(st, c);
    AnchoredLive(st, c, st.pc[c].s, st.pc[c].id.asid);
  }
}
