/** The lock-free switch keeps the invariant, whatever the lock holder is doing. */
module AsidFast {
  import opened Common
  import opened AsidSpec
  import opened AsidProtocol
  import opened AsidInvariant
  import opened AsidFrames

  /** A CPU without the lock moves; it may put a tag into its own full active word. */
  ghost predicate Local(st: State, n: State, c: nat) {
    && Shape(st) && Shape(n) && c < CPUS && st.lock != Some(c)
    && n.gen == st.gen && n.tags == st.tags && n.alloc == st.alloc && n.lock == st.lock && n.pending == st.pending
    && n.pc == st.pc[c := n.pc[c]] && n.active == st.active[c := n.active[c]]
    && n.ttbr == st.ttbr[c := n.ttbr[c]] && n.tlb == st.tlb
    && !UnderLock(n.pc[c])
  }

  lemma LocalBasic(st: State, n: State, c: nat)
    requires Local(st, n, c) && Basic(st)
    ensures Basic(n) && Holder(n) == Holder(st)
  {
  }

  lemma LocalHolder(st: State, n: State, c: nat)
    requires Local(st, n, c) && Basic(st) && HolderOk(st)
    requires forall s | Releasing(Holder(st), s) ::
               !Targets(n.pc[c], s) && !(n.ttbr[c].Runs? && n.ttbr[c].space == s)
    requires n.active[c] == st.active[c] ||
             (st.active[c] != VOID && (Holder(st).RelCas? || Holder(st).RelTlbi? ==> n.active[c] != Holder(st).id))
    ensures HolderOk(n)
  {
    LocalBasic(st, n, c);
    var h := Holder(st);
    if h.RelLocked? || h.RelCas? || h.RelTlbi? {
      assert Releasing(h, h.s);
      assert Alone(n, h.s);
    }
    if h.NewGen? {
      assert WindowOk(n, h.k, h.was);
    }
  }

  /** The part that a step of one CPU's place cannot touch. */
  lemma LocalView(st: State, n: State, c: nat)
    requires Local(st, n, c) && Inv(st)
    ensures SameView(st, n) && IdsOk(n) && UniqueOk(n) && UsedOk(n) && ReservedOk(n) && Basic(n)
  {
    LocalBasic(st, n, c);
    ViewOf(st, n);
    ViewIds(st, n);
    ViewUnique(st, n);
    ViewUsed(st, n);
    ViewReserved(st, n);
  }

  /** Only the CPU's place changes, and not to or from Won. */
  lemma LocalMove(st: State, n: State, c: nat)
    requires Local(st, n, c) && Inv(st) && n.active == st.active && n.ttbr == st.ttbr
    requires !st.pc[c].Won? && !n.pc[c].Won? && FastOkAt(n, c)
    requires forall s | Releasing(Holder(st), s) :: !Targets(n.pc[c], s)
    ensures Inv(n)
  {
    LocalView(st, n, c);
    assert forall s | Releasing(Holder(st), s) :: Alone(st, s);
    LocalHolder(st, n, c);
    ViewActive(st, n);
    ViewFasts(st, n, c);
    ViewTtbr(st, n);
    assert forall d | 0 <= d < CPUS && !Owes(n, d) :: !Owes(st, d);
    ViewTlb(st, n);
    SubClean(st, n);
  }

  /** No CPU is on its way to a space that is being released. */
  lemma NotReleasing(st: State, c: nat)
    requires Basic(st) && HolderOk(st) && c < CPUS && st.lock != Some(c)
    ensures forall s | Releasing(Holder(st), s) :: !Targets(st.pc[c], s)
  {
    forall s | Releasing(Holder(st), s) ensures !Targets(st.pc[c], s) {
      assert Alone(st, s);
    }
  }

  lemma FastTagInv(st: State, c: nat, s: Space)
    requires Inv(st) && Enabled(st, FastTag(c, s))
    ensures Inv(FastTagStep(st, c, s))
  {
    var n := FastTagStep(st, c, s);
    assert IdOk(st, Tag(st, s));
    LocalBasic(st, n, c);
    assert FastOkAt(n, c);
    LocalMove(st, n, c);
  }

  lemma FastActiveInv(st: State, c: nat)
    requires Inv(st) && Enabled(st, FastActive(c))
    ensures Inv(FastActiveStep(st, c))
  {
    var n := FastActiveStep(st, c);
    LocalBasic(st, n, c);
    NotReleasing(st, c);
    assert FastOkAt(st, c);
    assert FastOkAt(n, c);
    LocalMove(st, n, c);
  }

  lemma FastCheckInv(st: State, c: nat)
    requires Inv(st) && Enabled(st, FastCheck(c))
    ensures Inv(FastCheckStep(st, c))
  {
    var n := FastCheckStep(st, c);
    LocalBasic(st, n, c);
    NotReleasing(st, c);
    assert FastOkAt(st, c);
    assert FastOkAt(n, c);
    LocalMove(st, n, c);
  }

  /** A compare-and-swap that succeeds: the CPU has flushed in the current generation, the
      space owns the number, and the CPU's TLB holds nobody else's entries for it. */
  lemma SwapWins(st: State, c: nat)
    requires Inv(st) && Enabled(st, FastSwap(c)) && st.active[c] == st.pc[c].prev
    ensures !Owes(st, c) && Has(st, st.pc[c].s, st.pc[c].id.asid)
    ensures Held(st, st.pc[c].s) == st.pc[c].id && st.pc[c].id.gen == EffGen(st)
    ensures Clean(st.tlb[c], st.pc[c].s, st.pc[c].id.asid)
    ensures st.ttbr[c].Runs? && st.ttbr[c].asid == st.pc[c].id.asid ==> st.ttbr[c].space == st.pc[c].s
  {
    assert FastOkAt(st, c);
    NotReleasing(st, c);
    var p := st.pc[c];
    assert IdOk(st, Tag(st, p.s));
    assert !Owes(st, c);
    assert !Releasing(Holder(st), p.s);
    assert Held(st, p.s) == p.id;
  }

  /** The winner's tag is not one that a release is about to clear. */
  lemma WinnerIsOther(st: State, c: nat)
    requires Inv(st) && Enabled(st, FastSwap(c)) && st.active[c] == st.pc[c].prev
    ensures Holder(st).RelCas? || Holder(st).RelTlbi? ==> st.pc[c].id != Holder(st).id
  {
    SwapWins(st, c);
    NotReleasing(st, c);
    var h := Holder(st);
    if h.RelCas? || h.RelTlbi? {
      assert Releasing(h, h.s);
      if Going(st, h.s) {
        assert Live(st, h.s) && Held(st, h.s) == h.id;
      }
    }
  }

  lemma FastSwapInv(st: State, c: nat)
    requires Inv(st) && Enabled(st, FastSwap(c))
    ensures Inv(FastSwapStep(st, c))
  {
    var n := FastSwapStep(st, c);
    LocalBasic(st, n, c);
    NotReleasing(st, c);
    assert FastOkAt(st, c);
    if st.active[c] == st.pc[c].prev {
      SwapWon(st, n, c);
    } else {
      assert FastOkAt(n, c);
      LocalMove(st, n, c);
    }
  }

  lemma SwapWonTlb(st: State, n: State, c: nat)
    requires Inv(st) && Enabled(st, FastSwap(c)) && st.active[c] == st.pc[c].prev
    requires n == FastSwapStep(st, c) && SameView(st, n)
    ensures TtbrOk(n) && TlbOk(n) && CleanOk(n)
  {
    SwapWins(st, c);
    ViewTtbr(st, n);
    assert forall d | 0 <= d < CPUS && !Owes(n, d) :: !Owes(st, d);
    ViewTlb(st, n);
    assert forall d | 0 <= d < CPUS && n.pc[d].Won? && d != c :: n.pc[d] == st.pc[d];
  }

  lemma SwapWonActive(st: State, n: State, c: nat)
    requires Inv(st) && Enabled(st, FastSwap(c)) && st.active[c] == st.pc[c].prev
    requires n == FastSwapStep(st, c) && SameView(st, n)
    ensures ActiveOk(n)
  {
    SwapWins(st, c);
    forall d | 0 <= d < CPUS && n.active[d] != VOID
      ensures n.active[d].gen == EffGen(n) && d !in n.pending && Owned(n, n.active[d])
    {
      if d == c {
        assert Held(n, st.pc[c].s) == n.active[c];
      } else {
        assert Owned(st, st.active[d]);
        var s :| Held(st, s) == st.active[d];
        assert Held(n, s) == n.active[d];
      }
    }
  }

  lemma SwapWon(st: State, n: State, c: nat)
    requires Inv(st) && Enabled(st, FastSwap(c)) && st.active[c] == st.pc[c].prev
    requires n == FastSwapStep(st, c) && Local(st, n, c)
    ensures Inv(n)
  {
    LocalView(st, n, c);
    SwapWins(st, c);
    WinnerIsOther(st, c);
    NotReleasing(st, c);
    assert FastOkAt(st, c);
    assert forall s | Releasing(Holder(st), s) :: Alone(st, s);
    LocalHolder(st, n, c);
    SwapWonActive(st, n, c);
    assert FastOkAt(n, c);
    ViewFasts(st, n, c);
    SwapWonTlb(st, n, c);
  }

  lemma FastInstallInv(st: State, c: nat)
    requires Inv(st) && Enabled(st, FastInstall(c))
    ensures Inv(FastInstallStep(st, c))
  {
    var n := FastInstallStep(st, c);
    LocalView(st, n, c);
    NotReleasing(st, c);
    LocalBasic(st, n, c);
    assert forall s | Releasing(Holder(st), s) :: Alone(st, s);
    LocalHolder(st, n, c);
    ViewActive(st, n);
    assert FastOkAt(n, c);
    ViewFasts(st, n, c);
    InstallTlb(st, n, c);
  }

  lemma InstallTlb(st: State, n: State, c: nat)
    requires Inv(st) && Enabled(st, FastInstall(c))
    requires n == FastInstallStep(st, c) && SameView(st, n)
    ensures TtbrOk(n) && TlbOk(n) && CleanOk(n)
  {
    var p := st.pc[c];
    assert FastOkAt(st, c);
    AnchoredLive(st, c, p.s, p.id.asid);
    forall d | 0 <= d < CPUS && !Owes(n, d)
      ensures forall e <- n.tlb[d] :: Has(n, e.space, e.asid)
      ensures n.ttbr[d].Runs? ==> Has(n, n.ttbr[d].space, n.ttbr[d].asid)
    {
      assert !Owes(st, d);
    }
    assert forall d | 0 <= d < CPUS && n.pc[d].Won? :: n.pc[d] == st.pc[d];
  }
}
