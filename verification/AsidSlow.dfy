/** The switch under the lock keeps the invariant, as long as no generation begins. */
module AsidSlow {
  import opened AsidSpec
  import opened AsidProtocol
  import opened AsidInvariant
  import opened AsidFrames

  /** Places of the lock holder that do not bear on who owns which number. */
  predicate Plain(p: Pc) {
    !(p.NewGen? || p.Store? || p.RelCas? || p.RelTlbi?)
  }

  /** CPU `c` moves between plain places; tags, numbers and active words stay. */
  ghost predicate PlainMove(st: State, n: State, c: nat) {
    && Shape(st) && Shape(n) && c < CPUS
    && n.gen == st.gen && n.tags == st.tags && n.alloc == st.alloc
    && n.pc == st.pc[c := n.pc[c]]
    && Plain(Holder(st)) && Plain(Holder(n))
    && (forall d | 0 <= d < CPUS && d != c :: n.active[d] == st.active[d])
  }

  lemma PlainView(st: State, n: State, c: nat)
    requires PlainMove(st, n, c) && Inv(st)
    ensures SameView(st, n) && IdsOk(n) && UniqueOk(n) && UsedOk(n) && ReservedOk(n)
    ensures forall t :: Tag(n, t) == Tag(st, t)
  {
    assert forall t :: Held(n, t) == Tag(n, t) == Tag(st, t) == Held(st, t);
    ViewIds(st, n);
    ViewUnique(st, n);
    ViewUsed(st, n);
    ViewReserved(st, n);
  }

  /** Only the place of `c` and the lock change. */
  lemma PlainStep(st: State, n: State, c: nat)
    requires PlainMove(st, n, c) && Inv(st) && Basic(n) && HolderOk(n)
    requires n.active == st.active && n.pending == st.pending && n.ttbr == st.ttbr && n.tlb == st.tlb
    requires FastOkAt(n, c) && !st.pc[c].Won? && !n.pc[c].Won?
    requires !Switched(st.pc[c]) && !Switched(n.pc[c]) && Owes(n, c) == Owes(st, c)
    ensures Inv(n)
  {
    PlainView(st, n, c);
    ViewActive(st, n);
    ViewFasts(st, n, c);
    ViewTtbr(st, n);
    ViewTlb(st, n);
    SubClean(st, n);
  }

  lemma SlowLockInv(st: State, c: nat)
    requires Inv(st) && Enabled(st, SlowLock(c))
    ensures Inv(SlowLockStep(st, c))
  {
    PlainStep(st, SlowLockStep(st, c), c);
  }

  lemma SlowLoadInv(st: State, c: nat)
    requires Inv(st) && Enabled(st, SlowLoad(c))
    ensures Inv(SlowLoadStep(st, c))
  {
    PlainStep(st, SlowLoadStep(st, c), c);
  }

  lemma SlowCurrentInv(st: State, c: nat)
    requires Inv(st) && Enabled(st, SlowDecide(c)) && st.pc[c].id.gen == st.gen
    ensures Inv(SlowDecideStep(st, c))
  {
    PlainStep(st, SlowDecideStep(st, c), c);
  }

  lemma SlowMineInv(st: State, c: nat)
    requires Inv(st) && Enabled(st, SlowMine(c))
    ensures Inv(SlowMineStep(st, c))
  {
    var n := SlowMineStep(st, c);
    PlainView(st, n, c);
    ViewActive(st, n);
    ViewFasts(st, n, c);
    ViewTtbr(st, n);
    assert forall d | 0 <= d < CPUS :: Owes(n, d) == Owes(st, d);
    ViewTlb(st, n);
    SubClean(st, n);
  }

  lemma SlowActiveWord(st: State, c: nat)
    requires Inv(st) && Enabled(st, SlowActive(c)) && SameView(st, SlowActiveStep(st, c))
    ensures ActiveOk(SlowActiveStep(st, c))
  {
    var n := SlowActiveStep(st, c);
    forall d | 0 <= d < CPUS && n.active[d] != VOID
      ensures n.active[d].gen == EffGen(n) && d !in n.pending && Owned(n, n.active[d])
    {
      if d == c {
        assert Held(n, st.pc[c].s) == n.active[c];
      } else {
        assert Owned(st, st.active[d]);
        var s :| Held(st, s) == st.active[d];
        assert Held(n, s) == n.active[d];
      }
    }
  }

  lemma SlowActiveInv(st: State, c: nat)
    requires Inv(st) && Enabled(st, SlowActive(c))
    ensures Inv(SlowActiveStep(st, c))
  {
    var n := SlowActiveStep(st, c);
    PlainView(st, n, c);
    SlowActiveWord(st, c);
    ViewFasts(st, n, c);
    ViewTtbr(st, n);
    assert forall d | 0 <= d < CPUS :: Owes(n, d) == Owes(st, d);
    ViewTlb(st, n);
    SubClean(st, n);
  }

  lemma SlowParkInv(st: State, c: nat)
    requires Inv(st) && Enabled(st, SlowPark(c))
    ensures Inv(SlowParkStep(st, c))
  {
    var n := SlowParkStep(st, c);
    PlainView(st, n, c);
    ViewActive(st, n);
    ViewFasts(st, n, c);
    ViewTtbr(st, n);
    assert forall d | 0 <= d < CPUS :: Owes(n, d) == Owes(st, d);
    ViewTlb(st, n);
    SubClean(st, n);
  }

  lemma SlowFlushInv(st: State, c: nat)
    requires Inv(st) && Enabled(st, SlowFlush(c))
    ensures Inv(SlowFlushStep(st, c))
  {
    var n := SlowFlushStep(st, c);
    PlainView(st, n, c);
    ViewActive(st, n);
    ViewFasts(st, n, c);
    ViewTtbr(st, n);
    FlushedTlb(st, c);
    SubClean(st, n);
  }

  lemma FlushedTlb(st: State, c: nat)
    requires Inv(st) && Enabled(st, SlowFlush(c)) && SameView(st, SlowFlushStep(st, c))
    ensures TlbOk(SlowFlushStep(st, c))
  {
    var n := SlowFlushStep(st, c);
    assert st.ttbr[c] == Empty;
    forall d | 0 <= d < CPUS && !Owes(n, d)
      ensures forall e <- n.tlb[d] :: Has(n, e.space, e.asid)
      ensures n.ttbr[d].Runs? ==> Has(n, n.ttbr[d].space, n.ttbr[d].asid)
    {
      if d != c {
        assert !Owes(st, d);
      }
    }
  }

  /** What the lock holder installs is its own, and its TLB holds nobody else's. */
  lemma InstallIsClean(st: State, c: nat)
    requires Inv(st) && Enabled(st, SlowInstall(c))
    ensures !Owes(st, c) && Has(st, st.pc[c].s, st.pc[c].id.asid)
    ensures Clean(st.tlb[c], st.pc[c].s, st.pc[c].id.asid)
  {
    assert Held(st, st.pc[c].s) == st.pc[c].id;
    assert !Owes(st, c);
  }

  lemma SlowInstallInv(st: State, c: nat)
    requires Inv(st) && Enabled(st, SlowInstall(c))
    ensures Inv(SlowInstallStep(st, c))
  {
    var n := SlowInstallStep(st, c);
    PlainView(st, n, c);
    ViewActive(st, n);
    ViewFasts(st, n, c);
    InstalledTlb(st, c);
  }

  lemma InstalledTlb(st: State, c: nat)
    requires Inv(st) && Enabled(st, SlowInstall(c)) && SameView(st, SlowInstallStep(st, c))
    ensures var n := SlowInstallStep(st, c); TtbrOk(n) && TlbOk(n) && CleanOk(n)
  {
    var n := SlowInstallStep(st, c);
    InstallIsClean(st, c);
    forall d | 0 <= d < CPUS && !Owes(n, d)
      ensures forall e <- n.tlb[d] :: Has(n, e.space, e.asid)
      ensures n.ttbr[d].Runs? ==> Has(n, n.ttbr[d].space, n.ttbr[d].asid)
    {
      assert !Owes(st, d);
    }
    assert forall d | 0 <= d < CPUS && n.pc[d].Won? :: n.pc[d] == st.pc[d];
  }
}
