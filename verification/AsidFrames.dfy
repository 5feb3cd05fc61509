/** Each part of the invariant, for the steps that leave alone what the part reads. */
module AsidFrames {
  import opened AsidSpec
  import opened AsidProtocol
  import opened AsidInvariant

  /** Which space owns which number is the same in both states. */
  ghost predicate SameView(st: State, n: State) {
    && Shape(st) && Shape(n)
    && EffGen(n) == EffGen(st) && n.alloc.bits == st.alloc.bits
    && (forall t {:trigger Held(n, t)} {:trigger Held(st, t)} :: Held(n, t) == Held(st, t))
    && (forall t {:trigger Live(n, t)} {:trigger Live(st, t)} :: Live(n, t) == Live(st, t))
  }

  lemma ViewOf(st: State, n: State)
    requires Shape(st) && Shape(n)
    requires n.tags == st.tags && Holder(n) == Holder(st) && n.gen == st.gen && n.alloc == st.alloc
    ensures SameView(st, n) && forall t :: Tag(n, t) == Tag(st, t)
  {
  }

  lemma ViewIds(st: State, n: State)
    requires SameView(st, n) && IdsOk(st) && forall t :: Tag(n, t) == Tag(st, t)
    ensures IdsOk(n)
  {
    forall t ensures IdOk(n, Tag(n, t)) && IdOk(n, Held(n, t)) {
      assert IdOk(st, Tag(st, t)) && IdOk(st, Held(st, t));
    }
  }

  lemma ViewUnique(st: State, n: State)
    requires SameView(st, n) && UniqueOk(st)
    ensures UniqueOk(n)
  {
  }

  lemma ViewUsed(st: State, n: State)
    requires SameView(st, n) && UsedOk(st) && n.alloc.used == st.alloc.used
    requires InWindow(n) == InWindow(st) && (Holder(st).RelTlbi? ==> Holder(n) == Holder(st))
    ensures UsedOk(n)
  {
    if !InWindow(n) {
      forall s | Live(n, s) && !(Holder(n).RelTlbi? && Holder(n).s == s)
        ensures Held(n, s).asid in n.alloc.used
      {
        assert Live(st, s);
      }
    }
  }

  lemma ViewActive(st: State, n: State)
    requires SameView(st, n) && ActiveOk(st)
    requires forall c | 0 <= c < CPUS && n.active[c] != VOID ::
               n.active[c] == st.active[c] && (c in n.pending ==> c in st.pending)
    ensures ActiveOk(n)
  {
    forall c | 0 <= c < CPUS && n.active[c] != VOID ensures Owned(n, n.active[c]) {
      assert Owned(st, st.active[c]);
      var s :| Held(st, s) == st.active[c];
      assert Held(n, s) == n.active[c];
    }
  }

  lemma ViewReserved(st: State, n: State)
    requires SameView(st, n) && ReservedOk(st) && n.alloc.reserved == st.alloc.reserved
    ensures ReservedOk(n)
  {
    forall c | 0 <= c < CPUS && n.alloc.reserved[c] != VOID ensures Owned(n, n.alloc.reserved[c]) {
      assert Owned(st, st.alloc.reserved[c]);
      var s :| Held(st, s) == st.alloc.reserved[c];
      assert Held(n, s) == n.alloc.reserved[c];
    }
  }

  lemma ViewFast(st: State, n: State, d: nat)
    requires SameView(st, n) && d < CPUS && FastOkAt(st, d)
    requires n.pc[d] == st.pc[d] && n.active[d] == st.active[d] && n.alloc.reserved[d] == st.alloc.reserved[d]
    requires forall t :: Tag(n, t) == Tag(st, t)
    ensures FastOkAt(n, d)
  {
  }

  /** A CPU other than `c` runs its fast path as before. */
  lemma ViewFasts(st: State, n: State, c: nat)
    requires SameView(st, n) && c < CPUS && FastOk(st) && FastOkAt(n, c)
    requires forall d | 0 <= d < CPUS && d != c :: n.pc[d] == st.pc[d] && n.active[d] == st.active[d]
    requires n.alloc.reserved == st.alloc.reserved && forall t :: Tag(n, t) == Tag(st, t)
    ensures FastOk(n)
  {
    forall d | 0 <= d < CPUS ensures FastOkAt(n, d) {
      if d != c {
        assert FastOkAt(st, d);
        ViewFast(st, n, d);
      }
    }
  }

  lemma ViewTtbr(st: State, n: State)
    requires SameView(st, n) && TtbrOk(st) && n.alloc.reserved == st.alloc.reserved
    requires forall c | 0 <= c < CPUS && n.ttbr[c].Runs? ::
               && n.ttbr[c] == st.ttbr[c] && (n.pc[c].Flush? ==> st.pc[c].Flush?)
               && (!Switched(n.pc[c]) ==> !Switched(st.pc[c]) && n.active[c] == st.active[c])
    ensures TtbrOk(n)
  {
  }

  lemma ViewTlb(st: State, n: State)
    requires SameView(st, n) && TlbOk(st)
    requires forall c | 0 <= c < CPUS && !Owes(n, c) ::
               !Owes(st, c) && n.tlb[c] <= st.tlb[c] && (n.ttbr[c].Runs? ==> n.ttbr[c] == st.ttbr[c])
    ensures TlbOk(n)
  {
    forall c | 0 <= c < CPUS && !Owes(n, c)
      ensures forall e <- n.tlb[c] :: Has(n, e.space, e.asid)
      ensures n.ttbr[c].Runs? ==> Has(n, n.ttbr[c].space, n.ttbr[c].asid)
    {
      assert !Owes(st, c);
    }
  }

  lemma SubClean(st: State, n: State)
    requires Shape(st) && Shape(n) && CleanOk(st)
    requires forall c | 0 <= c < CPUS ::
               && n.tlb[c] <= st.tlb[c] && (n.ttbr[c].Runs? ==> n.ttbr[c] == st.ttbr[c])
               && (n.pc[c].Won? ==> n.pc[c] == st.pc[c])
    ensures CleanOk(n)
  {
  }
}
