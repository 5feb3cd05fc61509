/** Steps that give a space its number: adopting a reserved one, taking a free one, and
    publishing the tag. */
module AsidNumbers {
  import opened AsidSpec
  import opened AsidProtocol
  import opened AsidInvariant
  import opened AsidFrames

  // ----- the tag goes out -----

  lemma SlowStoreInv(st: State, c: nat)
    requires Inv(st) && Enabled(st, SlowStore(c))
    ensures Inv(SlowStoreStep(st, c))
  {
    var n := SlowStoreStep(st, c);
    StoreView(st, c);
    ViewUnique(st, n);
    ViewUsed(st, n);
    ViewActive(st, n);
    ViewReserved(st, n);
    ViewTtbr(st, n);
    assert forall d | 0 <= d < CPUS :: Owes(n, d) == Owes(st, d);
    ViewTlb(st, n);
    SubClean(st, n);
    StoreFast(st, c);
  }

  lemma StoreView(st: State, c: nat)
    requires Inv(st) && Enabled(st, SlowStore(c))
    ensures SameView(st, SlowStoreStep(st, c)) && IdsOk(SlowStoreStep(st, c))
  {
    var n := SlowStoreStep(st, c);
    forall t ensures Held(n, t) == Held(st, t) && IdOk(n, Tag(n, t)) {
      assert IdOk(st, Tag(st, t)) && IdOk(st, Held(st, t));
    }
  }

  lemma StoreFast(st: State, c: nat)
    requires Inv(st) && Enabled(st, SlowStore(c)) && SameView(st, SlowStoreStep(st, c))
    ensures FastOk(SlowStoreStep(st, c))
  {
    var n := SlowStoreStep(st, c);
    forall d | 0 <= d < CPUS ensures FastOkAt(n, d) {
      assert FastOkAt(st, d);
    }
  }

  // ----- one space's holding changes -----

  /** Every space but `s` holds what it held. */
  ghost predicate SameBut(st: State, n: State, s: Space) {
    && Shape(st) && Shape(n)
    && EffGen(n) == EffGen(st) && n.alloc.bits == st.alloc.bits
    && (forall t {:trigger Held(n, t)} {:trigger Held(st, t)} :: t != s ==> Held(n, t) == Held(st, t))
    && (forall t {:trigger Live(n, t)} {:trigger Live(st, t)} :: t != s ==> Live(n, t) == Live(st, t))
  }

  lemma ButActive(st: State, n: State, s: Space)
    requires SameBut(st, n, s) && ActiveOk(st) && n.active == st.active && n.pending == st.pending
    requires forall c | 0 <= c < CPUS && st.active[c] != VOID :: st.active[c] != Held(st, s)
    ensures ActiveOk(n)
  {
    forall c | 0 <= c < CPUS && n.active[c] != VOID ensures Owned(n, n.active[c]) {
      assert Owned(st, st.active[c]);
      var t :| Held(st, t) == st.active[c];
      assert Held(n, t) == n.active[c];
    }
  }

  lemma ButReserved(st: State, n: State, s: Space)
    requires SameBut(st, n, s) && ReservedOk(st)
    requires forall c | 0 <= c < CPUS && n.alloc.reserved[c] != VOID ::
               || n.alloc.reserved[c] == Held(n, s)
               || (n.alloc.reserved[c] == st.alloc.reserved[c] && st.alloc.reserved[c] != Held(st, s))
    ensures ReservedOk(n)
  {
    forall c | 0 <= c < CPUS && n.alloc.reserved[c] != VOID ensures Owned(n, n.alloc.reserved[c]) {
      if n.alloc.reserved[c] != Held(n, s) {
        assert Owned(st, st.alloc.reserved[c]);
        var t :| Held(st, t) == st.alloc.reserved[c];
        assert Held(n, t) == n.alloc.reserved[c];
      }
    }
  }

  // ----- a reserved number is adopted -----

  ghost predicate Adopting(st: State, c: nat) {
    Inv(st) && Enabled(st, SlowDecide(c)) && st.pc[c].id.gen != st.gen && Adoptable(st.alloc, st.pc[c].id)
  }

  lemma AdoptView(st: State, c: nat)
    requires Adopting(st, c)
    ensures var n := SlowDecideStep(st, c);
            && SameBut(st, n, st.pc[c].s)
            && Live(st, st.pc[c].s) && Live(n, st.pc[c].s)
            && Held(st, st.pc[c].s) == st.pc[c].id && Held(n, st.pc[c].s) == Id(st.gen, st.pc[c].id.asid)
  {
    var n := SlowDecideStep(st, c);
    var p := st.pc[c];
    assert IdOk(st, Held(st, p.s));
    assert Live(st, p.s);
    forall t | t != p.s ensures Held(n, t) == Held(st, t) && Live(n, t) == Live(st, t) {
    }
  }

  lemma AdoptOwners(st: State, c: nat)
    requires Adopting(st, c)
    ensures var n := SlowDecideStep(st, c);
            Basic(n) && HolderOk(n) && ActiveOk(n) && ReservedOk(n) && UniqueOk(n) && UsedOk(n) && IdsOk(n)
  {
    hide FastOk, TtbrOk, TlbOk, CleanOk;
    var n := SlowDecideStep(st, c);
    var p := st.pc[c];
    AdoptView(st, c);
    ButActive(st, n, p.s);
    ButReserved(st, n, p.s);
    forall t ensures IdOk(n, Tag(n, t)) && IdOk(n, Held(n, t)) {
      assert IdOk(st, Tag(st, t)) && IdOk(st, Held(st, t));
    }
  }

  lemma AdoptAnchor(st: State, c: nat, d: nat, t: Space, a: nat)
    requires Adopting(st, c) && d < CPUS && Anchored(st, d, t, a)
    ensures Anchored(SlowDecideStep(st, c), d, t, a)
  {
    AdoptView(st, c);
    AnchoredLive(st, d, t, a);
  }

  lemma AdoptRest(st: State, c: nat)
    requires Adopting(st, c)
    ensures var n := SlowDecideStep(st, c); FastOk(n) && TtbrOk(n) && TlbOk(n) && CleanOk(n)
  {
    var n := SlowDecideStep(st, c);
    AdoptView(st, c);
    AdoptFast(st, c);
    forall d | 0 <= d < CPUS && n.ttbr[d].Runs? && !Switched(n.pc[d])
      ensures Anchored(n, d, n.ttbr[d].space, n.ttbr[d].asid)
    {
      AdoptAnchor(st, c, d, st.ttbr[d].space, st.ttbr[d].asid);
    }
    AdoptTlb(st, c);
    SubClean(st, n);
  }

  lemma AdoptFast(st: State, c: nat)
    requires Adopting(st, c)
    ensures FastOk(SlowDecideStep(st, c))
  {
    var n := SlowDecideStep(st, c);
    forall d | 0 <= d < CPUS ensures FastOkAt(n, d) {
      assert FastOkAt(st, d);
      if st.pc[d].Won? {
        AdoptAnchor(st, c, d, st.pc[d].s, st.pc[d].id.asid);
      }
    }
  }

  lemma AdoptTlb(st: State, c: nat)
    requires Adopting(st, c)
    ensures TlbOk(SlowDecideStep(st, c))
  {
    var n := SlowDecideStep(st, c);
    AdoptView(st, c);
    forall d | 0 <= d < CPUS && !Owes(n, d)
      ensures forall e <- n.tlb[d] :: Has(n, e.space, e.asid)
      ensures n.ttbr[d].Runs? ==> Has(n, n.ttbr[d].space, n.ttbr[d].asid)
    {
      assert !Owes(st, d);
      forall e <- n.tlb[d] ensures Has(n, e.space, e.asid) {
        assert Has(st, e.space, e.asid);
      }
    }
  }

  // ----- a free number is taken -----

  ghost predicate Taking(st: State, c: nat) {
    && Inv(st) && Enabled(st, SlowDecide(c)) && st.pc[c].id.gen != st.gen
    && !Adoptable(st.alloc, st.pc[c].id) && st.alloc.free > 0
  }

  lemma TakeView(st: State, c: nat)
    requires Taking(st, c)
    ensures var n := SlowDecideStep(st, c);
            && NextFree(st.alloc).Some?
            && SameBut(st, n, st.pc[c].s)
            && !Live(st, st.pc[c].s) && Held(st, st.pc[c].s) == st.pc[c].id
            && Held(n, st.pc[c].s) == Id(st.gen, NextFree(st.alloc).value)
            && 1 <= NextFree(st.alloc).value < Limit(st.alloc.bits)
            && NextFree(st.alloc).value !in st.alloc.used
  {
    NextFreeFinds(st.alloc);
    var n := SlowDecideStep(st, c);
    assert forall t | t != st.pc[c].s :: Held(n, t) == Held(st, t);
  }

  lemma TakeOwners(st: State, c: nat)
    requires Taking(st, c)
    ensures var n := SlowDecideStep(st, c);
            Basic(n) && HolderOk(n) && ActiveOk(n) && ReservedOk(n) && UniqueOk(n) && UsedOk(n) && IdsOk(n)
  {
    var n := SlowDecideStep(st, c);
    var p := st.pc[c];
    TakeView(st, c);
    MarkKeepsMap(st.alloc, NextFree(st.alloc).value);
    ButActive(st, n, p.s);
    ButReserved(st, n, p.s);
    forall t ensures IdOk(n, Tag(n, t)) && IdOk(n, Held(n, t)) {
      assert IdOk(st, Tag(st, t)) && IdOk(st, Held(st, t));
    }
  }

  lemma TakeAnchor(st: State, c: nat, d: nat, t: Space, a: nat)
    requires Taking(st, c) && d < CPUS && Anchored(st, d, t, a)
    ensures Anchored(SlowDecideStep(st, c), d, t, a)
  {
    TakeView(st, c);
    AnchoredLive(st, d, t, a);
  }

  lemma TakeFast(st: State, c: nat)
    requires Taking(st, c)
    ensures FastOk(SlowDecideStep(st, c))
  {
    TakeView(st, c);
    var n := SlowDecideStep(st, c);
    forall d | 0 <= d < CPUS ensures FastOkAt(n, d) {
      assert FastOkAt(st, d);
      if st.pc[d].Won? {
        TakeAnchor(st, c, d, st.pc[d].s, st.pc[d].id.asid);
      }
    }
  }

  lemma TakeTlb(st: State, c: nat)
    requires Taking(st, c)
    ensures TlbOk(SlowDecideStep(st, c))
  {
    var n := SlowDecideStep(st, c);
    TakeView(st, c);
    forall d | 0 <= d < CPUS && !Owes(n, d)
      ensures forall e <- n.tlb[d] :: Has(n, e.space, e.asid)
      ensures n.ttbr[d].Runs? ==> Has(n, n.ttbr[d].space, n.ttbr[d].asid)
    {
      assert !Owes(st, d);
      forall e <- n.tlb[d] ensures Has(n, e.space, e.asid) {
        assert Has(st, e.space, e.asid);
      }
    }
  }

  lemma TakeRest(st: State, c: nat)
    requires Taking(st, c)
    ensures var n := SlowDecideStep(st, c); FastOk(n) && TtbrOk(n) && TlbOk(n) && CleanOk(n)
  {
    var n := SlowDecideStep(st, c);
    TakeView(st, c);
    TakeFast(st, c);
    forall d | 0 <= d < CPUS && n.ttbr[d].Runs? && !Switched(n.pc[d])
      ensures Anchored(n, d, n.ttbr[d].space, n.ttbr[d].asid)
    {
      TakeAnchor(st, c, d, st.ttbr[d].space, st.ttbr[d].asid);
    }
    TakeTlb(st, c);
    SubClean(st, n);
  }
}
