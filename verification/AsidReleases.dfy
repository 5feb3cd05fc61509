/** The release of a space's number, with the invalidation that ends it. */
module AsidReleases {
  import opened Common
  import opened AsidSpec
  import opened AsidProtocol
  import opened AsidInvariant
  import opened AsidFrames
  import opened AsidNumbers
  import opened AsidSlow

  lemma RelLockInv(st: State, c: nat, s: Space)
    requires Inv(st) && Enabled(st, RelLock(c, s))
    ensures Inv(RelLockStep(st, c, s))
  {
    var n := RelLockStep(st, c, s);
    assert Alone(n, s);
    PlainStep(st, n, c);
  }

  // ----- the tag becomes void -----

  lemma RelVoidInv(st: State, c: nat)
    requires Inv(st) && Enabled(st, RelSwap(c)) && Tag(st, st.pc[c].s) == VOID
    ensures Inv(RelSwapStep(st, c))
  {
    PlainStep(st, RelSwapStep(st, c), c);
  }

  ghost predicate Voiding(st: State, c: nat) {
    Inv(st) && Enabled(st, RelSwap(c)) && Tag(st, st.pc[c].s) != VOID
  }

  /** Nobody but the releasing CPU has anything to do with the space. */
  lemma VoidAlone(st: State, c: nat)
    requires Voiding(st, c)
    ensures var s := st.pc[c].s;
            Alone(st, s) && Held(st, s) == Tag(st, s) && IdOk(st, Tag(st, s)) && st.lock == Some(c)
  {
    hide MapOk, ActiveOk, ReservedOk, UniqueOk, UsedOk, FastOk, TtbrOk, TlbOk, CleanOk;
    assert IdOk(st, Tag(st, st.pc[c].s));
  }

  lemma VoidView(st: State, c: nat)
    requires Voiding(st, c)
    ensures var s := st.pc[c].s; var n := RelSwapStep(st, c);
            && SameBut(st, n, s)
            && (Live(st, s) <==> n.pc[c].owned)
            && (n.pc[c].owned ==> Live(n, s) && Held(n, s) == Tag(st, s))
            && (!n.pc[c].owned ==> !Live(n, s) && Held(n, s) == VOID && n.alloc == st.alloc)
  {
    var s := st.pc[c].s;
    var n := RelSwapStep(st, c);
    var id := Tag(st, s);
    VoidAlone(st, c);
    if !n.pc[c].owned {
      assert n.alloc.reserved == st.alloc.reserved;
    }
    forall t | t != s ensures Held(n, t) == Held(st, t) && Live(n, t) == Live(st, t) {
    }
  }

  lemma VoidOwners(st: State, c: nat)
    requires Voiding(st, c)
    ensures var n := RelSwapStep(st, c);
            Basic(n) && HolderOk(n) && UniqueOk(n) && UsedOk(n) && IdsOk(n)
  {
    var n := RelSwapStep(st, c);
    var s := st.pc[c].s;
    VoidAlone(st, c);
    VoidView(st, c);
    assert Alone(n, s);
    forall t ensures IdOk(n, Tag(n, t)) && IdOk(n, Held(n, t)) {
      assert IdOk(st, Tag(st, t)) && IdOk(st, Held(st, t));
    }
    forall t | Live(n, t) ensures Live(st, t) && Held(n, t) == Held(st, t) {
    }
  }

  lemma VoidWords(st: State, c: nat)
    requires Voiding(st, c)
    ensures var n := RelSwapStep(st, c); ActiveOk(n) && ReservedOk(n)
  {
    var n := RelSwapStep(st, c);
    var s := st.pc[c].s;
    VoidAlone(st, c);
    VoidView(st, c);
    if n.pc[c].owned {
      assert SameView(st, n);
      ViewActive(st, n);
      forall d | 0 <= d < CPUS && n.alloc.reserved[d] != VOID ensures Owned(n, n.alloc.reserved[d]) {
        assert Owned(st, st.alloc.reserved[d]);
        var t :| Held(st, t) == st.alloc.reserved[d];
        assert Held(n, t) == n.alloc.reserved[d];
      }
    } else {
      ButActive(st, n, s);
      ButReserved(st, n, s);
    }
  }

  lemma VoidAnchor(st: State, c: nat, d: nat, t: Space, a: nat)
    requires Voiding(st, c) && d < CPUS && Anchored(st, d, t, a) && t != st.pc[c].s
    ensures Anchored(RelSwapStep(st, c), d, t, a)
  {
    VoidView(st, c);
    AnchoredLive(st, d, t, a);
  }

  lemma VoidFast(st: State, c: nat)
    requires Voiding(st, c)
    ensures FastOk(RelSwapStep(st, c))
  {
    var n := RelSwapStep(st, c);
    VoidAlone(st, c);
    VoidView(st, c);
    forall d | 0 <= d < CPUS ensures FastOkAt(n, d) {
      assert FastOkAt(st, d);
      assert d != c ==> !Targets(st.pc[d], st.pc[c].s);
      if st.pc[d].Won? {
        VoidAnchor(st, c, d, st.pc[d].s, st.pc[d].id.asid);
      }
    }
  }

  lemma VoidTlb(st: State, c: nat)
    requires Voiding(st, c)
    ensures TlbOk(RelSwapStep(st, c))
  {
    var n := RelSwapStep(st, c);
    VoidAlone(st, c);
    VoidView(st, c);
    forall d | 0 <= d < CPUS && !Owes(n, d)
      ensures forall e <- n.tlb[d] :: Has(n, e.space, e.asid)
      ensures n.ttbr[d].Runs? ==> Has(n, n.ttbr[d].space, n.ttbr[d].asid)
    {
      assert !Owes(st, d);
      forall e <- n.tlb[d] ensures Has(n, e.space, e.asid) {
        assert Has(st, e.space, e.asid);
      }
    }
  }

  lemma RelSwapInv(st: State, c: nat)
    requires Inv(st) && Enabled(st, RelSwap(c))
    ensures Inv(RelSwapStep(st, c))
  {
    var n := RelSwapStep(st, c);
    if Tag(st, st.pc[c].s) == VOID {
      RelVoidInv(st, c);
    } else {
      VoidAlone(st, c);
      VoidOwners(st, c);
      VoidWords(st, c);
      VoidFast(st, c);
      VoidTtbr(st, c);
      VoidTlb(st, c);
      SubClean(st, n);
    }
  }

  lemma VoidTtbr(st: State, c: nat)
    requires Voiding(st, c)
    ensures TtbrOk(RelSwapStep(st, c))
  {
    var n := RelSwapStep(st, c);
    VoidAlone(st, c);
    forall d | 0 <= d < CPUS && n.ttbr[d].Runs? && !Switched(n.pc[d])
      ensures Anchored(n, d, n.ttbr[d].space, n.ttbr[d].asid)
    {
      VoidAnchor(st, c, d, st.ttbr[d].space, st.ttbr[d].asid);
    }
  }

  // ----- the active words and the number -----

  lemma CasView(st: State, c: nat)
    requires Inv(st) && Enabled(st, RelCasStep(c))
    ensures SameView(st, RelCasStepStep(st, c)) && st.lock == Some(c)
    ensures forall t :: Tag(RelCasStepStep(st, c), t) == Tag(st, t)
    ensures !RelCasStepStep(st, c).pc[c].Panicked?
  {
    var p := st.pc[c];
    if p.owned {
      assert Live(st, p.s) && Held(st, p.s) == p.id;
    }
  }

  lemma CasAnchor(st: State, c: nat, d: nat, t: Space, a: nat)
    requires Inv(st) && Enabled(st, RelCasStep(c)) && d < CPUS && Anchored(st, d, t, a) && t != st.pc[c].s
    ensures Anchored(RelCasStepStep(st, c), d, t, a)
  {
    CasView(st, c);
    AnchoredLive(st, d, t, a);
    var p := st.pc[c];
    if p.owned {
      assert Live(st, p.s) && Held(st, p.s) == p.id;
    }
  }

  lemma CasFast(st: State, c: nat)
    requires Inv(st) && Enabled(st, RelCasStep(c))
    ensures FastOk(RelCasStepStep(st, c))
  {
    var n := RelCasStepStep(st, c);
    CasView(st, c);
    assert Alone(st, st.pc[c].s);
    forall d | 0 <= d < CPUS ensures FastOkAt(n, d) {
      assert FastOkAt(st, d);
      assert d != c ==> !Targets(st.pc[d], st.pc[c].s);
      if st.pc[d].Won? {
        CasAnchor(st, c, d, st.pc[d].s, st.pc[d].id.asid);
      }
    }
  }

  lemma CasTtbr(st: State, c: nat)
    requires Inv(st) && Enabled(st, RelCasStep(c))
    ensures TtbrOk(RelCasStepStep(st, c))
  {
    var n := RelCasStepStep(st, c);
    CasView(st, c);
    assert Alone(st, st.pc[c].s);
    forall d | 0 <= d < CPUS && n.ttbr[d].Runs? && !Switched(n.pc[d])
      ensures Anchored(n, d, n.ttbr[d].space, n.ttbr[d].asid)
    {
      CasAnchor(st, c, d, st.ttbr[d].space, st.ttbr[d].asid);
    }
  }

  lemma CasOwners(st: State, c: nat)
    requires Inv(st) && Enabled(st, RelCasStep(c))
    ensures var n := RelCasStepStep(st, c); Basic(n) && HolderOk(n) && UsedOk(n)
  {
    var n := RelCasStepStep(st, c);
    var p := st.pc[c];
    CasView(st, c);
    assert Alone(n, p.s);
    if p.owned {
      assert Live(st, p.s) && Held(st, p.s) == p.id;
      if p.k == CPUS {
        UnmarkKeepsMap(st.alloc, p.id.asid);
      }
    }
  }

  lemma RelCasInv(st: State, c: nat)
    requires Inv(st) && Enabled(st, RelCasStep(c))
    ensures Inv(RelCasStepStep(st, c))
  {
    var n := RelCasStepStep(st, c);
    CasView(st, c);
    CasOwners(st, c);
    ViewIds(st, n);
    ViewUnique(st, n);
    ViewActive(st, n);
    ViewReserved(st, n);
    CasFast(st, c);
    CasTtbr(st, c);
    assert forall d | 0 <= d < CPUS :: Owes(n, d) == Owes(st, d);
    ViewTlb(st, n);
    SubClean(st, n);
  }

  // ----- the invalidation -----

  lemma EndView(st: State, c: nat)
    requires Inv(st) && Enabled(st, RelInvalidate(c))
    ensures var s := st.pc[c].s; var n := RelInvalidateStep(st, c);
            && SameBut(st, n, s) && Live(st, s) && Held(st, s) == st.pc[c].id
            && !Live(n, s) && Held(n, s) == VOID
            && st.lock == Some(c) && forall t :: Tag(n, t) == Tag(st, t)
  {
    var n := RelInvalidateStep(st, c);
    assert forall t | t != st.pc[c].s :: Held(n, t) == Held(st, t);
  }

  lemma EndOwners(st: State, c: nat)
    requires Inv(st) && Enabled(st, RelInvalidate(c))
    ensures var n := RelInvalidateStep(st, c);
            Basic(n) && HolderOk(n) && ActiveOk(n) && ReservedOk(n) && UniqueOk(n) && UsedOk(n) && IdsOk(n)
  {
    var n := RelInvalidateStep(st, c);
    var s := st.pc[c].s;
    EndView(st, c);
    ButActive(st, n, s);
    ButReserved(st, n, s);
    forall t ensures IdOk(n, Tag(n, t)) && IdOk(n, Held(n, t)) {
      assert IdOk(st, Tag(st, t)) && IdOk(st, Held(st, t));
    }
  }

  lemma EndFast(st: State, c: nat)
    requires Inv(st) && Enabled(st, RelInvalidate(c))
    ensures FastOk(RelInvalidateStep(st, c)) && TtbrOk(RelInvalidateStep(st, c))
  {
    var n := RelInvalidateStep(st, c);
    EndView(st, c);
    assert Alone(st, st.pc[c].s);
    forall d | 0 <= d < CPUS ensures FastOkAt(n, d) {
      assert FastOkAt(st, d);
      assert d != c ==> !Targets(st.pc[d], st.pc[c].s);
    }
  }

  lemma EndTlb(st: State, c: nat)
    requires Inv(st) && Enabled(st, RelInvalidate(c))
    ensures TlbOk(RelInvalidateStep(st, c))
  {
    var n := RelInvalidateStep(st, c);
    EndView(st, c);
    assert Alone(st, st.pc[c].s);
    forall d | 0 <= d < CPUS && !Owes(n, d)
      ensures forall e <- n.tlb[d] :: Has(n, e.space, e.asid)
      ensures n.ttbr[d].Runs? ==> Has(n, n.ttbr[d].space, n.ttbr[d].asid)
    {
      assert !Owes(st, d);
      forall e <- n.tlb[d] ensures Has(n, e.space, e.asid) {
        assert Has(st, e.space, e.asid);
      }
    }
  }

  lemma RelInvalidateInv(st: State, c: nat)
    requires Inv(st) && Enabled(st, RelInvalidate(c))
    ensures Inv(RelInvalidateStep(st, c))
  {
    var n := RelInvalidateStep(st, c);
    EndOwners(st, c);
    EndFast(st, c);
    EndTlb(st, c);
    SubClean(st, n);
  }
}
