/** A new generation begins: the counter, the swaps one CPU at a time, the flushes owed. */
module AsidGenerations {
  import opened Common
  import opened AsidSpec
  import opened AsidProtocol
  import opened AsidInvariant
  import opened AsidFrames
  import opened AsidNumbers

  // ----- the counter is raised -----

  ghost predicate Raising(st: State, c: nat) {
    && Inv(st) && Enabled(st, SlowDecide(c)) && st.pc[c].id.gen != st.gen
    && !Adoptable(st.alloc, st.pc[c].id) && st.alloc.free == 0
  }

  lemma RaiseView(st: State, c: nat)
    requires Raising(st, c)
    ensures SameView(st, SlowDecideStep(st, c))
    ensures forall t :: Tag(SlowDecideStep(st, c), t) == Tag(st, t)
  {
  }

  lemma RaiseInv(st: State, c: nat)
    requires Raising(st, c)
    ensures Inv(SlowDecideStep(st, c))
  {
    var n := SlowDecideStep(st, c);
    RaiseView(st, c);
    EmptyMapOk(st.alloc);
    assert IdOk(st, Tag(st, st.pc[c].s));
    ViewIds(st, n);
    ViewUnique(st, n);
    ViewActive(st, n);
    ViewReserved(st, n);
    ViewFasts(st, n, c);
    ViewTtbr(st, n);
    assert forall d | 0 <= d < CPUS :: Owes(n, d) == Owes(st, d);
    ViewTlb(st, n);
    SubClean(st, n);
  }

  // ----- one CPU's active word is swapped -----

  lemma SwapView(st: State, c: nat)
    requires Inv(st) && Enabled(st, GenSwap(c))
    ensures SameView(st, GenSwapStep(st, c))
    ensures forall t :: Tag(GenSwapStep(st, c), t) == Tag(st, t)
  {
  }

  lemma SwapMap(st: State, c: nat)
    requires Inv(st) && Enabled(st, GenSwap(c))
    ensures var n := GenSwapStep(st, c);
            MapOk(n.alloc) && n.alloc.free >= st.alloc.free - 1 && st.alloc.used <= n.alloc.used
    ensures var n := GenSwapStep(st, c); var kept := n.alloc.reserved[st.pc[c].k];
            kept != VOID ==> kept.asid in n.alloc.used
  {
    hide ActiveOk, UniqueOk, FastOk, TtbrOk, TlbOk, CleanOk;
    var n := GenSwapStep(st, c);
    SwapView(st, c);
    SwapReserved(st, c);
    var kept := n.alloc.reserved[st.pc[c].k];
    if kept != VOID {
      assert Owned(n, kept);
      var s :| Held(n, s) == kept;
      assert IdOk(st, Held(st, s));
      MarkKeepsMap(st.alloc.(reserved := n.alloc.reserved), kept.asid);
    }
  }

  lemma SwapWindow(st: State, c: nat)
    requires Enabled(st, GenSwap(c)) && WindowOk(st, st.pc[c].k, st.pc[c].was)
    requires st.active[st.pc[c].k] == VOID || st.active[st.pc[c].k].gen == st.gen - 1
    requires var n := GenSwapStep(st, c); var kept := n.alloc.reserved[st.pc[c].k];
             && n.alloc.free >= st.alloc.free - 1 && st.alloc.used <= n.alloc.used
             && (kept != VOID ==> kept.asid in n.alloc.used)
    ensures WindowOk(GenSwapStep(st, c), st.pc[c].k + 1, st.pc[c].was)
  {
  }

  lemma SwapBasic(st: State, c: nat)
    requires Inv(st) && Enabled(st, GenSwap(c))
    ensures Basic(GenSwapStep(st, c)) && HolderOk(GenSwapStep(st, c))
  {
    SwapMap(st, c);
    assert st.lock == Some(c);
    SwapWindow(st, c);
  }

  lemma SwapReserved(st: State, c: nat)
    requires Inv(st) && Enabled(st, GenSwap(c)) && SameView(st, GenSwapStep(st, c))
    ensures ReservedOk(GenSwapStep(st, c))
  {
    var n := GenSwapStep(st, c);
    forall d | 0 <= d < CPUS && n.alloc.reserved[d] != VOID ensures Owned(n, n.alloc.reserved[d]) {
      var id := n.alloc.reserved[d];
      assert Owned(st, id);
      var s :| Held(st, s) == id;
      assert Held(n, s) == id;
    }
  }

  lemma SwapAnchor(st: State, c: nat, d: nat, s: Space, a: nat)
    requires Inv(st) && Enabled(st, GenSwap(c)) && d < CPUS && Anchored(st, d, s, a)
    ensures Anchored(GenSwapStep(st, c), d, s, a)
  {
    SwapView(st, c);
  }

  lemma SwapFast(st: State, c: nat)
    requires Inv(st) && Enabled(st, GenSwap(c))
    ensures FastOk(GenSwapStep(st, c))
  {
    var n := GenSwapStep(st, c);
    SwapView(st, c);
    forall d | 0 <= d < CPUS ensures FastOkAt(n, d) {
      assert FastOkAt(st, d);
      if st.pc[d].Won? {
        SwapAnchor(st, c, d, st.pc[d].s, st.pc[d].id.asid);
      }
    }
  }

  lemma GenSwapInv(st: State, c: nat)
    requires Inv(st) && Enabled(st, GenSwap(c))
    ensures Inv(GenSwapStep(st, c))
  {
    var n := GenSwapStep(st, c);
    SwapView(st, c);
    SwapBasic(st, c);
    SwapReserved(st, c);
    ViewIds(st, n);
    ViewUnique(st, n);
    ViewActive(st, n);
    SwapFast(st, c);
    forall d | 0 <= d < CPUS && n.ttbr[d].Runs? && !Switched(n.pc[d])
      ensures Anchored(n, d, n.ttbr[d].space, n.ttbr[d].asid)
    {
      SwapAnchor(st, c, d, st.ttbr[d].space, st.ttbr[d].asid);
    }
    assert TtbrOk(n);
    assert forall d | 0 <= d < CPUS :: Owes(n, d) == Owes(st, d);
    ViewTlb(st, n);
    SubClean(st, n);
  }

  // ----- the generation has begun -----

  /** The state once the flushes are owed, before the space gets its number: as if the lock
      holder had just read the tag of a space of an earlier generation. */
  function Begun(st: State, c: nat): State
    requires Shape(st) && c < CPUS && st.pc[c].NewGen?
  {
    Goto(st, c, Loaded(st.pc[c].s, st.pc[c].id)).(pending := ALL_CPUS)
  }

  ghost predicate Ending(st: State, c: nat) {
    Inv(st) && Enabled(st, GenFlush(c))
  }

  lemma BegunView(st: State, c: nat, s: Space)
    requires Ending(st, c)
    ensures Held(Begun(st, c), s) == Held(st, s) == Tag(st, s)
    ensures Live(Begun(st, c), s) ==> Live(st, s) && Tag(st, s) in st.alloc.reserved
  {
    assert IdOk(st, Tag(st, s));
  }

  lemma BegunOwners(st: State, c: nat)
    requires Ending(st, c)
    ensures var n := Begun(st, c);
            Basic(n) && HolderOk(n) && ActiveOk(n) && ReservedOk(n) && UniqueOk(n) && UsedOk(n) && IdsOk(n)
  {
    var n := Begun(st, c);
    forall s ensures Held(n, s) == Held(st, s) && IdOk(n, Tag(n, s)) && IdOk(n, Held(n, s)) {
      BegunView(st, c, s);
      assert IdOk(st, Tag(st, s)) && IdOk(st, Held(st, s));
    }
    forall s | Live(n, s) ensures Live(st, s) && Held(n, s).asid in n.alloc.used {
      BegunView(st, c, s);
    }
    forall d | 0 <= d < CPUS && n.alloc.reserved[d] != VOID ensures Owned(n, n.alloc.reserved[d]) {
      assert Owned(st, st.alloc.reserved[d]);
      var s :| Held(st, s) == st.alloc.reserved[d];
      assert Held(n, s) == n.alloc.reserved[d];
    }
  }

  lemma BegunRest(st: State, c: nat)
    requires Ending(st, c)
    ensures var n := Begun(st, c); FastOk(n) && TtbrOk(n) && TlbOk(n) && CleanOk(n)
  {
    var n := Begun(st, c);
    forall s ensures Held(n, s) == Held(st, s) {
      BegunView(st, c, s);
    }
    forall d | 0 <= d < CPUS ensures FastOkAt(n, d) && Owes(n, d) {
      assert FastOkAt(st, d);
    }
    SubClean(st, n);
  }

  lemma GenFlushInv(st: State, c: nat)
    requires Ending(st, c)
    ensures Inv(GenFlushStep(st, c))
  {
    var n := Begun(st, c);
    BegunOwners(st, c);
    BegunRest(st, c);
    assert GenFlushStep(st, c) == SlowDecideStep(n, c);
    if Adoptable(n.alloc, n.pc[c].id) {
      AdoptOwners(n, c);
      AdoptRest(n, c);
    } else {
      TakeOwners(n, c);
      TakeRest(n, c);
    }
  }
}
