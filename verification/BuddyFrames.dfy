/** Free and held frames as sets, what each change of a block does to them, and what
    canonical form gives: completeness and uniqueness. */
module BuddyFrames {
  import opened Buddy
  import opened BuddyMeta

  /** The `n` frames from `lo` on. */
  ghost function Frames(lo: nat, n: nat): (s: set<nat>)
    ensures forall f: nat :: f in s <==> lo <= f < lo + n
    ensures |s| == n
  {
    if n == 0 then {} else Frames(lo, n - 1) + {lo + n - 1}
  }

  /** The frames of a block. */
  ghost function Run(p: nat, o: nat): (s: set<nat>)
    ensures forall f: nat :: f in s <==> Covers(p, o, f)
    ensures |s| == P2(o)
  {
    Frames(p, P2(o))
  }

  ghost function FreeFrames(m: Meta): (s: set<nat>)
    ensures forall f: nat :: f in s <==> m.Inside(f) && m.FreeAt(f)
  {
    set f: nat | m.base <= f < m.base + |m.bytes| && m.FreeAt(f)
  }

  ghost function HeldFrames(m: Meta): (s: set<nat>)
    ensures forall f: nat :: f in s <==> m.Inside(f) && m.HeldAt(f)
  {
    set f: nat | m.base <= f < m.base + |m.bytes| && m.HeldAt(f)
  }

  /** Free and held frames are never the same frame. */
  lemma FreeNotHeld(m: Meta)
    requires m.Blocks()
    ensures FreeFrames(m) !! HeldFrames(m)
  {
    forall f: nat | m.FreeAt(f) ensures !m.HeldAt(f) {
      FrameNotBoth(m, f);
    }
  }

  lemma FrameNotBoth(m: Meta, f: nat)
    requires m.Blocks() && m.FreeAt(f)
    ensures !m.HeldAt(f)
  {
    FreeAtIs(m, f);
    HeldAtIs(m, f);
    hide Meta.FreeAt, Meta.HeldAt;
    var p: nat, o: nat :| m.FreeHead(p, o) && Covers(p, o, f);
    assert m.IsHead(p, o);
    forall q: nat, r: nat | m.HeldHead(q, r) ensures !Covers(q, r, f) {
      assert m.IsHead(q, r);
    }
  }

  /** The blocks of `n` are those of `m` and one more. */
  ghost predicate OneMore(m: Meta, n: Meta, p: nat, o: nat, free: bool) {
    && m.Blocks() && n.Blocks() && n.base == m.base && |n.bytes| == |m.bytes| && m.Fits(p, o)
    && (forall q: nat, r: nat :: n.FreeHead(q, r) <==> m.FreeHead(q, r) || (free && q == p && r == o))
    && (forall q: nat, r: nat :: n.HeldHead(q, r) <==> m.HeldHead(q, r) || (!free && q == p && r == o))
  }

  lemma OneMoreAt(m: Meta, n: Meta, p: nat, o: nat, free: bool, f: nat)
    requires OneMore(m, n, p, o, free)
    ensures n.FreeAt(f) <==> m.FreeAt(f) || (free && Covers(p, o, f))
  {
    FreeAtIs(m, f);
    FreeAtIs(n, f);
  }

  lemma OneMoreHeldAt(m: Meta, n: Meta, p: nat, o: nat, free: bool, f: nat)
    requires OneMore(m, n, p, o, free)
    ensures n.HeldAt(f) <==> m.HeldAt(f) || (!free && Covers(p, o, f))
  {
    HeldAtIs(m, f);
    HeldAtIs(n, f);
  }

  ghost function WithRun(s: set<nat>, b: bool, p: nat, o: nat): (r: set<nat>)
    ensures forall f: nat :: f in r <==> f in s || (b && Covers(p, o, f))
  {
    if b then s + Run(p, o) else s
  }

  lemma OneMoreFree(m: Meta, n: Meta, p: nat, o: nat, free: bool)
    requires OneMore(m, n, p, o, free)
    ensures FreeFrames(n) == WithRun(FreeFrames(m), free, p, o)
  {
    forall f: nat ensures f in FreeFrames(n) <==> f in WithRun(FreeFrames(m), free, p, o) {
      OneMoreAt(m, n, p, o, free, f);
    }
  }

  lemma OneMoreHeld(m: Meta, n: Meta, p: nat, o: nat, free: bool)
    requires OneMore(m, n, p, o, free)
    ensures HeldFrames(n) == WithRun(HeldFrames(m), !free, p, o)
  {
    forall f: nat ensures f in HeldFrames(n) <==> f in WithRun(HeldFrames(m), !free, p, o) {
      OneMoreHeldAt(m, n, p, o, free, f);
    }
  }

  lemma PutDownFrames(m: Meta, n: Meta, p: nat, o: nat, free: bool)
    requires m.Blocks() && m.InHand(p, o) && n == m.Put(p, if free then o + 1 else ALLOCATED + o)
    ensures FreeFrames(n) == WithRun(FreeFrames(m), free, p, o)
    ensures HeldFrames(n) == WithRun(HeldFrames(m), !free, p, o)
    ensures Run(p, o) !! FreeFrames(m) && Run(p, o) !! HeldFrames(m)
  {
    PutDown(m, n, p, o, if free then o + 1 else ALLOCATED + o);
    NotHead(m, p, o);
    assert OneMore(m, n, p, o, free);
    OneMoreFree(m, n, p, o, free);
    OneMoreHeld(m, n, p, o, free);
    HandApart(m, p, o);
  }

  lemma HandApart(m: Meta, p: nat, o: nat)
    requires m.Blocks() && m.InHand(p, o)
    ensures Run(p, o) !! FreeFrames(m) && Run(p, o) !! HeldFrames(m)
  {
    forall f: nat | Covers(p, o, f) ensures !m.FreeAt(f) && !m.HeldAt(f) {
      InHandIsNeither(m, p, o, f);
    }
  }

  lemma TakeUpFrames(m: Meta, n: Meta, p: nat, o: nat, free: bool)
    requires m.Good() && (if free then m.FreeHead(p, o) else m.HeldHead(p, o)) && n == m.Put(p, NOT_FREE)
    ensures FreeFrames(m) == WithRun(FreeFrames(n), free, p, o)
    ensures HeldFrames(m) == WithRun(HeldFrames(n), !free, p, o)
    ensures Run(p, o) !! FreeFrames(n) && Run(p, o) !! HeldFrames(n)
  {
    assert m.IsHead(p, o);
    TakeUp(m, n, p, o);
    assert OneMore(n, m, p, o, free);
    OneMoreFree(n, m, p, o, free);
    OneMoreHeld(n, m, p, o, free);
    HandApart(n, p, o);
  }

  lemma SameHeldFrames(m: Meta, n: Meta)
    requires m.Blocks() && n.Blocks() && SameHeld(m, n)
    ensures HeldFrames(n) == HeldFrames(m)
  {
    forall f: nat ensures f in HeldFrames(n) <==> f in HeldFrames(m) {
      HeldAtIs(m, f);
      HeldAtIs(n, f);
    }
  }

  lemma RunsJoin(p: nat, o: nat)
    requires Aligned(p, o)
    ensures Run(Lower(p, BuddyOf(p, o)), o + 1) == Run(p, o) + Run(BuddyOf(p, o), o)
  {
    BuddyFacts(p, o);
  }

  lemma RunHalves(p: nat, h: nat, up: nat)
    requires up > 0 && h == p + P2(up - 1)
    ensures Run(p, up) == Run(p, up - 1) + Run(h, up - 1)
  {
  }

  lemma SetsJoin(fn: set<nat>, fm: set<nat>, q: set<nat>, p: set<nat>, both: set<nat>)
    requires fm == fn + q && both == p + q
    ensures fn + both == fm + p
  {
  }

  /** The free frames with those of the block in hand. */
  ghost function Together(m: Meta, p: nat, o: nat): set<nat> {
    FreeFrames(m) + Run(p, o)
  }

  /** One turn of coalescing: the frames in hand and the free ones stay together. */
  lemma MergeStep(m: Meta, n: Meta, p: nat, q: nat, o: nat)
    requires m.Good() && m.InHand(p, o) && o < MAX_ORDER && q == BuddyOf(p, o) && m.FreeHead(q, o)
    requires n == m.Put(q, NOT_FREE)
    ensures Together(n, Lower(p, q), o + 1) == Together(m, p, o)
  {
    TakeUpFrames(m, n, q, o, true);
    RunsJoin(p, o);
    SetsJoin(FreeFrames(n), FreeFrames(m), Run(q, o), Run(p, o), Run(Lower(p, q), o + 1));
  }

  /** One turn of splitting: the upper half becomes free. */
  lemma SplitStep(m: Meta, n: Meta, p: nat, h: nat, up: nat)
    requires m.Blocks() && up > 0 && m.InHand(p, up) && h == p + P2(up - 1) && m.Inside(h) && n == m.Put(h, up)
    ensures Together(n, p, up - 1) == Together(m, p, up)
  {
    HalvesInHand(m, p, h, up);
    PutDownFrames(m, n, h, up - 1, true);
    RunHalves(p, h, up);
    SetsJoin(FreeFrames(m), FreeFrames(n), Run(h, up - 1), Run(p, up - 1), Run(p, up));
  }

  // ----- what canonical form gives -----

  predicate AllFree(m: Meta, p: nat, o: nat) {
    forall f | p <= f < p + P2(o) :: m.FreeAt(f)
  }

  /** A free block covers a run when it contains all of it. */
  ghost predicate BlockOver(m: Meta, p: nat, k: nat) {
    exists q: nat, r: nat :: m.FreeHead(q, r) && Over(q, r, p, k)
  }

  ghost predicate Over(q: nat, r: nat, p: nat, k: nat) {
    k <= r && q <= p && p + P2(k) <= q + P2(r)
  }

  /** Two aligned blocks over the two halves of a run: one is over the whole run, or they
      are the halves themselves. */
  lemma HalvesOver(p: nat, k: nat, q: nat, r: nat, s: nat, t: nat)
    requires k > 0 && Aligned(p, k) && Aligned(q, r) && Aligned(s, t)
    requires Over(q, r, p, k - 1) && Over(s, t, p + P2(k - 1), k - 1)
    ensures || Over(q, r, p, k) || Over(s, t, p, k)
            || (q == p && r == t == k - 1 && s == BuddyOf(p, k - 1))
  {
    HalfFacts(p, k - 1);
    if k <= r {
      Nested(p, k, q, r);
    } else if k <= t {
      Nested(p, k, s, t);
    } else {
      SameBlock(p, q, r);
      SameBlock(p + P2(k - 1), s, t);
    }
  }

  /** Both halves of a run in free blocks: one block holds both. */
  lemma HalvesJoin(m: Meta, p: nat, k: nat)
    requires m.Good() && 0 < k <= MAX_ORDER && Aligned(p, k)
    requires BlockOver(m, p, k - 1) && BlockOver(m, p + P2(k - 1), k - 1)
    ensures BlockOver(m, p, k)
  {
    var q: nat, r: nat :| m.FreeHead(q, r) && Over(q, r, p, k - 1);
    var s: nat, t: nat :| m.FreeHead(s, t) && Over(s, t, p + P2(k - 1), k - 1);
    assert m.IsHead(q, r) && m.IsHead(s, t);
    HalvesOver(p, k, q, r, s, t);
    assert r < MAX_ORDER ==> !m.FreeHead(BuddyOf(q, r), r);
  }

  lemma SameBlock(p: nat, q: nat, o: nat)
    requires Aligned(p, o) && Aligned(q, o) && Covers(q, o, p)
    ensures p == q
  {
    HeadUnique(q, o, p);
    HeadUnique(p, o, p);
  }

  /** A wholly free aligned run lies inside one free block. */
  lemma {:induction false} RunInBlock(m: Meta, p: nat, k: nat)
    requires m.Good() && k <= MAX_ORDER && Aligned(p, k) && AllFree(m, p, k)
    ensures BlockOver(m, p, k)
    decreases k
  {
    if k == 0 {
      assert m.FreeAt(p);
      FreeAtIs(m, p);
      var q: nat, r: nat :| m.FreeHead(q, r) && Covers(q, r, p);
      assert Over(q, r, p, 0);
    } else {
      HalfFacts(p, k - 1);
      RunInBlock(m, p, k - 1);
      RunInBlock(m, p + P2(k - 1), k - 1);
      HalvesJoin(m, p, k);
    }
  }

  /** Completeness: with no free block of order `k` or more, no aligned run of 2^k frames
      is wholly free; and with one, such a run is. */
  lemma NoBlockNoRun(m: Meta, k: nat)
    requires m.Good() && k <= MAX_ORDER
    ensures (exists q: nat, r: nat :: k <= r && m.FreeHead(q, r)) <==>
              (exists p: nat :: Aligned(p, k) && AllFree(m, p, k))
  {
    if p: nat :| Aligned(p, k) && AllFree(m, p, k) {
      RunInBlock(m, p, k);
    }
    if q: nat, r: nat :| k <= r && m.FreeHead(q, r) {
      assert m.IsHead(q, r);
      AlignedBelow(q, r, k);
      CoveredIsFree(m, q, r, q, k);
    }
  }

  lemma CoveredIsFree(m: Meta, q: nat, r: nat, p: nat, o: nat)
    requires m.Good() && m.FreeHead(q, r) && q <= p && p + P2(o) <= q + P2(r)
    ensures AllFree(m, p, o)
  {
    forall f | p <= f < p + P2(o) ensures m.FreeAt(f) {
      FreeAtIs(m, f);
      assert Covers(q, r, f);
    }
  }

  lemma FreeHeadIsMaximal(m: Meta, p: nat, o: nat)
    requires m.Good() && m.FreeHead(p, o)
    ensures Aligned(p, o) && AllFree(m, p, o) && (o == MAX_ORDER || !AllFree(m, Head(p, o + 1), o + 1))
  {
    assert m.IsHead(p, o);
    CoveredIsFree(m, p, o, p, o);
    if o < MAX_ORDER && AllFree(m, Head(p, o + 1), o + 1) {
      HeadFacts(p, o + 1);
      var h := Head(p, o + 1);
      RunInBlock(m, h, o + 1);
      var q: nat, r: nat :| m.FreeHead(q, r) && Over(q, r, h, o + 1);
      assert m.IsHead(q, r);
      assert false;
    }
  }

  lemma MaximalIsFreeHead(m: Meta, p: nat, o: nat)
    requires m.Good() && o <= MAX_ORDER && Aligned(p, o) && AllFree(m, p, o)
    requires o == MAX_ORDER || !AllFree(m, Head(p, o + 1), o + 1)
    ensures m.FreeHead(p, o)
  {
    RunInBlock(m, p, o);
    var q: nat, r: nat :| m.FreeHead(q, r) && Over(q, r, p, o);
    assert m.IsHead(q, r);
    if r == o {
      SameBlock(p, q, o);
    } else {
      HeadFacts(p, o + 1);
      Nested(Head(p, o + 1), o + 1, q, r);
      CoveredIsFree(m, q, r, Head(p, o + 1), o + 1);
    }
  }

  /** A block is free exactly when its run is wholly free and no larger run around it is. */
  lemma FreeHeadIs(m: Meta, p: nat, o: nat)
    requires m.Good() && o <= MAX_ORDER
    ensures m.FreeHead(p, o) <==>
            Aligned(p, o) && AllFree(m, p, o) && (o == MAX_ORDER || !AllFree(m, Head(p, o + 1), o + 1))
  {
    if m.FreeHead(p, o) {
      FreeHeadIsMaximal(m, p, o);
    } else if Aligned(p, o) && AllFree(m, p, o) && (o == MAX_ORDER || !AllFree(m, Head(p, o + 1), o + 1)) {
      MaximalIsFreeHead(m, p, o);
    }
  }

  /** The free blocks are determined by the free frames alone. */
  lemma CanonicalIsUnique(m: Meta, n: Meta)
    requires m.Good() && n.Good()
    requires forall f: nat :: m.FreeAt(f) == n.FreeAt(f)
    ensures forall p: nat, o: nat :: m.FreeHead(p, o) <==> n.FreeHead(p, o)
  {
    forall p: nat, o: nat ensures m.FreeHead(p, o) <==> n.FreeHead(p, o) {
      if o <= MAX_ORDER {
        FreeHeadIs(m, p, o);
        FreeHeadIs(n, p, o);
        assert AllFree(m, p, o) == AllFree(n, p, o);
        assert AllFree(m, Head(p, o + 1), o + 1) == AllFree(n, Head(p, o + 1), o + 1);
      }
    }
  }
}
