/** The operations of the physical page allocator on values: what its loops compute and
    what each operation does to the metadata, the lists and the frames. */
module FrameSpec {
  import opened Arithmetic
  import opened Buddy
  import opened BuddyMeta
  import opened BuddyFrames
  import opened BuddyLinks
  import opened BuddyRegions

  const PAGE_SIZE: nat := 4096
  const ORDERS: nat := MAX_ORDER + 1
  /** Frame numbers of 64-bit physical addresses. */
  const MAX_FRAMES: nat := 0x10_0000_0000_0000

  /** The lists hold exactly the free blocks, each once. */
  ghost predicate Listed(m: Meta, lists: seq<seq<nat>>) {
    && |lists| == ORDERS
    && (forall o: nat | o < ORDERS :: Distinct(lists[o]))
    && (forall o: nat, p: nat | o < ORDERS :: p in lists[o] <==> m.FreeHead(p, o))
  }

  ghost predicate Linked(mem: Memory, heads: seq<nat>, lists: seq<seq<nat>>) {
    && |heads| == |lists| == ORDERS
    && forall o: nat | o < ORDERS :: Chain(mem, lists[o], heads[o])
  }

  lemma ListsApart(m: Meta, lists: seq<seq<nat>>, o: nat, r: nat)
    requires Listed(m, lists) && o < ORDERS && r < ORDERS && o != r
    ensures forall x | x in lists[o] :: x !in lists[r]
  {
  }

  ghost predicate Bounded(m: Meta) {
    m.base + |m.bytes| <= MAX_FRAMES
  }

  lemma NoNil(m: Meta, lists: seq<seq<nat>>, o: nat)
    requires Listed(m, lists) && o < ORDERS && Bounded(m)
    ensures NIL !in lists[o]
  {
  }

  lemma PushLists(m: Meta, mem: Memory, heads: seq<nat>, lists: seq<seq<nat>>, p: nat, o: nat)
    requires Listed(m, lists) && Linked(mem, heads, lists) && Bounded(m)
    requires o < ORDERS && m.Inside(p) && m.At(p) == NOT_FREE
    ensures Linked(PushMem(mem, p, heads[o]), heads[o := p], lists[o := [p] + lists[o]])
  {
    NoNil(m, lists, o);
    var ls := lists[o := [p] + lists[o]];
    forall r: nat | r < ORDERS ensures Chain(PushMem(mem, p, heads[o]), ls[r], heads[o := p][r]) {
      assert Chain(mem, lists[r], heads[r]) && Chain(mem, lists[o], heads[o]);
      assert p !in lists[r] && p !in lists[o];
      if r == o {
        PushChain(mem, lists[o], heads[o], p);
      } else {
        ListsApart(m, lists, r, o);
        PushOther(mem, lists[o], heads[o], p, lists[r], heads[r]);
      }
    }
  }

  lemma PushListed(m: Meta, lists: seq<seq<nat>>, p: nat, o: nat)
    requires Listed(m, lists) && o < ORDERS && m.Inside(p) && m.At(p) == NOT_FREE
    ensures Listed(m.Put(p, o + 1), lists[o := [p] + lists[o]])
  {
    var n, ls := m.Put(p, o + 1), lists[o := [p] + lists[o]];
    assert p !in lists[o];
    forall r: nat, q: nat | r < ORDERS ensures q in ls[r] <==> n.FreeHead(q, r) {
      assert q in lists[r] <==> m.FreeHead(q, r);
    }
    assert Distinct(ls[o]) by {
      assert Distinct(lists[o]);
    }
  }

  lemma UnlinkLists(m: Meta, mem: Memory, heads: seq<nat>, lists: seq<seq<nat>>, o: nat, i: nat)
    requires Listed(m, lists) && Linked(mem, heads, lists) && Bounded(m)
    requires o < ORDERS && i < |lists[o]|
    ensures var p := lists[o][i];
            Linked(UnlinkMem(mem, p), heads[o := UnlinkHead(mem, p, heads[o])], lists[o := Without(lists[o], i)])
  {
    NoNil(m, lists, o);
    var p := lists[o][i];
    var hs, ls := heads[o := UnlinkHead(mem, p, heads[o])], lists[o := Without(lists[o], i)];
    forall r: nat | r < ORDERS ensures Chain(UnlinkMem(mem, p), ls[r], hs[r]) {
      assert Chain(mem, lists[r], heads[r]) && Chain(mem, lists[o], heads[o]);
      if r == o {
        UnlinkChain(mem, lists[o], heads[o], i);
      } else {
        ListsApart(m, lists, r, o);
        UnlinkOther(mem, lists[o], heads[o], i, lists[r], heads[r]);
      }
    }
  }

  lemma UnlinkListed(m: Meta, lists: seq<seq<nat>>, o: nat, i: nat)
    requires Listed(m, lists) && o < ORDERS && i < |lists[o]| && m.Inside(lists[o][i])
    ensures Listed(m.Put(lists[o][i], NOT_FREE), lists[o := Without(lists[o], i)])
  {
    var p := lists[o][i];
    WithoutIs(lists[o], i);
    var n, ls := m.Put(p, NOT_FREE), lists[o := Without(lists[o], i)];
    assert m.FreeHead(p, o);
    forall r: nat, q: nat | r < ORDERS ensures q in ls[r] <==> n.FreeHead(q, r) {
      assert q in lists[r] <==> m.FreeHead(q, r);
    }
  }

  /** `n` differs from `m` in one block that became held. */
  ghost predicate NewlyHeld(m: Meta, n: Meta, p: nat, o: nat) {
    && n.base == m.base && |n.bytes| == |m.bytes| && n.HeldHead(p, o)
    && (forall q: nat, r: nat :: n.HeldHead(q, r) <==> m.HeldHead(q, r) || (q == p && r == o))
    && FreeFrames(m) == FreeFrames(n) + Run(p, o) && Run(p, o) !! FreeFrames(n)
    && HeldFrames(n) == HeldFrames(m) + Run(p, o) && Run(p, o) !! HeldFrames(m)
  }

  lemma HoldListed(m: Meta, lists: seq<seq<nat>>, p: nat, v: nat)
    requires Listed(m, lists) && m.Inside(p) && (m.At(p) == NOT_FREE || m.At(p) >= ALLOCATED)
    requires v == NOT_FREE || v >= ALLOCATED
    ensures Listed(m.Put(p, v), lists)
  {
    var n := m.Put(p, v);
    forall o: nat, q: nat | o < ORDERS ensures q in lists[o] <==> n.FreeHead(q, o) {
      assert q in lists[o] <==> m.FreeHead(q, o);
    }
  }

  /** From `m` a block was taken out and split until `s`; now it becomes held. */
  lemma HoldStep(m: Meta, s: Meta, n: Meta, p: nat, o: nat)
    requires m.Good() && s.Good() && SameHeld(m, s) && s.InHand(p, o) && n == s.Put(p, ALLOCATED + o)
    requires FreeFrames(m) == FreeFrames(s) + Run(p, o)
    ensures n.Good() && NewlyHeld(m, n, p, o)
  {
    Hold(s, n, p, o);
    PutDownFrames(s, n, p, o, false);
    NotHead(s, p, o);
    SameHeldFrames(m, s);
  }

  /** Some aligned run of 2^order frames is wholly free. */
  ghost predicate HasRun(m: Meta, order: nat) {
    exists p: nat :: Aligned(p, order) && AllFree(m, p, order)
  }

  /** Some list from `order` on is not empty exactly when an aligned run is wholly free. */
  lemma ListsTellRuns(m: Meta, lists: seq<seq<nat>>, order: nat)
    requires Listed(m, lists) && m.Good() && order <= MAX_ORDER
    ensures HasRun(m, order) <==> exists r: nat :: order <= r <= MAX_ORDER && lists[r] != []
  {
    NoBlockNoRun(m, order);
    if q: nat, r: nat :| order <= r && m.FreeHead(q, r) {
      assert q in lists[r];
    }
    if r: nat :| order <= r <= MAX_ORDER && lists[r] != [] {
      assert lists[r][0] in lists[r];
      assert m.FreeHead(lists[r][0], r);
    }
  }

  // ----- the loops of free_block and alloc, on the metadata -----

  /** The condition of the coalescing loop: the buddy heads a free block of the order. */
  predicate Mergeable(m: Meta, p: nat, o: nat) {
    o < MAX_ORDER && m.Fits(BuddyOf(p, o), o) && m.At(BuddyOf(p, o)) == o + 1
  }

  lemma MergeableIs(m: Meta, p: nat, o: nat)
    requires m.Blocks() && o <= MAX_ORDER
    ensures Mergeable(m, p, o) <==> o < MAX_ORDER && m.FreeHead(BuddyOf(p, o), o)
  {
    FreeHeadByByte(m, BuddyOf(p, o), o);
  }

  /** Coalescing: where the block ends up, at what order, and the metadata then. */
  function Coalesced(m: Meta, p: nat, o: nat): (Meta, nat, nat)
    decreases MAX_ORDER - o
  {
    if Mergeable(m, p, o) then
      Coalesced(m.Put(BuddyOf(p, o), NOT_FREE), Lower(p, BuddyOf(p, o)), o + 1)
    else (m, p, o)
  }

  /** Splitting a block of order `from` down to `order`: the upper halves are free. */
  function Halved(m: Meta, p: nat, from: nat, order: nat): Meta
    decreases from
  {
    if from <= order then m else Halved(m.Put(p + P2(from - 1), from), p, from - 1, order)
  }

  /** Coalescing from `m` may stop at `n` with the block of order `r` at `q` in hand. */
  ghost predicate Settled(m: Meta, n: Meta, q: nat, r: nat) {
    n.Good() && n.InHand(q, r) && SameHeld(m, n) && (r == MAX_ORDER || !n.FreeHead(BuddyOf(q, r), r))
  }

  lemma SettledEarlier(m: Meta, n: Meta, k: Meta, q: nat, r: nat)
    requires SameHeld(m, n) && Settled(n, k, q, r)
    ensures Settled(m, k, q, r)
  {
    SameHeldTrans(m, n, k);
  }

  lemma {:induction false} CoalescedGood(m: Meta, p: nat, o: nat)
    requires m.Good() && m.InHand(p, o)
    ensures Settled(m, Coalesced(m, p, o).0, Coalesced(m, p, o).1, Coalesced(m, p, o).2)
    decreases MAX_ORDER - o
  {
    hide Meta.Blocks, Meta.Canonical, P2, BuddyOf, Mergeable;
    MergeableIs(m, p, o);
    if Mergeable(m, p, o) {
      var buddy := BuddyOf(p, o);
      var n := m.Put(buddy, NOT_FREE);
      Merge(m, n, p, buddy, o);
      PutSameHeld(m, n, buddy, NOT_FREE);
      CoalescedGood(n, Lower(p, buddy), o + 1);
      SettledEarlier(m, n, Coalesced(m, p, o).0, Coalesced(m, p, o).1, Coalesced(m, p, o).2);
    }
  }

  /** Two stages of one operation account for the same frames. */
  ghost predicate SameFrames(m: Meta, p: nat, o: nat, n: Meta, q: nat, r: nat) {
    Together(m, p, o) == Together(n, q, r)
  }

  lemma {:induction false} CoalescedFrames(m: Meta, p: nat, o: nat)
    requires m.Good() && m.InHand(p, o)
    ensures SameFrames(m, p, o, Coalesced(m, p, o).0, Coalesced(m, p, o).1, Coalesced(m, p, o).2)
    decreases MAX_ORDER - o
  {
    hide Meta.Blocks, Meta.Canonical, Together, P2, BuddyOf, Mergeable;
    MergeableIs(m, p, o);
    if Mergeable(m, p, o) {
      var buddy := BuddyOf(p, o);
      var n := m.Put(buddy, NOT_FREE);
      Merge(m, n, p, buddy, o);
      MergeStep(m, n, p, buddy, o);
      CoalescedFrames(n, Lower(p, buddy), o + 1);
    }
  }

  /** The metadata after free_block. */
  function Freed(m: Meta, p: nat, o: nat): Meta {
    var (n, q, r) := Coalesced(m, p, o);
    n.Put(q, r + 1)
  }

  /** free_block keeps the canonical form and adds exactly the block's frames. */
  lemma FreedGood(m: Meta, p: nat, o: nat)
    requires m.Good() && m.InHand(p, o)
    ensures Freed(m, p, o).Good() && SameHeld(m, Freed(m, p, o))
    ensures FreeFrames(Freed(m, p, o)) == FreeFrames(m) + Run(p, o)
    ensures Coalesced(m, p, o).0.At(Coalesced(m, p, o).1) == NOT_FREE
    ensures Coalesced(m, p, o).0.Inside(Coalesced(m, p, o).1) && Coalesced(m, p, o).2 <= MAX_ORDER
  {
    hide Meta.Good, Meta.InHand, FreeFrames, Run, SameHeld, Settled, SameFrames, Coalesced;
    CoalescedGood(m, p, o);
    CoalescedFrames(m, p, o);
    var (n, q, r) := Coalesced(m, p, o);
    FreedStep(m, p, o, n, q, r, n.Put(q, r + 1));
  }

  lemma FreedStep(m: Meta, p: nat, o: nat, n: Meta, q: nat, r: nat, k: Meta)
    requires Settled(m, n, q, r) && SameFrames(m, p, o, n, q, r) && k == n.Put(q, r + 1)
    ensures k.Good() && SameHeld(m, k) && FreeFrames(k) == FreeFrames(m) + Run(p, o)
    ensures n.At(q) == NOT_FREE && n.Inside(q) && r <= MAX_ORDER
  {
    assert n.Inside(q) && r <= MAX_ORDER;
    hide Meta.Blocks, Meta.Canonical, Meta.FreeHead, Meta.InHand, Meta.HeldHead, FreeFrames, Run, SameHeld, P2, BuddyOf;
    NotHead(n, q, r);
    Free(n, k, q, r);
    PutDownFrames(n, k, q, r, true);
    PutSameHeld(n, k, q, r + 1);
    SameHeldTrans(m, n, k);
  }

  /** Splitting from `m` has come to `n`, with the block of order `o` at `p` in hand. */
  ghost predicate Partly(m: Meta, n: Meta, p: nat, o: nat) {
    n.Good() && n.InHand(p, o) && SameHeld(m, n)
  }

  lemma PartlyStep(m: Meta, n: Meta, p: nat, h: nat, up: nat)
    requires m.Good() && up > 0 && m.InHand(p, up) && h == p + P2(up - 1) && n == m.Put(h, up)
    ensures Partly(m, n, p, up - 1) && m.Inside(h)
  {
    HalvesInHand(m, p, h, up);
    Split(m, n, p, h, up);
    PutSameHeld(m, n, h, up);
  }

  lemma PartlyEarlier(m: Meta, n: Meta, k: Meta, p: nat, o: nat)
    requires SameHeld(m, n) && Partly(n, k, p, o)
    ensures Partly(m, k, p, o)
  {
    SameHeldTrans(m, n, k);
  }

  lemma {:induction false} HalvedGood(m: Meta, p: nat, from: nat, order: nat)
    requires m.Good() && m.InHand(p, from) && order <= from
    ensures Partly(m, Halved(m, p, from, order), p, order)
    decreases from
  {
    hide Meta.Blocks, Meta.Canonical, P2;
    if from > order {
      var h := p + P2(from - 1);
      var n := m.Put(h, from);
      PartlyStep(m, n, p, h, from);
      HalvedGood(n, p, from - 1, order);
      PartlyEarlier(m, n, Halved(m, p, from, order), p, order);
    }
  }

  lemma {:induction false} HalvedFrames(m: Meta, p: nat, from: nat, order: nat)
    requires m.Good() && m.InHand(p, from) && order <= from
    ensures Together(Halved(m, p, from, order), p, order) == Together(m, p, from)
    decreases from
  {
    hide Meta.Blocks, Meta.Canonical, Meta.InHand, Meta.FreeHead, Meta.HeldHead, Together, SameHeld, P2, BuddyOf;
    if from > order {
      var h := p + P2(from - 1);
      var n := m.Put(h, from);
      HalvesInHand(m, p, h, from);
      Split(m, n, p, h, from);
      SplitStep(m, n, p, h, from);
      HalvedFrames(n, p, from - 1, order);
    }
  }

  /** The metadata after alloc took the free block of order `from` at `p`. */
  function Allotted(m: Meta, p: nat, from: nat, order: nat): Meta {
    Halved(m.Put(p, NOT_FREE), p, from, order).Put(p, ALLOCATED + order)
  }

  /** alloc keeps the canonical form and moves exactly one run from free to held. */
  lemma AllottedGood(m: Meta, p: nat, from: nat, order: nat)
    requires m.Good() && m.FreeHead(p, from) && order <= from
    ensures Allotted(m, p, from, order).Good() && NewlyHeld(m, Allotted(m, p, from, order), p, order)
    ensures Aligned(p, order)
    ensures Halved(m.Put(p, NOT_FREE), p, from, order).At(p) == NOT_FREE
  {
    assert m.IsHead(p, from);
    var t := m.Put(p, NOT_FREE);
    TakeUp(m, t, p, from);
    TakeUpFrames(m, t, p, from, true);
    PutSameHeld(m, t, p, NOT_FREE);
    HalvedGood(t, p, from, order);
    HalvedFrames(t, p, from, order);
    var s := Halved(t, p, from, order);
    NotHead(s, p, order);
    HoldStep(m, s, s.Put(p, ALLOCATED + order), p, order);
  }

  // ----- what the operations do to the frames -----

  lemma UnionSize(a: set<nat>, b: set<nat>)
    requires a !! b
    ensures |a + b| == |a| + |b|
  {
  }

  /** The count that alloc and free keep. */
  lemma HeldCounts(m: Meta, n: Meta, p: nat, o: nat)
    requires NewlyHeld(m, n, p, o)
    ensures |FreeFrames(m)| == |FreeFrames(n)| + P2(o)
  {
    UnionSize(FreeFrames(n), Run(p, o));
  }

  lemma SetsMove(a: set<nat>, b: set<nat>, c: set<nat>, d: set<nat>, run: set<nat>)
    requires a == c + run && d == b + run
    ensures a + b == c + d
  {
  }

  /** Conservation: a frame changes sides, none appears and none is lost. */
  lemma Conserved(m: Meta, n: Meta, p: nat, o: nat)
    requires m.Blocks() && n.Blocks() && NewlyHeld(m, n, p, o)
    ensures FreeFrames(m) + HeldFrames(m) == FreeFrames(n) + HeldFrames(n)
    ensures |FreeFrames(m)| + |HeldFrames(m)| == |FreeFrames(n)| + |HeldFrames(n)|
  {
    hide Meta.Blocks, FreeFrames, HeldFrames, Run, Meta.HeldHead, Meta.FreeAt, Meta.HeldAt;
    FreeNotHeld(m);
    FreeNotHeld(n);
    UnionSize(FreeFrames(m), HeldFrames(m));
    UnionSize(FreeFrames(n), HeldFrames(n));
    SetsMove(FreeFrames(m), HeldFrames(m), FreeFrames(n), HeldFrames(n), Run(p, o));
  }

  /** Freeing what was allocated gives back the very metadata there was before, whatever
      else was allocated and freed in between with the same outcome. */
  lemma FreeUndoesAlloc(m: Meta, n: Meta, k: Meta, p: nat, o: nat)
    requires m.Good() && n.Good() && k.Good() && NewlyHeld(m, n, p, o) && NewlyHeld(k, n, p, o)
    requires !m.HeldHead(p, o) && !k.HeldHead(p, o)
    ensures k == m
  {
    assert SameHeld(m, k);
    MetaUnique(m, k);
  }

  /** Freeing a held block: the mirror of allocating it. */
  lemma FreeStep(m: Meta, p: nat, o: nat)
    requires m.Good() && m.HeldHead(p, o)
    ensures m.Put(p, NOT_FREE).Good() && m.Put(p, NOT_FREE).InHand(p, o)
    ensures Freed(m.Put(p, NOT_FREE), p, o).Good() && NewlyHeld(Freed(m.Put(p, NOT_FREE), p, o), m, p, o)
    ensures !Freed(m.Put(p, NOT_FREE), p, o).HeldHead(p, o)
  {
    hide Freed;
    assert m.IsHead(p, o);
    var t := m.Put(p, NOT_FREE);
    TakeUp(m, t, p, o);
    TakeUpFrames(m, t, p, o, false);
    FreedGood(t, p, o);
    FreeStepHeld(m, t, Freed(t, p, o), p, o);
  }

  lemma FreeStepHeld(m: Meta, t: Meta, n: Meta, p: nat, o: nat)
    requires m.Good() && t.Good() && n.Good() && m.HeldHead(p, o) && t == m.Put(p, NOT_FREE) && SameHeld(t, n)
    requires FreeFrames(n) == FreeFrames(t) + Run(p, o)
    requires FreeFrames(m) == FreeFrames(t) && HeldFrames(m) == HeldFrames(t) + Run(p, o)
    requires Run(p, o) !! FreeFrames(t) && Run(p, o) !! HeldFrames(t)
    ensures NewlyHeld(n, m, p, o) && !n.HeldHead(p, o)
  {
    hide Meta.Blocks, Meta.Canonical, FreeFrames, HeldFrames, Run, Meta.HeldHead, SameHeld;
    SameHeldFrames(t, n);
    HeadsBack(m, t, n, p, o);
  }

  lemma HeadsBack(m: Meta, t: Meta, n: Meta, p: nat, o: nat)
    requires m.HeldHead(p, o) && t == m.Put(p, NOT_FREE) && SameHeld(t, n)
    ensures forall q: nat, r: nat :: m.HeldHead(q, r) <==> n.HeldHead(q, r) || (q == p && r == o)
    ensures !n.HeldHead(p, o) && m.base == n.base && |m.bytes| == |n.bytes|
  {
    assert t.HeldHead(p, o) <==> n.HeldHead(p, o);
    forall q: nat, r: nat ensures m.HeldHead(q, r) <==> n.HeldHead(q, r) || (q == p && r == o) {
      assert t.HeldHead(q, r) <==> n.HeldHead(q, r);
    }
  }

  /** A byte address is aligned to a block exactly when it is the start of an aligned frame. */
  lemma AlignedAddress(pa: nat, o: nat)
    ensures pa % (PAGE_SIZE * P2(o)) == 0 <==> pa % PAGE_SIZE == 0 && Aligned(pa / PAGE_SIZE, o)
  {
    var m := P2(o);
    if pa % (PAGE_SIZE * m) == 0 {
      var k := pa / (PAGE_SIZE * m);
      assert pa == (PAGE_SIZE * m) * k == PAGE_SIZE * (m * k);
      ModUnique(pa, m * k, 0, PAGE_SIZE);
      ModUnique(m * k, k, 0, m);
    }
    if pa % PAGE_SIZE == 0 && Aligned(pa / PAGE_SIZE, o) {
      var k := pa / PAGE_SIZE / m;
      assert pa / PAGE_SIZE == m * k;
      assert pa == PAGE_SIZE * (m * k) == (PAGE_SIZE * m) * k;
      ModUnique(pa, k, 0, PAGE_SIZE * m);
    }
  }

  function FirstFrame(base: nat): nat {
    (base + PAGE_SIZE - 1) / PAGE_SIZE
  }

  /** The frames of a region are the whole ones. */
  lemma WholeFrames(base: nat, end: nat, f: nat)
    ensures FirstFrame(base) <= f < end / PAGE_SIZE <==> base <= f * PAGE_SIZE && (f + 1) * PAGE_SIZE <= end
  {
  }

  /** The frames from `lo` up to `hi`. */
  ghost function Region(lo: nat, hi: nat): set<nat>
    requires lo <= hi
  {
    Frames(lo, hi - lo)
  }

  /** From `m` the unmanaged frames `lo` to `hi` became free, and nothing else changed. */
  ghost predicate Grown(m: Meta, n: Meta, lo: nat, hi: nat)
    requires lo <= hi
  {
    && n.Good() && SameHeld(m, n) && FreeFrames(n) == FreeFrames(m) + Region(lo, hi)
    && !SomeManaged(m, lo, hi)
  }

  /** A frame outside the grown ones is managed as before. */
  lemma GrownManaged(m: Meta, n: Meta, lo: nat, hi: nat, f: nat)
    requires m.Good() && lo <= hi && Grown(m, n, lo, hi) && !(lo <= f < hi)
    ensures Managed(n, f) == Managed(m, f)
  {
    hide Meta.FreeAt, Meta.HeldAt;
    FreeIsInside(m, f);
    FreeIsInside(n, f);
    assert m.FreeAt(f) == n.FreeAt(f) by {
      assert f in FreeFrames(n) <==> f in FreeFrames(m);
    }
    HeldAtIs(m, f);
    HeldAtIs(n, f);
  }

  lemma GrownUnmanaged(m: Meta, n: Meta, lo: nat, p: nat, hi: nat)
    requires m.Good() && lo <= p <= hi && Grown(m, n, lo, p) && !SomeManaged(n, p, hi)
    ensures !SomeManaged(m, lo, hi)
  {
    hide Managed;
    forall f: nat | lo <= f < hi ensures !Managed(m, f) {
      if f >= p {
        GrownManaged(m, n, lo, p, f);
      }
    }
  }

  lemma RegionsJoin(lo: nat, p: nat, hi: nat)
    requires lo <= p <= hi
    ensures Region(lo, hi) == Region(lo, p) + Region(p, hi)
  {
  }

  lemma SetsGrow(a: set<nat>, b: set<nat>, c: set<nat>, x: set<nat>, y: set<nat>, z: set<nat>)
    requires b == a + x && c == b + y && z == x + y
    ensures c == a + z
  {
  }

  lemma GrownTwice(m: Meta, n: Meta, k: Meta, lo: nat, p: nat, hi: nat)
    requires m.Good() && lo <= p <= hi && Grown(m, n, lo, p) && Grown(n, k, p, hi)
    ensures Grown(m, k, lo, hi)
  {
    hide Meta.Good, FreeFrames, Region, SameHeld, SomeManaged, Meta.FreeAt, Meta.HeldAt;
    GrownUnmanaged(m, n, lo, p, hi);
    SameHeldTrans(m, n, k);
    RegionsJoin(lo, p, hi);
    SetsGrow(FreeFrames(m), FreeFrames(n), FreeFrames(k), Region(lo, p), Region(p, hi), Region(lo, hi));
  }

  lemma GrownMeans(m: Meta, n: Meta, lo: nat, hi: nat)
    requires lo <= hi && Grown(m, n, lo, hi)
    ensures !SomeManaged(m, lo, hi)
  {
  }

  /** The links live in free frames only: words elsewhere are the holder's. */
  lemma OtherWord(m: Meta, mem: Memory, heads: seq<nat>, lists: seq<seq<nat>>, pa: Address, v: nat)
    requires m.Blocks() && Listed(m, lists) && Linked(mem, heads, lists) && !m.FreeAt(pa.frame)
    ensures Linked(mem[pa := v], heads, lists)
  {
    forall o: nat | o < ORDERS ensures Chain(mem[pa := v], lists[o], heads[o]) {
      assert Chain(mem, lists[o], heads[o]);
      forall p | p in lists[o] ensures p != pa.frame {
        assert m.FreeHead(p, o) && Covers(p, o, p);
        FreeAtIs(m, p);
      }
      ChainSame(mem, mem[pa := v], lists[o], heads[o]);
    }
  }

  lemma TakeForAlloc(m: Meta, t: Meta, p: nat, o: nat)
    requires m.Good() && m.FreeHead(p, o) && t == m.Put(p, NOT_FREE)
    ensures t.Good() && t.InHand(p, o) && m.Inside(p)
  {
    assert m.IsHead(p, o);
    TakeUp(m, t, p, o);
  }

  lemma HeldIsAligned(m: Meta, p: nat, o: nat)
    requires m.Blocks()
    ensures m.HeldHead(p, o) ==> Aligned(p, o) && m.Fits(p, o)
  {
    assert m.HeldHead(p, o) ==> m.IsHead(p, o);
  }

  /** The run starts a free block, and no smaller free block would do. */
  ghost predicate SmallestFit(m: Meta, p: nat, order: nat) {
    exists o: nat :: order <= o <= MAX_ORDER && m.FreeHead(p, o) && NoneBetween(m, order, o)
  }

  ghost predicate NoneBetween(m: Meta, order: nat, o: nat) {
    forall q: nat, k: nat | order <= k < o :: !m.FreeHead(q, k)
  }

  lemma FitIs(m: Meta, lists: seq<seq<nat>>, p: nat, o: nat, order: nat)
    requires Listed(m, lists) && order <= o <= MAX_ORDER && m.FreeHead(p, o)
    requires forall k: nat | order <= k < o :: lists[k] == []
    ensures SmallestFit(m, p, order)
  {
    assert NoneBetween(m, order, o);
  }

  /** The address and the order name a block of the span. */
  predicate BlockAsked(m: Meta, pa: nat, order: nat) {
    order <= MAX_ORDER && pa % (PAGE_SIZE * P2(order)) == 0 && m.Fits(pa / PAGE_SIZE, order)
  }

  lemma HeldNotFree(m: Meta, p: nat, o: nat)
    requires m.Blocks()
    ensures m.HeldHead(p, o) ==> !m.FreeAt(p)
  {
    hide Meta.FreeAt, Meta.Blocks;
    if m.HeldHead(p, o) {
      FreeAtIs(m, p);
      HeldCovers(m, p, o);
    }
  }

  lemma HeldCovers(m: Meta, p: nat, o: nat)
    requires m.Blocks() && m.HeldHead(p, o)
    ensures forall q: nat, r: nat | m.FreeHead(q, r) :: !Covers(q, r, p)
  {
    forall q: nat, r: nat | m.FreeHead(q, r) ensures !Covers(q, r, p) {
      assert m.IsHead(p, o) && m.IsHead(q, r);
      assert p != q;
      assert Apart(p, o, q, r);
    }
  }

  lemma GrownNone(m: Meta, lo: nat)
    requires m.Good()
    ensures Grown(m, m, lo, lo)
  {
  }

  /** A block in the way now was in the way before the region grew. */
  lemma StillManaged(m: Meta, n: Meta, lo: nat, p: nat, hi: nat, last: nat)
    requires m.Good() && lo <= p && Grown(m, n, lo, p) && SomeManaged(n, p, hi) && hi <= last
    ensures SomeManaged(m, lo, last)
  {
    hide Managed;
    var f: nat :| p <= f < hi && Managed(n, f);
    GrownManaged(m, n, lo, p, f);
  }

  lemma RunIsRegion(p: nat, o: nat, hi: nat)
    requires hi == p + P2(o)
    ensures Region(p, hi) == Run(p, o)
  {
  }

  /** What one more block does to the free frames and their number. */
  lemma AddedBlock(m: Meta, n: Meta, p: nat, o: nat, hi: nat)
    requires m.Good() && o <= MAX_ORDER && Aligned(p, o) && m.Fits(p, o) && !SomeManaged(m, p, hi)
    requires n == Freed(m, p, o) && hi == p + P2(o)
    ensures m.InHand(p, o) && n.Good() && Grown(m, n, p, hi)
    ensures |FreeFrames(n)| == |FreeFrames(m)| + P2(o)
  {
    hide SomeManaged, Freed, FreeFrames, Run, Region, Meta.Blocks, Meta.Canonical, Meta.InHand, SameHeld, P2;
    UnmanagedInHand(m, p, o);
    FreedGood(m, p, o);
    HandApart(m, p, o);
    UnionSize(FreeFrames(m), Run(p, o));
    RunIsRegion(p, o, hi);
  }

  lemma NothingYet(m: Meta)
    requires forall p: nat :: m.At(p) == NOT_FREE
    ensures m.Good() && FreeFrames(m) == {} && HeldFrames(m) == {}
    ensures Listed(m, seq(ORDERS, _ => []))
  {
    assert forall p: nat, o: nat :: !m.IsHead(p, o) && !m.FreeHead(p, o) && !m.HeldHead(p, o);
  }

  lemma AllotCounts(m: Meta, n: Meta, p: nat, from: nat, order: nat)
    requires m.Good() && m.FreeHead(p, from) && order <= from && n == Allotted(m, p, from, order)
    ensures n.Good() && NewlyHeld(m, n, p, order) && Aligned(p, order)
    ensures |FreeFrames(m)| == |FreeFrames(n)| + P2(order)
  {
    AllottedGood(m, p, from, order);
    HeldCounts(m, n, p, order);
  }

  lemma AddressOf(pfn: nat)
    ensures pfn * PAGE_SIZE / PAGE_SIZE == pfn && pfn * PAGE_SIZE % PAGE_SIZE == 0
  {
  }

  /** free, on the metadata: the block's frames change sides and are counted. */
  lemma FreeCounts(m: Meta, n: Meta, p: nat, o: nat)
    requires m.Good() && m.HeldHead(p, o) && n == Freed(m.Put(p, NOT_FREE), p, o)
    ensures m.Put(p, NOT_FREE).Good() && m.Put(p, NOT_FREE).InHand(p, o)
    ensures n.Good() && NewlyHeld(n, m, p, o) && !n.HeldHead(p, o) && |FreeFrames(n)| == |FreeFrames(m)| + P2(o)
  {
    hide Freed, Meta.Good, Meta.InHand, NewlyHeld;
    FreeStep(m, p, o);
    HeldCounts(n, m, p, o);
  }

  /** The double-free test of free_block does not fire on a block in hand. */
  lemma InHandNotFree(m: Meta, p: nat, o: nat)
    requires m.Good() && m.InHand(p, o)
    ensures m.Inside(p) && !m.FreeAt(p)
  {
    assert Covers(p, o, p);
    InHandIsNeither(m, p, o, p);
  }
}
