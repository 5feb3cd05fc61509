/** The physical page allocator: metadata bytes, list heads and links change in place. */
module FrameAllocator {
  import opened Common
  import opened Buddy
  import opened BuddyMeta
  import opened BuddyFrames
  import opened BuddyLinks
  import opened BuddyRegions
  import opened FrameSpec

  /** free, with its panics as outcomes. */
  datatype FreeOutcome = GivenBack | OrderTooLarge | Misaligned | OutsideSpan | DoubleFree | NotAllocated

  datatype RegionOutcome = Added | NotInSpan | OverlapsAdded

  class Frames {
    var mem: Memory
    const basePfn: nat
    const meta: array<nat>
    const heads: array<nat>
    var freeFrames: nat
    ghost var lists: seq<seq<nat>>

    ghost function M(): Meta
      reads meta
    {
      Meta(basePfn, meta[..])
    }

    /** The links and the metadata agree about which blocks are free. */
    ghost predicate Agree()
      reads `mem, `lists, meta, heads
    {
      && heads.Length == ORDERS && meta != heads && Bounded(M())
      && Listed(M(), lists) && Linked(mem, heads[..], lists)
    }

    ghost predicate Valid()
      reads this, meta, heads
    {
      Agree() && M().Good() && freeFrames == |FreeFrames(M())|
    }

    predicate InRange(pfn: nat, order: nat) {
      pfn >= basePfn && pfn + P2(order) <= basePfn + meta.Length
    }

    /** The words of a block that becomes the first of its list. */
    method Link(pfn: nat, order: nat)
      requires heads.Length == ORDERS && order < ORDERS
      modifies `mem, heads
      ensures mem == PushMem(old(mem), pfn, old(heads[order]))
      ensures heads[..] == old(heads[..])[order := pfn]
    {
      var head := heads[order];
      mem := mem[NextAt(pfn) := head];
      mem := mem[PrevAt(pfn) := NIL];
      if head != NIL {
        mem := mem[PrevAt(head) := pfn];
      }
      heads[order] := pfn;
    }

    method Push(pfn: nat, order: nat)
      requires Agree() && order < ORDERS && M().Inside(pfn) && M().At(pfn) == NOT_FREE
      modifies `mem, `lists, meta, heads
      ensures Agree() && M() == old(M()).Put(pfn, order + 1)
    {
      ghost var m := M();
      PushLists(m, mem, heads[..], lists, pfn, order);
      PushListed(m, lists, pfn, order);
      assert |lists| == ORDERS;
      hide Listed, Linked, PushMem;
      Link(pfn, order);
      meta[pfn - basePfn] := order + 1;
      lists := lists[order := [pfn] + lists[order]];
      assert M() == m.Put(pfn, order + 1);
    }

    /** The words around a block that leaves its list, and the head when it was first. */
    method Relink(pfn: nat, order: nat)
      requires heads.Length == ORDERS && order < ORDERS
      modifies `mem, heads
      ensures mem == UnlinkMem(old(mem), pfn)
      ensures heads[..] == old(heads[..])[order := UnlinkHead(old(mem), pfn, old(heads[order]))]
    {
      var next := Read(mem, NextAt(pfn));
      var prev := Read(mem, PrevAt(pfn));
      if prev == NIL {
        heads[order] := next;
      } else {
        mem := mem[NextAt(prev) := next];
      }
      if next != NIL {
        mem := mem[PrevAt(next) := prev];
      }
    }

    method Unlink(pfn: nat, order: nat)
      requires Agree() && M().FreeHead(pfn, order)
      modifies `mem, `lists, meta, heads
      ensures Agree() && M() == old(M()).Put(pfn, NOT_FREE)
    {
      ghost var m := M();
      assert pfn in lists[order];
      ghost var i: nat :| i < |lists[order]| && lists[order][i] == pfn;
      UnlinkLists(m, mem, heads[..], lists, order, i);
      UnlinkListed(m, lists, order, i);
      Relink(pfn, order);
      meta[pfn - basePfn] := NOT_FREE;
      lists := lists[order := Without(lists[order], i)];
      assert M() == m.Put(pfn, NOT_FREE);
    }

    method SetMeta(pfn: nat, v: nat)
      requires Agree() && M().Inside(pfn) && (M().At(pfn) == NOT_FREE || M().At(pfn) >= ALLOCATED)
      requires v == NOT_FREE || v >= ALLOCATED
      modifies meta
      ensures Agree() && M() == old(M()).Put(pfn, v)
    {
      ghost var m := M();
      HoldListed(m, lists, pfn, v);
      meta[pfn - basePfn] := v;
      assert M() == m.Put(pfn, v);
    }

    /** The coalescing loop of free_block. */
    method Coalesce(pfn: nat, order: nat) returns (p: nat, o: nat)
      requires Agree() && order <= MAX_ORDER
      modifies `mem, `lists, meta, heads
      ensures Agree() && (M(), p, o) == Coalesced(old(M()), pfn, order)
    {
      p, o := pfn, order;
      while o < MAX_ORDER
        invariant o <= MAX_ORDER && Agree()
        invariant Coalesced(M(), p, o) == Coalesced(old(M()), pfn, order)
      {
        var buddy := BuddyOf(p, o);
        if !InRange(buddy, o) || meta[buddy - basePfn] != o + 1 {
          break;
        }
        Unlink(buddy, o);
        p := Lower(p, buddy);
        o := o + 1;
      }
    }

    /** free_block: coalesces and lists the block that is in hand. */
    method FreeBlock(pfn: nat, order: nat)
      requires Agree() && M().Good() && M().InHand(pfn, order) && order <= MAX_ORDER
      modifies this, meta, heads
      ensures Agree() && M() == Freed(old(M()), pfn, order)
      ensures freeFrames == old(freeFrames) + P2(order)
    {
      hide Meta.Good, Meta.InHand, FreeFrames, Run, SameHeld, Coalesced, Agree, P2;
      FreedGood(M(), pfn, order);
      InHandNotFree(M(), pfn, order);
      var twice := InFreeBlock(pfn);
      assert !twice;
      freeFrames := freeFrames + P2(order);
      var p, o := Coalesce(pfn, order);
      Push(p, o);
    }

    /** The splitting loop of alloc. */
    method Halve(pfn: nat, from: nat, order: nat)
      requires Agree() && M().Good() && M().InHand(pfn, from) && order <= from <= MAX_ORDER
      modifies `mem, `lists, meta, heads
      ensures Agree() && M() == Halved(old(M()), pfn, from, order)
    {
      hide Meta.Blocks, Meta.Canonical, Meta.InHand, Meta.FreeHead, Listed, Linked, P2;
      var o := from;
      while o > order
        invariant order <= o <= from && Agree() && M().Good() && M().InHand(pfn, o)
        invariant Halved(M(), pfn, o, order) == Halved(old(M()), pfn, from, order)
      {
        var h := pfn + P2(o - 1);
        ghost var m := M();
        HalvesInHand(m, pfn, h, o);
        ghost var n := m.Put(h, o);
        Split(m, n, pfn, h, o);
        Push(h, o - 1);
        assert M() == n;
        o := o - 1;
      }
    }

    /** The first order from `order` on whose list is not empty; past MAX_ORDER if none. */
    method FirstList(order: nat) returns (o: nat)
      requires Agree() && order <= MAX_ORDER
      ensures order <= o <= MAX_ORDER + 1 && (o <= MAX_ORDER ==> heads[o] != NIL)
      ensures forall k: nat | order <= k < o :: lists[k] == []
    {
      hide Listed, Meta.FreeHead;
      o := order;
      while heads[o] == NIL
        invariant order <= o <= MAX_ORDER
        invariant forall k: nat | order <= k < o :: lists[k] == []
        decreases MAX_ORDER - o
      {
        assert Chain(mem, lists[o], heads[o]);
        NoNil(M(), lists, o);
        if o == MAX_ORDER {
          return o + 1;
        }
        o := o + 1;
      }
    }

    /** The first block of a list that is not empty. */
    lemma FirstIsFree(o: nat)
      requires Agree() && o <= MAX_ORDER
      ensures |lists| == ORDERS && (heads[o] == NIL <==> lists[o] == [])
      ensures heads[o] != NIL ==> M().FreeHead(heads[o], o)
    {
      assert Chain(mem, lists[o], heads[o]);
      NoNil(M(), lists, o);
      if lists[o] != [] {
        assert lists[o][0] in lists[o];
      }
    }

    /** alloc from the list of order `from` on: unlink, split, mark. */
    method TakeFrom(pfn: nat, from: nat, order: nat)
      requires Agree() && M().Good() && M().FreeHead(pfn, from) && order <= from <= MAX_ORDER && P2(order) <= freeFrames
      modifies this, meta, heads
      ensures Agree() && M() == Allotted(old(M()), pfn, from, order) && freeFrames == old(freeFrames) - P2(order)
    {
      hide Meta.Good, Meta.InHand, Meta.FreeHead, Agree, Halved, NewlyHeld, P2, Aligned;
      ghost var m := M();
      TakeForAlloc(m, m.Put(pfn, NOT_FREE), pfn, from);
      AllottedGood(m, pfn, from, order);
      Unlink(pfn, from);
      Halve(pfn, from, order);
      SetMeta(pfn, ALLOCATED + order);
      freeFrames := freeFrames - P2(order);
    }

    method Alloc(order: nat) returns (r: Option<nat>)
      requires Valid()
      modifies this, meta, heads
      ensures Valid()
      ensures r.None? <==> order > MAX_ORDER || !HasRun(old(M()), order)
      ensures r.None? ==> M() == old(M()) && mem == old(mem) && freeFrames == old(freeFrames)
      ensures r.Some? ==> r.value % PAGE_SIZE == 0 && Aligned(r.value / PAGE_SIZE, order)
      ensures r.Some? ==> NewlyHeld(old(M()), M(), r.value / PAGE_SIZE, order)
      ensures r.Some? ==> SmallestFit(old(M()), r.value / PAGE_SIZE, order)
    {
      hide SmallestFit, Meta.Good, Meta.FreeHead, Listed, Linked, NewlyHeld, P2, Aligned, HasRun, Allotted, FreeFrames;
      if order > MAX_ORDER {
        return None;
      }
      ghost var m := M();
      ListsTellRuns(m, lists, order);
      var o := FirstList(order);
      if o > MAX_ORDER {
        return None;
      }
      FirstIsFree(o);
      FitIs(m, lists, heads[o], o, order);
      assert lists[o] != [];
      var pfn := heads[o];
      AllotCounts(m, Allotted(m, pfn, o, order), pfn, o, order);
      TakeFrom(pfn, o, order);
      AddressOf(pfn);
      r := Some(pfn * PAGE_SIZE);
    }

    /** True when a free block covers the frame: one lookup for each order. */
    method InFreeBlock(pfn: nat) returns (b: bool)
      requires M().Inside(pfn)
      ensures b == M().FreeAt(pfn)
    {
      var o := 0;
      while o <= MAX_ORDER
        invariant o <= MAX_ORDER + 1
        invariant forall k: nat | k < o :: !M().FreeHead(Head(pfn, k), k)
      {
        HeadFacts(pfn, o);
        var head := Head(pfn, o);
        if head >= basePfn && meta[head - basePfn] == o + 1 {
          return true;
        }
        o := o + 1;
      }
      b := false;
    }

    method InABlock(pfn: nat) returns (b: bool)
      requires M().Inside(pfn)
      ensures b == Managed(M(), pfn)
    {
      hide P2, Aligned;
      var o := 0;
      while o <= MAX_ORDER
        invariant o <= MAX_ORDER + 1
        invariant forall k: nat | k < o :: !M().IsHead(Head(pfn, k), k)
      {
        HeadFacts(pfn, o);
        var head := Head(pfn, o);
        if head >= basePfn && (meta[head - basePfn] == o + 1 || meta[head - basePfn] == ALLOCATED + o) {
          assert M().IsHead(head, o);
          return true;
        }
        o := o + 1;
      }
      forall k: nat ensures !M().FreeHead(Head(pfn, k), k) && !M().HeldHead(Head(pfn, k), k) {
        assert !M().IsHead(Head(pfn, k), k);
      }
      b := false;
    }

    method AnyHead(pfn: nat, order: nat) returns (b: bool)
      requires M().Fits(pfn, order)
      ensures b == HeadIn(M(), pfn, order)
    {
      var f := pfn;
      while f < pfn + P2(order)
        invariant pfn <= f <= pfn + P2(order)
        invariant forall q | pfn <= q < f :: M().At(q) == NOT_FREE
      {
        if meta[f - basePfn] != NOT_FREE {
          assert M().At(f) != NOT_FREE;
          return true;
        }
        f := f + 1;
      }
      b := false;
    }

    /** overlaps_a_block: whether the aligned run meets any block. */
    method OverlapsABlock(pfn: nat, order: nat) returns (b: bool)
      requires M().Blocks() && Aligned(pfn, order) && M().Fits(pfn, order)
      ensures b <==> SomeManaged(M(), pfn, pfn + P2(order))
    {
      OverlapIs(M(), pfn, order);
      var covers := InABlock(pfn);
      var heads := AnyHead(pfn, order);
      b := covers || heads;
    }

    /** Gives back a block; the outcomes other than GivenBack are panics. */
    method Free(pa: nat, order: nat) returns (r: FreeOutcome)
      requires Valid()
      modifies this, meta, heads
      ensures Valid()
      ensures r.GivenBack? <==> pa % PAGE_SIZE == 0 && old(M()).HeldHead(pa / PAGE_SIZE, order)
      ensures r.OrderTooLarge? <==> order > MAX_ORDER
      ensures r.Misaligned? <==> order <= MAX_ORDER && pa % (PAGE_SIZE * P2(order)) != 0
      ensures r.OutsideSpan? <==>
                order <= MAX_ORDER && pa % (PAGE_SIZE * P2(order)) == 0 && !old(M()).Fits(pa / PAGE_SIZE, order)
      ensures r.DoubleFree? <==> BlockAsked(old(M()), pa, order) && old(M()).FreeAt(pa / PAGE_SIZE)
      ensures r.NotAllocated? <==> BlockAsked(old(M()), pa, order) && !old(M()).FreeAt(pa / PAGE_SIZE)
                                   && !old(M()).HeldHead(pa / PAGE_SIZE, order)
      ensures !r.GivenBack? ==> M() == old(M()) && mem == old(mem) && freeFrames == old(freeFrames)
      ensures r.GivenBack? ==> NewlyHeld(M(), old(M()), pa / PAGE_SIZE, order) && !M().HeldHead(pa / PAGE_SIZE, order)
    {
      hide Agree, Meta.Canonical, Meta.InHand, Freed, FreeFrames, NewlyHeld, P2, Aligned, Meta.FreeAt;
      ghost var m := M();
      if order > MAX_ORDER {
        return OrderTooLarge;
      }
      AlignedAddress(pa, order);
      var pfn := pa / PAGE_SIZE;
      HeldIsAligned(m, pfn, order);
      HeldNotFree(m, pfn, order);
      if pa % (PAGE_SIZE * P2(order)) != 0 {
        return Misaligned;
      }
      if !InRange(pfn, order) {
        return OutsideSpan;
      }
      if meta[pfn - basePfn] != ALLOCATED + order {
        var free := InFreeBlock(pfn);
        return if free then DoubleFree else NotAllocated;
      }
      FreeCounts(m, Freed(m.Put(pfn, NOT_FREE), pfn, order), pfn, order);
      SetMeta(pfn, NOT_FREE);
      FreeBlock(pfn, order);
      r := GivenBack;
    }

    /** The largest order whose block fits at `pfn` before `last`. */
    method LargestFit(pfn: nat, last: nat) returns (order: nat)
      requires pfn < last
      ensures order <= MAX_ORDER && Aligned(pfn, order) && pfn + P2(order) <= last
      ensures forall k: nat | order < k <= MAX_ORDER :: !(Aligned(pfn, k) && pfn + P2(k) <= last)
    {
      order := MAX_ORDER;
      while order > 0 && !(pfn % P2(order) == 0 && pfn + P2(order) <= last)
        invariant order <= MAX_ORDER
        invariant forall k: nat | order < k <= MAX_ORDER :: !(Aligned(pfn, k) && pfn + P2(k) <= last)
      {
        order := order - 1;
      }
    }

    /** One block of a region, unless a block is in its way. */
    method AddBlock(pfn: nat, order: nat) returns (added: bool)
      requires Valid() && order <= MAX_ORDER && Aligned(pfn, order) && M().Fits(pfn, order)
      modifies this, meta, heads
      ensures Valid()
      ensures added <==> !SomeManaged(old(M()), pfn, pfn + P2(order))
      ensures added ==> Grown(old(M()), M(), pfn, pfn + P2(order))
      ensures !added ==> M() == old(M()) && mem == old(mem) && freeFrames == old(freeFrames)
    {
      hide Agree, SomeManaged, FreeFrames, Grown, Aligned, P2, Freed, Meta.InHand;
      ghost var m := M();
      var overlap := OverlapsABlock(pfn, order);
      if overlap {
        return false;
      }
      AddedBlock(m, Freed(m, pfn, order), pfn, order, pfn + P2(order));
      FreeBlock(pfn, order);
      added := true;
    }

    /** add_region: the frames that lie whole in the range of bytes become free. */
    method AddRegion(base: nat, end: nat) returns (r: RegionOutcome)
      requires Valid()
      modifies this, meta, heads
      ensures Valid()
      ensures var first, last := FirstFrame(base), end / PAGE_SIZE;
              && (first >= last ==> r.Added? && M() == old(M()))
              && (r.NotInSpan? <==> first < last && !(basePfn <= first && last <= basePfn + meta.Length))
              && (r.NotInSpan? ==> M() == old(M()))
              && (r.OverlapsAdded? <==> first < last && !r.NotInSpan? && SomeManaged(old(M()), first, last))
              && (r.OverlapsAdded? ==> exists mid: nat | first <= mid < last :: Grown(old(M()), M(), first, mid))
              && (first < last && r.Added? ==> Grown(old(M()), M(), first, last))
    {
      var first := FirstFrame(base);
      var last := end / PAGE_SIZE;
      if first >= last {
        return Added;
      }
      if !(first >= basePfn && last <= basePfn + meta.Length) {
        return NotInSpan;
      }
      r := AddFrames(first, last);
    }

    method AddFrames(first: nat, last: nat) returns (r: RegionOutcome)
      requires Valid() && basePfn <= first < last <= basePfn + meta.Length
      modifies this, meta, heads
      ensures Valid() && !r.NotInSpan?
      ensures r.OverlapsAdded? <==> SomeManaged(old(M()), first, last)
      ensures r.OverlapsAdded? ==> exists mid: nat | first <= mid < last :: Grown(old(M()), M(), first, mid)
      ensures r.Added? ==> Grown(old(M()), M(), first, last)
    {
      hide SomeManaged, Grown, Agree, FreeFrames, Aligned, P2, Meta.Good;
      ghost var m := M();
      var pfn := first;
      GrownNone(m, first);
      while pfn < last
        invariant first <= pfn <= last && Valid() && Grown(m, M(), first, pfn)
      {
        var order := LargestFit(pfn, last);
        ghost var n := M();
        var added := AddBlock(pfn, order);
        if !added {
          StillManaged(m, n, first, pfn, pfn + P2(order), last);
          return OverlapsAdded;
        }
        GrownTwice(m, n, M(), first, pfn, pfn + P2(order));
        pfn := pfn + P2(order);
      }
      GrownMeans(m, M(), first, last);
      r := Added;
    }

    /** A word outside the free frames is the holder's: writing it disturbs nothing. */
    method HolderWrites(pa: Address, value: nat)
      requires Valid() && !M().FreeAt(pa.frame)
      modifies `mem
      ensures Valid() && Read(mem, pa) == value
    {
      OtherWord(M(), mem, heads[..], lists, pa, value);
      mem := mem[pa := value];
    }

    /** An allocator without blocks for the frames from `base` on. */
    constructor (memory: Memory, base: nat, bytes: array<nat>)
      requires base % PAGE_SIZE == 0 && base / PAGE_SIZE + bytes.Length <= MAX_FRAMES
      modifies bytes
      ensures Valid() && meta == bytes && basePfn == base / PAGE_SIZE && fresh(heads)
      ensures FreeFrames(M()) == {} && HeldFrames(M()) == {}
    {
      mem := memory;
      basePfn := base / PAGE_SIZE;
      meta := bytes;
      heads := new nat[ORDERS](_ => NIL);
      freeFrames := 0;
      lists := seq(ORDERS, _ => []);
      new;
      var i := 0;
      while i < meta.Length
        modifies meta
        invariant i <= meta.Length
        invariant forall k: nat | k < i :: meta[k] == NOT_FREE
      {
        meta[i] := NOT_FREE;
        i := i + 1;
      }
      NothingYet(M());
    }
  }
}
