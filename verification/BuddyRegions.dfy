/** Regions handed to the allocator, and what a free undoes. */
module BuddyRegions {
  import opened Buddy
  import opened BuddyMeta
  import opened BuddyFrames

  /** Some block, free or held, covers the frame. */
  predicate Managed(m: Meta, f: nat) {
    m.FreeAt(f) || m.HeldAt(f)
  }

  /** Some frame from `lo` up to `hi` is managed. */
  ghost predicate SomeManaged(m: Meta, lo: nat, hi: nat) {
    exists f: nat :: lo <= f < hi && Managed(m, f)
  }

  lemma ManagedIs(m: Meta, f: nat)
    requires m.Blocks()
    ensures Managed(m, f) <==> exists p: nat, o: nat :: m.IsHead(p, o) && Covers(p, o, f)
  {
    FreeAtIs(m, f);
    HeldAtIs(m, f);
    hide Meta.FreeAt, Meta.HeldAt, Meta.Blocks, Covers;
    if p: nat, o: nat :| m.IsHead(p, o) && Covers(p, o, f) {
    }
  }

  /** Some byte of the run is that of a head. */
  predicate HeadIn(m: Meta, p: nat, o: nat) {
    exists q | p <= q < p + P2(o) :: m.At(q) != NOT_FREE
  }

  /** A block in the way of the run covers its first frame or starts inside it. */
  lemma BlockInTheWay(m: Meta, p: nat, o: nat, q: nat, r: nat)
    requires m.Blocks() && Aligned(p, o) && m.IsHead(q, r) && !Apart(p, o, q, r)
    ensures Managed(m, p) || HeadIn(m, p, o)
  {
    if q <= p {
      assert Covers(q, r, p);
      ManagedIs(m, p);
    } else {
      assert m.At(q) != NOT_FREE;
    }
  }

  lemma HeadInManaged(m: Meta, p: nat, o: nat)
    requires m.Blocks() && HeadIn(m, p, o)
    ensures SomeManaged(m, p, p + P2(o))
  {
    hide Meta.Blocks, Managed, Meta.At;
    var q :| p <= q < p + P2(o) && m.At(q) != NOT_FREE;
    HeadManaged(m, q);
  }

  lemma ManagedInTheWay(m: Meta, p: nat, o: nat)
    requires m.Blocks() && Aligned(p, o) && SomeManaged(m, p, p + P2(o))
    ensures Managed(m, p) || HeadIn(m, p, o)
  {
    hide Meta.Blocks, Managed, HeadIn, Aligned, Meta.IsHead;
    var f: nat :| p <= f < p + P2(o) && Managed(m, f);
    ManagedIs(m, f);
    var q: nat, r: nat :| m.IsHead(q, r) && Covers(q, r, f);
    BlockInTheWay(m, p, o, q, r);
  }

  /** The test overlaps_a_block makes finds exactly the runs that share a frame with a block. */
  lemma OverlapIs(m: Meta, p: nat, o: nat)
    requires m.Blocks() && Aligned(p, o)
    ensures Managed(m, p) || HeadIn(m, p, o) <==> SomeManaged(m, p, p + P2(o))
  {
    hide Meta.Blocks, Managed, HeadIn, Aligned;
    if HeadIn(m, p, o) {
      HeadInManaged(m, p, o);
    }
    if SomeManaged(m, p, p + P2(o)) {
      ManagedInTheWay(m, p, o);
    }
  }

  lemma HeadManaged(m: Meta, q: nat)
    requires m.Blocks() && m.At(q) != NOT_FREE
    ensures Managed(m, q)
  {
    var r: nat :| m.IsHead(q, r);
    assert Covers(q, r, q);
    ManagedIs(m, q);
  }

  /** A run without managed frames may be taken in hand. */
  lemma UnmanagedInHand(m: Meta, p: nat, o: nat)
    requires m.Blocks() && o <= MAX_ORDER && Aligned(p, o) && m.Fits(p, o)
    requires !SomeManaged(m, p, p + P2(o))
    ensures m.InHand(p, o)
  {
    OverlapIs(m, p, o);
    forall q: nat, r: nat | m.IsHead(q, r) ensures Apart(p, o, q, r) {
      if !Apart(p, o, q, r) {
        BlockInTheWay(m, p, o, q, r);
      }
    }
  }

  /** The metadata is determined by the held blocks and the free frames: how they came
      about leaves no trace. */
  lemma MetaUnique(m: Meta, n: Meta)
    requires m.Good() && n.Good() && SameHeld(m, n) && FreeFrames(m) == FreeFrames(n)
    ensures m == n
  {
    forall f: nat ensures m.FreeAt(f) == n.FreeAt(f) {
      FreeIsInside(m, f);
      FreeIsInside(n, f);
      assert f in FreeFrames(m) <==> f in FreeFrames(n);
    }
    CanonicalIsUnique(m, n);
    forall p: nat ensures m.At(p) == n.At(p) {
      SameByte(m, n, p);
      SameByte(n, m, p);
    }
    assert m.bytes == n.bytes by {
      forall i: nat | i < |m.bytes| ensures m.bytes[i] == n.bytes[i] {
        assert m.At(m.base + i) == n.At(m.base + i);
      }
    }
  }

  lemma SameByte(m: Meta, n: Meta, p: nat)
    requires m.Blocks()
    requires forall q: nat, o: nat :: m.FreeHead(q, o) ==> n.FreeHead(q, o)
    requires forall q: nat, o: nat :: m.HeldHead(q, o) ==> n.HeldHead(q, o)
    ensures m.At(p) != NOT_FREE ==> m.At(p) == n.At(p)
  {
    if m.At(p) != NOT_FREE {
      var o: nat :| m.IsHead(p, o);
    }
  }

  lemma FreeIsInside(m: Meta, f: nat)
    requires m.Blocks()
    ensures m.FreeAt(f) ==> m.Inside(f)
  {
    FreeAtIs(m, f);
    if m.FreeAt(f) {
      var p: nat, o: nat :| m.FreeHead(p, o) && Covers(p, o, f);
      assert m.IsHead(p, o);
    }
  }
}
