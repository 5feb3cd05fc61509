/**
 What the metadata bytes keep: blocks are aligned and apart, and the free ones are
 canonical, so no two free buddies of one order stand side by side below the top order.
 */
module BuddyMeta {
  import opened Buddy

  /** The metadata of the frames `base`, `base + 1`, ... */
  datatype Meta = Meta(base: nat, bytes: seq<nat>)
  {
    predicate Inside(p: nat) {
      base <= p < base + |bytes|
    }

    function At(p: nat): nat {
      if Inside(p) then bytes[p - base] else NOT_FREE
    }

    function Put(p: nat, v: nat): (m: Meta)
      ensures m.base == base && |m.bytes| == |bytes|
      ensures forall q :: m.At(q) == if q == p && Inside(p) then v else At(q)
    {
      if Inside(p) then Meta(base, bytes[p - base := v]) else this
    }

    predicate FreeHead(p: nat, o: nat) {
      o <= MAX_ORDER && At(p) == o + 1
    }

    predicate HeldHead(p: nat, o: nat) {
      o <= MAX_ORDER && At(p) == ALLOCATED + o
    }

    predicate IsHead(p: nat, o: nat) {
      FreeHead(p, o) || HeldHead(p, o)
    }

    /** The block lies in the frames the allocator may manage. */
    predicate Fits(p: nat, o: nat) {
      base <= p && p + P2(o) <= base + |bytes|
    }

    /** A free block covers the frame: one lookup for each order. */
    predicate FreeAt(f: nat) {
      exists o | 0 <= o <= MAX_ORDER :: FreeHead(Head(f, o), o)
    }

    predicate HeldAt(f: nat) {
      exists o | 0 <= o <= MAX_ORDER :: HeldHead(Head(f, o), o)
    }

    /** Blocks are aligned, inside, and pairwise apart. */
    ghost predicate Blocks() {
      && (forall p: nat :: At(p) != NOT_FREE ==> exists o :: IsHead(p, o))
      && (forall p: nat, o: nat :: IsHead(p, o) ==> Aligned(p, o) && Fits(p, o))
      && (forall p: nat, o: nat, q: nat, r: nat ::
            IsHead(p, o) && IsHead(q, r) && p != q ==> Apart(p, o, q, r))
    }

    /** No two buddies of one order below the top are both free. */
    ghost predicate Canonical() {
      forall p: nat, o: nat :: FreeHead(p, o) && o < MAX_ORDER ==> !FreeHead(BuddyOf(p, o), o)
    }

    ghost predicate Good() {
      Blocks() && Canonical()
    }

    /** A block that is neither free nor held just now: the operation has it in hand. */
    ghost predicate InHand(p: nat, o: nat) {
      && o <= MAX_ORDER && Aligned(p, o) && Fits(p, o)
      && forall q: nat, r: nat :: IsHead(q, r) ==> Apart(p, o, q, r)
    }
  }
  /** What the byte of a block's first frame says, looked up in range. */
  lemma FreeHeadByByte(m: Meta, p: nat, o: nat)
    requires m.Blocks() && o <= MAX_ORDER
    ensures m.FreeHead(p, o) <==> m.Fits(p, o) && m.At(p) == o + 1
  {
    assert m.FreeHead(p, o) ==> m.IsHead(p, o);
  }

  /** A frame is free exactly when some free block covers it. */
  lemma FreeAtIs(m: Meta, f: nat)
    requires m.Blocks()
    ensures m.FreeAt(f) <==> exists p: nat, o: nat :: m.FreeHead(p, o) && Covers(p, o, f)
  {
    if m.FreeAt(f) {
      var o :| 0 <= o <= MAX_ORDER && m.FreeHead(Head(f, o), o);
      HeadFacts(f, o);
      assert Covers(Head(f, o), o, f);
    }
    if p: nat, o: nat :| m.FreeHead(p, o) && Covers(p, o, f) {
      assert m.IsHead(p, o);
      HeadUnique(p, o, f);
    }
  }

  lemma HeldAtIs(m: Meta, f: nat)
    requires m.Blocks()
    ensures m.HeldAt(f) <==> exists p: nat, o: nat :: m.HeldHead(p, o) && Covers(p, o, f)
  {
    if m.HeldAt(f) {
      var o :| 0 <= o <= MAX_ORDER && m.HeldHead(Head(f, o), o);
      HeadFacts(f, o);
      assert Covers(Head(f, o), o, f);
    }
    if p: nat, o: nat :| m.HeldHead(p, o) && Covers(p, o, f) {
      assert m.IsHead(p, o);
      HeadUnique(p, o, f);
    }
  }

  /** A block in hand meets no free and no held frame. */
  lemma InHandIsNeither(m: Meta, p: nat, o: nat, f: nat)
    requires m.Blocks() && m.InHand(p, o) && Covers(p, o, f)
    ensures !m.FreeAt(f) && !m.HeldAt(f)
  {
    FreeAtIs(m, f);
    HeldAtIs(m, f);
  }

  // ----- one block changes; `n` is the metadata after it -----

  /** A block is taken in hand. */
  lemma TakeUp(m: Meta, n: Meta, p: nat, o: nat)
    requires m.Good() && m.IsHead(p, o) && n == m.Put(p, NOT_FREE)
    ensures n.Good() && n.InHand(p, o)
  {
    assert forall q: nat, r: nat :: n.IsHead(q, r) ==> m.IsHead(q, r) && q != p;
    assert forall q: nat, r: nat :: n.FreeHead(q, r) ==> m.FreeHead(q, r);
    forall q: nat | n.At(q) != NOT_FREE ensures exists r :: n.IsHead(q, r) {
      var r :| m.IsHead(q, r);
      assert n.IsHead(q, r);
    }
  }

  /** A block in hand is put down, as free or as held. */
  lemma PutDown(m: Meta, n: Meta, p: nat, o: nat, v: nat)
    requires m.Blocks() && m.InHand(p, o) && (v == o + 1 || v == ALLOCATED + o) && n == m.Put(p, v)
    ensures n.Blocks() && n.IsHead(p, o)
    ensures forall q: nat, r: nat :: n.IsHead(q, r) <==> m.IsHead(q, r) || (q == p && r == o)
  {
    assert Covers(p, o, p);
    NotHead(m, p, o);
    assert n.IsHead(p, o);
    forall q: nat, r: nat ensures n.IsHead(q, r) <==> m.IsHead(q, r) || (q == p && r == o) {
    }
    forall q: nat | n.At(q) != NOT_FREE ensures exists r :: n.IsHead(q, r) {
      if q != p {
        var r :| m.IsHead(q, r);
        assert n.IsHead(q, r);
      }
    }
  }

  lemma NotHead(m: Meta, p: nat, o: nat)
    requires m.Blocks() && m.InHand(p, o)
    ensures m.At(p) == NOT_FREE
  {
  }

  lemma Hold(m: Meta, n: Meta, p: nat, o: nat)
    requires m.Good() && m.InHand(p, o) && n == m.Put(p, ALLOCATED + o)
    ensures n.Good()
  {
    PutDown(m, n, p, o, ALLOCATED + o);
    assert forall q: nat, r: nat :: n.FreeHead(q, r) ==> m.FreeHead(q, r);
  }

  /** A free block keeps the form canonical when its buddy is not free at its order. */
  lemma Free(m: Meta, n: Meta, p: nat, o: nat)
    requires m.Good() && m.InHand(p, o) && n == m.Put(p, o + 1)
    requires o == MAX_ORDER || !m.FreeHead(BuddyOf(p, o), o)
    ensures n.Good()
  {
    PutDown(m, n, p, o, o + 1);
    NotHead(m, p, o);
    forall q: nat, r: nat | n.FreeHead(q, r) && r < MAX_ORDER ensures !n.FreeHead(BuddyOf(q, r), r) {
      assert n.IsHead(q, r);
      BuddyFacts(q, r);
      if q == p {
        assert BuddyOf(p, o) != p;
      } else {
        assert m.FreeHead(q, r);
      }
    }
  }

  /** Coalescing: the free buddy `q` joins the block in hand. */
  lemma Merge(m: Meta, n: Meta, p: nat, q: nat, o: nat)
    requires m.Good() && m.InHand(p, o) && o < MAX_ORDER && q == BuddyOf(p, o) && m.FreeHead(q, o)
    requires n == m.Put(q, NOT_FREE)
    ensures n.Good() && n.InHand(Lower(p, q), o + 1)
  {
    BuddyFacts(p, o);
    assert m.IsHead(q, o);
    TakeUp(m, n, q, o);
    assert P2(o + 1) == 2 * P2(o);
    assert n.Fits(Lower(p, q), o + 1);
    forall s: nat, r: nat | n.IsHead(s, r) ensures Apart(Lower(p, q), o + 1, s, r) {
      assert m.IsHead(s, r);
      assert Apart(p, o, s, r) && Apart(q, o, s, r);
      MergeApart(p, o, s, r);
    }
  }

  function Lower(p: nat, q: nat): nat {
    if p < q then p else q
  }

  lemma MergeApart(p: nat, o: nat, s: nat, r: nat)
    requires Aligned(p, o) && Aligned(s, r)
    requires Apart(p, o, s, r) && Apart(BuddyOf(p, o), o, s, r)
    ensures Apart(Lower(p, BuddyOf(p, o)), o + 1, s, r)
  {
    BuddyFacts(p, o);
    var q := BuddyOf(p, o);
    var lo := Lower(p, q);
    assert P2(o + 1) == 2 * P2(o);
    if o + 1 <= r {
      Nested(lo, o + 1, s, r);
    } else {
      Nested(s, r, lo, o + 1);
      Nested(s, r, p, o);
      Nested(s, r, q, o);
    }
  }

  /** The halves of a block in hand are in hand. */
  lemma HalvesInHand(m: Meta, p: nat, h: nat, up: nat)
    requires m.Blocks() && up > 0 && m.InHand(p, up) && h == p + P2(up - 1)
    ensures m.InHand(h, up - 1) && m.InHand(p, up - 1) && m.At(h) == NOT_FREE && m.Inside(h)
    ensures BuddyOf(h, up - 1) == p && Aligned(p, up)
  {
    HalfFacts(p, up - 1);
    forall q: nat, r: nat | m.IsHead(q, r) ensures Apart(h, up - 1, q, r) && Apart(p, up - 1, q, r) {
      assert Apart(p, up, q, r);
    }
    assert m.InHand(h, up - 1);
    assert m.InHand(p, up - 1);
    NotHead(m, h, up - 1);
  }

  /** Splitting: the upper half `h` of the block in hand becomes free. */
  lemma Split(m: Meta, n: Meta, p: nat, h: nat, up: nat)
    requires m.Good() && up > 0 && m.InHand(p, up) && h == p + P2(up - 1) && m.Inside(h) && n == m.Put(h, up)
    ensures n.Good() && n.InHand(p, up - 1)
  {
    HalvesInHand(m, p, h, up);
    Free(m, n, h, up - 1);
    PutDown(m, n, h, up - 1, up);
  }

  // ----- the allocated blocks -----

  /** The allocated blocks are the same. */
  ghost predicate SameHeld(m: Meta, n: Meta) {
    && n.base == m.base && |n.bytes| == |m.bytes|
    && forall q: nat, r: nat :: m.HeldHead(q, r) <==> n.HeldHead(q, r)
  }

  lemma SameHeldTrans(m: Meta, n: Meta, k: Meta)
    requires SameHeld(m, n) && SameHeld(n, k)
    ensures SameHeld(m, k)
  {
    assert forall q: nat, r: nat :: m.HeldHead(q, r) <==> n.HeldHead(q, r);
  }

  lemma PutSameHeld(m: Meta, n: Meta, p: nat, v: nat)
    requires m.Inside(p) && m.At(p) < ALLOCATED && v < ALLOCATED && n == m.Put(p, v)
    ensures SameHeld(m, n)
  {
  }
}
