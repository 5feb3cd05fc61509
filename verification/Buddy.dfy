/**
 The bytes of a buddy system read as a set of blocks. A frame whose byte is a head stands
 for its block, free or held, of the order in the byte; a frame without one lies inside
 some block or in none.
 */
module Buddy {
  import opened Arithmetic

  const MAX_ORDER: nat := 10
  const NOT_FREE: nat := 0
  const ALLOCATED: nat := 0x80

  /** `1 << o`. */
  function P2(o: nat): (n: nat)
    ensures n >= 1
  {
    if o == 0 then 1 else 2 * P2(o - 1)
  }

  predicate Aligned(p: nat, o: nat) {
    p % P2(o) == 0
  }

  /** `p & !((1 << o) - 1)`: the head of the aligned block of order `o` around frame `p`. */
  function Head(p: nat, o: nat): nat {
    RemainderBelow(p, P2(o));
    p - p % P2(o)
  }

  lemma RemainderBelow(p: nat, m: nat)
    requires m > 0
    ensures p % m <= p
  {
    assert p == m * (p / m) + p % m;
  }

  /** `p ^ (1 << o)`: the one bit flips. */
  function BuddyOf(p: nat, o: nat): (q: nat) {
    if (p / P2(o)) % 2 == 0 then p + P2(o) else p - P2(o)
  }

  // ----- arithmetic of aligned blocks -----

  lemma MultipleGap(x: nat, y: nat, m: nat)
    requires m > 0 && x % m == 0 && y % m == 0 && x < y
    ensures x + m <= y
  {
    assert x == m * (x / m) && y == m * (y / m);
    assert x / m < y / m;
    assert m * (x / m + 1) <= m * (y / m);
  }

  lemma Neighbours(x: nat, m: nat)
    requires m > 0 && x % m == 0
    ensures (x + m) % m == 0 && (x >= m ==> (x - m) % m == 0)
  {
    var k := x / m;
    assert x == m * k;
    ModUnique(x + m, k + 1, 0, m);
    if x >= m {
      assert m * (k - 1) == x - m;
      ModUnique(x - m, k - 1, 0, m);
    }
  }

  /** A multiple of `m` is a multiple of 2m, or m past one. */
  lemma Halves(x: nat, m: nat)
    requires m > 0 && x % m == 0
    ensures (x / m) % 2 == 0 ==> x % (2 * m) == 0
    ensures (x / m) % 2 == 1 ==> x % (2 * m) == m && x >= m && (x - m) % (2 * m) == 0
  {
    var h := x / m / 2;
    var w := 2 * m;
    if (x / m) % 2 == 0 {
      Doubled(x, m, h, 0);
      ModUnique(x, h, 0, w);
    } else {
      Doubled(x, m, h, 1);
      ModUnique(x, h, m, w);
      ModUnique(x - m, h, 0, w);
    }
  }

  lemma Doubled(x: nat, m: nat, h: nat, e: nat)
    requires m > 0 && x % m == 0 && x / m == 2 * h + e
    ensures x == (2 * m) * h + m * e && (2 * m) * h >= 0
  {
    assert x == m * (2 * h + e);
  }

  /** What is aligned to 2m is aligned to m, and so is the place half way to the next. */
  lemma HalfAligned(p: nat, m: nat)
    requires m > 0 && p % (2 * m) == 0
    ensures p % m == 0 && (p + m) % m == 0
  {
    var q := p / (2 * m);
    assert p == (2 * m) * q == m * (2 * q);
    ModUnique(p, 2 * q, 0, m);
    Neighbours(p, m);
  }

  lemma {:induction false} AlignedBelow(p: nat, o: nat, k: nat)
    requires Aligned(p, o) && k <= o
    ensures Aligned(p, k) && P2(k) <= P2(o)
    ensures (p + P2(o)) % P2(k) == 0
    decreases o
  {
    if k == o {
      Neighbours(p, P2(o));
    } else {
      var m := P2(o - 1);
      HalfAligned(p, m);
      AlignedBelow(p, o - 1, k);
      AlignedBelow(p + m, o - 1, k);
      assert p + P2(o) == p + m + m;
    }
  }

  lemma HeadFacts(f: nat, o: nat)
    ensures Aligned(Head(f, o), o) && Head(f, o) <= f < Head(f, o) + P2(o)
  {
    var m := P2(o);
    assert f == m * (f / m) + f % m;
    ModUnique(Head(f, o), f / m, 0, m);
  }

  predicate Covers(p: nat, o: nat, f: nat) {
    p <= f < p + P2(o)
  }

  predicate Apart(p: nat, o: nat, q: nat, r: nat) {
    p + P2(o) <= q || q + P2(r) <= p
  }

  lemma HeadUnique(p: nat, o: nat, f: nat)
    requires Aligned(p, o) && Covers(p, o, f)
    ensures Head(f, o) == p
  {
    var m := P2(o);
    ModUnique(f, p / m, f - p, m);
  }

  /** Aligned blocks nest: the smaller lies inside the larger, or they are apart. */
  lemma Nested(p: nat, o: nat, q: nat, r: nat)
    requires Aligned(p, o) && Aligned(q, r) && o <= r
    ensures Apart(p, o, q, r) || (q <= p && p + P2(o) <= q + P2(r))
  {
    AlignedBelow(q, r, o);
    if p < q {
      MultipleGap(p, q, P2(o));
    } else if p < q + P2(r) {
      MultipleGap(p, q + P2(r), P2(o));
    }
  }

  lemma BuddyAligned(p: nat, o: nat)
    requires Aligned(p, o)
    ensures var q := BuddyOf(p, o);
            q >= 0 && Aligned(q, o) && (q == p + P2(o) || p == q + P2(o)) && (Aligned(p, o + 1) <==> p < q)
  {
    Halves(p, P2(o));
    Neighbours(p, P2(o));
  }

  lemma BuddyBack(p: nat, o: nat)
    requires Aligned(p, o)
    ensures BuddyOf(BuddyOf(p, o), o) == p
  {
    hide P2;
    var m := P2(o);
    BuddyAligned(p, o);
    var k := p / m;
    assert p == m * k;
    if k % 2 == 0 {
      assert p + m == m * (k + 1);
      ModUnique(p + m, k + 1, 0, m);
    } else {
      assert p - m == m * (k - 1);
      ModUnique(p - m, k - 1, 0, m);
    }
  }

  /** A block and its buddy: aligned alike, apart, and together a block one order up. */
  lemma BuddyFacts(p: nat, o: nat)
    requires Aligned(p, o)
    ensures var q := BuddyOf(p, o); var lo := if p < q then p else q;
            && 0 <= q && Aligned(q, o) && Apart(p, o, q, o) && BuddyOf(q, o) == p
            && Aligned(lo, o + 1) && (forall f :: Covers(lo, o + 1, f) <==> Covers(p, o, f) || Covers(q, o, f))
            && lo == Head(p, o + 1) && (Aligned(p, o + 1) <==> p < q)
  {
    BuddyAligned(p, o);
    BuddyBack(p, o);
    var q := BuddyOf(p, o);
    BuddyAligned(q, o);
    HeadUnique(if p < q then p else q, o + 1, p);
  }

  /** The two halves of an aligned block are buddies. */
  lemma HalfFacts(p: nat, o: nat)
    requires Aligned(p, o + 1)
    ensures Aligned(p, o) && Aligned(p + P2(o), o) && BuddyOf(p, o) == p + P2(o) && BuddyOf(p + P2(o), o) == p
    ensures P2(o + 1) == 2 * P2(o)
  {
    AlignedBelow(p, o + 1, o);
    BuddyFacts(p, o);
  }
}
