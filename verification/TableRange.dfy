/** Address ranges as the mapping loop cuts them, with the wrap at the end of the space. */
module TableRange {
  import opened Common
  import opened Arithmetic
  import opened Descriptors
  import opened TableTree

  const WORD: nat := 0x1_0000_0000_0000_0000

  /** How far `v` lies past `va`, in the 48 bits a walk looks at. */
  function Offset(v: nat, va: nat): nat {
    (v - va) % VA_SPAN
  }

  /** `va.wrapping_add(off)`. */
  function Added(va: nat, off: nat): nat {
    (va + off) % WORD
  }

  /** The address translates to `target` with the attributes, in 48-bit output addresses. */
  predicate Mapped(t: Option<(nat, Desc)>, target: nat, attrs: Attrs) {
    t.Some? && t.value.0 == target % VA_SPAN && Decoded(t.value.1) == attrs && WordSays(t.value.1, attrs)
  }

  /** The leaf the loop writes: a 2 MiB block at level 2 or a page at level 3. */
  function LeafDesc(level: nat, pa: nat, attrs: Attrs): Desc {
    if level == 2 then BlockDesc(pa, attrs) else PageDesc(pa, attrs)
  }

  predicate LeafLevel(level: nat) {
    level == 2 || level == 3
  }

  lemma AddedOffset(v: nat, va: nat, off: nat)
    ensures Offset(v, Added(va, off)) == Offset(v, va + off)
  {
    assert (va + off) % WORD == va + off - WORD * ((va + off) / WORD);
    IntMod(v - (va + off), 65536 * ((va + off) / WORD));
  }

  /** Whole turns do not change a remainder. */
  lemma IntMod(x: int, k: int)
    ensures (x + VA_SPAN * k) % VA_SPAN == x % VA_SPAN
  {
    var q := x / VA_SPAN;
    assert x + VA_SPAN * k == VA_SPAN * (q + k) + x % VA_SPAN;
    IntModUnique(x + VA_SPAN * k, q + k, x % VA_SPAN, VA_SPAN);
  }

  lemma IntModUnique(x: int, q: int, r: int, m: int)
    requires m > 0 && x == m * q + r && 0 <= r < m
    ensures x % m == r && x / m == q
  {
    var d := q - x / m;
    assert m * d == m * q - m * (x / m);
    SmallMultiple(m, d);
  }

  /** The addresses through the entry of an aligned address are those that follow it. */
  lemma SamePrefix(v: nat, w: nat, level: nat)
    requires LeafLevel(level) && w % Span(level + 1) == 0
    ensures Prefix(v, level + 1) == Prefix(w, level + 1) <==> Offset(v, w) < Span(level + 1)
  {
    hide Offset;
    var s := Span(level + 1);
    OffsetResidues(v, w);
    StaysAligned(w, level);
    AlignedDistance(v % VA_SPAN, w % VA_SPAN, s, VA_SPAN);
  }

  lemma StaysAligned(w: nat, level: nat)
    requires LeafLevel(level) && w % Span(level + 1) == 0
    ensures (w % VA_SPAN) % Span(level + 1) == 0 && VA_SPAN % Span(level + 1) == 0
  {
    if level == 2 {
      assert w % BLOCK_2M == 0;
    } else {
      assert w % PAGE == 0;
    }
  }

  lemma OffsetResidues(v: nat, w: nat)
    ensures var a, b := v % VA_SPAN, w % VA_SPAN; Offset(v, w) == if a >= b then a - b else a + VA_SPAN - b
  {
    var a, b := v % VA_SPAN, w % VA_SPAN;
    var turns := v / VA_SPAN - w / VA_SPAN;
    if a >= b {
      IntModUnique(v - w, turns, a - b, VA_SPAN);
    } else {
      IntModUnique(v - w, turns - 1, a + VA_SPAN - b, VA_SPAN);
    }
  }

  /** Between residues: the same block of `s` or at least `s` apart, counted upwards. */
  lemma AlignedDistance(a: nat, b: nat, s: nat, m: nat)
    requires s > 0 && m % s == 0 && a < m && b < m && b % s == 0
    ensures a / s == b / s <==> (if a >= b then a - b else a + m - b) < s
  {
    assert a == s * (a / s) + a % s && b == s * (b / s) && m == s * (m / s);
    if a / s < b / s {
      assert s * (a / s + 1) <= s * (b / s);
      Gap(b, m, s);
    } else if a / s > b / s {
      assert s * (b / s + 1) <= s * (a / s);
    }
  }

  lemma Gap(x: nat, y: nat, s: nat)
    requires s > 0 && x % s == 0 && y % s == 0 && x < y
    ensures x + s <= y
  {
    assert x == s * (x / s) && y == s * (y / s);
    assert x / s < y / s;
    assert s * (x / s + 1) <= s * (y / s);
  }

  /** A further step of the range: which offsets it takes. */
  lemma StepOffsets(v: nat, va: nat, off: nat, step: nat)
    requires off + step <= VA_SPAN
    ensures Offset(v, va + off) < step <==> off <= Offset(v, va) < off + step
    ensures off <= Offset(v, va) ==> Offset(v, va) == off + Offset(v, va + off)
  {
    var o := Offset(v, va);
    assert v - (va + off) == (o - off) + VA_SPAN * ((v - va) / VA_SPAN);
    IntMod(o - off, (v - va) / VA_SPAN);
    if o >= off {
      IntModUnique(o - off, 0, o - off, VA_SPAN);
    } else {
      IntModUnique(o - off, -1, o - off + VA_SPAN, VA_SPAN);
    }
  }

  /** The start of the range seen from a later place of it. */
  lemma BackToStart(va: nat, off: nat, step: nat)
    requires 0 < off < VA_SPAN && Offset(va, va + off) >= step
    ensures off + step <= VA_SPAN
  {
    var back: int := va - (va + off);
    IntModUnique(back, -1, VA_SPAN - off, VA_SPAN);
  }

  /** A written leaf maps its addresses one after the other. */
  lemma LeafMaps(v: nat, w: nat, level: nat, pa: nat, attrs: Attrs)
    requires LeafLevel(level) && w % Span(level + 1) == 0 && pa % Span(level + 1) == 0 && Offset(v, w) < Span(level + 1)
    ensures Mapped(Leaf(LeafDesc(level, pa, attrs), level, v), pa + Offset(v, w), attrs)
  {
    hide WordSays, Decoded;
    LeafDecodes(pa, attrs);
    LeafWords(pa, attrs, 0);
    TypeBits(PageDesc(pa, attrs));
    LeafAddress(v, w, Span(level + 1), pa);
  }

  lemma LeafAddress(v: nat, w: nat, s: nat, pa: nat)
    requires (s == PAGE || s == BLOCK_2M) && w % s == 0 && pa % s == 0 && Offset(v, w) < s
    ensures (FrameOf(pa) * PAGE) / s * s + v % s == (pa + Offset(v, w)) % VA_SPAN
  {
    FrameBytes(pa, s);
    AlignedSum(pa, Offset(v, w), s);
    OffsetInBlock(v, w, s);
  }

  lemma FrameBytes(pa: nat, s: nat)
    requires (s == PAGE || s == BLOCK_2M) && pa % s == 0
    ensures FrameOf(pa) * PAGE == pa % VA_SPAN && (pa % VA_SPAN) / s * s == pa % VA_SPAN
  {
    if s == PAGE {
      DivDiv(pa, PAGE, FRAMES, VA_SPAN);
    } else {
      assert pa % PAGE == 0;
      DivDiv(pa, PAGE, FRAMES, VA_SPAN);
    }
  }

  lemma AlignedSum(pa: nat, k: nat, s: nat)
    requires (s == PAGE || s == BLOCK_2M) && pa % s == 0 && k < s
    ensures (pa + k) % VA_SPAN == pa % VA_SPAN + k
  {
    var r := pa % VA_SPAN;
    FrameBytes(pa, s);
    assert r == s * (r / s);
    ModUnique(r, r / s, 0, s);
    Gap(r, VA_SPAN, s);
    ModUnique(pa + k, pa / VA_SPAN, r + k, VA_SPAN);
  }

  lemma OffsetInBlock(v: nat, w: nat, s: nat)
    requires (s == PAGE || s == BLOCK_2M) && w % s == 0 && Offset(v, w) < s
    ensures v % s == Offset(v, w)
  {
    var o := Offset(v, w);
    var turns := (v - w) / VA_SPAN;
    assert v == w + VA_SPAN * turns + o;
    var k := w / s + (VA_SPAN / s) * turns;
    assert v == s * k + o by {
      assert w == s * (w / s);
      assert s * ((VA_SPAN / s) * turns) == VA_SPAN * turns;
    }
    IntModUnique(v, k, o, s);
  }
}
