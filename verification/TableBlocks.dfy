/** Where a mapping uses blocks: the descriptor that translates an address tells. */
module TableBlocks {
  import opened Common
  import opened Descriptors
  import opened TableTree
  import opened TableRange
  import opened TableMap
  import opened TableVerdict

  /** The offset at which the 2 MiB around an offset of the range begin; negative when they
      begin before the range. */
  function ChunkStart(va: nat, o: nat): int {
    o - (va + o) % BLOCK_2M
  }

  /** A block goes at the offset: both addresses are aligned and 2 MiB are left. */
  predicate BlockFits(va: nat, pa: nat, size: nat, o: int, blocks: bool) {
    blocks && 0 <= o && (va + o) % BLOCK_2M == 0 && (pa + o) % BLOCK_2M == 0 && size - o >= BLOCK_2M
  }

  /** The offset lies in 2 MiB for which a block goes. */
  predicate InBlock(va: nat, pa: nat, size: nat, o: nat, blocks: bool) {
    BlockFits(va, pa, size, ChunkStart(va, o), blocks)
  }

  /** The loop is not in the middle of such 2 MiB. */
  ghost predicate AtEdge(va: nat, pa: nat, size: nat, off: nat, blocks: bool) {
    forall o: nat | BlockFits(va, pa, size, o, blocks) :: off <= o || o + BLOCK_2M <= off
  }

  /** Each address of the first `off` bytes is translated by a block exactly where one goes,
      else by a page. */
  ghost predicate Shaped(words: Words, root: nat, va: nat, pa: nat, size: nat, off: nat, blocks: bool) {
    forall v: nat | Offset(v, va) < off ::
      && Translate(words, root, v).Some?
      && (Translate(words, root, v).value.1.lower & 0x2 == 0 <==> InBlock(va, pa, size, Offset(v, va), blocks))
  }

  lemma AddedBlock(va: nat, off: nat)
    ensures Added(va, off) % BLOCK_2M == (va + off) % BLOCK_2M
  {
  }

  lemma LevelFits(va: nat, pa: nat, size: nat, off: nat, blocks: bool)
    requires off <= size
    ensures LevelAt(va, pa, size, off, blocks) == 2 <==> BlockFits(va, pa, size, off, blocks)
  {
    AddedBlock(va, off);
  }

  lemma BlockMultiple(a: nat, b: nat)
    requires a % BLOCK_2M == 0 && b % BLOCK_2M == 0 && a < b
    ensures a + BLOCK_2M <= b
  {
  }

  lemma FitsAligned(va: nat, o: nat)
    requires va % PAGE == 0 && (va + o) % BLOCK_2M == 0
    ensures o % PAGE == 0
  {
    assert (va + o) % PAGE == 0;
  }

  lemma EdgeStep(va: nat, pa: nat, size: nat, off: nat, blocks: bool)
    requires AtEdge(va, pa, size, off, blocks) && off < size && va % PAGE == 0 && off % PAGE == 0
    ensures AtEdge(va, pa, size, off + Span(LevelAt(va, pa, size, off, blocks) + 1), blocks)
  {
    LevelFits(va, pa, size, off, blocks);
    var next := off + Span(LevelAt(va, pa, size, off, blocks) + 1);
    forall o: nat | BlockFits(va, pa, size, o, blocks) ensures next <= o || o + BLOCK_2M <= next {
      EdgeOne(va, pa, size, off, blocks, o);
    }
  }

  lemma EdgeOne(va: nat, pa: nat, size: nat, off: nat, blocks: bool, o: nat)
    requires off <= o || o + BLOCK_2M <= off
    requires BlockFits(va, pa, size, o, blocks) && va % PAGE == 0 && off % PAGE == 0
    ensures BlockFits(va, pa, size, off, blocks) ==> off + BLOCK_2M <= o || o <= off
    ensures !BlockFits(va, pa, size, off, blocks) ==> off + PAGE <= o || o + BLOCK_2M <= off
  {
    FitsAligned(va, o);
    if BlockFits(va, pa, size, off, blocks) && off < o {
      BlockMultiple(va + off, va + o);
    } else if off < o {
      MultipleBelow(off, o);
    }
  }

  /** The offsets a leaf covers lie in a block exactly when it is one. */
  lemma LeafInBlock(va: nat, pa: nat, size: nat, off: nat, blocks: bool, o: nat)
    requires AtEdge(va, pa, size, off, blocks) && va % PAGE == 0 && off % PAGE == 0
    requires off <= o < off + (if BlockFits(va, pa, size, off, blocks) then BLOCK_2M else PAGE)
    ensures InBlock(va, pa, size, o, blocks) <==> BlockFits(va, pa, size, off, blocks)
  {
    var start := ChunkStart(va, o);
    ChunkIs(va, o);
    if BlockFits(va, pa, size, off, blocks) {
      ChunkOf(va, off, o);
    } else if BlockFits(va, pa, size, start, blocks) {
      FitsAligned(va, start);
      if off < start {
        MultipleBelow(off, start);
      }
    }
  }

  lemma ChunkIs(va: nat, o: nat)
    ensures ChunkStart(va, o) <= o < ChunkStart(va, o) + BLOCK_2M
  {
  }

  lemma ChunkOf(va: nat, off: nat, o: nat)
    requires (va + off) % BLOCK_2M == 0 && off <= o < off + BLOCK_2M
    ensures ChunkStart(va, o) == off
  {
    var k := o - off;
    assert (va + off + k) % BLOCK_2M == k;
  }

  lemma LeafType(level: nat, pa: nat, attrs: Attrs, v: nat)
    requires LeafLevel(level)
    ensures Leaf(LeafDesc(level, pa, attrs), level, v).Some?
    ensures Leaf(LeafDesc(level, pa, attrs), level, v).value.1.lower & 0x2 == 0 <==> level == 2
  {
    LeafWords(pa, attrs, 0);
    LeafDecodes(pa, attrs);
    TypeBits(PageDesc(pa, attrs));
  }

  lemma ShapedNone(words: Words, root: nat, va: nat, pa: nat, size: nat, blocks: bool)
    ensures Shaped(words, root, va, pa, size, 0, blocks) && AtEdge(va, pa, size, 0, blocks)
  {
  }

  /** One more leaf. */
  lemma ShapedStep(words: Words, words': Words, root: nat, va: nat, pa: nat, size: nat, off: nat, attrs: Attrs,
                   blocks: bool)
    requires off < size && va % PAGE == 0 && off % PAGE == 0
    requires Shaped(words, root, va, pa, size, off, blocks) && AtEdge(va, pa, size, off, blocks)
    requires var level := LevelAt(va, pa, size, off, blocks);
             && off + Span(level + 1) <= VA_SPAN && Added(va, off) % Span(level + 1) == 0
             && Wrote(words, words', root, Added(va, off), level, LeafDesc(level, pa + off, attrs))
    ensures Shaped(words', root, va, pa, size, off + Span(LevelAt(va, pa, size, off, blocks) + 1), blocks)
  {
    hide Translate, Leaf, Offset, Added, LeafDesc, Prefix, LevelAt, InBlock, AtEdge, BlockFits;
    var level := LevelAt(va, pa, size, off, blocks);
    var step := Span(level + 1);
    LevelFits(va, pa, size, off, blocks);
    forall v: nat | Offset(v, va) < off + step
      ensures Translate(words', root, v).Some?
      ensures Translate(words', root, v).value.1.lower & 0x2 == 0 <==> InBlock(va, pa, size, Offset(v, va), blocks)
    {
      StepOffsets(v, va, off, step);
      AddedOffset(v, va, off);
      SamePrefix(v, Added(va, off), level);
      if Offset(v, va) >= off {
        LeafType(level, pa + off, attrs, v);
        LeafInBlock(va, pa, size, off, blocks, Offset(v, va));
      }
    }
  }
}
