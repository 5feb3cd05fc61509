/** What the mapping loop does to the translation of every address, and to the tree. */
module TableMap {
  import opened Common
  import opened Descriptors
  import opened TableTree
  import opened TableRange

  /** No address translates differently. */
  ghost predicate SameView(words: Words, words': Words, root: nat) {
    forall v: nat :: Translate(words', root, v) == Translate(words, root, v)
  }

  lemma SameViewTrans(words: Words, words': Words, words'': Words, root: nat)
    requires SameView(words, words', root) && SameView(words', words'', root)
    ensures SameView(words, words'', root)
  {
  }

  /** Exactly the addresses through one entry changed, to what its new descriptor says. */
  ghost predicate Wrote(words: Words, words': Words, root: nat, w: nat, level: nat, d: Desc) {
    forall v: nat :: Translate(words', root, v) ==
      if Prefix(v, level + 1) == Prefix(w, level + 1) then Leaf(d, level, v) else Translate(words, root, v)
  }

  /** No address through the entry translated. */
  ghost predicate Vacant(words: Words, root: nat, w: nat, level: nat) {
    forall v: nat | Prefix(v, level + 1) == Prefix(w, level + 1) :: Translate(words, root, v) == None
  }

  /** The first `off` bytes of the range are mapped, and every other address is as before. */
  ghost predicate MappedSoFar(words0: Words, words: Words, root: nat, va: nat, pa: nat, off: nat, attrs: Attrs) {
    forall v: nat ::
      if Offset(v, va) < off
      then Mapped(Translate(words, root, v), pa + Offset(v, va), attrs)
      else Translate(words, root, v) == Translate(words0, root, v)
  }

  lemma NothingMapped(words: Words, root: nat, va: nat, pa: nat, attrs: Attrs)
    ensures MappedSoFar(words, words, root, va, pa, 0, attrs)
  {
  }

  lemma SameViewMapped(words0: Words, words: Words, words': Words, root: nat, va: nat, pa: nat, off: nat, attrs: Attrs)
    requires MappedSoFar(words0, words, root, va, pa, off, attrs) && SameView(words, words', root)
    ensures MappedSoFar(words0, words', root, va, pa, off, attrs)
  {
  }

  /** The loop meets a vacant entry only while the range has not come round to itself. */
  lemma RoomLeft(words0: Words, words: Words, root: nat, va: nat, pa: nat, off: nat, attrs: Attrs, level: nat)
    requires MappedSoFar(words0, words, root, va, pa, off, attrs) && off <= VA_SPAN && LeafLevel(level)
    requires Added(va, off) % Span(level + 1) == 0 && Vacant(words, root, Added(va, off), level)
    ensures off + Span(level + 1) <= VA_SPAN
  {
    var w := Added(va, off);
    assert Translate(words, root, w) == None;
    assert off <= Offset(w, va) < VA_SPAN;
    if off > 0 {
      assert Offset(va, va) < off;
      SamePrefix(va, w, level);
      AddedOffset(va, va, off);
      BackToStart(va, off, Span(level + 1));
    }
  }

  /** One more leaf. */
  lemma MappedStep(words0: Words, words: Words, words': Words, root: nat, va: nat, pa: nat, off: nat, attrs: Attrs,
                   level: nat)
    requires MappedSoFar(words0, words, root, va, pa, off, attrs) && off + Span(level + 1) <= VA_SPAN
    requires LeafLevel(level)
    requires Added(va, off) % Span(level + 1) == 0 && (pa + off) % Span(level + 1) == 0
    requires Wrote(words, words', root, Added(va, off), level, LeafDesc(level, pa + off, attrs))
    ensures MappedSoFar(words0, words', root, va, pa, off + Span(level + 1), attrs)
  {
    var step := Span(level + 1);
    hide Translate, Leaf, Mapped, Offset, Added, LeafDesc, Prefix, Span;
    forall v: nat
      ensures if Offset(v, va) < off + step
              then Mapped(Translate(words', root, v), pa + Offset(v, va), attrs)
              else Translate(words', root, v) == Translate(words0, root, v)
    {
      StepOffsets(v, va, off, step);
      AddedOffset(v, va, off);
      SamePrefix(v, Added(va, off), level);
      if Offset(v, Added(va, off)) < step {
        LeafMaps(v, Added(va, off), level, pa + off, attrs);
        assert pa + off + Offset(v, Added(va, off)) == pa + Offset(v, va);
      }
    }
  }

  // ----- one entry written -----

  lemma WroteLeaf(words: Words, words': Words, root: nat, at: Places, w: nat, level: nat, d: Desc)
    requires Tree(words, root, at) && level <= 3 && On(w, level) in at && words' == words[OnSlot(at, w, level) := d]
    requires NoTable(d, level) && NoTable(Read(words, OnSlot(at, w, level)), level)
    ensures Tree(words', root, at) && Wrote(words, words', root, w, level, d)
  {
    var n, i := On(w, level), Index(w, level);
    LeafKeepsTree(words, words', root, at, n, i, d);
    forall v: nat
      ensures Translate(words', root, v) ==
              if Prefix(v, level + 1) == Prefix(w, level + 1) then Leaf(d, level, v) else Translate(words, root, v)
    {
      ThroughIs(w, v, level);
      if Through(v, n, i) {
        LeafRead(words, words', root, at, n, i, d, v);
      } else {
        ElsewhereSame(words, words', root, at, n, i, d, v);
      }
    }
  }

  lemma VacantEntry(words: Words, root: nat, at: Places, w: nat, level: nat)
    requires Tree(words, root, at) && level <= 3 && On(w, level) in at && Read(words, OnSlot(at, w, level)) == ZERO
    ensures Vacant(words, root, w, level)
  {
    var n, i := On(w, level), Index(w, level);
    forall v: nat | Prefix(v, level + 1) == Prefix(w, level + 1) ensures Translate(words, root, v) == None {
      ThroughIs(w, v, level);
      LeafDecides(words, root, at, n, i, v);
    }
  }

  // ----- tables on the way -----

  /** The frames that alloc_table will hand out: fresh, zeroed, each once. */
  ghost predicate Supplied(words: Words, supply: seq<nat>, at: Places) {
    && (forall t | t in supply :: t < FRAMES && t !in at.Values && Empty(words, t))
    && (forall i: nat, j: nat | i < j < |supply| :: supply[i] != supply[j])
  }

  /** A descriptor as the operations write them: empty, a table's, or a leaf that translates. */
  predicate Sound(d: Desc, level: nat) {
    d == ZERO || (level < 3 && IsTableOrPage(d)) || Leaf(d, level, 0).Some?
  }

  ghost predicate Clean(words: Words, at: Places) {
    forall n, i: nat | n in at && i < ENTRIES :: Sound(Read(words, Slot(at[n], i)), n.level)
  }

  lemma CleanAfterWrite(words: Words, words': Words, at: Places, n: Node, i: nat, d: Desc)
    requires Clean(words, at) && Injective(at) && n in at && Sound(d, n.level) && words' == words[Slot(at[n], i) := d]
    ensures Clean(words', at)
  {
    hide Sound;
  }

  lemma CleanAfterGraft(words: Words, words': Words, at: Places, at': Places, n: Node, i: nat, t: nat)
    requires Clean(words, at) && Injective(at) && Grafted(words, words', at, at', n, i, t)
    ensures Clean(words', at')
  {
    CleanAfterWrite(words, words', at, n, i, TableDesc(t));
    forall k, j: nat | k in at' && j < ENTRIES ensures Sound(Read(words', Slot(at'[k], j)), k.level) {
      assert at[n] in at.Values;
      if k == Child(n, i) {
        assert Read(words, Slot(t, j)) == ZERO;
      }
    }
  }

  ghost predicate Ready(words: Words, supply: seq<nat>, root: nat, at: Places) {
    Tree(words, root, at) && Supplied(words, supply, at) && Clean(words, at)
  }

  lemma SuppliedAfterWrite(words: Words, words': Words, supply: seq<nat>, at: Places, n: Node, i: nat, d: Desc)
    requires Supplied(words, supply, at) && n in at && words' == words[Slot(at[n], i) := d]
    ensures Supplied(words', supply, at)
  {
    assert at[n] in at.Values;
    forall t | t in supply ensures Empty(words', t) {
      assert Empty(words, t);
    }
  }

  /** A table from the supply is linked at an invalid entry of the address's way. */
  lemma GraftStep(words: Words, words': Words, supply: seq<nat>, root: nat, at: Places, at': Places, w: nat, l: nat)
    requires Ready(words, supply, root, at) && l < 3 && On(w, l) in at && supply != []
    requires !IsValid(Read(words, OnSlot(at, w, l)))
    requires words' == words[OnSlot(at, w, l) := TableDesc(supply[0])] && at' == at[On(w, l + 1) := supply[0]]
    ensures Ready(words', supply[1..], root, at') && SameView(words, words', root) && On(w, l + 1) !in at
  {
    var n, i, t := On(w, l), Index(w, l), supply[0];
    ParentOn(w, l + 1);
    TypeBits(Read(words, OnSlot(at, w, l)));
    ChildHasEntry(words, root, at, n, i);
    assert t in supply;
    GraftTree(words, words', root, at, at', n, i, t);
    CleanAfterGraft(words, words', at, at', n, i, t);
    GraftSupply(words, words', supply, at, at', n, i);
    forall v: nat ensures Translate(words', root, v) == Translate(words, root, v) {
      GraftSame(words, words', root, at, at', n, i, t, v);
    }
  }

  lemma ChildHasEntry(words: Words, root: nat, at: Places, n: Node, i: nat)
    requires Tree(words, root, at) && n in at && i < ENTRIES
    ensures Child(n, i) in at ==> IsTableOrPage(Read(words, Slot(at[n], i)))
  {
    ChildParent(n, i);
    if Child(n, i) in at {
      assert Linked(words, at, Child(n, i));
    }
  }

  lemma GraftSupply(words: Words, words': Words, supply: seq<nat>, at: Places, at': Places, n: Node, i: nat)
    requires Supplied(words, supply, at) && supply != [] && n in at && Child(n, i) !in at
    requires words' == words[Slot(at[n], i) := TableDesc(supply[0])] && at' == at[Child(n, i) := supply[0]]
    ensures Supplied(words', supply[1..], at')
  {
    SuppliedAfterWrite(words, words', supply, at, n, i, TableDesc(supply[0]));
    var rest := supply[1..];
    forall t | t in rest ensures t in supply && t !in at'.Values {
      assert t in supply;
      var k: nat :| k < |rest| && rest[k] == t;
      assert supply[k + 1] == t && supply[0] != supply[k + 1];
    }
  }

  // ----- how the tree grows -----

  /** One of the tables that some page of the range needs. */
  ghost predicate Needed(n: Node, va: nat, size: nat) {
    1 <= n.level <= 3 && exists o: nat :: o < size && o % PAGE == 0 && n == On(Added(va, o), n.level)
  }

  /** The tree only gained tables that the range needs, each a frame of the supply, which
      is used up from the front. */
  ghost predicate Grew(at: Places, supply: seq<nat>, at': Places, supply': seq<nat>, va: nat, size: nat) {
    && (forall n | n in at :: n in at' && at'[n] == at[n])
    && (forall n | n in at' && n !in at :: Needed(n, va, size) && at'[n] in supply)
    && |at'| + |supply'| == |at| + |supply|
    && Behind(supply, supply')
  }

  /** What is left of a supply. */
  ghost predicate Behind(supply: seq<nat>, supply': seq<nat>) {
    |supply'| <= |supply| && supply' == supply[|supply| - |supply'|..]
  }

  lemma BehindTwice(a: seq<nat>, b: seq<nat>, c: seq<nat>)
    requires Behind(a, b) && Behind(b, c)
    ensures Behind(a, c) && forall x | x in b :: x in a
  {
    assert a[|a| - |b|..][|b| - |c|..] == a[|a| - |c|..];
  }

  lemma GrewNot(at: Places, supply: seq<nat>, va: nat, size: nat)
    ensures Grew(at, supply, at, supply, va, size)
  {
    assert supply[0..] == supply;
  }

  lemma GrewTwice(at: Places, supply: seq<nat>, at': Places, supply': seq<nat>, at'': Places, supply'': seq<nat>,
                  va: nat, size: nat)
    requires Grew(at, supply, at', supply', va, size) && Grew(at', supply', at'', supply'', va, size)
    ensures Grew(at, supply, at'', supply'', va, size)
  {
    hide Needed;
    BehindTwice(supply, supply', supply'');
  }

  lemma GrewByOne(at: Places, supply: seq<nat>, n: Node, va: nat, size: nat, o: nat)
    requires supply != [] && n !in at && 1 <= n.level <= 3 && o < size && o % PAGE == 0
    requires n == On(Added(va, o), n.level)
    ensures Grew(at, supply, at[n := supply[0]], supply[1..], va, size)
  {
    assert at[n := supply[0]].Keys == at.Keys + {n};
    assert supply[0] in supply;
  }
}
