/** The table tree of an address space: words are written in place, tables come from a
    supply of zeroed frames. */
module PageTables {
  import opened Common
  import opened Descriptors
  import opened TableTree
  import opened TableRange
  import opened TableMap
  import opened TableCount
  import opened TableWay
  import opened TableVerdict
  import opened TableBlocks

  const USER_END: nat := 0x1_0000_0000_0000

  /** The page that maps the address, as the walk of unmap and protect finds it. */
  ghost predicate HasPage(words: Words, at: Places, va: nat) {
    On(va, 3) in at && IsTableOrPage(Read(words, OnSlot(at, va, 3)))
  }

  lemma PageTranslates(words: Words, root: nat, at: Places, va: nat)
    requires Tree(words, root, at) && HasPage(words, at, va)
    ensures var d := Read(words, OnSlot(at, va, 3)); Translate(words, root, va) == Some((d.frame * PAGE + va % PAGE, d))
  {
    hide Tree, Leaf, Prefix, Translate, IsTableOrPage;
    Descend(words, root, at, va, 3);
    PageLeaf(Read(words, OnSlot(at, va, 3)), va);
  }

  lemma PageLeaf(d: Desc, va: nat)
    requires IsTableOrPage(d)
    ensures Leaf(d, 3, va) == Some((d.frame * PAGE + va % PAGE, d))
  {
    TypeBits(d);
    WholePages(d.frame);
  }

  lemma WholePages(frame: nat)
    ensures frame * PAGE / PAGE * PAGE == frame * PAGE
  {
  }

  /** Why a leaf at `level` could not be written for the address. */
  ghost predicate Stopped(error: MapError, words: Words, at: Places, supply: seq<nat>, va: nat, level: nat) {
    || (error == NoMemory && supply == [] && Missing(at, va, level))
    || (error == AlreadyMapped && Blocked(words, at, va, level))
  }

  /** How far the mapping of a range has come: these bytes are mapped where nothing was,
      and the verdict of the call is the verdict from here on. */
  ghost predicate CameTo(words0: Words, at0: Places, supply0: seq<nat>, words: Words, at: Places, supply: seq<nat>,
                         root: nat, va: nat, pa: nat, size: nat, off: nat, attrs: Attrs, blocks: bool) {
    && off <= size && off % PAGE == 0 && off <= VA_SPAN
    && MappedSoFar(words0, words, root, va, pa, off, attrs) && Fresh(words0, root, va, off)
    && Ahead(words0, at0, words, at, va, off) && Grew(at0, supply0, at, supply, va, off)
    && Heading(words0, at0, supply0, at, supply, va, pa, size, off, blocks)
    && Making(at0, at, va, pa, size, off, blocks)
    && Shaped(words, root, va, pa, size, off, blocks) && AtEdge(va, pa, size, off, blocks)
    && (!blocks ==> PagesIn(at, va, off))
  }

  /** What the call came to. */
  ghost predicate CallOutcome(r: Outcome<()>, done: nat, words0: Words, at0: Places, supply0: seq<nat>,
                              va: nat, pa: nat, size: nat, blocks: bool) {
    (r, done) == Verdict(words0, at0, at0.Keys, |supply0|, va, pa, size, 0, blocks)
  }

  /** Against tables_for: at most that many tables more, exactly that many for an empty tree,
      and never NoMemory when the supply has as many. */
  ghost predicate UserTables(r: Outcome<()>, at0: Places, supply0: seq<nat>, at: Places, va: nat, size: nat) {
    size >= PAGE && size % PAGE == 0 ==>
      && |at| <= |at0| + TablesBound(va, size / PAGE)
      && (r.Ok? && at0.Keys == {ROOT} ==> |at| == 1 + TablesBound(va, size / PAGE))
      && (r == Err(NoMemory) ==> |supply0| < TablesBound(va, size / PAGE))
  }

  /** No address translates to memory that is writable and executable. */
  ghost predicate Guarded(words: Words, root: nat) {
    forall v: nat | Translate(words, root, v).Some? :: !WriteAndExecutable(Decoded(Translate(words, root, v).value.1))
  }

  lemma MapGuards(words: Words, words': Words, root: nat, va: nat, pa: nat, off: nat, attrs: Attrs)
    requires MappedSoFar(words, words', root, va, pa, off, attrs) && (attrs.IsValid() || off == 0)
    ensures Guarded(words, root) ==> Guarded(words', root)
  {
    hide Translate, Decoded;
  }

  lemma WriteGuards(words: Words, words': Words, root: nat, va: nat, d: Desc)
    requires Wrote(words, words', root, va, 3, d) && (IsValid(d) ==> !WriteAndExecutable(Decoded(d)))
    ensures Guarded(words, root) ==> Guarded(words', root)
  {
    hide Translate, Decoded, Prefix;
  }

  /** Every translation belongs to one ASID. */
  ghost predicate Private(words: Words, root: nat) {
    forall v: nat | Translate(words, root, v).Some? :: NotGlobal(Translate(words, root, v).value.1)
  }

  ghost predicate PrivateRange(words: Words, root: nat, va: nat, size: nat) {
    forall v: nat | Offset(v, va) < size ::
      Translate(words, root, v).Some? && NotGlobal(Translate(words, root, v).value.1)
  }

  lemma NoRange(words: Words, root: nat, va: nat)
    ensures PrivateRange(words, root, va, 0)
  {
  }

  lemma MapPrivate(words: Words, words': Words, root: nat, va: nat, pa: nat, off: nat, attrs: Attrs)
    requires MappedSoFar(words, words', root, va, pa, off, attrs) && attrs.user
    ensures PrivateRange(words', root, va, off) && (Private(words, root) ==> Private(words', root))
  {
    hide Translate, Decoded, Offset;
  }

  lemma WritePrivate(words: Words, words': Words, root: nat, va: nat, d: Desc)
    requires Wrote(words, words', root, va, 3, d) && (IsValid(d) ==> NotGlobal(d))
    ensures Private(words, root) ==> Private(words', root)
  {
    hide Translate, Prefix, NotGlobal;
  }

  lemma ProtectPrivate(words: Words, words': Words, root: nat, va: nat, d: Desc, attrs: Attrs)
    requires Wrote(words, words', root, va, 3, Protected(d, attrs))
    requires Translate(words, root, va).Some? && Translate(words, root, va).value.1 == d
    ensures Private(words, root) ==> Private(words', root)
  {
    hide Translate, Wrote, Protected, NotGlobal;
    ProtectedGlobal(d, attrs);
    if Private(words, root) {
      WritePrivate(words, words', root, va, Protected(d, attrs));
    }
  }

  lemma LeafInvalid(d: Desc, level: nat, va: nat)
    requires !IsValid(d)
    ensures Leaf(d, level, va) == None && !IsTableOrPage(d)
  {
    TypeBits(d);
  }

  class PageTable {
    var words: Words
    /** The frames alloc_table will return, in turn; none is left when it is empty. */
    var supply: seq<nat>
    const root: nat
    ghost var at: Places

    ghost predicate Valid()
      reads this
    {
      Ready(words, supply, root, at)
    }

    /** A tree of one empty table. */
    constructor (words: Words, supply: seq<nat>)
      requires supply != [] && Supplied(words, supply, map[])
      ensures Valid() && at == map[ROOT := root] && root == supply[0] && this.supply == supply[1..]
      ensures Guarded(this.words, root) && forall v: nat :: Translate(this.words, root, v) == None
    {
      this.words := words;
      this.supply := supply[1..];
      root := supply[0];
      at := map[ROOT := supply[0]];
      new;
      assert supply[0] in supply && Empty(words, root);
      FirstTable(words, supply, at);
    }

    /** new: NoMemory when the supply is empty. */
    static method New(words: Words, supply: seq<nat>) returns (r: Outcome<PageTable>)
      requires Supplied(words, supply, map[])
      ensures r.Err? <==> supply == []
      ensures r.Err? ==> r.error == NoMemory
      ensures r.Ok? ==> fresh(r.value) && r.value.Valid() && r.value.at == map[ROOT := r.value.root]
      ensures r.Ok? ==> forall v: nat :: Translate(r.value.words, r.value.root, v) == None
    {
      if supply == [] {
        return Err(NoMemory);
      }
      var t := new PageTable(words, supply);
      r := Ok(t);
    }

    /** One level of the way: the table that the entry of `va` names, made when there is none. */
    method Enter(table: nat, va: nat, l: nat, ghost range: nat, ghost size: nat, ghost o: nat) returns (r: Outcome<nat>)
      requires Valid() && l < 3 && On(va, l) in at && at[On(va, l)] == table
      requires o < size && o % PAGE == 0 && va == Added(range, o)
      modifies this
      ensures Valid() && SameView(old(words), words, root)
      ensures Grew(old(at), old(supply), at, supply, range, size)
      ensures KeptAll(old(words), old(at), words, at)
      ensures r.Ok? ==> On(va, l + 1) in at && at[On(va, l + 1)] == r.value && at.Keys == old(at).Keys + {On(va, l + 1)}
      ensures r.Err? ==> words == old(words) && at == old(at) && supply == old(supply)
      ensures r.Err? ==>
                (r.error == NoMemory && supply == [] && On(va, l + 1) !in at
                 && !IsValid(Read(words, OnSlot(at, va, l))))
                         || (r.error == AlreadyMapped && BlockedAt(words, at, va, l, l + 1))
    {
      hide Tree, Supplied, Clean, SameView, Grew, KeptAll, Prefix, Index, Read, IsValid, IsTableOrPage;
      var d := Read(words, Slot(table, Index(va, l)));
      StepNode(words, root, at, va, l);
      SameViewSelf(words, root);
      GrewNot(at, supply, range, size);
      KeptAllSelf(words, at);
      if IsTableOrPage(d) {
        assert at.Keys == at.Keys + {On(va, l + 1)};
        return Ok(d.frame);
      }
      if IsValid(d) {
        return Err(AlreadyMapped);
      }
      if supply == [] {
        return Err(NoMemory);
      }
      var t := supply[0];
      EnterGraft(words, words[Slot(table, Index(va, l)) := TableDesc(t)], supply, root, at, at[On(va, l + 1) := t],
                 va, l, range, size, o);
      supply := supply[1..];
      words := words[Slot(table, Index(va, l)) := TableDesc(t)];
      at := at[On(va, l + 1) := t];
      r := Ok(t);
    }

    /** The entry of `va` at a level, with the tables above it. */
    method Entry(va: nat, level: nat, ghost range: nat, ghost size: nat, ghost o: nat) returns (r: Outcome<Slot>)
      requires Valid() && level <= 3
      requires o < size && o % PAGE == 0 && va == Added(range, o)
      modifies this
      ensures Valid() && SameView(old(words), words, root)
      ensures Grew(old(at), old(supply), at, supply, range, size)
      ensures KeptAll(old(words), old(at), words, at)
      ensures r.Ok? ==>
                On(va, level) in at && r.value == OnSlot(at, va, level) && at.Keys == old(at).Keys + Way(va, level)
      ensures r.Err? ==> Stopped(r.error, words, at, supply, va, level)
      ensures WayOutcome(r, old(words), old(at), |old(supply)|, va, level)
    {
      hide Tree, Supplied, SameView, Index, Prefix, KeptAll, Clean, Grew, BlockedAbove, Lacking, Way;
      var table := root;
      var l := 0;
      OnRoot(words, root, at, va);
      GrewNot(at, supply, range, size);
      SameViewSelf(words, root);
      KeptAllSelf(words, at);
      WayNot(at, va);
      while l < level
        invariant l <= level && Valid() && On(va, l) in at && at[On(va, l)] == table
        invariant SameView(old(words), words, root) && KeptAll(old(words), old(at), words, at)
        invariant Grew(old(at), old(supply), at, supply, range, size) && at.Keys == old(at).Keys + Way(va, l)
      {
        ghost var words1, at1, supply1 := words, at, supply;
        var t := Enter(table, va, l, range, size, o);
        SameViewTrans(old(words), words1, words, root);
        GrewTwice(old(at), old(supply), at1, supply1, at, supply, range, size);
        KeptAllTwice(old(words), old(at), words1, at1, words, at);
        if t.Err? {
          EntryStops(t.error, old(words), old(at), old(supply), words, root, at, supply, va, l, level, range, size);
          return Err(t.error);
        }
        WayStep(old(at).Keys, at1.Keys, at.Keys, va, l);
        table := t.value;
        l := l + 1;
      }
      EntryFound(old(words), old(at), old(supply), words, root, at, supply, va, level, range, size);
      r := Ok(Slot(table, Index(va, level)));
    }

    /** One leaf of a range, in an entry that must be empty. */
    method MapLeaf(va: nat, pa: nat, level: nat, attrs: Attrs, ghost range: nat, ghost size: nat, ghost o: nat)
      returns (r: Outcome<()>)
      requires Valid() && LeafLevel(level)
      requires o < size && o % PAGE == 0 && va == Added(range, o)
      modifies this
      ensures Valid() && Grew(old(at), old(supply), at, supply, range, size)
      ensures r.Ok? ==>
                Vacant(old(words), root, va, level)
                  && Wrote(old(words), words, root, va, level, LeafDesc(level, pa, attrs))
      ensures r.Ok? ==> KeptBut(old(words), old(at), words, at, va, level) && at.Keys == old(at).Keys + Way(va, level)
      ensures r.Err? ==> SameView(old(words), words, root)
      ensures r.Err? ==> Stopped(r.error, words, at, supply, va, level)
      ensures LeafOutcome(r, old(words), old(at), |old(supply)|, va, level)
    {
      hide Tree, Supplied, Grew, Index, Prefix, Translate, Leaf, KeptAll, KeptBut, Clean, Blocked, BlockedAbove,
           Lacking, Way, Missing;
      var slot := Entry(va, level, range, size, o);
      if slot.Err? {
        WayFails(old(words), root, old(at), |old(supply)|, va, level, slot.error);
        return Err(slot.error);
      }
      EntryTaken(old(words), old(at), words, root, at, va, level);
      if Read(words, slot.value) != ZERO {
        BlockedHere(words, root, at, va, level);
        return Err(AlreadyMapped);
      }
      LeafIsNoTable(level, pa, attrs);
      WriteLeaf(slot.value, va, level, LeafDesc(level, pa, attrs), old(words), old(at));
      r := Ok(());
    }

    /** The word of an empty entry changes, and with it exactly what the entry translates. */
    method WriteLeaf(slot: Slot, va: nat, level: nat, d: Desc, ghost words0: Words, ghost at0: Places)
      requires Valid() && LeafLevel(level) && On(va, level) in at && slot == OnSlot(at, va, level)
      requires Read(words, slot) == ZERO && NoTable(d, level) && Sound(d, level) && KeptAll(words0, at0, words, at)
      modifies `words
      ensures Valid() && Vacant(old(words), root, va, level) && Wrote(old(words), words, root, va, level, d)
      ensures KeptBut(words0, at0, words, at, va, level)
    {
      hide Tree, Supplied, Clean, Index, Prefix, Translate, Leaf, KeptAll, KeptBut, Wrote, Vacant, Sound;
      VacantEntry(words, root, at, va, level);
      WroteLeaf(words, words[slot := d], root, at, va, level, d);
      SuppliedAfterWrite(words, words[slot := d], supply, at, On(va, level), Index(va, level), d);
      CleanWrite(words, words[slot := d], root, at, va, level, d);
      LeafKeepsBut(words0, at0, words, words[slot := d], root, at, va, level, d);
      words := words[slot := d];
    }

    /** One turn of the loop: how far it comes. */
    method MapNext(va: nat, pa: nat, size: nat, off: nat, attrs: Attrs, blocks: bool,
                   ghost words0: Words, ghost at0: Places, ghost supply0: seq<nat>)
      returns (r: Outcome<nat>)
      requires Valid() && off < size && va % PAGE == 0 && pa % PAGE == 0 && size % PAGE == 0
      requires Ready(words0, supply0, root, at0)
      requires CameTo(words0, at0, supply0, words, at, supply, root, va, pa, size, off, attrs, blocks)
      modifies this
      ensures Valid()
      ensures r.Ok? ==> r.value > 0 &&
                        off + r.value <= size &&
                        CameTo(words0, at0, supply0, words, at, supply, root, va, pa, size,
                               off + r.value, attrs, blocks)
      ensures r.Err? ==>
                MappedSoFar(words0, words, root, va, pa, off, attrs) && Grew(at0, supply0, at, supply, va, size)
      ensures r.Err? ==> off % PAGE == 0 && off <= VA_SPAN && Fresh(words0, root, va, off)
      ensures r.Err? ==> Shaped(words, root, va, pa, size, off, blocks)
      ensures r.Err? ==> r.error == AlreadyMapped || r.error == NoMemory
      ensures r.Err? ==> Stopped(r.error, words, at, supply, Added(va, off), LevelAt(va, pa, size, off, blocks))
      ensures r.Err? ==> CallOutcome(Err(r.error), off, words0, at0, supply0, va, pa, size, blocks)
    {
      hide Ready, Grew, Wrote, Vacant, SameView, Stopped, CameTo, LevelAt, LeafLevel, Span, Added, LeafOutcome, KeptBut,
           Tree, Way, MappedSoFar, CallOutcome, Fresh, Shaped;
      var level := LevelAt(va, pa, size, off, blocks);
      NextAligned(words0, at0, supply0, words, at, supply, root, va, pa, size, off, attrs, blocks);
      ghost var words1, at1, supply1 := words, at, supply;
      var leaf := MapLeaf(Added(va, off), pa + off, level, attrs, va, off + Span(level + 1), off);
      if leaf.Err? {
        CameNoFurther(words0, at0, supply0, words1, at1, supply1, words, at, supply, root, va, pa, size, off, attrs,
                      blocks, leaf);
        return Err(leaf.error);
      }
      CameFurther(words0, at0, supply0, words1, at1, supply1, words, at, supply, root, va, pa, size, off, attrs, blocks,
                  leaf);
      r := Ok(Span(level + 1));
    }

    method MapRange(va: nat, pa: nat, size: nat, attrs: Attrs, blocks: bool) returns (r: Outcome<()>, ghost done: nat)
      requires Valid()
      modifies this
      ensures Valid()
      ensures r == Err(WriteAndExecute) <==> !attrs.IsValid()
      ensures r == Err(Misaligned) <==> attrs.IsValid() && !(va % PAGE == 0 && pa % PAGE == 0 && size % PAGE == 0)
      ensures r.Err? ==> r.error in {WriteAndExecute, Misaligned, AlreadyMapped, NoMemory}
      ensures r.Ok? || r.error == AlreadyMapped || r.error == NoMemory ==>
                CallOutcome(r, done, old(words), old(at), old(supply), va, pa, size, blocks)
      ensures done <= size && done <= VA_SPAN && done % PAGE == 0 && (r.Ok? ==> done == size)
      ensures r == Err(WriteAndExecute) || r == Err(Misaligned) ==> done == 0
      ensures MappedSoFar(old(words), words, root, va, pa, done, attrs) && Fresh(old(words), root, va, done)
      ensures Shaped(words, root, va, pa, size, done, blocks)
      ensures Grew(old(at), old(supply), at, supply, va, size)
      ensures r.Ok? ==> at.Keys == old(at).Keys + TablesTo(va, pa, size, 0, blocks, size)
      ensures r.Err? && r.error != WriteAndExecute && r.error != Misaligned ==>
                done < size && Stopped(r.error, words, at, supply, Added(va, done), LevelAt(va, pa, size, done, blocks))
      ensures r.Ok? && !blocks ==> PagesIn(at, va, size)
    {
      hide Ready, Grew, MappedSoFar, Stopped, Span, Added, PagesIn, LevelAt, Fresh, CameTo, CallOutcome, TablesTo,
           Shaped;
      done := 0;
      CameNowhere(words, at, supply, root, va, pa, size, attrs, blocks);
      if !attrs.IsValid() {
        return Err(WriteAndExecute), 0;
      }
      if va % PAGE != 0 || pa % PAGE != 0 || size % PAGE != 0 {
        return Err(Misaligned), 0;
      }
      var off := 0;
      while off < size
        invariant Valid()
        invariant CameTo(old(words), old(at), old(supply), words, at, supply, root, va, pa, size, off, attrs, blocks)
        invariant off <= size
        decreases size - off
      {
        var step := MapNext(va, pa, size, off, attrs, blocks, old(words), old(at), old(supply));
        if step.Err? {
          return Err(step.error), off;
        }
        off := off + step.value;
      }
      CameToEnd(old(words), old(at), old(supply), words, at, supply, root, va, pa, size, attrs, blocks);
      r, done := Ok(()), size;
    }

    method Map(va: nat, pa: nat, size: nat, attrs: Attrs) returns (r: Outcome<()>, ghost done: nat)
      requires Valid()
      modifies this
      ensures Valid() && done <= size && (r.Ok? ==> done == size)
      ensures r == Err(WriteAndExecute) <==> !attrs.IsValid()
      ensures r == Err(Misaligned) <==> attrs.IsValid() && !(va % PAGE == 0 && pa % PAGE == 0 && size % PAGE == 0)
      ensures r.Err? ==> r.error in {WriteAndExecute, Misaligned, AlreadyMapped, NoMemory}
      ensures r.Ok? || r.error == AlreadyMapped || r.error == NoMemory ==>
                CallOutcome(r, done, old(words), old(at), old(supply), va, pa, size, true)
      ensures MappedSoFar(old(words), words, root, va, pa, done, attrs) && Fresh(old(words), root, va, done)
      ensures Shaped(words, root, va, pa, size, done, true)
      ensures r.Ok? ==> at.Keys == old(at).Keys + TablesTo(va, pa, size, 0, true, size)
      ensures Guarded(old(words), root) ==> Guarded(words, root)
      ensures r.Err? && r.error != WriteAndExecute && r.error != Misaligned ==>
                done < size && Stopped(r.error, words, at, supply, Added(va, done), LevelAt(va, pa, size, done, true))
    {
      hide Ready, MappedSoFar, Stopped, LevelAt, Added, Fresh, CallOutcome, TablesTo, Guarded, Shaped;
      r, done := MapRange(va, pa, size, attrs, true);
      MapGuards(old(words), words, root, va, pa, done, attrs);
    }

    /** For a program: user attributes, below USER_END, in pages only. */
    method MapUser(va: nat, pa: nat, size: nat, attrs: Attrs) returns (r: Outcome<()>, ghost done: nat)
      requires Valid()
      modifies this
      ensures Valid() && done <= size && (r.Ok? ==> done == size)
      ensures r == Err(NotUser) <==> !attrs.user || va + size > USER_END
      ensures r == Err(NotUser) ==> words == old(words) && at == old(at) && supply == old(supply)
      ensures r.Ok? || r.error == AlreadyMapped || r.error == NoMemory ==>
                CallOutcome(r, done, old(words), old(at), old(supply), va, pa, size, false)
      ensures MappedSoFar(old(words), words, root, va, pa, done, attrs) && Fresh(old(words), root, va, done)
      ensures Shaped(words, root, va, pa, size, done, false) && PrivateRange(words, root, va, done)
      ensures Private(old(words), root) ==> Private(words, root)
      ensures r.Ok? ==> at.Keys == old(at).Keys + TablesTo(va, pa, size, 0, false, size)
      ensures Guarded(old(words), root) ==> Guarded(words, root)
      ensures r.Ok? || r.error == AlreadyMapped || r.error == NoMemory ==>
                (r.Ok? <==> && Fresh(old(words), root, va, size)
                            && |TablesTo(va, pa, size, 0, false, size) - old(at).Keys| <= |old(supply)|)
      ensures r == Err(AlreadyMapped) ==> Translate(old(words), root, Added(va, done)).Some?
      ensures r.Err? && (r.error == NoMemory || r.error == AlreadyMapped) ==>
                done < size && Stopped(r.error, words, at, supply, Added(va, done), 3)
      ensures r != Err(NotUser) ==>
                && (r == Err(WriteAndExecute) <==> !attrs.IsValid())
                && (r == Err(Misaligned) <==>
                    attrs.IsValid() && !(va % PAGE == 0 && pa % PAGE == 0 && size % PAGE == 0))
      ensures r != Err(NotUser) ==> UserTables(r, old(at), old(supply), at, va, size)
    {
      hide Ready, MappedSoFar, Grew, Added, PagesIn, TablesBound, Stopped, CallOutcome, TablesTo, Fresh, Translate,
           UserTables, Guarded, Shaped, Private,
           PrivateRange;
      CameNowhere(words, at, supply, root, va, pa, size, attrs, false);
      NoRange(words, root, va);
      if !attrs.user || va + size > USER_END {
        return Err(NotUser), 0;
      }
      r, done := MapRange(va, pa, size, attrs, false);
      MapGuards(old(words), words, root, va, pa, done, attrs);
      MapPrivate(old(words), words, root, va, pa, done, attrs);
      UserOutcome(r, done, old(words), root, old(at), old(supply), va, pa, size);
      UserBound(r, done, words, root, old(at), old(supply), at, supply, va, pa, size);
    }

    /** translate: the address and the leaf that `va` leads to, in any words at all. */
    method Lookup(va: nat) returns (r: Option<(nat, Desc)>)
      ensures r == Translate(words, root, va)
    {
      hide Index, Leaf, Read, IsTableOrPage, IsValid, HasTypeBit, Span;
      var table := root;
      var level := 0;
      while level < 3
        invariant level <= 3 && TranslateFrom(words, table, va, level) == Translate(words, root, va)
      {
        var d := Read(words, Slot(table, Index(va, level)));
        TypeBits(d);
        if !IsValid(d) {
          LeafInvalid(d, level, va);
          return None;
        }
        if !HasTypeBit(d) {
          return Leaf(d, level, va);
        }
        table := d.frame;
        level := level + 1;
      }
      r := Leaf(Read(words, Slot(table, Index(va, 3))), 3, va);
    }

    /** The entry of the page that maps the address: three tables on the way. */
    method FindPage(va: nat) returns (r: Option<Slot>)
      requires Valid()
      ensures r.Some? <==> HasPage(words, at, va)
      ensures r.Some? ==> r.value == OnSlot(at, va, 3)
    {
      hide Tree, Supplied, Prefix, Index;
      var table := root;
      OnRoot(words, root, at, va);
      var level := 0;
      while level < 3
        invariant level <= 3 && On(va, level) in at && at[On(va, level)] == table
      {
        var d := Read(words, Slot(table, Index(va, level)));
        StepNode(words, root, at, va, level);
        if !IsTableOrPage(d) {
          NotBelow(words, root, at, va, level + 1, 3);
          return None;
        }
        table := d.frame;
        level := level + 1;
      }
      var slot := Slot(table, Index(va, 3));
      r := if IsTableOrPage(Read(words, slot)) then Some(slot) else None;
    }

    /** The word of the page changes, and with it exactly the translation of the page. */
    method WritePage(slot: Slot, va: nat, d: Desc)
      requires Valid() && HasPage(words, at, va) && slot == OnSlot(at, va, 3) && Sound(d, 3)
      modifies `words
      ensures Valid() && words == old(words)[slot := d] && Wrote(old(words), words, root, va, 3, d)
    {
      hide Tree, Supplied, Prefix, Index, Wrote, Clean, Sound;
      WroteLeaf(words, words[slot := d], root, at, va, 3, d);
      SuppliedAfterWrite(words, words[slot := d], supply, at, On(va, 3), Index(va, 3), d);
      CleanWrite(words, words[slot := d], root, at, va, 3, d);
      words := words[slot := d];
    }

    method UnmapPage(va: nat) returns (r: Outcome<nat>)
      requires Valid()
      modifies `words
      ensures Valid()
      ensures r == Err(Misaligned) <==> va % PAGE != 0
      ensures r == Err(NotMapped) <==> va % PAGE == 0 && !HasPage(old(words), at, va)
      ensures r.Err? ==> words == old(words) && (r.error == Misaligned || r.error == NotMapped)
      ensures r.Ok? ==> Translate(old(words), root, va).Some? && r.value == Translate(old(words), root, va).value.0
      ensures r.Ok? ==> Wrote(old(words), words, root, va, 3, ZERO)
      ensures Private(old(words), root) ==> Private(words, root)
      ensures Guarded(old(words), root) ==> Guarded(words, root)
    {
      hide Tree, Supplied, Wrote, Translate, HasPage, Guarded, Private;
      if va % PAGE != 0 {
        return Err(Misaligned);
      }
      var slot := FindPage(va);
      if slot.None? {
        return Err(NotMapped);
      }
      PageTranslates(words, root, at, va);
      var d := Read(words, slot.value);
      WritePage(slot.value, va, ZERO);
      WriteGuards(old(words), words, root, va, ZERO);
      WritePrivate(old(words), words, root, va, ZERO);
      r := Ok(d.frame * PAGE);
    }

    /** The access of a page changes; its frame and memory type stay. Gives the old word. */
    method ProtectPage(va: nat, attrs: Attrs) returns (r: Outcome<Desc>)
      requires Valid()
      modifies `words
      ensures Valid()
      ensures r == Err(WriteAndExecute) <==> !attrs.IsValid()
      ensures r == Err(NotUser) <==> attrs.IsValid() && !attrs.user && !attrs.IsUserNone()
      ensures r == Err(Misaligned) <==> attrs.IsValid() && (attrs.user || attrs.IsUserNone()) && va % PAGE != 0
      ensures r == Err(NotMapped) ==> !HasPage(old(words), at, va)
      ensures r.Ok? ==> HasPage(old(words), at, va)
      ensures r.Err? ==> words == old(words) && r.error != AlreadyMapped && r.error != NoMemory
      ensures r.Ok? ==> Translate(old(words), root, va).Some? && r.value == Translate(old(words), root, va).value.1
      ensures r.Ok? ==> Wrote(old(words), words, root, va, 3, Protected(r.value, attrs))
      ensures Private(old(words), root) ==> Private(words, root)
      ensures Guarded(old(words), root) ==> Guarded(words, root)
    {
      hide Tree, Supplied, Wrote, Translate, Protected, Clean, Sound, Guarded, Decoded, WriteAndExecutable,
           Private;
      if !attrs.IsValid() {
        return Err(WriteAndExecute);
      }
      if !attrs.user && !attrs.IsUserNone() {
        return Err(NotUser);
      }
      if va % PAGE != 0 {
        return Err(Misaligned);
      }
      var slot := FindPage(va);
      if slot.None? {
        return Err(NotMapped);
      }
      PageTranslates(words, root, at, va);
      var d := Read(words, slot.value);
      ProtectedPage(d, attrs);
      WritePage(slot.value, va, Protected(d, attrs));
      ProtectedValid(d, attrs);
      WriteGuards(old(words), words, root, va, Protected(d, attrs));
      ProtectPrivate(old(words), words, root, va, d, attrs);
      r := Ok(d);
    }
  }

  lemma NextAligned(words0: Words, at0: Places, supply0: seq<nat>, words: Words, at: Places, supply: seq<nat>,
                    root: nat, va: nat, pa: nat, size: nat, off: nat, attrs: Attrs, blocks: bool)
    requires off < size && va % PAGE == 0 && pa % PAGE == 0 && size % PAGE == 0
    requires CameTo(words0, at0, supply0, words, at, supply, root, va, pa, size, off, attrs, blocks)
    ensures off % PAGE == 0 && off <= VA_SPAN && Fresh(words0, root, va, off)
    ensures Shaped(words, root, va, pa, size, off, blocks)
    ensures Span(LevelAt(va, pa, size, off, blocks) + 1) > 0
  {
    hide MappedSoFar, Fresh, Ahead, Grew, PagesIn, Heading, LevelAt, Shaped, AtEdge;
  }

  lemma CameNowhere(words: Words, at: Places, supply: seq<nat>, root: nat,
                    va: nat, pa: nat, size: nat, attrs: Attrs, blocks: bool)
    ensures CameTo(words, at, supply, words, at, supply, root, va, pa, size, 0, attrs, blocks)
    ensures Grew(at, supply, at, supply, va, size) && MappedSoFar(words, words, root, va, pa, 0, attrs)
    ensures Fresh(words, root, va, 0)
    ensures Shaped(words, root, va, pa, size, 0, blocks)
  {
    hide MappedSoFar, Ahead, Grew, PagesIn, Verdict, Offset, Shaped, AtEdge;
    NoPages(at, va);
    NothingMapped(words, root, va, pa, attrs);
    ShapedNone(words, root, va, pa, size, blocks);
    AheadOfAll(words, at, va);
    GrewNot(at, supply, va, 0);
    GrewNot(at, supply, va, size);
  }

  lemma CameToEnd(words0: Words, at0: Places, supply0: seq<nat>, words: Words, at: Places, supply: seq<nat>, root: nat,
                  va: nat, pa: nat, size: nat, attrs: Attrs, blocks: bool)
    requires CameTo(words0, at0, supply0, words, at, supply, root, va, pa, size, size, attrs, blocks)
    ensures CallOutcome(Ok(()), size, words0, at0, supply0, va, pa, size, blocks)
    ensures at.Keys == at0.Keys + TablesTo(va, pa, size, 0, blocks, size)
    ensures MappedSoFar(words0, words, root, va, pa, size, attrs) && Fresh(words0, root, va, size) && size <= VA_SPAN
    ensures Grew(at0, supply0, at, supply, va, size) && size % PAGE == 0 && (!blocks ==> PagesIn(at, va, size))
    ensures Shaped(words, root, va, pa, size, size, blocks)
  {
    hide MappedSoFar, Fresh, Ahead, Grew, PagesIn, Shaped, AtEdge;
  }

  lemma CameNoFurther(words0: Words, at0: Places, supply0: seq<nat>, words: Words, at: Places, supply: seq<nat>,
                      words': Words, at': Places, supply': seq<nat>, root: nat,
                      va: nat, pa: nat, size: nat, off: nat, attrs: Attrs, blocks: bool, r: Outcome<()>)
    requires off < size && va % PAGE == 0 && pa % PAGE == 0 && size % PAGE == 0 && r.Err?
    requires CameTo(words0, at0, supply0, words, at, supply, root, va, pa, size, off, attrs, blocks)
    requires Ready(words0, supply0, root, at0) && Ready(words, supply, root, at) && SameView(words, words', root)
    requires var level := LevelAt(va, pa, size, off, blocks);
             && Grew(at, supply, at', supply', va, off + Span(level + 1))
             && LeafOutcome(r, words, at, |supply|, Added(va, off), level)
    ensures MappedSoFar(words0, words', root, va, pa, off, attrs) && Grew(at0, supply0, at', supply', va, size)
    ensures Shaped(words', root, va, pa, size, off, blocks)
    ensures CallOutcome(Err(r.error), off, words0, at0, supply0, va, pa, size, blocks)
    ensures r.error == AlreadyMapped || r.error == NoMemory
  {
    hide Grew, SameView, MappedSoFar, PagesIn, Fresh, Ahead, Heading, Making, Tree, Span, Added, LevelAt,
         LeafOutcome, Barred, Blocked, Verdict, Shaped, AtEdge;
    var level := LevelAt(va, pa, size, off, blocks);
    LevelAligned(va, pa, size, off, blocks);
    SameViewShaped(words, words', root, va, pa, size, off, blocks);
    SameViewMapped(words0, words, words', root, va, pa, off, attrs);
    GrewOn(at0, supply0, at, supply, at', supply', va, off, off + Span(level + 1), size);
    LeafErrors(r, words, at, |supply|, Added(va, off), level);
    BarredNow(words0, words, root, at0, supply0, at, supply, va, pa, off, attrs, level);
    TurnStops(words0, at0, supply0, words, at, supply, va, pa, size, off, blocks, r);
  }

  lemma SameViewShaped(words: Words, words': Words, root: nat, va: nat, pa: nat, size: nat, off: nat, blocks: bool)
    requires Shaped(words, root, va, pa, size, off, blocks) && SameView(words, words', root)
    ensures Shaped(words', root, va, pa, size, off, blocks)
  {
    hide Translate, InBlock;
  }

  lemma LeafErrors(r: Outcome<()>, words: Words, at: Places, room: nat, w: nat, level: nat)
    requires LeafOutcome(r, words, at, room, w, level) && r.Err?
    ensures r.error == AlreadyMapped || r.error == NoMemory
  {
  }

  lemma GrewMore(at: Places, supply: seq<nat>, at': Places, supply': seq<nat>, va: nat, size: nat, size': nat)
    requires Grew(at, supply, at', supply', va, size) && size <= size'
    ensures Grew(at, supply, at', supply', va, size')
  {
    hide Added, Prefix;
    forall n | Needed(n, va, size) ensures Needed(n, va, size') {
      var o: nat :| o < size && o % PAGE == 0 && n == On(Added(va, o), n.level);
    }
  }

  lemma GrewOn(at0: Places, supply0: seq<nat>, at: Places, supply: seq<nat>, at': Places, supply': seq<nat>,
               va: nat, off: nat, next: nat, size: nat)
    requires Grew(at0, supply0, at, supply, va, off) && Grew(at, supply, at', supply', va, next) && off <= next <= size
    ensures Grew(at0, supply0, at', supply', va, next) && Grew(at0, supply0, at', supply', va, size)
    ensures Larger(at0, at) && |at'| + |supply'| == |at| + |supply|
  {
    GrewLarger(at0, supply0, at, supply, va, off);
    GrewMore(at0, supply0, at, supply, va, off, next);
    GrewTwice(at0, supply0, at, supply, at', supply', va, next);
    GrewMore(at0, supply0, at', supply', va, next, size);
    GrewCounts(at, supply, at', supply', va, next);
  }

  lemma GrewCounts(at: Places, supply: seq<nat>, at': Places, supply': seq<nat>, va: nat, size: nat)
    requires Grew(at, supply, at', supply', va, size)
    ensures |at'| + |supply'| == |at| + |supply|
  {
  }

  lemma CameFurther(words0: Words, at0: Places, supply0: seq<nat>, words: Words, at: Places, supply: seq<nat>,
                    words': Words, at': Places, supply': seq<nat>, root: nat,
                    va: nat, pa: nat, size: nat, off: nat, attrs: Attrs, blocks: bool, r: Outcome<()>)
    requires off < size && va % PAGE == 0 && pa % PAGE == 0 && size % PAGE == 0 && r.Ok?
    requires CameTo(words0, at0, supply0, words, at, supply, root, va, pa, size, off, attrs, blocks)
    requires Ready(words0, supply0, root, at0) && Ready(words, supply, root, at)
    requires var level := LevelAt(va, pa, size, off, blocks);
             && Vacant(words, root, Added(va, off), level)
             && Wrote(words, words', root, Added(va, off), level, LeafDesc(level, pa + off, attrs))
             && KeptBut(words, at, words', at', Added(va, off), level)
             && at'.Keys == at.Keys + Way(Added(va, off), level)
             && Grew(at, supply, at', supply', va, off + Span(level + 1))
             && LeafOutcome(r, words, at, |supply|, Added(va, off), level)
    ensures off + Span(LevelAt(va, pa, size, off, blocks) + 1) <= size
    ensures CameTo(words0, at0, supply0, words', at', supply', root, va, pa, size,
                   off + Span(LevelAt(va, pa, size, off, blocks) + 1), attrs, blocks)
  {
    hide Grew, MappedSoFar, PagesIn, Vacant, Wrote, Span, Added, LevelAt, LeafDesc, Fresh, Ahead, Heading, Making,
         Tree, KeptBut, LeafOutcome, Barred, Way, Shaped, AtEdge, LeafLevel;
    var level := LevelAt(va, pa, size, off, blocks);
    LevelAligned(va, pa, size, off, blocks);
    ViewFurther(words0, words, words', root, va, pa, off, attrs, level);
    TreeFurther(words0, at0, supply0, words, at, supply, words', at', supply', root, va, pa, size, off, attrs, blocks,
                r);
    ShapeFurther(words0, words, words', root, at0, va, pa, size, off, attrs, blocks);
    PagesFurther(at, supply, at', supply', va, off, level, blocks);
  }

  /** The shape of the mapping after one more leaf, where nothing was. */
  lemma ShapeFurther(words0: Words, words: Words, words': Words, root: nat, at0: Places,
                     va: nat, pa: nat, size: nat, off: nat, attrs: Attrs, blocks: bool)
    requires off < size && va % PAGE == 0 && off % PAGE == 0 && Tree(words0, root, at0)
    requires Shaped(words, root, va, pa, size, off, blocks) && AtEdge(va, pa, size, off, blocks)
    requires Fresh(words0, root, va, off)
    requires var level := LevelAt(va, pa, size, off, blocks);
             && off + Span(level + 1) <= VA_SPAN && Added(va, off) % Span(level + 1) == 0
             && Wrote(words, words', root, Added(va, off), level, LeafDesc(level, pa + off, attrs))
             && !Barred(words0, at0, va, off, level)
    ensures var next := off + Span(LevelAt(va, pa, size, off, blocks) + 1);
            && Shaped(words', root, va, pa, size, next, blocks) && AtEdge(va, pa, size, next, blocks)
            && Fresh(words0, root, va, next)
  {
    hide Wrote, Span, Added, LevelAt, LeafDesc, Fresh, Tree, Barred, Shaped, AtEdge;
    ShapedStep(words, words', root, va, pa, size, off, attrs, blocks);
    EdgeStep(va, pa, size, off, blocks);
    FreshStep(words0, root, at0, va, off, LevelAt(va, pa, size, off, blocks));
  }

  /** The tree after one more leaf, and what is left of the verdict. */
  lemma TreeFurther(words0: Words, at0: Places, supply0: seq<nat>, words: Words, at: Places, supply: seq<nat>,
                    words': Words, at': Places, supply': seq<nat>, root: nat,
                    va: nat, pa: nat, size: nat, off: nat, attrs: Attrs, blocks: bool, r: Outcome<()>)
    requires off < size && off <= VA_SPAN && r.Ok?
    requires MappedSoFar(words0, words, root, va, pa, off, attrs) && Ahead(words0, at0, words, at, va, off)
    requires Grew(at0, supply0, at, supply, va, off) && Making(at0, at, va, pa, size, off, blocks)
    requires Heading(words0, at0, supply0, at, supply, va, pa, size, off, blocks)
    requires Ready(words0, supply0, root, at0) && Ready(words, supply, root, at)
    requires var level := LevelAt(va, pa, size, off, blocks);
             && off + Span(level + 1) <= VA_SPAN && off + Span(level + 1) <= size
             && Added(va, off) % Span(level + 1) == 0
             && KeptBut(words, at, words', at', Added(va, off), level)
             && at'.Keys == at.Keys + Way(Added(va, off), level)
             && Grew(at, supply, at', supply', va, off + Span(level + 1))
             && LeafOutcome(r, words, at, |supply|, Added(va, off), level)
    ensures var next := off + Span(LevelAt(va, pa, size, off, blocks) + 1);
            && Ahead(words0, at0, words', at', va, next) && Grew(at0, supply0, at', supply', va, next)
            && Heading(words0, at0, supply0, at', supply', va, pa, size, next, blocks)
            && Making(at0, at', va, pa, size, next, blocks)
    ensures !Barred(words0, at0, va, off, LevelAt(va, pa, size, off, blocks))
  {
    hide Grew, MappedSoFar, Span, Added, LevelAt, Ahead, Heading, Making, Tree, KeptBut, LeafOutcome, Blocked, Barred,
         Larger, Way;
    var level := LevelAt(va, pa, size, off, blocks);
    GrewOn(at0, supply0, at, supply, at', supply', va, off, off + Span(level + 1), size);
    BarredNow(words0, words, root, at0, supply0, at, supply, va, pa, off, attrs, level);
    TurnGoesOn(words0, at0, supply0, words, at, supply, at', supply', va, pa, size, off, blocks, r);
    MakingGoesOn(at0, at, at', va, pa, size, off, blocks);
    AheadStep(words0, at0, words, at, words', at', va, off, level);
  }

  lemma ViewFurther(words0: Words, words: Words, words': Words, root: nat, va: nat, pa: nat, off: nat, attrs: Attrs,
                    level: nat)
    requires MappedSoFar(words0, words, root, va, pa, off, attrs) && off <= VA_SPAN && LeafLevel(level)
    requires Added(va, off) % Span(level + 1) == 0 && (pa + off) % Span(level + 1) == 0
    requires Vacant(words, root, Added(va, off), level)
    requires Wrote(words, words', root, Added(va, off), level, LeafDesc(level, pa + off, attrs))
    ensures MappedSoFar(words0, words', root, va, pa, off + Span(level + 1), attrs) && off + Span(level + 1) <= VA_SPAN
  {
    hide MappedSoFar, Vacant, Wrote, Added, LeafDesc, Span;
    RoomLeft(words0, words, root, va, pa, off, attrs, level);
    MappedStep(words0, words, words', root, va, pa, off, attrs, level);
  }

  lemma PagesFurther(at: Places, supply: seq<nat>, at': Places, supply': seq<nat>, va: nat, off: nat, level: nat,
                     blocks: bool)
    requires Grew(at, supply, at', supply', va, off + Span(level + 1))
    requires at'.Keys == at.Keys + Way(Added(va, off), level)
    requires off % PAGE == 0 && LeafLevel(level) && (!blocks ==> level == 3 && PagesIn(at, va, off))
    ensures !blocks ==> PagesIn(at', va, off + Span(level + 1))
  {
    hide Grew, PagesIn, Span, Added, Prefix;
    assert On(Added(va, off), level) in Way(Added(va, off), level);
    PagesStay(at, supply, at', supply', va, off + Span(level + 1), off);
    PagesSoFar(at', va, off, level, blocks);
  }

  /** The tree has the last table on the way of each page of the range. */
  ghost predicate PagesIn(at: Places, va: nat, size: nat) {
    forall o: nat | o < size && o % PAGE == 0 :: On(Added(va, o), 3) in at
  }

  lemma NoPages(at: Places, va: nat)
    ensures PagesIn(at, va, 0)
  {
  }

  lemma PagesStay(at: Places, supply: seq<nat>, at': Places, supply': seq<nat>, va: nat, size: nat, off: nat)
    requires Grew(at, supply, at', supply', va, size)
    ensures PagesIn(at, va, off) ==> PagesIn(at', va, off)
  {
  }

  /** Without blocks the loop goes page by page. */
  lemma PagesSoFar(at: Places, va: nat, off: nat, level: nat, blocks: bool)
    requires off % PAGE == 0 && LeafLevel(level) && (!blocks ==> level == 3) && On(Added(va, off), level) in at
    requires !blocks ==> PagesIn(at, va, off)
    ensures !blocks ==> PagesIn(at, va, off + Span(level + 1))
  {
    if !blocks {
      forall o: nat | o < off + PAGE && o % PAGE == 0 ensures On(Added(va, o), 3) in at {
        assert o <= off;
      }
    }
  }

  lemma SameViewSelf(words: Words, root: nat)
    ensures SameView(words, words, root)
  {
  }

  /** The table that the entry lacks is linked. */
  lemma EnterGraft(words: Words, words': Words, supply: seq<nat>, root: nat, at: Places, at': Places,
                   va: nat, l: nat, range: nat, size: nat, o: nat)
    requires Ready(words, supply, root, at) && l < 3 && On(va, l) in at && supply != []
    requires !IsValid(Read(words, OnSlot(at, va, l))) && o < size && o % PAGE == 0 && va == Added(range, o)
    requires words' == words[OnSlot(at, va, l) := TableDesc(supply[0])] && at' == at[On(va, l + 1) := supply[0]]
    ensures Ready(words', supply[1..], root, at') && SameView(words, words', root) && KeptAll(words, at, words', at')
    ensures Grew(at, supply, at', supply[1..], range, size) && at'.Keys == at.Keys + {On(va, l + 1)}
  {
    hide Rooted, Closed, Prefix, Index, Read, IsValid, Clean, Grew, SameView, KeptAll, Injective, Added, Empty;
    GraftStep(words, words', supply, root, at, at', va, l);
    GrewByOne(at, supply, On(va, l + 1), range, size, o);
    assert supply[0] in supply;
    GraftKeeps(words, words', at, at', va, l, supply[0]);
  }

  lemma ProtectedPage(d: Desc, attrs: Attrs)
    requires IsTableOrPage(d)
    ensures IsTableOrPage(Protected(d, attrs)) && Sound(Protected(d, attrs), 3) && Sound(ZERO, 3)
  {
    TypeBits(Protected(d, attrs));
  }

  lemma WayNot(at: Places, va: nat)
    ensures at.Keys == at.Keys + Way(va, 0)
  {
  }

  lemma WayStep(keys0: set<Node>, keys: set<Node>, keys': set<Node>, va: nat, l: nat)
    requires keys == keys0 + Way(va, l) && keys' == keys + {On(va, l + 1)}
    ensures keys' == keys0 + Way(va, l + 1)
  {
    hide Prefix;
  }

  /** Why the way to the entry ends at level `l`. */
  lemma EntryStops(error: MapError, words0: Words, at0: Places, supply0: seq<nat>, words: Words, root: nat, at: Places,
                   supply: seq<nat>, va: nat, l: nat, level: nat, range: nat, size: nat)
    requires Tree(words0, root, at0) && Tree(words, root, at) && KeptAll(words0, at0, words, at) && l < level <= 3
    requires Grew(at0, supply0, at, supply, range, size) && at.Keys == at0.Keys + Way(va, l) && On(va, l) in at
    requires (error == NoMemory && supply == [] && On(va, l + 1) !in at && !IsValid(Read(words, OnSlot(at, va, l))))
             || (error == AlreadyMapped && BlockedAt(words, at, va, l, l + 1))
    ensures Stopped(error, words, at, supply, va, level)
    ensures WayOutcome<Slot>(Err(error), words0, at0, |supply0|, va, level)
  {
    hide Tree, Grew, KeptAll, Prefix, Index, BlockedAbove, Lacking, Way, IsValid, IsTableOrPage, Read;
    GrewCounts(at0, supply0, at, supply, range, size);
    if error == NoMemory {
      EntryShort(words0, at0, words, root, at, va, l, level, |supply0|);
      assert Missing(at, va, level);
    } else {
      assert BlockedAt(words, at, va, l, level);
      EntryBlocked(words0, at0, words, root, at, va, l, level);
    }
  }

  lemma EntryFound(words0: Words, at0: Places, supply0: seq<nat>, words: Words, root: nat, at: Places, supply: seq<nat>,
                   va: nat, level: nat, range: nat, size: nat)
    requires Tree(words, root, at) && KeptAll(words0, at0, words, at) && level <= 3
    requires Grew(at0, supply0, at, supply, range, size) && at.Keys == at0.Keys + Way(va, level) && On(va, level) in at
    ensures !BlockedAbove(words0, at0, va, level) && |Lacking(at0, va, level)| <= |supply0|
  {
    hide Tree, Grew, KeptAll, Prefix, BlockedAbove, Lacking, Way;
    GrewCounts(at0, supply0, at, supply, range, size);
    EntryReached(words0, at0, words, root, at, va, level, |supply0|);
  }

  lemma CleanWrite(words: Words, words': Words, root: nat, at: Places, va: nat, level: nat, d: Desc)
    requires Tree(words, root, at) && Clean(words, at) && On(va, level) in at && Sound(d, level)
    requires words' == words[OnSlot(at, va, level) := d]
    ensures Clean(words', at)
  {
    hide Clean, Sound, Rooted, Closed;
    CleanAfterWrite(words, words', at, On(va, level), Index(va, level), d);
  }

  lemma LeafIsNoTable(level: nat, pa: nat, attrs: Attrs)
    requires LeafLevel(level)
    ensures NoTable(LeafDesc(level, pa, attrs), level) && Sound(LeafDesc(level, pa, attrs), level)
  {
    LeafDecodes(pa, attrs);
    TypeBits(PageDesc(pa, attrs));
    TypeBits(BlockDesc(pa, attrs));
  }

  lemma FirstTable(words: Words, supply: seq<nat>, at: Places)
    requires supply != [] && Supplied(words, supply, map[]) && at == map[ROOT := supply[0]]
    ensures Ready(words, supply[1..], supply[0], at) && forall v: nat :: Translate(words, supply[0], v) == None
  {
    assert supply[0] in supply;
    assert Empty(words, supply[0]);
    var rest := supply[1..];
    forall t | t in rest ensures t < FRAMES && t !in at.Values && Empty(words, t) {
      assert t in supply;
      var k: nat :| k < |rest| && rest[k] == t;
      assert supply[k + 1] == t && supply[0] != supply[k + 1];
    }
  }

  lemma ExactBound(words: Words, supply': seq<nat>, root: nat, at: Places, supply: seq<nat>, at': Places, va: nat,
                   size: nat)
    requires Ready(words, supply', root, at') && Grew(at, supply, at', supply', va, size) && PagesIn(at', va, size)
    requires size > 0 && size % PAGE == 0 && va % PAGE == 0 && va + size <= VA_SPAN && at.Keys == {ROOT}
    ensures |at'| == 1 + TablesBound(va, size / PAGE)
  {
    hide Grew, Needed, TablesBound;
    forall n | Needed(n, va, size) ensures n in at' {
      AllNeeded(words, root, at', va, size, n);
    }
    ExactlyBound(at, supply, at', supply', va, size / PAGE);
  }

  lemma ShortSupply(at: Places, supply: seq<nat>, at': Places, supply': seq<nat>, va: nat, size: nat, off: nat)
    requires Grew(at, supply, at', supply', va, size) && supply' == [] && Missing(at', Added(va, off), 3)
    requires off < size && off % PAGE == 0 && size % PAGE == 0 && va + size <= VA_SPAN
    ensures |supply| < TablesBound(va, size / PAGE)
  {
    hide Grew, TablesBound;
    var l: nat :| 1 <= l <= 3 && On(Added(va, off), l) !in at';
    assert Needed(On(Added(va, off), l), va, size);
    BoundSuffices(at, supply, at', supply', va, size / PAGE, On(Added(va, off), l));
  }

  lemma UserBound(r: Outcome<()>, done: nat, words: Words, root: nat, at0: Places, supply0: seq<nat>, at: Places,
                  supply: seq<nat>, va: nat, pa: nat, size: nat)
    requires Ready(words, supply, root, at) && va + size <= VA_SPAN && Grew(at0, supply0, at, supply, va, size)
    requires r.Ok? ==> va % PAGE == 0 && PagesIn(at, va, size)
    requires r == Err(NoMemory) ==>
               done < size && done % PAGE == 0
                 && Stopped(NoMemory, words, at, supply, Added(va, done), LevelAt(va, pa, size, done, false))
    ensures UserTables(r, at0, supply0, at, va, size)
  {
    hide Ready, Grew, Added, PagesIn, TablesBound, Missing, Blocked;
    if size >= PAGE && size % PAGE == 0 {
      AtMostBound(at0, supply0, at, supply, va, size / PAGE);
      if r.Ok? && at0.Keys == {ROOT} {
        ExactBound(words, supply, root, at0, supply0, at, va, size);
      }
      if r == Err(NoMemory) {
        ShortSupply(at0, supply0, at, supply, va, size, done);
      }
    }
  }

  lemma UserOutcome(r: Outcome<()>, done: nat, words: Words, root: nat, at: Places, supply: seq<nat>, va: nat, pa: nat,
                    size: nat)
    requires Ready(words, supply, root, at) && va + size <= VA_SPAN
    requires r.Ok? || r.error == AlreadyMapped || r.error == NoMemory ==>
               va % PAGE == 0 && size % PAGE == 0 && CallOutcome(r, done, words, at, supply, va, pa, size, false)
    ensures r.Ok? || r.error == AlreadyMapped || r.error == NoMemory ==>
              (r.Ok? <==>
               Fresh(words, root, va, size) && |TablesTo(va, pa, size, 0, false, size) - at.Keys| <= |supply|)
    ensures r == Err(AlreadyMapped) ==> Translate(words, root, Added(va, done)).Some?
  {
    hide Tree, Clean, Supplied, Verdict, TablesTo, Fresh, Translate, Added;
    if r.Ok? || r.error == AlreadyMapped || r.error == NoMemory {
      PagesOkIff(words, root, at, |supply|, va, pa, size);
    }
    if r == Err(AlreadyMapped) {
      PagesRefused(words, root, at, |supply|, va, pa, size, done);
    }
  }

  // ----- an emptied table -----

  /** No address translates. */
  ghost predicate Bare(words: Words, root: nat) {
    forall v: nat :: Translate(words, root, v) == None
  }

  lemma PageThere(words: Words, root: nat, at: Places, va: nat)
    requires Tree(words, root, at) && On(va, 3) in at && Translate(words, root, va).Some?
    ensures HasPage(words, at, va)
  {
    hide Rooted, Closed, Injective, Prefix, Translate;
    Descend(words, root, at, va, 3);
    TypeBits(Read(words, OnSlot(at, va, 3)));
  }

  lemma OnAdded(va: nat, l: nat)
    ensures On(Added(va, 0), l) == On(va, l)
  {
    assert (va % WORD) % VA_SPAN == va % VA_SPAN;
  }

  /** One page mapped on its own goes in at level 3. */
  lemma OnePage(words: Words, root: nat, at: Places, room: nat, va: nat, pa: nat)
    requires Tree(words, root, at) && Clean(words, at) && Bare(words, root)
    requires va % PAGE == 0 && room >= 3
    ensures Verdict(words, at, at.Keys, room, va, pa, PAGE, 0, true) == (Ok(()), PAGE)
    ensures On(va, 3) in TablesTo(va, pa, PAGE, 0, true, PAGE)
  {
    hide Tree, Clean, Translate, Blocked, Added, Prefix;
    OnAdded(va, 3);
    PageBlocked(words, root, at, Added(va, 0));
    WaySmall(Added(va, 0), at.Keys);
    assert On(va, 3) in TablesAt(va, pa, PAGE, 0, true);
  }

  lemma WaySmall(w: nat, have: set<Node>)
    ensures |Way(w, 3) - have| <= 3
  {
    hide Prefix;
    var way := {On(w, 1), On(w, 2), On(w, 3)};
    SubsetSize(Way(w, 3) - have, way);
  }

  lemma NoneLeft(words: Words, words': Words, words'': Words, root: nat, va: nat, pa: nat, attrs: Attrs)
    requires MappedSoFar(words, words', root, va, pa, PAGE, attrs)
    requires Wrote(words', words'', root, va, 3, ZERO) && va % PAGE == 0
    requires Bare(words, root)
    ensures Bare(words'', root)
  {
    hide Translate, Prefix, Offset, Mapped;
    forall v: nat ensures Translate(words'', root, v) == None {
      SamePrefix(v, va, 3);
      assert Leaf(ZERO, 3, v) == None;
    }
  }

  /** A page is mapped where nothing is, and unmapped: its tables stay. */
  method MapAndUnmap(t: PageTable, va: nat, pa: nat, attrs: Attrs)
    requires t.Valid() && |t.supply| >= 3 && Bare(t.words, t.root)
    requires va % PAGE == 0 && pa % PAGE == 0 && attrs.IsValid()
    modifies t
    ensures t.Valid() && Bare(t.words, t.root) && On(va, 3) in t.at
  {
    hide Tree, Supplied, Clean, Verdict, TablesTo, Bare, Stopped, Wrote, MappedSoFar;
    ghost var words := t.words;
    OnePage(words, t.root, t.at, |t.supply|, va, pa);
    var page, done := t.Map(va, pa, PAGE, attrs);
    PageMapped(words, t.words, t.root, t.at, va, pa, attrs);
    ghost var words' := t.words;
    var frame := t.UnmapPage(va);
    NoneLeft(words, words', t.words, t.root, va, pa, attrs);
  }

  lemma PageMapped(words: Words, words': Words, root: nat, at: Places, va: nat, pa: nat, attrs: Attrs)
    requires Tree(words', root, at) && On(va, 3) in at && MappedSoFar(words, words', root, va, pa, PAGE, attrs)
    ensures HasPage(words', at, va)
  {
    hide Tree, Translate, HasPage;
    assert Offset(va, va) == 0;
    PageThere(words', root, at, va);
  }

  /** A block does not go where the table of its pages still is. */
  lemma TableInTheWay(words: Words, root: nat, at: Places, room: nat, va: nat, pa: nat)
    requires Tree(words, root, at) && On(va, 3) in at && va % BLOCK_2M == 0 && pa % BLOCK_2M == 0
    ensures Verdict(words, at, at.Keys, room, va, pa, BLOCK_2M, 0, true) == (Err(AlreadyMapped), 0)
  {
    hide Rooted, Closed, Injective, Linked, Prefix, Index, Read;
    OnAdded(va, 2);
    OnAdded(va, 3);
    var w := Added(va, 0);
    assert w % BLOCK_2M == 0;
    OnAbove(words, root, at, w, 2, 3);
    StepNode(words, root, at, w, 2);
    TypeBits(Read(words, OnSlot(at, w, 2)));
    assert BlockedAt(words, at, w, 2, 2);
    assert LevelAt(va, pa, BLOCK_2M, 0, true) == 2;
  }

  /** Then a block is refused there, although no address translates. */
  method EmptiedBlock(t: PageTable, va: nat, pa: nat, attrs: Attrs) returns (r: Outcome<()>)
    requires t.Valid() && |t.supply| >= 3 && Bare(t.words, t.root)
    requires va % BLOCK_2M == 0 && pa % BLOCK_2M == 0 && attrs.IsValid()
    modifies t
    ensures r == Err(AlreadyMapped) && t.Valid() && Bare(t.words, t.root)
  {
    hide Tree, Supplied, Clean, Verdict, TablesTo, Bare, Stopped, MappedSoFar, Fresh, Added, LevelAt;
    BlockPages(va);
    BlockPages(pa);
    BlockPages(BLOCK_2M);
    MapAndUnmap(t, va, pa, attrs);
    TableInTheWay(t.words, t.root, t.at, |t.supply|, va, pa);
    ghost var words, done := t.words, 0;
    r, done := t.Map(va, pa, BLOCK_2M, attrs);
    NothingDone(words, t.words, t.root, va, pa, attrs);
  }

  lemma BlockPages(a: nat)
    requires a % BLOCK_2M == 0
    ensures a % PAGE == 0
  {
  }

  lemma NothingDone(words: Words, words': Words, root: nat, va: nat, pa: nat, attrs: Attrs)
    requires MappedSoFar(words, words', root, va, pa, 0, attrs) && Bare(words, root)
    ensures Bare(words', root)
  {
    hide Translate, Mapped;
  }

  /** Unmapping a page that was mapped where nothing was leaves every address as before. */
  lemma UnmapUndoesMap(words: Words, words': Words, words'': Words, root: nat, va: nat, d: Desc)
    requires Vacant(words, root, va, 3) && Wrote(words, words', root, va, 3, d)
    requires Wrote(words', words'', root, va, 3, ZERO)
    ensures SameView(words, words'', root)
  {
    hide Translate, Prefix;
    forall v: nat ensures Translate(words'', root, v) == Translate(words, root, v) {
      assert Leaf(ZERO, 3, v) == None;
    }
  }
}
