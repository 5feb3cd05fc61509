/** The way of an address through a tree: where it ends, what stands in the way of a leaf,
    and what the steps of a mapping leave of it. */
module TableWay {
  import opened Common
  import opened Arithmetic
  import opened Descriptors
  import opened TableTree
  import opened TableMap
  import opened TableCount

  // ----- what stands in the way -----

  /** Something stands in the way of a leaf at `level` for the address: a leaf above, or any
      descriptor in the entry itself, an emptied table's included. */
  ghost predicate Blocked(words: Words, at: Places, va: nat, level: nat) {
    exists l: nat :: l <= level && On(va, l) in at && BlockedAt(words, at, va, l, level)
  }

  ghost predicate BlockedAt(words: Words, at: Places, va: nat, l: nat, level: nat)
    requires On(va, l) in at
  {
    var d := Read(words, OnSlot(at, va, l));
    if l < level then IsValid(d) && !IsTableOrPage(d) else d != ZERO
  }

  /** A leaf stands above the level. */
  ghost predicate BlockedAbove(words: Words, at: Places, va: nat, level: nat) {
    exists l: nat :: l < level && On(va, l) in at && BlockedAt(words, at, va, l, level)
  }

  /** A table on the way of the address is missing. */
  ghost predicate Missing(at: Places, va: nat, level: nat) {
    exists l: nat :: 1 <= l <= level && On(va, l) !in at
  }

  /** The tables of the way, the root aside. */
  ghost function Way(va: nat, level: nat): (s: set<Node>)
    ensures forall n :: n in s <==> 1 <= n.level <= level && n == On(va, n.level)
  {
    if level == 0 then {} else Way(va, level - 1) + {On(va, level)}
  }

  lemma StepNode(words: Words, root: nat, at: Places, va: nat, l: nat)
    requires Tree(words, root, at) && l < 3 && On(va, l) in at
    ensures On(va, l + 1) in at <==> IsTableOrPage(Read(words, OnSlot(at, va, l)))
    ensures On(va, l + 1) in at ==> Read(words, OnSlot(at, va, l)).frame == at[On(va, l + 1)]
  {
    ParentOn(va, l + 1);
    if On(va, l + 1) in at {
      assert Linked(words, at, On(va, l + 1));
    }
    if IsTableOrPage(Read(words, OnSlot(at, va, l))) {
      assert Child(On(va, l), Index(va, l)) in at;
    }
  }

  lemma {:induction false} NotBelow(words: Words, root: nat, at: Places, va: nat, l: nat, k: nat)
    requires Tree(words, root, at) && l <= k <= 3 && On(va, l) !in at
    ensures On(va, k) !in at
  {
    if l < k {
      NotBelow(words, root, at, va, l, k - 1);
      ParentOn(va, k);
    }
  }

  lemma OnRoot(words: Words, root: nat, at: Places, va: nat)
    requires Tree(words, root, at)
    ensures On(va, 0) in at && at[On(va, 0)] == root
  {
    IndexIs(va, 0);
  }

  /** The last table of the way, at `level` or above. */
  lemma {:induction false} WayEnds(words: Words, root: nat, at: Places, va: nat, level: nat) returns (e: nat)
    requires Tree(words, root, at) && level <= 3
    ensures e <= level && On(va, e) in at && (e < level ==> On(va, e + 1) !in at)
    ensures e < level ==> !IsTableOrPage(Read(words, OnSlot(at, va, e)))
  {
    hide Rooted, Closed, Injective, Linked, Prefix, Index, IsTableOrPage;
    if On(va, level) in at {
      e := level;
    } else {
      OnRoot(words, root, at, va);
      e := WayEnds(words, root, at, va, level - 1);
      if e == level - 1 {
        StepNode(words, root, at, va, e);
      }
    }
  }

  lemma SamePrefixAbove(v: nat, w: nat, k: nat, l: nat)
    requires k <= l <= 4 && Prefix(v, l) == Prefix(w, l)
    ensures Prefix(v, k) == Prefix(w, k)
    decreases l
  {
    if k < l {
      IndexIs(v, l - 1);
      IndexIs(w, l - 1);
      SamePrefixAbove(v, w, k, l - 1);
    }
  }

  /** With nothing in the way, no address through the entry translates. */
  lemma FreeIsVacant(words: Words, root: nat, at: Places, w: nat, level: nat)
    requires Tree(words, root, at) && level <= 3 && !Blocked(words, at, w, level)
    ensures Vacant(words, root, w, level)
  {
    var e := WayEnds(words, root, at, w, level);
    var d := Read(words, OnSlot(at, w, e));
    assert !BlockedAt(words, at, w, e, level);
    assert !IsValid(d);
    TypeBits(d);
    forall v: nat | Prefix(v, level + 1) == Prefix(w, level + 1) ensures Translate(words, root, v) == None {
      SamePrefixAbove(v, w, e + 1, level + 1);
      ThroughIs(w, v, e);
      LeafDecides(words, root, at, On(w, e), Index(w, e), v);
    }
  }

  // ----- what a mapping leaves of a way -----

  /** The entry of the way at `l` is as it was, or a table was linked where it was invalid;
      the entries of new tables are empty or linked. */
  ghost predicate KeptAt(words0: Words, at0: Places, words: Words, at: Places, v: nat, l: nat)
    requires On(v, l) in at
  {
    var d := Read(words, OnSlot(at, v, l));
    if On(v, l) in at0 then
      || d == Read(words0, OnSlot(at0, v, l))
      || (!IsValid(Read(words0, OnSlot(at0, v, l))) && On(v, l + 1) in at && On(v, l + 1) !in at0)
    else
      d == ZERO || On(v, l + 1) in at
  }

  ghost predicate Larger(at0: Places, at: Places) {
    forall n | n in at0 :: n in at && at[n] == at0[n]
  }

  /** The way of an address that no leaf was written for. */
  ghost predicate Kept(words0: Words, at0: Places, words: Words, at: Places, v: nat) {
    forall l: nat | l <= 3 && On(v, l) in at :: KeptAt(words0, at0, words, at, v, l)
  }

  lemma KeptTwice(words0: Words, at0: Places, words: Words, at: Places, words': Words, at': Places, v: nat)
    requires Larger(at0, at) && Larger(at, at') && Kept(words0, at0, words, at, v) && Kept(words, at, words', at', v)
    ensures Kept(words0, at0, words', at', v)
  {
    forall l: nat | l <= 3 && On(v, l) in at' ensures KeptAt(words0, at0, words', at', v, l) {
      assert KeptAt(words, at, words', at', v, l);
      if On(v, l) in at {
        assert KeptAt(words0, at0, words, at, v, l);
      }
    }
  }

  lemma GraftKeepsAt(words: Words, words': Words, at: Places, at': Places, w: nat, k: nat, t: nat, v: nat, l: nat)
    requires Injective(at) && On(w, k) in at && !IsValid(Read(words, OnSlot(at, w, k)))
    requires t !in at.Values && Empty(words, t) && On(w, k + 1) !in at && l <= 3 && k < 3
    requires words' == words[OnSlot(at, w, k) := TableDesc(t)] && at' == at[On(w, k + 1) := t] && On(v, l) in at'
    ensures KeptAt(words, at, words', at', v, l)
  {
    hide Prefix, Index, IsValid;
    assert at[On(w, k)] in at.Values;
    if On(v, l) !in at {
      assert OnSlot(at', v, l).table == t;
      assert Read(words, OnSlot(at', v, l)) == ZERO;
    } else if OnSlot(at, v, l) == OnSlot(at, w, k) {
      assert On(v, l) == On(w, k);
      ParentOn(w, k + 1);
      ParentOn(v, k + 1);
    }
  }

  /** Linking a table keeps every way. */
  lemma GraftKeeps(words: Words, words': Words, at: Places, at': Places, w: nat, k: nat, t: nat)
    requires Injective(at) && k < 3 && On(w, k) in at && !IsValid(Read(words, OnSlot(at, w, k)))
    requires t !in at.Values && Empty(words, t) && On(w, k + 1) !in at
    requires words' == words[OnSlot(at, w, k) := TableDesc(t)] && at' == at[On(w, k + 1) := t]
    ensures KeptAll(words, at, words', at')
  {
    hide Prefix, Index, IsValid, KeptAt, Injective, Empty, Read;
    forall v: nat, l: nat | l <= 3 && On(v, l) in at' ensures KeptAt(words, at, words', at', v, l) {
      GraftKeepsAt(words, words', at, at', w, k, t, v, l);
    }
  }

  /** A written leaf keeps the way of every address that does not go through it. */
  lemma LeafKeeps(words: Words, words': Words, root: nat, at: Places, w: nat, level: nat, d: Desc, v: nat)
    requires Tree(words, root, at) && level <= 3 && On(w, level) in at && words' == words[OnSlot(at, w, level) := d]
    requires Prefix(v, level + 1) != Prefix(w, level + 1)
    ensures Kept(words, at, words', at, v)
  {
    ThroughIs(w, v, level);
    forall l: nat | l <= 3 && On(v, l) in at ensures KeptAt(words, at, words', at, v, l) {
      assert OnSlot(at, v, l) != OnSlot(at, w, level);
    }
  }

  lemma WasBlockedAt(words0: Words, at0: Places, words: Words, at: Places, w: nat, l: nat, level: nat)
    requires l <= level && On(w, l) in at && KeptAt(words0, at0, words, at, w, l)
    requires On(w, l + 1) in at0 ==> On(w, l) in at0
    requires l < level && On(w, l + 1) in at ==> IsTableOrPage(Read(words, OnSlot(at, w, l)))
    requires l == level && On(w, l + 1) in at ==> On(w, l + 1) in at0
    requires BlockedAt(words, at, w, l, level)
    ensures On(w, l) in at0 && BlockedAt(words0, at0, w, l, level)
  {
    TypeBits(Read(words, OnSlot(at, w, l)));
  }

  /** What blocks a kept way blocked it before, unless it is a new table below the entry. */
  lemma WasBlocked(words0: Words, at0: Places, words: Words, root: nat, at: Places, w: nat, level: nat)
    requires Tree(words0, root, at0) && Tree(words, root, at) && level <= 3
    requires Kept(words0, at0, words, at, w) && (On(w, level + 1) in at ==> On(w, level + 1) in at0)
    ensures Blocked(words, at, w, level) ==> Blocked(words0, at0, w, level)
  {
    hide Closed, Injective, Linked, BlockedAt, KeptAt;
    if Blocked(words, at, w, level) {
      var l: nat :| l <= level && On(w, l) in at && BlockedAt(words, at, w, l, level);
      if l < 3 {
        StepNode(words, root, at, w, l);
        ParentOn(w, l + 1);
      }
      WasBlockedAt(words0, at0, words, at, w, l, level);
    }
  }

  lemma StillBlockedAt(words0: Words, at0: Places, words: Words, at: Places, w: nat, l: nat, level: nat)
    requires l <= level && On(w, l) in at && KeptAt(words0, at0, words, at, w, l)
    requires On(w, l + 1) in at ==> IsTableOrPage(Read(words, OnSlot(at, w, l)))
    requires On(w, l) in at0 && BlockedAt(words0, at0, w, l, level)
    ensures BlockedAt(words, at, w, l, level)
  {
    TypeBits(Read(words, OnSlot(at, w, l)));
  }

  /** What blocked a kept way blocks it still. */
  lemma StillBlocked(words0: Words, at0: Places, words: Words, root: nat, at: Places, w: nat, level: nat)
    requires Tree(words, root, at) && Larger(at0, at) && Kept(words0, at0, words, at, w) && level <= 3
    ensures Blocked(words0, at0, w, level) ==> Blocked(words, at, w, level)
  {
    hide Closed, Injective, Linked, BlockedAt, KeptAt;
    if Blocked(words0, at0, w, level) {
      var l: nat :| l <= level && On(w, l) in at0 && BlockedAt(words0, at0, w, l, level);
      if l < 3 {
        StepNode(words, root, at, w, l);
      }
      StillBlockedAt(words0, at0, words, at, w, l, level);
    }
  }

  // ----- one entry with the tables above it -----

  /** No way of any address lost a descriptor. */
  ghost predicate KeptAll(words0: Words, at0: Places, words: Words, at: Places) {
    Larger(at0, at) && forall v: nat :: Kept(words0, at0, words, at, v)
  }

  lemma KeptAllSelf(words: Words, at: Places)
    ensures KeptAll(words, at, words, at)
  {
  }

  lemma KeptAllTwice(words0: Words, at0: Places, words: Words, at: Places, words': Words, at': Places)
    requires KeptAll(words0, at0, words, at) && KeptAll(words, at, words', at')
    ensures KeptAll(words0, at0, words', at')
  {
    forall v: nat ensures Kept(words0, at0, words', at', v) {
      KeptTwice(words0, at0, words, at, words', at', v);
    }
  }

  /** Where the way reaches the level, or ends at an invalid entry, no leaf is above. */
  lemma NoLeafAbove(words: Words, root: nat, at: Places, va: nat, l: nat, level: nat)
    requires Tree(words, root, at) && l <= level <= 3 && On(va, l) in at
    requires l < level ==> On(va, l + 1) !in at && !IsValid(Read(words, OnSlot(at, va, l)))
    ensures !BlockedAbove(words, at, va, level)
  {
    hide Rooted, Closed, Injective, Linked;
    if BlockedAbove(words, at, va, level) {
      var k: nat :| k < level && On(va, k) in at && BlockedAt(words, at, va, k, level);
      if k < l {
        StepNode(words, root, at, va, k);
        OnAbove(words, root, at, va, k + 1, l);
      } else if k > l {
        NotBelow(words, root, at, va, l + 1, k);
      }
    }
  }

  lemma OnAbove(words: Words, root: nat, at: Places, va: nat, k: nat, l: nat)
    requires Tree(words, root, at) && k <= l <= 3 && On(va, l) in at
    ensures On(va, k) in at
  {
    if On(va, k) !in at {
      NotBelow(words, root, at, va, k, l);
    }
  }

  lemma StillBlockedAbove(words0: Words, at0: Places, words: Words, root: nat, at: Places, w: nat, level: nat)
    requires Tree(words, root, at) && KeptAll(words0, at0, words, at) && level <= 3
    ensures BlockedAbove(words0, at0, w, level) ==> BlockedAbove(words, at, w, level)
  {
    hide Closed, Injective, Linked, BlockedAt, KeptAt, Rooted;
    if BlockedAbove(words0, at0, w, level) {
      var l: nat :| l < level && On(w, l) in at0 && BlockedAt(words0, at0, w, l, level);
      assert Kept(words0, at0, words, at, w);
      StepNode(words, root, at, w, l);
      StillBlockedAt(words0, at0, words, at, w, l, level);
    }
  }

  lemma WayGrows(va: nat, l: nat, level: nat)
    requires l <= level
    ensures Way(va, l) <= Way(va, level)
  {
  }

  lemma Joined<T>(a: set<T>, b: set<T>)
    ensures |a + b| == |a| + |b - a|
  {
    assert a + b == a + (b - a);
  }

  /** The tables that are still to make. */
  ghost function Lacking(at: Places, va: nat, level: nat): set<Node> {
    Way(va, level) - at.Keys
  }

  /** A leaf met on the way was met before. */
  lemma EntryBlocked(words0: Words, at0: Places, words: Words, root: nat, at: Places, va: nat, l: nat, level: nat)
    requires Tree(words0, root, at0) && Tree(words, root, at) && KeptAll(words0, at0, words, at) && l < level <= 3
    requires On(va, l) in at && BlockedAt(words, at, va, l, l + 1)
    ensures BlockedAbove(words0, at0, va, level)
  {
    hide Closed, Injective, Linked, KeptAt;
    assert Kept(words0, at0, words, at, va);
    StepNode(words, root, at, va, l);
    ParentOn(va, l + 1);
    WasBlockedAt(words0, at0, words, at, va, l, level);
  }

  /** The supply ran out although no leaf stands above: there were too few tables. */
  lemma EntryShort(words0: Words, at0: Places, words: Words, root: nat, at: Places, va: nat, l: nat, level: nat,
                   room: nat)
    requires Tree(words, root, at) && KeptAll(words0, at0, words, at) && l < level <= 3
    requires On(va, l) in at && On(va, l + 1) !in at && !IsValid(Read(words, OnSlot(at, va, l)))
    requires at.Keys == at0.Keys + Way(va, l) && |at| == |at0| + room
    ensures !BlockedAbove(words0, at0, va, level) && |Lacking(at0, va, level)| > room
  {
    hide Closed, Injective, Linked, Kept, Rooted, Way, BlockedAbove;
    NoLeafAbove(words, root, at, va, l, level);
    StillBlockedAbove(words0, at0, words, root, at, va, level);
    TooFew(at0.Keys, at.Keys, va, l, level, room);
  }

  lemma TooFew(keys0: set<Node>, keys: set<Node>, va: nat, l: nat, level: nat, room: nat)
    requires l < level && On(va, l + 1) !in keys && keys == keys0 + Way(va, l) && |keys| == |keys0| + room
    ensures |Way(va, level) - keys0| > room
  {
    hide Prefix;
    Joined(keys0, Way(va, l));
    WayGrows(va, l + 1, level);
    var some := Way(va, l) - keys0;
    SubsetSize(some + {On(va, l + 1)}, Way(va, level) - keys0);
  }

  /** The level is reached. */
  lemma EntryReached(words0: Words, at0: Places, words: Words, root: nat, at: Places, va: nat, level: nat, room: nat)
    requires Tree(words, root, at) && KeptAll(words0, at0, words, at) && level <= 3 && On(va, level) in at
    requires at.Keys == at0.Keys + Way(va, level) && |at| <= |at0| + room
    ensures !BlockedAbove(words0, at0, va, level) && |Lacking(at0, va, level)| <= room
  {
    hide Closed, Injective, Linked, Kept, Rooted;
    NoLeafAbove(words, root, at, va, level, level);
    StillBlockedAbove(words0, at0, words, root, at, va, level);
    Joined(at0.Keys, Way(va, level));
  }

  /** The entry that was reached is taken exactly when something stood in the way. */
  lemma EntryTaken(words0: Words, at0: Places, words: Words, root: nat, at: Places, va: nat, level: nat)
    requires Tree(words0, root, at0) && Tree(words, root, at) && KeptAll(words0, at0, words, at) && level <= 3
    requires On(va, level) in at && at.Keys == at0.Keys + Way(va, level)
    ensures Blocked(words0, at0, va, level) <==> Read(words, OnSlot(at, va, level)) != ZERO
    ensures Blocked(words0, at0, va, level) ==> Lacking(at0, va, level) == {}
  {
    hide Closed, Injective, Linked, Rooted, KeptAt;
    assert Kept(words0, at0, words, at, va);
    WasBlocked(words0, at0, words, root, at, va, level);
    StillBlocked(words0, at0, words, root, at, va, level);
    BlockedHere(words, root, at, va, level);
    if Blocked(words0, at0, va, level) {
      NothingLacks(words0, at0, words, root, at, va, level);
    }
  }

  lemma BlockedHere(words: Words, root: nat, at: Places, va: nat, level: nat)
    requires Tree(words, root, at) && level <= 3 && On(va, level) in at
    ensures Blocked(words, at, va, level) <==> Read(words, OnSlot(at, va, level)) != ZERO
  {
    hide Closed, Injective, Linked, Rooted;
    NoLeafAbove(words, root, at, va, level, level);
    if Read(words, OnSlot(at, va, level)) != ZERO {
      assert BlockedAt(words, at, va, level, level);
    }
  }

  lemma NothingLacks(words0: Words, at0: Places, words: Words, root: nat, at: Places, va: nat, level: nat)
    requires Tree(words0, root, at0) && Tree(words, root, at) && KeptAll(words0, at0, words, at) && level <= 3
    requires On(va, level) in at && Blocked(words0, at0, va, level)
    ensures Lacking(at0, va, level) == {}
  {
    hide Closed, Injective, Linked, Rooted, KeptAt, Kept;
    NoLeafAbove(words, root, at, va, level, level);
    StillBlockedAbove(words0, at0, words, root, at, va, level);
    assert On(va, level) in at0;
    forall n | n in Way(va, level) ensures n in at0 {
      OnAbove(words0, root, at0, va, n.level, level);
    }
  }

  // ----- when something in the way translates -----

  /** The block entry holds a table that has no entry left. */
  ghost predicate Emptied(words: Words, at: Places, w: nat, level: nat) {
    level == 2 && On(w, 3) in at && Empty(words, at[On(w, 3)])
  }

  /** A leaf on the way translates the address. */
  lemma LeafTranslates(words: Words, root: nat, at: Places, w: nat, l: nat)
    requires Tree(words, root, at) && Clean(words, at) && l <= 3 && On(w, l) in at
    requires Read(words, OnSlot(at, w, l)) != ZERO && NoTable(Read(words, OnSlot(at, w, l)), l)
    ensures Translate(words, root, w).Some?
  {
    hide Rooted, Closed, Injective, Translate, IsTableOrPage, IsValid;
    IndexIs(w, l);
    var d := Read(words, OnSlot(at, w, l));
    assert Sound(d, l);
    ThroughIs(w, w, l);
    LeafDecides(words, root, at, On(w, l), Index(w, l), w);
    LeafAnywhere(d, l, w);
  }

  lemma LeafAnywhere(d: Desc, level: nat, va: nat)
    ensures Leaf(d, level, va).Some? <==> Leaf(d, level, 0).Some?
  {
  }

  /** An address with the way of `w` and its own last index. */
  lemma Within(w: nat, i: nat) returns (v: nat)
    requires i < ENTRIES
    ensures Prefix(v, 3) == Prefix(w, 3) && Index(v, 3) == i
  {
    v := Prefix(w, 3) * BLOCK_2M + i * PAGE;
    WithinIs(Prefix(w, 3), i);
  }

  lemma WithinIs(p: nat, i: nat)
    requires p < ENTRIES * ENTRIES * ENTRIES && i < ENTRIES
    ensures Prefix(p * BLOCK_2M + i * PAGE, 3) == p && Index(p * BLOCK_2M + i * PAGE, 3) == i
  {
    var v := p * BLOCK_2M + i * PAGE;
    assert v == PAGE * (ENTRIES * p + i);
    ModUnique(v, ENTRIES * p + i, 0, PAGE);
    ModUnique(ENTRIES * p + i, p, i, ENTRIES);
    ModUnique(v, p, i * PAGE, BLOCK_2M);
    ModUnique(v, 0, v, VA_SPAN);
  }

  lemma NotEmptyTranslates(words: Words, root: nat, at: Places, w: nat)
    requires Tree(words, root, at) && Clean(words, at) && On(w, 3) in at && !Empty(words, at[On(w, 3)])
    ensures !Vacant(words, root, w, 2)
  {
    hide Rooted, Closed, Injective, Translate, Prefix, Index, Clean;
    var i: nat :| i < ENTRIES && Read(words, Slot(at[On(w, 3)], i)) != ZERO;
    var v := Within(w, i);
    LeafTranslates(words, root, at, v, 3);
  }

  lemma EmptyIsVacant(words: Words, root: nat, at: Places, w: nat)
    requires Tree(words, root, at) && On(w, 3) in at && Empty(words, at[On(w, 3)])
    ensures Vacant(words, root, w, 2)
  {
    hide Rooted, Closed, Injective, Translate, Prefix, Index;
    forall v: nat | Prefix(v, 3) == Prefix(w, 3) ensures Translate(words, root, v) == None {
      assert Read(words, Slot(at[On(w, 3)], Index(v, 3))) == ZERO;
      ThroughIs(v, v, 3);
      LeafDecides(words, root, at, On(v, 3), Index(v, 3), v);
    }
  }

  lemma TableAbove(words: Words, root: nat, at: Places, w: nat, l: nat)
    requires Tree(words, root, at) && l <= 2 && On(w, l) in at && On(w, 3) in at
    ensures IsTableOrPage(Read(words, OnSlot(at, w, l)))
  {
    hide Rooted, Closed, Injective, Linked, Prefix, Index;
    OnAbove(words, root, at, w, l + 1, 3);
    StepNode(words, root, at, w, l);
  }

  /** Some address through a blocked entry translates, unless the entry holds the table of
      a block that was emptied. */
  lemma BlockedTranslates(words: Words, root: nat, at: Places, w: nat, level: nat)
    requires Tree(words, root, at) && Clean(words, at) && 2 <= level <= 3 && Blocked(words, at, w, level)
    ensures Vacant(words, root, w, level) <==> Emptied(words, at, w, level)
  {
    hide Rooted, Closed, Injective, Translate, Prefix, Index, Clean, Read, IsTableOrPage, IsValid;
    var l: nat :| l <= level && On(w, l) in at && BlockedAt(words, at, w, l, level);
    var d := Read(words, OnSlot(at, w, l));
    TypeBits(d);
    if NoTable(d, l) {
      LeafTranslates(words, root, at, w, l);
      if Emptied(words, at, w, level) {
        TableAbove(words, root, at, w, l);
      }
    } else {
      StepNode(words, root, at, w, 2);
      if Empty(words, at[On(w, 3)]) {
        EmptyIsVacant(words, root, at, w);
      } else {
        NotEmptyTranslates(words, root, at, w);
      }
    }
  }

  /** For a page there is no such table: something is in the way exactly when the page
      translates. */
  lemma PageBlocked(words: Words, root: nat, at: Places, w: nat)
    requires Tree(words, root, at) && Clean(words, at)
    ensures Blocked(words, at, w, 3) <==> Translate(words, root, w).Some?
  {
    hide Tree, Clean, Blocked, Translate, Prefix;
    if !Blocked(words, at, w, 3) {
      FreeIsVacant(words, root, at, w, 3);
    } else {
      BlockedPage(words, root, at, w);
    }
  }

  lemma BlockedPage(words: Words, root: nat, at: Places, w: nat)
    requires Tree(words, root, at) && Clean(words, at) && Blocked(words, at, w, 3)
    ensures Translate(words, root, w).Some?
  {
    hide Rooted, Closed, Injective, Translate, Prefix, Index, Clean, Read, IsTableOrPage, IsValid;
    var l: nat :| l <= 3 && On(w, l) in at && BlockedAt(words, at, w, l, 3);
    TypeBits(Read(words, OnSlot(at, w, l)));
    LeafTranslates(words, root, at, w, l);
  }
}
