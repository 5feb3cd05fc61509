/** The page list of a memory object as it changes in place. */
module PageLists {
  import opened PageListSpec

  class PageList {
    const pages: nat
    var root: nat
    var filled: nat
    var leaves: nat
    var going: bool
    var words: Words
    /** The frames alloc_frame will give; the creator paid for all of them. */
    var supply: seq<nat>
    ghost var P: seq<nat>
    ghost var L: seq<nat>

    ghost predicate Filling()
      reads this
    {
      && |P| == filled && |L| == leaves && (root != 0 <==> filled > 0)
      && (Depth(pages) == 2 ==> leaves == DivCeil(filled))
    }

    ghost predicate Valid()
      reads this
    {
      && 0 < pages <= MAX_PAGES && filled <= pages && Laid(pages, root, leaves, filled, words, P, L)
      && Fresh(supply, root, P, L) && Apart(pages, root, P, L)
      && (filled > 0 || leaves > 0 ==> root != 0) && (Depth(pages) == 0 && filled == 0 ==> root == 0)
      && (!going ==> Filling())
    }

    constructor (pages: nat, words: Words, supply: seq<nat>)
      requires 0 < pages <= MAX_PAGES && Fresh(supply, 0, [], [])
      ensures Valid() && !going && this.pages == pages && filled == 0 && this.supply == supply && root == 0
    {
      this.pages := pages;
      this.words, this.supply := words, supply;
      root, filled, leaves, going, P, L := 0, 0, 0, false, [], [];
    }

    method AllocFrame() returns (frame: nat)
      requires supply != []
      modifies `supply
      ensures frame == old(supply)[0] && supply == old(supply)[1..]
    {
      frame := supply[0];
      supply := supply[1..];
    }

    /** The root with the first page. */
    method TakeFirstNode()
      requires Valid() && !going && filled == 0 && Depth(pages) > 0 && supply != []
      modifies `root, `supply
      ensures Laid(pages, root, leaves, filled, words, P, L) && Fresh(supply, root, P, L) && Apart(pages, root, P, L)
      ensures root != 0 && supply == old(supply)[1..] && Budget() == old(Budget())
    {
      hide Fresh, Separate, Held;
      TakeRoot(pages, supply, root);
      HeldRoot(pages, leaves, filled, P, L, supply);
      root := AllocFrame();
    }

    /** The frames the list holds and those it may still take. */
    ghost function Budget(): multiset<nat>
      requires filled <= |P| && leaves <= |L|
      reads this
    {
      Held(pages, root, leaves, filled, P, L) + multiset(supply)
    }

    /** The page of a list without tables is the root itself. */
    method FillOnly()
      requires Valid() && !going && filled < pages && Depth(pages) == 0
      requires |supply| >= 1 + NodesUpTo(pages, filled + 1) - NodesUpTo(pages, filled)
      modifies `root, `filled, `supply, `P
      ensures Valid() && filled == old(filled) + 1 && P == old(P) + [P[old(filled)]] && old(L) <= L
      ensures |supply| == |old(supply)| - (1 + NodesUpTo(pages, filled) - NodesUpTo(pages, old(filled)))
      ensures Budget() == old(Budget())
    {
      TakeOnly(pages, supply, root);
      FirstOf(supply);
      root := AllocFrame();
      P := [root];
      filled := filled + 1;
    }

    /** One more page: its node when it needs a new one, its frame, and the word that names it. */
    method FillPage()
      requires Valid() && !going && filled < pages
      requires |supply| >= 1 + NodesUpTo(pages, filled + 1) - NodesUpTo(pages, filled)
      modifies `root, `filled, `leaves, `words, `supply, `P, `L
      ensures Valid() && filled == old(filled) + 1 && P == old(P) + [P[old(filled)]] && old(L) <= L
      ensures |supply| == |old(supply)| - (1 + NodesUpTo(pages, filled) - NodesUpTo(pages, old(filled)))
      ensures Budget() == old(Budget())
    {
      if Depth(pages) == 0 {
        FillOnly();
        return;
      }
      if filled == 0 {
        TakeFirstNode();
      }
      if Depth(pages) == 1 {
        FillAtDepth1();
      } else {
        FillAtDepth2();
      }
    }

    method FillAtDepth1()
      requires Depth(pages) == 1 && filled < pages && |P| == filled && |L| == leaves && root != 0 && supply != []
      requires Laid(pages, root, leaves, filled, words, P, L) && Fresh(supply, root, P, L) && Apart(pages, root, P, L)
      modifies `filled, `words, `supply, `P
      ensures Laid(pages, root, leaves, filled, words, P, L) && Fresh(supply, root, P, L) && Apart(pages, root, P, L)
      ensures filled == old(filled) + 1 == |P| && P == old(P) + [old(supply)[0]] && supply == old(supply)[1..]
      ensures Budget() == old(Budget())
    {
      hide Fresh, Separate, Held;
      HeldPage(pages, root, leaves, filled, P, L, supply);
      TakePage(pages, supply, root, P, L);
      FillFlat(pages, root, filled, words, P, L, supply[0]);
      hide Laid;
      var page := AllocFrame();
      words := words[Slot(root, filled) := page];
      P := P + [page];
      filled := filled + 1;
    }

    method NewLeaf()
      requires Depth(pages) == 2 && filled < pages && |P| == filled && |L| == leaves == filled / ENTRIES && supply != []
      requires Laid(pages, root, leaves, filled, words, P, L) && Fresh(supply, root, P, L) && Apart(pages, root, P, L)
      modifies `leaves, `words, `supply, `L
      ensures Laid(pages, root, leaves, filled, words, P, L) && Fresh(supply, root, P, L) && Apart(pages, root, P, L)
      ensures leaves == old(leaves) + 1 == |L| && L == old(L) + [old(supply)[0]] && supply == old(supply)[1..]
      ensures Budget() == old(Budget())
    {
      hide Fresh, Held;
      HeldLeaf(pages, root, leaves, filled, P, L, supply);
      TakeLeaf(pages, supply, root, P, L);
      AddLeaf(pages, root, leaves, filled, words, P, L, supply[0]);
      hide Laid, Separate;
      var leaf := AllocFrame();
      words := words[Slot(root, filled / ENTRIES) := leaf];
      L := L + [leaf];
      leaves := leaves + 1;
    }

    method FillAtDepth2()
      requires Depth(pages) == 2 && filled < pages && |P| == filled && |L| == leaves == DivCeil(filled) && root != 0
      requires |supply| >= 1 + DivCeil(filled + 1) - DivCeil(filled)
      requires Laid(pages, root, leaves, filled, words, P, L) && Fresh(supply, root, P, L) && Apart(pages, root, P, L)
      modifies `filled, `leaves, `words, `supply, `P, `L
      ensures Laid(pages, root, leaves, filled, words, P, L) && Fresh(supply, root, P, L) && Apart(pages, root, P, L)
      ensures filled == old(filled) + 1 == |P| && |L| == leaves == DivCeil(filled) && old(L) <= L
      ensures P == old(P) + [P[old(filled)]]
      ensures |supply| == |old(supply)| - (1 + DivCeil(filled) - DivCeil(old(filled))) && Budget() == old(Budget())
    {
      hide Fresh, Laid, Held;
      LeafBounds(filled);
      if filled % ENTRIES == 0 {
        NewLeaf();
      }
      TakePage(pages, supply, root, P, L);
      HeldPage(pages, root, leaves, filled, P, L, supply);
      FillLeaf(pages, root, leaves, filled, words, P, L, supply[0]);
      LeafAt(pages, root, leaves, filled, words, P, L);
      var page := AllocFrame();
      var leaf := Read(words, Slot(root, filled / ENTRIES));
      words := words[Slot(leaf, filled % ENTRIES) := page];
      P := P + [page];
      filled := filled + 1;
    }

    /** The list grows by `n` pages or to its size, the tables it needs with them. */
    method Fill(n: nat) returns (full: bool)
      requires Valid() && !going && |supply| >= FillNeeds(pages, filled, n)
      modifies `root, `filled, `leaves, `words, `supply, `P, `L
      ensures Valid() && filled == (if pages <= old(filled) + n then pages else old(filled) + n) && old(P) <= P
      ensures |supply| == |old(supply)| - FillNeeds(pages, old(filled), n)
      ensures (full <==> filled == pages) && Budget() == old(Budget())
    {
      hide Held, Laid, Fresh, Separate, NodesUpTo, FillNeeds, DivCeil;
      var end := if pages <= filled + n then pages else filled + n;
      NeedsAdd(pages, filled, n);
      while filled < end
        invariant Valid() && old(filled) <= filled <= end && old(P) <= P && |P| == filled && |L| == leaves
        invariant Budget() == old(Budget())
        invariant |supply| + filled + NodesUpTo(pages, filled)
                  == |old(supply)| + old(filled) + NodesUpTo(pages, old(filled))
      {
        NodesMore(pages, filled, end);
        FillPage();
      }
      full := filled == pages;
    }

    /** The frame of page `i`. */
    method Frame(i: nat) returns (frame: nat)
      requires Valid() && !going && i < filled
      ensures frame == P[i]
    {
      FindIs(pages, root, leaves, filled, words, P, L, i);
      frame := Find(pages, root, words, i);
    }

    /** The frames of neighbouring pages; a leaf's address is read once for them. */
    method Frames(first: nat, count: nat) returns (out: seq<nat>)
      requires Valid() && !going && first + count <= filled
      ensures out == P[first..first + count]
    {
      out := [];
      var leafOf, leaf := -1, 0;
      while |out| < count
        invariant |out| <= count && out == P[first..first + |out|]
        invariant leafOf >= 0 && Depth(pages) == 2 ==> leafOf < leaves && leaf == L[leafOf]
      {
        var i := first + |out|;
        FindIs(pages, root, leaves, filled, words, P, L, i);
        var frame;
        if Depth(pages) == 0 {
          frame := root;
        } else if Depth(pages) == 1 {
          frame := Read(words, Slot(root, i));
        } else {
          if leafOf != i / ENTRIES {
            leafOf, leaf := i / ENTRIES, Read(words, Slot(root, i / ENTRIES));
          }
          frame := Read(words, Slot(leaf, i % ENTRIES));
        }
        out := out + [frame];
      }
    }

    /** What the list still has to give back. */
    ghost function Left(): seq<nat>
      requires Valid()
      reads this
    {
      Rest(pages, root, leaves, filled, P, L)
    }

    /** Reads a word of a node that the release has not yielded. */
    method ReadNode(s: Slot) returns (w: nat)
      requires Valid() && s.frame in Left()
      ensures w == Read(words, s)
    {
      w := Read(words, s);
    }

    /** The last page's frame, found through nodes that are still held. */
    method LastPage() returns (frame: nat)
      requires Valid() && going && filled > 0
      ensures frame == P[filled - 1]
    {
      hide Fresh, Separate, Rest;
      var i := filled - 1;
      FindIs(pages, root, leaves, filled, words, P, L, i);
      if Depth(pages) == 0 {
        frame := root;
      } else {
        NodesToCome(pages, root, leaves, filled, P, L);
        if Depth(pages) == 1 {
          frame := ReadNode(Slot(root, i));
        } else {
          var leaf := ReadNode(Slot(root, i / ENTRIES));
          frame := ReadNode(Slot(leaf, i % ENTRIES));
        }
      }
    }

    /** One frame of a release, none when the list holds none. */
    method YieldOne() returns (frame: nat, ok: bool)
      requires Valid() && going
      modifies `root, `filled, `leaves
      ensures Valid() && (ok <==> old(Left()) != [])
      ensures ok ==> old(Left()) == [frame] + Left()
      ensures !ok ==> Left() == [] && root == 0
    {
      hide Fresh, Separate;
      NoLeaves();
      frame, ok := 0, true;
      if leaves > DivCeil(filled) {
        NodesToCome(pages, root, leaves, filled, P, L);
        frame := ReadNode(Slot(root, leaves - 1));
        leaves := leaves - 1;
      } else if filled > 0 {
        frame := LastPage();
        LaidLess(pages, root, leaves, filled, words, P, L);
        filled := filled - 1;
        if Depth(pages) == 0 {
          FreshNoRoot(supply, root, P, L);
          root := 0;
        }
      } else if root != 0 {
        FreshNoRoot(supply, root, P, L);
        ApartNoRoot(pages, supply, root, P, L);
        frame := root;
        root := 0;
      } else {
        ok := false;
      }
    }

    /** One step of the release: up to `n` frames. */
    method ReleaseCollect(n: nat) returns (out: seq<nat>)
      requires Valid()
      modifies `root, `filled, `leaves, `going
      ensures Valid() && going && old(Left()) == out + Left()
      ensures |out| == if |old(Left())| <= n then |old(Left())| else n
      ensures root == 0 <==> Left() == []
    {
      hide Laid, Fresh, Separate, DivCeil, Rest;
      going := true;
      out := [];
      var more := true;
      while |out| < n && more
        invariant Valid() && going && |out| <= n && old(Left()) == out + Left()
        invariant !more ==> Left() == []
        decreases more, n - |out|
      {
        var frame;
        ghost var left := Left();
        frame, more := YieldOne();
        if more {
          Onwards(out, left, frame, Left());
          out := out + [frame];
        }
      }
      RootTells(pages, root, leaves, filled, words, P, L);
    }
  }

  lemma LeafAt(pages: nat, root: nat, leaves: nat, filled: nat, words: Words, P: seq<nat>, L: seq<nat>)
    requires Depth(pages) == 2 && Laid(pages, root, leaves, filled, words, P, L) && filled / ENTRIES < leaves
    ensures Read(words, Slot(root, filled / ENTRIES)) == L[filled / ENTRIES]
  {
  }

  lemma NodesMore(pages: nat, filled: nat, end: nat)
    requires filled < end <= pages
    ensures NodesUpTo(pages, filled) <= NodesUpTo(pages, filled + 1) <= NodesUpTo(pages, end)
  {
  }

  lemma LaidLess(pages: nat, root: nat, leaves: nat, filled: nat, words: Words, P: seq<nat>, L: seq<nat>)
    requires Laid(pages, root, leaves, filled, words, P, L) && filled > 0
    ensures Laid(pages, root, leaves, filled - 1, words, P, L)
    ensures Depth(pages) == 0 ==> Laid(pages, 0, leaves, filled - 1, words, P, L)
  {
  }

  lemma FreshNoRoot(supply: seq<nat>, root: nat, P: seq<nat>, L: seq<nat>)
    requires Fresh(supply, root, P, L)
    ensures Fresh(supply, 0, P, L)
  {
  }

  lemma ApartNoRoot(pages: nat, supply: seq<nat>, root: nat, P: seq<nat>, L: seq<nat>)
    requires Apart(pages, root, P, L) && Fresh(supply, root, P, L)
    ensures Apart(pages, 0, P, L)
  {
  }

  lemma Onwards(out: seq<nat>, left: seq<nat>, frame: nat, rest: seq<nat>)
    requires left == [frame] + rest
    ensures out + left == out + [frame] + rest
  {
  }

  lemma {:induction false} RootTells(pages: nat, root: nat, leaves: nat, filled: nat, words: Words, P: seq<nat>,
                                     L: seq<nat>)
    requires Laid(pages, root, leaves, filled, words, P, L) && (filled > 0 || leaves > 0 ==> root != 0)
    ensures root == 0 <==> Rest(pages, root, leaves, filled, P, L) == []
  {
    NoLeaves();
  }

  /** The nodes of a list that is going are still to come. */
  lemma NodesToCome(pages: nat, root: nat, leaves: nat, filled: nat, P: seq<nat>, L: seq<nat>)
    requires filled <= |P| && leaves <= |L| && root != 0 && Depth(pages) > 0
    ensures root in Rest(pages, root, leaves, filled, P, L)
    ensures forall k: nat | k < leaves :: L[k] in Rest(pages, root, leaves, filled, P, L)
  {
    YieldsAll(pages, root, leaves, filled, P, L);
    hide Rest;
    var rest := Rest(pages, root, leaves, filled, P, L);
    assert root in multiset(rest);
    forall k: nat | k < leaves ensures L[k] in rest {
      assert L[..leaves][k] == L[k];
      assert L[k] in multiset(L[..leaves]) && L[k] in multiset(rest);
    }
  }
}
