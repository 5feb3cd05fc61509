/** The frames of a memory object: how many nodes a list takes, where the frame of a page is
    found, and in what order a release yields the frames. */
module PageListSpec {

  const ENTRIES: nat := 512
  const MAX_PAGES: nat := 262144

  datatype Slot = Slot(frame: nat, index: nat)

  type Words = map<Slot, nat>

  function Read(words: Words, s: Slot): nat {
    if s in words then words[s] else 0
  }

  /** Levels of nodes. */
  function Depth(pages: nat): nat {
    if pages <= 1 then 0 else if pages <= ENTRIES then 1 else 2
  }

  function DivCeil(n: nat): nat {
    (n + ENTRIES - 1) / ENTRIES
  }

  /** Nodes a list takes in all. */
  function Nodes(pages: nat): nat {
    match Depth(pages)
    case 0 => 0
    case 1 => 1
    case _ => 1 + DivCeil(pages)
  }

  /** None for one page, one for up to 512, else a root and a leaf for each 512 pages or part
      of them. */
  lemma NodesOf(pages: nat)
    ensures Nodes(pages) == 0 <==> pages <= 1
    ensures Nodes(pages) == 1 <==> 2 <= pages <= 512
    ensures pages > 512 ==> 512 * (Nodes(pages) - 2) < pages <= 512 * (Nodes(pages) - 1)
    ensures Depth(pages) == (if pages <= 1 then 0 else if pages <= 512 then 1 else 2)
  {
  }

  /** The tables of a list of `filled` pages: a root if there is a page, and one leaf for
      each ENTRIES of them or part of that. */
  function NodesUpTo(pages: nat, filled: nat): nat {
    if filled == 0 || Depth(pages) == 0 then 0
    else if Depth(pages) == 1 then 1
    else 1 + DivCeil(filled)
  }

  /** fill_needs: pages and tables together that a fill of `n` uses up. */
  function FillNeeds(pages: nat, filled: nat, n: nat): (k: int)
  {
    var end := if pages <= filled + n then pages else filled + n;
    var first := if filled == 0 then 1 else 0;
    end - filled
    + (if end <= filled || Depth(pages) == 0 then 0
       else if Depth(pages) == 1 then first
       else first + DivCeil(end) - DivCeil(filled))
  }

  /** However the filling is split, the needs of the steps add up to the pages and nodes. */
  lemma NeedsAdd(pages: nat, filled: nat, n: nat)
    requires filled <= pages
    ensures var end := if pages <= filled + n then pages else filled + n;
            FillNeeds(pages, filled, n) == (end + NodesUpTo(pages, end)) - (filled + NodesUpTo(pages, filled))
    ensures pages > 0 ==> pages + NodesUpTo(pages, pages) == pages + Nodes(pages)
  {
  }

  lemma LeafBounds(i: nat)
    ensures i / ENTRIES < DivCeil(i + 1) && DivCeil(i + 1) == i / ENTRIES + 1
    ensures i % ENTRIES == 0 ==> DivCeil(i) == i / ENTRIES
    ensures i % ENTRIES != 0 ==> DivCeil(i) == i / ENTRIES + 1
  {
  }

  // ----- where the words lie -----

  /** The nodes hold the frames of the first `filled` pages and of the first `leaves` leaves. */
  ghost predicate Laid(pages: nat, root: nat, leaves: nat, filled: nat, words: Words, P: seq<nat>, L: seq<nat>) {
    && filled <= |P| && leaves <= |L|
    && match Depth(pages)
       case 0 => filled <= 1 && leaves == 0 && (filled > 0 ==> root == P[0])
       case 1 => leaves == 0 && forall i: nat | i < filled :: Read(words, Slot(root, i)) == P[i]
       case _ =>
         && DivCeil(filled) <= leaves
         && (forall k: nat | k < leaves :: Read(words, Slot(root, k)) == L[k])
         && (forall i: nat | i < filled ::
             i / ENTRIES < leaves && Read(words, Slot(L[i / ENTRIES], i % ENTRIES)) == P[i])
  }

  ghost predicate Distinct(q: seq<nat>) {
    forall i: nat, j: nat | i < j < |q| :: q[i] != q[j]
  }

  /** The root, the leaves and the pages are different frames. */
  ghost predicate Separate(root: nat, P: seq<nat>, L: seq<nat>) {
    && Distinct(P) && Distinct(L) && (forall x | x in L :: x !in P && x != root) && root !in P
  }

  /** The frame of a page: at most two reads. */
  function Find(pages: nat, root: nat, words: Words, i: nat): nat {
    match Depth(pages)
    case 0 => root
    case 1 => Read(words, Slot(root, i))
    case _ => Read(words, Slot(Read(words, Slot(root, i / ENTRIES)), i % ENTRIES))
  }

  lemma FindIs(pages: nat, root: nat, leaves: nat, filled: nat, words: Words, P: seq<nat>, L: seq<nat>, i: nat)
    requires Laid(pages, root, leaves, filled, words, P, L) && i < filled
    ensures Find(pages, root, words, i) == P[i]
  {
  }

  // ----- filling -----

  /** A node word for page `i` at depth 1. */
  lemma FillFlat(pages: nat, root: nat, filled: nat, words: Words, P: seq<nat>, L: seq<nat>, page: nat)
    requires Depth(pages) == 1 && Laid(pages, root, 0, filled, words, P, L) && |P| == filled
    ensures Laid(pages, root, 0, filled + 1, words[Slot(root, filled) := page], P + [page], L)
  {
  }

  /** A leaf word at depth 2. */
  lemma FillLeaf(pages: nat, root: nat, leaves: nat, filled: nat, words: Words, P: seq<nat>, L: seq<nat>, page: nat)
    requires Depth(pages) == 2 && Laid(pages, root, leaves, filled, words, P, L) && |P| == filled && |L| == leaves
    requires filled / ENTRIES < leaves && DivCeil(filled + 1) <= leaves && Distinct(L) && root !in L
    ensures Laid(pages, root, leaves, filled + 1,
                 words[Slot(L[filled / ENTRIES], filled % ENTRIES) := page], P + [page], L)
  {
    var leaf := filled / ENTRIES;
    var w := words[Slot(L[leaf], filled % ENTRIES) := page];
    assert L[leaf] in L;
    forall i: nat | i < filled + 1
      ensures i / ENTRIES < leaves && Read(w, Slot(L[i / ENTRIES], i % ENTRIES)) == (P + [page])[i]
    {
      if i < filled {
        OtherSlot(i, filled);
      }
    }
  }

  lemma OtherSlot(i: nat, j: nat)
    requires i < j
    ensures i / ENTRIES != j / ENTRIES || i % ENTRIES != j % ENTRIES
  {
  }

  /** A new leaf at depth 2. */
  lemma AddLeaf(pages: nat, root: nat, leaves: nat, filled: nat, words: Words, P: seq<nat>, L: seq<nat>, leaf: nat)
    requires Depth(pages) == 2 && Laid(pages, root, leaves, filled, words, P, L) && |L| == leaves && root !in L
    ensures Laid(pages, root, leaves + 1, filled, words[Slot(root, leaves) := leaf], P, L + [leaf])
  {
    var w, M := words[Slot(root, leaves) := leaf], L + [leaf];
    forall i: nat | i < filled ensures i / ENTRIES < leaves + 1 && Read(w, Slot(M[i / ENTRIES], i % ENTRIES)) == P[i] {
      assert L[i / ENTRIES] in L;
    }
  }

  // ----- release -----

  /** What a release still yields: a leaf once its pages went, the last page first, the root
      last. */
  ghost function Rest(pages: nat, root: nat, leaves: nat, filled: nat, P: seq<nat>, L: seq<nat>): seq<nat>
    requires filled <= |P| && leaves <= |L|
    decreases leaves + filled
  {
    if leaves > DivCeil(filled) then [L[leaves - 1]] + Rest(pages, root, leaves - 1, filled, P, L)
    else if filled > 0 then
      [P[filled - 1]] + Rest(pages, if Depth(pages) == 0 then 0 else root, leaves, filled - 1, P, L)
    else if root != 0 then [root]
    else []
  }

  /** The frames a list holds. */
  ghost function Held(pages: nat, root: nat, leaves: nat, filled: nat, P: seq<nat>, L: seq<nat>): multiset<nat>
    requires filled <= |P| && leaves <= |L|
  {
    multiset(P[..filled]) + multiset(L[..leaves])
      + (if root != 0 && Depth(pages) > 0 then multiset{root} else multiset{})
  }

  lemma LastOf(q: seq<nat>, n: nat)
    requires 0 < n <= |q|
    ensures multiset(q[..n]) == multiset{q[n - 1]} + multiset(q[..n - 1])
  {
    assert q[..n] == q[..n - 1] + [q[n - 1]];
  }

  lemma HeadOf(x: nat, r: seq<nat>)
    ensures multiset([x] + r) == multiset{x} + multiset(r)
  {
  }

  /** A leaf goes. */
  lemma YieldsLeaf(pages: nat, root: nat, leaves: nat, filled: nat, P: seq<nat>, L: seq<nat>, rest: seq<nat>)
    requires filled <= |P| && 0 < leaves <= |L|
    requires multiset(rest) == Held(pages, root, leaves - 1, filled, P, L)
    ensures multiset([L[leaves - 1]] + rest) == Held(pages, root, leaves, filled, P, L)
  {
    hide Depth;
    HeadOf(L[leaves - 1], rest);
    LastOf(L, leaves);
  }

  /** A page goes; where there is no table the root was that page. */
  lemma YieldsPage(pages: nat, root: nat, leaves: nat, filled: nat, P: seq<nat>, L: seq<nat>, rest: seq<nat>)
    requires 0 < filled <= |P| && leaves <= |L|
    requires multiset(rest) == Held(pages, if Depth(pages) == 0 then 0 else root, leaves, filled - 1, P, L)
    ensures multiset([P[filled - 1]] + rest) == Held(pages, root, leaves, filled, P, L)
  {
    hide Depth;
    HeadOf(P[filled - 1], rest);
    LastOf(P, filled);
  }

  /** The root goes, or nothing is left. */
  lemma YieldsRoot(pages: nat, root: nat, P: seq<nat>, L: seq<nat>)
    requires Depth(pages) == 0 ==> root == 0
    ensures multiset(if root != 0 then [root] else []) == Held(pages, root, 0, 0, P, L)
  {
    hide Depth;
    assert P[..0] == [] && L[..0] == [];
  }

  /** A release yields every frame of the list exactly once. */
  lemma {:induction false} YieldsAll(pages: nat, root: nat, leaves: nat, filled: nat, P: seq<nat>, L: seq<nat>)
    requires filled <= |P| && leaves <= |L|
    requires (Depth(pages) == 0 ==> leaves == 0 && filled <= 1 && (filled == 0 ==> root == 0))
    ensures multiset(Rest(pages, root, leaves, filled, P, L)) == Held(pages, root, leaves, filled, P, L)
    decreases leaves + filled
  {
    hide DivCeil, Held, Depth;
    NoLeaves();
    if leaves > DivCeil(filled) {
      YieldsAll(pages, root, leaves - 1, filled, P, L);
      YieldsLeaf(pages, root, leaves, filled, P, L, Rest(pages, root, leaves - 1, filled, P, L));
    } else if filled > 0 {
      var root' := if Depth(pages) == 0 then 0 else root;
      YieldsAll(pages, root', leaves, filled - 1, P, L);
      YieldsPage(pages, root, leaves, filled, P, L, Rest(pages, root', leaves, filled - 1, P, L));
    } else {
      YieldsRoot(pages, root, P, L);
    }
  }

  lemma NoLeaves()
    ensures DivCeil(0) == 0
  {
  }

  lemma LastAfter(x: nat, r: seq<nat>)
    requires r != []
    ensures ([x] + r)[|[x] + r| - 1] == r[|r| - 1]
  {
  }

  /** The root goes last. */
  lemma {:induction false} RootLast(pages: nat, root: nat, leaves: nat, filled: nat, P: seq<nat>, L: seq<nat>,
                                    rest: seq<nat>)
    requires filled <= |P| && leaves <= |L| && Depth(pages) > 0 && root != 0
    requires rest == Rest(pages, root, leaves, filled, P, L)
    ensures rest != [] && rest[|rest| - 1] == root
    decreases leaves + filled
  {
    hide DivCeil, Depth;
    if leaves > DivCeil(filled) {
      var r := Rest(pages, root, leaves - 1, filled, P, L);
      RootLast(pages, root, leaves - 1, filled, P, L, r);
      LastAfter(L[leaves - 1], r);
    } else if filled > 0 {
      var r := Rest(pages, root, leaves, filled - 1, P, L);
      RootLast(pages, root, leaves, filled - 1, P, L, r);
      LastAfter(P[filled - 1], r);
    }
  }

  /** A leaf comes after every page whose frame it holds. */
  lemma {:induction false} LeafAfterPages(pages: nat, root: nat, leaves: nat, filled: nat, P: seq<nat>, L: seq<nat>,
                                          rest: seq<nat>, i: nat, k: nat, m: nat)
    requires filled <= |P| && leaves <= |L| && Separate(root, P, L) && Depth(pages) == 2 && k < |L|
    requires m < filled && m / ENTRIES == k
    requires rest == Rest(pages, root, leaves, filled, P, L) && i < |rest| && rest[i] == L[k]
    ensures exists j: nat :: j < i && rest[j] == P[m]
    decreases leaves + filled
  {
    DivLess(m, filled, k);
    hide DivCeil, Depth;
    assert L[k] in L;
    if leaves > DivCeil(filled) {
      var r := Rest(pages, root, leaves - 1, filled, P, L);
      assert rest == [L[leaves - 1]] + r && L[k] != L[leaves - 1];
      LeafAfterPages(pages, root, leaves - 1, filled, P, L, r, i - 1, k, m);
      var j: nat :| j < i - 1 && r[j] == P[m];
      assert rest[j + 1] == P[m];
    } else {
      var r := Rest(pages, root, leaves, filled - 1, P, L);
      assert rest == [P[filled - 1]] + r && P[filled - 1] in P;
      if m < filled - 1 {
        LeafAfterPages(pages, root, leaves, filled - 1, P, L, r, i - 1, k, m);
        var j: nat :| j < i - 1 && r[j] == P[m];
        assert rest[j + 1] == P[m];
      } else {
        assert rest[0] == P[m];
      }
    }
  }

  lemma DivLess(m: nat, filled: nat, k: nat)
    requires m < filled && m / ENTRIES == k
    ensures k < DivCeil(filled)
  {
  }

  // ----- fresh frames -----

  /** The frames to come are new: none is zero, none comes twice, none is the list's. */
  ghost predicate Fresh(supply: seq<nat>, root: nat, P: seq<nat>, L: seq<nat>) {
    && Distinct(supply) && (forall x | x in P || x in L || x in supply :: x != 0)
    && forall x | x in supply :: x !in P && x !in L && x != root
  }

  ghost predicate Apart(pages: nat, root: nat, P: seq<nat>, L: seq<nat>) {
    Depth(pages) > 0 ==> Separate(root, P, L)
  }

  lemma FirstFresh(supply: seq<nat>, root: nat, P: seq<nat>, L: seq<nat>)
    requires Fresh(supply, root, P, L) && supply != []
    ensures supply[0] != 0 && supply[0] !in P && supply[0] !in L && supply[0] != root && supply[0] !in supply[1..]
    ensures forall x | x in supply[1..] :: x in supply
  {
    var x, rest := supply[0], supply[1..];
    assert x in supply;
    forall k: nat | k < |rest| ensures rest[k] != x && rest[k] in supply {
      assert rest[k] == supply[k + 1];
    }
  }

  lemma DistinctRest(q: seq<nat>)
    requires Distinct(q) && q != []
    ensures Distinct(q[1..])
  {
  }

  lemma DistinctMore(q: seq<nat>, x: nat)
    requires Distinct(q) && x !in q
    ensures Distinct(q + [x])
  {
    var r := q + [x];
    forall i: nat, j: nat | i < j < |r| ensures r[i] != r[j] {
      assert q[i] in q;
    }
  }

  /** A frame of the supply becomes a page. */
  lemma TakePage(pages: nat, supply: seq<nat>, root: nat, P: seq<nat>, L: seq<nat>)
    requires Fresh(supply, root, P, L) && supply != [] && Apart(pages, root, P, L)
    ensures Fresh(supply[1..], root, P + [supply[0]], L) && Apart(pages, root, P + [supply[0]], L)
  {
    FirstFresh(supply, root, P, L);
    DistinctRest(supply);
    if Depth(pages) > 0 {
      DistinctMore(P, supply[0]);
    }
  }

  /** A frame of the supply becomes a leaf. */
  lemma TakeLeaf(pages: nat, supply: seq<nat>, root: nat, P: seq<nat>, L: seq<nat>)
    requires Fresh(supply, root, P, L) && supply != [] && Apart(pages, root, P, L)
    ensures Fresh(supply[1..], root, P, L + [supply[0]]) && Apart(pages, root, P, L + [supply[0]])
  {
    FirstFresh(supply, root, P, L);
    DistinctRest(supply);
    if Depth(pages) > 0 {
      DistinctMore(L, supply[0]);
    }
  }

  /** A frame of the supply becomes the root of an empty list. */
  lemma TakeRoot(pages: nat, supply: seq<nat>, root: nat)
    requires Fresh(supply, root, [], []) && supply != []
    ensures Fresh(supply[1..], supply[0], [], []) && Apart(pages, supply[0], [], []) && supply[0] != 0
  {
    FirstFresh(supply, root, [], []);
    DistinctRest(supply);
  }

  /** The only page at depth 0 is the root itself. */
  lemma TakeOnly(pages: nat, supply: seq<nat>, root: nat)
    requires Fresh(supply, root, [], []) && supply != [] && Depth(pages) == 0
    ensures Fresh(supply[1..], supply[0], [supply[0]], []) && supply[0] != 0
  {
    FirstFresh(supply, root, [], []);
    DistinctRest(supply);
  }

  lemma FirstOf(q: seq<nat>)
    requires q != []
    ensures multiset(q) == multiset{q[0]} + multiset(q[1..])
  {
    assert q == [q[0]] + q[1..];
  }

  /** A frame moves from the supply to the pages. */
  lemma HeldPage(pages: nat, root: nat, leaves: nat, filled: nat, P: seq<nat>, L: seq<nat>, supply: seq<nat>)
    requires |P| == filled && leaves <= |L| && supply != []
    ensures Held(pages, root, leaves, filled + 1, P + [supply[0]], L) + multiset(supply[1..])
            == Held(pages, root, leaves, filled, P, L) + multiset(supply)
  {
    FirstOf(supply);
    assert P[..filled] == P && (P + [supply[0]])[..filled + 1] == P + [supply[0]];
  }

  lemma HeldLeaf(pages: nat, root: nat, leaves: nat, filled: nat, P: seq<nat>, L: seq<nat>, supply: seq<nat>)
    requires filled <= |P| && leaves == |L| && supply != []
    ensures Held(pages, root, leaves + 1, filled, P, L + [supply[0]]) + multiset(supply[1..])
            == Held(pages, root, leaves, filled, P, L) + multiset(supply)
  {
    FirstOf(supply);
    assert L[..leaves] == L && (L + [supply[0]])[..leaves + 1] == L + [supply[0]];
  }

  lemma HeldRoot(pages: nat, leaves: nat, filled: nat, P: seq<nat>, L: seq<nat>, supply: seq<nat>)
    requires filled <= |P| && leaves <= |L| && supply != [] && supply[0] != 0 && Depth(pages) > 0
    ensures Held(pages, supply[0], leaves, filled, P, L) + multiset(supply[1..])
            == Held(pages, 0, leaves, filled, P, L) + multiset(supply)
  {
    FirstOf(supply);
  }
}
