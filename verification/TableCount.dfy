/** How many tables a user range needs: the bound, and when it is exact. */
module TableCount {
  import opened Arithmetic
  import opened Descriptors
  import opened TableTree
  import opened TableRange
  import opened TableMap

  /** The regions of a level that the bytes from `va` to `last` touch. */
  function Regions(va: nat, last: nat, l: nat): nat
    requires va <= last
  {
    DivMonotone(va, last, Span(l));
    last / Span(l) - va / Span(l) + 1
  }

  /** tables_bound: at each of the three levels below the root, the number of entries above
      that the range passes through. */
  function TablesBound(va: nat, pages: nat): nat
    requires pages > 0
  {
    var last := va + pages * PAGE - 1;
    Regions(va, last, 3) + Regions(va, last, 2) + Regions(va, last, 1)
  }

  lemma DivMonotone(x: nat, y: nat, s: nat)
    requires s > 0 && x <= y
    ensures x / s <= y / s
  {
    if y / s < x / s {
      Multiples(y / s + 1, x / s, s);
    }
  }

  lemma Multiples(a: nat, b: nat, s: nat)
    requires a <= b
    ensures s * a <= s * b
  {
  }

  /** The tables of a level with prefixes from `lo` on. */
  ghost function LevelNodes(l: nat, lo: nat, n: nat): (s: set<Node>)
    ensures |s| == n && forall k :: k in s <==> k.level == l && lo <= k.prefix < lo + n
  {
    if n == 0 then {} else LevelNodes(l, lo, n - 1) + {Node(l, lo + n - 1)}
  }

  ghost function NodesFor(va: nat, last: nat, l: nat): (s: set<Node>)
    requires va <= last
    ensures |s| == Regions(va, last, l)
  {
    LevelNodes(l, va / Span(l), Regions(va, last, l))
  }

  lemma InNodesFor(va: nat, last: nat, l: nat, n: Node)
    requires va <= last
    ensures n in NodesFor(va, last, l) <==> n.level == l && va / Span(l) <= n.prefix <= last / Span(l)
  {
  }

  ghost function NodeSet(va: nat, last: nat): set<Node>
    requires va <= last
  {
    NodesFor(va, last, 3) + NodesFor(va, last, 2) + NodesFor(va, last, 1)
  }

  lemma NodeSetIs(va: nat, last: nat, n: Node)
    requires va <= last
    ensures n in NodeSet(va, last) <==> 1 <= n.level <= 3 && va / Span(n.level) <= n.prefix <= last / Span(n.level)
  {
    hide Span, Regions, NodesFor;
    InNodesFor(va, last, 3, n);
    InNodesFor(va, last, 2, n);
    InNodesFor(va, last, 1, n);
  }

  lemma NodeSetSize(va: nat, pages: nat)
    requires pages > 0
    ensures |NodeSet(va, va + pages * PAGE - 1)| == TablesBound(va, pages)
  {
    hide Span, Regions, NodesFor;
    var last := va + pages * PAGE - 1;
    var a, b, c := NodesFor(va, last, 3), NodesFor(va, last, 2), NodesFor(va, last, 1);
    forall n ensures !(n in a && n in b) && !(n in a + b && n in c) {
      InNodesFor(va, last, 3, n);
      InNodesFor(va, last, 2, n);
      InNodesFor(va, last, 1, n);
    }
    assert a !! b && (a + b) !! c;
  }

  /** Inside the lower half nothing wraps. */
  lemma NoWrap(va: nat, o: nat, l: nat)
    requires va + o < VA_SPAN && l <= 4
    ensures On(Added(va, o), l) == Node(l, (va + o) / Span(l))
  {
    hide Span;
    ModUnique(va + o, 0, va + o, WORD);
    ModUnique(va + o, 0, va + o, VA_SPAN);
  }

  /** A table the range needs is one of those counted. */
  lemma NeededIsCounted(n: Node, va: nat, last: nat, size: nat)
    requires size > 0 && last == va + size - 1 && va + size <= VA_SPAN && Needed(n, va, size)
    ensures n in NodeSet(va, last)
  {
    hide Span, NodeSet, On, Added;
    var o: nat :| o < size && o % PAGE == 0 && n == On(Added(va, o), n.level);
    NoWrap(va, o, n.level);
    DivMonotone(va, va + o, Span(n.level));
    DivMonotone(va + o, last, Span(n.level));
    NodeSetIs(va, last, n);
  }

  /** A counted table is needed by the page at which its region and the range begin. */
  lemma CountedIsNeeded(n: Node, va: nat, last: nat, size: nat)
    requires size > 0 && last == va + size - 1 && va + size <= VA_SPAN && va % PAGE == 0 && n in NodeSet(va, last)
    ensures Needed(n, va, size)
  {
    hide Span, NodeSet, On, Added;
    NodeSetIs(va, last, n);
    var o := 0;
    if n.prefix != va / Span(n.level) {
      o := StartOf(n, va, last);
    }
    NoWrap(va, o, n.level);
    assert n == On(Added(va, o), n.level);
  }

  lemma StartOf(n: Node, va: nat, last: nat) returns (o: nat)
    requires 1 <= n.level <= 3 && va % PAGE == 0 && va / Span(n.level) < n.prefix <= last / Span(n.level)
    ensures va + o <= last && o % PAGE == 0 && (va + o) / Span(n.level) == n.prefix
  {
    hide Span;
    var s := Span(n.level);
    PageMultiple(s, n.prefix, n.level);
    StartBetween(va, last, n.prefix, s);
    o := s * n.prefix - va;
    PageDifference(s * n.prefix, va);
  }

  /** The start of a later stretch of `s` lies between the two addresses. */
  lemma StartBetween(va: nat, last: nat, p: nat, s: nat)
    requires s > 0 && va / s < p <= last / s
    ensures va <= s * p <= last && s * p / s == p
  {
    assert va == s * (va / s) + va % s && last == s * (last / s) + last % s;
    Multiples(va / s + 1, p, s);
    Multiples(p, last / s, s);
    ModUnique(s * p, p, 0, s);
  }

  lemma PageDifference(a: nat, b: nat)
    requires b <= a && a % PAGE == 0 && b % PAGE == 0
    ensures (a - b) % PAGE == 0
  {
  }

  lemma PageMultiple(s: nat, p: nat, l: nat)
    requires 1 <= l <= 3 && s == Span(l)
    ensures (s * p) % PAGE == 0
  {
    assert s == PAGE * (s / PAGE);
    assert s * p == PAGE * ((s / PAGE) * p);
    ModUnique(s * p, (s / PAGE) * p, 0, PAGE);
  }

  lemma SubsetSize(a: set<Node>, b: set<Node>)
    requires a <= b
    ensures |a| <= |b|
  {
    assert b == a + (b - a);
  }

  /** The tables a tree gained are counted. */
  lemma Gained(at: Places, supply: seq<nat>, at': Places, supply': seq<nat>, va: nat, last: nat,
               size: nat) returns (gained: set<Node>)
    requires size > 0 && last == va + size - 1 && va + size <= VA_SPAN && Grew(at, supply, at', supply', va, size)
    ensures gained <= NodeSet(va, last) && forall n :: n in gained <==> n in at' && n !in at
    ensures |at'| == |at| + |gained| && |supply| == |supply'| + |gained|
  {
    hide NodeSet, Needed;
    gained := MoreKeys(at, at');
    forall n | n in gained ensures n in NodeSet(va, last) {
      NeededIsCounted(n, va, last, size);
    }
  }

  lemma MoreKeys(at: Places, at': Places) returns (more: set<Node>)
    requires forall n | n in at :: n in at'
    ensures |at'| == |at| + |more| && forall n :: n in more <==> n in at' && n !in at
  {
    more := at'.Keys - at.Keys;
    assert at'.Keys == at.Keys + more && at.Keys !! more;
  }

  /** A tree gains at most the bound. */
  lemma AtMostBound(at: Places, supply: seq<nat>, at': Places, supply': seq<nat>, va: nat, pages: nat)
    requires pages > 0 && va + pages * PAGE <= VA_SPAN && Grew(at, supply, at', supply', va, pages * PAGE)
    ensures |at'| <= |at| + TablesBound(va, pages) && |supply| <= |supply'| + TablesBound(va, pages)
  {
    hide NodeSet, TablesBound, Needed, Grew;
    var last := va + pages * PAGE - 1;
    var gained := Gained(at, supply, at', supply', va, last, pages * PAGE);
    SubsetSize(gained, NodeSet(va, last));
    NodeSetSize(va, pages);
  }

  /** A tree of its root alone gains exactly the bound. */
  lemma ExactlyBound(at: Places, supply: seq<nat>, at': Places, supply': seq<nat>, va: nat, pages: nat)
    requires pages > 0 && va + pages * PAGE <= VA_SPAN && va % PAGE == 0 && at.Keys == {ROOT}
    requires Grew(at, supply, at', supply', va, pages * PAGE)
    requires forall n | Needed(n, va, pages * PAGE) :: n in at'
    ensures |at'| == 1 + TablesBound(va, pages)
  {
    hide NodeSet, TablesBound, Needed, Grew;
    var last := va + pages * PAGE - 1;
    var gained := Gained(at, supply, at', supply', va, last, pages * PAGE);
    forall n | n in NodeSet(va, last) ensures n in gained {
      CountedIsNeeded(n, va, last, pages * PAGE);
      NodeSetIs(va, last, n);
    }
    assert gained == NodeSet(va, last);
    NodeSetSize(va, pages);
  }

  /** With the bound in the supply the range never runs out of tables. */
  lemma BoundSuffices(at: Places, supply: seq<nat>, at': Places, supply': seq<nat>, va: nat, pages: nat, n: Node)
    requires pages > 0 && va + pages * PAGE <= VA_SPAN && Grew(at, supply, at', supply', va, pages * PAGE)
    requires supply' == [] && n !in at' && Needed(n, va, pages * PAGE)
    ensures |supply| < TablesBound(va, pages)
  {
    hide NodeSet, TablesBound, Needed, Grew;
    var last := va + pages * PAGE - 1;
    var gained := Gained(at, supply, at', supply', va, last, pages * PAGE);
    NeededIsCounted(n, va, last, pages * PAGE);
    assert n !in gained;
    SubsetSize(gained + {n}, NodeSet(va, last));
    NodeSetSize(va, pages);
  }

  /** With every page's level-3 table in the tree, every table the range needs is. */
  lemma AllNeeded(words: Words, root: nat, at: Places, va: nat, size: nat, n: Node)
    requires Tree(words, root, at) && Needed(n, va, size)
    requires forall o: nat | o < size && o % PAGE == 0 :: On(Added(va, o), 3) in at
    ensures n in at
  {
    hide On, Added, Tree;
    var o: nat :| o < size && o % PAGE == 0 && n == On(Added(va, o), n.level);
    Above(words, root, at, Added(va, o), n.level, 3);
  }

  lemma {:induction false} Above(words: Words, root: nat, at: Places, va: nat, l: nat, k: nat)
    requires Tree(words, root, at) && l <= k <= 3 && On(va, k) in at
    ensures On(va, l) in at
    decreases k
  {
    if l < k {
      ParentOn(va, k);
      Above(words, root, at, va, l, k - 1);
    }
  }
}
