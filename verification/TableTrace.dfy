/** The walk that takes a table tree down, as the list of what it reads, enters and frees. */
module TableTrace {
  import opened TableTree

  datatype Event = Look(n: Node, i: nat) | Enter(n: Node) | Free(n: Node)

  /** The walk from entry `i` of the table at `n` on, to the freeing of the table. */
  ghost function Trace(nodes: set<Node>, n: Node, i: nat): (t: seq<Event>)
    requires n.level <= 2 && i <= ENTRIES
    decreases 3 - n.level, ENTRIES - i
  {
    if i == ENTRIES then
      [Free(n)]
    else
      var c := Child(n, i);
      [Look(n, i)]
      + (if c !in nodes then [] else if c.level == 3 then [Free(c)] else [Enter(c)] + Trace(nodes, c, 0))
      + Trace(nodes, n, i + 1)
  }

  /** What the walk does at a child of `n`, before it goes on with `n`. */
  ghost function AtChild(nodes: set<Node>, c: Node): seq<Event>
    requires 1 <= c.level <= 3
  {
    if c !in nodes then [] else if c.level == 3 then [Free(c)] else [Enter(c)] + Trace(nodes, c, 0)
  }

  lemma TraceStep(nodes: set<Node>, n: Node, i: nat)
    requires n.level <= 2 && i < ENTRIES
    ensures Trace(nodes, n, i) == [Look(n, i)] + AtChild(nodes, Child(n, i)) + Trace(nodes, n, i + 1)
  {
  }

  ghost function Reads(n: Node, from: nat, to: nat): (t: seq<Event>)
    requires from <= to
    ensures |t| == to - from && forall k: nat | k < |t| :: t[k] == Look(n, from + k)
  {
    seq(to - from, k requires 0 <= k => Look(n, from + k))
  }

  /** Entries without tables are read and passed over. */
  lemma {:induction false} Skip(nodes: set<Node>, n: Node, i: nat, j: nat)
    requires n.level <= 2 && i <= j <= ENTRIES && forall k: nat | i <= k < j :: Child(n, k) !in nodes
    ensures Trace(nodes, n, i) == Reads(n, i, j) + Trace(nodes, n, j)
    decreases j - i
  {
    if i < j {
      TraceStep(nodes, n, i);
      Skip(nodes, n, i + 1, j);
      assert Reads(n, i, j) == [Look(n, i)] + Reads(n, i + 1, j);
    }
  }

  // ----- ancestors -----

  /** The table of level `l` above `m`. */
  function Ancestor(m: Node, l: nat): Node
    decreases m.level
  {
    if m.level <= l then m else Ancestor(Parent(m), l)
  }

  lemma {:induction false} AncestorStep(m: Node, l: nat)
    requires m.level > l
    ensures Ancestor(m, l + 1).level == l + 1 && Parent(Ancestor(m, l + 1)) == Ancestor(m, l)
    decreases m.level
  {
    if m.level > l + 1 {
      AncestorStep(Parent(m), l);
    }
  }

  /** The tree's places: at levels 0 to 3, one root, parents present. */
  ghost predicate Complete(nodes: set<Node>) {
    && ROOT in nodes
    && forall m | m in nodes :: m.level <= 3 && (m.level == 0 ==> m == ROOT) && (m.level > 0 ==> Parent(m) in nodes)
  }

  lemma {:induction false} AncestorIn(nodes: set<Node>, m: Node, l: nat)
    requires Complete(nodes) && m in nodes
    ensures Ancestor(m, l) in nodes
    decreases m.level
  {
    if m.level > l {
      AncestorIn(nodes, Parent(m), l);
    }
  }

  /** `m` lies below `n`, by way of a child from `i` on. */
  ghost predicate Under(m: Node, n: Node, i: nat) {
    m.level > n.level && Ancestor(m, n.level + 1).level == n.level + 1
    && Parent(Ancestor(m, n.level + 1)) == n && Ancestor(m, n.level + 1).prefix % ENTRIES >= i
  }

  ghost predicate UnderChild(m: Node, c: Node) {
    m.level >= c.level && Ancestor(m, c.level) == c
  }

  lemma UnderSplit(m: Node, n: Node, i: nat)
    requires i < ENTRIES
    ensures Under(m, n, i) <==> Under(m, n, i + 1) || UnderChild(m, Child(n, i))
    ensures !(Under(m, n, i + 1) && UnderChild(m, Child(n, i)))
  {
    ChildParent(n, i);
    if m.level > n.level {
      AncestorStep(m, n.level);
      var a := Ancestor(m, n.level + 1);
      if Parent(a) == n && a.prefix % ENTRIES == i {
        assert a == Child(n, i);
      }
    }
  }

  lemma UnderChildIs(m: Node, c: Node)
    ensures UnderChild(m, c) <==> m == c || Under(m, c, 0)
  {
    if m.level > c.level {
      AncestorStep(m, c.level);
    }
  }

  // ----- what the walk does -----

  /** What belongs to the walk of a whole tree. */
  ghost predicate Due(nodes: set<Node>, e: Event) {
    && e.n in nodes
    && match e
       case Look(n, i) => n.level <= 2 && i < ENTRIES
       case Enter(n) => 1 <= n.level <= 2
       case Free(_) => true
  }

  /** What belongs to the walk from entry `i` of `n` on. */
  ghost predicate DueFrom(nodes: set<Node>, n: Node, i: nat, e: Event) {
    || e == Free(n)
    || (e.Look? && e.n == n && i <= e.i < ENTRIES)
    || (Due(nodes, e) && Under(e.n, n, i))
  }

  ghost predicate DueAt(nodes: set<Node>, c: Node, e: Event) {
    Due(nodes, e) && UnderChild(e.n, c)
  }

  lemma NothingAbsent(nodes: set<Node>, c: Node, m: Node)
    requires Complete(nodes) && m in nodes && UnderChild(m, c)
    ensures c in nodes && c.level <= 3 && (c.level == 3 ==> m == c)
  {
    AncestorIn(nodes, m, c.level);
  }

  lemma {:induction false} TraceHas(nodes: set<Node>, n: Node, i: nat, e: Event)
    requires Complete(nodes) && n.level <= 2 && i <= ENTRIES && n in nodes
    ensures e in Trace(nodes, n, i) <==> DueFrom(nodes, n, i, e)
    decreases 3 - n.level, ENTRIES - i, 1
  {
    if i < ENTRIES {
      TraceStep(nodes, n, i);
      AtChildHas(nodes, n, i, e);
      TraceHas(nodes, n, i + 1, e);
      UnderSplit(e.n, n, i);
    } else {
      NothingPast(e.n, n);
    }
  }

  lemma NothingPast(m: Node, n: Node)
    ensures !Under(m, n, ENTRIES)
  {
  }

  lemma {:induction false} AtChildHas(nodes: set<Node>, n: Node, i: nat, e: Event)
    requires Complete(nodes) && n.level <= 2 && i < ENTRIES && n in nodes
    ensures e in AtChild(nodes, Child(n, i)) <==> DueAt(nodes, Child(n, i), e)
    decreases 3 - n.level, ENTRIES - i, 0
  {
    var c := Child(n, i);
    UnderChildIs(e.n, c);
    if DueAt(nodes, c, e) {
      NothingAbsent(nodes, c, e.n);
    }
    if c in nodes && c.level < 3 {
      TraceHas(nodes, c, 0, e);
    }
  }

  ghost predicate Once(t: seq<Event>) {
    forall i: nat, j: nat | i < j < |t| :: t[i] != t[j]
  }

  lemma OnceJoin(a: seq<Event>, b: seq<Event>)
    requires Once(a) && Once(b) && forall e :: !(e in a && e in b)
    ensures Once(a + b)
  {
    forall i: nat, j: nat | i < j < |a + b| ensures (a + b)[i] != (a + b)[j] {
      if i < |a| && j >= |a| {
        assert a[i] in a && b[j - |a|] in b;
      }
    }
  }

  lemma {:induction false} TraceOnce(nodes: set<Node>, n: Node, i: nat)
    requires Complete(nodes) && n.level <= 2 && i <= ENTRIES && n in nodes
    ensures Once(Trace(nodes, n, i))
    decreases 3 - n.level, ENTRIES - i, 1
  {
    if i < ENTRIES {
      var a, b, c := [Look(n, i)], AtChild(nodes, Child(n, i)), Trace(nodes, n, i + 1);
      TraceStep(nodes, n, i);
      AtChildOnce(nodes, n, i);
      TraceOnce(nodes, n, i + 1);
      forall e ensures !(e in b && e in c) && !(e in a && e in b + c) {
        AtChildHas(nodes, n, i, e);
        TraceHas(nodes, n, i + 1, e);
        UnderSplit(e.n, n, i);
      }
      OnceJoin(b, c);
      OnceJoin(a, b + c);
      assert a + b + c == a + (b + c);
    }
  }

  lemma {:induction false} AtChildOnce(nodes: set<Node>, n: Node, i: nat)
    requires Complete(nodes) && n.level <= 2 && i < ENTRIES && n in nodes
    ensures Once(AtChild(nodes, Child(n, i)))
    decreases 3 - n.level, ENTRIES - i, 0
  {
    var c := Child(n, i);
    if c in nodes && c.level < 3 {
      TraceOnce(nodes, c, 0);
      TraceHas(nodes, c, 0, Enter(c));
      assert !Under(c, c, 0);
      OnceJoin([Enter(c)], Trace(nodes, c, 0));
    }
  }

  /** The whole walk: every entry of levels 0 to 2 is read once, every table of levels 1
      and 2 entered once, every table freed once, and nothing else. */
  lemma WholeWalk(nodes: set<Node>)
    requires Complete(nodes)
    ensures Once(Trace(nodes, ROOT, 0))
    ensures forall e :: e in Trace(nodes, ROOT, 0) <==> Due(nodes, e)
  {
    TraceOnce(nodes, ROOT, 0);
    forall e ensures e in Trace(nodes, ROOT, 0) <==> Due(nodes, e) {
      TraceHas(nodes, ROOT, 0, e);
      UnderChildIs(e.n, ROOT);
      if e.n in nodes {
        AncestorIn(nodes, e.n, 0);
        RootAbove(e.n);
      }
    }
  }

  lemma {:induction false} RootAbove(m: Node)
    ensures Ancestor(m, 0).level == 0
    decreases m.level
  {
    if m.level > 0 {
      RootAbove(Parent(m));
    }
  }

  /** The table itself goes last. */
  lemma {:induction false} OwnLast(nodes: set<Node>, n: Node, i: nat)
    requires n.level <= 2 && i <= ENTRIES
    ensures var t := Trace(nodes, n, i); t != [] && t[|t| - 1] == Free(n)
    decreases ENTRIES - i
  {
    if i < ENTRIES {
      TraceStep(nodes, n, i);
      OwnLast(nodes, n, i + 1);
    }
  }

  // ----- steps -----

  /** Every step ends in one freeing or one entering. */
  ghost function Steps(t: seq<Event>): nat {
    if t == [] then 0 else (if t[0].Look? then 0 else 1) + Steps(t[1..])
  }

  lemma {:induction false} StepsJoin(a: seq<Event>, b: seq<Event>)
    ensures Steps(a + b) == Steps(a) + Steps(b)
  {
    if a == [] {
      assert a + b == b;
    } else {
      StepsJoin(a[1..], b);
      assert (a + b)[1..] == a[1..] + b;
    }
  }

  lemma {:induction false} StepsOfReads(t: seq<Event>)
    requires forall e | e in t :: e.Look?
    ensures Steps(t) == 0
  {
    if t != [] {
      StepsOfReads(t[1..]);
    }
  }

  ghost function Acts(t: seq<Event>): set<Event> {
    set e | e in t && !e.Look?
  }

  lemma {:induction false} StepsAreActs(t: seq<Event>)
    requires Once(t)
    ensures Steps(t) == |Acts(t)|
  {
    if t != [] {
      var u := t[1..];
      StepsAreActs(u);
      assert t == [t[0]] + u && t[0] !in u;
      assert Acts(t) == Acts(u) + (if t[0].Look? then {} else {t[0]});
    }
  }

  ghost function Freeings(nodes: set<Node>): set<Event> {
    set n | n in nodes :: Free(n)
  }

  ghost function Enterings(nodes: set<Node>): set<Event> {
    set n | n in nodes :: Enter(n)
  }

  lemma {:induction false} SameSizes(nodes: set<Node>)
    ensures |Freeings(nodes)| == |nodes| && |Enterings(nodes)| == |nodes|
    decreases nodes
  {
    if nodes != {} {
      var n :| n in nodes;
      var rest := nodes - {n};
      SameSizes(rest);
      assert Freeings(nodes) == Freeings(rest) + {Free(n)};
      assert Enterings(nodes) == Enterings(rest) + {Enter(n)};
    }
  }

  /** Tables below the root that the walk reads. */
  ghost function Inner(nodes: set<Node>): set<Node> {
    set n | n in nodes && 1 <= n.level <= 2
  }

  ghost function Upper(nodes: set<Node>): set<Node> {
    set n | n in nodes && n.level <= 2
  }

  /** The acts of a walk are its freeings and its enterings. */
  lemma ActsAre(nodes: set<Node>, t: seq<Event>)
    requires forall e :: e in t <==> Due(nodes, e)
    ensures Acts(t) == Freeings(nodes) + Enterings(Inner(nodes))
  {
    forall e ensures e in Acts(t) <==> e in Freeings(nodes) + Enterings(Inner(nodes)) {
      assert e in t <==> Due(nodes, e);
    }
  }

  lemma ActsApart(a: set<Node>, b: set<Node>)
    ensures |Freeings(a) + Enterings(b)| == |a| + |b|
  {
    SameSizes(a);
    SameSizes(b);
    assert Freeings(a) !! Enterings(b);
  }

  lemma UpperIsInner(nodes: set<Node>)
    requires Complete(nodes)
    ensures |Upper(nodes)| == |Inner(nodes)| + 1
  {
    assert Upper(nodes) == Inner(nodes) + {ROOT};
  }

  /** The number of steps: the tables but the root, and the tables of levels 0 to 2. */
  lemma WholeSteps(nodes: set<Node>)
    requires Complete(nodes)
    ensures Steps(Trace(nodes, ROOT, 0)) == (|nodes| - 1) + |Upper(nodes)|
  {
    hide Trace, Due, Once, Acts, Freeings, Enterings, Inner, Upper, Complete;
    WholeWalk(nodes);
    StepsAreActs(Trace(nodes, ROOT, 0));
    ActsAre(nodes, Trace(nodes, ROOT, 0));
    ActsApart(nodes, Inner(nodes));
    UpperIsInner(nodes);
  }
}
