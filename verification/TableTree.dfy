/**
 A four-level translation table tree in word-addressed memory, the walk through it, and
 what one written word does to the walk of every address.
 */
module TableTree {
  import opened Common
  import opened Arithmetic
  import opened Descriptors

  const VA_SPAN: nat := 0x1_0000_0000_0000
  const ENTRIES: nat := 512

  /** An entry of a table: the table by its frame number. */
  datatype Slot = Slot(table: nat, index: nat)

  type Words = map<Slot, Desc>

  function Read(words: Words, s: Slot): Desc {
    if s in words then words[s] else ZERO
  }

  // ----- addresses -----

  /** The bytes an entry of level `l - 1` covers; at `l == 0` the whole space. */
  function Span(l: nat): (n: nat)
    ensures n > 0
  {
    match l
    case 0 => VA_SPAN
    case 1 => 0x80_0000_0000
    case 2 => 0x4000_0000
    case 3 => 0x20_0000
    case _ => PAGE
  }

  /** `(va >> (39 - 9 * level)) & 0x1FF`. */
  function Index(va: nat, level: nat): (i: nat)
    ensures i < ENTRIES
  {
    (va / Span(level + 1)) % ENTRIES
  }

  /** The part of an address that selects its table of level `l`. */
  function Prefix(va: nat, l: nat): nat {
    (va % VA_SPAN) / Span(l)
  }

  /** The spans of neighbouring levels. */
  lemma SpanStep(l: nat)
    requires l <= 3
    ensures Span(l) == Span(l + 1) * ENTRIES
  {
  }

  function Power(l: nat): (n: nat)
    ensures n > 0
  {
    if l == 0 then 1 else ENTRIES * Power(l - 1)
  }

  lemma SpanPower(l: nat)
    requires l <= 4
    ensures Span(l) * Power(l) == VA_SPAN
  {
    if l > 0 {
      SpanPower(l - 1);
      SpanStep(l - 1);
      assert Span(l) * (ENTRIES * Power(l - 1)) == (Span(l) * ENTRIES) * Power(l - 1);
    }
  }

  lemma IndexIs(va: nat, l: nat)
    requires l <= 3
    ensures Prefix(va, l + 1) == ENTRIES * Prefix(va, l) + Index(va, l)
    ensures Prefix(va, l + 1) % ENTRIES == Index(va, l) && Prefix(va, l + 1) / ENTRIES == Prefix(va, l)
    ensures Prefix(va, 0) == 0
  {
    hide Span;
    SpanStep(l);
    SpanPower(l + 1);
    var s := Span(l + 1);
    DivDiv(va % VA_SPAN, s, ENTRIES, Span(l));
    DivDiv(va, s, Power(l + 1), VA_SPAN);
    assert Prefix(va, l + 1) == (va / s) % (ENTRIES * Power(l));
    ModMod(va / s, Power(l));
    assert Span(0) == VA_SPAN by {
      SpanPower(0);
    }
  }

  lemma ModMod(x: nat, k: nat)
    requires k > 0
    ensures (x % (ENTRIES * k)) % ENTRIES == x % ENTRIES
  {
    var q, r := x / (ENTRIES * k), x % (ENTRIES * k);
    assert x == ENTRIES * k * q + r == ENTRIES * (k * q + r / ENTRIES) + r % ENTRIES;
    ModUnique(x, k * q + r / ENTRIES, r % ENTRIES, ENTRIES);
  }

  // ----- the walk -----

  /** What a descriptor that is not a table says about an address, at its level. */
  function Leaf(d: Desc, level: nat, va: nat): Option<(nat, Desc)> {
    if !IsValid(d) || level == 0 || (level >= 3 && !HasTypeBit(d)) then
      None
    else
      var span := Span(level + 1);
      Some(((d.frame * PAGE) / span * span + va % span, d))
  }

  function TranslateFrom(words: Words, table: nat, va: nat, level: nat): Option<(nat, Desc)>
    decreases 3 - level
  {
    var d := Read(words, Slot(table, Index(va, level)));
    if level < 3 && IsTableOrPage(d) then TranslateFrom(words, d.frame, va, level + 1) else Leaf(d, level, va)
  }

  function Translate(words: Words, root: nat, va: nat): Option<(nat, Desc)> {
    TranslateFrom(words, root, va, 0)
  }

  // ----- the tree -----

  /** What an entry that ends a walk says, level by level: 1 GiB, 2 MiB or 4 KiB from the
      aligned address of its frame on, and nothing at level 0 or without the valid bit. */
  lemma LeafIs(d: Desc, va: nat)
    ensures Leaf(d, 0, va) == None
    ensures d.lower & 0x1 == 0 ==> Leaf(d, 1, va) == Leaf(d, 2, va) == Leaf(d, 3, va) == None
    ensures d.lower & 0x1 != 0 ==>
              && Leaf(d, 1, va) == Some((d.frame * 4096 - d.frame * 4096 % 0x4000_0000 + va % 0x4000_0000, d))
              && Leaf(d, 2, va) == Some((d.frame * 4096 - d.frame * 4096 % 0x20_0000 + va % 0x20_0000, d))
              && Leaf(d, 3, va) == if d.lower & 0x2 != 0 then Some((d.frame * 4096 + va % 4096, d)) else None
  {
    TypeBits(d);
    var x := d.frame * PAGE;
    RoundDown(x, 0x4000_0000);
    RoundDown(x, 0x20_0000);
    RoundDown(x, PAGE);
    ModUnique(x, d.frame, 0, PAGE);
    assert Span(2) == 0x4000_0000 && Span(3) == 0x20_0000 && Span(4) == PAGE;
    hide IsTableOrPage, Span;
  }

  lemma RoundDown(x: nat, s: nat)
    requires s > 0
    ensures x / s * s == x - x % s
  {
  }

  /** A table's place: its level and the prefix of the addresses it serves. */
  datatype Node = Node(level: nat, prefix: nat)

  const ROOT := Node(0, 0)

  function Parent(n: Node): Node
    requires n.level > 0
  {
    Node(n.level - 1, n.prefix / ENTRIES)
  }

  function Child(n: Node, i: nat): Node {
    Node(n.level + 1, n.prefix * ENTRIES + i)
  }

  function On(va: nat, l: nat): Node {
    Node(l, Prefix(va, l))
  }

  type Places = map<Node, nat>

  ghost predicate Linked(words: Words, at: Places, n: Node)
    requires n.level > 0 && n in at && Parent(n) in at
  {
    var d := Read(words, Slot(at[Parent(n)], n.prefix % ENTRIES));
    IsTableOrPage(d) && d.frame == at[n]
  }

  ghost predicate Rooted(words: Words, root: nat, at: Places) {
    && ROOT in at && at[ROOT] == root
    && (forall n | n in at :: n.level <= 3 && (n.level == 0 ==> n == ROOT))
    && (forall n | n in at && n.level > 0 :: Parent(n) in at && Linked(words, at, n))
  }

  ghost predicate Closed(words: Words, at: Places) {
    forall n, i: nat | n in at && n.level < 3 && i < ENTRIES && IsTableOrPage(Read(words, Slot(at[n], i))) ::
      Child(n, i) in at
  }

  ghost predicate Injective(at: Places) {
    forall n, k | n in at && k in at && at[n] == at[k] :: n == k
  }

  /** `at` names every table of the tree at `root`, each place its own frame. */
  ghost predicate Tree(words: Words, root: nat, at: Places) {
    Rooted(words, root, at) && Closed(words, at) && Injective(at)
  }

  lemma ParentOn(va: nat, l: nat)
    requires 0 < l <= 4
    ensures Parent(On(va, l)) == On(va, l - 1) && On(va, l).prefix % ENTRIES == Index(va, l - 1)
    ensures Child(On(va, l - 1), Index(va, l - 1)) == On(va, l) && On(va, 0) == ROOT
  {
    IndexIs(va, l - 1);
  }

  /** The walk comes to every table the tree has on the way of the address. */
  lemma {:induction false} Descend(words: Words, root: nat, at: Places, va: nat, l: nat)
    requires Tree(words, root, at) && l <= 3 && On(va, l) in at
    ensures Translate(words, root, va) == TranslateFrom(words, at[On(va, l)], va, l)
  {
    IndexIs(va, 0);
    if l > 0 {
      ParentOn(va, l);
      assert Linked(words, at, On(va, l));
      Descend(words, root, at, va, l - 1);
    }
  }

  /** The slot of an address at a level where the tree has its table. */
  ghost function OnSlot(at: Places, va: nat, l: nat): Slot
    requires On(va, l) in at
  {
    Slot(at[On(va, l)], Index(va, l))
  }

  lemma {:induction false} SameBelow(words: Words, words': Words, root: nat, at: Places, va: nat, l: nat)
    requires Tree(words, root, at) && l <= 3 && On(va, l) in at
    requires forall k: nat | k <= 3 && On(va, k) in at ::
               Read(words', OnSlot(at, va, k)) == Read(words, OnSlot(at, va, k))
    ensures TranslateFrom(words', at[On(va, l)], va, l) == TranslateFrom(words, at[On(va, l)], va, l)
    decreases 3 - l
  {
    assert Read(words', OnSlot(at, va, l)) == Read(words, OnSlot(at, va, l));
    var d := Read(words, OnSlot(at, va, l));
    if l < 3 && IsTableOrPage(d) {
      ParentOn(va, l + 1);
      assert Child(On(va, l), Index(va, l)) in at;
      assert Linked(words, at, On(va, l + 1));
      SameBelow(words, words', root, at, va, l + 1);
    }
  }

  /** The address goes through entry `i` of the table at `n`. */
  predicate Through(va: nat, n: Node, i: nat) {
    On(va, n.level) == n && Index(va, n.level) == i
  }

  /** Through an entry or not: the next prefix tells. */
  lemma ThroughIs(va: nat, v: nat, l: nat)
    requires l <= 3
    ensures Through(v, On(va, l), Index(va, l)) <==> Prefix(v, l + 1) == Prefix(va, l + 1)
  {
    IndexIs(va, l);
    IndexIs(v, l);
  }

  /** A written entry leaves the walk of every address that does not go through it. */
  lemma ElsewhereSame(words: Words, words': Words, root: nat, at: Places, n: Node, i: nat, d: Desc, va: nat)
    requires Tree(words, root, at) && n in at && words' == words[Slot(at[n], i) := d] && !Through(va, n, i)
    ensures Translate(words', root, va) == Translate(words, root, va)
  {
    IndexIs(va, 0);
    forall k: nat | k <= 3 && On(va, k) in at
      ensures Read(words', OnSlot(at, va, k)) == Read(words, OnSlot(at, va, k))
    {
      if OnSlot(at, va, k) == Slot(at[n], i) {
        assert On(va, k) == n;
      }
    }
    SameBelow(words, words', root, at, va, 0);
  }

  // ----- a leaf is written -----

  predicate NoTable(d: Desc, level: nat) {
    level < 3 ==> !IsTableOrPage(d)
  }

  lemma LeafKeepsTree(words: Words, words': Words, root: nat, at: Places, n: Node, i: nat, d: Desc)
    requires Tree(words, root, at) && n in at && i < ENTRIES && words' == words[Slot(at[n], i) := d]
    requires NoTable(d, n.level) && NoTable(Read(words, Slot(at[n], i)), n.level)
    ensures Tree(words', root, at)
  {
    forall k | k in at && k.level > 0 ensures Linked(words', at, k) {
      assert Linked(words, at, k);
      assert k.prefix % ENTRIES < ENTRIES && Parent(k) in at && Parent(k).level < 3;
    }
    forall k, j: nat | k in at && k.level < 3 && j < ENTRIES && IsTableOrPage(Read(words', Slot(at[k], j)))
      ensures Child(k, j) in at
    {
      assert IsTableOrPage(Read(words, Slot(at[k], j)));
    }
  }

  lemma LeafRead(words: Words, words': Words, root: nat, at: Places, n: Node, i: nat, d: Desc, va: nat)
    requires Tree(words', root, at) && n in at && words' == words[Slot(at[n], i) := d]
    requires NoTable(d, n.level) && Through(va, n, i)
    ensures Translate(words', root, va) == Leaf(d, n.level, va)
  {
    Descend(words', root, at, va, n.level);
  }

  /** An entry that is no table decides for every address that goes through it. */
  lemma LeafDecides(words: Words, root: nat, at: Places, n: Node, i: nat, va: nat)
    requires Tree(words, root, at) && n in at && NoTable(Read(words, Slot(at[n], i)), n.level) && Through(va, n, i)
    ensures Translate(words, root, va) == Leaf(Read(words, Slot(at[n], i)), n.level, va)
  {
    Descend(words, root, at, va, n.level);
  }

  // ----- an empty table is linked -----

  ghost predicate Empty(words: Words, table: nat) {
    forall i: nat | i < ENTRIES :: Read(words, Slot(table, i)) == ZERO
  }

  lemma TableDescIs(t: nat)
    requires t < FRAMES
    ensures IsTableOrPage(TableDesc(t)) && TableDesc(t).frame == t
  {
  }

  /** The table's place in the tree before and after; all else as it was. */
  ghost predicate Grafted(words: Words, words': Words, at: Places, at': Places, n: Node, i: nat, t: nat) {
    && n in at && n.level < 3 && i < ENTRIES && t < FRAMES && t !in at.Values && Empty(words, t)
    && Child(n, i) !in at
    && words' == words[Slot(at[n], i) := TableDesc(t)] && at' == at[Child(n, i) := t]
  }

  lemma ChildParent(n: Node, i: nat)
    requires i < ENTRIES
    ensures Parent(Child(n, i)) == n && Child(n, i).prefix % ENTRIES == i
  {
  }

  lemma GraftRooted(words: Words, words': Words, root: nat, at: Places, at': Places, n: Node, i: nat, t: nat)
    requires Tree(words, root, at) && Grafted(words, words', at, at', n, i, t)
    ensures Rooted(words', root, at')
  {
    TableDescIs(t);
    ChildParent(n, i);
    forall k | k in at' && k.level > 0 ensures Parent(k) in at' && Linked(words', at', k) {
      if k != Child(n, i) {
        assert Linked(words, at, k);
        SameSlot(at, n, i, k);
      }
    }
  }

  lemma SameSlot(at: Places, n: Node, i: nat, k: Node)
    requires Injective(at) && n in at && i < ENTRIES && k.level > 0 && k in at && Parent(k) in at && k != Child(n, i)
    ensures Slot(at[Parent(k)], k.prefix % ENTRIES) != Slot(at[n], i)
  {
    assert k == Child(Parent(k), k.prefix % ENTRIES);
  }

  lemma GraftClosed(words: Words, words': Words, root: nat, at: Places, at': Places, n: Node, i: nat, t: nat)
    requires Tree(words, root, at) && Grafted(words, words', at, at', n, i, t)
    ensures Closed(words', at')
  {
    assert at[n] in at.Values;
    forall k, j: nat | k in at' && k.level < 3 && j < ENTRIES
      ensures IsTableOrPage(Read(words', Slot(at'[k], j))) ==> Child(k, j) in at'
    {
      if k == Child(n, i) {
        assert Read(words', Slot(t, j)) == ZERO;
      } else if Slot(at[k], j) == Slot(at[n], i) {
        assert k == n;
      } else {
        assert Read(words', Slot(at[k], j)) == Read(words, Slot(at[k], j));
      }
    }
  }

  lemma GraftInjective(at: Places, at': Places, k: Node, t: nat)
    requires Injective(at) && t !in at.Values && k !in at && at' == at[k := t]
    ensures Injective(at')
  {
    forall a, b | a in at' && b in at' && a != b ensures at'[a] != at'[b] {
      assert a in at ==> at[a] in at.Values;
      assert b in at ==> at[b] in at.Values;
    }
  }

  lemma GraftTree(words: Words, words': Words, root: nat, at: Places, at': Places, n: Node, i: nat, t: nat)
    requires Tree(words, root, at) && Grafted(words, words', at, at', n, i, t)
    ensures Tree(words', root, at')
  {
    GraftRooted(words, words', root, at, at', n, i, t);
    GraftClosed(words, words', root, at, at', n, i, t);
    GraftInjective(at, at', Child(n, i), t);
  }

  /** Linking an empty table at an invalid entry changes no translation. */
  lemma GraftSame(words: Words, words': Words, root: nat, at: Places, at': Places, n: Node, i: nat, t: nat, va: nat)
    requires Tree(words, root, at) && Tree(words', root, at') && Grafted(words, words', at, at', n, i, t)
    requires !IsValid(Read(words, Slot(at[n], i)))
    ensures Translate(words', root, va) == Translate(words, root, va)
  {
    if Through(va, n, i) {
      LeafDecides(words, root, at, n, i, va);
      ParentOn(va, n.level + 1);
      assert On(va, n.level + 1) == Child(n, i);
      assert t != at[n] by {
        assert at[n] in at.Values;
      }
      assert Read(words', Slot(t, Index(va, n.level + 1))) == ZERO;
      Descend(words', root, at', va, n.level + 1);
    } else {
      ElsewhereSame(words, words', root, at, n, i, TableDesc(t), va);
    }
  }
}
