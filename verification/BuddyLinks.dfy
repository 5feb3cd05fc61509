/**
 The free lists: doubly linked through the free frames themselves. The first word of a free
 block names the next block of its order, the second the previous one.
 */
module BuddyLinks {

  const NIL: nat := 0xFFFF_FFFF_FFFF_FFFF

  /** A physical address as the frame it lies in and the offset in the frame. */
  datatype Address = Address(frame: nat, offset: nat)

  type Memory = map<Address, nat>

  function Read(mem: Memory, pa: Address): nat {
    if pa in mem then mem[pa] else 0
  }

  function NextAt(p: nat): Address { Address(p, 0) }
  function PrevAt(p: nat): Address { Address(p, 8) }

  function NextIn(l: seq<nat>, i: nat): nat
    requires i < |l|
  {
    if i + 1 < |l| then l[i + 1] else NIL
  }

  function PrevIn(l: seq<nat>, i: nat): nat
    requires i < |l|
  {
    if i > 0 then l[i - 1] else NIL
  }

  /** The words of the blocks of `l` link them in order, from `head` on. */
  ghost predicate Chain(mem: Memory, l: seq<nat>, head: nat) {
    && head == (if l == [] then NIL else l[0])
    && forall i: nat | i < |l| :: Read(mem, NextAt(l[i])) == NextIn(l, i) && Read(mem, PrevAt(l[i])) == PrevIn(l, i)
  }

  ghost predicate Distinct(l: seq<nat>) {
    forall i: nat, j: nat | i < j < |l| :: l[i] != l[j]
  }

  function Without(l: seq<nat>, i: nat): seq<nat>
    requires i < |l|
  {
    l[..i] + l[i + 1..]
  }

  /** Memory that changed in no word of a block of `l`. */
  lemma ChainSame(mem: Memory, mem': Memory, l: seq<nat>, head: nat)
    requires Chain(mem, l, head)
    requires forall p | p in l ::
               Read(mem', NextAt(p)) == Read(mem, NextAt(p)) && Read(mem', PrevAt(p)) == Read(mem, PrevAt(p))
    ensures Chain(mem', l, head)
  {
  }

  // ----- push -----

  function PushMem(mem: Memory, p: nat, head: nat): Memory {
    var m := mem[NextAt(p) := head][PrevAt(p) := NIL];
    if head != NIL then m[PrevAt(head) := p] else m
  }

  lemma PushWords(mem: Memory, p: nat, head: nat, x: nat)
    requires p != head
    ensures var n := PushMem(mem, p, head);
            && Read(n, NextAt(x)) == (if x == p then head else Read(mem, NextAt(x)))
            && Read(n, PrevAt(x))
              == (if x == p then NIL else if x == head && head != NIL then p else Read(mem, PrevAt(x)))
  {
  }

  lemma PushChain(mem: Memory, l: seq<nat>, head: nat, p: nat)
    requires Chain(mem, l, head) && p !in l && NIL !in l && p != NIL && Distinct(l)
    ensures Chain(PushMem(mem, p, head), [p] + l, p) && Distinct([p] + l)
  {
    var n, k := PushMem(mem, p, head), [p] + l;
    PushWords(mem, p, head, p);
    forall i: nat | i < |k| ensures Read(n, NextAt(k[i])) == NextIn(k, i) && Read(n, PrevAt(k[i])) == PrevIn(k, i) {
      if i > 0 {
        PushWords(mem, p, head, l[i - 1]);
        assert i > 1 ==> l[i - 1] != l[0];
      }
    }
  }

  lemma PushOther(mem: Memory, l: seq<nat>, head: nat, p: nat, k: seq<nat>, top: nat)
    requires Chain(mem, l, head) && Chain(mem, k, top) && p !in k && p !in l && p != NIL
    requires forall x | x in k :: x !in l
    ensures Chain(PushMem(mem, p, head), k, top)
  {
    var n := PushMem(mem, p, head);
    forall x | x in k ensures Read(n, NextAt(x)) == Read(mem, NextAt(x)) && Read(n, PrevAt(x)) == Read(mem, PrevAt(x)) {
      PushWords(mem, p, head, x);
    }
    ChainSame(mem, n, k, top);
  }

  // ----- unlink -----

  function UnlinkMem(mem: Memory, p: nat): Memory {
    var next, prev := Read(mem, NextAt(p)), Read(mem, PrevAt(p));
    var m := if prev == NIL then mem else mem[NextAt(prev) := next];
    if next != NIL then m[PrevAt(next) := prev] else m
  }

  function UnlinkHead(mem: Memory, p: nat, head: nat): nat {
    if Read(mem, PrevAt(p)) == NIL then Read(mem, NextAt(p)) else head
  }

  lemma UnlinkEffect(mem: Memory, p: nat, x: nat)
    ensures var next, prev := Read(mem, NextAt(p)), Read(mem, PrevAt(p)); var n := UnlinkMem(mem, p);
            && Read(n, NextAt(x)) == (if x == prev && prev != NIL then next else Read(mem, NextAt(x)))
            && Read(n, PrevAt(x)) == (if x == next && next != NIL then prev else Read(mem, PrevAt(x)))
  {
  }

  /** After the unlink the words around place `i` skip it. */
  lemma UnlinkWords(mem: Memory, l: seq<nat>, head: nat, i: nat, j: nat)
    requires Chain(mem, l, head) && Distinct(l) && NIL !in l && i < |l| && j < |l| && j != i
    ensures var n := UnlinkMem(mem, l[i]);
            && Read(n, NextAt(l[j])) == (if j + 1 == i then NextIn(l, i) else NextIn(l, j))
            && Read(n, PrevAt(l[j])) == (if j == i + 1 then PrevIn(l, i) else PrevIn(l, j))
  {
    UnlinkEffect(mem, l[i], l[j]);
    assert i > 0 && j != i - 1 ==> l[i - 1] != l[j];
    assert i + 1 < |l| && j != i + 1 ==> l[i + 1] != l[j];
  }

  lemma UnlinkChain(mem: Memory, l: seq<nat>, head: nat, i: nat)
    requires Chain(mem, l, head) && Distinct(l) && NIL !in l && i < |l|
    ensures Chain(UnlinkMem(mem, l[i]), Without(l, i), UnlinkHead(mem, l[i], head))
    ensures Distinct(Without(l, i)) && forall x :: x in Without(l, i) <==> x in l && x != l[i]
  {
    var n, k := UnlinkMem(mem, l[i]), Without(l, i);
    WithoutIs(l, i);
    forall a: nat | a < |k| ensures Read(n, NextAt(k[a])) == NextIn(k, a) && Read(n, PrevAt(k[a])) == PrevIn(k, a) {
      UnlinkWords(mem, l, head, i, if a < i then a else a + 1);
    }
    assert Read(mem, NextAt(l[i])) == NextIn(l, i) && Read(mem, PrevAt(l[i])) == PrevIn(l, i);
  }

  lemma WithoutIs(l: seq<nat>, i: nat)
    requires i < |l| && Distinct(l)
    ensures var k := Without(l, i);
            && |k| == |l| - 1 && Distinct(k)
            && (forall a: nat | a < |k| :: k[a] == l[if a < i then a else a + 1])
            && forall x :: x in k <==> x in l && x != l[i]
  {
    var k := Without(l, i);
    forall x ensures x in k <==> x in l && x != l[i] {
      if x in l && x != l[i] {
        var j: nat :| j < |l| && l[j] == x;
        assert k[if j < i then j else j - 1] == x;
      }
    }
  }

  lemma UnlinkOther(mem: Memory, l: seq<nat>, head: nat, i: nat, k: seq<nat>, top: nat)
    requires Chain(mem, l, head) && NIL !in l && i < |l| && Chain(mem, k, top)
    requires forall x | x in k :: x !in l
    ensures Chain(UnlinkMem(mem, l[i]), k, top)
  {
    var n := UnlinkMem(mem, l[i]);
    assert Read(mem, NextAt(l[i])) == NextIn(l, i) && Read(mem, PrevAt(l[i])) == PrevIn(l, i);
    forall x | x in k ensures Read(n, NextAt(x)) == Read(mem, NextAt(x)) && Read(n, PrevAt(x)) == Read(mem, PrevAt(x)) {
      UnlinkEffect(mem, l[i], x);
    }
    ChainSame(mem, n, k, top);
  }
}
