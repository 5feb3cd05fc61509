/**
 The part of the ASIDs that the allocator's lock guards, as a value: which numbers this
 generation has used, where the next search starts, how many numbers are left, and for
 each CPU the tag that a change of generation left it with.
 */
module AsidSpec {
  import opened Common

  /** The most CPUs the kernel runs on. */
  const CPUS: nat := 8

  /** A tag: the generation above bit 16, the number below; the zero word is the void tag. */
  datatype Id = Id(gen: nat, asid: nat)

  const VOID: Id := Id(0, 0)

  datatype Alloc = Alloc(bits: nat, used: set<nat>, next: nat, free: int, reserved: seq<Id>)

  /** One past the largest number of 8- or 16-bit ASIDs. */
  function Limit(bits: nat): nat {
    if bits == 8 then 0x100 else 0x1_0000
  }

  /** The first number in [from, to) that is not used: the linear search. */
  function FirstFree(used: set<nat>, from: nat, to: nat): Option<nat>
    decreases if from < to then to - from else 0
  {
    if from >= to then None
    else if from !in used then Some(from)
    else FirstFree(used, from + 1, to)
  }

  /** The map a generation starts from: only the kernel's number is used. */
  function EmptyMap(a: Alloc): Alloc {
    a.(used := {0}, free := Limit(a.bits) - 1, next := 1)
  }

  function Mark(a: Alloc, i: nat): Alloc {
    if i in a.used then a else a.(used := a.used + {i}, free := a.free - 1)
  }

  function Unmark(a: Alloc, i: nat): Alloc {
    a.(used := a.used - {i}, free := a.free + 1)
  }

  /** The number the next `take` hands out: from `next` on, then once around. */
  function NextFree(a: Alloc): Option<nat> {
    var ahead := FirstFree(a.used, a.next, Limit(a.bits));
    if ahead.Some? then ahead else FirstFree(a.used, 1, a.next)
  }

  /** The allocator after it handed out `i`. */
  function Taken(a: Alloc, i: nat): Alloc {
    Mark(a, i).(next := if i + 1 == Limit(a.bits) then 1 else i + 1)
  }

  function Replace(r: seq<Id>, prev: Id, id: Id): (q: seq<Id>)
    ensures |q| == |r|
    ensures forall i :: 0 <= i < |r| ==> q[i] == if r[i] == prev then id else r[i]
  {
    seq(|r|, i requires 0 <= i < |r| => if r[i] == prev then id else r[i])
  }

  /** Whether some CPU reserved exactly the tag `prev`. */
  predicate Adoptable(a: Alloc, prev: Id) {
    prev != VOID && prev in a.reserved
  }

  /** Every reservation of `prev` moves to its number in generation `gen`. */
  function Adopted(a: Alloc, gen: nat, prev: Id): Alloc {
    a.(reserved := Replace(a.reserved, prev, Id(gen, prev.asid)))
  }

  /** A new generation keeps what CPU `cpu` was running, or what it kept before. */
  function Keep(a: Alloc, cpu: nat, running: Id): Alloc
    requires cpu < |a.reserved|
  {
    var r := if running != VOID then a.reserved[cpu := running] else a.reserved;
    var b := a.(reserved := r);
    if r[cpu] != VOID then Mark(b, r[cpu].asid) else b
  }

  /** The reservations without the tag `id`. */
  function Dropped(a: Alloc, id: Id): Alloc {
    a.(reserved := Replace(a.reserved, id, VOID))
  }

  /** What every map of used numbers satisfies: the kernel's number is used and the count
      of free numbers is the count of clear bits. */
  ghost predicate MapOk(a: Alloc) {
    && (a.bits == 8 || a.bits == 16)
    && 0 in a.used
    && (forall i <- a.used :: i < Limit(a.bits))
    && |a.used| + a.free == Limit(a.bits)
    && 1 <= a.next < Limit(a.bits)
    && |a.reserved| == CPUS
  }

  /** FirstFree is the least clear number of the range, and None means there is none. */
  lemma {:induction false} FirstFreeIsLeast(used: set<nat>, from: nat, to: nat)
    ensures match FirstFree(used, from, to) {
              case Some(i) => from <= i < to && i !in used && forall j: nat :: from <= j < i ==> j in used
              case None => forall j: nat :: from <= j < to ==> j in used
            }
    decreases if from < to then to - from else 0
  {
    if from < to && from in used {
      FirstFreeIsLeast(used, from + 1, to);
    }
  }

  /** The numbers [0, n) as a set of exactly n elements. */
  lemma {:induction false} NumbersBelow(n: nat) returns (s: set<nat>)
    ensures forall i: nat :: i in s <==> i < n
    ensures |s| == n
  {
    if n == 0 {
      s := {};
    } else {
      var t := NumbersBelow(n - 1);
      s := t + {n - 1};
    }
  }

  lemma SubsetSize(a: set<nat>, b: set<nat>)
    requires a <= b
    ensures |a| <= |b|
    ensures |a| == |b| ==> a == b
  {
    assert b == a + (b - a);
    assert |b| == |a| + |b - a|;
    if |a| == |b| {
      assert b - a == {};
    }
  }

  /** The first free number from `next` on, and one below `next` only when none is ahead. */
  ghost predicate FirstAround(a: Alloc, i: nat) {
    && 1 <= i < Limit(a.bits) && i !in a.used
    && (a.next <= i ==> forall j: nat | a.next <= j < i :: j in a.used)
    && (i < a.next ==>
          && (forall j: nat | a.next <= j < Limit(a.bits) :: j in a.used)
          && (forall j: nat | 1 <= j < i :: j in a.used))
  }

  /** The `expect` in `take` never fires: a positive count means the search finds a number,
      the first one around from `next`, which is never the kernel's. */
  lemma NextFreeFinds(a: Alloc)
    requires MapOk(a) && a.free > 0
    ensures NextFree(a).Some? && FirstAround(a, NextFree(a).value)
  {
    FirstFreeIsLeast(a.used, a.next, Limit(a.bits));
    FirstFreeIsLeast(a.used, 1, a.next);
    if NextFree(a).None? {
      var all := NumbersBelow(Limit(a.bits));
      assert all <= a.used;
      SubsetSize(all, a.used);
      assert false;
    }
  }

  lemma MarkKeepsMap(a: Alloc, i: nat)
    requires MapOk(a) && i < Limit(a.bits)
    ensures MapOk(Mark(a, i)) && i in Mark(a, i).used && a.used <= Mark(a, i).used
  {
    assert i !in a.used ==> |a.used + {i}| == |a.used| + 1;
  }

  lemma UnmarkKeepsMap(a: Alloc, i: nat)
    requires MapOk(a) && i in a.used && i != 0
    ensures MapOk(Unmark(a, i))
  {
    assert |a.used - {i}| == |a.used| - 1;
  }

  /** A generation that has reserved for `n` CPUs still has numbers to hand out. */
  ghost predicate Roomy(a: Alloc, n: nat) {
    a.free >= Limit(a.bits) - 1 - n
  }

  lemma EmptyMapOk(a: Alloc)
    requires (a.bits == 8 || a.bits == 16) && |a.reserved| == CPUS
    ensures MapOk(EmptyMap(a)) && Roomy(EmptyMap(a), 0)
  {
  }
}
