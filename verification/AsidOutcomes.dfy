/**
 What a switch, an activation and a release come to, in terms of the words and the map they
 find: who keeps a number, who gets which, when a generation begins and who owes a flush.
 */
module AsidOutcomes {
  import opened Common
  import opened AsidSpec
  import opened AsidProtocol

  // ----- one call -----

  /** What each CPU keeps across a change of generation: what it runs, or what it kept. */
  function KeptAcross(active: seq<Id>, reserved: seq<Id>): (q: seq<Id>)
    requires |active| == |reserved|
    ensures |q| == |reserved|
    ensures forall k: nat | k < |q| :: q[k] == if active[k] != VOID then active[k] else reserved[k]
  {
    seq(|reserved|, k requires 0 <= k < |reserved| => if active[k] != VOID then active[k] else reserved[k])
  }

  ghost function Numbers(q: seq<Id>, from: nat): set<nat> {
    set k: nat | from <= k < |q| && q[k] != VOID :: q[k].asid
  }

  /** The map a generation starts with: only the kernel's number and the kept ones are used. */
  ghost function StartOf(a: Alloc, active: seq<Id>): Alloc
    requires |active| == |a.reserved|
  {
    var kept := KeptAcross(active, a.reserved);
    var used := {0} + Numbers(kept, 0);
    Alloc(a.bits, used, 1, Limit(a.bits) - |used|, kept)
  }

  predicate IsReserved(a: Alloc, id: Id) {
    id != VOID && id in a.reserved
  }

  ghost predicate Moved(r: seq<Id>, prev: Id, id: Id, r': seq<Id>) {
    |r'| == |r| && forall k: nat | k < |r| :: r'[k] == if r[k] == prev then id else r[k]
  }

  /** The tag of an earlier generation becomes `id`: with its own number when a CPU reserved
      it, else with the first free one. */
  ghost predicate Numbered(a: Alloc, gen: nat, prev: Id, a': Alloc, id: Id) {
    && id.gen == gen && a'.bits == a.bits
    && if IsReserved(a, prev) then
         id.asid == prev.asid && a'.used == a.used && a'.next == a.next && a'.free == a.free
         && Moved(a.reserved, prev, id, a'.reserved)
       else
         FirstAround(a, id.asid) && a'.used == a.used + {id.asid} && a'.free == a.free - 1
         && a'.next == (if id.asid + 1 == Limit(a.bits) then 1 else id.asid + 1) && a'.reserved == a.reserved
  }

  /** A generation begins: the tag is neither current nor reserved, and no number is free. */
  predicate Raises(a: Alloc, gen: nat, prev: Id) {
    prev.gen != gen && !IsReserved(a, prev) && a.free == 0
  }

  /** activate on CPU `cpu` for a space with tag `prev`. */
  ghost predicate Activation(cpu: nat, prev: Id, gen: nat, pending: set<nat>, active: seq<Id>, a: Alloc,
                             id: Id, flush: bool, gen': nat, pending': set<nat>, active': seq<Id>, a': Alloc)
    requires |active| == |a.reserved|
  {
    var raised := Raises(a, gen, prev);
    && gen' == (if raised then gen + 1 else gen)
    && (flush <==> cpu in pending || raised)
    && pending' == (if raised then ALL_CPUS else pending) - {cpu}
    && |active'| == |active|
    && (forall k: nat | k < |active| :: active'[k] == if k == cpu then id else if raised then VOID else active[k])
    && (if prev.gen == gen then id == prev && a' == a
        else Numbered(if raised then StartOf(a, active) else a, gen', prev, a', id))
  }

  /** release of a tag: the number comes back exactly when the tag owns it. */
  ghost predicate Dropping(id: Id, gen: nat, active: seq<Id>, a: Alloc, r: Option<nat>, active': seq<Id>, a': Alloc) {
    var owned := id != VOID && (id.gen == gen || id in a.reserved);
    && r == (if owned then Some(id.asid) else None)
    && Moved(active, id, VOID, active') && Moved(a.reserved, id, VOID, a'.reserved)
    && a'.used == (if owned then a.used - {id.asid} else a.used) && a'.free == (if owned then a.free + 1 else a.free)
    && a'.bits == a.bits && a'.next == a.next
  }

  // ----- over a run -----

  /** CPU `c` makes no step of its own between two steps; its TLB may fill. */
  ghost predicate Quiet(steps: seq<Step>, c: nat, i: nat, j: nat) {
    forall m: nat | i < m < j && m < |steps| :: steps[m].c != c || steps[m].Fill?
  }

  lemma PcOfOthers(st: State, step: Step, c: nat)
    requires Enabled(st, step) && c < CPUS && (step.c != c || step.Fill?)
    ensures Apply(st, step).pc[c] == st.pc[c]
  {
  }

  lemma ShapeStays(st: State, step: Step)
    requires Enabled(st, step)
    ensures Shape(Apply(st, step))
  {
  }

  lemma {:induction false} PcStays(states: seq<State>, steps: seq<Step>, c: nat, i: nat, j: nat)
    requires Run(states, steps) && c < CPUS && i < j <= |steps| && Quiet(steps, c, i, j)
    ensures Shape(states[i + 1]) && Shape(states[j]) && states[j].pc[c] == states[i + 1].pc[c]
    decreases j - i
  {
    hide Enabled, Apply, Init;
    if j == i + 1 {
      ShapeStays(states[i], steps[i]);
    } else {
      PcStays(states, steps, c, i, j - 1);
      ShapeStays(states[j - 1], steps[j - 1]);
      PcOfOthers(states[j - 1], steps[j - 1], c);
    }
  }

  /** The lock-free switch in any interleaving: CPU `c` reads the tag of `s` at `i` and its
      active word at `j`, looks at the generation at `k` and swaps at `l`. It wins exactly
      when its word was not empty, the tag is current at `k` and its word at `l` is what it
      was at `j`; then its word holds the tag. Else it goes for the lock. */
  lemma FastOutcome(states: seq<State>, steps: seq<Step>, c: nat, s: Space, i: nat, j: nat, k: nat, l: nat)
    requires Run(states, steps) && c < CPUS && i < j < k < l < |steps|
    requires steps[i] == FastTag(c, s) && Quiet(steps, c, i, j) && Quiet(steps, c, j, k) && Quiet(steps, c, k, l)
    requires steps[j].c == c && !steps[j].Fill? && steps[k].c == c && !steps[k].Fill?
    requires steps[l].c == c && !steps[l].Fill?
    ensures Shape(states[i]) && Shape(states[j]) && Shape(states[k]) && Shape(states[l]) && Shape(states[j + 1])
    ensures Shape(states[k + 1]) && Shape(states[l + 1])
    ensures steps[j] == FastActive(c)
    ensures states[j].active[c] == VOID ==> states[j + 1].pc[c] == WantLock(s)
    ensures states[j].active[c] != VOID ==>
              && steps[k] == FastCheck(c)
              && (Tag(states[i], s).gen != states[k].gen ==> states[k + 1].pc[c] == WantLock(s))
              && (Tag(states[i], s).gen == states[k].gen ==>
                    && steps[l] == FastSwap(c)
                    && (if states[l].active[c] == states[j].active[c] then
                          && states[l + 1].pc[c] == Won(s, Tag(states[i], s))
                          && states[l + 1].active[c] == Tag(states[i], s)
                        else
                          states[l + 1].pc[c] == WantLock(s) && states[l + 1].active[c] == states[l].active[c]))
  {
    PcStays(states, steps, c, i, j);
    PcStays(states, steps, c, j, k);
    PcStays(states, steps, c, k, l);
    ShapeStays(states[l], steps[l]);
    assert Enabled(states[i], steps[i]) && Enabled(states[j], steps[j]);
    assert Enabled(states[k], steps[k]) && Enabled(states[l], steps[l]);
  }

  /** A generation began, and CPU `c` has not activated anything since. */
  ghost predicate BegunSince(steps: seq<Step>, c: nat, k: nat) {
    exists j: nat :: j < k && j < |steps| && steps[j].GenFlush? && NoMine(steps, c, j, k)
  }

  ghost predicate NoMine(steps: seq<Step>, c: nat, j: nat, k: nat) {
    forall m: nat | j < m < k && m < |steps| :: steps[m] != SlowMine(c)
  }

  lemma PendingStep(st: State, step: Step, c: nat)
    requires Enabled(st, step) && c < CPUS
    ensures c in Apply(st, step).pending <==> step.GenFlush? || (c in st.pending && step != SlowMine(c))
  {
  }

  /** Who owes a flush, at any moment of any run. */
  lemma {:induction false} PendingIs(states: seq<State>, steps: seq<Step>, c: nat, k: nat)
    requires Run(states, steps) && c < CPUS && k <= |steps|
    ensures c in states[k].pending <==> BegunSince(steps, c, k)
    decreases k
  {
    hide Enabled, Apply;
    if k > 0 {
      PendingIs(states, steps, c, k - 1);
      PendingStep(states[k - 1], steps[k - 1], c);
      SinceStep(steps, c, k - 1);
    }
  }

  lemma SinceStep(steps: seq<Step>, c: nat, k: nat)
    requires k < |steps|
    ensures BegunSince(steps, c, k + 1) <==> steps[k].GenFlush? || (BegunSince(steps, c, k) && steps[k] != SlowMine(c))
  {
    if steps[k].GenFlush? {
      assert NoMine(steps, c, k, k + 1);
    } else {
      if BegunSince(steps, c, k + 1) {
        var j: nat :| j < k + 1 && j < |steps| && steps[j].GenFlush? && NoMine(steps, c, j, k + 1);
        assert NoMine(steps, c, j, k);
      }
      if BegunSince(steps, c, k) && steps[k] != SlowMine(c) {
        var j: nat :| j < k && j < |steps| && steps[j].GenFlush? && NoMine(steps, c, j, k);
        assert NoMine(steps, c, j, k + 1);
      }
    }
  }

  /** In any interleaving an activation asks for a flush exactly when a generation began
      since the CPU's last one. */
  lemma FlushExactly(states: seq<State>, steps: seq<Step>, c: nat, k: nat)
    requires Run(states, steps) && c < CPUS && k < |steps| && steps[k] == SlowMine(c)
    ensures Shape(states[k + 1]) && states[k + 1].pc[c].Activate?
    ensures states[k + 1].pc[c].flush <==> BegunSince(steps, c, k)
  {
    PendingIs(states, steps, c, k);
    assert Enabled(states[k], steps[k]);
  }
}
