/**
 Quiescent-state reclamation: CPUs mark the epoch they see where they hold no pointer, and
 a retired object goes once a scan has found every mark at its epoch or past it. The steps
 are the single atomic accesses, in any interleaving.
 */
module Qsbr {

  /** What an idle CPU shows; no epoch reaches it. */
  const IDLE: nat := 0xFFFF_FFFF_FFFF_FFFF

  /** Where a CPU stands: at work, between the two accesses of quiesce, or idle. */
  datatype Pc = Running | Loaded(mark: nat) | Idling

  datatype Cpu = Cpu(pc: Pc, seen: nat, holds: set<nat>)

  /** Objects go from linked to cut (unlinked, not yet retired) to retired at an epoch; a scan
      for an object has come past some CPUs; then the object is freed. */
  datatype State = State(
    epoch: nat,
    cpus: seq<Cpu>,
    linked: set<nat>,
    cut: set<nat>,
    retired: map<nat, nat>,
    scans: map<nat, nat>, freed: set<nat>)

  datatype Step =
    | Obtain(c: nat, x: nat)
    | Drop(c: nat, x: nat)
    | Load(c: nat)
    | Store(c: nat)
    | GoIdle(c: nat)
    | Link(x: nat)
    | Unlink(x: nat)
    | Retire(x: nat)
    | Look(x: nat)
    | Reclaim(x: nat)

  /** At boot no CPU was quiescent, and any may hold what is linked. */
  ghost predicate Init(s: State) {
    && s.epoch == 1 && s.retired == map[] && s.scans == map[] && s.freed == {} && s.cut == {}
    && forall c: nat | c < |s.cpus| :: s.cpus[c].pc == Running && s.cpus[c].seen == 0 && s.cpus[c].holds <= s.linked
  }

  function ScanAt(s: State, x: nat): nat {
    if x in s.scans then s.scans[x] else 0
  }

  /** What the CPUs and writers may do: pointers come from what is linked, a quiescent point
      is one where the CPU holds none, and an idle CPU does nothing but wake. */
  predicate Enabled(s: State, step: Step) {
    match step
    case Obtain(c, x) => c < |s.cpus| && s.cpus[c].pc == Running && x in s.linked
    case Drop(c, x) => c < |s.cpus| && s.cpus[c].pc == Running
    case Load(c) => c < |s.cpus| && !s.cpus[c].pc.Loaded? && s.cpus[c].holds == {}
    case Store(c) => c < |s.cpus| && s.cpus[c].pc.Loaded?
    case GoIdle(c) => c < |s.cpus| && s.cpus[c].pc == Running && s.cpus[c].holds == {}
    case Link(x) => x !in s.cut && x !in s.retired
    case Unlink(x) => x in s.linked
    case Retire(x) => x in s.cut && s.epoch + 1 < IDLE
    case Look(x) => x in s.retired && x !in s.freed && ScanAt(s, x) < |s.cpus|
    case Reclaim(x) => x in s.retired && x !in s.freed && ScanAt(s, x) == |s.cpus|
  }

  function WithCpu(s: State, c: nat, cpu: Cpu): State
    requires c < |s.cpus|
  {
    s.(cpus := s.cpus[c := cpu])
  }

  function Apply(s: State, step: Step): State
    requires Enabled(s, step)
  {
    match step
    case Obtain(c, x) => WithCpu(s, c, s.cpus[c].(holds := s.cpus[c].holds + {x}))
    case Drop(c, x) => WithCpu(s, c, s.cpus[c].(holds := s.cpus[c].holds - {x}))
    case Load(c) => WithCpu(s, c, s.cpus[c].(pc := Loaded(s.epoch)))
    case Store(c) => WithCpu(s, c, Cpu(Running, s.cpus[c].pc.mark, s.cpus[c].holds))
    case GoIdle(c) => WithCpu(s, c, s.cpus[c].(pc := Idling, seen := IDLE))
    case Link(x) => s.(linked := s.linked + {x})
    case Unlink(x) => s.(linked := s.linked - {x}, cut := s.cut + {x})
    case Retire(x) => s.(epoch := s.epoch + 1, cut := s.cut - {x}, retired := s.retired[x := s.epoch + 1])
    case Look(x) =>
      var p := ScanAt(s, x);
      s.(scans := s.scans[x := if s.cpus[p].seen >= s.retired[x] then p + 1 else 0])
    case Reclaim(x) => s.(freed := s.freed + {x})
  }

  ghost predicate Run(states: seq<State>, steps: seq<Step>) {
    && |states| == |steps| + 1 && Init(states[0])
    && forall i: nat | i < |steps| :: Enabled(states[i], steps[i]) && states[i + 1] == Apply(states[i], steps[i])
  }

  /** A CPU's mark is an epoch it saw, or it is idle or waking, and then it holds nothing. */
  ghost predicate CpuOk(s: State, cpu: Cpu) {
    && (cpu.pc == Running ==> cpu.seen <= s.epoch)
    && (cpu.pc == Idling ==> cpu.seen == IDLE && cpu.holds == {})
    && (cpu.pc.Loaded? ==> cpu.pc.mark <= s.epoch && cpu.holds == {} && (cpu.seen <= s.epoch || cpu.seen == IDLE))
  }

  /** A mark at an object's epoch or past it: the CPU does not hold the object. */
  ghost predicate MarkTells(s: State, x: nat, cpu: Cpu)
    requires x in s.retired
  {
    cpu.seen >= s.retired[x] ==> x !in cpu.holds
  }

  ghost predicate Inv(s: State) {
    && s.epoch < IDLE
    && (forall c: nat | c < |s.cpus| :: CpuOk(s, s.cpus[c]))
    && (forall x | x in s.retired :: s.retired[x] <= s.epoch && x !in s.linked && x !in s.cut)
    && s.cut !! s.linked
    && (forall x, c: nat | x in s.retired && c < |s.cpus| :: MarkTells(s, x, s.cpus[c]))
    && (forall x | x in s.scans :: x in s.retired && s.scans[x] <= |s.cpus|)
    && (forall x, c: nat | x in s.scans && c < s.scans[x] && c < |s.cpus| :: x !in s.cpus[c].holds)
    && (forall x | x in s.freed :: ScanPassed(s, x))
  }

  lemma InitInv(s: State)
    requires Init(s)
    ensures Inv(s)
  {
  }

  lemma CpuStepInv(s: State, step: Step)
    requires Inv(s) && Enabled(s, step) && (step.Obtain? || step.Drop? || step.Load? || step.Store? || step.GoIdle?)
    ensures Inv(Apply(s, step))
  {
    var t := Apply(s, step);
    forall c: nat | c < |t.cpus| ensures CpuOk(t, t.cpus[c]) {
      assert CpuOk(s, s.cpus[c]);
    }
    forall x, c: nat | x in t.retired && c < |t.cpus| ensures MarkTells(t, x, t.cpus[c]) {
      assert MarkTells(s, x, s.cpus[c]) && CpuOk(s, s.cpus[c]);
    }
    forall x, c: nat | x in t.scans && c < t.scans[x] && c < |t.cpus| ensures x !in t.cpus[c].holds {
      assert x !in s.cpus[c].holds;
    }
  }

  lemma RetireInv(s: State, x: nat)
    requires Inv(s) && Enabled(s, Retire(x))
    ensures Inv(Apply(s, Retire(x)))
  {
    var t := Apply(s, Retire(x));
    forall c: nat | c < |t.cpus| ensures CpuOk(t, t.cpus[c]) {
      assert CpuOk(s, s.cpus[c]);
    }
    forall y, c: nat | y in t.retired && c < |t.cpus| ensures MarkTells(t, y, t.cpus[c]) {
      assert CpuOk(s, s.cpus[c]);
      assert y in s.retired ==> MarkTells(s, y, s.cpus[c]);
    }
  }

  lemma LookInv(s: State, x: nat)
    requires Inv(s) && Enabled(s, Look(x))
    ensures Inv(Apply(s, Look(x)))
  {
    var t := Apply(s, Look(x));
    assert forall c: nat | c < |t.cpus| :: CpuOk(s, s.cpus[c]) ==> CpuOk(t, t.cpus[c]);
    forall y, c: nat | y in t.retired && c < |t.cpus| ensures MarkTells(t, y, t.cpus[c]) {
      assert MarkTells(s, y, s.cpus[c]);
    }
    forall y, c: nat | y in t.scans && c < t.scans[y] && c < |t.cpus| ensures y !in t.cpus[c].holds {
      if y == x {
        assert MarkTells(s, x, s.cpus[c]);
        assert c < ScanAt(s, x) ==> x in s.scans && x !in s.cpus[c].holds;
      } else {
        assert y in s.scans;
      }
    }
  }

  lemma ObjectStepInv(s: State, step: Step)
    requires Inv(s) && Enabled(s, step) && (step.Link? || step.Unlink? || step.Reclaim?)
    ensures Inv(Apply(s, step))
  {
    var t := Apply(s, step);
    forall c: nat | c < |t.cpus| ensures CpuOk(t, t.cpus[c]) {
      assert CpuOk(s, s.cpus[c]);
    }
    forall x, c: nat | x in t.retired && c < |t.cpus| ensures MarkTells(t, x, t.cpus[c]) {
      assert MarkTells(s, x, s.cpus[c]);
    }
  }

  lemma StepInv(s: State, step: Step)
    requires Inv(s) && Enabled(s, step)
    ensures Inv(Apply(s, step))
  {
    if step.Obtain? || step.Drop? || step.Load? || step.Store? || step.GoIdle? {
      CpuStepInv(s, step);
    } else if step.Retire? {
      RetireInv(s, step.x);
    } else if step.Look? {
      LookInv(s, step.x);
    } else {
      ObjectStepInv(s, step);
    }
  }

  lemma {:induction false} RunInv(states: seq<State>, steps: seq<Step>, k: nat)
    requires Run(states, steps) && k <= |steps|
    ensures Inv(states[k])
  {
    if k == 0 {
      InitInv(states[0]);
    } else {
      RunInv(states, steps, k - 1);
      StepInv(states[k - 1], steps[k - 1]);
    }
  }

  /** The scan for the object has found every CPU's mark at its epoch or past it. */
  predicate ScanPassed(s: State, x: nat) {
    x in s.retired && ScanAt(s, x) == |s.cpus|
  }

  /** No CPU holds the object, and none can obtain it. */
  ghost predicate Unreachable(s: State, x: nat) {
    && (forall c: nat | c < |s.cpus| :: x !in s.cpus[c].holds)
    && (forall c: nat :: !Enabled(s, Obtain(c, x)))
  }

  lemma PassedUnreachable(s: State, x: nat)
    requires Inv(s) && ScanPassed(s, x)
    ensures Unreachable(s, x)
  {
    if |s.cpus| > 0 {
      assert x in s.scans;
    }
  }

  lemma PassedStays(s: State, step: Step, x: nat)
    requires Inv(s) && Enabled(s, step) && ScanPassed(s, x)
    ensures ScanPassed(Apply(s, step), x)
  {
  }

  lemma {:induction false} PassedOnwards(states: seq<State>, steps: seq<Step>, x: nat, k: nat, l: nat)
    requires Run(states, steps) && k <= l <= |steps| && ScanPassed(states[k], x)
    ensures ScanPassed(states[l], x)
    decreases l
  {
    if k < l {
      PassedOnwards(states, steps, x, k, l - 1);
      RunInv(states, steps, l - 1);
      PassedStays(states[l - 1], steps[l - 1], x);
    }
  }

  /** From the end of its scan on, no CPU holds the object and none ever obtains it. */
  lemma ScannedIsUnreachable(states: seq<State>, steps: seq<Step>, x: nat, k: nat, l: nat)
    requires Run(states, steps) && k <= l <= |steps| && ScanPassed(states[k], x)
    ensures Unreachable(states[l], x)
  {
    PassedOnwards(states, steps, x, k, l);
    RunInv(states, steps, l);
    PassedUnreachable(states[l], x);
  }

  /** No object is freed while a CPU holds it or may still obtain it. */
  lemma NoUseAfterFree(states: seq<State>, steps: seq<Step>, x: nat, k: nat)
    requires Run(states, steps) && k <= |steps| && x in states[k].freed
    ensures Unreachable(states[k], x)
  {
    RunInv(states, steps, k);
    PassedUnreachable(states[k], x);
  }

  // ----- the answer of `passed` itself -----

  /** `passed(epoch)`, read in one instant. */
  predicate Passed(s: State, epoch: nat) {
    forall c | 0 <= c < |s.cpus| :: s.cpus[c].seen >= epoch
  }

  /** No CPU is about to store an older epoch. */
  predicate NoOlderLoad(s: State, epoch: nat) {
    forall c | 0 <= c < |s.cpus| :: s.cpus[c].pc.Loaded? ==> s.cpus[c].pc.mark >= epoch
  }

  lemma PassedIsStable(s: State, step: Step, epoch: nat)
    requires Inv(s) && Enabled(s, step) && epoch <= s.epoch && Passed(s, epoch) && NoOlderLoad(s, epoch)
    ensures Passed(Apply(s, step), epoch) && NoOlderLoad(Apply(s, step), epoch) && epoch <= Apply(s, step).epoch
  {
  }

  /** True stays true exactly when no CPU is between its load and its store with an older
      epoch: then no later step of the run undoes it, and otherwise that CPU's store does. */
  lemma {:induction false} PassedForever(states: seq<State>, steps: seq<Step>, epoch: nat, k: nat, l: nat)
    requires Run(states, steps) && k <= l <= |steps| && epoch <= states[k].epoch
    requires Passed(states[k], epoch) && NoOlderLoad(states[k], epoch)
    ensures Passed(states[l], epoch) && NoOlderLoad(states[l], epoch) && epoch <= states[l].epoch
    decreases l
  {
    if k < l {
      PassedForever(states, steps, epoch, k, l - 1);
      RunInv(states, steps, l - 1);
      PassedIsStable(states[l - 1], steps[l - 1], epoch);
    }
  }

  lemma PassedIsLost(s: State, epoch: nat)
    requires !NoOlderLoad(s, epoch)
    ensures exists c: nat :: Enabled(s, Store(c)) && !Passed(Apply(s, Store(c)), epoch)
  {
    var c :| 0 <= c < |s.cpus| && s.cpus[c].pc.Loaded? && s.cpus[c].pc.mark < epoch;
    assert Apply(s, Store(c)).cpus[c].seen < epoch;
  }

  predicate Next(s: State, step: Step, t: State) {
    Enabled(s, step) && t == Apply(s, step)
  }

  lemma AllNext(states: seq<State>, steps: seq<Step>)
    requires |states| == |steps| + 1 && Init(states[0])
    requires forall i: nat | i < |steps| :: Next(states[i], steps[i], states[i + 1])
    ensures Run(states, steps)
  {
    forall i: nat | i < |steps| ensures Enabled(states[i], steps[i]) && states[i + 1] == Apply(states[i], steps[i]) {
      assert Next(states[i], steps[i], states[i + 1]);
    }
  }

  /** CPU 1 idles and is about to wake with epoch 1. */
  function Waking(epoch: nat, cpu: Cpu, linked: set<nat>, cut: set<nat>, retired: map<nat, nat>): State {
    State(epoch, [cpu, Cpu(Loaded(1), IDLE, {})], linked, cut, retired, map[], {})
  }

  lemma WakingSteps()
    ensures Next(Waking(1, Cpu(Running, 0, {}), {9}, {}, map[]), Unlink(9),
                 Waking(1, Cpu(Running, 0, {}), {}, {9}, map[]))
    ensures Next(Waking(1, Cpu(Running, 0, {}), {}, {9}, map[]), Retire(9),
                 Waking(2, Cpu(Running, 0, {}), {}, {}, map[9 := 2]))
    ensures Next(Waking(2, Cpu(Running, 0, {}), {}, {}, map[9 := 2]), Load(0),
                 Waking(2, Cpu(Loaded(2), 0, {}), {}, {}, map[9 := 2]))
    ensures Next(Waking(2, Cpu(Loaded(2), 0, {}), {}, {}, map[9 := 2]), Store(0),
                 Waking(2, Cpu(Running, 2, {}), {}, {}, map[9 := 2]))
  {
  }

  /** A run in which `passed` was true for an object's epoch and then is not: CPU 1 wakes with
      the epoch it loaded before the retirement. */
  lemma PassedIsNotStable() returns (states: seq<State>, steps: seq<Step>)
    ensures Run(states, steps) && |steps| == 7
    ensures 9 in states[6].retired && Passed(states[6], states[6].retired[9])
    ensures !Passed(states[7], states[6].retired[9])
  {
    var s0 := State(1, [Cpu(Running, 0, {}), Cpu(Running, 0, {})], {9}, {}, map[], map[], {});
    var s1 := State(1, [Cpu(Running, 0, {}), Cpu(Idling, IDLE, {})], {9}, {}, map[], map[], {});
    var s2, s3 := Waking(1, Cpu(Running, 0, {}), {9}, {}, map[]), Waking(1, Cpu(Running, 0, {}), {}, {9}, map[]);
    var s4 := Waking(2, Cpu(Running, 0, {}), {}, {}, map[9 := 2]);
    var s5 := Waking(2, Cpu(Loaded(2), 0, {}), {}, {}, map[9 := 2]);
    var s6 := Waking(2, Cpu(Running, 2, {}), {}, {}, map[9 := 2]);
    var s7 := State(2, [Cpu(Running, 2, {}), Cpu(Running, 1, {})], {}, {}, map[9 := 2], map[], {});
    steps := [GoIdle(1), Load(1), Unlink(9), Retire(9), Load(0), Store(0), Store(1)];
    states := [s0, s1, s2, s3, s4, s5, s6, s7];
    assert Next(s0, GoIdle(1), s1) && Next(s1, Load(1), s2) && Next(s6, Store(1), s7);
    WakingSteps();
    AllNext(states, steps);
    assert s7.cpus[1].seen == 1;
  }

  // ----- a period ends -----

  /** What a CPU loaded, and once it stored what it shows, is at the epoch or past it. */
  ghost predicate Caught(s: State, c: nat, e: nat, stored: bool) {
    && c < |s.cpus| && e <= s.epoch < IDLE
    && (s.cpus[c].pc.Loaded? ==> s.cpus[c].pc.mark >= e) && (stored ==> s.cpus[c].seen >= e)
  }

  lemma CaughtStep(s: State, step: Step, c: nat, e: nat, stored: bool)
    requires Inv(s) && Enabled(s, step) && Caught(s, c, e, stored)
    ensures Caught(Apply(s, step), c, e, stored) && Caught(Apply(s, step), c, e, stored || step == Store(c))
  {
  }

  lemma {:induction false} StaysCaught(states: seq<State>, steps: seq<Step>, c: nat, e: nat, i: nat, k: nat,
                                       stored: bool)
    requires Run(states, steps) && i <= k <= |steps| && Caught(states[i], c, e, stored)
    ensures Caught(states[k], c, e, stored)
    ensures forall j: nat | i <= j < k && steps[j] == Store(c) :: Caught(states[k], c, e, true)
    decreases k - i
  {
    hide Inv, Init, Enabled, Apply, Caught;
    if i < k {
      StaysCaught(states, steps, c, e, i, k - 1, stored);
      RunInv(states, steps, k - 1);
      CaughtStep(states[k - 1], steps[k - 1], c, e, stored);
      forall j: nat | i <= j < k && steps[j] == Store(c) ensures Caught(states[k], c, e, true) {
        if j < k - 1 {
          CaughtStep(states[k - 1], steps[k - 1], c, e, true);
        }
      }
    }
  }

  /** The CPU passed a quiescent point whose load came when the counter was at the epoch or
      past it. */
  ghost predicate QuiescedSince(states: seq<State>, steps: seq<Step>, c: nat, e: nat, k: nat) {
    exists i: nat, j: nat :: i < j < k && Quiesced(states, steps, c, e, i, j)
  }

  ghost predicate Quiesced(states: seq<State>, steps: seq<Step>, c: nat, e: nat, i: nat, j: nat) {
    i < |states| && i < |steps| && j < |steps| && steps[i] == Load(c) && steps[j] == Store(c) && states[i].epoch >= e
  }

  lemma QuiescedShows(states: seq<State>, steps: seq<Step>, c: nat, e: nat, k: nat)
    requires Run(states, steps) && k <= |steps| && QuiescedSince(states, steps, c, e, k)
    ensures c < |states[k].cpus| && states[k].cpus[c].seen >= e
  {
    var i: nat, j: nat :| i < j < k && Quiesced(states, steps, c, e, i, j);
    RunInv(states, steps, i);
    assert Enabled(states[i], steps[i]);
    assert Caught(states[i + 1], c, e, false);
    StaysCaught(states, steps, c, e, i + 1, k, false);
  }

  /** A period ends: once every CPU idles or passed a quiescent point since the counter
      reached the epoch, every mark is at the epoch or past it. */
  lemma PeriodEnds(states: seq<State>, steps: seq<Step>, e: nat, k: nat)
    requires Run(states, steps) && k <= |steps| && e <= states[k].epoch
    requires forall c: nat | c < |states[k].cpus| ::
               states[k].cpus[c].pc == Idling || QuiescedSince(states, steps, c, e, k)
    ensures forall c: nat | c < |states[k].cpus| :: states[k].cpus[c].seen >= e
  {
    RunInv(states, steps, k);
    forall c: nat | c < |states[k].cpus| ensures states[k].cpus[c].seen >= e {
      if states[k].cpus[c].pc == Idling {
        assert CpuOk(states[k], states[k].cpus[c]);
      } else {
        QuiescedShows(states, steps, c, e, k);
      }
    }
  }
}

/** The counter and the marks as they change in place. */
module QsbrMarks {
  import opened Qsbr

  class Grace {
    var epoch: nat
    const seen: array<nat>

    ghost predicate Valid()
      reads this
    {
      1 <= epoch < IDLE
    }

    /** The part of a protocol state that lives here. */
    ghost predicate Shows(s: State)
      reads this, seen
    {
      s.epoch == epoch && |s.cpus| == seen.Length && forall c: nat | c < seen.Length :: s.cpus[c].seen == seen[c]
    }

    constructor (n: nat)
      ensures Valid() && epoch == 1 && fresh(seen) && seen.Length == n && forall c: nat | c < n :: seen[c] == 0
    {
      epoch := 1;
      seen := new nat[n](_ => 0);
    }

    /** The epoch of an object just unlinked. */
    method Retire(ghost s: State, ghost x: nat) returns (e: nat)
      requires Valid() && Shows(s) && Enabled(s, Step.Retire(x))
      modifies `epoch
      ensures Valid() && Shows(Apply(s, Step.Retire(x))) && e == Apply(s, Step.Retire(x)).retired[x]
      ensures e == epoch == old(epoch) + 1
    {
      epoch := epoch + 1;
      e := epoch;
    }

    /** The load and the store of quiesce, with whatever came between. */
    method LoadEpoch(ghost s: State, cpu: nat) returns (mark: nat)
      requires Shows(s) && Enabled(s, Load(cpu))
      ensures Shows(Apply(s, Load(cpu))) && Apply(s, Load(cpu)).cpus[cpu].pc == Loaded(mark) && mark == epoch
    {
      mark := epoch;
    }

    method StoreMark(ghost s: State, cpu: nat, mark: nat)
      requires Shows(s) && Enabled(s, Store(cpu)) && s.cpus[cpu].pc == Loaded(mark)
      modifies seen
      ensures Shows(Apply(s, Store(cpu))) && epoch == old(epoch) && seen[..] == old(seen[..])[cpu := mark]
    {
      seen[cpu] := mark;
    }

    method Idle(ghost s: State, cpu: nat)
      requires Shows(s) && Enabled(s, GoIdle(cpu))
      modifies seen
      ensures Shows(Apply(s, GoIdle(cpu))) && epoch == old(epoch) && seen[..] == old(seen[..])[cpu := IDLE]
    {
      seen[cpu] := IDLE;
    }

    /** Whether the marks of the first `cpus` CPUs are at the epoch or past it. */
    method Passed(e: nat, cpus: nat) returns (b: bool)
      requires cpus <= seen.Length
      ensures b <==> forall c: nat | c < cpus :: seen[c] >= e
    {
      var c := 0;
      while c < cpus
        invariant c <= cpus && forall k: nat | k < c :: seen[k] >= e
      {
        if seen[c] < e {
          return false;
        }
        c := c + 1;
      }
      b := true;
    }
  }
}
