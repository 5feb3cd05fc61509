/**
 A lock of two 16-bit counters that wrap: one is raised by each CPU that comes, the other by
 each that leaves, and a CPU is in while the second equals what it raised the first from.
 The steps are the single atomic accesses, in any interleaving.
 */
module Ticket {

  const NUMBERS: nat := 0x1_0000

  datatype Phase = Out | Waiting(ticket: nat) | Holding(ticket: nat)

  /** `queue` and the two logs record history: the CPUs with tickets not yet given back, in the
      order taken, all that ever took one, and all that ever entered. */
  datatype State = State(next: nat, serving: nat, cpus: seq<Phase>, queue: seq<nat>, took: seq<nat>, entered: seq<nat>)

  datatype Step = Take(c: nat) | Enter(c: nat) | Leave(c: nat)

  ghost predicate Init(s: State) {
    && s.next == 0 && s.serving == 0 && s.queue == [] && s.took == [] && s.entered == []
    && |s.cpus| <= NUMBERS && forall c: nat | c < |s.cpus| :: s.cpus[c] == Out
  }

  predicate Enabled(s: State, step: Step) {
    && step.c < |s.cpus|
    && match step
       case Take(c) => s.cpus[c] == Out
       case Enter(c) => s.cpus[c].Waiting? && s.serving == s.cpus[c].ticket
       case Leave(c) => s.cpus[c].Holding?
  }

  function Next(n: nat): nat {
    (n + 1) % NUMBERS
  }

  function Without(q: seq<nat>, c: nat): seq<nat> {
    if q != [] && q[0] == c then q[1..] else q
  }

  function Apply(s: State, step: Step): State
    requires Enabled(s, step)
  {
    match step
    case Take(c) =>
      s.(next := Next(s.next), cpus := s.cpus[c := Waiting(s.next)], queue := s.queue + [c], took := s.took + [c])
    case Enter(c) =>
      s.(cpus := s.cpus[c := Holding(s.cpus[c].ticket)], entered := s.entered + [c])
    case Leave(c) =>
      s.(serving := Next(s.cpus[c].ticket), cpus := s.cpus[c := Out], queue := Without(s.queue, c))
  }

  ghost predicate Run(states: seq<State>, steps: seq<Step>) {
    && |states| == |steps| + 1 && Init(states[0])
    && forall i: nat | i < |steps| :: Enabled(states[i], steps[i]) && states[i + 1] == Apply(states[i], steps[i])
  }

  ghost predicate Distinct(q: seq<nat>) {
    forall i: nat, j: nat | i < j < |q| :: q[i] != q[j]
  }

  predicate Holds(s: State, c: nat) {
    c < |s.cpus| && s.cpus[c].Holding?
  }

  /** The CPU at place `k` of the queue has the `k`th ticket from the number served on. */
  ghost predicate AtPlace(cpus: seq<Phase>, serving: nat, c: nat, k: nat) {
    c < |cpus| && cpus[c] != Out && cpus[c].ticket == (serving + k) % NUMBERS && (cpus[c].Holding? ==> k == 0)
  }

  /** The CPUs in the queue have consecutive tickets from the number served on. */
  ghost predicate Ordered(s: State) {
    && Distinct(s.queue)
    && (forall k: nat | k < |s.queue| :: AtPlace(s.cpus, s.serving, s.queue[k], k))
    && (forall c: nat | c < |s.cpus| && s.cpus[c] != Out :: c in s.queue)
    && s.next == (s.serving + |s.queue|) % NUMBERS && s.serving < NUMBERS
  }

  /** Who left is who took a ticket first; the holder is the next of them. */
  ghost predicate Logged(s: State) {
    && |s.took| >= |s.queue|
    && s.took[|s.took| - |s.queue|..] == s.queue
    && s.entered == s.took[..|s.took| - |s.queue| + (if s.queue != [] && Holds(s, s.queue[0]) then 1 else 0)]
  }

  ghost predicate Inv(s: State) {
    |s.cpus| <= NUMBERS && Ordered(s) && Logged(s)
  }

  lemma InitInv(s: State)
    requires Init(s)
    ensures Inv(s)
  {
  }

  lemma {:induction false} QueueShort(q: seq<nat>, n: nat)
    requires Distinct(q) && forall k: nat | k < |q| :: q[k] < n
    ensures |q| <= n
    decreases n
  {
    if q == [] {
      return;
    }
    assert q[0] < n;
    if n - 1 in q {
      var i: nat :| i < |q| && q[i] == n - 1;
      var r := q[..i] + q[i + 1..];
      forall a: nat, b: nat | a < b < |r| ensures r[a] != r[b] {
        assert r[a] == q[if a < i then a else a + 1] && r[b] == q[if b < i then b else b + 1];
      }
      forall k: nat | k < |r| ensures r[k] < n - 1 {
        assert r[k] == q[if k < i then k else k + 1];
      }
      QueueShort(r, n - 1);
    } else {
      forall k: nat | k < |q| ensures q[k] < n - 1 {
        assert q[k] in q;
      }
      QueueShort(q, n - 1);
    }
  }

  /** A waiting CPU whose ticket is served is the first of the queue: numbers repeat only
      after as many CPUs as there are numbers. */
  lemma ServedIsFirst(s: State, c: nat)
    requires Inv(s) && c < |s.cpus| && s.cpus[c] != Out && s.cpus[c].ticket == s.serving
    ensures s.queue != [] && s.queue[0] == c
  {
    assert c in s.queue;
    var k: nat :| k < |s.queue| && s.queue[k] == c;
    QueueShort(s.queue, |s.cpus|);
    if k > 0 {
      WrapDiffers(s.serving, k);
    }
  }

  lemma WrapDiffers(n: nat, k: nat)
    requires n < NUMBERS && 0 < k < NUMBERS
    ensures (n + k) % NUMBERS != n
  {
  }

  lemma NextShift(n: nat, k: nat)
    requires n < NUMBERS
    ensures (Next(n) + k) % NUMBERS == (n + k + 1) % NUMBERS
  {
  }

  lemma TakePlace(s: State, t: State, c: nat, k: nat)
    requires Inv(s) && Enabled(s, Take(c)) && t == Apply(s, Take(c)) && k < |t.queue|
    ensures AtPlace(t.cpus, t.serving, t.queue[k], k) && (k < |s.queue| ==> s.queue[k] != c)
  {
    if k < |s.queue| {
      assert AtPlace(s.cpus, s.serving, s.queue[k], k);
    }
  }

  lemma TakeOrdered(s: State, t: State, c: nat)
    requires Inv(s) && Enabled(s, Take(c)) && t == Apply(s, Take(c))
    ensures Ordered(t) && c !in s.queue
  {
    hide Logged, AtPlace;
    forall k: nat | k < |t.queue|
      ensures AtPlace(t.cpus, t.serving, t.queue[k], k) && (k < |s.queue| ==> s.queue[k] != c)
    {
      TakePlace(s, t, c, k);
    }
    forall d: nat | d < |t.cpus| && t.cpus[d] != Out ensures d in t.queue {
      if d == c {
        assert t.queue[|s.queue|] == c;
      } else {
        assert d in s.queue;
      }
    }
    NextShift(s.serving, |s.queue|);
  }

  lemma TakeLogged(s: State, t: State, c: nat)
    requires Inv(s) && Enabled(s, Take(c)) && t == Apply(s, Take(c)) && c !in s.queue
    ensures Logged(t)
  {
    assert t.took[|t.took| - |t.queue|..] == s.took[|s.took| - |s.queue|..] + [c];
    if s.queue != [] {
      assert AtPlace(s.cpus, s.serving, s.queue[0], 0);
      assert Holds(t, t.queue[0]) == Holds(s, s.queue[0]);
    }
  }

  lemma TakeInv(s: State, c: nat)
    requires Inv(s) && Enabled(s, Take(c))
    ensures Inv(Apply(s, Take(c)))
  {
    hide Ordered, Logged;
    TakeOrdered(s, Apply(s, Take(c)), c);
    TakeLogged(s, Apply(s, Take(c)), c);
  }

  lemma EnterInv(s: State, c: nat)
    requires Inv(s) && Enabled(s, Enter(c))
    ensures Inv(Apply(s, Enter(c)))
  {
    ServedIsFirst(s, c);
    var t := Apply(s, Enter(c));
    var n := |s.took| - |s.queue|;
    assert s.took[n] == s.took[n..][0] == c;
    assert t.entered == s.took[..n] + [c] == s.took[..n + 1];
  }

  lemma HolderIsFirst(s: State, c: nat)
    requires Inv(s) && Enabled(s, Leave(c))
    ensures s.queue != [] && s.queue[0] == c && s.cpus[c].ticket == s.serving
    ensures Apply(s, Leave(c)).queue == s.queue[1..]
  {
    hide Logged;
    assert c in s.queue;
    var k: nat :| k < |s.queue| && s.queue[k] == c;
    assert AtPlace(s.cpus, s.serving, s.queue[k], k);
  }

  lemma LeaveOrdered(s: State, t: State, c: nat)
    requires Inv(s) && Enabled(s, Leave(c)) && t == Apply(s, Leave(c)) && s.queue != [] && s.queue[0] == c
    requires t.queue == s.queue[1..] && s.cpus[c].ticket == s.serving
    ensures Ordered(t) && forall k: nat | k < |t.queue| :: !Holds(t, t.queue[k])
  {
    hide Logged;
    forall j: nat | j < |t.queue| ensures AtPlace(t.cpus, t.serving, t.queue[j], j) && !Holds(t, t.queue[j]) {
      assert t.queue[j] == s.queue[j + 1] && AtPlace(s.cpus, s.serving, s.queue[j + 1], j + 1);
      NextShift(s.serving, j);
    }
    forall d: nat | d < |t.cpus| && t.cpus[d] != Out ensures d in t.queue {
      assert d in s.queue;
      var j: nat :| j < |s.queue| && s.queue[j] == d;
      assert t.queue[j - 1] == d;
    }
    NextShift(s.serving, |t.queue|);
  }

  lemma LeaveLogged(s: State, t: State, c: nat)
    requires Inv(s) && Enabled(s, Leave(c)) && t == Apply(s, Leave(c)) && s.queue != [] && s.queue[0] == c
    requires t.queue == s.queue[1..] && forall k: nat | k < |t.queue| :: !Holds(t, t.queue[k])
    ensures Logged(t)
  {
    hide Ordered;
    assert t.took[|t.took| - |t.queue|..] == s.took[|s.took| - |s.queue|..][1..];
  }

  lemma LeaveInv(s: State, c: nat)
    requires Inv(s) && Enabled(s, Leave(c))
    ensures Inv(Apply(s, Leave(c)))
  {
    hide Ordered, Logged;
    HolderIsFirst(s, c);
    LeaveOrdered(s, Apply(s, Leave(c)), c);
    LeaveLogged(s, Apply(s, Leave(c)), c);
  }

  lemma StepInv(s: State, step: Step)
    requires Inv(s) && Enabled(s, step)
    ensures Inv(Apply(s, step))
  {
    match step
    case Take(c) => TakeInv(s, c);
    case Enter(c) => EnterInv(s, c);
    case Leave(c) => LeaveInv(s, c);
  }

  lemma {:induction false} RunInv(states: seq<State>, steps: seq<Step>, k: nat)
    requires Run(states, steps) && k <= |steps|
    ensures Inv(states[k])
  {
    if k == 0 {
      InitInv(states[0]);
    } else {
      RunInv(states, steps, k - 1);
      StepInv(states[k - 1], steps[k - 1]);
    }
  }

  /** At most one CPU holds the lock, in every state of every run. */
  lemma MutualExclusion(states: seq<State>, steps: seq<Step>, k: nat, c: nat, d: nat)
    requires Run(states, steps) && k <= |steps| && Holds(states[k], c) && Holds(states[k], d)
    ensures c == d
  {
    RunInv(states, steps, k);
    assert c in states[k].queue && d in states[k].queue;
  }

  /** CPUs enter in the order in which they took their tickets. */
  lemma InOrderTaken(states: seq<State>, steps: seq<Step>, k: nat)
    requires Run(states, steps) && k <= |steps|
    ensures states[k].entered <= states[k].took
  {
    RunInv(states, steps, k);
  }

  /** A free lock never keeps a queue waiting: its first CPU may enter. */
  lemma NeverStuck(states: seq<State>, steps: seq<Step>, k: nat)
    requires Run(states, steps) && k <= |steps| && states[k].queue != [] && !Holds(states[k], states[k].queue[0])
    ensures Enabled(states[k], Enter(states[k].queue[0]))
  {
    RunInv(states, steps, k);
  }

  /** The unlocks among the steps from `i` up to `j`. */
  ghost function Leaves(steps: seq<Step>, i: nat, j: nat): nat
    requires i <= j <= |steps|
  {
    if i == j then 0 else Leaves(steps, i, j - 1) + (if steps[j - 1].Leave? then 1 else 0)
  }

  /** The CPU waits, with `k` CPUs ahead of it. */
  predicate Behind(s: State, c: nat, k: int) {
    0 <= k < |s.queue| && s.queue[k] == c && c < |s.cpus| && s.cpus[c].Waiting?
  }

  lemma BehindStep(s: State, step: Step, c: nat, k: int)
    requires Inv(s) && Enabled(s, step) && Behind(s, c, k) && step != Enter(c)
    ensures Behind(Apply(s, step), c, if step.Leave? then k - 1 else k)
  {
    if step.Leave? {
      HolderIsFirst(s, step.c);
    }
  }

  /** Every unlock moves a waiting CPU one place forward, and nothing else moves it. */
  lemma {:induction false} OnePlacePerUnlock(states: seq<State>, steps: seq<Step>, i: nat, j: nat, c: nat, k: nat)
    requires Run(states, steps) && i <= j <= |steps| && Behind(states[i], c, k)
    requires forall m: nat | i <= m < j :: steps[m] != Enter(c)
    ensures Behind(states[j], c, k - Leaves(steps, i, j))
    decreases j
  {
    hide Behind, Inv, Apply, Enabled;
    if i < j {
      OnePlacePerUnlock(states, steps, i, j - 1, c, k);
      RunInv(states, steps, j - 1);
      BehindStep(states[j - 1], steps[j - 1], c, k - Leaves(steps, i, j - 1));
    }
  }

  /** A CPU with `k` CPUs ahead of it enters after exactly `k` unlocks. */
  lemma EntersAfterItsTurn(states: seq<State>, steps: seq<Step>, i: nat, j: nat, c: nat, k: nat)
    requires Run(states, steps) && i <= j < |steps| && steps[j] == Enter(c) && Behind(states[i], c, k)
    requires forall m: nat | i <= m < j :: steps[m] != Enter(c)
    ensures Leaves(steps, i, j) == k
  {
    hide Behind, Inv, Apply;
    OnePlacePerUnlock(states, steps, i, j, c, k);
    RunInv(states, steps, j);
    FirstEnters(states[j], c, k - Leaves(steps, i, j));
  }

  lemma FirstEnters(s: State, c: nat, k: int)
    requires Inv(s) && Behind(s, c, k) && Enabled(s, Enter(c))
    ensures k == 0
  {
    ServedIsFirst(s, c);
    OnlyFirst(s.queue, k);
  }

  lemma OnlyFirst(q: seq<nat>, k: nat)
    requires Distinct(q) && k < |q| && q[k] == q[0]
    ensures k == 0
  {
  }
}

/** The two counters as they change in place. */
module TicketCounters {
  import opened Ticket

  class TicketLock {
    var next: nat
    var serving: nat

    ghost predicate Shows(s: State)
      reads this
    {
      next == s.next && serving == s.serving
    }

    constructor ()
      ensures next == 0 && serving == 0
    {
      next, serving := 0, 0;
    }

    /** The fetch_add of lock. */
    method TakeTicket(ghost s: State, ghost c: nat) returns (ticket: nat)
      requires Shows(s) && Enabled(s, Take(c))
      modifies this
      ensures Shows(Apply(s, Take(c))) && Apply(s, Take(c)).cpus[c] == Waiting(ticket)
    {
      ticket := next;
      next := (next + 1) % NUMBERS;
    }

    /** One look of the wait. */
    method Served(ghost s: State, ghost c: nat, ticket: nat) returns (b: bool)
      requires Shows(s) && c < |s.cpus| && s.cpus[c] == Waiting(ticket)
      ensures b <==> Enabled(s, Enter(c))
    {
      b := serving == ticket;
    }

    method Unlock(ghost s: State, ghost c: nat, ticket: nat)
      requires Shows(s) && Enabled(s, Leave(c)) && s.cpus[c] == Holding(ticket)
      modifies this
      ensures Shows(Apply(s, Leave(c)))
    {
      serving := (ticket + 1) % NUMBERS;
    }

    /** As the code checks it: the counter of those that left stands at the holder's number. */
    method UnlockHeld(ghost s: State, ghost c: nat)
      requires Shows(s) && Inv(s) && Enabled(s, Leave(c))
      modifies this
      ensures Shows(Apply(s, Leave(c)))
    {
      HolderIsFirst(s, c);
      var ticket := serving;
      serving := (ticket + 1) % NUMBERS;
    }

    /** Both counters equal means nobody is at the lock, if the CPUs are fewer than the numbers. */
    method IsFree(ghost s: State) returns (b: bool)
      requires Shows(s) && Inv(s) && |s.cpus| < NUMBERS
      ensures b <==> s.queue == []
    {
      QueueShort(s.queue, |s.cpus|);
      b := next == serving;
      if |s.queue| > 0 {
        WrapDiffers(s.serving, |s.queue|);
      }
    }
  }
}
