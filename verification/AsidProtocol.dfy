/**
 Every interleaving of address-space switches, new generations and releases. Each atomic
 access of a word that CPUs share without the lock is a step of its own; what the lock
 guards changes together with the next such access. The caller's part is in the steps
 too: the write of TTBR0, the parking on the empty table, the flush, and the invalidation
 after a release.

 Each CPU has a TLB that may take in an entry of the installed space at any moment.
 */
module AsidProtocol {
  import opened Common
  import opened AsidSpec

  const ALL_CPUS: set<nat> := {0, 1, 2, 3, 4, 5, 6, 7}

  /** Address spaces have names; the tag of a space that never ran is void. */
  type Space = nat

  datatype Entry = Entry(asid: nat, space: Space)

  /** What TTBR0 of a CPU holds: the empty table with ASID 0, or a space and its number. */
  datatype Ttbr = Empty | Runs(space: Space, asid: nat)

  /** Where a CPU stands. `was` holds what the CPUs had reserved before the generation
      that is being begun; only the proof reads it. */
  datatype Pc =
    | Idle
    // AsidCpus::fast and the TTBR0 write of switch_fast
    | GotTag(s: Space, id: Id)
    | GotActive(s: Space, id: Id, prev: Id)
    | Checked(s: Space, id: Id, prev: Id)
    | Won(s: Space, id: Id)
    // switch_slow, under the lock from Locked on
    | WantLock(s: Space)
    | Locked(s: Space)
    | Loaded(s: Space, id: Id)
    | NewGen(s: Space, id: Id, k: nat, was: seq<Id>)
    | Store(s: Space, id: Id)
    | Mine(s: Space, id: Id)
    | Activate(s: Space, id: Id, flush: bool)
    | Park(s: Space, id: Id)
    | Flush(s: Space, id: Id)
    | Install(s: Space, id: Id)
    // retire_asid, under the lock
    | RelLocked(s: Space)
    | RelCas(s: Space, id: Id, owned: bool, k: nat)
    | RelTlbi(s: Space, id: Id)
    // an `expect` or an assertion of the allocator failed
    | Panicked

  datatype State = State(
    gen: nat, pending: set<nat>, active: seq<Id>,
    tags: map<Space, Id>,
    alloc: Alloc, lock: Option<nat>, pc: seq<Pc>, ttbr: seq<Ttbr>, tlb: seq<set<Entry>>)

  function Tag(st: State, s: Space): Id {
    if s in st.tags then st.tags[s] else VOID
  }

  predicate Shape(st: State) {
    && |st.active| == |st.pc| == |st.ttbr| == |st.tlb| == CPUS
    && |st.alloc.reserved| == CPUS
  }

  /** The states the kernel starts in: one generation, no CPU with a space. */
  predicate Init(st: State) {
    && Shape(st)
    && (st.alloc.bits == 8 || st.alloc.bits == 16)
    && st.gen == 1 && st.pending == {} && st.lock == None && st.tags == map[]
    && st.alloc == EmptyMap(Alloc(st.alloc.bits, {}, 0, 0, st.alloc.reserved))
    && forall c | 0 <= c < CPUS ::
         && st.active[c] == VOID && st.alloc.reserved[c] == VOID
         && st.pc[c] == Idle && st.ttbr[c] == Empty && st.tlb[c] == {}
  }

  datatype Step =
    | FastTag(c: nat, s: Space) | FastActive(c: nat) | FastCheck(c: nat) | FastSwap(c: nat) | FastInstall(c: nat)
    | SlowLock(c: nat) | SlowLoad(c: nat) | SlowDecide(c: nat) | GenSwap(c: nat) | GenFlush(c: nat)
    | SlowStore(c: nat) | SlowMine(c: nat) | SlowActive(c: nat) | SlowPark(c: nat) | SlowFlush(c: nat)
    | SlowInstall(c: nat)
    | RelLock(c: nat, s: Space) | RelSwap(c: nat) | RelCasStep(c: nat) | RelInvalidate(c: nat)
    | Fill(c: nat) | Leave(c: nat)

  /** The space that the activation or the release of a CPU is about. */
  predicate Targets(p: Pc, s: Space) {
    match p
    case Idle => false
    case Panicked => false
    case _ => p.s == s
  }

  predicate Releasing(p: Pc, s: Space) {
    (p.RelLocked? || p.RelCas? || p.RelTlbi?) && p.s == s
  }

  /** Nothing runs the space or is about to: what the owner of a tag promises before it
      releases it. */
  predicate Unreachable(st: State, s: Space)
    requires Shape(st)
  {
    forall c | 0 <= c < CPUS ::
      !Targets(st.pc[c], s) && !(st.ttbr[c].Runs? && st.ttbr[c].space == s)
  }

  predicate Enabled(st: State, step: Step) {
    Shape(st) && step.c < CPUS &&
    var p := st.pc[step.c];
    match step
    case FastTag(c, s) => p.Idle? && forall d | 0 <= d < CPUS :: !Releasing(st.pc[d], s)
    case FastActive(c) => p.GotTag?
    case FastCheck(c) => p.GotActive?
    case FastSwap(c) => p.Checked?
    case FastInstall(c) => p.Won?
    case SlowLock(c) => p.WantLock? && st.lock.None?
    case SlowLoad(c) => p.Locked?
    case SlowDecide(c) => p.Loaded?
    case GenSwap(c) => p.NewGen? && p.k < CPUS
    case GenFlush(c) => p.NewGen? && p.k >= CPUS
    case SlowStore(c) => p.Store?
    case SlowMine(c) => p.Mine?
    case SlowActive(c) => p.Activate?
    case SlowPark(c) => p.Park?
    case SlowFlush(c) => p.Flush?
    case SlowInstall(c) => p.Install?
    case RelLock(c, s) => p.Idle? && st.lock.None? && Unreachable(st, s)
    case RelSwap(c) => p.RelLocked?
    case RelCasStep(c) => p.RelCas?
    case RelInvalidate(c) => p.RelTlbi?
    case Fill(c) => st.ttbr[c].Runs?
    case Leave(c) => p.Idle?
  }

  function Goto(st: State, c: nat, p: Pc): State
    requires Shape(st) && c < CPUS
  {
    st.(pc := st.pc[c := p])
  }

  // ----- AsidCpus::fast, then the write of TTBR0 -----

  function FastTagStep(st: State, c: nat, s: Space): State
    requires Shape(st) && c < CPUS
  {
    Goto(st, c, GotTag(s, Tag(st, s)))
  }

  function FastActiveStep(st: State, c: nat): State
    requires Shape(st) && c < CPUS && st.pc[c].GotTag?
  {
    var p := st.pc[c];
    Goto(st, c, if st.active[c] == VOID then WantLock(p.s) else GotActive(p.s, p.id, st.active[c]))
  }

  function FastCheckStep(st: State, c: nat): State
    requires Shape(st) && c < CPUS && st.pc[c].GotActive?
  {
    var p := st.pc[c];
    Goto(st, c, if p.id.gen == st.gen then Checked(p.s, p.id, p.prev) else WantLock(p.s))
  }

  function FastSwapStep(st: State, c: nat): State
    requires Shape(st) && c < CPUS && st.pc[c].Checked?
  {
    var p := st.pc[c];
    if st.active[c] == p.prev then
      Goto(st, c, Won(p.s, p.id)).(active := st.active[c := p.id])
    else
      Goto(st, c, WantLock(p.s))
  }

  function FastInstallStep(st: State, c: nat): State
    requires Shape(st) && c < CPUS && st.pc[c].Won?
  {
    var p := st.pc[c];
    Goto(st, c, Idle).(ttbr := st.ttbr[c := Runs(p.s, p.id.asid)])
  }

  // ----- AsidAllocator::activate inside switch_slow, under the lock -----

  function SlowLockStep(st: State, c: nat): State
    requires Shape(st) && c < CPUS && st.pc[c].WantLock?
  {
    Goto(st, c, Locked(st.pc[c].s)).(lock := Some(c))
  }

  function SlowLoadStep(st: State, c: nat): State
    requires Shape(st) && c < CPUS && st.pc[c].Locked?
  {
    var s := st.pc[c].s;
    Goto(st, c, Loaded(s, Tag(st, s)))
  }

  /** A number of generation `gen` for a space whose tag `prev` nobody reserved. */
  function TakeNumber(st: State, c: nat, s: Space): State
    requires Shape(st) && c < CPUS
  {
    match NextFree(st.alloc)
    case Some(i) => Goto(st, c, Store(s, Id(st.gen, i))).(alloc := Taken(st.alloc, i))
    case None => Goto(st, c, Panicked)
  }

  /** A tag of this generation stays; else new_context up to the raised generation. */
  function SlowDecideStep(st: State, c: nat): State
    requires Shape(st) && c < CPUS && st.pc[c].Loaded?
  {
    var p := st.pc[c];
    if p.id.gen == st.gen then Goto(st, c, Mine(p.s, p.id))
    else if Adoptable(st.alloc, p.id) then
      Goto(st, c, Store(p.s, Id(st.gen, p.id.asid))).(alloc := Adopted(st.alloc, st.gen, p.id))
    else if st.alloc.free == 0 then
      Goto(st, c, NewGen(p.s, p.id, 0, st.alloc.reserved)).(gen := st.gen + 1, alloc := EmptyMap(st.alloc))
    else TakeNumber(st, c, p.s)
  }

  /** One swap of the loop in new_generation. */
  function GenSwapStep(st: State, c: nat): State
    requires Shape(st) && c < CPUS && st.pc[c].NewGen? && st.pc[c].k < CPUS
  {
    var p := st.pc[c];
    Goto(st, c, NewGen(p.s, p.id, p.k + 1, p.was)).(
      active := st.active[p.k := VOID], alloc := Keep(st.alloc, p.k, st.active[p.k]))
  }

  /** Every CPU owes a flush; the space adopts what it ran or takes a number. */
  function GenFlushStep(st: State, c: nat): State
    requires Shape(st) && c < CPUS && st.pc[c].NewGen?
  {
    var p := st.pc[c];
    var owing := st.(pending := ALL_CPUS);
    if Adoptable(st.alloc, p.id) then
      Goto(owing, c, Store(p.s, Id(st.gen, p.id.asid))).(alloc := Adopted(st.alloc, st.gen, p.id))
    else TakeNumber(owing, c, p.s)
  }

  function SlowStoreStep(st: State, c: nat): State
    requires Shape(st) && c < CPUS && st.pc[c].Store?
  {
    var p := st.pc[c];
    Goto(st, c, Mine(p.s, p.id)).(tags := st.tags[p.s := p.id])
  }

  function SlowMineStep(st: State, c: nat): State
    requires Shape(st) && c < CPUS && st.pc[c].Mine?
  {
    var p := st.pc[c];
    Goto(st, c, Activate(p.s, p.id, c in st.pending)).(pending := st.pending - {c})
  }

  function SlowActiveStep(st: State, c: nat): State
    requires Shape(st) && c < CPUS && st.pc[c].Activate?
  {
    var p := st.pc[c];
    Goto(st, c, if p.flush then Park(p.s, p.id) else Install(p.s, p.id)).(active := st.active[c := p.id])
  }

  function SlowParkStep(st: State, c: nat): State
    requires Shape(st) && c < CPUS && st.pc[c].Park?
  {
    Goto(st, c, Flush(st.pc[c].s, st.pc[c].id)).(ttbr := st.ttbr[c := Empty])
  }

  function SlowFlushStep(st: State, c: nat): State
    requires Shape(st) && c < CPUS && st.pc[c].Flush?
  {
    Goto(st, c, Install(st.pc[c].s, st.pc[c].id)).(tlb := st.tlb[c := {}])
  }

  function SlowInstallStep(st: State, c: nat): State
    requires Shape(st) && c < CPUS && st.pc[c].Install?
  {
    var p := st.pc[c];
    Goto(st, c, Idle).(ttbr := st.ttbr[c := Runs(p.s, p.id.asid)], lock := None)
  }

  // ----- AsidAllocator::release inside retire_asid, under the lock -----

  function RelLockStep(st: State, c: nat, s: Space): State
    requires Shape(st) && c < CPUS
  {
    Goto(st, c, RelLocked(s)).(lock := Some(c))
  }

  /** The swap that voids the tag, and the reservations of it. */
  function RelSwapStep(st: State, c: nat): State
    requires Shape(st) && c < CPUS && st.pc[c].RelLocked?
  {
    var s := st.pc[c].s;
    var id := Tag(st, s);
    if id == VOID then Goto(st, c, Idle).(lock := None)
    else
      Goto(st, c, RelCas(s, id, id.gen == st.gen || id in st.alloc.reserved, 0)).(
        tags := st.tags[s := VOID], alloc := Dropped(st.alloc, id))
  }

  /** One compare-and-swap of the loop over the CPUs; after the last, the number comes
      free when it was the space's own. */
  function RelCasStepStep(st: State, c: nat): State
    requires Shape(st) && c < CPUS && st.pc[c].RelCas?
  {
    var p := st.pc[c];
    if p.k < CPUS then
      Goto(st, c, RelCas(p.s, p.id, p.owned, p.k + 1)).(
        active := if st.active[p.k] == p.id then st.active[p.k := VOID] else st.active)
    else if !p.owned then Goto(st, c, Idle).(lock := None)
    else if p.id.asid !in st.alloc.used then Goto(st, c, Panicked)
    else Goto(st, c, RelTlbi(p.s, p.id)).(alloc := Unmark(st.alloc, p.id.asid))
  }

  function WithoutAsid(t: set<Entry>, a: nat): set<Entry> {
    set e <- t | e.asid != a
  }

  /** The invalidation of the number on every CPU, then the lock goes. */
  function RelInvalidateStep(st: State, c: nat): State
    requires Shape(st) && c < CPUS && st.pc[c].RelTlbi?
  {
    var a := st.pc[c].id.asid;
    Goto(st, c, Idle).(
      tlb := seq(CPUS, d requires 0 <= d < CPUS => WithoutAsid(st.tlb[d], a)), lock := None)
  }

  // ----- the hardware, and the quiescent point of a CPU -----

  /** A walk of the installed tables, at any moment. */
  function FillStep(st: State, c: nat): State
    requires Shape(st) && c < CPUS && st.ttbr[c].Runs?
  {
    st.(tlb := st.tlb[c := st.tlb[c] + {Entry(st.ttbr[c].asid, st.ttbr[c].space)}])
  }

  function LeaveStep(st: State, c: nat): State
    requires Shape(st) && c < CPUS
  {
    st.(ttbr := st.ttbr[c := Empty])
  }

  function Apply(st: State, step: Step): State
    requires Enabled(st, step)
  {
    match step
    case FastTag(c, s) => FastTagStep(st, c, s)
    case FastActive(c) => FastActiveStep(st, c)
    case FastCheck(c) => FastCheckStep(st, c)
    case FastSwap(c) => FastSwapStep(st, c)
    case FastInstall(c) => FastInstallStep(st, c)
    case SlowLock(c) => SlowLockStep(st, c)
    case SlowLoad(c) => SlowLoadStep(st, c)
    case SlowDecide(c) => SlowDecideStep(st, c)
    case GenSwap(c) => GenSwapStep(st, c)
    case GenFlush(c) => GenFlushStep(st, c)
    case SlowStore(c) => SlowStoreStep(st, c)
    case SlowMine(c) => SlowMineStep(st, c)
    case SlowActive(c) => SlowActiveStep(st, c)
    case SlowPark(c) => SlowParkStep(st, c)
    case SlowFlush(c) => SlowFlushStep(st, c)
    case SlowInstall(c) => SlowInstallStep(st, c)
    case RelLock(c, s) => RelLockStep(st, c, s)
    case RelSwap(c) => RelSwapStep(st, c)
    case RelCasStep(c) => RelCasStepStep(st, c)
    case RelInvalidate(c) => RelInvalidateStep(st, c)
    case Fill(c) => FillStep(st, c)
    case Leave(c) => LeaveStep(st, c)
  }

  /** A run: from an initial state, each state the next one's predecessor by its step. */
  ghost predicate Run(states: seq<State>, steps: seq<Step>) {
    && |states| == |steps| + 1
    && Init(states[0])
    && forall i | 0 <= i < |steps| :: Enabled(states[i], steps[i]) && states[i + 1] == Apply(states[i], steps[i])
  }

  /** No CPU runs a space under a number while its TLB holds another space's entry for it. */
  ghost predicate NoForeignEntry(st: State)
    requires Shape(st)
  {
    forall c, e | 0 <= c < CPUS && st.ttbr[c].Runs? && e in st.tlb[c] && e.asid == st.ttbr[c].asid ::
      e.space == st.ttbr[c].space
  }

  /** Neither the `expect` in take nor the assertion in unset fired. */
  ghost predicate NoPanic(st: State) {
    forall p <- st.pc :: !p.Panicked?
  }

  /** Whether a tag still owns its number: it is current, or some CPU keeps it reserved. */
  ghost predicate HoldsNumber(st: State, s: Space) {
    Tag(st, s) != VOID && (Tag(st, s).gen == st.gen || Tag(st, s) in st.alloc.reserved)
  }
}
