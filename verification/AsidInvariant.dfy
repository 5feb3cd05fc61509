/** What every step of the ASID protocol keeps, split into small named parts. */
module AsidInvariant {
  import opened Common
  import opened AsidSpec
  import opened AsidProtocol

  predicate UnderLock(p: Pc) {
    !(p.Idle? || p.GotTag? || p.GotActive? || p.Checked? || p.Won? || p.WantLock?)
  }

  /** The lock holder's place, Idle when nobody holds the lock. */
  function Holder(st: State): Pc {
    if st.lock.Some? && st.lock.value < |st.pc| then st.pc[st.lock.value] else Idle
  }

  /** A generation is being begun: the counter is raised, not every CPU is swapped. */
  predicate InWindow(st: State) {
    Holder(st).NewGen?
  }

  /** The generation whose tags are current: the old one until a new one has begun. */
  function EffGen(st: State): int {
    if InWindow(st) then st.gen - 1 else st.gen
  }

  function Kept(st: State): seq<Id> {
    if InWindow(st) then Holder(st).was else st.alloc.reserved
  }

  /** The release of a space that owned its number is under way. */
  predicate Going(st: State, s: Space) {
    var h := Holder(st);
    ((h.RelCas? && h.owned) || h.RelTlbi?) && h.s == s
  }

  /** The tag a space holds, with the store that the lock holder is about to make, or the
      release whose invalidation is still to come. */
  function Held(st: State, s: Space): Id {
    var h := Holder(st);
    if (h.Store? && h.s == s) || Going(st, s) then h.id else Tag(st, s)
  }

  /** The space owns its number: no other space may be given it. */
  predicate Live(st: State, s: Space) {
    Held(st, s) != VOID && (Held(st, s).gen == EffGen(st) || Held(st, s) in Kept(st) || Going(st, s))
  }

  ghost predicate Owned(st: State, id: Id) {
    exists s :: Held(st, s) == id
  }

  predicate IdOk(st: State, id: Id) {
    id == VOID || (1 <= id.gen <= EffGen(st) && 1 <= id.asid < Limit(st.alloc.bits))
  }

  ghost predicate Basic(st: State) {
    && Shape(st) && MapOk(st.alloc) && 1 <= st.gen
    && (st.lock.Some? ==> st.lock.value < CPUS)
    && (forall c | 0 <= c < CPUS :: UnderLock(st.pc[c]) <==> st.lock == Some(c))
    && (forall c | 0 <= c < CPUS :: !st.pc[c].Panicked?)
    && st.pending <= ALL_CPUS
  }

  ghost predicate IdsOk(st: State) {
    forall s :: IdOk(st, Tag(st, s)) && IdOk(st, Held(st, s))
  }

  predicate WindowOk(st: State, k: nat, was: seq<Id>)
    requires Shape(st)
  {
    && k <= CPUS && |was| == CPUS && 2 <= st.gen
    && (forall j | 0 <= j < k :: st.active[j] == VOID)
    && (forall j | k <= j < CPUS :: st.alloc.reserved[j] == was[j])
    && (forall j | 0 <= j < CPUS ::
          var r := st.alloc.reserved[j]; r == VOID || r in was || r.gen == st.gen - 1)
    && (forall j | 0 <= j < k ::
          st.alloc.reserved[j] != VOID ==> st.alloc.reserved[j].asid in st.alloc.used)
    && st.alloc.free >= Limit(st.alloc.bits) - 1 - k
  }

  /** Nobody else touches a space whose release holds the lock. */
  predicate Alone(st: State, s: Space)
    requires Shape(st)
  {
    forall c | 0 <= c < CPUS ::
      && (Targets(st.pc[c], s) ==> st.lock == Some(c))
      && !(st.ttbr[c].Runs? && st.ttbr[c].space == s)
  }

  /** The lock holder has put its tag into its active word. */
  predicate SwitchOk(st: State, s: Space, id: Id)
    requires Shape(st) && st.lock.Some? && st.lock.value < CPUS
  {
    && Tag(st, s) == id && id.gen == st.gen
    && st.lock.value !in st.pending && st.active[st.lock.value] == id
  }

  predicate HolderOk(st: State)
    requires Shape(st)
  {
    match Holder(st)
    case Loaded(s, id) => Tag(st, s) == id
    case NewGen(s, id, k, was) => Tag(st, s) == id && id.gen < st.gen && WindowOk(st, k, was)
    case Store(s, id) => id.gen == st.gen && 1 <= id.asid < Limit(st.alloc.bits) && Tag(st, s).gen < st.gen
    case Mine(s, id) => Tag(st, s) == id && id.gen == st.gen
    case Activate(s, id, _) => Tag(st, s) == id && id.gen == st.gen && st.lock.value !in st.pending
    case Park(s, id) => SwitchOk(st, s, id)
    case Flush(s, id) => SwitchOk(st, s, id)
    case Install(s, id) => SwitchOk(st, s, id)
    case RelLocked(s) => Alone(st, s)
    case RelCas(s, id, owned, k) =>
      && Alone(st, s) && Tag(st, s) == VOID && id != VOID && IdOk(st, id) && k <= CPUS
      && (forall j | 0 <= j < k :: st.active[j] != id)
      && id !in st.alloc.reserved && (owned || id.gen < st.gen)
    case RelTlbi(s, id) =>
      && Alone(st, s) && Tag(st, s) == VOID && id != VOID && IdOk(st, id)
      && id !in st.active && id !in st.alloc.reserved
    case _ => true
  }

  ghost predicate ActiveOk(st: State)
    requires Shape(st)
  {
    forall c | 0 <= c < CPUS && st.active[c] != VOID ::
      st.active[c].gen == EffGen(st) && c !in st.pending && Owned(st, st.active[c])
  }

  ghost predicate ReservedOk(st: State)
    requires Shape(st)
  {
    forall c | 0 <= c < CPUS && st.alloc.reserved[c] != VOID :: Owned(st, st.alloc.reserved[c])
  }

  /** Two spaces that own their numbers own different ones. */
  ghost predicate UniqueOk(st: State) {
    forall s, t | Live(st, s) && Live(st, t) && Held(st, s).asid == Held(st, t).asid :: s == t
  }

  ghost predicate UsedOk(st: State) {
    !InWindow(st) ==>
      forall s | Live(st, s) && !(Holder(st).RelTlbi? && Holder(st).s == s) ::
        Held(st, s).asid in st.alloc.used
  }

  /** The tag that CPU `c` holds the space's number by is in its own words. */
  predicate Anchored(st: State, c: nat, s: Space, a: nat)
    requires Shape(st) && c < CPUS
  {
    && Held(st, s) != VOID && Held(st, s).asid == a
    && Held(st, s) == (if st.active[c] != VOID then st.active[c] else st.alloc.reserved[c])
  }

  predicate TagRead(st: State, s: Space, id: Id) {
    id.gen <= EffGen(st) && (id.gen == EffGen(st) ==> Tag(st, s) == id)
  }

  predicate FastOkAt(st: State, c: nat)
    requires Shape(st) && c < CPUS
  {
    match st.pc[c]
    case GotTag(s, id) => TagRead(st, s, id)
    case GotActive(s, id, prev) =>
      TagRead(st, s, id) && prev != VOID && (st.active[c] == prev || st.active[c] == VOID)
    case Checked(s, id, prev) =>
      && prev != VOID && (st.active[c] == prev || st.active[c] == VOID)
      && (st.active[c] != VOID ==> id.gen == EffGen(st) && Tag(st, s) == id)
    case Won(s, id) => Anchored(st, c, s, id.asid)
    case _ => true
  }

  ghost predicate FastOk(st: State)
    requires Shape(st)
  {
    forall c | 0 <= c < CPUS :: FastOkAt(st, c)
  }

  predicate Switched(p: Pc) {
    p.Won? || p.Park? || p.Flush? || p.Install?
  }

  ghost predicate TtbrOk(st: State)
    requires Shape(st)
  {
    forall c | 0 <= c < CPUS && st.ttbr[c].Runs? ::
      && !st.pc[c].Flush?
      && (!Switched(st.pc[c]) ==> Anchored(st, c, st.ttbr[c].space, st.ttbr[c].asid))
  }

  /** A CPU that has not flushed since the generation began. */
  predicate Owes(st: State, c: nat)
    requires Shape(st) && c < CPUS
  {
    || c in st.pending
    || (st.pc[c].Activate? && st.pc[c].flush)
    || st.pc[c].Park? || st.pc[c].Flush?
  }

  predicate Has(st: State, s: Space, a: nat) {
    Live(st, s) && Held(st, s).asid == a
  }

  /** A CPU that owes no flush holds entries only of spaces that own their number. */
  ghost predicate TlbOk(st: State)
    requires Shape(st)
  {
    forall c | 0 <= c < CPUS && !Owes(st, c) ::
      && (forall e <- st.tlb[c] :: Has(st, e.space, e.asid))
      && (st.ttbr[c].Runs? ==> Has(st, st.ttbr[c].space, st.ttbr[c].asid))
  }

  ghost predicate Clean(t: set<Entry>, s: Space, a: nat) {
    forall e <- t | e.asid == a :: e.space == s
  }

  ghost predicate CleanOk(st: State)
    requires Shape(st)
  {
    && (forall c | 0 <= c < CPUS && st.ttbr[c].Runs? :: Clean(st.tlb[c], st.ttbr[c].space, st.ttbr[c].asid))
    && (forall c | 0 <= c < CPUS && st.pc[c].Won? ::
          && Clean(st.tlb[c], st.pc[c].s, st.pc[c].id.asid)
          && (st.ttbr[c].Runs? && st.ttbr[c].asid == st.pc[c].id.asid ==> st.ttbr[c].space == st.pc[c].s))
  }

  ghost predicate Inv(st: State) {
    && Basic(st) && IdsOk(st) && HolderOk(st)
    && ActiveOk(st) && ReservedOk(st) && UniqueOk(st) && UsedOk(st)
    && FastOk(st) && TtbrOk(st) && TlbOk(st) && CleanOk(st)
  }

  lemma InitInv(st: State)
    requires Init(st)
    ensures Inv(st)
  {
    EmptyMapOk(Alloc(st.alloc.bits, {}, 0, 0, st.alloc.reserved));
  }

  /** An anchored space owns its number. */
  lemma AnchoredLive(st: State, c: nat, s: Space, a: nat)
    requires Inv(st) && c < CPUS && Anchored(st, c, s, a)
    ensures Has(st, s, a)
  {
  }
}
