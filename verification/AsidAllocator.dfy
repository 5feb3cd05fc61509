/**
 The ASID allocator as the kernel runs it: objects whose fields change in place. Each call
 is tied to the protocol: with no other CPU in between, it does exactly the protocol's
 steps, so what every interleaving keeps holds of the code as well.
 */
module AsidAllocator {
  import opened Common
  import opened AsidSpec
  import opened AsidBitmap
  import opened AsidProtocol
  import opened AsidInvariant
  import opened AsidOutcomes
  import opened AsidSafety
  import AsidGenerations

  class AsidTag {
    var id: Id
    constructor ()
      ensures id == VOID
    {
      id := VOID;
    }
  }

  class AsidCpus {
    var generation: nat
    var flushPending: set<nat>
    const active: array<Id>

    constructor ()
      ensures generation == 1 && flushPending == {} && fresh(active)
      ensures active.Length == CPUS && forall c | 0 <= c < CPUS :: active[c] == VOID
    {
      generation, flushPending := 1, {};
      active := new Id[CPUS](_ => VOID);
    }

    /** The switch with no lock: one compare-and-swap, after three loads. */
    method Fast(cpu: nat, tag: AsidTag, ghost st: State, ghost s: Space) returns (r: Option<nat>)
      requires Shape(st) && cpu < CPUS && active.Length == CPUS
      requires active[..] == st.active && generation == st.gen && tag.id == Tag(st, s)
      modifies active
      ensures active[..] == FastTried(st, cpu, s).active
      ensures FastTried(st, cpu, s).pc[cpu] == if r.Some? then Won(s, tag.id) else WantLock(s)
      ensures r == if old(active[cpu]) != VOID && tag.id.gen == generation then Some(tag.id.asid) else None
      ensures active[..] == if r.Some? then old(active[..])[cpu := tag.id] else old(active[..])
    {
      var id := tag.id;
      var prev := active[cpu];
      if prev != VOID && id.gen == generation && active[cpu] == prev {
        active[cpu] := id;
        r := Some(id.asid);
      } else {
        r := None;
      }
    }
  }

  /** fast: the tag, the active word, the generation, the swap. */
  function FastTried(st: State, c: nat, s: Space): (n: State)
    requires Shape(st) && c < CPUS
    ensures Shape(n)
  {
    var a := FastActiveStep(FastTagStep(st, c, s), c);
    if !a.pc[c].GotActive? then a
    else
      var b := FastCheckStep(a, c);
      if b.pc[c].Checked? then FastSwapStep(b, c) else b
  }

  lemma FastTriedInv(st: State, c: nat, s: Space)
    requires Inv(st) && Enabled(st, FastTag(c, s))
    ensures Inv(FastTried(st, c, s))
  {
    hide Inv;
    StepInv(st, FastTag(c, s));
    var t := FastTagStep(st, c, s);
    StepInv(t, FastActive(c));
    var a := FastActiveStep(t, c);
    if a.pc[c].GotActive? {
      StepInv(a, FastCheck(c));
      var b := FastCheckStep(a, c);
      if b.pc[c].Checked? {
        StepInv(b, FastSwap(c));
      }
    }
  }

  // ----- a CPU's steps under the lock, one after another -----

  /** The rest of the swaps of a generation that CPU `c` begins. */
  function SwapAll(st: State, c: nat): (n: State)
    requires Shape(st) && c < CPUS && st.pc[c].NewGen? && st.pc[c].k <= CPUS
    ensures Shape(n) && n.pc[c].NewGen?
    decreases CPUS - st.pc[c].k
  {
    if st.pc[c].k == CPUS then st else SwapAll(GenSwapStep(st, c), c)
  }

  /** new_context: the decision, and the whole of a new generation when one is needed. */
  function Decided(st: State, c: nat): (n: State)
    requires Shape(st) && c < CPUS && st.pc[c].Loaded?
    ensures Shape(n)
  {
    var d := SlowDecideStep(st, c);
    if d.pc[c].NewGen? then GenFlushStep(SwapAll(d, c), c) else d
  }

  function Stored(st: State, c: nat): (n: State)
    requires Shape(st) && c < CPUS
    ensures Shape(n)
  {
    if st.pc[c].Store? then SlowStoreStep(st, c) else st
  }

  /** activate: from the lock to the active word. */
  function Activated(st: State, c: nat): (n: State)
    requires Shape(st) && c < CPUS && st.pc[c].Locked?
    ensures Shape(n)
  {
    var d := Stored(Decided(SlowLoadStep(st, c), c), c);
    if d.pc[c].Mine? then SlowActiveStep(SlowMineStep(d, c), c) else d
  }

  function CasAll(st: State, c: nat): (n: State)
    requires Shape(st) && c < CPUS && st.pc[c].RelCas? && st.pc[c].k <= CPUS
    ensures Shape(n)
    decreases CPUS - st.pc[c].k
  {
    if st.pc[c].k == CPUS then RelCasStepStep(st, c) else CasAll(RelCasStepStep(st, c), c)
  }

  /** release: from the lock to the number that came free. */
  function Released(st: State, c: nat): (n: State)
    requires Shape(st) && c < CPUS && st.pc[c].RelLocked?
    ensures Shape(n)
  {
    var d := RelSwapStep(st, c);
    if d.pc[c].RelCas? then CasAll(d, c) else d
  }

  class AsidAllocator {
    const numbers: Bitmap
    const reserved: array<Id>

    ghost predicate Separate(cpus: AsidCpus)

    {
      && numbers.Arrays() && reserved.Length == CPUS && cpus.active.Length == CPUS
      && reserved != cpus.active
    }

    /** The objects hold what the protocol state `st` says. */
    ghost predicate Represents(st: State, cpus: AsidCpus)
      requires Separate(cpus)
      reads this, numbers, numbers.used, numbers.full, reserved, cpus, cpus.active
    {
      && numbers.Valid()
      && numbers.Model(reserved[..]) == st.alloc
      && cpus.generation == st.gen && cpus.flushPending == st.pending && cpus.active[..] == st.active
    }

    constructor (bits: nat)
      requires bits == 8 || bits == 16
      ensures numbers.Valid() && reserved.Length == CPUS && fresh(numbers) && fresh(numbers.used)
      ensures fresh(numbers.full) && fresh(reserved)
      ensures numbers.bits == bits && reserved[..] == NOBODY
      ensures numbers.Model(reserved[..]) == EmptyMap(Alloc(bits, {}, 0, 0, NOBODY))
    {
      numbers := new Bitmap(bits);
      reserved := new Id[CPUS](_ => VOID);
    }

    /** adopt: every reservation of exactly `prev` moves to this generation. */
    method Adopt(gen: nat, prev: Id) returns (r: Option<Id>)
      requires numbers.Arrays() && reserved.Length == CPUS
      modifies reserved
      ensures var a := old(numbers.Model(reserved[..]));
              if Adoptable(a, prev) then
                r == Some(Id(gen, prev.asid)) && numbers.Model(reserved[..]) == Adopted(a, gen, prev)
              else r == None && numbers.Model(reserved[..]) == a
    {
      if prev == VOID {
        return None;
      }
      var id, hit := Id(gen, prev.asid), false;
      for i := 0 to CPUS
        invariant forall j | 0 <= j < i :: reserved[j] == if old(reserved[j]) == prev then id else old(reserved[j])
        invariant forall j | i <= j < CPUS :: reserved[j] == old(reserved[j])
        invariant hit <==> prev in old(reserved[..])[..i]
      {
        if reserved[i] == prev {
          reserved[i] := id;
          hit := true;
        }
        assert old(reserved[..])[..i + 1] == old(reserved[..])[..i] + [old(reserved[i])];
      }
      assert old(reserved[..])[..CPUS] == old(reserved[..]);
      if hit {
        assert reserved[..] == Replace(old(reserved[..]), prev, id);
        return Some(id);
      }
      assert reserved[..] == old(reserved[..]);
      return None;
    }

    /** One turn of the loop in new_generation. */
    method SwapWord(cpus: AsidCpus, k: nat, ghost g: State, ghost c: nat)
      requires Separate(cpus) && Represents(g, cpus)
      requires Shape(g) && c < CPUS && g.pc[c].NewGen? && g.pc[c].k == k < CPUS
      requires InRange(GenSwapStep(g, c), k)
      modifies numbers`free, numbers.used, numbers.full, reserved, cpus.active
      ensures Represents(GenSwapStep(g, c), cpus)
    {
      var running := cpus.active[k];
      cpus.active[k] := VOID;
      if running != VOID {
        reserved[k] := running;
      }
      var kept := reserved[k];
      assert reserved[..] == GenSwapStep(g, c).alloc.reserved;
      assert cpus.active[..] == GenSwapStep(g, c).active;
      if kept != VOID {
        numbers.Set(kept.asid);
      }
    }

    /** The loop of new_generation, which CPU `c` runs in protocol state `g`. */
    method SwapWords(cpus: AsidCpus, ghost g: State, ghost c: nat)
      requires Separate(cpus) && Represents(g, cpus)
      requires c < CPUS && Inv(g) && g.pc[c].NewGen? && g.pc[c].k == 0
      modifies numbers`free, numbers.used, numbers.full, reserved, cpus.active
      ensures Represents(SwapAll(g, c), cpus)
    {
      ghost var now := g;
      var k := 0;
      while k < CPUS
        invariant k <= CPUS && Inv(now) && now.pc[c].NewGen? && now.pc[c].k == k
        invariant SwapAll(now, c) == SwapAll(g, c)
        invariant Represents(now, cpus)
      {
        SwapFacts(now, c);
        SwapWord(cpus, k, now, c);
        now := GenSwapStep(now, c);
        k := k + 1;
      }
    }

    /** Begins a generation whose counter is about to rise, up to the flushes owed. */
    method NewGeneration(cpus: AsidCpus, ghost st: State, ghost c: nat)
      requires Separate(cpus) && Represents(st, cpus) && c < CPUS && AsidGenerations.Raising(st, c)
      modifies numbers`free, numbers`next, numbers.used, numbers.full, reserved, cpus, cpus.active
      ensures Represents(Raised(st, c), cpus)
      ensures cpus.generation == old(cpus.generation) + 1 && cpus.flushPending == ALL_CPUS
      ensures forall k: nat | k < CPUS :: cpus.active[k] == VOID
      ensures numbers.Model(reserved[..]) == StartOf(old(numbers.Model(reserved[..])), old(cpus.active[..]))
    {
      hide StartOf, Raised, HolderOk, ActiveOk, ReservedOk, UniqueOk, UsedOk, FastOk, TtbrOk, TlbOk, CleanOk, IdsOk;
      RaisedStarts(st, c);
      RaiseFacts(st, c);
      RaisedIs(st, c);
      ghost var g := SlowDecideStep(st, c);
      cpus.generation := cpus.generation + 1;
      numbers.ClearWords();
      numbers.EmptyMapInPlace();
      SwapWords(cpus, g, c);
      cpus.flushPending := ALL_CPUS;
    }

    /** The number in a generation that just began: a reserved one or a free one. */
    method AdoptOrTake(cpus: AsidCpus, prev: Id, ghost st: State, ghost c: nat) returns (id: Id)
      requires Separate(cpus) && Represents(st, cpus)
      requires Shape(st) && c < CPUS && st.pc[c].Loaded? && st.pc[c].id == prev && prev.gen != st.gen
      requires Adoptable(st.alloc, prev) || st.alloc.free > 0
      modifies numbers`free, numbers`next, numbers.used, numbers.full, reserved
      ensures Represents(SlowDecideStep(st, c), cpus)
      ensures SlowDecideStep(st, c).pc[c] == Store(st.pc[c].s, id)
    {
      var kept := Adopt(cpus.generation, prev);
      if kept.Some? {
        return kept.value;
      }
      var i := numbers.Take();
      return Id(cpus.generation, i);
    }

    /** new_context: a space from an earlier generation, or a new one, gets a current tag. */
    method NewContext(cpus: AsidCpus, prev: Id, ghost st: State, ghost c: nat) returns (id: Id)
      requires Separate(cpus) && Represents(st, cpus)
      requires Inv(st) && c < CPUS && st.pc[c].Loaded? && st.pc[c].id == prev && prev.gen != st.gen
      modifies numbers`free, numbers`next, numbers.used, numbers.full, reserved, cpus, cpus.active
      ensures Represents(Decided(st, c), cpus)
      ensures Decided(st, c).pc[c] == Store(st.pc[c].s, id)
    {
      MapNotNegative(st.alloc);
      var kept := Adopt(cpus.generation, prev);
      if kept.Some? {
        return kept.value;
      }
      if numbers.free == 0 {
        NewGeneration(cpus, st, c);
        RaisedFacts(st, c);
        // Its old tag may be one that a CPU kept across the change of generation.
        id := AdoptOrTake(cpus, prev, Raised(st, c), c);
        return;
      }
      var i := numbers.Take();
      return Id(cpus.generation, i);
    }

    /** The first half of activate: the tag, given a number of this generation if need be. */
    method Renew(cpus: AsidCpus, cpu: nat, tag: AsidTag, ghost st: State, ghost s: Space) returns (id: Id)
      requires Separate(cpus) && Represents(st, cpus) && tag.id == Tag(st, s)
      requires Inv(st) && cpu < CPUS && st.pc[cpu] == Locked(s)
      modifies numbers`free, numbers`next, numbers.used, numbers.full, reserved, cpus, cpus.active, tag
      ensures var n := Stored(Decided(SlowLoadStep(st, cpu), cpu), cpu);
              Represents(n, cpus) && tag.id == Tag(n, s) == id && n.pc[cpu] == Mine(s, id)
    {
      hide MapOk, HolderOk, ActiveOk, ReservedOk, UniqueOk, UsedOk, FastOk, TtbrOk, TlbOk, CleanOk, IdsOk;
      id := tag.id;
      ghost var loaded := SlowLoadStep(st, cpu);
      LoadFacts(st, cpu);
      if id.gen != cpus.generation {
        id := NewContext(cpus, id, loaded, cpu);
        tag.id := id;
      }
    }

    /** activate, in the protocol state `st` in which CPU `cpu` has just taken the lock for
        space `s`: with no other CPU in between it does the protocol's steps. */
    method Activate(cpus: AsidCpus, cpu: nat, tag: AsidTag, ghost st: State, ghost s: Space)
      returns (asid: nat, flush: bool)
      requires Separate(cpus) && Represents(st, cpus) && tag.id == Tag(st, s)
      requires Inv(st) && cpu < CPUS && st.pc[cpu] == Locked(s)
      modifies numbers`free, numbers`next, numbers.used, numbers.full, reserved, cpus, cpus.active, tag
      ensures Represents(Activated(st, cpu), cpus) && tag.id == Tag(Activated(st, cpu), s)
      ensures Activated(st, cpu).pc[cpu] == if flush then Park(s, tag.id) else Install(s, tag.id)
      ensures asid == tag.id.asid
      ensures flush <==> cpu in old(cpus.flushPending) || cpus.generation != old(cpus.generation)
      ensures Activation(cpu, old(tag.id), old(cpus.generation), old(cpus.flushPending), old(cpus.active[..]),
                         old(numbers.Model(reserved[..])), tag.id, flush, cpus.generation, cpus.flushPending,
                         cpus.active[..], numbers.Model(reserved[..]))
    {
      hide MapOk, HolderOk, ActiveOk, ReservedOk, UniqueOk, UsedOk, FastOk, TtbrOk, TlbOk, CleanOk, IdsOk, Decided,
           Stored, Numbered, StartOf;
      ActivatedIs(st, cpu);
      ghost var mine := Stored(Decided(SlowLoadStep(st, cpu), cpu), cpu);
      var id := Renew(cpus, cpu, tag, st, s);
      flush := cpu in cpus.flushPending;
      cpus.flushPending := cpus.flushPending - {cpu};
      cpus.active[cpu] := id;
      assert cpus.active[..] == mine.active[cpu := id];
      asid := id.asid;
    }

    /** The loop of release over the active words. */
    method ClearActive(cpus: AsidCpus, id: Id, ghost st: State, ghost c: nat)
      requires Separate(cpus) && Represents(st, cpus)
      requires Shape(st) && c < CPUS && st.pc[c].RelCas? && st.pc[c].id == id && st.pc[c].k == 0
      modifies cpus.active
      ensures Represents(CasWords(st, c), cpus)
    {
      ghost var now := st;
      var k := 0;
      while k < CPUS
        invariant k <= CPUS && Shape(now) && now.pc[c].RelCas? && now.pc[c].k == k && now.pc[c].id == id
        invariant CasWords(now, c) == CasWords(st, c)
        invariant Represents(now, cpus)
      {
        if cpus.active[k] == id {
          cpus.active[k] := VOID;
        }
        now := RelCasStepStep(now, c);
        assert cpus.active[..] == now.active;
        k := k + 1;
      }
    }

    /** The reservations of a tag that goes; whether there were any. */
    method DropReserved(id: Id) returns (owned: bool)
      requires numbers.Arrays() && reserved.Length == CPUS
      modifies reserved
      ensures numbers.Model(reserved[..]) == Dropped(old(numbers.Model(reserved[..])), id)
      ensures owned <==> id in old(reserved[..])
    {
      owned := false;
      for i := 0 to CPUS
        invariant forall j | 0 <= j < i :: reserved[j] == if old(reserved[j]) == id then VOID else old(reserved[j])
        invariant forall j | i <= j < CPUS :: reserved[j] == old(reserved[j])
        invariant owned <==> id in old(reserved[..])[..i]
      {
        if reserved[i] == id {
          reserved[i] := VOID;
          owned := true;
        }
        assert old(reserved[..])[..i + 1] == old(reserved[..])[..i] + [old(reserved[i])];
      }
      assert old(reserved[..])[..CPUS] == old(reserved[..]);
      assert reserved[..] == Replace(old(reserved[..]), id, VOID);
    }

    /** What release does for a tag that is not void, in the place where the protocol has
        just voided it. */
    method DropTag(cpus: AsidCpus, id: Id, ghost st: State, ghost c: nat) returns (r: Option<nat>)
      requires Separate(cpus) && Represents(st, cpus)
      requires Shape(st) && c < CPUS && st.pc[c].RelLocked? && id == Tag(st, st.pc[c].s) != VOID
      requires id.asid != 0 && (id.gen == st.gen || id in st.alloc.reserved ==> id.asid in st.alloc.used)
      modifies numbers`free, numbers.used, numbers.full, reserved, cpus.active
      ensures Represents(Released(st, c), cpus)
      ensures Released(st, c).pc[c] == if r.Some? then RelTlbi(st.pc[c].s, id) else Idle
      ensures r.Some? ==> r.value == id.asid
    {
      hide Released, CasWords;
      ghost var cas := RelSwapStep(st, c);
      ReleaseEnds(st, c);
      var owned := DropReserved(id);
      owned := owned || id.gen == cpus.generation;
      ClearActive(cpus, id, cas, c);
      if !owned {
        return None;
      }
      numbers.Unset(id.asid);
      return Some(id.asid);
    }

    /** release, in the protocol state in which CPU `c` holds the lock for it. */
    method Release(cpus: AsidCpus, tag: AsidTag, ghost st: State, ghost c: nat, ghost s: Space)
      returns (r: Option<nat>)
      requires Separate(cpus) && Represents(st, cpus) && tag.id == Tag(st, s)
      requires Inv(st) && c < CPUS && st.pc[c] == RelLocked(s)
      modifies numbers`free, numbers.used, numbers.full, reserved, cpus.active, tag
      ensures Represents(Released(st, c), cpus) && tag.id == Tag(Released(st, c), s) == VOID
      ensures Released(st, c).pc[c] == if r.Some? then RelTlbi(s, old(tag.id)) else Idle
      ensures Dropping(old(tag.id), cpus.generation, old(cpus.active[..]), old(numbers.Model(reserved[..])),
                       r, cpus.active[..], numbers.Model(reserved[..]))
    {
      hide Dropping, HolderOk, ActiveOk, ReservedOk, UniqueOk, UsedOk, FastOk, TtbrOk, TlbOk, CleanOk, IdsOk, CasAll;
      ReleasedDrops(st, c);
      var id := tag.id;
      tag.id := VOID;
      if id == VOID {
        return None;
      }
      NumberIsMarked(st, c);
      ReleaseEnds(st, c);
      r := DropTag(cpus, id, st, c);
    }
  }

  /** Every compare-and-swap of a release. */
  function CasWords(st: State, c: nat): (n: State)
    requires Shape(st) && c < CPUS && st.pc[c].RelCas? && st.pc[c].k <= CPUS
    ensures Shape(n) && n.pc[c] == RelCas(st.pc[c].s, st.pc[c].id, st.pc[c].owned, CPUS)
    ensures n.alloc == st.alloc && n.tags == st.tags
    decreases CPUS - st.pc[c].k
  {
    if st.pc[c].k == CPUS then st else CasWords(RelCasStepStep(st, c), c)
  }

  lemma {:induction false} CasAllIsWords(st: State, c: nat)
    requires Shape(st) && c < CPUS && st.pc[c].RelCas? && st.pc[c].k <= CPUS
    ensures CasAll(st, c) == RelCasStepStep(CasWords(st, c), c)
    decreases CPUS - st.pc[c].k
  {
    if st.pc[c].k < CPUS {
      CasAllIsWords(RelCasStepStep(st, c), c);
    }
  }

  /** The end of a release whose compare-and-swaps led to `w`. */
  ghost predicate ReleasedIs(st: State, c: nat, w: State, owned: bool, id: Id)
    requires Shape(st) && c < CPUS && st.pc[c].RelLocked?
  {
    var n := Released(st, c);
    && n.gen == w.gen && n.pending == w.pending && n.active == w.active && n.tags == w.tags
    && Tag(n, st.pc[c].s) == VOID
    && n.alloc == (if owned then Unmark(w.alloc, id.asid) else w.alloc)
    && n.pc[c] == (if owned then RelTlbi(st.pc[c].s, id) else Idle)
    && w.alloc == Dropped(st.alloc, id)
  }

  lemma LoadFacts(st: State, c: nat)
    requires Inv(st) && Enabled(st, SlowLoad(c))
    ensures Inv(SlowLoadStep(st, c))
  {
    StepInv(st, SlowLoad(c));
  }

  /** A release that owns its number finds it marked: the assertion in unset holds. */
  lemma NumberIsMarked(st: State, c: nat)
    requires Inv(st) && Enabled(st, RelSwap(c)) && Tag(st, st.pc[c].s) != VOID
    ensures var id := Tag(st, st.pc[c].s);
            id.asid != 0 && (id.gen == st.gen || id in st.alloc.reserved ==> id.asid in st.alloc.used)
  {
    assert IdOk(st, Tag(st, st.pc[c].s));
    assert Held(st, st.pc[c].s) == Tag(st, st.pc[c].s);
  }

  lemma ReleaseEnds(st: State, c: nat)
    requires Shape(st) && c < CPUS && st.pc[c].RelLocked?
    requires var id := Tag(st, st.pc[c].s);
             id != VOID && (id.gen == st.gen || id in st.alloc.reserved ==> id.asid in st.alloc.used)
    ensures var n := RelSwapStep(st, c); var id := Tag(st, st.pc[c].s);
            ReleasedIs(st, c, CasWords(n, c), id.gen == st.gen || id in st.alloc.reserved, id)
  {
    var n := RelSwapStep(st, c);
    CasAllIsWords(n, c);
  }

  /** A raised generation once every CPU owes its flush, before the space gets a number. */
  function Raised(st: State, c: nat): (n: State)
    requires Shape(st) && c < CPUS && st.pc[c].Loaded? && SlowDecideStep(st, c).pc[c].NewGen?
    ensures Shape(n)
  {
    AsidGenerations.Begun(SwapAll(SlowDecideStep(st, c), c), c)
  }

  lemma RaiseFacts(st: State, c: nat)
    requires AsidGenerations.Raising(st, c)
    ensures c < CPUS && Inv(SlowDecideStep(st, c)) && SlowDecideStep(st, c).pc[c].NewGen?
    ensures SlowDecideStep(st, c).pc[c].k == 0
  {
    AsidGenerations.RaiseInv(st, c);
  }

  lemma {:induction false} SwapAllInv(st: State, c: nat)
    requires Inv(st) && c < CPUS && st.pc[c].NewGen? && st.pc[c].k <= CPUS
    ensures Inv(SwapAll(st, c)) && SwapAll(st, c).gen == st.gen
    ensures SwapAll(st, c).pc[c] == NewGen(st.pc[c].s, st.pc[c].id, CPUS, st.pc[c].was)
    decreases CPUS - st.pc[c].k
  {
    if st.pc[c].k < CPUS {
      AsidGenerations.GenSwapInv(st, c);
      SwapAllInv(GenSwapStep(st, c), c);
    }
  }

  lemma RaisedFacts(st: State, c: nat)
    requires AsidGenerations.Raising(st, c)
    ensures var n := Raised(st, c);
            && n.pc[c] == st.pc[c] && n.gen == st.gen + 1
            && n.pc[c].id.gen != n.gen && n.alloc.free > 0
            && Decided(st, c) == SlowDecideStep(n, c)
  {
    RaiseFacts(st, c);
    var g := SlowDecideStep(st, c);
    SwapAllInv(g, c);
    var w := SwapAll(g, c);
    assert WindowOk(w, CPUS, g.pc[c].was);
  }

  predicate InRange(st: State, k: nat)
    requires Shape(st) && k < CPUS
  {
    st.alloc.reserved[k] != VOID ==> st.alloc.reserved[k].asid < Limit(st.alloc.bits)
  }

  lemma SwapFacts(st: State, c: nat)
    requires Inv(st) && Enabled(st, GenSwap(c))
    ensures Inv(GenSwapStep(st, c)) && InRange(GenSwapStep(st, c), st.pc[c].k)
  {
    AsidGenerations.SwapMap(st, c);
    AsidGenerations.GenSwapInv(st, c);
  }

  /** Where a decision leads, when the allocator's map is not broken. */
  lemma DecidePlaces(st: State, c: nat)
    requires Shape(st) && c < CPUS && st.pc[c].Loaded?
    ensures var p := SlowDecideStep(st, c).pc[c];
            p.Mine? || p.Store? || p.Panicked? || (p.NewGen? && p.k == 0)
  {
  }

  lemma BeginsInv(st: State, c: nat)
    requires Inv(st) && c < CPUS && st.pc[c].NewGen? && st.pc[c].k == 0
    ensures var n := GenFlushStep(SwapAll(st, c), c); Inv(n) && (n.pc[c].Store? || n.pc[c].Panicked?)
  {
    hide SwapAll, MapOk, HolderOk, ActiveOk, ReservedOk, UniqueOk, UsedOk, FastOk, TtbrOk, TlbOk, CleanOk, IdsOk,
         GenFlushStep;
    SwapAllInv(st, c);
    AsidGenerations.GenFlushInv(SwapAll(st, c), c);
    FlushPlaces(SwapAll(st, c), c);
  }

  lemma FlushPlaces(st: State, c: nat)
    requires Shape(st) && c < CPUS && st.pc[c].NewGen?
    ensures GenFlushStep(st, c).pc[c].Store? || GenFlushStep(st, c).pc[c].Panicked?
  {
  }

  lemma NotPanicked(st: State, c: nat)
    requires Inv(st) && c < CPUS
    ensures !st.pc[c].Panicked?
  {
  }

  lemma DecidedInv(st: State, c: nat)
    requires Inv(st) && c < CPUS && st.pc[c].Loaded?
    ensures Inv(Decided(st, c))
    ensures Decided(st, c).pc[c].Store? || Decided(st, c).pc[c].Mine?
  {
    SlowDecideInv(st, c);
    DecidePlaces(st, c);
    var d := SlowDecideStep(st, c);
    if d.pc[c].NewGen? {
      BeginsInv(d, c);
    }
    NotPanicked(Decided(st, c), c);
  }

  lemma StoredInv(st: State, c: nat)
    requires Inv(st) && c < CPUS && (st.pc[c].Store? || st.pc[c].Mine?)
    ensures Inv(Stored(st, c)) && Stored(st, c).pc[c].Mine?
  {
    if st.pc[c].Store? {
      StepInv(st, SlowStore(c));
    }
  }

  lemma MineInv(st: State, c: nat)
    requires Inv(st) && c < CPUS && st.pc[c].Mine?
    ensures var n := SlowActiveStep(SlowMineStep(st, c), c);
            Inv(n) && (n.pc[c].Park? || n.pc[c].Install?)
  {
    StepInv(st, SlowMine(c));
    StepInv(SlowMineStep(st, c), SlowActive(c));
  }

  /** A whole activation under the lock is a run of protocol steps: the invariant holds
      after it, so no assertion fired. */
  lemma ActivatedInv(st: State, c: nat)
    requires Inv(st) && c < CPUS && st.pc[c].Locked?
    ensures Inv(Activated(st, c)) && (Activated(st, c).pc[c].Park? || Activated(st, c).pc[c].Install?)
  {
    LoadFacts(st, c);
    var d := Decided(SlowLoadStep(st, c), c);
    DecidedInv(SlowLoadStep(st, c), c);
    StoredInv(d, c);
    MineInv(Stored(d, c), c);
  }

  lemma {:induction false} CasAllInv(st: State, c: nat)
    requires Inv(st) && c < CPUS && st.pc[c].RelCas? && st.pc[c].k <= CPUS
    ensures Inv(CasAll(st, c))
    decreases CPUS - st.pc[c].k
  {
    StepInv(st, RelCasStep(c));
    if st.pc[c].k < CPUS {
      CasAllInv(RelCasStepStep(st, c), c);
    }
  }

  /** So is a whole release. */
  lemma ReleasedInv(st: State, c: nat)
    requires Inv(st) && c < CPUS && st.pc[c].RelLocked?
    ensures Inv(Released(st, c))
  {
    StepInv(st, RelSwap(c));
    if RelSwapStep(st, c).pc[c].RelCas? {
      CasAllInv(RelSwapStep(st, c), c);
    }
  }

  // ----- the calls in terms of what they find -----

  lemma NumbersStep(q: seq<Id>, k: nat)
    requires k < |q|
    ensures Numbers(q, k) == (if q[k] != VOID then {q[k].asid} else {}) + Numbers(q, k + 1)
  {
  }

  lemma NoNumbers(q: seq<Id>)
    ensures Numbers(q, |q|) == {}
  {
  }

  /** The swaps of a generation, all of them from the `k`-th on. */
  ghost predicate SwappedFrom(st: State, n: State, k: nat)
    requires Shape(st) && Shape(n)
  {
    && (forall j: nat | j < CPUS :: n.active[j] == if j < k then st.active[j] else VOID)
    && (forall j: nat | j < CPUS ::
          n.alloc.reserved[j] ==
          if j >= k && st.active[j] != VOID then st.active[j] else st.alloc.reserved[j])
    && n.alloc.used == st.alloc.used + Numbers(n.alloc.reserved, k)
    && n.alloc.next == st.alloc.next && n.alloc.bits == st.alloc.bits
    && n.gen == st.gen && n.pending == st.pending && n.tags == st.tags
  }

  lemma SwappedOne(st: State, m: State, n: State, k: nat)
    requires Shape(st) && Shape(m) && Shape(n) && k < CPUS && SwappedFrom(m, n, k + 1)
    requires m.active == st.active[k := VOID] && m.alloc == Keep(st.alloc, k, st.active[k])
    requires m.gen == st.gen && m.pending == st.pending && m.tags == st.tags
    ensures SwappedFrom(st, n, k)
  {
    hide Numbers;
    NumbersStep(n.alloc.reserved, k);
    assert n.alloc.reserved[k] == m.alloc.reserved[k];
  }

  lemma {:induction false} SwapAllIs(st: State, c: nat)
    requires Shape(st) && c < CPUS && st.pc[c].NewGen? && st.pc[c].k <= CPUS
    ensures SwappedFrom(st, SwapAll(st, c), st.pc[c].k)
    decreases CPUS - st.pc[c].k
  {
    hide SwappedFrom;
    if st.pc[c].k < CPUS {
      SwapAllIs(GenSwapStep(st, c), c);
      SwappedOne(st, GenSwapStep(st, c), SwapAll(st, c), st.pc[c].k);
    } else {
      SwappedNone(st);
    }
  }

  lemma SwappedNone(st: State)
    requires Shape(st)
    ensures SwappedFrom(st, st, CPUS)
  {
    NoNumbers(st.alloc.reserved);
  }

  lemma RaisedIs(st: State, c: nat)
    requires Shape(st) && c < CPUS && st.pc[c].Loaded? && SlowDecideStep(st, c).pc[c].NewGen?
    ensures var n, w := Raised(st, c), SwapAll(SlowDecideStep(st, c), c);
            n.alloc == w.alloc && n.gen == w.gen && n.active == w.active && n.pending == ALL_CPUS
  {
  }

  /** A generation begins with what the CPUs run or kept, and with nothing else used. */
  lemma RaisedStarts(st: State, c: nat)
    requires AsidGenerations.Raising(st, c)
    ensures c < CPUS && Shape(st) && st.pc[c].Loaded? && SlowDecideStep(st, c).pc[c].NewGen?
    ensures var n := Raised(st, c);
            && n.alloc == StartOf(st.alloc, st.active) && n.gen == st.gen + 1 && n.pending == ALL_CPUS
            && n.tags == st.tags && MapOk(n.alloc) && n.alloc.free > 0
            && forall k: nat | k < CPUS :: n.active[k] == VOID
  {
    hide Numbers;
    RaiseFacts(st, c);
    var g := SlowDecideStep(st, c);
    SwapAllIs(g, c);
    SwapAllInv(g, c);
    var w := SwapAll(g, c);
    RaisedFacts(st, c);
    assert w.alloc.reserved == KeptAcross(st.active, st.alloc.reserved);
  }

  lemma ReplaceMoves(r: seq<Id>, prev: Id, id: Id)
    ensures Moved(r, prev, id, Replace(r, prev, id))
  {
  }

  /** A decision that needs no new generation. */
  lemma DecidedNumbers(st: State, c: nat)
    requires Shape(st) && c < CPUS && st.pc[c].Loaded? && MapOk(st.alloc) && st.pc[c].id.gen != st.gen
    requires IsReserved(st.alloc, st.pc[c].id) || st.alloc.free > 0
    ensures var n := SlowDecideStep(st, c);
            && n.pc[c].Store? && n.pc[c].s == st.pc[c].s
            && Numbered(st.alloc, st.gen, st.pc[c].id, n.alloc, n.pc[c].id)
            && n.gen == st.gen && n.pending == st.pending && n.active == st.active && n.tags == st.tags
  {
    ReplaceMoves(st.alloc.reserved, st.pc[c].id, Id(st.gen, st.pc[c].id.asid));
    if !IsReserved(st.alloc, st.pc[c].id) {
      NextFreeFinds(st.alloc);
    }
  }

  /** activate up to the tag. */
  ghost predicate Renewed(st: State, c: nat, n: State)
    requires Shape(st) && c < CPUS && st.pc[c].Loaded? && Shape(n)
  {
    var prev := st.pc[c].id;
    var raised := Raises(st.alloc, st.gen, prev);
    && n.pc[c].Mine? && n.pc[c].s == st.pc[c].s && Tag(n, st.pc[c].s) == n.pc[c].id
    && n.gen == (if raised then st.gen + 1 else st.gen)
    && n.pending == (if raised then ALL_CPUS else st.pending)
    && (forall k: nat | k < CPUS :: n.active[k] == if raised then VOID else st.active[k])
    && (if prev.gen == st.gen then n.pc[c].id == prev && n.alloc == st.alloc
        else Numbered(if raised then StartOf(st.alloc, st.active) else st.alloc, n.gen, prev, n.alloc, n.pc[c].id))
  }

  lemma RenewedIs(st: State, c: nat)
    requires Inv(st) && c < CPUS && st.pc[c].Loaded? && Tag(st, st.pc[c].s) == st.pc[c].id
    ensures Renewed(st, c, Stored(Decided(st, c), c))
  {
    hide MapOk, HolderOk, ActiveOk, ReservedOk, UniqueOk, UsedOk, FastOk, TtbrOk, TlbOk, CleanOk, IdsOk, Numbered,
         StartOf, Raised;
    var prev := st.pc[c].id;
    if prev.gen != st.gen {
      if Raises(st.alloc, st.gen, prev) {
        RaisedStarts(st, c);
        RaisedFacts(st, c);
        DecidedNumbers(Raised(st, c), c);
      } else {
        MapNotNegative(st.alloc);
        DecidedNumbers(st, c);
      }
    }
  }

  /** A whole activation. */
  lemma ActivatedIs(st: State, c: nat)
    requires Inv(st) && c < CPUS && st.pc[c].Locked?
    ensures var n, s := Activated(st, c), st.pc[c].s;
            && Activation(c, Tag(st, s), st.gen, st.pending, st.active, st.alloc,
                          Tag(n, s), n.pc[c].Park?, n.gen, n.pending, n.active, n.alloc)
            && n.pc[c] == if n.pc[c].Park? then Park(s, Tag(n, s)) else Install(s, Tag(n, s))
  {
    hide MapOk, HolderOk, ActiveOk, ReservedOk, UniqueOk, UsedOk, FastOk, TtbrOk, TlbOk, CleanOk, IdsOk, Numbered,
         StartOf, Decided, Stored, Raises;
    LoadFacts(st, c);
    var loaded := SlowLoadStep(st, c);
    RenewedIs(loaded, c);
  }

  lemma {:induction false} CasWordsIs(st: State, c: nat)
    requires Shape(st) && c < CPUS && st.pc[c].RelCas? && st.pc[c].k <= CPUS
    ensures var n, p := CasWords(st, c), st.pc[c];
            && n.gen == st.gen && n.pending == st.pending
            && forall j: nat | j < CPUS ::
                 n.active[j] == if j >= p.k && st.active[j] == p.id then VOID else st.active[j]
    decreases CPUS - st.pc[c].k
  {
    if st.pc[c].k < CPUS {
      CasWordsIs(RelCasStepStep(st, c), c);
    }
  }

  /** A whole release. */
  lemma ReleasedDrops(st: State, c: nat)
    requires Inv(st) && c < CPUS && st.pc[c].RelLocked?
    ensures var n, id := Released(st, c), Tag(st, st.pc[c].s);
            Dropping(id, st.gen, st.active, st.alloc,
                     if n.pc[c].RelTlbi? then Some(id.asid) else None, n.active, n.alloc) && n.gen == st.gen
  {
    hide HolderOk, ActiveOk, ReservedOk, UniqueOk, UsedOk, FastOk, TtbrOk, TlbOk, CleanOk, IdsOk, MapOk;
    var id := Tag(st, st.pc[c].s);
    ReplaceMoves(st.alloc.reserved, id, VOID);
    if id != VOID {
      NumberIsMarked(st, c);
      ReleaseEnds(st, c);
      CasWordsIs(RelSwapStep(st, c), c);
    }
  }
}
