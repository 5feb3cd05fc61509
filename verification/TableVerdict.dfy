/** What a call of map comes to, told from the tree before the call. */
module TableVerdict {
  import opened Common
  import opened Descriptors
  import opened TableTree
  import opened TableRange
  import opened TableMap
  import opened TableWay

  datatype MapError = Misaligned | WriteAndExecute | AlreadyMapped | NoMemory | NotMapped | NotUser

  datatype Outcome<+T> = Ok(value: T) | Err(error: MapError)

  // ----- the turns of the loop -----

  /** The level at which the loop maps at an offset: a block where both addresses and the
      rest of the range allow. */
  function LevelAt(va: nat, pa: nat, size: nat, off: nat, blocks: bool): (l: nat)
    requires off <= size
    ensures LeafLevel(l)
  {
    if blocks && Added(va, off) % BLOCK_2M == 0 && (pa + off) % BLOCK_2M == 0 && size - off >= BLOCK_2M then 2 else 3
  }

  /** The alignment the loop keeps. */
  lemma LevelAligned(va: nat, pa: nat, size: nat, off: nat, blocks: bool)
    requires off < size && va % PAGE == 0 && pa % PAGE == 0 && size % PAGE == 0 && off % PAGE == 0
    ensures var step := Span(LevelAt(va, pa, size, off, blocks) + 1);
            && Added(va, off) % step == 0 && (pa + off) % step == 0 && off + step <= size && (off + step) % PAGE == 0
    ensures !blocks ==> LevelAt(va, pa, size, off, blocks) == 3
  {
    if LevelAt(va, pa, size, off, blocks) == 3 {
      AddedAligned(va, off);
      SumAligned(pa, off);
      SumAligned(off, PAGE);
      MultipleBelow(off, size);
    } else {
      SumAligned(off, BLOCK_2M);
    }
  }

  lemma AddedAligned(va: nat, off: nat)
    requires va % PAGE == 0 && off % PAGE == 0
    ensures Added(va, off) % PAGE == 0
  {
  }

  lemma SumAligned(a: nat, b: nat)
    requires a % PAGE == 0 && b % PAGE == 0
    ensures (a + b) % PAGE == 0
  {
  }

  lemma MultipleBelow(a: nat, b: nat)
    requires a % PAGE == 0 && b % PAGE == 0 && a < b
    ensures a + PAGE <= b
  {
  }

  /** The entry at an offset is not to be had: something stands in its way, or the range
      has come round to itself. */
  ghost predicate Barred(words: Words, at: Places, va: nat, off: nat, level: nat) {
    Blocked(words, at, Added(va, off), level) || off + Span(level + 1) > VA_SPAN
  }

  ghost predicate BarredAt(words: Words, at: Places, va: nat, pa: nat, size: nat, off: nat, blocks: bool)
    requires off <= size
  {
    Barred(words, at, va, off, LevelAt(va, pa, size, off, blocks))
  }

  /** The tables that a turn needs. */
  ghost function TablesAt(va: nat, pa: nat, size: nat, off: nat, blocks: bool): set<Node>
    requires off <= size
  {
    Way(Added(va, off), LevelAt(va, pa, size, off, blocks))
  }

  ghost function Next(va: nat, pa: nat, size: nat, off: nat, blocks: bool): (next: nat)
    requires off <= size
    ensures next > off
  {
    off + Span(LevelAt(va, pa, size, off, blocks) + 1)
  }

  /** The outcome and how far the loop comes from `off` on, with the tables of `have` there
      and room for `room` more. Only the words and places before the call are looked at. */
  ghost function Verdict(words: Words, at: Places, have: set<Node>, room: nat,
                         va: nat, pa: nat, size: nat, off: nat, blocks: bool): (Outcome<()>, nat)
    decreases size - off
  {
    if off >= size then
      (Ok(()), off)
    else
      var way := TablesAt(va, pa, size, off, blocks);
      if BarredAt(words, at, va, pa, size, off, blocks) then
        (Err(AlreadyMapped), off)
      else if |way - have| > room then
        (Err(NoMemory), off)
      else
        Verdict(words, at, have + way, room - |way - have|, va, pa, size, Next(va, pa, size, off, blocks), blocks)
  }

  // ----- the tree at a turn, seen from the tree before the call -----

  /** No leaf was written yet for the addresses that are still to come. */
  ghost predicate Ahead(words0: Words, at0: Places, words: Words, at: Places, va: nat, off: nat) {
    forall v: nat | Offset(v, va) >= off :: Kept(words0, at0, words, at, v)
  }

  lemma AheadOfAll(words: Words, at: Places, va: nat)
    ensures Ahead(words, at, words, at, va, 0)
  {
  }

  /** Every way but those through one entry is kept. */
  ghost predicate KeptBut(words0: Words, at0: Places, words: Words, at: Places, w: nat, level: nat) {
    Larger(at0, at) && forall v: nat | Prefix(v, level + 1) != Prefix(w, level + 1) :: Kept(words0, at0, words, at, v)
  }

  lemma AheadStep(words0: Words, at0: Places, words: Words, at: Places, words': Words, at': Places,
                  va: nat, off: nat, level: nat)
    requires Larger(at0, at) && Ahead(words0, at0, words, at, va, off)
    requires KeptBut(words, at, words', at', Added(va, off), level)
    requires LeafLevel(level) && Added(va, off) % Span(level + 1) == 0 && off + Span(level + 1) <= VA_SPAN
    ensures Ahead(words0, at0, words', at', va, off + Span(level + 1))
  {
    hide Kept, Offset, Prefix, Span, Added;
    var step := Span(level + 1);
    forall v: nat | Offset(v, va) >= off + step ensures Kept(words0, at0, words', at', v) {
      StepOffsets(v, va, off, step);
      AddedOffset(v, va, off);
      SamePrefix(v, Added(va, off), level);
      KeptTwice(words0, at0, words, at, words', at', v);
    }
  }

  lemma AddedBack(va: nat, o: nat)
    requires o < VA_SPAN
    ensures Offset(Added(va, o), va) == o
  {
    AddedOffset(va, va, o);
    var turns: int := -65536 * ((va + o) / WORD);
    assert Added(va, o) - va == o + VA_SPAN * turns;
    IntMod(o, turns);
  }

  /** The tables made so far leave the next entry's own table alone. */
  lemma NoNewBelow(at0: Places, supply0: seq<nat>, at: Places, supply: seq<nat>, va: nat, off: nat, level: nat)
    requires Grew(at0, supply0, at, supply, va, off) && LeafLevel(level) && (forall n | n in at :: n.level <= 3)
    requires Added(va, off) % Span(level + 1) == 0 && off + Span(level + 1) <= VA_SPAN
    ensures On(Added(va, off), level + 1) in at ==> On(Added(va, off), level + 1) in at0
  {
    var w := Added(va, off);
    var n := On(w, level + 1);
    if n in at && n !in at0 {
      var o: nat :| o < off && o % PAGE == 0 && n == On(Added(va, o), n.level);
      SamePrefix(Added(va, o), w, level);
      AddedOffset(Added(va, o), va, off);
      StepOffsets(Added(va, o), va, off, Span(level + 1));
      AddedBack(va, o);
    }
  }

  /** What stands in the way at a turn is what stood there before the call, and nothing
      else unless the range has come round to itself. */
  lemma BarredNow(words0: Words, words: Words, root: nat, at0: Places, supply0: seq<nat>, at: Places, supply: seq<nat>,
                  va: nat, pa: nat, off: nat, attrs: Attrs, level: nat)
    requires Tree(words0, root, at0) && Tree(words, root, at) && Grew(at0, supply0, at, supply, va, off)
    requires MappedSoFar(words0, words, root, va, pa, off, attrs) && Ahead(words0, at0, words, at, va, off)
    requires LeafLevel(level) && Added(va, off) % Span(level + 1) == 0 && off <= VA_SPAN
    ensures Blocked(words, at, Added(va, off), level) <==> Barred(words0, at0, va, off, level)
  {
    hide MappedSoFar, Kept, Blocked, Grew, Span, Added, Closed, Injective, Needed;
    var w := Added(va, off);
    if off + Span(level + 1) > VA_SPAN {
      RoundIsBlocked(words0, words, root, at, va, pa, off, attrs, level);
    } else {
      SpanPositive(level);
      AddedBack(va, off);
      NoNewBelow(at0, supply0, at, supply, va, off, level);
      GrewLarger(at0, supply0, at, supply, va, off);
      WasBlocked(words0, at0, words, root, at, w, level);
      StillBlocked(words0, at0, words, root, at, w, level);
    }
  }

  lemma GrewLarger(at0: Places, supply0: seq<nat>, at: Places, supply: seq<nat>, va: nat, off: nat)
    requires Grew(at0, supply0, at, supply, va, off)
    ensures Larger(at0, at)
  {
  }

  lemma SpanPositive(level: nat)
    requires LeafLevel(level)
    ensures Span(level + 1) >= PAGE
  {
  }

  /** A range that has come round to itself meets its own leaves. */
  lemma RoundIsBlocked(words0: Words, words: Words, root: nat, at: Places,
                       va: nat, pa: nat, off: nat, attrs: Attrs, level: nat)
    requires Tree(words, root, at) && MappedSoFar(words0, words, root, va, pa, off, attrs)
    requires LeafLevel(level) && Added(va, off) % Span(level + 1) == 0 && off <= VA_SPAN < off + Span(level + 1)
    ensures Blocked(words, at, Added(va, off), level)
  {
    if !Blocked(words, at, Added(va, off), level) {
      FreeIsVacant(words, root, at, Added(va, off), level);
      RoomLeft(words0, words, root, va, pa, off, attrs, level);
    }
  }

  // ----- nothing was mapped there before -----

  /** None of the first `off` bytes of the range translates. */
  ghost predicate Fresh(words: Words, root: nat, va: nat, off: nat) {
    forall v: nat | Offset(v, va) < off :: Translate(words, root, v) == None
  }

  lemma FreshStep(words: Words, root: nat, at: Places, va: nat, off: nat, level: nat)
    requires Tree(words, root, at) && Fresh(words, root, va, off) && LeafLevel(level)
    requires Added(va, off) % Span(level + 1) == 0 && !Barred(words, at, va, off, level)
    ensures Fresh(words, root, va, off + Span(level + 1))
  {
    hide Translate, Tree, Blocked, Span, Added, Offset, Prefix;
    var w, step := Added(va, off), Span(level + 1);
    FreeIsVacant(words, root, at, w, level);
    forall v: nat | Offset(v, va) < off + step ensures Translate(words, root, v) == None {
      StepOffsets(v, va, off, step);
      AddedOffset(v, va, off);
      SamePrefix(v, w, level);
    }
  }

  // ----- one turn -----

  /** What the leaf of one turn came to. */
  ghost predicate LeafOutcome(r: Outcome<()>, words: Words, at: Places, room: nat, w: nat, level: nat) {
    && (r == Err(AlreadyMapped) <==> Blocked(words, at, w, level))
    && (r == Err(NoMemory) <==> !Blocked(words, at, w, level) && |Lacking(at, w, level)| > room)
    && (r.Err? ==> r.error == AlreadyMapped || r.error == NoMemory)
  }

  /** What the way to the entry came to. */
  ghost predicate WayOutcome<T(!new)>(r: Outcome<T>, words: Words, at: Places, room: nat, w: nat, level: nat) {
    && (r == Err(AlreadyMapped) <==> BlockedAbove(words, at, w, level))
    && (r == Err(NoMemory) <==> !BlockedAbove(words, at, w, level) && |Lacking(at, w, level)| > room)
    && (r.Err? ==> r.error == AlreadyMapped || r.error == NoMemory)
  }

  /** Where the way already fails, the leaf does. */
  lemma WayFails(words: Words, root: nat, at: Places, room: nat, w: nat, level: nat, error: MapError)
    requires Tree(words, root, at) && level <= 3 && WayOutcome<()>(Err(error), words, at, room, w, level)
    ensures LeafOutcome(Err(error), words, at, room, w, level)
  {
    hide Rooted, Closed, Injective, BlockedAt;
    if On(w, level) in at {
      forall n | n in Way(w, level) ensures n in at {
        OnAbove(words, root, at, w, n.level, level);
      }
      assert Lacking(at, w, level) == {};
    }
    if BlockedAbove(words, at, w, level) {
      var l: nat :| l < level && On(w, l) in at && BlockedAt(words, at, w, l, level);
      assert Blocked(words, at, w, level);
    }
  }

  lemma LeafKeepsBut(words0: Words, at0: Places, words: Words, words': Words, root: nat, at: Places, w: nat, level: nat,
                     d: Desc)
    requires KeptAll(words0, at0, words, at) && Tree(words, root, at) && level <= 3 && On(w, level) in at
    requires words' == words[OnSlot(at, w, level) := d]
    ensures KeptBut(words0, at0, words', at, w, level)
  {
    hide Kept, Tree, Prefix;
    forall v: nat | Prefix(v, level + 1) != Prefix(w, level + 1) ensures Kept(words0, at0, words', at, v) {
      LeafKeeps(words, words', root, at, w, level, d, v);
      KeptTwice(words0, at0, words, at, words', at, v);
    }
  }

  /** The tables that the turns before `end` need. */
  ghost function TablesTo(va: nat, pa: nat, size: nat, off: nat, blocks: bool, end: nat): set<Node>
    decreases size - off
  {
    if off >= size || off >= end then
      {}
    else
      TablesAt(va, pa, size, off, blocks) + TablesTo(va, pa, size, Next(va, pa, size, off, blocks), blocks, end)
  }

  /** The verdict of the call is the verdict from this turn on. */
  ghost predicate Heading(words0: Words, at0: Places, supply0: seq<nat>, at: Places, supply: seq<nat>,
                          va: nat, pa: nat, size: nat, off: nat, blocks: bool) {
    Verdict(words0, at0, at0.Keys, |supply0|, va, pa, size, 0, blocks)
    == Verdict(words0, at0, at.Keys, |supply|, va, pa, size, off, blocks)
  }

  /** The tables of the call are those that are there and those from this turn on. */
  ghost predicate Making(at0: Places, at: Places, va: nat, pa: nat, size: nat, off: nat, blocks: bool) {
    at0.Keys + TablesTo(va, pa, size, 0, blocks, size) == at.Keys + TablesTo(va, pa, size, off, blocks, size)
  }

  lemma MakingGoesOn(at0: Places, at: Places, at': Places, va: nat, pa: nat, size: nat, off: nat, blocks: bool)
    requires off < size && Making(at0, at, va, pa, size, off, blocks)
    requires at'.Keys == at.Keys + TablesAt(va, pa, size, off, blocks)
    ensures Making(at0, at', va, pa, size, Next(va, pa, size, off, blocks), blocks)
  {
    hide TablesAt, Next;
    var way := TablesAt(va, pa, size, off, blocks);
    var rest := TablesTo(va, pa, size, Next(va, pa, size, off, blocks), blocks, size);
    assert TablesTo(va, pa, size, off, blocks, size) == way + rest;
    assert at.Keys + (way + rest) == at.Keys + way + rest;
  }

  lemma TurnStops(words0: Words, at0: Places, supply0: seq<nat>, words: Words, at: Places, supply: seq<nat>,
                  va: nat, pa: nat, size: nat, off: nat, blocks: bool, r: Outcome<()>)
    requires off < size && Heading(words0, at0, supply0, at, supply, va, pa, size, off, blocks) && r.Err?
    requires var level := LevelAt(va, pa, size, off, blocks);
             && LeafOutcome(r, words, at, |supply|, Added(va, off), level)
             && (Blocked(words, at, Added(va, off), level) <==> Barred(words0, at0, va, off, level))
    ensures Verdict(words0, at0, at0.Keys, |supply0|, va, pa, size, 0, blocks) == (Err(r.error), off)
  {
    hide Barred, Blocked, Way, Added, LevelAt, TablesTo;
  }

  lemma TurnGoesOn(words0: Words, at0: Places, supply0: seq<nat>, words: Words, at: Places, supply: seq<nat>,
                   at': Places, supply': seq<nat>, va: nat, pa: nat, size: nat, off: nat, blocks: bool, r: Outcome<()>)
    requires off < size && Heading(words0, at0, supply0, at, supply, va, pa, size, off, blocks) && r.Ok?
    requires var level := LevelAt(va, pa, size, off, blocks);
             && LeafOutcome(r, words, at, |supply|, Added(va, off), level)
             && (Blocked(words, at, Added(va, off), level) <==> Barred(words0, at0, va, off, level))
    requires at'.Keys == at.Keys + TablesAt(va, pa, size, off, blocks) && |at'| + |supply'| == |at| + |supply|
    ensures !BarredAt(words0, at0, va, pa, size, off, blocks)
    ensures Heading(words0, at0, supply0, at', supply', va, pa, size, Next(va, pa, size, off, blocks), blocks)
  {
    hide Barred, Blocked, Way, Added, LevelAt, Span;
    Joined(at.Keys, TablesAt(va, pa, size, off, blocks));
  }

  // ----- the verdict, read off the turns -----

  /** The loop looks at offset `o` on its way from `off`. */
  ghost predicate Turn(va: nat, pa: nat, size: nat, off: nat, blocks: bool, o: nat)
    decreases size - off
  {
    off < size && (o == off || Turn(va, pa, size, Next(va, pa, size, off, blocks), blocks, o))
  }

  /** No turn before `end` meets anything. */
  ghost predicate Open(words: Words, at: Places, va: nat, pa: nat, size: nat, off: nat, blocks: bool, end: nat) {
    forall o: nat | o < end && o < size && Turn(va, pa, size, off, blocks, o) ::
      !BarredAt(words, at, va, pa, size, o, blocks)
  }

  lemma {:induction false} TurnBounds(va: nat, pa: nat, size: nat, off: nat, blocks: bool, o: nat)
    requires Turn(va, pa, size, off, blocks, o)
    ensures off <= o < size
    decreases size - off
  {
    if o != off {
      TurnBounds(va, pa, size, Next(va, pa, size, off, blocks), blocks, o);
    }
  }

  lemma OpenStep(words: Words, at: Places, va: nat, pa: nat, size: nat, off: nat, blocks: bool, end: nat)
    requires off < size && off < end
    ensures Open(words, at, va, pa, size, off, blocks, end) <==>
            && !BarredAt(words, at, va, pa, size, off, blocks)
            && Open(words, at, va, pa, size, Next(va, pa, size, off, blocks), blocks, end)
  {
    hide BarredAt, Next;
    assert Turn(va, pa, size, off, blocks, off);
    var next := Next(va, pa, size, off, blocks);
    if Open(words, at, va, pa, size, off, blocks, end) {
      forall o: nat | o < end && o < size && Turn(va, pa, size, next, blocks, o)
        ensures !BarredAt(words, at, va, pa, size, o, blocks)
      {
        assert Turn(va, pa, size, off, blocks, o);
      }
    }
  }

  lemma OpenTo(words: Words, at: Places, va: nat, pa: nat, size: nat, off: nat, blocks: bool, end: nat)
    requires end <= off
    ensures Open(words, at, va, pa, size, off, blocks, end)
  {
    hide BarredAt, Next;
    forall o: nat | Turn(va, pa, size, off, blocks, o) ensures o >= end {
      TurnBounds(va, pa, size, off, blocks, o);
    }
  }

  /** What is lacking of two steps is lacking of the first, then of the second. */
  lemma Twice(way: set<Node>, rest: set<Node>, have: set<Node>)
    ensures |(way + rest) - have| == |way - have| + |rest - (have + way)|
  {
    assert (way + rest) - have == (way - have) + (rest - (have + way));
  }

  /** Ok exactly when no turn is barred and the tables suffice. */
  lemma {:induction false} OkIff(words: Words, at: Places, have: set<Node>, room: nat,
                                 va: nat, pa: nat, size: nat, off: nat, blocks: bool)
    ensures Verdict(words, at, have, room, va, pa, size, off, blocks).0.Ok? <==>
            && Open(words, at, va, pa, size, off, blocks, size)
            && |TablesTo(va, pa, size, off, blocks, size) - have| <= room
    decreases size - off
  {
    hide BarredAt, Next, TablesAt, Open;
    if off >= size {
      OpenTo(words, at, va, pa, size, off, blocks, size);
    } else {
      var way, next := TablesAt(va, pa, size, off, blocks), Next(va, pa, size, off, blocks);
      OpenStep(words, at, va, pa, size, off, blocks, size);
      TablesStep(have, va, pa, size, off, blocks, size);
      if |way - have| <= room {
        OkIff(words, at, have + way, room - |way - have|, va, pa, size, next, blocks);
      }
    }
  }

  /** AlreadyMapped at a turn exactly when it is the first barred one and the tables before
      it suffice. */
  lemma {:induction false} AlreadyMappedIff(words: Words, at: Places, have: set<Node>, room: nat,
                                            va: nat, pa: nat, size: nat, off: nat, blocks: bool, end: nat)
    requires Turn(va, pa, size, off, blocks, end)
    ensures off <= end < size
    ensures Verdict(words, at, have, room, va, pa, size, off, blocks) == (Err(AlreadyMapped), end) <==>
            && BarredAt(words, at, va, pa, size, end, blocks)
            && Open(words, at, va, pa, size, off, blocks, end)
            && |TablesTo(va, pa, size, off, blocks, end) - have| <= room
    decreases size - off
  {
    hide BarredAt, Next, TablesAt, Open;
    TurnBounds(va, pa, size, off, blocks, end);
    var way, next := TablesAt(va, pa, size, off, blocks), Next(va, pa, size, off, blocks);
    if off == end {
      OpenTo(words, at, va, pa, size, off, blocks, end);
      LaterVerdict(words, at, have, room, va, pa, size, off, blocks);
    } else {
      OpenStep(words, at, va, pa, size, off, blocks, end);
      TablesStep(have, va, pa, size, off, blocks, end);
      if |way - have| <= room {
        AlreadyMappedIff(words, at, have + way, room - |way - have|, va, pa, size, next, blocks, end);
      }
    }
  }

  /** NoMemory at a turn exactly when no turn up to it is barred and it is the first whose
      tables are too many. */
  lemma {:induction false} NoMemoryIff(words: Words, at: Places, have: set<Node>, room: nat,
                                       va: nat, pa: nat, size: nat, off: nat, blocks: bool, end: nat)
    requires Turn(va, pa, size, off, blocks, end)
    ensures off <= end < size
    ensures Verdict(words, at, have, room, va, pa, size, off, blocks) == (Err(NoMemory), end) <==>
            && Open(words, at, va, pa, size, off, blocks, end + 1)
            && |TablesTo(va, pa, size, off, blocks, end) - have| <= room
            && |TablesTo(va, pa, size, off, blocks, end + 1) - have| > room
    decreases size - off
  {
    hide BarredAt, Next, TablesAt, Open, Verdict, TablesTo;
    TurnBounds(va, pa, size, off, blocks, end);
    if off == end {
      NoMemoryHere(words, at, have, room, va, pa, size, off, blocks);
    } else {
      var way, next := TablesAt(va, pa, size, off, blocks), Next(va, pa, size, off, blocks);
      OpenStep(words, at, va, pa, size, off, blocks, end + 1);
      TablesStep(have, va, pa, size, off, blocks, end);
      TablesStep(have, va, pa, size, off, blocks, end + 1);
      LaterVerdict(words, at, have, room, va, pa, size, off, blocks);
      if !BarredAt(words, at, va, pa, size, off, blocks) && |way - have| <= room {
        VerdictStep(words, at, have, room, va, pa, size, off, blocks);
        NoMemoryIff(words, at, have + way, room - |way - have|, va, pa, size, next, blocks, end);
      }
    }
  }

  lemma NoMemoryHere(words: Words, at: Places, have: set<Node>, room: nat,
                     va: nat, pa: nat, size: nat, off: nat, blocks: bool)
    requires off < size
    ensures Verdict(words, at, have, room, va, pa, size, off, blocks) == (Err(NoMemory), off) <==>
            && Open(words, at, va, pa, size, off, blocks, off + 1)
            && |TablesTo(va, pa, size, off, blocks, off) - have| <= room
            && |TablesTo(va, pa, size, off, blocks, off + 1) - have| > room
  {
    hide BarredAt, Next, TablesAt, Open;
    OpenStep(words, at, va, pa, size, off, blocks, off + 1);
    OpenTo(words, at, va, pa, size, Next(va, pa, size, off, blocks), blocks, off + 1);
    LaterVerdict(words, at, have, room, va, pa, size, off, blocks);
    assert TablesTo(va, pa, size, off, blocks, off + 1) == TablesAt(va, pa, size, off, blocks);
    assert TablesTo(va, pa, size, off, blocks, off) - have == {};
  }

  lemma TablesStep(have: set<Node>, va: nat, pa: nat, size: nat, off: nat, blocks: bool, end: nat)
    requires off < size && off < end
    ensures var way, next := TablesAt(va, pa, size, off, blocks), Next(va, pa, size, off, blocks);
            |TablesTo(va, pa, size, off, blocks, end) - have|
            == |way - have| + |TablesTo(va, pa, size, next, blocks, end) - (have + way)|
  {
    hide Next, TablesAt;
    Twice(TablesAt(va, pa, size, off, blocks), TablesTo(va, pa, size, Next(va, pa, size, off, blocks), blocks, end),
          have);
  }

  lemma VerdictStep(words: Words, at: Places, have: set<Node>, room: nat,
                    va: nat, pa: nat, size: nat, off: nat, blocks: bool)
    requires off < size && !BarredAt(words, at, va, pa, size, off, blocks)
    requires |TablesAt(va, pa, size, off, blocks) - have| <= room
    ensures var way := TablesAt(va, pa, size, off, blocks);
            Verdict(words, at, have, room, va, pa, size, off, blocks)
            == Verdict(words, at, have + way, room - |way - have|, va, pa, size,
                       Next(va, pa, size, off, blocks), blocks)
  {
    hide BarredAt, Next, TablesAt;
  }

  /** The loop stops at an offset with an error, or passes it. */
  lemma {:induction false} LaterVerdict(words: Words, at: Places, have: set<Node>, room: nat,
                                        va: nat, pa: nat, size: nat, off: nat, blocks: bool)
    ensures Verdict(words, at, have, room, va, pa, size, off, blocks).1 >= off
    ensures off < size ==>
              (Verdict(words, at, have, room, va, pa, size, off, blocks) == (Err(AlreadyMapped), off) <==>
               BarredAt(words, at, va, pa, size, off, blocks))
    ensures off < size ==>
              (Verdict(words, at, have, room, va, pa, size, off, blocks) == (Err(NoMemory), off) <==>
               !BarredAt(words, at, va, pa, size, off, blocks) && |TablesAt(va, pa, size, off, blocks) - have| > room)
    decreases size - off
  {
    hide BarredAt, Next, TablesAt;
    if off < size {
      var way := TablesAt(va, pa, size, off, blocks);
      if |way - have| <= room {
        LaterVerdict(words, at, have + way, room - |way - have|, va, pa, size, Next(va, pa, size, off, blocks), blocks);
      }
    }
  }

  /** An error names a turn of the loop, AlreadyMapped a barred one. */
  lemma {:induction false} StopsAtTurn(words: Words, at: Places, have: set<Node>, room: nat,
                                       va: nat, pa: nat, size: nat, off: nat, blocks: bool)
    ensures var v := Verdict(words, at, have, room, va, pa, size, off, blocks);
            v.0.Err? ==>
              && v.1 < size && Turn(va, pa, size, off, blocks, v.1)
              && (v.0.error == AlreadyMapped <==> BarredAt(words, at, va, pa, size, v.1, blocks))
              && (v.0.error != AlreadyMapped ==> v.0.error == NoMemory)
    decreases size - off
  {
    hide BarredAt, Next, TablesAt;
    if off < size {
      var way := TablesAt(va, pa, size, off, blocks);
      if |way - have| <= room {
        StopsAtTurn(words, at, have + way, room - |way - have|, va, pa, size, Next(va, pa, size, off, blocks), blocks);
      }
    }
  }

  // ----- what the verdict means for the addresses -----

  /** A turn that is refused had an address that translates, or the range came round to
      itself, or the table of a block that was emptied stands there. */
  lemma RefusedMeans(words: Words, root: nat, at: Places, va: nat, pa: nat, size: nat, off: nat, blocks: bool)
    requires Tree(words, root, at) && Clean(words, at) && off < size && BarredAt(words, at, va, pa, size, off, blocks)
    ensures var level := LevelAt(va, pa, size, off, blocks);
            off + Span(level + 1) <= VA_SPAN ==>
              (Vacant(words, root, Added(va, off), level) <==> Emptied(words, at, Added(va, off), level))
  {
    hide Tree, Clean, Vacant, Emptied, Added, Span, Blocked;
    var level := LevelAt(va, pa, size, off, blocks);
    if off + Span(level + 1) <= VA_SPAN {
      BlockedTranslates(words, root, at, Added(va, off), level);
    }
  }

  /** Without blocks the loop looks at every page. */
  lemma {:induction false} PageTurns(va: nat, pa: nat, size: nat, off: nat, o: nat)
    requires off % PAGE == 0 && size % PAGE == 0
    ensures Turn(va, pa, size, off, false, o) <==> off <= o < size && o % PAGE == 0
    decreases size - off
  {
    if off < size {
      SumAligned(off, PAGE);
      PageTurns(va, pa, size, off + PAGE, o);
      if off < o && o % PAGE == 0 {
        MultipleBelow(off, o);
      }
    }
  }

  /** The address of the page that an address of the range lies in. */
  lemma PageOf(v: nat, va: nat) returns (o: nat)
    requires va % PAGE == 0
    ensures o % PAGE == 0 && o <= Offset(v, va) < o + PAGE && o + PAGE <= VA_SPAN
    ensures Prefix(v, 4) == Prefix(Added(va, o), 4)
  {
    o := Offset(v, va) / PAGE * PAGE;
    StepOffsets(v, va, o, PAGE);
    AddedOffset(v, va, o);
    AddedAligned(va, o);
    SamePrefix(v, Added(va, o), 3);
  }

  /** For pages below the end of the space: Ok exactly when no address of the range
      translates and the tables suffice. */
  lemma PagesOkIff(words: Words, root: nat, at: Places, room: nat, va: nat, pa: nat, size: nat)
    requires Tree(words, root, at) && Clean(words, at) && va % PAGE == 0 && size % PAGE == 0 && va + size <= VA_SPAN
    ensures Verdict(words, at, at.Keys, room, va, pa, size, 0, false).0.Ok? <==>
            Fresh(words, root, va, size) && |TablesTo(va, pa, size, 0, false, size) - at.Keys| <= room
  {
    hide Tree, Clean, Verdict, TablesTo, Open, Fresh;
    OkIff(words, at, at.Keys, room, va, pa, size, 0, false);
    if Open(words, at, va, pa, size, 0, false, size) {
      OpenIsFresh(words, root, at, va, pa, size);
    }
    if Fresh(words, root, va, size) {
      FreshIsOpen(words, root, at, va, pa, size);
    }
  }

  /** And AlreadyMapped names a page that translates. */
  lemma PagesRefused(words: Words, root: nat, at: Places, room: nat, va: nat, pa: nat, size: nat, done: nat)
    requires Tree(words, root, at) && Clean(words, at) && va % PAGE == 0 && size % PAGE == 0 && va + size <= VA_SPAN
    requires Verdict(words, at, at.Keys, room, va, pa, size, 0, false) == (Err(AlreadyMapped), done)
    ensures done < size && Translate(words, root, Added(va, done)).Some?
  {
    hide Tree, Clean, Blocked, Translate, Added, Turn, Verdict;
    StopsAtTurn(words, at, at.Keys, room, va, pa, size, 0, false);
    PageTurns(va, pa, size, 0, done);
    MultipleBelow(done, size);
    PageBlocked(words, root, at, Added(va, done));
  }

  lemma OpenIsFresh(words: Words, root: nat, at: Places, va: nat, pa: nat, size: nat)
    requires Tree(words, root, at) && va % PAGE == 0 && size % PAGE == 0
    requires Open(words, at, va, pa, size, 0, false, size)
    ensures Fresh(words, root, va, size)
  {
    hide Tree, Blocked, Translate, Offset, Added, Prefix, Turn;
    forall v: nat | Offset(v, va) < size ensures Translate(words, root, v) == None {
      var o := PageOf(v, va);
      PageTurns(va, pa, size, 0, o);
      assert !BarredAt(words, at, va, pa, size, o, false);
      FreeIsVacant(words, root, at, Added(va, o), 3);
    }
  }

  lemma FreshIsOpen(words: Words, root: nat, at: Places, va: nat, pa: nat, size: nat)
    requires Tree(words, root, at) && Clean(words, at) && va % PAGE == 0 && size % PAGE == 0 && va + size <= VA_SPAN
    requires Fresh(words, root, va, size)
    ensures Open(words, at, va, pa, size, 0, false, size)
  {
    hide Tree, Clean, Blocked, Translate, Offset, Added, Turn;
    forall o: nat | o < size && Turn(va, pa, size, 0, false, o) ensures !BarredAt(words, at, va, pa, size, o, false) {
      PageTurns(va, pa, size, 0, o);
      AddedBack(va, o);
      MultipleBelow(o, size);
      PageBlocked(words, root, at, Added(va, o));
    }
  }
}
