/** Handle values and what a handle table remembers about them. */
module HandleSpec {
  import opened Common
  import opened Arithmetic

  const CHUNK: nat := 64
  const MAX_CHUNKS: nat := 256
  const MAX_HANDLES: nat := 16384
  const NO_ENTRY: nat := 0xFFFF_FFFF
  const MAX_GENERATION: nat := 0xFFFF_FFFF_FFFF
  const INDEXES: nat := 0x1_0000

  /** A handle: the entry and its generation, packed into a word by `Word`. */
  datatype Handle = Handle(index: nat, generation: nat)

  function Word(h: Handle): nat {
    (h.generation % (MAX_GENERATION + 1)) * INDEXES + h.index % INDEXES
  }

  function FromWord(w: nat): Handle {
    Handle(w % INDEXES, w / INDEXES)
  }

  /** Different handles have different words, and every word is a handle. */
  lemma WordRoundTrip(h: Handle, w: nat)
    ensures h.index < INDEXES && h.generation <= MAX_GENERATION ==> FromWord(Word(h)) == h
    ensures w < INDEXES * (MAX_GENERATION + 1) ==> Word(FromWord(w)) == w
  {
  }

  datatype Entry<+T> = Entry(held: Option<T>, rights: nat, generation: nat, nextFree: nat)

  // ----- the free list -----

  ghost predicate Distinct(l: seq<nat>) {
    forall i: nat, j: nat | i < j < |l| :: l[i] != l[j]
  }

  function NextIn(l: seq<nat>, k: nat): nat
    requires k < |l|
  {
    if k + 1 < |l| then l[k + 1] else NO_ENTRY
  }

  ghost predicate ListOk<T>(entries: seq<Entry<T>>, free: seq<nat>, head: nat) {
    && Distinct(free)
    && head == (if free == [] then NO_ENTRY else free[0])
    && forall k: nat | k < |free| :: free[k] < |entries| && entries[free[k]].nextFree == NextIn(free, k)
  }

  lemma ListPop<T>(entries: seq<Entry<T>>, free: seq<nat>, head: nat)
    requires ListOk(entries, free, head) && |entries| <= MAX_HANDLES
    ensures head == NO_ENTRY <==> free == []
    ensures free != [] ==> head < |entries| && head == free[0] && ListOk(entries, free[1..], entries[head].nextFree)
    ensures free != [] ==> forall i :: i in free[1..] <==> i in free && i != head
  {
    if free != [] {
      var rest := free[1..];
      forall k: nat | k < |rest| ensures rest[k] < |entries| && entries[rest[k]].nextFree == NextIn(rest, k) {
        assert rest[k] == free[k + 1] && NextIn(rest, k) == NextIn(free, k + 1);
      }
      assert entries[free[0]].nextFree == NextIn(free, 0);
      forall i ensures i in rest <==> i in free && i != head {
        if i in free && i != head {
          var k: nat :| k < |free| && free[k] == i;
          assert rest[k - 1] == i;
        }
      }
    }
  }

  lemma ListSame<T>(entries: seq<Entry<T>>, entries': seq<Entry<T>>, free: seq<nat>, head: nat)
    requires ListOk(entries, free, head) && |entries| <= |entries'|
    requires forall i | i in free && i < |entries| :: entries'[i].nextFree == entries[i].nextFree
    ensures ListOk(entries', free, head)
  {
    forall k: nat | k < |free| ensures free[k] < |entries'| && entries'[free[k]].nextFree == NextIn(free, k) {
      assert free[k] in free;
    }
  }

  lemma ListPush<T>(entries: seq<Entry<T>>, entries': seq<Entry<T>>, free: seq<nat>, head: nat, i: nat)
    requires ListOk(entries, free, head) && |entries| == |entries'| && i < |entries| && i !in free
    requires forall k: nat | k < |entries| && k != i :: entries'[k].nextFree == entries[k].nextFree
    requires entries'[i].nextFree == head
    ensures ListOk(entries', [i] + free, i)
  {
    hide Distinct;
    var l := [i] + free;
    DistinctPush(free, i);
    forall k: nat | k < |l| ensures l[k] < |entries'| && entries'[l[k]].nextFree == NextIn(l, k) {
      if k > 0 {
        var p := k - 1;
        assert free[p] in free && l[k] == free[p];
        assert entries[free[p]].nextFree == NextIn(free, p) == NextIn(l, k);
      }
    }
  }

  lemma DistinctPush(free: seq<nat>, i: nat)
    requires Distinct(free) && i !in free
    ensures Distinct([i] + free)
  {
    var l := [i] + free;
    forall a: nat, b: nat | a < b < |l| ensures l[a] != l[b] {
      assert l[b] == free[b - 1] && free[b - 1] in free;
    }
  }

  // ----- counts -----

  predicate LiveAt<T>(entries: seq<Entry<T>>, i: nat) {
    i < |entries| && entries[i].held.Some?
  }

  ghost function LiveSet<T>(entries: seq<Entry<T>>): (s: set<nat>)
  {
    set i: nat | i < |entries| && LiveAt(entries, i)
  }

  lemma LiveAdd<T>(entries: seq<Entry<T>>, entries': seq<Entry<T>>, i: nat, e: Entry<T>)
    requires i < |entries| && entries[i].held.None? && e.held.Some? && entries' == entries[i := e]
    ensures |LiveSet(entries')| == |LiveSet(entries)| + 1
  {
    assert LiveSet(entries') == LiveSet(entries) + {i};
  }

  lemma LiveTake<T>(entries: seq<Entry<T>>, entries': seq<Entry<T>>, i: nat, e: Entry<T>)
    requires i < |entries| && entries[i].held.Some? && e.held.None? && entries' == entries[i := e]
    ensures |LiveSet(entries)| == |LiveSet(entries')| + 1
  {
    forall k: nat ensures k in LiveSet(entries) <==> k in LiveSet(entries') || k == i {
    }
    assert i !in LiveSet(entries');
    assert LiveSet(entries) == LiveSet(entries') + {i};
  }

  // ----- what each entry is -----

  /** The entries ever used are split into the live, the free and the retired ones; the
      entries past them are fresh. */
  ghost predicate Sorted<T>(entries: seq<Entry<T>>, used: nat, free: seq<nat>, gone: set<nat>) {
    && used <= |entries|
    && (forall i | i in free :: i < used && entries[i].held.None? && i !in gone)
    && (forall i | i in gone :: i < used && entries[i].held.None? && entries[i].generation == MAX_GENERATION)
    && (forall i: nat | i < used && entries[i].held.None? :: i in free || i in gone)
    && (forall i: nat | used <= i < |entries| :: entries[i].held.None? && entries[i].generation == 1)
    && (forall i: nat | i < |entries| :: 1 <= entries[i].generation <= MAX_GENERATION)
  }

  // ----- what was issued -----

  /** What a table issued: the object and the rights, for each handle of its life. */
  type Issued<T> = map<Handle, (T, nat)>

  /** The entry is gone from the table, or already handed out by the release. */
  predicate Taken(size: nat, released: nat, i: nat) {
    i >= size || (released > 0 && size - CHUNK <= i < size - CHUNK + released)
  }

  ghost predicate Open<T>(e: Entry<T>, h: Handle) {
    e.held.Some? && e.generation == h.generation
  }

  /** A handle opens its object until it is removed or handed out. */
  ghost predicate HandleOk<T>(entries: seq<Entry<T>>, released: nat, issued: Issued<T>, removed: set<Handle>,
                              handed: set<Handle>, h: Handle)
    requires h in issued
  {
    if Taken(|entries|, released, h.index) then
      h in removed || h in handed
    else
      var e := entries[h.index];
      && h !in handed && 1 <= h.generation <= e.generation && (h !in removed <==> Open(e, h))
      && (h !in removed ==> e.held == Some(issued[h].0) && e.rights == issued[h].1)
  }

  ghost predicate History<T>(entries: seq<Entry<T>>, released: nat, issued: Issued<T>, removed: set<Handle>,
                             handed: set<Handle>) {
    && (forall h | h in issued :: HandleOk(entries, released, issued, removed, handed, h))
    && (forall i: nat | i < |entries| && entries[i].held.Some? ::
          !Taken(|entries|, released, i) && Handle(i, entries[i].generation) in issued)
    && (forall h | h in handed :: h in issued && h !in removed)
    && (forall h | h in removed :: h in issued)
  }

  /** An entry that may be used has issued only older generations. */
  ghost predicate Unused<T>(entries: seq<Entry<T>>, used: nat, free: seq<nat>, issued: Issued<T>) {
    && (forall h | h in issued :: h.index < used)
    && (forall h | h in issued && h.index in free && h.index < |entries| :: h.generation < entries[h.index].generation)
  }

  // ----- insert -----

  lemma InsertHistory<T>(entries: seq<Entry<T>>, issued: Issued<T>, removed: set<Handle>, i: nat, e: Entry<T>, item: T,
                         rights: nat)
    requires History(entries, 0, issued, removed, {}) && i < |entries| && entries[i].held.None?
    requires e == entries[i].(held := Some(item), rights := rights) && e.generation >= 1
    requires forall h | h in issued && h.index == i :: h.generation < e.generation
    ensures History(entries[i := e], 0, issued[Handle(i, e.generation) := (item, rights)], removed, {})
    ensures Handle(i, e.generation) !in issued
  {
    var es, h0 := entries[i := e], Handle(i, e.generation);
    var more := issued[h0 := (item, rights)];
    assert h0 !in issued && h0 !in removed;
    forall h | h in more ensures HandleOk(es, 0, more, removed, {}, h) {
      if h != h0 {
        assert HandleOk(entries, 0, issued, removed, {}, h);
      }
    }
    forall k: nat | k < |es| && es[k].held.Some? ensures Handle(k, es[k].generation) in more {
      if k != i {
        assert Handle(k, entries[k].generation) in issued;
      }
    }
  }

  // ----- remove -----

  lemma RemoveHistory<T>(entries: seq<Entry<T>>, released: nat, issued: Issued<T>, removed: set<Handle>,
                         handed: set<Handle>, h0: Handle, e: Entry<T>)
    requires History(entries, released, issued, removed, handed) && h0 in issued && h0 !in removed
    requires h0.index < |entries| && !Taken(|entries|, released, h0.index)
    requires e.held.None? && e.generation >= entries[h0.index].generation
    ensures History(entries[h0.index := e], released, issued, removed + {h0}, handed)
  {
    var i := h0.index;
    var es, gone := entries[i := e], removed + {h0};
    assert HandleOk(entries, released, issued, removed, handed, h0);
    forall h | h in issued ensures HandleOk(es, released, issued, gone, handed, h) {
      assert HandleOk(entries, released, issued, removed, handed, h);
    }
    forall k: nat | k < |es| && es[k].held.Some?
      ensures !Taken(|es|, released, k) && Handle(k, es[k].generation) in issued
    {
      assert !Taken(|entries|, released, k) && Handle(k, entries[k].generation) in issued;
    }
  }

  // ----- growth -----

  function FreshChunk<T>(): (c: seq<Entry<T>>)
    ensures |c| == CHUNK && forall i: nat | i < CHUNK :: c[i] == Entry(None, 0, 1, NO_ENTRY)
  {
    seq(CHUNK, _ => Entry(None, 0, 1, NO_ENTRY))
  }

  lemma GrowHistory<T>(entries: seq<Entry<T>>, issued: Issued<T>, removed: set<Handle>, used: nat, free: seq<nat>)
    requires History(entries, 0, issued, removed, {}) && Unused(entries, used, free, issued) && used <= |entries|
    ensures History(entries + FreshChunk(), 0, issued, removed, {})
    ensures LiveSet(entries + FreshChunk()) == LiveSet(entries)
  {
    var es := entries + FreshChunk();
    forall h | h in issued ensures HandleOk(es, 0, issued, removed, {}, h) {
      assert HandleOk(entries, 0, issued, removed, {}, h);
    }
    forall k: nat | k < |es| && es[k].held.Some? ensures Handle(k, es[k].generation) in issued {
      assert k < |entries|;
    }
    forall k ensures k in LiveSet(es) <==> k in LiveSet(entries) {
    }
  }

  lemma GrowSorted<T>(entries: seq<Entry<T>>, entries': seq<Entry<T>>, used: nat, free: seq<nat>, head: nat,
                      gone: set<nat>, issued: Issued<T>)
    requires Sorted(entries, used, free, gone) && ListOk(entries, free, head) && Unused(entries, used, free, issued)
    requires entries' == entries + FreshChunk()
    ensures Sorted(entries', used, free, gone) && ListOk(entries', free, head) && Unused(entries', used, free, issued)
  {
    ListSame(entries, entries', free, head);
  }

  /** The first free entry is taken from the list and filled. */
  lemma FillFree<T>(entries: seq<Entry<T>>, entries': seq<Entry<T>>, used: nat, free: seq<nat>, head: nat,
                    gone: set<nat>, issued: Issued<T>, item: T, rights: nat)
    requires Sorted(entries, used, free, gone) && ListOk(entries, free, head) && Unused(entries, used, free, issued)
    requires |entries| <= MAX_HANDLES && head != NO_ENTRY && head < |entries|
    requires entries' == entries[head := entries[head].(held := Some(item), rights := rights)]
    ensures free != [] && head < used
    ensures Sorted(entries', used, free[1..], gone) && ListOk(entries', free[1..], entries[head].nextFree)
    ensures Unused(entries', used, free[1..], issued[Handle(head, entries[head].generation) := (item, rights)])
  {
    ListPop(entries, free, head);
    var rest := free[1..];
    ListSame(entries, entries', rest, entries[head].nextFree);
    assert head in free;
    forall i: nat | i < used && entries'[i].held.None? ensures i in rest || i in gone {
      assert i in free || i in gone;
    }
  }

  /** The first fresh entry is filled. */
  lemma FillFresh<T>(entries: seq<Entry<T>>, entries': seq<Entry<T>>, used: nat, free: seq<nat>, head: nat,
                     gone: set<nat>, issued: Issued<T>, item: T, rights: nat)
    requires Sorted(entries, used, free, gone) && ListOk(entries, free, head) && Unused(entries, used, free, issued)
    requires used < |entries| && entries' == entries[used := entries[used].(held := Some(item), rights := rights)]
    ensures Sorted(entries', used + 1, free, gone) && ListOk(entries', free, head)
    ensures Unused(entries', used + 1, free, issued[Handle(used, entries[used].generation) := (item, rights)])
  {
    ListSame(entries, entries', free, head);
  }

  lemma FreeIsUnused<T>(entries: seq<Entry<T>>, used: nat, free: seq<nat>, head: nat, gone: set<nat>, issued: Issued<T>)
    requires Sorted(entries, used, free, gone) && ListOk(entries, free, head) && Unused(entries, used, free, issued)
    requires |entries| <= MAX_HANDLES && head != NO_ENTRY
    ensures head < |entries| && entries[head].held.None? && entries[head].generation >= 1 && |free| > 0
    ensures forall k | k in issued && k.index == head :: k.generation < entries[head].generation
  {
    ListPop(entries, free, head);
    assert head in free;
  }

  lemma FreshIsUnused<T>(entries: seq<Entry<T>>, used: nat, free: seq<nat>, gone: set<nat>, issued: Issued<T>)
    requires Sorted(entries, used, free, gone) && Unused(entries, used, free, issued) && used < |entries|
    ensures entries[used].held.None? && entries[used].generation == 1 && forall k | k in issued :: k.index != used
  {
  }

  /** What the entry of a handle within reach says. */
  lemma EntryOpens<T>(entries: seq<Entry<T>>, released: nat, used: nat, issued: Issued<T>, removed: set<Handle>,
                      handed: set<Handle>, h: Handle)
    requires History(entries, released, issued, removed, handed) && used <= |entries|
    requires released > 0 ==> used + CHUNK <= |entries|
    ensures h.index < used ==> (Open(entries[h.index], h) <==> h in issued && h !in removed && h !in handed)
    ensures h.index < used && h in issued && h !in removed ==>
              entries[h.index].held == Some(issued[h].0) && entries[h.index].rights == issued[h].1
  {
    if h.index < used {
      assert !Taken(|entries|, released, h.index);
      if h in issued {
        assert HandleOk(entries, released, issued, removed, handed, h);
      }
    }
  }

  /** The entry of a removed handle: the next generation, on the list, or retired. */
  function Emptied<T>(e: Entry<T>, head: nat): Entry<T> {
    if e.generation == MAX_GENERATION then Entry(None, e.rights, e.generation, e.nextFree)
    else Entry(None, e.rights, e.generation + 1, head)
  }

  lemma EmptySorted<T>(entries: seq<Entry<T>>, entries': seq<Entry<T>>, used: nat, free: seq<nat>, head: nat,
                       gone: set<nat>, i: nat)
    requires Sorted(entries, used, free, gone) && ListOk(entries, free, head) && i < used && entries[i].held.Some?
    requires entries' == entries[i := Emptied(entries[i], head)]
    ensures entries[i].generation == MAX_GENERATION ==>
              i !in gone && Sorted(entries', used, free, gone + {i}) && ListOk(entries', free, head)
    ensures entries[i].generation != MAX_GENERATION ==>
              Sorted(entries', used, [i] + free, gone) && ListOk(entries', [i] + free, i)
  {
    assert i !in free && i !in gone;
    if entries[i].generation == MAX_GENERATION {
      ListSame(entries, entries', free, head);
    } else {
      ListPush(entries, entries', free, head, i);
    }
  }

  lemma EmptyUnused<T>(entries: seq<Entry<T>>, entries': seq<Entry<T>>, used: nat, free: seq<nat>, head: nat,
                       issued: Issued<T>, removed: set<Handle>, i: nat)
    requires Unused(entries, used, free, issued) && History(entries, 0, issued, removed, {}) && i < used <= |entries|
    requires entries' == entries[i := Emptied(entries[i], head)]
    ensures entries[i].generation != MAX_GENERATION ==> Unused(entries', used, [i] + free, issued)
    ensures i !in free ==> Unused(entries', used, free, issued)
  {
    forall h | h in issued && h.index == i ensures h.generation <= entries[i].generation {
      assert HandleOk(entries, 0, issued, removed, {}, h);
    }
  }

  /** An open table: the list, the entries and the counts agree. */
  ghost predicate InOrder<T>(entries: seq<Entry<T>>, used: nat, head: nat, free: seq<nat>, freeCount: nat,
                             gone: set<nat>, retired: nat, live: nat, issued: Issued<T>) {
    && ListOk(entries, free, head) && Sorted(entries, used, free, gone) && Unused(entries, used, free, issued)
    && freeCount == |free| && retired == |gone| && used == live + freeCount + retired
  }

  lemma EmptyInOrder<T>(entries: seq<Entry<T>>, entries': seq<Entry<T>>, used: nat, head: nat, free: seq<nat>,
                        freeCount: nat,
                        gone: set<nat>, retired: nat, live: nat, issued: Issued<T>, removed: set<Handle>, i: nat)
    requires InOrder(entries, used, head, free, freeCount, gone, retired, live, issued) && live > 0
    requires History(entries, 0, issued, removed, {}) && i < used <= |entries| && entries[i].held.Some?
    requires entries' == entries[i := Emptied(entries[i], head)]
    ensures if entries[i].generation == MAX_GENERATION
            then InOrder(entries', used, head, free, freeCount, gone + {i}, retired + 1, live - 1, issued)
            else InOrder(entries', used, i, [i] + free, freeCount + 1, gone, retired, live - 1, issued)
  {
    hide ListOk, Sorted, Unused, History, Emptied;
    EmptySorted(entries, entries', used, free, head, gone, i);
    EmptyUnused(entries, entries', used, free, head, issued, removed, i);
    LiveNotFree(entries, used, free, gone, i);
  }

  // ----- release -----

  lemma PassEntry<T>(entries: seq<Entry<T>>, released: nat, issued: Issued<T>, removed: set<Handle>,
                     handed: set<Handle>, i: nat)
    requires History(entries, released, issued, removed, handed) && |entries| >= CHUNK && released < CHUNK
    requires i == |entries| - CHUNK + released && entries[i].held.None?
    ensures History(entries, released + 1, issued, removed, handed)
  {
    forall h | h in issued ensures HandleOk(entries, released + 1, issued, removed, handed, h) {
      assert HandleOk(entries, released, issued, removed, handed, h);
    }
    forall k: nat | k < |entries| && entries[k].held.Some?
      ensures !Taken(|entries|, released + 1, k) && Handle(k, entries[k].generation) in issued
    {
      assert !Taken(|entries|, released, k) && k != i;
    }
  }

  lemma TakeEntry<T>(entries: seq<Entry<T>>, entries': seq<Entry<T>>, released: nat, issued: Issued<T>,
                     removed: set<Handle>, handed: set<Handle>, i: nat, h0: Handle)
    requires History(entries, released, issued, removed, handed) && |entries| >= CHUNK && released < CHUNK
    requires i == |entries| - CHUNK + released && entries[i].held.Some? && h0 == Handle(i, entries[i].generation)
    requires entries' == entries[i := entries[i].(held := None)]
    ensures h0 in issued && h0 !in removed && h0 !in handed && Some(issued[h0].0) == entries[i].held
    ensures issued[h0].1 == entries[i].rights
    ensures History(entries', released + 1, issued, removed, handed + {h0})
  {
    assert HandleOk(entries, released, issued, removed, handed, h0);
    forall h | h in issued ensures HandleOk(entries', released + 1, issued, removed, handed + {h0}, h) {
      assert HandleOk(entries, released, issued, removed, handed, h);
    }
    forall k: nat | k < |entries'| && entries'[k].held.Some?
      ensures !Taken(|entries'|, released + 1, k) && Handle(k, entries'[k].generation) in issued
    {
      assert !Taken(|entries|, released, k) && k != i;
    }
  }

  /** The last chunk, every entry taken, goes. */
  lemma DropChunk<T>(entries: seq<Entry<T>>, entries': seq<Entry<T>>, issued: Issued<T>, removed: set<Handle>,
                     handed: set<Handle>)
    requires History(entries, CHUNK, issued, removed, handed) && |entries| >= CHUNK
    requires entries' == entries[..|entries| - CHUNK]
    ensures History(entries', 0, issued, removed, handed) && LiveSet(entries') == LiveSet(entries)
  {
    forall h | h in issued ensures HandleOk(entries', 0, issued, removed, handed, h) {
      assert HandleOk(entries, CHUNK, issued, removed, handed, h);
    }
    forall k: nat | k < |entries'| && entries'[k].held.Some?
      ensures !Taken(|entries'|, 0, k) && Handle(k, entries'[k].generation) in issued
    {
      assert entries'[k] == entries[k];
    }
    forall k: nat ensures k in LiveSet(entries') <==> k in LiveSet(entries) {
      if k < |entries| && entries[k].held.Some? {
        assert !Taken(|entries|, CHUNK, k);
      }
    }
  }

  /** With no entry left, every handle was removed or handed out. */
  lemma AllHanded<T>(issued: Issued<T>, removed: set<Handle>, handed: set<Handle>)
    requires History([], 0, issued, removed, handed)
    ensures forall h | h in issued :: h in removed || h in handed
  {
    forall h | h in issued ensures h in removed || h in handed {
      assert HandleOk([], 0, issued, removed, handed, h);
    }
  }

  lemma NotTaken<T>(entries: seq<Entry<T>>, released: nat, used: nat, i: nat)
    requires i < used <= |entries| && (released > 0 ==> used + CHUNK <= |entries|)
    ensures !Taken(|entries|, released, i)
  {
  }

  lemma LiveNotFree<T>(entries: seq<Entry<T>>, used: nat, free: seq<nat>, gone: set<nat>, i: nat)
    requires Sorted(entries, used, free, gone) && i < used && entries[i].held.Some?
    ensures i !in free && i !in gone
  {
  }

  ghost predicate Different(hs: seq<Handle>) {
    forall i: nat, j: nat | i < j < |hs| :: hs[i] != hs[j]
  }

  /** Objects handed out: each that of a handle neither removed nor handed out before, no
      handle twice. */
  ghost predicate HandedOut<T>(issued: Issued<T>, removed: set<Handle>, handed: set<Handle>, out: seq<(T, nat)>,
                               hs: seq<Handle>) {
    && |out| == |hs| && Different(hs)
    && forall k: nat | k < |hs| :: hs[k] in issued && hs[k] !in removed && hs[k] !in handed && out[k] == issued[hs[k]]
  }

  lemma HandOne<T>(issued: Issued<T>, removed: set<Handle>, handed: set<Handle>, out: seq<(T, nat)>, hs: seq<Handle>,
                   h: Handle)
    requires HandedOut(issued, removed, handed, out, hs) && h in issued && h !in removed && h !in handed && h !in hs
    ensures HandedOut(issued, removed, handed, out + [issued[h]], hs + [h])
  {
    var o, l := out + [issued[h]], hs + [h];
    forall i: nat, j: nat | i < j < |l| ensures l[i] != l[j] {
      assert hs[i] in hs;
    }
  }

  /** How many entries a step takes. */
  function Portion(n: nat, released: nat): nat
    requires released <= CHUNK
  {
    if n <= CHUNK - released then n else CHUNK - released
  }

  lemma NothingIn<T>(entries: seq<Entry<T>>, free: seq<nat>, gone: set<nat>)
    requires entries == [] && free == [] && gone == {}
    ensures History(entries, 0, map[], {}, {}) && |LiveSet(entries)| == 0
    ensures InOrder(entries, 0, NO_ENTRY, free, 0, gone, 0, 0, map[])
  {
    assert LiveSet(entries) == {};
  }

  lemma HandMore<T>(issued: Issued<T>, removed: set<Handle>, handed: set<Handle>, out: seq<(T, nat)>, hs: seq<Handle>,
                    out': seq<(T, nat)>, hs': seq<Handle>)
    requires HandedOut(issued, removed, handed, out, hs)
    requires HandedOut(issued, removed, handed + (set h | h in hs), out', hs')
    ensures HandedOut(issued, removed, handed, out + out', hs + hs')
    ensures handed + (set h | h in hs) + (set h | h in hs') == handed + (set h | h in hs + hs')
  {
    var l := hs + hs';
    forall i: nat, j: nat | i < j < |l| ensures l[i] != l[j] {
      if i < |hs| <= j {
        assert hs[i] in hs;
      }
    }
  }

  /** How many steps of `n` entries a release takes from where it stands. */
  function StepsLeft(size: nat, released: nat, n: nat): nat
    requires n > 0 && released < CHUNK
    decreases size, CHUNK - released
  {
    if size < CHUNK then 1
    else if n < CHUNK - released then 1 + StepsLeft(size, released + n, n)
    else if size < 2 * CHUNK then 1
    else 1 + StepsLeft(size - CHUNK, 0, n)
  }

  /** Steps of `n` to take `left` entries. */
  function Parts(left: nat, n: nat): nat
    requires n > 0
  {
    if left <= n then 1 else 1 + Parts(left - n, n)
  }

  lemma {:induction false} StepsInChunk(k: nat, released: nat, n: nat)
    requires n > 0 && released < CHUNK && k > 0
    ensures StepsLeft(k * CHUNK, released, n)
            == Parts(CHUNK - released, n) + (if k == 1 then 0 else StepsLeft((k - 1) * CHUNK, 0, n))
    decreases CHUNK - released
  {
    if n < CHUNK - released {
      StepsInChunk(k, released + n, n);
    }
  }

  /** The steps of a whole release: as many for every chunk. */
  lemma {:induction false} StepsOfRelease(k: nat, n: nat)
    requires n > 0 && k > 0
    ensures StepsLeft(k * CHUNK, 0, n) == k * Parts(CHUNK, n)
    decreases k
  {
    StepsInChunk(k, 0, n);
    if k > 1 {
      StepsOfRelease(k - 1, n);
      assert (k - 1) * Parts(CHUNK, n) + Parts(CHUNK, n) == k * Parts(CHUNK, n);
    }
  }

  lemma {:induction false} PartsIs(left: nat, n: nat)
    requires n > 0 && left > 0
    ensures Parts(left, n) == (left - 1) / n + 1
  {
    if left > n {
      PartsIs(left - n, n);
      var q, r := (left - 1 - n) / n, (left - 1 - n) % n;
      assert left - 1 == n * (q + 1) + r;
      ModUnique(left - 1, q + 1, r, n);
    }
  }

  lemma NoneHanded<T>(issued: Issued<T>, removed: set<Handle>, out: seq<(T, nat)>, hs: seq<Handle>)
    requires out == [] && hs == []
    ensures HandedOut(issued, removed, {}, out, hs) && {} == {} + (set h | h in hs)
  {
  }

  lemma OnlyIssued<T>(issued: Issued<T>, removed: set<Handle>, handed: set<Handle>, out: seq<(T, nat)>, hs: seq<Handle>)
    requires HandedOut(issued, removed, handed, out, hs)
    ensures forall h | h in hs :: h in issued && h !in removed
  {
  }
}
