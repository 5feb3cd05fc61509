/** The handle table of a process: entries, the free list and the counts change in place. */
module Handles {
  import opened Common
  import opened HandleSpec

  datatype HandleError = LimitReached | NoMemory | BadHandle

  datatype Answer<+T> = Ok(value: T) | Err(error: HandleError)

  /** How many chunks and directories a source can still give. */
  class Source {
    var chunks: nat
    var directories: nat
  }

  class HandleTable<T> {
    /** The entries of the chunks, one chunk after the other. */
    var entries: seq<Entry<T>>
    var directory: bool
    var used: nat
    const limit: nat
    var freeHead: nat
    var live: nat
    var freeCount: nat
    var retired: nat
    /** A stepwise release is under way, and how far it is in the last chunk. */
    var closing: bool
    var released: nat
    ghost var free: seq<nat>
    ghost var gone: set<nat>
    ghost var issued: Issued<T>
    ghost var removed: set<Handle>
    ghost var handed: set<Handle>

    ghost predicate Shape()
      reads this
    {
      && limit <= MAX_HANDLES && |entries| % CHUNK == 0 && |entries| <= MAX_HANDLES && used <= |entries|
      && (|entries| > 0 ==> directory)
      && live == |LiveSet(entries)| && History(entries, released, issued, removed, handed)
    }

    ghost predicate ValidOpen()
      reads this
    {
      && released == 0 && handed == {} && used <= limit
      && InOrder(entries, used, freeHead, free, freeCount, gone, retired, live, issued)
    }

    ghost predicate ValidClosing()
      reads this
    {
      released < CHUNK && |entries| > 0 && (released > 0 ==> used + CHUNK <= |entries|)
    }

    ghost predicate Valid()
      reads this
    {
      Shape() && if closing then ValidClosing() else ValidOpen()
    }

    /** What the table holds of the source. */
    ghost function Chunks(): nat
      reads this
    {
      |entries| / CHUNK
    }

    ghost function Directories(): nat
      reads this
    {
      if directory then 1 else 0
    }

    /** A handle that opens its object now. */
    ghost predicate Opens(h: Handle)
      reads this
    {
      h in issued && h !in removed && h !in handed && h.index < used
    }

    constructor (limit: nat)
      requires limit <= MAX_HANDLES
      ensures Valid() && !closing && issued == map[] && this.limit == limit && !directory && entries == []
    {
      entries, directory, used := [], false, 0;
      this.limit := limit;
      freeHead, live, freeCount, retired := NO_ENTRY, 0, 0, 0;
      closing, released := false, 0;
      free, gone, issued, removed, handed := [], {}, map[], {}, {};
      new;
      assert LiveSet(entries) == {};
    }

    /** new: refuses a limit above MAX_HANDLES. */
    static method New(limit: nat) returns (r: Option<HandleTable<T>>)
      ensures r.None? <==> limit > MAX_HANDLES
      ensures r.Some? ==>
                fresh(r.value) && r.value.Valid() && !r.value.closing && r.value.issued == map[]
                  && r.value.limit == limit
    {
      if limit > MAX_HANDLES {
        return None;
      }
      var t := new HandleTable<T>(limit);
      r := Some(t);
    }

    /** How many inserts succeed before LimitReached. */
    function Room(): nat
      requires Valid()
      reads this
    {
      if closing then 0 else freeCount + (limit - used)
    }

    /** How many inserts succeed without new memory. */
    function Capacity(): nat
      requires Valid()
      reads this
    {
      if closing then 0 else freeCount + (if |entries| <= limit then |entries| else limit) - used
    }

    /** The source lacks a chunk, or the directory that the first one needs. */
    predicate CannotGrow(src: Source)
      reads this, src
    {
      src.chunks == 0 || (!directory && src.directories == 0)
    }

    /** The table gets CHUNK more entries; its first growth also costs the directory. */
    method Grow(src: Source) returns (ok: bool)
      requires Valid() && !closing && |entries| + CHUNK <= MAX_HANDLES
      modifies `entries, `directory, src
      ensures Valid() && src.chunks + Chunks() == old(src.chunks + Chunks())
      ensures src.directories + Directories() == old(src.directories + Directories())
      ensures ok ==> |entries| == old(|entries|) + CHUNK
      ensures !ok ==> entries == old(entries) && (src.chunks == 0 || !directory)
      ensures !ok <==> old(CannotGrow(src))
    {
      hide LiveSet, History, Sorted, ListOk, Unused, FreshChunk;
      if !directory {
        if src.directories == 0 {
          return false;
        }
        src.directories := src.directories - 1;
        directory := true;
      }
      if src.chunks == 0 {
        return false;
      }
      src.chunks := src.chunks - 1;
      GrowHistory(entries, issued, removed, used, free);
      GrowSorted(entries, entries + FreshChunk(), used, free, freeHead, gone, issued);
      entries := entries + FreshChunk();
      ok := true;
    }

    /** Puts the object into a free or fresh entry and issues its handle. */
    method Fill(i: nat, item: T, rights: nat) returns (h: Handle)
      requires Shape() && !closing && released == 0 && handed == {} && i < |entries| && entries[i].held.None?
      requires 1 <= entries[i].generation && forall k | k in issued && k.index == i ::
                 k.generation < entries[i].generation
      modifies `entries, `live, `issued
      ensures Shape() && h == Handle(i, old(entries)[i].generation) && h !in old(issued)
      ensures issued == old(issued)[h := (item, rights)] && live == old(live) + 1
      ensures entries == old(entries)[i := old(entries)[i].(held := Some(item), rights := rights)]
    {
      hide LiveSet, Sorted, ListOk, Unused;
      var e := entries[i].(held := Some(item), rights := rights);
      InsertHistory(entries, issued, removed, i, e, item, rights);
      LiveAdd(entries, entries[i := e], i, e);
      hide History;
      entries := entries[i := e];
      live := live + 1;
      h := Handle(i, e.generation);
      issued := issued[h := (item, rights)];
    }

    method InsertFree(item: T, rights: nat) returns (h: Handle)
      requires Valid() && !closing && freeHead != NO_ENTRY
      modifies this
      ensures Valid() && !closing && entries != [] && |entries| == old(|entries|) && directory == old(directory)
      ensures h !in old(issued) && issued == old(issued)[h := (item, rights)] && removed == old(removed)
      ensures used == old(used) && freeCount == old(freeCount) - 1
    {
      hide LiveSet, History, Sorted, ListOk, Unused;
      FreeIsUnused(entries, used, free, freeHead, gone, issued);
      ghost var was, head, issued1 := entries, freeHead, issued;
      var i := freeHead;
      freeHead := entries[i].nextFree;
      freeCount := freeCount - 1;
      h := Fill(i, item, rights);
      FillFree(was, entries, used, free, head, gone, issued1, item, rights);
      free := free[1..];
    }

    method InsertFresh(item: T, rights: nat) returns (h: Handle)
      requires Valid() && !closing && used < |entries| && used < limit
      modifies this
      ensures Valid() && !closing && |entries| == old(|entries|) && directory == old(directory)
      ensures h !in old(issued) && issued == old(issued)[h := (item, rights)] && removed == old(removed)
      ensures used == old(used) + 1 && freeCount == old(freeCount)
    {
      hide LiveSet, History, Sorted, ListOk, Unused;
      FreshIsUnused(entries, used, free, gone, issued);
      ghost var was, issued1 := entries, issued;
      var i := used;
      used := used + 1;
      h := Fill(i, item, rights);
      FillFresh(was, entries, i, free, freeHead, gone, issued1, item, rights);
    }

    method Insert(src: Source, item: T, rights: nat) returns (r: Answer<Handle>)
      requires Valid()
      modifies this, src
      ensures Valid() && closing == old(closing)
      ensures src.chunks + Chunks() == old(src.chunks + Chunks())
      ensures src.directories + Directories() == old(src.directories + Directories())
      ensures r == Err(LimitReached) <==> old(Room()) == 0
      ensures old(Capacity()) > 0 ==> r.Ok? && Capacity() == old(Capacity()) - 1
      ensures r.Err? ==> (r.error == LimitReached || r.error == NoMemory)
      ensures r == Err(NoMemory) <==> old(Room()) > 0 && old(Capacity()) == 0 && old(CannotGrow(src))
      ensures old(Capacity()) > 0 ==> |entries| == |old(entries)| && src.chunks == old(src.chunks)
      ensures r.Err? ==>
                entries == old(entries) && issued == old(issued) && removed == old(removed) && handed == old(handed)
                  && Room() == old(Room())
      ensures r.Ok? ==> Room() == old(Room()) - 1 && removed == old(removed)
      ensures r.Ok? ==> r.value !in old(issued) && issued == old(issued)[r.value := (item, rights)]
    {
      hide LiveSet, History, Sorted, Unused;
      if closing {
        return Err(LimitReached);
      }
      ListPop(entries, free, freeHead);
      if freeHead != NO_ENTRY {
        var h := InsertFree(item, rights);
        return Ok(h);
      }
      if used >= limit {
        return Err(LimitReached);
      }
      if used == |entries| {
        var ok := Grow(src);
        if !ok {
          return Err(NoMemory);
        }
      }
      var h := InsertFresh(item, rights);
      r := Ok(h);
    }

    /** After Ok the next `n` inserts find an entry without growing; the table grows once at most. */
    method Reserve(src: Source, n: nat) returns (r: Answer<()>)
      requires Valid() && n <= CHUNK
      modifies `entries, `directory, src
      ensures Valid() && src.chunks + Chunks() == old(src.chunks + Chunks()) && Room() == old(Room())
      ensures src.directories + Directories() == old(src.directories + Directories())
      ensures r == Err(LimitReached) <==> Room() < n
      ensures r.Ok? ==> Capacity() >= n
      ensures r.Err? ==> entries == old(entries) && (r.error == LimitReached || r.error == NoMemory)
      ensures r == Err(NoMemory) <==> old(Room()) >= n && old(Capacity()) < n && old(CannotGrow(src))
      ensures r.Ok? ==> |entries| == |old(entries)| + (if old(Capacity()) < n then CHUNK else 0)
    {
      hide LiveSet, History, Sorted, Unused, ListOk;
      if Room() < n {
        return Err(LimitReached);
      }
      if closing {
        return Ok(());
      }
      var needed := if n > freeCount then n - freeCount else 0;
      if used + needed > |entries| {
        var ok := Grow(src);
        if !ok {
          return Err(NoMemory);
        }
      }
      r := Ok(());
    }

    /** What a handle names, with its rights, read from the entry at its index. */
    method Get(h: Handle) returns (r: Answer<(T, nat)>)
      requires Valid()
      ensures r.Ok? <==> Opens(h)
      ensures r.Ok? ==> r.value == issued[h]
      ensures r.Err? ==> r.error == BadHandle
      ensures !closing ==> (Opens(h) <==> h in issued && h !in removed)
    {
      hide LiveSet, ListOk, Sorted;
      EntryOpens(entries, released, used, issued, removed, handed, h);
      if h.index >= used {
        return Err(BadHandle);
      }
      var e := entries[h.index];
      if e.held.Some? && e.generation == h.generation {
        return Ok((e.held.value, e.rights));
      }
      r := Err(BadHandle);
    }

    /** Takes the object out; its handle never opens anything again. */
    method Remove(h: Handle) returns (r: Answer<(T, nat)>)
      requires Valid()
      modifies this
      ensures Valid() && closing == old(closing) && issued == old(issued) && handed == old(handed)
      ensures |entries| == old(|entries|) && directory == old(directory) && released == old(released)
      ensures r.Ok? <==> old(Opens(h))
      ensures r.Ok? ==> r.value == issued[h] && removed == old(removed) + {h} && live == old(live) - 1
      ensures r.Ok? && !closing ==> Room() == old(Room()) + (if h.generation == MAX_GENERATION then 0 else 1)
      ensures r.Err? ==>
                r.error == BadHandle && removed == old(removed) && entries == old(entries) && live == old(live)
                  && Room() == old(Room())
    {
      hide LiveSet, ListOk, Sorted, Unused, History;
      EntryOpens(entries, released, used, issued, removed, handed, h);
      if h.index >= used {
        return Err(BadHandle);
      }
      var i := h.index;
      var e := entries[i];
      if e.generation != h.generation || e.held.None? {
        return Err(BadHandle);
      }
      Empty(h);
      r := Ok((e.held.value, e.rights));
    }

    method EmptyEntry(h: Handle)
      requires Shape() && Opens(h) && Open(entries[h.index], h) && (released > 0 ==> used + CHUNK <= |entries|)
      modifies `entries, `live, `removed
      ensures Shape() && removed == old(removed) + {h} && live == old(live) - 1
      ensures entries == old(entries)[h.index := Emptied(old(entries)[h.index], freeHead)]
    {
      hide LiveSet, History;
      var i := h.index;
      ghost var was := entries;
      entries := entries[i := Emptied(entries[i], freeHead)];
      NotTaken(was, released, used, i);
      RemoveHistory(was, released, issued, removed, handed, h, entries[i]);
      LiveTake(was, entries, i, entries[i]);
      removed := removed + {h};
      live := live - 1;
    }

    method Empty(h: Handle)
      requires Valid() && Opens(h) && Open(entries[h.index], h)
      modifies this
      ensures Valid() && closing == old(closing) && issued == old(issued) && handed == old(handed)
      ensures |entries| == old(|entries|) && directory == old(directory) && released == old(released)
      ensures removed == old(removed) + {h} && live == old(live) - 1
      ensures used == old(used) && freeCount == old(freeCount) + (if h.generation == MAX_GENERATION then 0 else 1)
    {
      hide LiveSet, InOrder, History, Emptied;
      var i := h.index;
      var retire := entries[i].generation == MAX_GENERATION;
      ghost var was, removed1 := entries, removed;
      EmptyEntry(h);
      if !closing {
        EmptyInOrder(was, entries, used, freeHead, free, freeCount, gone, retired, live + 1, issued, removed1, i);
      }
      if retire {
        retired := retired + 1;
        gone := gone + {i};
      } else {
        freeHead := i;
        freeCount := freeCount + 1;
        free := [i] + free;
      }
    }

    /** How many entries a release still has to pass. */
    ghost function Left(): int
      reads this
    {
      |entries| - released
    }

    /** Takes the objects of some entries of the last chunk. */
    method TakeEntries(to: nat) returns (out: seq<(T, nat)>, ghost hs: seq<Handle>)
      requires Shape() && |entries| >= CHUNK && released <= to <= CHUNK
      modifies `entries, `live, `released, `handed
      ensures Shape() && released == to && |entries| == old(|entries|) && live == old(live) - |out|
      ensures HandedOut(issued, removed, old(handed), out, hs) && handed == old(handed) + (set h | h in hs)
    {
      hide LiveSet, History;
      out, hs := [], [];
      while released < to
        invariant Shape() && |entries| == old(|entries|) && released <= to && live == old(live) - |out|
        invariant HandedOut(issued, removed, old(handed), out, hs) && handed == old(handed) + (set h | h in hs)
      {
        var i := |entries| - CHUNK + released;
        var e := entries[i];
        if e.held.Some? {
          ghost var h := Handle(i, e.generation);
          TakeEntry(entries, entries[i := e.(held := None)], released, issued, removed, handed, i, h);
          LiveTake(entries, entries[i := e.(held := None)], i, e.(held := None));
          HandOne(issued, removed, old(handed), out, hs, h);
          entries := entries[i := e.(held := None)];
          live := live - 1;
          handed := handed + {h};
          out := out + [(e.held.value, e.rights)];
          hs := hs + [h];
        } else {
          PassEntry(entries, released, issued, removed, handed, i);
        }
        released := released + 1;
      }
    }

    /** At most `n` entries of the chunk at the end are emptied; once it is empty it is returned. */
    method LastChunk(src: Source, n: nat) returns (out: seq<(T, nat)>, ghost hs: seq<Handle>)
      requires Valid() && |entries| > 0 && n > 0
      modifies this, src
      ensures Shape() && closing && released < CHUNK && (released > 0 ==> used + CHUNK <= |entries|)
      ensures src.chunks + Chunks() == old(src.chunks + Chunks()) && src.directories == old(src.directories)
      ensures directory == old(directory)
      ensures HandedOut(issued, removed, old(handed), out, hs) && handed == old(handed) + (set h | h in hs)
      ensures issued == old(issued) && removed == old(removed) && live == old(live) - |out|
      ensures Left() == old(Left()) - Portion(n, old(released))
      ensures |entries| == 0 <==> old(|entries|) == CHUNK && n >= CHUNK - old(released)
    {
      hide LiveSet, History, InOrder, HandedOut;
      closing := true;
      freeHead := NO_ENTRY;
      used := if used <= |entries| - CHUNK then used else |entries| - CHUNK;
      var to := released + Portion(n, released);
      out, hs := TakeEntries(to);
      if to == CHUNK {
        DropChunk(entries, entries[..|entries| - CHUNK], issued, removed, handed);
        released := 0;
        entries := entries[..|entries| - CHUNK];
        src.chunks := src.chunks + 1;
      }
    }

    method ResetCounts()
      modifies `used, `freeHead, `live, `freeCount, `retired, `closing, `released
      ensures used == live == freeCount == retired == released == 0 && freeHead == NO_ENTRY && !closing
    {
      used, live, freeCount, retired, released := 0, 0, 0, 0, 0;
      freeHead, closing := NO_ENTRY, false;
    }

    /** A new life: what was issued before is forgotten. */
    ghost method Forget()
      requires entries == [] && limit <= MAX_HANDLES
      requires used == live == freeCount == retired == released == 0 && freeHead == NO_ENTRY && !closing
      modifies `free, `gone, `issued, `removed, `handed
      ensures Valid() && issued == map[]
    {
      hide LiveSet, History, InOrder;
      NothingIn(entries, [], {});
      free, gone, issued, removed, handed := [], {}, map[], {}, {};
    }

    /** No chunk is left: the directory goes back, and the table is as new. */
    method Finish(src: Source)
      requires entries == [] && limit <= MAX_HANDLES
      modifies this, src
      ensures Valid() && !closing && entries == [] && !directory && issued == map[] && released == 0
      ensures src.chunks == old(src.chunks) && src.directories == old(src.directories + Directories())
    {
      hide Valid;
      if directory {
        src.directories := src.directories + 1;
        directory := false;
      }
      ResetCounts();
      Forget();
    }

    /** One step of a release. */
    method ReleaseStep(src: Source, n: nat) returns (done: bool, out: seq<(T, nat)>, ghost hs: seq<Handle>)
      requires Valid() && n > 0
      modifies this, src
      ensures Valid() && src.chunks + Chunks() == old(src.chunks + Chunks())
      ensures src.directories + Directories() == old(src.directories + Directories())
      ensures HandedOut(old(issued), old(removed), old(handed), out, hs)
      ensures !done ==>
                closing && issued == old(issued) && removed == old(removed) && handed == old(handed) + (set h | h in hs)
      ensures !done ==> Left() == old(Left()) - Portion(n, old(released)) && live == old(live) - |out| && entries != []
      ensures done <==> old(|entries|) == 0 || (old(|entries|) == CHUNK && n >= CHUNK - old(released))
      ensures done ==> !closing && entries == [] && !directory && issued == map[]
      ensures done ==> forall h | h in old(issued) :: h in old(removed) || h in old(handed) || h in hs
    {
      hide LiveSet, History, InOrder;
      out, hs := [], [];
      if |entries| > 0 {
        out, hs := LastChunk(src, n);
        if |entries| > 0 {
          return false, out, hs;
        }
      }
      AllHanded(issued, removed, handed);
      Finish(src);
      done := true;
    }

    /** A whole release in steps of `n`: every object not removed goes out, each once. */
    method ReleaseAll(src: Source, n: nat) returns (steps: nat, out: seq<(T, nat)>, ghost hs: seq<Handle>)
      requires Valid() && !closing && n > 0
      modifies this, src
      ensures Valid() && !closing && entries == [] && !directory && issued == map[]
      ensures src.chunks == old(src.chunks + Chunks()) && src.directories == old(src.directories + Directories())
      ensures HandedOut(old(issued), old(removed), {}, out, hs)
      ensures forall h :: h in hs <==> h in old(issued) && h !in old(removed)
      ensures steps == StepsLeft(old(|entries|), 0, n)
    {
      hide LiveSet, History, InOrder, HandedOut;
      ghost var issued0, removed0 := issued, removed;
      steps, out, hs := 0, [], [];
      NoneHanded(issued, removed, out, hs);
      var done := false;
      while !done
        invariant Valid() && src.chunks + Chunks() == old(src.chunks + Chunks())
        invariant src.directories + Directories() == old(src.directories + Directories())
        invariant HandedOut(issued0, removed0, {}, out, hs)
        invariant !done ==> issued == issued0 && removed == removed0 && handed == {} + (set h | h in hs)
        invariant !done ==> steps + StepsLeft(|entries|, released, n) == StepsLeft(old(|entries|), 0, n)
        invariant done ==>
                    !closing && entries == [] && !directory && issued == map[]
                      && steps == StepsLeft(old(|entries|), 0, n)
        invariant done ==> forall h | h in issued0 :: h in removed0 || h in hs
        decreases if done then 0 else 1, Left()
      {
        ghost var handed1, hs1 := handed, hs;
        var more: seq<(T, nat)>;
        ghost var hs2: seq<Handle>;
        done, more, hs2 := ReleaseStep(src, n);
        HandMore(issued0, removed0, {}, out, hs, more, hs2);
        out, hs := out + more, hs + hs2;
        steps := steps + 1;
      }
      OnlyIssued(issued0, removed0, {}, out, hs);
    }
  }
}
