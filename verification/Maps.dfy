/** The mapping table of a process as it changes in place. */
module Maps {
  import opened Common
  import opened MapSpec

  datatype MapsError = InvalidArgs | LimitReached | BadState

  datatype Reply<+T> = Ok(value: T) | Err(error: MapsError)

  /** The mapping at `i` is exactly the range. */
  predicate IsRange<T>(t: Table<T>, i: nat, start: nat, pages: nat) {
    i < |t| && t[i].Some? && t[i].value.start == start && t[i].value.pages == pages
  }

  /** No range is mapped twice. */
  lemma OneRange<T>(t: Table<T>, i: nat, j: nat, start: nat, pages: nat)
    requires Disjoint(t) && IsRange(t, i, start, pages) && IsRange(t, j, start, pages)
    ensures i == j
  {
    assert t[i].value.Whole();
    assert At(t, i, start / PAGE) && At(t, j, start / PAGE);
  }

  class MapTable<T> {
    const entries: array<Option<Mapping<T>>>

    ghost function Value(): Table<T>
      reads this, entries
    {
      entries[..]
    }

    ghost predicate Valid()
      reads this, entries
    {
      entries.Length == MAX_MAPPINGS && Disjoint(Value())
    }

    constructor ()
      ensures Valid() && fresh(entries) && forall p: nat :: Look(Value(), p) == None
    {
      entries := new Option<Mapping<T>>[MAX_MAPPINGS](_ => None);
      new;
      assert forall i: nat, p: nat :: !At(Value(), i, p);
    }

    /** Whether the range and the mapping have a page in common. */
    method CheckFree(start: nat, pages: nat) returns (r: Reply<()>)
      requires Valid()
      ensures r.Ok? <==>
                forall j: nat | j < MAX_MAPPINGS && entries[j].Some? :: !entries[j].value.Overlaps(start, pages)
      ensures start % PAGE == 0 && pages > 0 ==>
                (r.Ok? <==> forall p: nat | start <= p * PAGE < start + pages * PAGE :: Look(Value(), p) == None)
      ensures r.Err? ==> r.error == InvalidArgs
    {
      var i := 0;
      while i < entries.Length
        invariant i <= entries.Length
        invariant forall j: nat | j < i && entries[j].Some? :: !entries[j].value.Overlaps(start, pages)
      {
        if entries[i].Some? && entries[i].value.Overlaps(start, pages) {
          if start % PAGE == 0 && pages > 0 {
            OverlapShows(Value(), i, start, pages);
          }
          return Err(InvalidArgs);
        }
        i := i + 1;
      }
      if start % PAGE == 0 && pages > 0 {
        NoOverlapNoPage(Value(), start, pages);
      }
      r := Ok(());
    }

    /** Checks the range and inserts in one pass. */
    method InsertChecked(m: Mapping<T>) returns (r: Reply<nat>)
      requires Valid() && m.Whole()
      modifies entries
      ensures Valid()
      ensures r == Err(InvalidArgs) <==> exists p: nat :: m.Covers(p) && Look(old(Value()), p).Some?
      ensures r == Err(LimitReached) <==>
                !(exists p: nat :: m.Covers(p) && Look(old(Value()), p).Some?) && Used(old(Value())) == MAX_MAPPINGS
      ensures r.Err? ==> Value() == old(Value()) && r.error != BadState
      ensures r.Ok? ==>
                forall p: nat :: Look(Value(), p) == if m.Covers(p) then Some(m.Shown(p)) else Look(old(Value()), p)
      ensures r.Ok? ==> r.value < MAX_MAPPINGS && entries[r.value] == Some(m) && Used(Value()) == Used(old(Value())) + 1
      ensures r.Ok? ==> old(entries[r.value]).None? && forall j: nat | j < r.value :: old(entries[j]).Some?
      ensures r.Ok? ==> Value() == old(Value())[r.value := Some(m)]
    {
      ghost var t := Value();
      var free: Option<nat> := None;
      var i := 0;
      while i < entries.Length
        invariant i <= entries.Length && Value() == t
        invariant forall j: nat | j < i && t[j].Some? :: !t[j].value.Overlaps(m.start, m.pages)
        invariant free.None? ==> forall j: nat | j < i :: t[j].Some?
        invariant free.Some? ==> free.value < i && t[free.value].None? && forall j: nat | j < free.value :: t[j].Some?
      {
        if entries[i].Some? && entries[i].value.Overlaps(m.start, m.pages) {
          OverlapShows(t, i, m.start, m.pages);
          return Err(InvalidArgs);
        }
        if entries[i].None? && free.None? {
          free := Some(i);
        }
        i := i + 1;
      }
      NoOverlapNoPage(t, m.start, m.pages);
      FullIsUsed(t, MAX_MAPPINGS);
      if free.None? {
        return Err(LimitReached);
      }
      Put(t, free.value, m);
      r := Ok(free.value);
    }

    /** A mapping over free pages goes into a free place. */
    method Put(ghost t: Table<T>, i: nat, m: Mapping<T>)
      requires Valid() && Value() == t && i < MAX_MAPPINGS && entries[i].None? && m.Whole()
      requires forall p: nat | m.Covers(p) :: Look(t, p) == None
      modifies entries
      ensures Valid() && Value() == t[i := Some(m)] && Used(Value()) == Used(t) + 1
      ensures forall p: nat :: Look(Value(), p) == if m.Covers(p) then Some(m.Shown(p)) else Look(t, p)
    {
      InsertLook(t, i, m);
      entries[i] := Some(m);
      assert Value() == t[i := Some(m)];
    }

    /** The mapping of exactly that range. */
    method Find(start: nat, pages: nat) returns (r: Reply<nat>)
      requires Valid()
      ensures r.Ok? ==>
                r.value < MAX_MAPPINGS && entries[r.value].Some? && entries[r.value].value.start == start
                  && entries[r.value].value.pages == pages
      ensures r.Err? ==> r.error == InvalidArgs
      ensures r.Err? ==>
                forall i: nat | i < MAX_MAPPINGS && entries[i].Some? ::
                  entries[i].value.start != start || entries[i].value.pages != pages
    {
      var i := 0;
      while i < entries.Length
        invariant i <= entries.Length
        invariant forall j: nat | j < i && entries[j].Some? ::
                    entries[j].value.start != start || entries[j].value.pages != pages
      {
        if entries[i].Some? && entries[i].value.start == start && entries[i].value.pages == pages {
          return Ok(i);
        }
        i := i + 1;
      }
      r := Err(InvalidArgs);
    }

    /** The mapping that holds all of the range. */
    method FindInside(start: nat, pages: nat) returns (r: Reply<nat>)
      requires Valid()
      ensures r.Ok? ==> r.value < MAX_MAPPINGS && entries[r.value].Some?
      ensures r.Ok? ==> entries[r.value].value.start <= start && start + pages * PAGE <= entries[r.value].value.End()
      ensures r.Err? ==> r.error == InvalidArgs
      ensures r.Err? ==>
                forall i: nat | i < MAX_MAPPINGS && entries[i].Some? ::
                  start < entries[i].value.start || entries[i].value.End() < start + pages * PAGE
    {
      var i := 0;
      while i < entries.Length
        invariant i <= entries.Length
        invariant forall j: nat | j < i && entries[j].Some? ::
                    start < entries[j].value.start || entries[j].value.End() < start + pages * PAGE
      {
        if entries[i].Some? && entries[i].value.start <= start && start + pages * PAGE <= entries[i].value.End() {
          return Ok(i);
        }
        i := i + 1;
      }
      r := Err(InvalidArgs);
    }

    /** The first two free places. */
    method FreePlaces() returns (places: seq<nat>)
      requires Valid()
      ensures |places| <= 2 && forall k: nat | k < |places| :: places[k] < MAX_MAPPINGS && entries[places[k]].None?
      ensures |places| == 2 ==> places[0] != places[1] && Used(Value()) <= MAX_MAPPINGS - 2
      ensures |places| < 2 ==> Used(Value()) == MAX_MAPPINGS - |places|
    {
      places := [];
      var i := 0;
      ghost var t := Value();
      while i < entries.Length && |places| < 2
        invariant i <= entries.Length && |places| <= 2
        invariant forall k: nat | k < |places| :: places[k] < i && entries[places[k]].None?
        invariant |places| == 2 ==> places[0] != places[1]
        invariant Used(t[..i]) == i - |places|
      {
        assert t[..i + 1] == t[..i] + [t[i]];
        UsedMore(t[..i], t[i]);
        if entries[i].None? {
          places := places + [i];
        }
        i := i + 1;
      }
      UsedPrefix(t, i);
      assert t[..MAX_MAPPINGS] == t;
    }

    /** The mapping at `i` is cut at the ends of the range; the piece within becomes busy. */
    method Split(i: nat, start: nat, pages: nat) returns (r: Reply<nat>)
      requires Valid() && i < MAX_MAPPINGS && entries[i].Some? && start % PAGE == 0
      modifies entries
      ensures Valid()
      ensures r == Err(InvalidArgs) <==> !Inside(old(entries[i]).value, start, pages)
      ensures r == Err(BadState) <==> Inside(old(entries[i]).value, start, pages) && old(entries[i]).value.busy
      ensures r == Err(LimitReached) <==>
                && Inside(old(entries[i]).value, start, pages) && !old(entries[i]).value.busy
                && Used(old(Value())) + Edges(old(entries[i]).value, start, pages) > MAX_MAPPINGS
      ensures r.Err? ==> Value() == old(Value())
      ensures r.Ok? ==>
                r.value == Edges(old(entries[i]).value, start, pages) && Used(Value()) == Used(old(Value())) + r.value
      ensures r.Ok? ==> forall p: nat :: Look(Value(), p) == Look(old(Value()), p)
      ensures r.Ok? ==> entries[i] == Some(Middle(old(entries[i]).value, start, pages))
      ensures r.Ok? ==> IsRange(Value(), i, start, pages) && entries[i].value.busy
      ensures r.Ok? ==>
                forall j: nat | j < MAX_MAPPINGS && j != i ::
                  entries[j] == old(entries[j]) || IsEdge(old(entries[i]).value, old(entries[j]), entries[j])
    {
      ghost var t := Value();
      var m := entries[i].value;
      if pages == 0 || pages > m.pages || start < m.start || start + pages * PAGE > m.End() {
        return Err(InvalidArgs);
      }
      if m.busy {
        return Err(BadState);
      }
      var before := (start - m.start) / PAGE;
      var after := (m.End() - (start + pages * PAGE)) / PAGE;
      var edges := (if before != 0 then 1 else 0) + (if after != 0 then 1 else 0);
      var places := FreePlaces();
      if |places| < edges {
        return Err(LimitReached);
      }
      CutEntries(t, i, start, pages, places);
      r := Ok(edges);
    }

    method CutEntries(ghost t: Table<T>, i: nat, start: nat, pages: nat, places: seq<nat>)
      requires Valid() && Value() == t && i < MAX_MAPPINGS && entries[i].Some? && start % PAGE == 0
      requires Inside(entries[i].value, start, pages)
      requires Edges(entries[i].value, start, pages) <= |places| <= 2
      requires forall k: nat | k < |places| :: places[k] < MAX_MAPPINGS && entries[places[k]].None?
      requires |places| == 2 ==> places[0] != places[1]
      modifies entries
      ensures Valid() && Used(Value()) == Used(t) + Edges(t[i].value, start, pages)
      ensures forall p: nat :: Look(Value(), p) == Look(t, p)
      ensures entries[i] == Some(Middle(t[i].value, start, pages))
      ensures forall j: nat | j < MAX_MAPPINGS && j != i :: entries[j] == t[j] || IsEdge(t[i].value, t[j], entries[j])
    {
      hide Disjoint, Look, Used;
      var m := entries[i].value;
      var before := (start - m.start) / PAGE;
      var after := (m.End() - (start + pages * PAGE)) / PAGE;
      var middle := m.(start := start, pages := pages, offset := m.offset + before, busy := true);
      var next := 0;
      ghost var a := Other(i, i);
      ghost var b := Other(i, a);
      if before != 0 {
        entries[places[0]] := Some(m.(pages := before));
        a, next := places[0], 1;
        b := Other(i, a);
      }
      if after != 0 {
        entries[places[next]] := Some(m.(start := start + pages * PAGE, pages := after,
                                         offset := middle.offset + middle.pages));
        b := places[next];
        if before == 0 {
          a := Other(i, b);
        }
      }
      entries[i] := Some(middle);
      assert Cut(t, Value(), i, start, pages, a, b);
      CutKeeps(t, Value(), i, start, pages, a, b);
    }

    /** As Find, but a busy mapping answers BadState. */
    method FindIdle(start: nat, pages: nat) returns (r: Reply<nat>)
      requires Valid()
      ensures r.Ok? ==> IsRange(Value(), r.value, start, pages) && !entries[r.value].value.busy
      ensures r == Err(InvalidArgs) <==> forall i: nat :: !IsRange(Value(), i, start, pages)
      ensures r == Err(BadState) <==> exists i: nat :: IsRange(Value(), i, start, pages) && entries[i].value.busy
      ensures r.Err? ==> r.error == InvalidArgs || r.error == BadState
    {
      r := Find(start, pages);
      if r.Ok? {
        ghost var i := r.value;
        assert IsRange(Value(), i, start, pages);
        forall j: nat | IsRange(Value(), j, start, pages) ensures i == j {
          OneRange(Value(), i, j, start, pages);
        }
        if entries[r.value].value.busy {
          r := Err(BadState);
        }
      }
    }

    /** The entry changes to one that shows fewer of the same pages, or leaves the table. */
    method Trim(i: nat, m: Option<Mapping<T>>)
      requires Valid() && i < MAX_MAPPINGS && entries[i].Some?
      requires (m.Some? ==> m.value.Whole() && PartOf(m.value, entries[i].value))
      modifies entries
      ensures Valid() && Value() == old(Value())[i := m]
      ensures forall p: nat :: Look(Value(), p) ==
                if old(entries[i]).value.Covers(p) && !(m.Some? && m.value.Covers(p)) then None
                else Look(old(Value()), p)
    {
      ghost var t := Value();
      TrimLook(t, i, m);
      entries[i] := m;
      assert Value() == t[i := m];
    }

    method SetBusy(i: nat, busy: bool)
      requires Valid() && i < MAX_MAPPINGS && entries[i].Some?
      modifies entries
      ensures Valid() && Value() == old(Value())[i := Some(old(entries[i]).value.(busy := busy))]
      ensures forall p: nat :: Look(Value(), p) == Look(old(Value()), p)
    {
      Trim(i, Some(entries[i].value.(busy := busy)));
    }

    /** Takes a mapping out. */
    method Remove(i: nat) returns (m: Mapping<T>)
      requires Valid() && i < MAX_MAPPINGS && entries[i].Some?
      modifies entries
      ensures Valid() && m == old(entries[i]).value && Value() == old(Value())[i := None]
      ensures forall p: nat :: Look(Value(), p) == if m.Covers(p) then None else Look(old(Value()), p)
    {
      m := entries[i].value;
      Trim(i, None);
    }

    /** The mapping keeps its first pages; with none it goes, and its object comes back. */
    method ShrinkTo(i: nat, pages: nat) returns (r: Option<T>)
      requires Valid() && i < MAX_MAPPINGS && entries[i].Some? && pages <= entries[i].value.pages
      modifies entries
      ensures Valid() && (r.Some? <==> pages == 0)
      ensures (r.Some? ==> r.value == old(entries[i]).value.item && entries[i] == None)
      ensures r.None? ==> entries[i] == Some(old(entries[i]).value.(pages := pages, busy := false))
      ensures Value() == old(Value())[i := entries[i]]
      ensures forall p: nat :: Look(Value(), p) ==
                if old(entries[i]).value.Covers(p) && p * PAGE >= old(entries[i]).value.start + pages * PAGE then None
                else Look(old(Value()), p)
    {
      var m := entries[i].value;
      if pages == 0 {
        Trim(i, None);
        return Some(m.item);
      }
      Trim(i, Some(m.(pages := pages, busy := false)));
      r := None;
    }

    /** The mapping loses its first pages; with none left it goes, and its object comes back. */
    method DropPrefix(i: nat, pages: nat) returns (r: Option<T>)
      requires Valid() && i < MAX_MAPPINGS && entries[i].Some? && pages <= entries[i].value.pages
      modifies entries
      ensures Valid() && (r.Some? <==> pages == old(entries[i]).value.pages)
      ensures (r.Some? ==> r.value == old(entries[i]).value.item && entries[i] == None)
      ensures r.None? ==>
                entries[i].Some? && !entries[i].value.busy && entries[i].value.End() == old(entries[i]).value.End()
      ensures Value() == old(Value())[i := entries[i]]
      ensures forall p: nat :: Look(Value(), p) ==
                if old(entries[i]).value.Covers(p) && p * PAGE < old(entries[i]).value.start + pages * PAGE then None
                else Look(old(Value()), p)
    {
      var m := entries[i].value;
      if pages == m.pages {
        Trim(i, None);
        return Some(m.item);
      }
      SuffixIsPart(m, pages);
      Trim(i,
           Some(m.(start := m.start + pages * PAGE, offset := m.offset + pages,
                   pages := m.pages - pages, busy := false)));
      r := None;
    }

    /** Takes up to `n` mappings out, busy or not. */
    method Drain(n: nat) returns (empty: bool, out: seq<Mapping<T>>)
      requires Valid()
      modifies entries
      ensures Valid() && Contents(old(Value())) == multiset(out) + Contents(Value())
      ensures |out| <= n && (empty <==> Used(Value()) == 0) && (|out| < n ==> empty)
    {
      hide Disjoint, Contents, Used;
      out := [];
      var i := 0;
      while i < entries.Length && |out| < n
        invariant i <= entries.Length && Valid() && |out| <= n
        invariant Contents(old(Value())) == multiset(out) + Contents(Value())
        invariant forall j: nat | j < i :: entries[j].None?
      {
        if entries[i].Some? {
          var m := TakeAt(i);
          out := out + [m];
        }
        i := i + 1;
      }
      EmptyIsUnused(Value(), MAX_MAPPINGS);
      empty := IsEmpty();
    }

    method TakeAt(i: nat) returns (m: Mapping<T>)
      requires Valid() && i < MAX_MAPPINGS && entries[i].Some?
      modifies entries
      ensures Valid() && Contents(old(Value())) == multiset{m} + Contents(Value()) && entries[i] == None
      ensures forall j: nat | j < MAX_MAPPINGS && j != i :: entries[j] == old(entries[j])
    {
      hide Disjoint, Contents;
      ghost var t := Value();
      m := entries[i].value;
      TakeOut(t, i);
      entries[i] := None;
      assert Value() == t[i := None];
    }

    method IsEmpty() returns (b: bool)
      requires Valid()
      ensures b <==> Used(Value()) == 0
    {
      EmptyIsUnused(Value(), MAX_MAPPINGS);
      var i := 0;
      while i < entries.Length
        invariant i <= entries.Length && forall j: nat | j < i :: entries[j].None?
      {
        if entries[i].Some? {
          return false;
        }
        i := i + 1;
      }
      b := true;
    }
  }

  /** How many edges a cut leaves. */
  function Edges<T>(m: Mapping<T>, start: nat, pages: nat): nat {
    (if m.start <= start && (start - m.start) / PAGE != 0 then 1 else 0)
    + (if start + pages * PAGE <= m.End() && (m.End() - (start + pages * PAGE)) / PAGE != 0 then 1 else 0)
  }

  /** A place that was free now holds an edge of the mapping, as busy as the mapping was. */
  ghost predicate IsEdge<T>(m: Mapping<T>, was: Option<Mapping<T>>, e: Option<Mapping<T>>) {
    was.None? && e.Some? && e.value.item == m.item && e.value.rights == m.rights && e.value.busy == m.busy
  }

  lemma CutKeeps<T>(t: Table<T>, t': Table<T>, i: nat, start: nat, pages: nat, a: nat, b: nat)
    requires Disjoint(t) && Cut(t, t', i, start, pages, a, b) && Inside(t[i].value, start, pages) && start % PAGE == 0
    ensures Disjoint(t') && Used(t') == Used(t) + Edges(t[i].value, start, pages)
    ensures forall p: nat :: Look(t', p) == Look(t, p)
  {
    hide Disjoint, Look, Used;
    CutDisjoint(t, t', i, start, pages, a, b);
    CutUsed(t, t', i, start, pages, a, b);
    forall p: nat ensures Look(t', p) == Look(t, p) {
      CutLook(t, t', i, start, pages, a, b, p);
    }
  }

  function Other(i: nat, a: nat): nat {
    if i != 0 && a != 0 then 0 else if i != 1 && a != 1 then 1 else 2
  }

  lemma OverlapShows<T>(t: Table<T>, i: nat, start: nat, pages: nat)
    requires Disjoint(t) && i < |t| && t[i].Some? && t[i].value.Overlaps(start, pages) && start % PAGE == 0 && pages > 0
    ensures exists p: nat :: start <= p * PAGE < start + pages * PAGE && Look(t, p).Some?
  {
    OverlapIsSharing(t[i].value, start, pages);
    var p: nat :| t[i].value.Covers(p) && start <= p * PAGE < start + pages * PAGE;
    LookIs(t, i, p);
  }

  lemma NoOverlapNoPage<T>(t: Table<T>, start: nat, pages: nat)
    requires Disjoint(t) && start % PAGE == 0 && pages > 0
    requires forall j: nat | j < |t| && t[j].Some? :: !t[j].value.Overlaps(start, pages)
    ensures forall p: nat | start <= p * PAGE < start + pages * PAGE :: Look(t, p) == None
  {
    forall p: nat | start <= p * PAGE < start + pages * PAGE ensures Look(t, p) == None {
      forall j: nat ensures !At(t, j, p) {
        if j < |t| && t[j].Some? {
          OverlapIsSharing(t[j].value, start, pages);
        }
      }
    }
  }

  lemma InsertLook<T>(t: Table<T>, i: nat, m: Mapping<T>)
    requires Disjoint(t) && i < |t| && t[i].None? && m.Whole() && forall p: nat | m.Covers(p) :: Look(t, p) == None
    ensures Disjoint(t[i := Some(m)]) && Used(t[i := Some(m)]) == Used(t) + 1
    ensures forall p: nat :: Look(t[i := Some(m)], p) == if m.Covers(p) then Some(m.Shown(p)) else Look(t, p)
  {
    var t' := t[i := Some(m)];
    forall j: nat, p: nat | j != i && At(t, j, p) ensures !m.Covers(p) {
      LookIs(t, j, p);
    }
    ReplaceDisjoint(t, t', i, Some(m));
    UsedSet(t, i, Some(m));
    forall p: nat ensures Look(t', p) == if m.Covers(p) then Some(m.Shown(p)) else Look(t, p) {
      ReplaceLook(t, t', i, p);
    }
  }

  lemma UsedMore<T>(t: Table<T>, e: Option<Mapping<T>>)
    ensures Used(t + [e]) == Used(t) + (if e.Some? then 1 else 0)
  {
    assert (t + [e])[..|t|] == t;
  }

  lemma {:induction false} UsedPrefix<T>(t: Table<T>, i: nat)
    requires i <= |t|
    ensures Used(t[..i]) <= i && Used(t) <= Used(t[..i]) + (|t| - i)
    decreases |t| - i, i
  {
    if i < |t| {
      UsedPrefix(t, i + 1);
      assert t[..i + 1] == t[..i] + [t[i]];
      UsedMore(t[..i], t[i]);
    } else {
      assert t[..i] == t;
    }
    UsedAtMost(t[..i]);
  }

  lemma {:induction false} UsedAtMost<T>(t: Table<T>)
    ensures Used(t) <= |t|
  {
    if t != [] {
      UsedAtMost(t[..|t| - 1]);
    }
  }

  /** A table without a free place is full. */
  lemma {:induction false} FullIsUsed<T>(t: Table<T>, n: nat)
    requires |t| == n
    ensures Used(t) == n <==> forall j: nat | j < n :: t[j].Some?
    decreases n
  {
    if n > 0 {
      FullIsUsed(t[..n - 1], n - 1);
      UsedAtMost(t[..n - 1]);
    }
  }

  /** It has only pages of the other mapping, and shows on them what that shows. */
  ghost predicate PartOf<T>(a: Mapping<T>, m: Mapping<T>) {
    forall p: nat | a.Covers(p) :: m.Covers(p) && a.Shown(p) == m.Shown(p)
  }

  lemma SuffixIsPart<T>(m: Mapping<T>, pages: nat)
    requires m.Whole() && pages < m.pages
    ensures var a := m.(start := m.start + pages * PAGE, offset := m.offset + pages,
                        pages := m.pages - pages, busy := false);
            PartOf(a, m) && a.Whole() && a.End() == m.End()
  {
  }

  lemma TrimLook<T>(t: Table<T>, i: nat, m: Option<Mapping<T>>)
    requires Disjoint(t) && i < |t| && t[i].Some? && (m.Some? ==> m.value.Whole() && PartOf(m.value, t[i].value))
    ensures Disjoint(t[i := m])
    ensures forall p: nat ::
              Look(t[i := m], p) == if t[i].value.Covers(p) && !(m.Some? && m.value.Covers(p)) then None else Look(t, p)
  {
    var t' := t[i := m];
    forall j: nat, p: nat | j != i && At(t, j, p) && m.Some? ensures !m.value.Covers(p) {
      assert At(t, i, p) ==> i == j;
    }
    ReplaceDisjoint(t, t', i, m);
    forall p: nat
      ensures Look(t', p) == if t[i].value.Covers(p) && !(m.Some? && m.value.Covers(p)) then None else Look(t, p)
    {
      ReplaceLook(t, t', i, p);
      if At(t, i, p) {
        LookIs(t, i, p);
      }
    }
  }

  /** The mappings of a table. */
  ghost function Contents<T>(t: Table<T>): multiset<Mapping<T>> {
    if t == [] then multiset{}
    else Contents(t[..|t| - 1]) + (if t[|t| - 1].Some? then multiset{t[|t| - 1].value} else multiset{})
  }

  lemma BagMoves<M>(a: multiset<M>, b: multiset<M>, x: multiset<M>, y: multiset<M>)
    requires a == b + x
    ensures a + y == b + y + x
  {
  }

  lemma {:induction false} ContentsLess<T>(t: Table<T>, t': Table<T>, i: nat)
    requires i < |t| && t[i].Some? && t' == t[i := None]
    ensures Contents(t) == Contents(t') + multiset{t[i].value}
    decreases |t|
  {
    var k := |t| - 1;
    if i == k {
      assert t'[..k] == t[..k];
    } else {
      assert t'[..k] == t[..k][i := None];
      ContentsLess(t[..k], t'[..k], i);
      BagMoves(Contents(t[..k]), Contents(t'[..k]), multiset{t[i].value},
               if t[k].Some? then multiset{t[k].value} else multiset{});
    }
  }

  lemma TakeOut<T>(t: Table<T>, i: nat)
    requires Disjoint(t) && i < |t| && t[i].Some?
    ensures Disjoint(t[i := None]) && Contents(t) == Contents(t[i := None]) + multiset{t[i].value}
  {
    ReplaceDisjoint(t, t[i := None], i, None);
    ContentsLess(t, t[i := None], i);
  }

  lemma {:induction false} EmptyIsUnused<T>(t: Table<T>, n: nat)
    requires |t| == n
    ensures Used(t) == 0 <==> forall j: nat | j < n :: t[j].None?
    decreases n
  {
    if n > 0 {
      EmptyIsUnused(t[..n - 1], n - 1);
    }
  }
}
