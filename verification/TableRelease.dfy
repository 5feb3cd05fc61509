/** The stepwise release of a table tree: a cursor that remembers the way down. */
module TableRelease {
  import opened Descriptors
  import opened TableTree
  import opened TableTrace

  /** A table on the way from the root, and the next entry to read in it. */
  datatype Spot = Spot(n: Node, next: nat)

  ghost predicate Way(nodes: set<Node>, spots: seq<Spot>) {
    |spots| <= 3 && forall k: nat | k < |spots| ::
      spots[k].n in nodes && spots[k].n.level == k && spots[k].next <= ENTRIES
  }

  /** What is left of the walk at a place. */
  ghost function Rest(nodes: set<Node>, spots: seq<Spot>): seq<Event>
    requires Way(nodes, spots)
  {
    if spots == [] then
      []
    else
      var top := spots[|spots| - 1];
      Trace(nodes, top.n, top.next) + Rest(nodes, spots[..|spots| - 1])
  }

  lemma RestIs(nodes: set<Node>, up: seq<Spot>, top: Spot)
    requires Way(nodes, up + [top]) && top.n.level <= 2 && top.next <= ENTRIES
    ensures Way(nodes, up) && Rest(nodes, up + [top]) == Trace(nodes, top.n, top.next) + Rest(nodes, up)
  {
    var spots := up + [top];
    assert spots[|spots| - 1] == top && spots[..|spots| - 1] == up;
    assert forall k: nat | k < |up| :: up[k] == spots[k];
  }

  ghost predicate NoneFrom(nodes: set<Node>, n: Node, i: nat, j: nat) {
    forall k: nat | i <= k < j :: Child(n, k) !in nodes
  }

  lemma WayTop(nodes: set<Node>, up: seq<Spot>, top: Spot)
    requires Way(nodes, up + [top])
    ensures top.n in nodes && top.n.level == |up| <= 2 && top.next <= ENTRIES
  {
    var spots := up + [top];
    assert spots[|up|] == top;
  }

  /** The step that finds a table at entry `j`. */
  lemma FoundStep(nodes: set<Node>, up: seq<Spot>, n: Node, i: nat, j: nat)
    requires Way(nodes, up + [Spot(n, i)]) && i <= j < ENTRIES && NoneFrom(nodes, n, i, j)
    ensures n.level <= 2 && Way(nodes, up + [Spot(n, j + 1)])
    ensures Rest(nodes, up + [Spot(n, i)])
            == Reads(n, i, j + 1) + AtChild(nodes, Child(n, j)) + Rest(nodes, up + [Spot(n, j + 1)])
  {
    hide Way, Rest, Trace, AtChild;
    WayTop(nodes, up, Spot(n, i));
    WayMoves(nodes, up, n, i, j + 1);
    RestIs(nodes, up, Spot(n, i));
    RestIs(nodes, up, Spot(n, j + 1));
    Skip(nodes, n, i, j);
    TraceStep(nodes, n, j);
    Joined(Reads(n, i, j), Look(n, j), Reads(n, i, j + 1), AtChild(nodes, Child(n, j)), Trace(nodes, n, j + 1),
           Rest(nodes, up));
  }

  lemma Joined(a: seq<Event>, e: Event, b: seq<Event>, c: seq<Event>, d: seq<Event>, r: seq<Event>)
    requires b == a + [e]
    ensures a + ([e] + c + d) + r == b + c + (d + r)
  {
  }

  /** From level 2 the walk does not go down: it frees the table it finds. */
  lemma FreeBelow(nodes: set<Node>, up: seq<Spot>, n: Node, i: nat, j: nat)
    requires Way(nodes, up + [Spot(n, i)]) && i <= j < ENTRIES && NoneFrom(nodes, n, i, j)
    requires n.level == 2 && Child(n, j) in nodes
    ensures Way(nodes, up + [Spot(n, j + 1)])
    ensures Rest(nodes, up + [Spot(n, i)])
            == Reads(n, i, j + 1) + [Free(Child(n, j))] + Rest(nodes, up + [Spot(n, j + 1)])
  {
    FoundStep(nodes, up, n, i, j);
  }

  /** From levels 0 and 1 it goes down first. */
  lemma GoDown(nodes: set<Node>, up: seq<Spot>, n: Node, i: nat, j: nat, down: seq<Spot>)
    requires Way(nodes, up + [Spot(n, i)]) && i <= j < ENTRIES && NoneFrom(nodes, n, i, j)
    requires n.level < 2 && Child(n, j) in nodes && down == up + [Spot(n, j + 1)] + [Spot(Child(n, j), 0)]
    ensures Way(nodes, down)
    ensures Rest(nodes, up + [Spot(n, i)]) == Reads(n, i, j + 1) + [Enter(Child(n, j))] + Rest(nodes, down)
  {
    hide Rest, Trace;
    FoundStep(nodes, up, n, i, j);
    WayTop(nodes, up, Spot(n, i));
    WayDown(nodes, up + [Spot(n, j + 1)], Spot(Child(n, j), 0));
    RestIs(nodes, up + [Spot(n, j + 1)], Spot(Child(n, j), 0));
    JoinedDown(Reads(n, i, j + 1), Enter(Child(n, j)), Trace(nodes, Child(n, j), 0),
               Rest(nodes, up + [Spot(n, j + 1)]));
  }

  lemma JoinedDown(b: seq<Event>, e: Event, t: seq<Event>, r: seq<Event>)
    ensures b + ([e] + t) + r == b + [e] + (t + r)
  {
  }

  lemma WayMoves(nodes: set<Node>, up: seq<Spot>, n: Node, i: nat, j: nat)
    requires Way(nodes, up + [Spot(n, i)]) && j <= ENTRIES
    ensures Way(nodes, up + [Spot(n, j)])
  {
    var a, b := up + [Spot(n, i)], up + [Spot(n, j)];
    assert a[|up|] == Spot(n, i);
    forall k: nat | k < |b| ensures b[k].n in nodes && b[k].n.level == k && b[k].next <= ENTRIES {
      assert a[k].n in nodes;
    }
  }

  lemma WayDown(nodes: set<Node>, up: seq<Spot>, s: Spot)
    requires Way(nodes, up) && |up| < 3 && s.n in nodes && s.n.level == |up| && s.next <= ENTRIES
    ensures Way(nodes, up + [s])
  {
  }

  /** The step that finds no further table. */
  lemma EmptyStep(nodes: set<Node>, up: seq<Spot>, n: Node, i: nat)
    requires Way(nodes, up + [Spot(n, i)]) && NoneFrom(nodes, n, i, ENTRIES)
    ensures n.level <= 2 && i <= ENTRIES && Way(nodes, up)
    ensures Rest(nodes, up + [Spot(n, i)]) == Reads(n, i, ENTRIES) + [Free(n)] + Rest(nodes, up)
  {
    var spots := up + [Spot(n, i)];
    assert spots[|up|] == Spot(n, i);
    RestIs(nodes, up, Spot(n, i));
    Skip(nodes, n, i, ENTRIES);
  }

  /** The frames a walk still owes. */
  ghost function Owed(at: Places, t: seq<Event>): (s: set<nat>)
  {
    set n | n in at && Free(n) in t :: at[n]
  }

  lemma OwedPast(at: Places, a: seq<Event>, t: seq<Event>)
    requires forall e | e in a :: !e.Free?
    ensures Owed(at, a + t) == Owed(at, t)
  {
    forall n ensures Free(n) in a + t <==> Free(n) in t {
    }
  }

  lemma OwedLess(at: Places, done: seq<Event>, n: Node, t: seq<Event>)
    requires Injective(at) && n in at && Once(done + [Free(n)] + t)
    ensures Owed(at, t) == Owed(at, [Free(n)] + t) - {at[n]} && at[n] in Owed(at, [Free(n)] + t)
  {
    var all := done + [Free(n)] + t;
    forall k: nat | k < |t| ensures t[k] != Free(n) {
      assert all[|done|] == Free(n) && all[|done| + 1 + k] == t[k];
    }
    assert Free(n) !in t;
    assert ([Free(n)] + t)[0] == Free(n);
    forall f ensures f in Owed(at, t) <==> f in Owed(at, [Free(n)] + t) && f != at[n] {
      if f in Owed(at, t) {
        var k :| k in at && Free(k) in t && at[k] == f;
        assert Free(k) in [Free(n)] + t;
      }
    }
  }

  /** The frames freed, in order. */
  ghost function FreedFrames(at: Places, t: seq<Event>): seq<nat> {
    if t == [] then [] else
      var e := t[|t| - 1];
      FreedFrames(at, t[..|t| - 1]) + (if e.Free? && e.n in at then [at[e.n]] else [])
  }

  lemma FreedOne(at: Places, t: seq<Event>, e: Event)
    ensures FreedFrames(at, t + [e]) == FreedFrames(at, t) + (if e.Free? && e.n in at then [at[e.n]] else [])
  {
    var u := t + [e];
    assert u[|u| - 1] == e && u[..|u| - 1] == t;
  }

  /** What an entry of levels 0 to 2 says about the tree. */
  lemma EntryTells(words: Words, root: nat, at: Places, n: Node, i: nat)
    requires Tree(words, root, at) && n in at && n.level < 3 && i < ENTRIES
    ensures IsTableOrPage(Read(words, Slot(at[n], i))) <==> Child(n, i) in at
    ensures Child(n, i) in at ==> Read(words, Slot(at[n], i)).frame == at[Child(n, i)]
  {
    ChildParent(n, i);
    if Child(n, i) in at {
      assert Linked(words, at, Child(n, i));
    }
  }

  lemma TreePlaces(words: Words, root: nat, at: Places)
    requires Tree(words, root, at)
    ensures Complete(at.Keys)
  {
  }

  /** An entry of the cursor's path. */
  datatype Place = Place(table: nat, next: nat)

  ghost predicate OnWay(at: Places, path: seq<Place>, spots: seq<Spot>) {
    && |path| == |spots| && Way(at.Keys, spots)
    && forall k: nat | k < |spots| :: spots[k].n in at && path[k] == Place(at[spots[k].n], spots[k].next)
  }

  /** Tables not yet given back read as they did at the start, and they are those owed. */
  ghost predicate Holds(words0: Words, root: nat, at: Places, words: Words, owned: set<nat>, left: seq<Event>) {
    && Tree(words0, root, at) && owned == Owed(at, left)
    && forall s: Slot | s.table in owned :: Read(words, s) == Read(words0, s)
  }

  /** The top of the way: the table the next step reads, still owned. */
  lemma TopOwned(at: Places, path: seq<Place>, spots: seq<Spot>, k: nat, up: seq<Spot>, top: Spot)
    requires OnWay(at, path, spots) && |spots| == k + 1 && up == spots[..k] && top == spots[k]
    ensures spots == up + [top] && top.n.level == k <= 2 && top.next <= ENTRIES
    ensures top.n in at && path[k] == Place(at[top.n], top.next)
    ensures at[top.n] in Owed(at, Rest(at.Keys, spots))
  {
    hide Trace, Rest, Owed, Way;
    assert spots == up + [top];
    WayTop(at.Keys, up, top);
    TopIsOwed(at, spots, up, top);
  }

  lemma TopIsOwed(at: Places, spots: seq<Spot>, up: seq<Spot>, top: Spot)
    requires Way(at.Keys, spots) && spots == up + [top] && top.n in at
    ensures at[top.n] in Owed(at, Rest(at.Keys, spots))
  {
    hide Trace, Rest;
    WayTop(at.Keys, up, top);
    RestIs(at.Keys, up, top);
    OwnLast(at.Keys, top.n, top.next);
    assert Free(top.n) in Trace(at.Keys, top.n, top.next);
  }

  /** The tree from which one table went. */
  lemma HoldsAfterFree(words0: Words, root: nat, at: Places, words: Words, owned: set<nat>,
                       done: seq<Event>, looks: seq<Event>, n: Node, left: seq<Event>, words': Words, owned': set<nat>)
    requires n in at && (forall e | e in looks :: !e.Free?) && Once(done + (looks + [Free(n)] + left))
    requires Holds(words0, root, at, words, owned, looks + [Free(n)] + left)
    requires owned' == owned - {at[n]} && forall s: Slot | s.table != at[n] :: Read(words', s) == Read(words, s)
    ensures Holds(words0, root, at, words', owned', left) && at[n] in owned
  {
    assert looks + [Free(n)] + left == looks + ([Free(n)] + left);
    OwedPast(at, looks, [Free(n)] + left);
    assert done + (looks + [Free(n)] + left) == (done + looks) + [Free(n)] + left;
    OwedLess(at, done + looks, n, left);
  }

  lemma HoldsAfterEnter(words0: Words, root: nat, at: Places, words: Words, owned: set<nat>,
                        looks: seq<Event>, n: Node, left: seq<Event>)
    requires forall e | e in looks :: !e.Free?
    requires Holds(words0, root, at, words, owned, looks + [Enter(n)] + left)
    ensures Holds(words0, root, at, words, owned, left)
  {
    OwedPast(at, looks + [Enter(n)], left);
  }

  lemma {:induction false} LooksFreeNothing(at: Places, t: seq<Event>, u: seq<Event>)
    requires forall e | e in u :: !e.Free?
    ensures FreedFrames(at, t + u) == FreedFrames(at, t)
    decreases |u|
  {
    if u == [] {
      assert t + u == t;
    } else {
      var v := u[..|u| - 1];
      LooksFreeNothing(at, t, v);
      FreedOne(at, t + v, u[|u| - 1]);
      assert t + u == t + v + [u[|u| - 1]];
    }
  }

  class Release {
    const root: nat
    /** The cursor: the way from the root, how many tables went, whether the root did. */
    var path: seq<Place>
    var freed: nat
    var done: bool
    var words: Words
    /** The frames of the tree that are not given back; only these may be read. */
    ghost var owned: set<nat>
    /** The frames given back, in order. */
    ghost var given: seq<nat>
    ghost const words0: Words
    ghost const at: Places
    ghost var spots: seq<Spot>
    ghost var events: seq<Event>

    ghost function Whole(): seq<Event> {
      Trace(at.Keys, ROOT, 0)
    }

    /** What the walk still has to do. */
    ghost function Left(): seq<Event>
      requires Way(at.Keys, spots)
      reads this
    {
      if done then [] else if spots == [] then Whole() else Rest(at.Keys, spots)
    }

    ghost predicate Valid()
      reads this
    {
      && OnWay(at, path, spots) && (done ==> spots == [])
      && Holds(words0, root, at, words, owned, Left())
      && events + Left() == Whole()
      && given == FreedFrames(at, events) && freed == |given|
    }

    /** A tree whose release has not begun. */
    constructor (words: Words, root: nat, ghost at: Places)
      requires Tree(words, root, at)
      ensures Valid() && !done && events == [] && given == [] && this.at == at && this.root == root
    {
      hide Tree, Trace, Owed;
      this.root := root;
      this.words, this.words0 := words, words;
      this.at := at;
      path, spots, events, given := [], [], [], [];
      freed, done := 0, false;
      owned := at.Values;
      new;
      AllOwed(words, root, at);
    }

    /** Reads a word of a table that still belongs to the tree. */
    method ReadWord(s: Slot, ghost n: Node) returns (d: Desc)
      requires s.table in owned && n in at && at[n] == s.table
      modifies `events
      ensures d == Read(words, s) && events == old(events) + [Look(n, s.index)]
    {
      events := events + [Look(n, s.index)];
      d := Read(words, s);
    }

    /** Gives a table back: what it holds from then on is not the tree's. */
    method FreeTable(table: nat, ghost n: Node)
      requires n in at && at[n] == table && table in owned
      modifies `words, `owned, `given, `events, `freed
      ensures events == old(events) + [Free(n)] && given == old(given) + [table] && freed == old(freed) + 1
      ensures owned == old(owned) - {table} && forall s: Slot | s.table != table ::
                Read(words, s) == Read(old(words), s)
    {
      words := map s | s in words && s.table != table :: words[s];
      owned := owned - {table};
      given := given + [table];
      events := events + [Free(n)];
      freed := freed + 1;
    }

    /** Reads entries of one table until one names a table: that entry, or past the last. */
    method Scan(table: nat, from: nat, ghost n: Node) returns (j: nat, below: nat)
      requires Tree(words0, root, at) && n in at && n.level <= 2 && at[n] == table && from <= ENTRIES && table in owned
      requires forall s: Slot | s.table == table :: Read(words, s) == Read(words0, s)
      modifies `events
      ensures from <= j <= ENTRIES && NoneFrom(at.Keys, n, from, j)
      ensures j < ENTRIES ==> Child(n, j) in at && below == at[Child(n, j)]
      ensures events == old(events) + Reads(n, from, if j < ENTRIES then j + 1 else ENTRIES)
    {
      hide Tree, IsTableOrPage;
      j, below := from, 0;
      while j < ENTRIES
        invariant from <= j <= ENTRIES && NoneFrom(at.Keys, n, from, j)
        invariant events == old(events) + Reads(n, from, j)
      {
        EntryTells(words0, root, at, n, j);
        var d := ReadWord(Slot(table, j), n);
        assert Reads(n, from, j + 1) == Reads(n, from, j) + [Look(n, j)];
        if IsTableOrPage(d) {
          below := d.frame;
          return;
        }
        j := j + 1;
      }
    }

    /** In the middle of a step: entries of the top table were read since `before`. */
    ghost predicate Reading(before: seq<Event>, up: seq<Spot>, n: Node, from: nat, looks: seq<Event>)
      reads this
    {
      && spots == up + [Spot(n, from)] && OnWay(at, path, spots) && !done
      && Holds(words0, root, at, words, owned, Rest(at.Keys, spots))
      && before + Rest(at.Keys, spots) == Whole() && events == before + looks
      && given == FreedFrames(at, before) && freed == |given|
    }

    /** The table below was found at entry `j`, at level 3. */
    method FreeChild(j: nat, below: nat, ghost before: seq<Event>, ghost up: seq<Spot>, ghost n: Node, ghost from: nat)
      requires from <= j < ENTRIES && Reading(before, up, n, from, Reads(n, from, j + 1))
      requires NoneFrom(at.Keys, n, from, j) && n.level == 2 && Child(n, j) in at && below == at[Child(n, j)]
      modifies this
      ensures Valid() && !done && events == before + (Reads(n, from, j + 1) + [Free(Child(n, j))])
    {
      hide Tree, Trace, Rest, Owed, FreedFrames, Once, NoneFrom;
      ghost var looks, c := Reads(n, from, j + 1), Child(n, j);
      ghost var next := up + [Spot(n, j + 1)];
      FreeBelow(at.Keys, up, n, from, j);
      OnceWhole(words0, root, at);
      ghost var words1, owned1 := words, owned;
      BelowOwned(words0, root, at, words, owned, before, looks, c, Rest(at.Keys, next));
      path := path[|path| - 1 := Place(path[|path| - 1].table, j + 1)];
      FreeTable(below, c);
      spots := next;
      HoldsAfterFree(words0, root, at, words1, owned1, before, looks, c, Rest(at.Keys, next), words, owned);
      GivenAfter(at, before, looks, c);
      EventsAfter(before, looks, Free(c), Rest(at.Keys, next));
    }

    /** The table below was found at entry `j`, at level 1 or 2: the walk enters it. */
    method GoBelow(j: nat, below: nat, ghost before: seq<Event>, ghost up: seq<Spot>, ghost n: Node, ghost from: nat)
      requires from <= j < ENTRIES && Reading(before, up, n, from, Reads(n, from, j + 1))
      requires NoneFrom(at.Keys, n, from, j) && n.level < 2 && Child(n, j) in at && below == at[Child(n, j)]
      modifies `path, `spots, `events
      ensures Valid() && !done && events == before + (Reads(n, from, j + 1) + [Enter(Child(n, j))])
    {
      hide Tree, Trace, Rest, Owed, FreedFrames, Once, NoneFrom;
      ghost var looks, c := Reads(n, from, j + 1), Child(n, j);
      ghost var down := up + [Spot(n, j + 1)] + [Spot(c, 0)];
      GoDown(at.Keys, up, n, from, j, down);
      path := path[|path| - 1 := Place(path[|path| - 1].table, j + 1)] + [Place(below, 0)];
      spots := down;
      events := events + [Enter(c)];
      HoldsAfterEnter(words0, root, at, words, owned, looks, c, Rest(at.Keys, down));
      LooksFreeNothing(at, before, looks + [Enter(c)]);
      EventsAfter(before, looks, Enter(c), Rest(at.Keys, down));
    }

    /** No table is left below: the table itself goes, and the walk goes up. */
    method FreeOwn(table: nat, ghost before: seq<Event>, ghost up: seq<Spot>, ghost n: Node, ghost from: nat)
      requires from <= ENTRIES && Reading(before, up, n, from, Reads(n, from, ENTRIES))
      requires NoneFrom(at.Keys, n, from, ENTRIES) && n in at && table == at[n]
      modifies this
      ensures Valid() && (done <==> up == []) && events == before + (Reads(n, from, ENTRIES) + [Free(n)])
    {
      hide Tree, Trace, Rest, Owed, FreedFrames, Once, NoneFrom;
      ghost var looks := Reads(n, from, ENTRIES);
      EmptyStep(at.Keys, up, n, from);
      OnceWhole(words0, root, at);
      ghost var words1, owned1 := words, owned;
      BelowOwned(words0, root, at, words, owned, before, looks, n, Rest(at.Keys, up));
      FreeTable(table, n);
      path := path[..|path| - 1];
      spots := up;
      done := path == [];
      HoldsAfterFree(words0, root, at, words1, owned1, before, looks, n, Rest(at.Keys, up), words, owned);
      GivenAfter(at, before, looks, n);
      EventsAfter(before, looks, Free(n), Rest(at.Keys, up));
      NothingLeft(at.Keys);
    }

    /** One step; true once the root is gone, and nothing happens after that. */
    method Step() returns (b: bool, ghost chunk: seq<Event>)
      requires Valid()
      modifies this
      ensures Valid() && b == done && events == old(events) + chunk
      ensures old(done) ==> chunk == [] && done && given == old(given) && freed == old(freed) && words == old(words)
      ensures !old(done) ==> OneStep(chunk)
    {
      hide Tree, Trace, Rest, Owed, FreedFrames, NoneFrom, OneStep;
      chunk := [];
      if done {
        assert events + [] == events;
        return true, [];
      }
      ghost var before := events;
      if path == [] {
        BeginWalk(words0, root, at);
        path, spots := [Place(root, 0)], [Spot(ROOT, 0)];
      }
      var level := |path| - 1;
      var table, from := path[level].table, path[level].next;
      ghost var up, n := spots[..level], spots[level].n;
      TopOwned(at, path, spots, level, up, spots[level]);
      StillReads(words0, root, at, words, owned, Rest(at.Keys, spots), table);
      var j, below := Scan(table, from, n);
      if j < ENTRIES {
        if level == 2 {
          FreeChild(j, below, before, up, n, from);
          chunk := Reads(n, from, j + 1) + [Free(Child(n, j))];
          IsOneStep(n, from, j + 1, Free(Child(n, j)));
        } else {
          GoBelow(j, below, before, up, n, from);
          chunk := Reads(n, from, j + 1) + [Enter(Child(n, j))];
          IsOneStep(n, from, j + 1, Enter(Child(n, j)));
        }
        b := false;
      } else {
        FreeOwn(table, before, up, n, from);
        chunk := Reads(n, from, ENTRIES) + [Free(n)];
        IsOneStep(n, from, ENTRIES, Free(n));
        b := done;
      }
    }

    /** Frees every table; how many there were. */
    method Run() returns (count: nat, steps: nat)
      requires Valid() && !done && events == []
      modifies this
      ensures count == |at| && steps == (|at| - 1) + |Upper(at.Keys)|
      ensures |given| == count && (forall i: nat, j: nat | i < j < |given| :: given[i] != given[j])
      ensures (forall f :: f in given <==> f in at.Values) && given[count - 1] == root
    {
      hide Tree, Trace, Rest, FreedFrames, Holds, Way, OneStep;
      steps := 0;
      NoSteps();
      var over := false;
      while !over
        invariant Valid() && over == done && Steps(events) == steps
        decreases Steps(Whole()) - steps
      {
        ghost var before := events;
        ghost var chunk;
        over, chunk := Step();
        OneStepCounts(chunk);
        StepsJoin(before, chunk);
        StepsJoin(events, Left());
        steps := steps + 1;
      }
      assert events == Whole() by {
        assert events + [] == events;
      }
      count := freed;
      Outcome(words0, root, at, words, owned, Left());
    }
  }

  /** A step reads entries of one table, one after the other, then frees or enters one. */
  ghost predicate OneStep(chunk: seq<Event>) {
    exists n: Node, i: nat, j: nat, e: Event :: i <= j <= ENTRIES && !e.Look? && chunk == Reads(n, i, j) + [e]
  }

  lemma IsOneStep(n: Node, i: nat, j: nat, e: Event)
    requires i <= j <= ENTRIES && !e.Look?
    ensures OneStep(Reads(n, i, j) + [e])
  {
  }

  lemma OneStepCounts(chunk: seq<Event>)
    requires OneStep(chunk)
    ensures Steps(chunk) == 1
  {
    var n: Node, i: nat, j: nat, e: Event :| i <= j <= ENTRIES && !e.Look? && chunk == Reads(n, i, j) + [e];
    StepsOfReads(Reads(n, i, j));
    StepsJoin(Reads(n, i, j), [e]);
  }

  lemma NoSteps()
    ensures Steps([]) == 0
  {
  }

  lemma BeginWalk(words: Words, root: nat, at: Places)
    requires Tree(words, root, at)
    ensures OnWay(at, [Place(root, 0)], [Spot(ROOT, 0)])
    ensures Rest(at.Keys, [Spot(ROOT, 0)]) == Trace(at.Keys, ROOT, 0)
    ensures ROOT in at && at[ROOT] == root
  {
    hide Trace, Rest;
    WalkFrom(at.Keys, [Spot(ROOT, 0)]);
  }

  lemma WalkFrom(nodes: set<Node>, spots: seq<Spot>)
    requires spots == [Spot(ROOT, 0)] && ROOT in nodes
    ensures Way(nodes, spots) && Rest(nodes, spots) == Trace(nodes, ROOT, 0)
  {
    hide Trace;
    assert spots[..0] == [];
    assert Rest(nodes, spots[..0]) == [];
  }

  lemma StillReads(words0: Words, root: nat, at: Places, words: Words, owned: set<nat>, left: seq<Event>, table: nat)
    requires Holds(words0, root, at, words, owned, left) && table in Owed(at, left)
    ensures Tree(words0, root, at) && table in owned && forall s: Slot | s.table == table ::
              Read(words, s) == Read(words0, s)
  {
  }

  /** The frames of a walk without repeats are freed without repeats. */
  lemma {:induction false} FreedOnce(at: Places, t: seq<Event>)
    requires Injective(at) && Once(t) && forall e | e in t :: e.n in at
    ensures forall i: nat, j: nat | i < j < |FreedFrames(at, t)| :: FreedFrames(at, t)[i] != FreedFrames(at, t)[j]
    ensures forall n :: n in at ==> (at[n] in FreedFrames(at, t) <==> Free(n) in t)
    ensures forall f | f in FreedFrames(at, t) :: f in at.Values
  {
    if t != [] {
      var u, e := t[..|t| - 1], t[|t| - 1];
      assert t == u + [e];
      FreedOnce(at, u);
      FreedOne(at, u, e);
      assert e !in u;
    }
  }

  lemma Outcome(words0: Words, root: nat, at: Places, words: Words, owned: set<nat>, left: seq<Event>)
    requires Holds(words0, root, at, words, owned, left)
    ensures var t := Trace(at.Keys, ROOT, 0); var given := FreedFrames(at, t);
            && Steps(t) == (|at| - 1) + |Upper(at.Keys)| && |given| == |at| && |given| > 0 && given[|given| - 1] == root
            && (forall i: nat, j: nat | i < j < |given| :: given[i] != given[j])
            && (forall f :: f in given <==> f in at.Values)
  {
    hide Trace, FreedFrames, Owed, Upper, Steps, Due, Once;
    var t := Trace(at.Keys, ROOT, 0);
    TreePlaces(words0, root, at);
    WholeWalk(at.Keys);
    WholeSteps(at.Keys);
    GivenOf(at, t);
    OwnLast(at.Keys, ROOT, 0);
    LastGiven(at, t);
    SizeOfGiven(at, FreedFrames(at, t));
  }

  lemma GivenOf(at: Places, t: seq<Event>)
    requires Injective(at) && Once(t) && forall e :: e in t <==> Due(at.Keys, e)
    ensures var given := FreedFrames(at, t);
            && (forall i: nat, j: nat | i < j < |given| :: given[i] != given[j])
            && (forall f :: f in given <==> f in at.Values)
  {
    FreedOnce(at, t);
    hide FreedFrames;
    forall f | f in at.Values ensures f in FreedFrames(at, t) {
      var n :| n in at && at[n] == f;
      assert Due(at.Keys, Free(n));
    }
  }

  lemma LastGiven(at: Places, t: seq<Event>)
    requires t != [] && t[|t| - 1].Free? && t[|t| - 1].n in at
    ensures var given := FreedFrames(at, t); given != [] && given[|given| - 1] == at[t[|t| - 1].n]
  {
    assert t == t[..|t| - 1] + [t[|t| - 1]];
    FreedOne(at, t[..|t| - 1], t[|t| - 1]);
  }

  lemma SizeOfGiven(at: Places, given: seq<nat>)
    requires Injective(at) && (forall i: nat, j: nat | i < j < |given| :: given[i] != given[j])
    requires forall f :: f in given <==> f in at.Values
    ensures |given| == |at|
  {
    var s := set f | f in given;
    SeqSize(given, s);
    assert s == at.Values;
    ValuesSize(at);
  }

  lemma {:induction false} SeqSize(q: seq<nat>, s: set<nat>)
    requires (forall i: nat, j: nat | i < j < |q| :: q[i] != q[j]) && forall f :: f in s <==> f in q
    ensures |s| == |q|
  {
    if q != [] {
      var u := q[..|q| - 1];
      assert q == u + [q[|q| - 1]];
      SeqSize(u, s - {q[|q| - 1]});
    }
  }

  lemma {:induction false} ValuesSize(at: Places)
    requires Injective(at)
    ensures |at.Values| == |at|
    decreases |at|
  {
    if at.Keys != {} {
      var n :| n in at;
      var rest := at - {n};
      OneLess(at, n, rest);
      ValuesSize(rest);
    } else {
      assert at == map[];
    }
  }

  lemma OneLess(at: Places, n: Node, rest: Places)
    requires Injective(at) && n in at && rest == at - {n}
    ensures Injective(rest) && |at| == |rest| + 1 && |at.Values| == |rest.Values| + 1
  {
    assert at.Keys == rest.Keys + {n};
    assert at.Values == rest.Values + {at[n]};
    assert at[n] !in rest.Values;
  }

  lemma NothingLeft(nodes: set<Node>)
    ensures Way(nodes, []) && Rest(nodes, []) == []
  {
  }

  lemma OnceWhole(words: Words, root: nat, at: Places)
    requires Tree(words, root, at)
    ensures Once(Trace(at.Keys, ROOT, 0))
  {
    TreePlaces(words, root, at);
    WholeWalk(at.Keys);
  }

  lemma BelowOwned(words0: Words, root: nat, at: Places, words: Words, owned: set<nat>,
                   done: seq<Event>, looks: seq<Event>, n: Node, left: seq<Event>)
    requires n in at && Holds(words0, root, at, words, owned, looks + [Free(n)] + left)
    ensures at[n] in owned
  {
    assert (looks + [Free(n)] + left)[|looks|] == Free(n);
  }

  lemma GivenAfter(at: Places, before: seq<Event>, looks: seq<Event>, n: Node)
    requires n in at && forall e | e in looks :: !e.Free?
    ensures FreedFrames(at, before + looks + [Free(n)]) == FreedFrames(at, before) + [at[n]]
  {
    LooksFreeNothing(at, before, looks);
    FreedOne(at, before + looks, Free(n));
  }

  lemma EventsAfter(before: seq<Event>, looks: seq<Event>, e: Event, left: seq<Event>)
    ensures before + looks + [e] + left == before + (looks + [e] + left)
    ensures before + looks + [e] == before + (looks + [e])
  {
  }

  lemma AllOwed(words: Words, root: nat, at: Places)
    requires Tree(words, root, at)
    ensures Owed(at, Trace(at.Keys, ROOT, 0)) == at.Values
  {
    TreePlaces(words, root, at);
    WholeWalk(at.Keys);
    var t := Trace(at.Keys, ROOT, 0);
    forall f | f in at.Values ensures f in Owed(at, t) {
      var n :| n in at && at[n] == f;
      assert Due(at.Keys, Free(n));
    }
  }
}
