/**
 The ring of the kernel log: records are written over when the ring is full, readers take
 them in batches, and the console shows some. Beside the ring stands the history of what
 was pushed and what became of each record.
 */
module LogRing {
  import opened Arithmetic
  const LOG_TEXT: nat := 64
  const LOG_BATCH: nat := 12

  /** A record; `shown` may be set later. */
  datatype Record = Record(time: nat, kind: nat, text: seq<nat>, shown: bool)

  const EMPTY := Record(0, 0, [], false)

  predicate IsText(r: Record) {
    r.kind == 1 || r.kind == 2
  }

  /** What became of a record: pushed as shown, still waiting, taken by a reader, written
      over as unshown text, written over otherwise, or put on the console afterwards. */
  datatype Fate = Quiet | Waiting | Taken | Lost | Dropped | Shown

  function Count(fates: seq<Fate>, f: Fate): (n: nat)
  {
    if fates == [] then 0 else Count(fates[..|fates| - 1], f) + (if fates[|fates| - 1] == f then 1 else 0)
  }

  lemma CountAdd(fates: seq<Fate>, g: Fate, f: Fate)
    ensures Count(fates + [g], f) == Count(fates, f) + (if g == f then 1 else 0)
  {
    var l := fates + [g];
    assert l[..|l| - 1] == fates;
  }

  lemma {:induction false} CountSet(fates: seq<Fate>, n: nat, g: Fate, f: Fate)
    requires n < |fates|
    ensures Count(fates[n := g], f) == Count(fates, f) - (if fates[n] == f then 1 else 0) + (if g == f then 1 else 0)
    decreases |fates|
  {
    var l := fates[n := g];
    var m := |fates| - 1;
    if n == m {
      assert l[..m] == fates[..m];
    } else {
      CountSet(fates[..m], n, g, f);
      assert l[..m] == fates[..m][n := g];
    }
  }

  /** The first record a read looks at: past the cursor and not written over. */
  function First(head: nat, taken: nat, n: nat): nat {
    var oldest := if head > n then head - n else 0;
    if taken > oldest then taken else oldest
  }

  /** The record as the ring holds it now. */
  function Now(r: Record, f: Fate): Record {
    if f == Shown then r.(shown := true) else r
  }

  /** A record's fate fits what it is and where the cursor and the ring stand. */
  ghost predicate FateOk(r: Record, f: Fate, n: nat, first: nat, taken: nat) {
    && (f == Quiet <==> r.shown)
    && (f == Waiting <==> n >= first && !Now(r, f).shown)
    && (f == Taken ==> n < taken)
    && (f == Lost ==> IsText(r)) && (f == Dropped ==> !IsText(r)) && (f == Shown ==> IsText(r))
  }

  ghost predicate Increasing(given: seq<nat>) {
    forall i: nat, j: nat | i < j < |given| :: given[i] < given[j]
  }

  /** The ring, seen as a value. */
  datatype Log = Log(places: seq<Record>, head: nat, taken: nat, lost: nat)
  {
    ghost predicate Holds(pushed: seq<Record>, fates: seq<Fate>)
      requires |pushed| == |fates|
    {
      && |places| > 0 && |pushed| == head && taken <= head
      && (forall n: nat | n < head && n + |places| >= head :: places[n % |places|] == Now(pushed[n], fates[n]))
      && (forall n: nat | n < head :: FateOk(pushed[n], fates[n], n, First(head, taken, |places|), taken))
      && (forall n: nat | n < head && (fates[n] == Lost || fates[n] == Dropped) :: n + |places| < head)
    }
  }

  /** What readers were given: numbers in order, exactly those whose fate is Taken; and the
      lost ones are counted, in the ring or in what reads reported. */
  ghost predicate Accounted(fates: seq<Fate>, given: seq<nat>, lost: nat, reported: nat) {
    && Increasing(given)
    && (forall n: nat :: n in given <==> n < |fates| && fates[n] == Taken)
    && Count(fates, Lost) == lost + reported
  }

  // ----- push -----

  lemma SameMod(a: nat, b: nat, n: nat)
    requires n > 0 && a <= b < a + n && a % n == b % n
    ensures a == b
  {
    var d := b / n - a / n;
    assert b - a == n * d;
    SmallMultiple(n, d);
  }

  /** Records less than a ring apart lie in different places. */
  lemma ModApart(a: nat, b: nat, n: nat)
    requires n > 0 && a < b < a + n
    ensures a % n != b % n
  {
    if a % n == b % n {
      SameMod(a, b, n);
    }
  }

  /** The fate of the record that a push writes over. */
  function Overwritten(f: Fate, r: Record): Fate {
    if f == Waiting then (if IsText(r) then Lost else Dropped) else f
  }

  lemma PushFates(l: Log, pushed: seq<Record>, fates: seq<Fate>, r: Record, o: nat, fates': seq<Fate>)
    requires |pushed| == |fates| && l.Holds(pushed, fates)
    requires l.head >= |l.places| ==>
               o == l.head - |l.places|
                 && fates' == fates[o := Overwritten(fates[o], pushed[o])] + [if r.shown then Quiet else Waiting]
    requires l.head < |l.places| ==> fates' == fates + [if r.shown then Quiet else Waiting]
    ensures forall n: nat | n < |fates'| ::
              FateOk((pushed + [r])[n], fates'[n], n, First(l.head + 1, l.taken, |l.places|), l.taken)
  {
    forall n: nat | n < |fates'|
      ensures FateOk((pushed + [r])[n], fates'[n], n, First(l.head + 1, l.taken, |l.places|), l.taken)
    {
      if n < l.head {
        assert FateOk(pushed[n], fates[n], n, First(l.head, l.taken, |l.places|), l.taken);
      }
    }
  }

  lemma PushPlaces(l: Log, l': Log, pushed: seq<Record>, fates: seq<Fate>, r: Record, fates': seq<Fate>)
    requires |pushed| == |fates| && l.Holds(pushed, fates) && |fates'| == l.head + 1
    requires l'.places == l.places[l.head % |l.places| := r] && l'.head == l.head + 1
    requires fates'[l.head] != Shown && forall n: nat | n < l.head && n + |l.places| > l.head :: fates'[n] == fates[n]
    ensures forall n: nat | n < l'.head && n + |l'.places| >= l'.head ::
              l'.places[n % |l'.places|] == Now((pushed + [r])[n], fates'[n])
  {
    forall n: nat | n < l'.head && n + |l'.places| >= l'.head
      ensures l'.places[n % |l'.places|] == Now((pushed + [r])[n], fates'[n])
    {
      if n < l.head {
        ModApart(n, l.head, |l.places|);
      }
    }
  }

  lemma SetAccounted(fates: seq<Fate>, given: seq<nat>, lost: nat, reported: nat, n: nat, f: Fate)
    requires Accounted(fates, given, lost, reported) && n < |fates| && f != Taken && fates[n] != Taken
    requires fates[n] != Lost
    ensures Accounted(fates[n := f], given, lost + (if f == Lost then 1 else 0), reported)
  {
    CountSet(fates, n, f, Lost);
  }

  lemma AddAccounted(fates: seq<Fate>, given: seq<nat>, lost: nat, reported: nat, f: Fate)
    requires Accounted(fates, given, lost, reported) && (f == Quiet || f == Waiting)
    ensures Accounted(fates + [f], given, lost, reported)
  {
    CountAdd(fates, f, Lost);
  }

  /** The fates after a push of `r`. */
  function PushedFates(l: Log, pushed: seq<Record>, fates: seq<Fate>, r: Record): seq<Fate>
    requires |pushed| == |fates| == l.head
  {
    var o := l.head - |l.places|;
    (if o >= 0 && o < l.head then fates[o := Overwritten(fates[o], pushed[o])] else fates)
      + [if r.shown then Quiet else Waiting]
  }

  /** What push tests before it counts a record lost. */
  predicate LosesOne(l: Log)
    requires |l.places| > 0
  {
    && l.head >= |l.places| && l.head - |l.places| >= l.taken
    && !l.places[l.head % |l.places|].shown && IsText(l.places[l.head % |l.places|])
  }

  /** The place a push writes holds the record a ring's length back. */
  lemma OldestPlace(l: Log, pushed: seq<Record>, fates: seq<Fate>, o: nat)
    requires |pushed| == |fates| && l.Holds(pushed, fates) && o + |l.places| == l.head
    ensures l.places[l.head % |l.places|] == Now(pushed[o], fates[o])
    ensures LosesOne(l) <==> fates[o] == Waiting && IsText(pushed[o])
  {
    ModUnique(l.head, o / |l.places| + 1, o % |l.places|, |l.places|);
    assert FateOk(pushed[o], fates[o], o, First(l.head, l.taken, |l.places|), l.taken);
  }

  lemma PushHolds(l: Log, l': Log, pushed: seq<Record>, fates: seq<Fate>, r: Record)
    requires |pushed| == |fates| && l.Holds(pushed, fates)
    requires l'.places == l.places[l.head % |l.places| := r] && l'.head == l.head + 1 && l'.taken == l.taken
    ensures |PushedFates(l, pushed, fates, r)| == l.head + 1 && l'.Holds(pushed + [r], PushedFates(l, pushed, fates, r))
  {
    var fates' := PushedFates(l, pushed, fates, r);
    PushFates(l, pushed, fates, r, if l.head >= |l.places| then l.head - |l.places| else 0, fates');
    PushPlaces(l, l', pushed, fates, r, fates');
  }

  lemma PushAccounted(l: Log, pushed: seq<Record>, fates: seq<Fate>, r: Record, given: seq<nat>, reported: nat)
    requires |pushed| == |fates| && l.Holds(pushed, fates) && Accounted(fates, given, l.lost, reported)
    ensures Accounted(PushedFates(l, pushed, fates, r), given, l.lost + (if LosesOne(l) then 1 else 0), reported)
  {
    hide Accounted;
    var f := if r.shown then Quiet else Waiting;
    if l.head >= |l.places| {
      var o := l.head - |l.places|;
      OldestPlace(l, pushed, fates, o);
      var g := Overwritten(fates[o], pushed[o]);
      if g == fates[o] {
        assert fates[o := g] == fates;
        AddAccounted(fates, given, l.lost, reported, f);
      } else {
        SetAccounted(fates, given, l.lost, reported, o, g);
        AddAccounted(fates[o := g], given, l.lost + (if g == Lost then 1 else 0), reported, f);
      }
    } else {
      AddAccounted(fates, given, l.lost, reported, f);
    }
  }

  // ----- take -----

  /** The cursor may stand at the oldest record left. */
  lemma CursorToFirst(l: Log, pushed: seq<Record>, fates: seq<Fate>)
    requires |pushed| == |fates| && l.Holds(pushed, fates)
    ensures l.(taken := First(l.head, l.taken, |l.places|)).Holds(pushed, fates)
  {
    var f := First(l.head, l.taken, |l.places|);
    forall n: nat | n < l.head ensures FateOk(pushed[n], fates[n], n, First(l.head, f, |l.places|), f) {
      assert FateOk(pushed[n], fates[n], n, First(l.head, l.taken, |l.places|), l.taken);
    }
  }

  function Passed(f: Fate): Fate {
    if f == Waiting then Taken else f
  }

  /** The cursor passes a record: a waiting one is given to the reader. */
  lemma TakeStep(l: Log, pushed: seq<Record>, fates: seq<Fate>)
    requires |pushed| == |fates| && l.Holds(pushed, fates) && l.taken < l.head
    requires First(l.head, l.taken, |l.places|) == l.taken
    ensures var fates' := fates[l.taken := Passed(fates[l.taken])];
            && l.(taken := l.taken + 1).Holds(pushed, fates')
            && First(l.head, l.taken + 1, |l.places|) == l.taken + 1
            && (fates[l.taken] == Waiting <==> !l.places[l.taken % |l.places|].shown)
            && (fates[l.taken] == Waiting ==> l.places[l.taken % |l.places|] == pushed[l.taken])
  {
    var c := l.taken;
    var fates' := fates[c := Passed(fates[c])];
    assert l.places[c % |l.places|] == Now(pushed[c], fates[c]);
    forall n: nat | n < l.head ensures FateOk(pushed[n], fates'[n], n, First(l.head, c + 1, |l.places|), c + 1) {
      assert FateOk(pushed[n], fates[n], n, First(l.head, c, |l.places|), c);
    }
    forall n: nat | n < l.head && n + |l.places| >= l.head
      ensures l.places[n % |l.places|] == Now(pushed[n], fates'[n])
    {
      assert l.places[n % |l.places|] == Now(pushed[n], fates[n]);
    }
  }

  lemma TakeAccounted(fates: seq<Fate>, given: seq<nat>, lost: nat, reported: nat, n: nat)
    requires Accounted(fates, given, lost, reported) && n < |fates| && fates[n] == Waiting
    requires forall k | k in given :: k < n
    ensures Accounted(fates[n := Taken], given + [n], lost, reported)
  {
    CountSet(fates, n, Taken, Lost);
    var g := given + [n];
    forall i: nat, j: nat | i < j < |g| ensures g[i] < g[j] {
      assert given[i] in given;
    }
  }

  // ----- show -----

  function Displayed(f: Fate, r: Record): Fate {
    if f == Waiting && IsText(r) then Shown else f
  }

  /** A waiting text record is shown: it is marked in the ring and waits no more. */
  lemma ShowStep(l: Log, l': Log, pushed: seq<Record>, fates: seq<Fate>, n: nat)
    requires |pushed| == |fates| && l.Holds(pushed, fates) && First(l.head, l.taken, |l.places|) <= n < l.head
    requires l' == l.(places := l.places[n % |l.places| := Now(pushed[n], Displayed(fates[n], pushed[n]))])
    ensures l'.Holds(pushed, fates[n := Displayed(fates[n], pushed[n])])
    ensures fates[n] == Waiting <==> !l.places[n % |l.places|].shown
    ensures fates[n] == Waiting ==> l.places[n % |l.places|] == pushed[n]
  {
    var fates' := fates[n := Displayed(fates[n], pushed[n])];
    assert l.places[n % |l.places|] == Now(pushed[n], fates[n]);
    assert FateOk(pushed[n], fates[n], n, First(l.head, l.taken, |l.places|), l.taken);
    forall k: nat | k < l.head ensures FateOk(pushed[k], fates'[k], k, First(l.head, l.taken, |l.places|), l.taken) {
      assert FateOk(pushed[k], fates[k], k, First(l.head, l.taken, |l.places|), l.taken);
    }
    forall k: nat | k < l.head && k + |l.places| >= l.head
      ensures l'.places[k % |l.places|] == Now(pushed[k], fates'[k])
    {
      if k < n {
        ModApart(k, n, |l.places|);
      } else if k > n {
        ModApart(n, k, |l.places|);
      }
    }
  }

  // ----- conservation -----

  /** Text records that were not shown when they were written, with some fate. */
  function TextWith(pushed: seq<Record>, fates: seq<Fate>, f: Fate): nat
    requires |pushed| == |fates|
  {
    if pushed == [] then 0 else
      var k := |pushed| - 1;
      TextWith(pushed[..k], fates[..k], f) + (if IsText(pushed[k]) && fates[k] == f then 1 else 0)
  }

  function TextUnshown(pushed: seq<Record>): nat {
    if pushed == [] then 0 else
      TextUnshown(pushed[..|pushed| - 1])
        + (if IsText(pushed[|pushed| - 1]) && !pushed[|pushed| - 1].shown then 1 else 0)
  }

  /** Every text record pushed unshown is exactly one of: given to a reader, counted lost,
      shown later, still waiting. */
  lemma {:induction false} Conservation(pushed: seq<Record>, fates: seq<Fate>, first: nat, taken: nat)
    requires |pushed| == |fates| && forall n: nat | n < |pushed| :: FateOk(pushed[n], fates[n], n, first, taken)
    ensures TextUnshown(pushed)
            == TextWith(pushed, fates, Taken) + Count(fates, Lost) + Count(fates, Shown)
              + TextWith(pushed, fates, Waiting)
    decreases |pushed|
  {
    if pushed != [] {
      var k := |pushed| - 1;
      assert FateOk(pushed[k], fates[k], k, first, taken);
      forall n: nat | n < k ensures FateOk(pushed[..k][n], fates[..k][n], n, first, taken) {
        assert FateOk(pushed[n], fates[n], n, first, taken);
      }
      Conservation(pushed[..k], fates[..k], first, taken);
    }
  }

  /** The text records among those that readers were given. */
  function TextGiven(pushed: seq<Record>, given: seq<nat>): nat
    requires forall k: nat | k < |given| :: given[k] < |pushed|
  {
    if given == [] then 0 else
      var last := |given| - 1;
      TextGiven(pushed, given[..last]) + (if IsText(pushed[given[last]]) then 1 else 0)
  }

  lemma {:induction false} TextGivenPrefix(pushed: seq<Record>, given: seq<nat>, m: nat)
    requires m <= |pushed| && forall k: nat | k < |given| :: given[k] < m
    ensures TextGiven(pushed[..m], given) == TextGiven(pushed, given)
  {
    if given != [] {
      TextGivenPrefix(pushed, given[..|given| - 1], m);
    }
  }

  /** The numbers of the records taken, in order, are what readers were given. */
  ghost predicate TakenInOrder(fates: seq<Fate>, given: seq<nat>) {
    && Increasing(given) && (forall k: nat | k < |given| :: given[k] < |fates| && fates[given[k]] == Taken)
    && (forall n: nat | n < |fates| && fates[n] == Taken :: n in given)
  }

  /** Without the last record. */
  lemma TakenBefore(fates: seq<Fate>, given: seq<nat>)
    requires fates != [] && TakenInOrder(fates, given)
    ensures var m := |fates| - 1;
            if fates[m] == Taken then
              given != [] && given[|given| - 1] == m && TakenInOrder(fates[..m], given[..|given| - 1])
            else
              TakenInOrder(fates[..m], given)
  {
    var m := |fates| - 1;
    if fates[m] == Taken {
      var k: nat :| k < |given| && given[k] == m;
      assert k == |given| - 1;
      forall n: nat | n < m && fates[n] == Taken ensures n in given[..k] {
        var j: nat :| j < |given| && given[j] == n;
        assert given[..k][j] == n;
      }
    }
  }

  lemma {:induction false} TextTaken(pushed: seq<Record>, fates: seq<Fate>, given: seq<nat>)
    requires |pushed| == |fates| && TakenInOrder(fates, given)
    ensures TextWith(pushed, fates, Taken) == TextGiven(pushed, given)
    decreases |pushed|
  {
    hide Increasing;
    if pushed == [] {
      assert given == [];
    } else {
      var m := |pushed| - 1;
      TakenBefore(fates, given);
      var before := if fates[m] == Taken then given[..|given| - 1] else given;
      TextTaken(pushed[..m], fates[..m], before);
      TextGivenPrefix(pushed, before, m);
    }
  }

  /** The unshown text records of the ring from one number up to another. */
  function TextLeft(l: Log, from: nat, end: nat): nat
    requires |l.places| > 0
    decreases end
  {
    if end <= from then 0 else
      var r := l.places[(end - 1) % |l.places|];
      TextLeft(l, from, end - 1) + (if IsText(r) && !r.shown then 1 else 0)
  }

  lemma {:induction false} TextWaits(l: Log, pushed: seq<Record>, fates: seq<Fate>, end: nat)
    requires |pushed| == |fates| && l.Holds(pushed, fates) && end <= l.head
    ensures TextWith(pushed[..end], fates[..end], Waiting) == TextLeft(l, First(l.head, l.taken, |l.places|), end)
    decreases end
  {
    if end > 0 {
      var n := end - 1;
      assert pushed[..end][..n] == pushed[..n] && fates[..end][..n] == fates[..n];
      TextWaits(l, pushed, fates, n);
      assert FateOk(pushed[n], fates[n], n, First(l.head, l.taken, |l.places|), l.taken);
    }
  }

  /** Every text record pushed unshown was given to a reader, or is counted lost in the ring
      or in what reads reported, or was put on the console later, or is in the ring. */
  lemma TextConserved(l: Log, pushed: seq<Record>, fates: seq<Fate>, given: seq<nat>, reported: nat)
    requires |pushed| == |fates| && l.Holds(pushed, fates) && Accounted(fates, given, l.lost, reported)
    ensures forall k: nat | k < |given| :: given[k] < |pushed|
    ensures TextUnshown(pushed) == TextGiven(pushed, given) + l.lost + reported + Count(fates, Shown)
                                   + TextLeft(l, First(l.head, l.taken, |l.places|), l.head)
  {
    hide FateOk, Increasing, TextGiven, TextWith, TextUnshown, TextLeft, Count;
    assert forall k: nat | k < |given| :: given[k] in given;
    TextTaken(pushed, fates, given);
    TextWaits(l, pushed, fates, l.head);
    assert pushed[..l.head] == pushed && fates[..l.head] == fates;
    Conservation(pushed, fates, First(l.head, l.taken, |l.places|), l.taken);
  }
}
