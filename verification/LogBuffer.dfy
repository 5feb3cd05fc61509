/** The log ring as it changes in place. */
module LogBuffer {
  import opened Common
  import opened LogRing

  datatype Batch = Batch(count: nat, lost: nat, left: nat)

  class Ring {
    const records: array<Record>
    var head: nat
    var taken: nat
    var lost: nat
    /** Odd while a record is written. */
    var sequence: nat
    ghost var pushed: seq<Record>
    ghost var fates: seq<Fate>
    ghost var given: seq<nat>
    ghost var reported: nat

    ghost function Value(): Log
      reads this, records
    {
      Log(records[..], head, taken, lost)
    }

    ghost predicate Valid()
      reads this, records
    {
      && |pushed| == |fates| && Value().Holds(pushed, fates) && Accounted(fates, given, lost, reported)
      && sequence == 2 * head
    }

    constructor (n: nat)
      requires n > 0
      ensures Valid() && fresh(records) && records.Length == n && pushed == [] && given == [] && reported == 0
    {
      hide Log.Holds, Accounted;
      records := new Record[n](_ => EMPTY);
      head, taken, lost, sequence := 0, 0, 0, 0;
      pushed, fates, given, reported := [], [], [], 0;
      new;
      NothingYet(Value());
    }

    function FirstLeft(): nat
      reads this
    {
      First(head, taken, records.Length)
    }

    /** No text record that was pushed unshown goes missing between the counters, the
        readers, the console and the ring. */
    lemma Conserved()
      requires Valid()
      ensures records.Length > 0 && forall k: nat | k < |given| :: given[k] < |pushed|
      ensures TextUnshown(pushed) == TextGiven(pushed, given) + lost + reported + Count(fates, Shown)
                                     + TextLeft(Value(), FirstLeft(), head)
    {
      hide Accounted, TextGiven, TextUnshown, TextLeft, Count;
      TextConserved(Value(), pushed, fates, given, reported);
    }

    /** Writes a record; the oldest goes when the ring is full. */
    method Push(time: nat, kind: nat, text: seq<nat>, shown: bool)
      requires Valid()
      modifies this, records
      ensures Valid() && given == old(given) && reported == old(reported) && taken == old(taken)
      ensures pushed == old(pushed) + [Record(time, kind, if |text| <= LOG_TEXT then text else text[..LOG_TEXT], shown)]
      ensures fates == PushedFates(old(Value()), old(pushed), old(fates), pushed[old(head)])
    {
      hide Log.Holds, Accounted;
      var r := Record(time, kind, if |text| <= LOG_TEXT then text else text[..LOG_TEXT], shown);
      ghost var l := Value();
      HoldsSize(l, pushed, fates);
      PushAccounted(l, pushed, fates, r, given, reported);
      sequence := sequence + 1;
      var place := head % records.Length;
      if head >= records.Length && head - records.Length >= taken && !records[place].shown && IsText(records[place]) {
        lost := lost + 1;
      }
      records[place] := r;
      head := head + 1;
      sequence := sequence + 1;
      PushHolds(l, Value(), pushed, fates, r);
      fates := PushedFates(l, pushed, fates, r);
      pushed := pushed + [r];
    }

    /** The cursor passes one record, which the reader is given when it waits. */
    method TakeOne() returns (r: Option<Record>)
      requires Valid() && FirstLeft() == taken < head && forall k | k in given :: k < taken
      modifies `taken, `fates, `given
      ensures Valid() && taken == old(taken) + 1 && FirstLeft() == taken && forall k | k in given :: k < taken
      ensures |fates| == |old(fates)| == |pushed| == head
      ensures fates == old(fates)[old(taken) := Passed(old(fates)[old(taken)])]
      ensures r.Some? <==> old(fates)[old(taken)] == Waiting
      ensures r.Some? ==> r.value == pushed[old(taken)] && given == old(given) + [old(taken)]
      ensures r.None? ==> given == old(given)
    {
      hide Log.Holds, Accounted;
      HoldsSize(Value(), pushed, fates);
      TakeStep(Value(), pushed, fates);
      var record := records[taken % records.Length];
      r := None;
      if !record.shown {
        TakeAccounted(fates, given, lost, reported, taken);
        r := Some(record);
        given := given + [taken];
      } else {
        assert fates[taken := Passed(fates[taken])] == fates;
      }
      fates := fates[taken := Passed(fates[taken])];
      taken := taken + 1;
    }

    /** The records a read is given, from the cursor on, and their numbers. */
    method Collect() returns (out: seq<Record>, ghost nums: seq<nat>)
      requires Valid()
      modifies `taken, `fates, `given
      ensures Valid() && |out| <= LOG_BATCH && given == old(given) + nums
      ensures Gives(pushed, old(fates), fates, taken, out, nums)
      ensures |out| < LOG_BATCH ==> taken == head
      ensures FirstLeft() == taken
    {
      hide Log.Holds, Accounted, Gives;
      out, nums := [], [];
      HoldsSize(Value(), pushed, fates);
      GivenBelow(Value(), pushed, fates, given, lost, reported);
      CursorToFirst(Value(), pushed, fates);
      taken := FirstLeft();
      GivesNone(pushed, fates, taken);
      while taken < head && |out| < LOG_BATCH
        invariant Valid() && FirstLeft() == taken <= head && forall k | k in given :: k < taken
        invariant |out| <= LOG_BATCH && given == old(given) + nums
        invariant Gives(pushed, old(fates), fates, taken, out, nums)
        decreases head - taken
      {
        ghost var fates1, c := fates, taken;
        var r := TakeOne();
        GivesMore(pushed, old(fates), fates1, fates, c, out, nums);
        if r.Some? {
          out, nums := out + [r.value], nums + [c];
        }
      }
    }

    /** How many records from the cursor on nobody showed or took. */
    method CountLeft() returns (left: nat)
      requires Valid() && FirstLeft() == taken
      ensures left == Count(fates, Waiting)
    {
      hide Log.Holds, Accounted;
      HoldsSize(Value(), pushed, fates);
      NoneBelow(Value(), pushed, fates);
      left := 0;
      var m := taken;
      while m < head
        invariant taken <= m <= head && left == Count(fates[..m], Waiting)
      {
        PlaceTells(Value(), pushed, fates, m);
        assert fates[..m + 1] == fates[..m] + [fates[m]];
        CountAdd(fates[..m], fates[m], Waiting);
        if !records[m % records.Length].shown {
          left := left + 1;
        }
        m := m + 1;
      }
      assert fates[..head] == fates;
    }

    /** A read: records nobody showed, oldest first, at most a batch, each once; and how many
        were lost since the last read. */
    method Take() returns (out: seq<Record>, b: Batch, ghost nums: seq<nat>)
      requires Valid()
      modifies this
      ensures Valid() && pushed == old(pushed) && given == old(given) + nums && |out| <= LOG_BATCH
      ensures Gives(pushed, old(fates), fates, taken, out, nums)
      ensures b.count == |out| && b.lost == old(lost) && reported == old(reported) + b.lost && lost == 0
      ensures b.left == Count(fates, Waiting) && (b.count < LOG_BATCH ==> b.left == 0)
    {
      hide Log.Holds, Accounted, Gives;
      out, nums := Collect();
      var left := CountLeft();
      if |out| < LOG_BATCH {
        NoneWaits(Value(), pushed, fates);
      }
      b := Batch(|out|, lost, left);
      LostReported(Value(), pushed, fates, given, lost, reported);
      reported := reported + lost;
      lost := 0;
    }

    /** Shows the waiting text records, oldest first. */
    method Show() returns (out: seq<Record>, ghost nums: seq<nat>)
      requires Valid()
      modifies records, `fates
      ensures Valid() && |out| == |nums| && Increasing(nums)
      ensures forall k: nat | k < |nums| :: nums[k] < |pushed| && out[k] == pushed[nums[k]]
      ensures |fates| == |old(fates)| == |pushed|
      ensures forall n: nat | n < |fates| :: fates[n] == Displayed(old(fates)[n], pushed[n])
      ensures forall n: nat :: n in nums <==> n < |pushed| && old(fates)[n] == Waiting && IsText(pushed[n])
    {
      hide Log.Holds, Accounted, Shows;
      HoldsSize(Value(), pushed, fates);
      out, nums := [], [];
      var n := FirstLeft();
      ShowsNone(Value(), pushed, fates, n);
      while n < head
        invariant FirstLeft() <= n <= head && Valid() && |pushed| == head
        invariant Shows(pushed, old(fates), fates, n, out, nums)
      {
        ghost var fates1 := fates;
        var r := ShowOne(n);
        ShowsMore(pushed, old(fates), fates1, fates, n, out, nums);
        if r.Some? {
          out, nums := out + [r.value], nums + [n];
        }
        n := n + 1;
      }
      ShowsAll(pushed, old(fates), fates, n, out, nums);
    }

    method ShowOne(n: nat) returns (r: Option<Record>)
      requires Valid() && FirstLeft() <= n < head && |pushed| == head
      modifies records, `fates
      ensures Valid() && |fates| == |old(fates)| && fates == old(fates)[n := Displayed(old(fates)[n], pushed[n])]
      ensures r == if old(fates)[n] == Waiting && IsText(pushed[n]) then Some(pushed[n]) else None
    {
      hide Log.Holds, Accounted;
      HoldsSize(Value(), pushed, fates);
      ghost var l := Value();
      var place := n % records.Length;
      PlaceTells(l, pushed, fates, n);
      r := None;
      if IsText(records[place]) && !records[place].shown {
        r := Some(records[place]);
        records[place] := records[place].(shown := true);
        SetAccounted(fates, given, lost, reported, n, Shown);
      } else {
        assert fates[n := Displayed(fates[n], pushed[n])] == fates;
        assert records[..][place := Now(pushed[n], fates[n])] == records[..];
      }
      ShowStep(l, Value(), pushed, fates, n);
      fates := fates[n := Displayed(fates[n], pushed[n])];
    }

    /** Reads from record `first` on without moving the cursor. */
    method Peek(first: nat) returns (out: seq<Record>, b: Batch, next: nat)
      requires Valid()
      ensures b.count == |out| <= LOG_BATCH && b.left == head - next && next <= head
      ensures first <= head ==> next - first == b.count + b.lost
      ensures forall k: nat | k < |out| ::
                next - |out| + k < |pushed| && next - |out| >= 0
                  && out[k] == Now(pushed[next - |out| + k], fates[next - |out| + k])
      ensures b.count < LOG_BATCH ==> b.left == 0
      ensures forall n: nat | first <= n < next && !IsOver(n, head, records.Length) ::
                n < |pushed| && 0 <= next - |out| <= n && out[n - (next - |out|)] == Now(pushed[n], fates[n])
      ensures b.lost == |WrittenOver(first, head, records.Length)|
    {
      hide Log.Holds, Accounted;
      HoldsSize(Value(), pushed, fates);
      OverSize(first, head, records.Length);
      var oldest := if head > records.Length then head - records.Length else 0;
      next := if first > oldest then first else oldest;
      next := if next < head then next else head;
      var lost := if oldest > first then oldest - first else 0;
      out := [];
      ghost var start := next;
      while next < head && |out| < LOG_BATCH
        invariant start <= next <= head && |out| == next - start <= LOG_BATCH && oldest <= next
        invariant forall k: nat | k < |out| ::
                    start + k < |pushed| && out[k] == Now(pushed[start + k], fates[start + k])
      {
        PlaceHas(Value(), pushed, fates, next);
        out := out + [records[next % records.Length]];
        next := next + 1;
      }
      b := Batch(|out|, lost, head - next);
    }
  }

  /** The records from `first` on that are written over in a ring of `size` places. */
  function WrittenOver(first: nat, head: nat, size: nat): set<nat> {
    set n: nat | first <= n < head && IsOver(n, head, size)
  }

  predicate IsOver(n: nat, head: nat, size: nat) {
    n + size < head
  }

  lemma {:induction false} OverSize(first: nat, head: nat, size: nat)
    ensures |WrittenOver(first, head, size)| == if head > first + size then head - size - first else 0
    decreases head
  {
    if head > first + size {
      OverSize(first, head - 1, size);
      assert WrittenOver(first, head, size) == WrittenOver(first, head - 1, size) + {head - 1 - size};
    } else {
      assert WrittenOver(first, head, size) == {};
    }
  }

  /** The numbers from the cursor on that still wait. */
  lemma {:induction false} WaitingFrom(pushed: seq<Record>, fates: seq<Fate>, first: nat, taken: nat, m: nat)
    requires |pushed| == |fates| && m <= |fates| && m <= first
    requires forall n: nat | n < |pushed| :: FateOk(pushed[n], fates[n], n, first, taken)
    ensures Count(fates[..m], Waiting) == 0
    decreases m
  {
    if m > 0 {
      assert FateOk(pushed[m - 1], fates[m - 1], m - 1, first, taken);
      WaitingFrom(pushed, fates, first, taken, m - 1);
      assert fates[..m][..m - 1] == fates[..m - 1];
    }
  }

  /** What was given since the fates were `before`: pushed records, by number, all below the
      cursor; and exactly those changed from waiting to taken. */
  ghost predicate Gives(pushed: seq<Record>, before: seq<Fate>, fates: seq<Fate>, cursor: nat, out: seq<Record>,
                        nums: seq<nat>) {
    && |out| == |nums| && |before| == |fates| == |pushed|
    && (forall k: nat | k < |nums| ::
        nums[k] < cursor && nums[k] < |pushed| && out[k] == pushed[nums[k]] && before[nums[k]] == Waiting)
    && (forall n: nat | n < |fates| :: fates[n] == if n in nums then Taken else before[n])
  }

  lemma GivesNone(pushed: seq<Record>, fates: seq<Fate>, cursor: nat)
    requires |fates| == |pushed|
    ensures Gives(pushed, fates, fates, cursor, [], [])
  {
  }

  lemma GivesMore(pushed: seq<Record>, before: seq<Fate>, fates: seq<Fate>, fates': seq<Fate>, c: nat, out: seq<Record>,
                  nums: seq<nat>)
    requires Gives(pushed, before, fates, c, out, nums) && c < |fates| && fates' == fates[c := Passed(fates[c])]
    ensures fates[c] == Waiting ==> Gives(pushed, before, fates', c + 1, out + [pushed[c]], nums + [c])
    ensures fates[c] != Waiting ==> Gives(pushed, before, fates', c + 1, out, nums)
  {
    assert c !in nums;
    assert forall n: nat :: n in nums + [c] <==> n in nums || n == c;
  }

  lemma NothingYet(l: Log)
    requires l.head == l.taken == l.lost == 0 && |l.places| > 0
    ensures l.Holds([], []) && Accounted([], [], 0, 0)
  {
  }

  lemma HoldsSize(l: Log, pushed: seq<Record>, fates: seq<Fate>)
    requires |pushed| == |fates| && l.Holds(pushed, fates)
    ensures |pushed| == l.head && |l.places| > 0 && l.taken <= l.head
  {
  }

  lemma GivenBelow(l: Log, pushed: seq<Record>, fates: seq<Fate>, given: seq<nat>, lost: nat, reported: nat)
    requires |pushed| == |fates| && l.Holds(pushed, fates) && Accounted(fates, given, lost, reported)
    ensures forall k | k in given :: k < l.taken
  {
    forall k | k in given ensures k < l.taken {
      assert FateOk(pushed[k], fates[k], k, First(l.head, l.taken, |l.places|), l.taken);
    }
  }

  lemma PlaceHas(l: Log, pushed: seq<Record>, fates: seq<Fate>, n: nat)
    requires |pushed| == |fates| && l.Holds(pushed, fates) && n < l.head <= n + |l.places|
    ensures l.places[n % |l.places|] == Now(pushed[n], fates[n])
  {
  }

  /** A record within reach of a read waits exactly when it is not marked shown. */
  lemma PlaceTells(l: Log, pushed: seq<Record>, fates: seq<Fate>, n: nat)
    requires |pushed| == |fates| && l.Holds(pushed, fates) && First(l.head, l.taken, |l.places|) <= n < l.head
    ensures fates[n] == Waiting <==> !l.places[n % |l.places|].shown
    ensures l.places[n % |l.places|] == Now(pushed[n], fates[n])
  {
    assert FateOk(pushed[n], fates[n], n, First(l.head, l.taken, |l.places|), l.taken);
  }

  lemma NoneBelow(l: Log, pushed: seq<Record>, fates: seq<Fate>)
    requires |pushed| == |fates| && l.Holds(pushed, fates) && First(l.head, l.taken, |l.places|) == l.taken
    ensures Count(fates[..l.taken], Waiting) == 0
  {
    WaitingFrom(pushed, fates, l.taken, l.taken, l.taken);
  }

  lemma NoneWaits(l: Log, pushed: seq<Record>, fates: seq<Fate>)
    requires |pushed| == |fates| && l.Holds(pushed, fates) && l.taken == l.head
    ensures Count(fates, Waiting) == 0
  {
    WaitingFrom(pushed, fates, First(l.head, l.taken, |l.places|), l.taken, |fates|);
    assert fates[..|fates|] == fates;
  }

  lemma LostReported(l: Log, pushed: seq<Record>, fates: seq<Fate>, given: seq<nat>, lost: nat, reported: nat)
    requires |pushed| == |fates| && l.Holds(pushed, fates) && Accounted(fates, given, lost, reported)
    ensures l.(lost := 0).Holds(pushed, fates) && Accounted(fates, given, 0, reported + lost)
  {
  }

  /** What was shown since the fates were `before`, up to record `n`. */
  ghost predicate Shows(pushed: seq<Record>, before: seq<Fate>, fates: seq<Fate>, n: nat, out: seq<Record>,
                        nums: seq<nat>) {
    && |out| == |nums| && |before| == |fates| == |pushed| && Increasing(nums)
    && (forall k: nat | k < |nums| :: nums[k] < n && nums[k] < |pushed| && out[k] == pushed[nums[k]])
    && (forall m: nat | m < |fates| :: fates[m] == if m < n then Displayed(before[m], pushed[m]) else before[m])
    && (forall m: nat :: m in nums <==> m < n && m < |pushed| && before[m] == Waiting && IsText(pushed[m]))
  }

  lemma ShowsNone(l: Log, pushed: seq<Record>, fates: seq<Fate>, n: nat)
    requires |pushed| == |fates| && l.Holds(pushed, fates) && n == First(l.head, l.taken, |l.places|)
    ensures Shows(pushed, fates, fates, n, [], [])
  {
    forall m: nat | m < |fates| && m < n ensures fates[m] != Waiting {
      assert FateOk(pushed[m], fates[m], m, n, l.taken);
    }
  }

  lemma ShowsMore(pushed: seq<Record>, before: seq<Fate>, fates: seq<Fate>, fates': seq<Fate>, n: nat, out: seq<Record>,
                  nums: seq<nat>)
    requires Shows(pushed, before, fates, n, out, nums) && n < |fates|
    requires fates' == fates[n := Displayed(fates[n], pushed[n])]
    ensures fates[n] == Waiting && IsText(pushed[n]) ==>
              Shows(pushed, before, fates', n + 1, out + [pushed[n]], nums + [n])
    ensures !(fates[n] == Waiting && IsText(pushed[n])) ==> Shows(pushed, before, fates', n + 1, out, nums)
  {
    assert forall m: nat :: m in nums + [n] <==> m in nums || m == n;
  }

  lemma ShowsAll(pushed: seq<Record>, before: seq<Fate>, fates: seq<Fate>, n: nat, out: seq<Record>, nums: seq<nat>)
    requires Shows(pushed, before, fates, n, out, nums) && n >= |pushed|
    ensures |out| == |nums| && Increasing(nums) && |fates| == |before| == |pushed|
    ensures forall k: nat | k < |nums| :: nums[k] < |pushed| && out[k] == pushed[nums[k]]
    ensures forall m: nat | m < |fates| :: fates[m] == Displayed(before[m], pushed[m])
    ensures forall m: nat :: m in nums <==> m < |pushed| && before[m] == Waiting && IsText(pushed[m])
  {
  }
}
