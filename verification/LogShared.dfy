/**
 A log ring read by another CPU while its owner writes it. The owner writes a record word
 by word between two changes of the sequence number, and marks records as shown, one word
 of a record in place, without touching the sequence number. The reader copies word by word
 between two looks at that number. The steps are the single accesses, in any interleaving.
 */
module LogShared {
  import opened LogRing

  /** A record as the words that are written and copied one at a time. */
  type Words = seq<nat>

  /** The word of a record that tells it was shown. */
  const SHOWN: nat := 1

  datatype Writer = Idle | Filling(record: Words, k: nat) | Counted

  /** What the reader wants under the seqlock: the head, or the record numbered `next`. */
  datatype Goal = WantHead | WantRecord

  datatype Stage = Probe | Copying | Check | Done

  /** A copy the reader gives, with the place of the record as it stood at the first and
      at the last look at the sequence number. */
  datatype Copied = Copied(number: nat, words: Words, found: Words, left: Words)

  datatype Reader = Reader(
    first: nat, goal: Goal, stage: Stage, before: nat, found: Words, copy: Words, now: nat,
    head: nat, next: nat, lost: nat, out: seq<Copied>)

  datatype State = State(
    places: seq<Words>, width: nat, flag: nat, head: nat, sequence: nat,
    pushed: seq<Words>, marked: set<nat>, writer: Writer, reader: Reader)

  datatype Step =
    | Begin(record: Words) | WriteWord | CountRecord | Finish | Mark(n: nat)
    | ReadSequence | CopyWord | ReadHead | CheckSequence

  ghost predicate Init(s: State) {
    && |s.places| > 0 && (forall p: nat | p < |s.places| :: |s.places[p]| == s.width) && s.flag < s.width
    && s.head == 0 && s.sequence == 0 && s.pushed == [] && s.marked == {} && s.writer == Idle
    && s.reader.goal == WantHead && s.reader.stage == Probe && s.reader.out == []
    && s.reader.next == s.reader.head == s.reader.lost == 0
  }

  /** The record with the number is still in its place. */
  predicate InReach(s: State, n: nat) {
    n < s.head <= n + |s.places|
  }

  /** The place of the record the reader wants. */
  function Wanted(s: State): Words
    requires |s.places| > 0
  {
    s.places[s.reader.next % |s.places|]
  }

  predicate Enabled(s: State, step: Step) {
    match step
    case Begin(record) => s.writer == Idle && |record| == s.width
    case WriteWord => s.writer.Filling? && s.writer.k < s.width && s.writer.k < |s.writer.record|
                      && |s.places| > 0 && s.writer.k < |s.places[s.head % |s.places|]|
    case CountRecord => s.writer.Filling? && s.writer.k == s.width
    case Finish => s.writer == Counted
    case Mark(n) => s.writer == Idle && |s.places| > 0 && InReach(s, n) && s.flag < |s.places[n % |s.places|]|
    case ReadSequence => s.reader.stage == Probe && |s.places| > 0
    case CopyWord => s.reader.stage == Copying && s.reader.goal == WantRecord && |s.reader.copy| < s.width
                     && |s.places| > 0 && |s.reader.copy| < |Wanted(s)|
    case ReadHead => s.reader.stage == Copying && (s.reader.goal == WantHead || |s.reader.copy| == s.width)
    case CheckSequence => s.reader.stage == Check && |s.places| > 0
  }

  function WithMark(record: Words, flag: nat): Words {
    if flag < |record| then record[..flag] + [SHOWN] + record[flag + 1..] else record
  }

  function Less(a: nat, b: nat): nat {
    if a > b then a - b else 0
  }

  function Turn(r: Reader): Reader {
    r.(goal := WantRecord, stage := if r.next < r.head && |r.out| < LOG_BATCH then Probe else Done)
  }

  /** A copy under an unchanged even sequence number is kept. */
  function Accept(r: Reader, n: nat, place: Words): Reader {
    if r.goal == WantHead then
      var oldest := Less(r.now, n);
      var from := if r.first > oldest then r.first else oldest;
      Turn(r.(head := r.now, next := if from < r.now then from else r.now, lost := Less(oldest, r.first)))
    else if Less(r.now, n) > r.next then
      Turn(r.(lost := r.lost + 1, next := r.next + 1))
    else
      Turn(r.(out := r.out + [Copied(r.next, r.copy, r.found, place)], next := r.next + 1))
  }

  function Apply(s: State, step: Step): State
    requires Enabled(s, step)
  {
    match step
    case Begin(record) => s.(sequence := s.sequence + 1, writer := Filling(record, 0))
    case WriteWord =>
      var p := s.head % |s.places|;
      s.(places := s.places[p := s.places[p][s.writer.k := s.writer.record[s.writer.k]]],
         writer := Filling(s.writer.record, s.writer.k + 1))
    case CountRecord => s.(head := s.head + 1, pushed := s.pushed + [s.writer.record], writer := Counted)
    case Finish => s.(sequence := s.sequence + 1, writer := Idle)
    case Mark(n) =>
      var p := n % |s.places|;
      s.(places := s.places[p := WithMark(s.places[p], s.flag)], marked := s.marked + {n})
    case ReadSequence =>
      if s.sequence % 2 == 0 then
        s.(reader := s.reader.(before := s.sequence, found := Wanted(s), copy := [], stage := Copying))
      else
        s
    case CopyWord =>
      s.(reader := s.reader.(copy := s.reader.copy + [Wanted(s)[|s.reader.copy|]]))
    case ReadHead => s.(reader := s.reader.(now := s.head, stage := Check))
    case CheckSequence =>
      if s.sequence == s.reader.before then
        s.(reader := Accept(s.reader, |s.places|, Wanted(s)))
      else
        s.(reader := s.reader.(stage := Probe))
  }

  ghost predicate Run(states: seq<State>, steps: seq<Step>) {
    && |states| == |steps| + 1 && Init(states[0])
    && forall i: nat | i < |steps| :: Enabled(states[i], steps[i]) && states[i + 1] == Apply(states[i], steps[i])
  }

  // ----- the owner -----

  /** The record as it was pushed, or that with its mark. */
  function Version(record: Words, flag: nat, marked: bool): Words {
    if marked then WithMark(record, flag) else record
  }

  /** The words written so far are those of the record. */
  ghost predicate Written(place: Words, record: Words, k: nat) {
    |place| == |record| && k <= |record| && forall w: nat | w < k :: place[w] == record[w]
  }

  ghost predicate Shapes(s: State) {
    && |s.places| > 0 && s.flag < s.width && (forall p: nat | p < |s.places| :: |s.places[p]| == s.width)
    && s.head == |s.pushed| && (forall n: nat | n < |s.pushed| :: |s.pushed[n]| == s.width)
    && (forall n | n in s.marked :: n < s.head)
  }

  /** The records in reach stand in their places, those marked with their mark. */
  ghost predicate Standing(s: State)
    requires Shapes(s)
  {
    forall n: nat | n < s.head && n + |s.places| >= s.head + (if s.writer.Filling? then 1 else 0) ::
      s.places[n % |s.places|] == Version(s.pushed[n], s.flag, n in s.marked)
  }

  ghost predicate OwnerOk(s: State) {
    && Shapes(s) && Standing(s) && (s.sequence % 2 == 0 <==> s.writer == Idle)
    && (s.writer.Filling? ==>
        |s.writer.record| == s.width && Written(s.places[s.head % |s.places|], s.writer.record, s.writer.k))
  }

  // ----- the reader -----

  /** The copy so far has its words from the place as it is, its mark from the place as it
      is or as it was found, and nothing but the mark changed since. */
  ghost predicate Between(copy: Words, found: Words, place: Words, flag: nat) {
    && |copy| <= |place| == |found| && flag < |place|
    && (forall w: nat | w < |place| && w != flag :: found[w] == place[w])
    && (place[flag] == found[flag] || place[flag] == SHOWN)
    && (forall w: nat | w < |copy| && w != flag :: copy[w] == place[w])
    && (flag < |copy| ==> copy[flag] == found[flag] || copy[flag] == place[flag])
  }

  /** While the sequence number stands, what the reader has seen is what is there. */
  ghost predicate Seen(s: State, r: Reader)
    requires Shapes(s)
  {
    && r.before % 2 == 0 && r.before <= s.sequence
    && (s.sequence == r.before ==>
          && (r.goal == WantRecord ==> Between(r.copy, r.found, s.places[r.next % |s.places|], s.flag))
          && (r.goal == WantRecord && InReach(s, r.next) ==>
                r.found == s.pushed[r.next] || r.found == Version(s.pushed[r.next], s.flag, true))
          && (r.stage == Check ==> r.now == s.head && (r.goal == WantRecord ==> |r.copy| == s.width)))
  }

  /** The copy is the record with the number, whole, as it stood in its place at the first
      or at the last look; a mark it bears was set. */
  ghost predicate WholeCopy(s: State, c: Copied) {
    && c.number < |s.pushed|
    && (c.words == c.found || c.words == c.left)
    && (c.found == s.pushed[c.number] || c.found == Version(s.pushed[c.number], s.flag, true))
    && (c.left == c.found || c.left == Version(s.pushed[c.number], s.flag, true))
    && (c.words != s.pushed[c.number] ==> c.number in s.marked)
  }

  ghost predicate WholeCopies(s: State, out: seq<Copied>) {
    && (forall k: nat | k < |out| :: WholeCopy(s, out[k]))
    && (forall i: nat, j: nat | i < j < |out| :: out[i].number < out[j].number)
  }

  ghost predicate Given(out: seq<Copied>, n: nat) {
    exists k: nat :: k < |out| && out[k].number == n
  }

  /** Every record that was passed was given or is written over, and the latter are counted. */
  ghost predicate Counts(s: State, r: Reader) {
    && r.next <= r.head && (r.first <= r.head ==> r.next - r.first == |r.out| + r.lost)
    && (forall k: nat | k < |r.out| :: r.out[k].number < r.next)
    && (forall n: nat | r.first <= n < r.next :: Given(r.out, n) || n + |s.places| < s.head)
  }

  ghost predicate ReaderOk(s: State)
    requires Shapes(s)
  {
    var r := s.reader;
    && (r.stage == Copying || r.stage == Check ==> Seen(s, r))
    && WholeCopies(s, r.out)
    && (r.goal == WantHead ==> r.out == [] && r.stage != Done)
    && (r.goal == WantRecord ==> r.head <= s.head && Counts(s, r))
    && (r.goal == WantRecord ==> (r.stage != Done <==> r.next < r.head && |r.out| < LOG_BATCH))
    && |r.out| <= LOG_BATCH
  }

  ghost predicate Inv(s: State) {
    OwnerOk(s) && ReaderOk(s)
  }

  lemma InitInv(s: State)
    requires Init(s)
    ensures Inv(s)
  {
  }

  lemma OwnerStep(s: State, step: Step)
    requires OwnerOk(s) && Enabled(s, step) && (step.Begin? || step.Finish?)
    ensures OwnerOk(Apply(s, step))
  {
    hide Version;
  }

  lemma CountStep(s: State)
    requires OwnerOk(s) && Enabled(s, CountRecord)
    ensures OwnerOk(Apply(s, CountRecord))
  {
    hide WithMark;
    var t := Apply(s, CountRecord);
    assert s.places[s.head % |s.places|] == s.writer.record;
    forall n: nat | InReach(t, n) ensures t.places[n % |t.places|] == Version(t.pushed[n], t.flag, n in t.marked) {
      if n < s.head {
        assert t.pushed[n] == s.pushed[n];
      }
    }
  }

  lemma WriteStep(s: State)
    requires OwnerOk(s) && Enabled(s, WriteWord)
    ensures OwnerOk(Apply(s, WriteWord))
  {
    var t := Apply(s, WriteWord);
    forall n: nat | n < t.head && n + |t.places| >= t.head + 1
      ensures t.places[n % |t.places|] == s.places[n % |s.places|]
    {
      ModApart(n, s.head, |s.places|);
    }
  }

  lemma MarkStep(s: State, m: nat)
    requires OwnerOk(s) && Enabled(s, Mark(m))
    ensures OwnerOk(Apply(s, Mark(m)))
  {
    var t := Apply(s, Mark(m));
    forall n: nat | InReach(s, n) ensures t.places[n % |t.places|] == Version(t.pushed[n], t.flag, n in t.marked) {
      if n != m {
        Apart(n, m, s.head, |s.places|);
      }
    }
  }

  /** Records in reach have places of their own. */
  lemma Apart(n: nat, m: nat, head: nat, size: nat)
    requires size > 0 && n != m && n < head <= n + size && m < head <= m + size
    ensures n % size != m % size
  {
    if n < m {
      ModApart(n, m, size);
    } else {
      ModApart(m, n, size);
    }
  }

  /** What was copied stays what it was. */
  lemma CopiesStay(s: State, t: State, out: seq<Copied>)
    requires WholeCopies(s, out) && s.pushed <= t.pushed && s.marked <= t.marked && t.flag == s.flag
    ensures WholeCopies(t, out)
  {
    forall k: nat | k < |out| ensures WholeCopy(t, out[k]) {
      assert WholeCopy(s, out[k]);
    }
  }

  /** The owner writes: a copy under way stays true or the sequence number tells. */
  lemma OwnerKeepsReader(s: State, step: Step)
    requires Inv(s) && Enabled(s, step) && (step.Begin? || step.WriteWord? || step.CountRecord? || step.Finish?)
    requires OwnerOk(Apply(s, step))
    ensures ReaderOk(Apply(s, step))
  {
    hide Between, WholeCopies, Standing, Written;
    var t := Apply(s, step);
    var r := s.reader;
    CopiesStay(s, t, r.out);
    if r.stage == Copying || r.stage == Check {
      assert Seen(s, r);
      assert step.WriteWord? || step.CountRecord? ==> s.sequence % 2 == 1;
    }
  }

  /** The owner marks a record: what was copied of it stays between what was found and what
      is there. */
  lemma MarkKeepsReader(s: State, m: nat)
    requires Inv(s) && Enabled(s, Mark(m)) && OwnerOk(Apply(s, Mark(m)))
    ensures ReaderOk(Apply(s, Mark(m)))
  {
    hide WholeCopies, Standing, Written;
    var t := Apply(s, Mark(m));
    CopiesStay(s, t, s.reader.out);
  }

  /** The reader changes nothing of the ring. */
  lemma OnlyReader(s: State, t: State)
    requires OwnerOk(s) && WholeCopies(s, s.reader.out) && t == s.(reader := t.reader)
    ensures OwnerOk(t) && Shapes(t) && WholeCopies(t, s.reader.out)
  {
    hide Written;
    CopiesStay(s, t, s.reader.out);
  }

  lemma ReadStep(s: State)
    requires Inv(s) && Enabled(s, ReadSequence)
    ensures Inv(Apply(s, ReadSequence))
  {
    hide WholeCopies, Written;
    OnlyReader(s, Apply(s, ReadSequence));
  }

  lemma CopyStep(s: State)
    requires Inv(s) && Enabled(s, CopyWord)
    ensures Inv(Apply(s, CopyWord))
  {
    hide WholeCopies, OwnerOk;
    OnlyReader(s, Apply(s, CopyWord));
  }

  lemma HeadStep(s: State)
    requires Inv(s) && Enabled(s, ReadHead)
    ensures Inv(Apply(s, ReadHead))
  {
    hide WholeCopies, OwnerOk, Between;
    OnlyReader(s, Apply(s, ReadHead));
  }

  lemma BetweenWhole(copy: Words, found: Words, place: Words, flag: nat)
    requires Between(copy, found, place, flag) && |copy| == |place|
    ensures copy == found || copy == place
    ensures found == place || place == WithMark(found, flag)
  {
  }

  /** An accepted copy of a record that is not reported as written over is that record, as
      it stood in its place at the first or at the last look. */
  lemma AcceptRecord(s: State)
    requires Inv(s) && Enabled(s, CheckSequence) && s.sequence == s.reader.before && s.reader.goal == WantRecord
    requires Less(s.reader.now, |s.places|) <= s.reader.next
    ensures WholeCopy(s, Copied(s.reader.next, s.reader.copy, s.reader.found, Wanted(s)))
  {
    hide Between, WholeCopies, Written;
    var r := s.reader;
    assert Seen(s, r);
    BetweenWhole(r.copy, r.found, Wanted(s), s.flag);
    assert Wanted(s) == Version(s.pushed[r.next], s.flag, r.next in s.marked);
  }

  lemma CheckStep(s: State)
    requires Inv(s) && Enabled(s, CheckSequence)
    ensures Inv(Apply(s, CheckSequence))
  {
    hide Between, WholeCopy, OwnerOk;
    OnlyReader(s, Apply(s, CheckSequence));
    var r := s.reader;
    if s.sequence == r.before {
      assert Seen(s, r);
      if r.goal == WantRecord && Less(r.now, |s.places|) <= r.next {
        AcceptRecord(s);
        var c := Copied(r.next, r.copy, r.found, Wanted(s));
        assert WholeCopies(s, r.out + [c]);
        CopiesStay(s, Apply(s, CheckSequence), r.out + [c]);
        GivenMore(r.out, c);
      }
    }
  }

  lemma GivenMore(out: seq<Copied>, c: Copied)
    ensures Given(out + [c], c.number) && forall n | Given(out, n) :: Given(out + [c], n)
  {
    assert (out + [c])[|out|] == c;
    forall n | Given(out, n) ensures Given(out + [c], n) {
      var k: nat :| k < |out| && out[k].number == n;
      assert (out + [c])[k].number == n;
    }
  }

  lemma StepInv(s: State, step: Step)
    requires Inv(s) && Enabled(s, step)
    ensures Inv(Apply(s, step))
  {
    hide OwnerOk, ReaderOk, Enabled, Apply;
    match step
    case WriteWord =>
      WriteStep(s);
      OwnerKeepsReader(s, step);
    case CountRecord =>
      CountStep(s);
      OwnerKeepsReader(s, step);
    case Mark(n) =>
      MarkStep(s, n);
      MarkKeepsReader(s, n);
    case ReadSequence => ReadStep(s);
    case CopyWord => CopyStep(s);
    case ReadHead => HeadStep(s);
    case CheckSequence => CheckStep(s);
    case _ =>
      OwnerStep(s, step);
      OwnerKeepsReader(s, step);
  }

  lemma {:induction false} RunInv(states: seq<State>, steps: seq<Step>, k: nat)
    requires Run(states, steps) && k <= |steps|
    ensures Inv(states[k])
  {
    hide Inv, Init;
    if k == 0 {
      InitInv(states[0]);
    } else {
      RunInv(states, steps, k - 1);
      StepInv(states[k - 1], steps[k - 1]);
    }
  }

  // ----- the moments of a copy -----

  ghost predicate StoodAt(s: State, n: nat, words: Words) {
    |s.places| > 0 && s.places[n % |s.places|] == words
  }

  /** Two states of the run, under one sequence number, in which the place of the record
      held what the copy names. */
  ghost predicate Moments(states: seq<State>, c: Copied, i: nat, j: nat) {
    && i <= j < |states| && states[i].sequence == states[j].sequence
    && StoodAt(states[i], c.number, c.found) && StoodAt(states[j], c.number, c.left)
  }

  ghost predicate HasMoments(states: seq<State>, c: Copied, k: nat) {
    exists i: nat, j: nat :: j <= k && Moments(states, c, i, j)
  }

  ghost predicate BeganAt(states: seq<State>, r: Reader, i: nat) {
    i < |states| && states[i].sequence == r.before && StoodAt(states[i], r.next, r.found)
  }

  ghost predicate Began(states: seq<State>, r: Reader, k: nat) {
    r.goal == WantRecord && (r.stage == Copying || r.stage == Check) ==>
      exists i: nat :: i <= k && BeganAt(states, r, i)
  }

  lemma BeganStep(states: seq<State>, steps: seq<Step>, k: nat)
    requires Run(states, steps) && k < |steps| && Began(states, states[k].reader, k)
    ensures Began(states, states[k + 1].reader, k + 1)
  {
    var r, r' := states[k].reader, states[k + 1].reader;
    if steps[k].ReadSequence? {
      assert r'.stage == Copying ==> BeganAt(states, r', k);
    } else if r.goal == WantRecord && (r.stage == Copying || r.stage == Check) {
      var i: nat :| i <= k && BeganAt(states, r, i);
      assert r'.stage == Copying || r'.stage == Check ==> BeganAt(states, r', i);
    }
  }

  lemma AcceptMoments(states: seq<State>, steps: seq<Step>, k: nat, c: Copied)
    requires Run(states, steps) && k < |steps| && Began(states, states[k].reader, k)
    requires c in states[k + 1].reader.out && c !in states[k].reader.out
    ensures HasMoments(states, c, k + 1)
  {
    var s := states[k];
    assert steps[k].CheckSequence? && s.sequence == s.reader.before
           && c == Copied(s.reader.next, s.reader.copy, s.reader.found, Wanted(s));
    var i: nat :| i <= k && BeganAt(states, s.reader, i);
    assert Moments(states, c, i, k);
  }

  /** What a copy names as found and left did stand in the place, in that order. */
  lemma {:induction false} CopiesHaveMoments(states: seq<State>, steps: seq<Step>, k: nat)
    requires Run(states, steps) && k <= |steps|
    ensures Began(states, states[k].reader, k)
    ensures forall c | c in states[k].reader.out :: HasMoments(states, c, k)
  {
    hide Moments, BeganAt;
    if k > 0 {
      CopiesHaveMoments(states, steps, k - 1);
      BeganStep(states, steps, k - 1);
      forall c | c in states[k].reader.out ensures HasMoments(states, c, k) {
        if c in states[k - 1].reader.out {
          var i: nat, j: nat :| j <= k - 1 && Moments(states, c, i, j);
        } else {
          AcceptMoments(states, steps, k - 1, c);
        }
      }
    }
  }

  /** Whatever the owner does meanwhile, the reader gives only whole records, each the one
      with the number asked for, in order, equal to what was pushed in every word but the
      mark; and of the records it passed, those it did not give are written over, and they
      are the ones it counts lost. */
  lemma WholeRecordsOnly(states: seq<State>, steps: seq<Step>, k: nat)
    requires Run(states, steps) && k <= |steps|
    ensures var s, r := states[k], states[k].reader;
            && WholeCopies(s, r.out) && |r.out| <= LOG_BATCH
            && (r.stage == Done ==> r.next == r.head || |r.out| == LOG_BATCH)
            && (r.goal == WantRecord && r.first <= r.head ==> r.next - r.first == |r.out| + r.lost)
            && (r.goal == WantRecord ==>
                forall n: nat | r.first <= n < r.next :: Given(r.out, n) || n + |s.places| < s.head)
    ensures forall i: nat, w: nat | i < |states[k].reader.out| && w != states[k].flag ::
              var c := states[k].reader.out[i];
              w < |c.words| ==>
                c.number < |states[k].pushed| && w < |states[k].pushed[c.number]|
                  && c.words[w] == states[k].pushed[c.number][w]
    ensures forall c | c in states[k].reader.out :: HasMoments(states, c, k)
  {
    RunInv(states, steps, k);
    CopiesHaveMoments(states, steps, k);
    var s := states[k];
    forall i: nat, w: nat | i < |s.reader.out| && w != s.flag && w < |s.reader.out[i].words|
      ensures s.reader.out[i].number < |s.pushed| && w < |s.pushed[s.reader.out[i].number]|
              && s.reader.out[i].words[w] == s.pushed[s.reader.out[i].number][w]
    {
      assert WholeCopy(s, s.reader.out[i]);
    }
  }
}
