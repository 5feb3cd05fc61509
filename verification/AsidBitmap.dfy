/**
 The map of used ASIDs: 1024 words of 64 bits, and a summary with one bit a word, set
 while the word is full. A word is the sequence of its bits, least significant first.
 */
module AsidBitmap {
  import opened Common
  import opened AsidSpec

  const WORDS: nat := 1024
  const SUMMARY: nat := 16

  type Word = w: seq<bool> | |w| == 64 witness seq(64, _ => false)

  const NO_BITS: Word := seq(64, _ => false)

  /** The reservations of CPUs that reserved nothing. */
  const NOBODY: seq<Id> := [VOID, VOID, VOID, VOID, VOID, VOID, VOID, VOID]

  /** `word == u64::MAX`. */
  predicate Full(w: Word) {
    forall i | 0 <= i < 64 :: w[i]
  }

  /** `word | ((1 << k) - 1)`: the bits below `k` count as set. */
  function WithLow(w: Word, k: nat): (r: Word)
    requires k < 64
    ensures forall i :: 0 <= i < 64 ==> r[i] == (i < k || w[i])
  {
    seq(64, i requires 0 <= i < 64 => i < k || w[i])
  }

  /** `(!word).trailing_zeros()`: the lowest clear bit, from bit `i` on. */
  function LowestClear(w: Word, i: nat := 0): (r: nat)
    requires i <= 64
    ensures i <= r <= 64 && (r < 64 ==> !w[r]) && forall j :: i <= j < r ==> w[j]
    decreases 64 - i
  {
    if i == 64 || !w[i] then i else LowestClear(w, i + 1)
  }

  lemma ClearBitBelow(w: Word)
    ensures LowestClear(w) < 64 || Full(w)
  {
  }

  // ----- what the words and the summary say -----

  predicate BitAt(us: seq<Word>, i: nat)
    requires |us| == WORDS && i < 64 * WORDS
  {
    us[i / 64][i % 64]
  }

  ghost function BitsOf(us: seq<Word>): (s: set<nat>)
    requires |us| == WORDS
    ensures forall i: nat :: i in s <==> i < 64 * WORDS && BitAt(us, i)
  {
    set i: nat | i < 64 * WORDS && BitAt(us, i)
  }

  /** The summary says of every word whether it is full. */
  ghost predicate Summed(us: seq<Word>, fs: seq<Word>)
  {
    && |us| == WORDS && |fs| == SUMMARY
    && forall w: nat | w < WORDS :: fs[w / 64][w % 64] <==> Full(us[w])
  }

  lemma ZeroWords(us: seq<Word>, fs: seq<Word>)
    requires |us| == WORDS && |fs| == SUMMARY
    requires us[0] == NO_BITS[0 := true] && forall w: nat | 0 < w < WORDS :: us[w] == NO_BITS
    requires forall w: nat | w < SUMMARY :: fs[w] == NO_BITS
    ensures Summed(us, fs) && BitsOf(us) == {0}
  {
    assert !us[0][1] && !NO_BITS[0];
    forall w: nat | w < WORDS ensures !Full(us[w]) && !fs[w / 64][w % 64] {
      assert fs[w / 64] == NO_BITS;
    }
    forall i: nat | i < 64 * WORDS ensures BitAt(us, i) <==> i == 0 {
    }
  }

  lemma BitSet(us: seq<Word>, i: nat, b: bool)
    requires |us| == WORDS && i < 64 * WORDS
    ensures var vs := us[i / 64 := us[i / 64][i % 64 := b]];
            BitsOf(vs) == if b then BitsOf(us) + {i} else BitsOf(us) - {i}
  {
    var vs := us[i / 64 := us[i / 64][i % 64 := b]];
    forall j: nat | j < 64 * WORDS ensures BitAt(vs, j) == if j == i then b else BitAt(us, j) {
    }
  }

  /** A word changed; its bit of the summary says whether it is full now. */
  lemma SummaryBit(us: seq<Word>, fs: seq<Word>, w: nat, word: Word)
    requires Summed(us, fs) && w < WORDS
    ensures Summed(us[w := word], fs[w / 64 := fs[w / 64][w % 64 := Full(word)]])
    ensures !Full(word) && !Full(us[w]) ==> Summed(us[w := word], fs)
  {
    var vs, gs := us[w := word], fs[w / 64 := fs[w / 64][w % 64 := Full(word)]];
    forall v: nat | v < WORDS ensures gs[v / 64][v % 64] <==> Full(vs[v]) {
      assert fs[v / 64][v % 64] <==> Full(us[v]);
    }
  }

  // ----- the search -----

  /** Nothing is clear from `lo` up to `hi`. */
  ghost predicate Solid(us: seq<Word>, lo: nat, hi: nat)
    requires |us| == WORDS
  {
    forall i: nat | lo <= i < hi && i < 64 * WORDS :: BitAt(us, i)
  }

  lemma FirstIs(us: seq<Word>, from: nat, to: nat, found: nat)
    requires |us| == WORDS && from <= found < 64 * WORDS && to <= 64 * WORDS
    requires Solid(us, from, found) && !BitAt(us, found)
    ensures FirstFree(BitsOf(us), from, to) == if found < to then Some(found) else None
  {
    FirstFreeIsLeast(BitsOf(us), from, to);
    assert found !in BitsOf(us);
    assert forall i: nat | from <= i < found :: i in BitsOf(us);
  }

  lemma FullWordsAreSolid(us: seq<Word>, lo: nat, hi: nat)
    requires |us| == WORDS && lo <= hi <= WORDS
    requires forall w: nat | lo <= w < hi :: Full(us[w])
    ensures Solid(us, 64 * lo, 64 * hi)
  {
    forall i: nat | 64 * lo <= i < 64 * hi ensures BitAt(us, i) {
      assert lo <= i / 64 < hi;
      assert Full(us[i / 64]);
    }
  }

  /** The lowest clear bit of word `w` is the first clear number from `from` on, once
      everything between `from` and the word is used. */
  lemma FirstInWord(us: seq<Word>, from: nat, to: nat, w: nat)
    requires |us| == WORDS && w < WORDS && from <= 64 * w && to <= 64 * WORDS
    requires Solid(us, from, 64 * w) && !Full(us[w])
    ensures var found := w * 64 + LowestClear(us[w]);
            LowestClear(us[w]) < 64 && FirstFree(BitsOf(us), from, to) == if found < to then Some(found) else None
  {
    ClearBitBelow(us[w]);
    var found := 64 * w + LowestClear(us[w]);
    forall i: nat | from <= i < found ensures BitAt(us, i) {
      if 64 * w <= i {
        assert i / 64 == w;
      }
    }
    assert found / 64 == w && found % 64 == LowestClear(us[w]);
    FirstIs(us, from, to, found);
  }

  /** The same for the word of `from` itself, whose bits below `from` are masked. */
  lemma FirstInOwnWord(us: seq<Word>, from: nat, to: nat)
    requires |us| == WORDS && from < to <= 64 * WORDS
    ensures var word := WithLow(us[from / 64], from % 64);
            if Full(word) then Solid(us, from, 64 * (from / 64 + 1))
            else var found := from / 64 * 64 + LowestClear(word);
                 LowestClear(word) < 64 && FirstFree(BitsOf(us), from, to) == if found < to then Some(found) else None
  {
    var w := from / 64;
    var word := WithLow(us[w], from % 64);
    if Full(word) {
      forall i: nat | from <= i < 64 * (w + 1) ensures BitAt(us, i) {
        assert i / 64 == w && word[i % 64];
      }
    } else {
      ClearBitBelow(word);
      var found := 64 * w + LowestClear(word);
      assert found / 64 == w && found % 64 == LowestClear(word);
      forall i: nat | from <= i < found ensures BitAt(us, i) {
        assert i / 64 == w && word[i % 64];
      }
      FirstIs(us, from, to, found);
    }
  }

  /** A masked summary word: full means every word from `s` to its end is full, and its
      lowest clear bit names the first word that is not. */
  lemma SummaryWord(us: seq<Word>, fs: seq<Word>, s: nat)
    requires Summed(us, fs) && s < WORDS
    ensures var word := WithLow(fs[s / 64], s % 64);
            if Full(word) then forall w: nat | s <= w < 64 * (s / 64 + 1) :: Full(us[w])
            else var w := s / 64 * 64 + LowestClear(word);
                 && LowestClear(word) < 64 && s <= w < WORDS && !Full(us[w])
                 && forall v: nat | s <= v < w :: Full(us[v])
  {
    var word := WithLow(fs[s / 64], s % 64);
    if Full(word) {
      forall w: nat | s <= w < 64 * (s / 64 + 1) ensures Full(us[w]) {
        assert w / 64 == s / 64 && word[w % 64];
      }
    } else {
      ClearBitBelow(word);
      var w := 64 * (s / 64) + LowestClear(word);
      assert w / 64 == s / 64 && w % 64 == LowestClear(word);
      forall v: nat | s <= v < w ensures Full(us[v]) {
        assert v / 64 == s / 64 && word[v % 64];
      }
    }
  }

  /** From a solid start, a step of the search over the summary: the answer, or a solid
      start one summary word further. */
  lemma SearchStep(us: seq<Word>, fs: seq<Word>, from: nat, to: nat, s: nat)
    requires Summed(us, fs) && s < WORDS && from <= 64 * s && to <= 64 * WORDS
    requires Solid(us, from, 64 * s)
    ensures var sum := WithLow(fs[s / 64], s % 64);
            if Full(sum) then Solid(us, from, 64 * ((s / 64 + 1) * 64))
            else
              LowestClear(sum) < 64 &&
              var v := s / 64 * 64 + LowestClear(sum);
              v < WORDS && LowestClear(us[v]) < 64 &&
              var found := v * 64 + LowestClear(us[v]);
              FirstFree(BitsOf(us), from, to) == if found < to then Some(found) else None
  {
    var sum := WithLow(fs[s / 64], s % 64);
    SummaryWord(us, fs, s);
    if Full(sum) {
      FullWordsAreSolid(us, s, 64 * (s / 64 + 1));
    } else {
      var v := s / 64 * 64 + LowestClear(sum);
      FullWordsAreSolid(us, s, v);
      FirstInWord(us, from, to, v);
    }
  }

  lemma SolidHasNone(us: seq<Word>, from: nat, to: nat)
    requires |us| == WORDS && to <= 64 * WORDS && Solid(us, from, 64 * WORDS)
    ensures FirstFree(BitsOf(us), from, to) == None
  {
    FirstFreeIsLeast(BitsOf(us), from, to);
  }

  class Bitmap {
    const bits: nat
    var free: int
    var next: nat
    const used: array<Word>
    const full: array<Word>

    ghost predicate Arrays() {
      used.Length == WORDS && full.Length == SUMMARY && used != full
    }

    /** The map as a value, with the reservations the allocator keeps beside it. */
    ghost function Model(reserved: seq<Id>): Alloc
      requires used.Length == WORDS
      reads this, used
    {
      Alloc(bits, BitsOf(used[..]), next, free, reserved)
    }

    ghost predicate Valid()
      reads this, used, full
    {
      Arrays() && Summed(used[..], full[..]) && MapOk(Model(NOBODY))
    }

    constructor (b: nat)
      requires b == 8 || b == 16
      ensures Valid() && bits == b && fresh(used) && fresh(full)
      ensures forall r :: Model(r) == EmptyMap(Alloc(b, {}, 0, 0, r))
    {
      bits := b;
      free := 0;
      next := 1;
      used := new Word[WORDS](_ => NO_BITS);
      full := new Word[SUMMARY](_ => NO_BITS);
      new;
      EmptyMapInPlace();
    }

    /** empty_map: the words are zero already. */
    method EmptyMapInPlace()
      requires Arrays() && (bits == 8 || bits == 16)
      requires forall w | 0 <= w < WORDS :: used[w] == NO_BITS
      modifies this`free, this`next, used, full
      ensures Valid()
      ensures forall r :: Model(r) == EmptyMap(Alloc(bits, {}, 0, 0, r))
    {
      used[0] := NO_BITS[0 := true];
      for i := 0 to SUMMARY
        invariant forall j | 0 <= j < i :: full[j] == NO_BITS
        modifies full
      {
        full[i] := NO_BITS;
      }
      free := Limit(bits) - 1;
      next := 1;
      ZeroWords(used[..], full[..]);
    }

    /** The clearing a new generation hands in: every word becomes zero. */
    method ClearWords()
      requires Arrays()
      modifies used
      ensures forall w | 0 <= w < WORDS :: used[w] == NO_BITS
    {
      for i := 0 to WORDS
        invariant forall j | 0 <= j < i :: used[j] == NO_BITS
      {
        used[i] := NO_BITS;
      }
    }

    method Set(i: nat)
      requires Valid() && i < Limit(bits)
      modifies this`free, used, full
      ensures Valid() && forall r :: Model(r) == Mark(old(Model(r)), i)
    {
      var w, b := i / 64, i % 64;
      if !used[w][b] {
        var word: Word := used[w][b := true];
        ghost var us, fs := used[..], full[..];
        SummaryBit(us, fs, w, word);
        BitSet(us, i, true);
        assert !Full(us[w]) by {
          assert !us[w][b];
        }
        used[w] := word;
        free := free - 1;
        if Full(used[w]) {
          full[w / 64] := full[w / 64][w % 64 := true];
        }
        assert used[..] == us[w := word];
        assert full[..] == fs || full[..] == fs[w / 64 := fs[w / 64][w % 64 := true]];
        MarkKeepsMap(old(Model(NOBODY)), i);
      }
    }

    method Unset(i: nat)
      requires Valid() && i in BitsOf(used[..]) && i != 0
      modifies this`free, used, full
      ensures Valid() && forall r :: Model(r) == Unmark(old(Model(r)), i)
    {
      var w, b := i / 64, i % 64;
      var word: Word := used[w][b := false];
      ghost var us, fs := used[..], full[..];
      assert !Full(word) by {
        assert !word[b];
      }
      SummaryBit(us, fs, w, word);
      BitSet(us, i, false);
      used[w] := word;
      full[w / 64] := full[w / 64][w % 64 := false];
      free := free + 1;
      assert used[..] == us[w := word];
      assert full[..] == fs[w / 64 := fs[w / 64][w % 64 := false]];
      UnmarkKeepsMap(old(Model(NOBODY)), i);
    }

    /** first_free: the search through the summary finds what the linear search finds. */
    method FirstFreeFast(from: nat, to: nat) returns (r: Option<nat>)
      requires Arrays() && Summed(used[..], full[..]) && to <= 64 * WORDS
      ensures r == FirstFree(BitsOf(used[..]), from, to)
    {
      if from >= to {
        return None;
      }
      var w := from / 64;
      var word := WithLow(used[w], from % 64);
      FirstInOwnWord(used[..], from, to);
      if !Full(word) {
        var found := w * 64 + LowestClear(word);
        return if found < to then Some(found) else None;
      }
      r := SearchSummary(from, to, w + 1);
    }

    /** The loop of first_free over the summary, from word `start` on. */
    method SearchSummary(from: nat, to: nat, start: nat) returns (r: Option<nat>)
      requires Arrays() && Summed(used[..], full[..]) && to <= 64 * WORDS
      requires start <= WORDS && from <= 64 * start && Solid(used[..], from, 64 * start)
      ensures r == FirstFree(BitsOf(used[..]), from, to)
    {
      ghost var us, fs := used[..], full[..];
      var s := start;
      while s < WORDS
        invariant start <= s <= WORDS && Solid(us, from, 64 * s)
      {
        SearchStep(us, fs, from, to, s);
        var sum := WithLow(full[s / 64], s % 64);
        if !Full(sum) {
          var v := s / 64 * 64 + LowestClear(sum);
          var found := v * 64 + LowestClear(used[v]);
          return if found < to then Some(found) else None;
        }
        s := (s / 64 + 1) * 64;
      }
      SolidHasNone(us, from, to);
      return None;
    }

    /** take: with a free number left the search cannot come back empty. */
    method Take() returns (i: nat)
      requires Valid() && free > 0
      modifies this`free, this`next, used, full
      ensures Valid()
      ensures forall r :: NextFree(old(Model(r))) == Some(i) && Model(r) == Taken(old(Model(r)), i)
      ensures FirstAround(old(Model(NOBODY)), i) && next == if i + 1 == Limit(bits) then 1 else i + 1
    {
      hide FirstAround;
      var limit := Limit(bits);
      NextFreeFinds(Model(NOBODY));
      var ahead := FirstFreeFast(next, limit);
      if ahead.None? {
        ahead := FirstFreeFast(1, next);
      }
      i := ahead.value;
      Set(i);
      next := if i + 1 == limit then 1 else i + 1;
    }
  }
}
