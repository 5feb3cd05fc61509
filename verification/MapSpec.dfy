/** The mappings of a process as a function from pages to what they show, and what cutting
    and trimming mappings does to that function. */
module MapSpec {
  import opened Common

  const PAGE: nat := 4096
  const MAX_MAPPINGS: nat := 128

  datatype Mapping<+T> = Mapping(start: nat, item: T, pages: nat, offset: nat, rights: nat, busy: bool)
  {
    function End(): nat {
      start + pages * PAGE
    }

    /** It shares a page with `n` pages from `from`. */
    predicate Overlaps(from: nat, n: nat) {
      from < End() && start < from + n * PAGE
    }

    /** Page `p` of the address space belongs to it. */
    predicate Covers(p: nat) {
      start <= p * PAGE < End()
    }

    /** What page `p` shows: the object, the page of the object, the rights. */
    function Shown(p: nat): (T, int, nat) {
      (item, offset + p - start / PAGE, rights)
    }

    predicate Whole() {
      start % PAGE == 0 && pages > 0
    }
  }

  type Table<T> = seq<Option<Mapping<T>>>

  predicate At<T>(t: Table<T>, i: nat, p: nat) {
    i < |t| && t[i].Some? && t[i].value.Covers(p)
  }

  /** Whole pages, and no page in two mappings. */
  ghost predicate Disjoint<T>(t: Table<T>) {
    && (forall i: nat | i < |t| && t[i].Some? :: t[i].value.Whole())
    && (forall i: nat, j: nat, p: nat :: At(t, i, p) && At(t, j, p) ==> i == j)
  }

  /** What a page shows, if a mapping has it. */
  ghost function Look<T>(t: Table<T>, p: nat): Option<(T, int, nat)> {
    if i: nat :| At(t, i, p) then Some(t[i].value.Shown(p)) else None
  }

  lemma LookIs<T>(t: Table<T>, i: nat, p: nat)
    requires Disjoint(t) && At(t, i, p)
    ensures Look(t, p) == Some(t[i].value.Shown(p))
  {
  }

  /** Ranges of whole pages share a page exactly when they overlap as byte ranges. */
  lemma OverlapIsSharing<T>(m: Mapping<T>, from: nat, n: nat)
    requires m.Whole() && from % PAGE == 0 && n > 0
    ensures m.Overlaps(from, n) <==> exists p: nat :: m.Covers(p) && from <= p * PAGE < from + n * PAGE
  {
    if m.Overlaps(from, n) {
      var a := if m.start < from then from else m.start;
      var p := a / PAGE;
      assert p * PAGE == a;
      assert m.Covers(p);
    }
  }

  // ----- one entry replaced -----

  /** The table with another mapping at `i`: only its own pages may differ. */
  lemma ReplaceDisjoint<T>(t: Table<T>, t': Table<T>, i: nat, m: Option<Mapping<T>>)
    requires Disjoint(t) && i < |t| && t' == t[i := m] && (m.Some? ==> m.value.Whole())
    requires forall j: nat, p: nat :: j != i && At(t, j, p) && m.Some? ==> !m.value.Covers(p)
    ensures Disjoint(t')
  {
    forall j: nat, k: nat, p: nat | At(t', j, p) && At(t', k, p) ensures j == k {
      assert j != i ==> At(t, j, p);
      assert k != i ==> At(t, k, p);
    }
  }

  lemma ReplaceLook<T>(t: Table<T>, t': Table<T>, i: nat, p: nat)
    requires Disjoint(t) && Disjoint(t') && i < |t| == |t'| && forall j: nat | j < |t| && j != i :: t'[j] == t[j]
    ensures At(t', i, p) ==> Look(t', p) == Some(t'[i].value.Shown(p))
    ensures !At(t', i, p) && !At(t, i, p) ==> Look(t', p) == Look(t, p)
    ensures !At(t', i, p) && At(t, i, p) ==> Look(t', p) == None
  {
    if At(t', i, p) {
      LookIs(t', i, p);
    } else if j: nat :| At(t', j, p) {
      assert At(t, j, p);
      LookIs(t', j, p);
      LookIs(t, j, p);
    } else if At(t, i, p) {
    } else if j: nat :| At(t, j, p) {
      assert At(t', j, p);
    }
  }

  // ----- counting -----

  ghost function Used<T>(t: Table<T>): nat {
    if t == [] then 0 else Used(t[..|t| - 1]) + (if t[|t| - 1].Some? then 1 else 0)
  }

  lemma {:induction false} UsedSet<T>(t: Table<T>, i: nat, m: Option<Mapping<T>>)
    requires i < |t|
    ensures Used(t[i := m]) == Used(t) - (if t[i].Some? then 1 else 0) + (if m.Some? then 1 else 0)
    decreases |t|
  {
    var k := |t| - 1;
    if i == k {
      assert t[i := m][..k] == t[..k];
    } else {
      UsedSet(t[..k], i, m);
      assert t[i := m][..k] == t[..k][i := m];
    }
  }

  // ----- split -----

  /** The parts of a mapping cut at the ends of `n` pages from `from`. */
  function Left<T>(m: Mapping<T>, from: nat): Mapping<T>
    requires m.start <= from
  {
    m.(pages := (from - m.start) / PAGE)
  }

  function Middle<T>(m: Mapping<T>, from: nat, n: nat): Mapping<T>
    requires m.start <= from
  {
    m.(start := from, pages := n, offset := m.offset + (from - m.start) / PAGE, busy := true)
  }

  function Right<T>(m: Mapping<T>, from: nat, n: nat): Mapping<T>
    requires m.start <= from && from + n * PAGE <= m.End()
  {
    m.(start := from + n * PAGE, pages := (m.End() - (from + n * PAGE)) / PAGE,
       offset := m.offset + (from - m.start) / PAGE + n)
  }

  ghost predicate Inside<T>(m: Mapping<T>, from: nat, n: nat) {
    n > 0 && m.start <= from && from + n * PAGE <= m.End()
  }

  /** The parts are whole, cover the mapping's pages once, and show what it showed. */
  lemma PartsShow<T>(m: Mapping<T>, from: nat, n: nat, p: nat)
    requires m.Whole() && Inside(m, from, n) && from % PAGE == 0
    ensures var l, c, r := Left(m, from), Middle(m, from, n), Right(m, from, n);
            && l.End() == from && c.End() == r.start && r.End() == m.End() && c.Whole() && r.start % PAGE == 0
            && (m.Covers(p) <==> l.Covers(p) || c.Covers(p) || r.Covers(p))
            && !(l.Covers(p) && c.Covers(p)) && !(c.Covers(p) && r.Covers(p)) && !(l.Covers(p) && r.Covers(p))
            && (l.Covers(p) ==> l.Shown(p) == m.Shown(p)) && (c.Covers(p) ==> c.Shown(p) == m.Shown(p))
            && (r.Covers(p) ==> r.Shown(p) == m.Shown(p))
  {
  }

  /** The table after a cut: the middle stays at `i`, the edges that are not empty take the
      free places `a` and `b`. */
  ghost predicate Cut<T>(t: Table<T>, t': Table<T>, i: nat, from: nat, n: nat, a: nat, b: nat) {
    && |t'| == |t| && i < |t| && t[i].Some? && t[i].value.start <= from && from + n * PAGE <= t[i].value.End()
    && t'[i] == Some(Middle(t[i].value, from, n))
    && a < |t| && b < |t| && a != i && b != i && a != b
    && (if Left(t[i].value, from).pages > 0 then t[a].None? && t'[a] == Some(Left(t[i].value, from)) else t'[a] == t[a])
    && (if Right(t[i].value, from, n).pages > 0 then t[b].None? && t'[b] == Some(Right(t[i].value, from, n))
        else t'[b] == t[b])
    && forall j: nat | j < |t| && j != i && j != a && j != b :: t'[j] == t[j]
  }

  /** Entry `j` is one of the parts. */
  ghost predicate IsPart<T>(t: Table<T>, i: nat, from: nat, n: nat, a: nat, b: nat, j: nat)
    requires i < |t| && t[i].Some? && t[i].value.start <= from && from + n * PAGE <= t[i].value.End()
  {
    || j == i || (j == a && Left(t[i].value, from).pages > 0) || (j == b && Right(t[i].value, from, n).pages > 0)
  }

  lemma CutAt<T>(t: Table<T>, t': Table<T>, i: nat, from: nat, n: nat, a: nat, b: nat, j: nat, p: nat)
    requires Disjoint(t) && Cut(t, t', i, from, n, a, b) && Inside(t[i].value, from, n) && from % PAGE == 0
    ensures At(t', j, p) && IsPart(t, i, from, n, a, b, j) ==>
              At(t, i, p) && t'[j].value.Shown(p) == t[i].value.Shown(p)
    ensures !IsPart(t, i, from, n, a, b, j) ==> (At(t', j, p) <==> At(t, j, p) && j != i)
    ensures At(t, i, p) ==> exists k: nat :: IsPart(t, i, from, n, a, b, k) && At(t', k, p)
  {
    PartsShow(t[i].value, from, n, p);
    var m := t[i].value;
    if At(t, i, p) {
      var k := if Middle(m, from, n).Covers(p) then i else if Left(m, from).Covers(p) then a else b;
      assert IsPart(t, i, from, n, a, b, k) && At(t', k, p);
    }
  }

  lemma CutOnePart<T>(t: Table<T>, t': Table<T>, i: nat, from: nat, n: nat, a: nat, b: nat, j: nat, k: nat, p: nat)
    requires Disjoint(t) && Cut(t, t', i, from, n, a, b) && Inside(t[i].value, from, n) && from % PAGE == 0
    requires IsPart(t, i, from, n, a, b, j) && IsPart(t, i, from, n, a, b, k) && At(t', j, p) && At(t', k, p)
    ensures j == k
  {
    PartsShow(t[i].value, from, n, p);
  }

  lemma CutDisjoint<T>(t: Table<T>, t': Table<T>, i: nat, from: nat, n: nat, a: nat, b: nat)
    requires Disjoint(t) && Cut(t, t', i, from, n, a, b) && Inside(t[i].value, from, n) && from % PAGE == 0
    ensures Disjoint(t')
  {
    CutWhole(t, t', i, from, n, a, b);
    forall j: nat, k: nat, p: nat | At(t', j, p) && At(t', k, p) ensures j == k {
      CutAt(t, t', i, from, n, a, b, j, p);
      CutAt(t, t', i, from, n, a, b, k, p);
      if IsPart(t, i, from, n, a, b, j) && IsPart(t, i, from, n, a, b, k) {
        CutOnePart(t, t', i, from, n, a, b, j, k, p);
      }
    }
  }

  lemma CutWhole<T>(t: Table<T>, t': Table<T>, i: nat, from: nat, n: nat, a: nat, b: nat)
    requires Disjoint(t) && Cut(t, t', i, from, n, a, b) && Inside(t[i].value, from, n) && from % PAGE == 0
    ensures forall j: nat | j < |t'| && t'[j].Some? :: t'[j].value.Whole()
  {
    PartsShow(t[i].value, from, n, 0);
    forall j: nat | j < |t'| && t'[j].Some? ensures t'[j].value.Whole() {
      if j != i && j != a && j != b {
        assert t'[j] == t[j];
      }
    }
  }

  /** A cut changes nothing that any page shows. */
  lemma CutLook<T>(t: Table<T>, t': Table<T>, i: nat, from: nat, n: nat, a: nat, b: nat, p: nat)
    requires Disjoint(t) && Disjoint(t') && Cut(t, t', i, from, n, a, b) && Inside(t[i].value, from, n)
    requires from % PAGE == 0
    ensures Look(t', p) == Look(t, p)
  {
    CutAt(t, t', i, from, n, a, b, i, p);
    if At(t, i, p) {
      var k: nat :| IsPart(t, i, from, n, a, b, k) && At(t', k, p);
      CutAt(t, t', i, from, n, a, b, k, p);
      LookIs(t', k, p);
      LookIs(t, i, p);
    } else if j: nat :| At(t, j, p) {
      assert j < |t| && t[j].Some?;
      CutAt(t, t', i, from, n, a, b, j, p);
      LookIs(t, j, p);
      LookIs(t', j, p);
    } else if j: nat :| At(t', j, p) {
      CutAt(t, t', i, from, n, a, b, j, p);
    }
  }

  lemma CutUsed<T>(t: Table<T>, t': Table<T>, i: nat, from: nat, n: nat, a: nat, b: nat)
    requires Cut(t, t', i, from, n, a, b)
    ensures Used(t')
            == Used(t) + (if Left(t[i].value, from).pages > 0 then 1 else 0)
              + (if Right(t[i].value, from, n).pages > 0 then 1 else 0)
  {
    var t1 := t[i := t'[i]];
    var t2 := t1[a := t'[a]];
    var t3 := t2[b := t'[b]];
    assert t3 == t';
    UsedSet(t, i, t'[i]);
    UsedSet(t1, a, t'[a]);
    UsedSet(t2, b, t'[b]);
  }
}
