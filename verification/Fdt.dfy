/** A flattened device tree (Devicetree Specification, section 5): the header and the walk
    over the structure block, on any bytes. */
module Fdt {
  import opened Common

  type Byte = x: nat | x < 256

  const MAGIC: nat := 0xd00d_feed
  const HEADER_SIZE: nat := 40
  const BEGIN_NODE: nat := 1
  const END_NODE: nat := 2
  const PROP: nat := 3
  const NOP: nat := 4
  const END: nat := 9
  const MAX_DEPTH: nat := 16

  datatype FdtError =
    | BadMagic | Truncated | UnsupportedVersion(version: nat) | BadToken(token: nat) | BadString | TooDeep

  datatype Event = BeginNode(name: seq<Byte>, depth: nat) | Prop(name: seq<Byte>, value: seq<Byte>) | EndNode

  datatype Blob = Blob(
    data: seq<Byte>, offStruct: nat, sizeStruct: nat, offStrings: nat, sizeStrings: nat, offRsvmap: nat)

  datatype Parsed<+T> = Ok(value: T) | Err(error: FdtError)

  /** The big-endian word at `off`, which lies in the data. */
  function Word(data: seq<Byte>, off: nat): (n: nat)
    requires off + 4 <= |data|
    ensures n < 0x1_0000_0000
  {
    var a: nat, b: nat, c: nat, d: nat := data[off], data[off + 1], data[off + 2], data[off + 3];
    a * 0x100_0000 + b * 0x1_0000 + c * 0x100 + d
  }

  function Align4(x: nat): nat {
    (x + 3) / 4 * 4
  }

  /** The place of the first zero, or the length when there is none. */
  function ZeroAt(s: seq<Byte>): (n: nat)
    ensures n <= |s| && (forall i: nat | i < n :: s[i] != 0) && (n < |s| ==> s[n] == 0)
  {
    if s == [] || s[0] == 0 then 0 else 1 + ZeroAt(s[1..])
  }

  predicate Continues(b: Byte) {
    0x80 <= b <= 0xBF
  }

  /** Well-formed UTF-8 (table 3-7 of the Unicode Standard). */
  predicate IsUtf8(s: seq<Byte>)
    decreases |s|
  {
    if s == [] then true
    else if s[0] < 0x80 then IsUtf8(s[1..])
    else if |s| < 2 then false
    else if 0xC2 <= s[0] <= 0xDF then Continues(s[1]) && IsUtf8(s[2..])
    else if |s| < 3 || !Continues(s[2]) then false
    else if s[0] == 0xE0 then 0xA0 <= s[1] <= 0xBF && IsUtf8(s[3..])
    else if s[0] == 0xED then 0x80 <= s[1] <= 0x9F && IsUtf8(s[3..])
    else if 0xE1 <= s[0] <= 0xEF then Continues(s[1]) && IsUtf8(s[3..])
    else if |s| < 4 || !Continues(s[3]) then false
    else if s[0] == 0xF0 then 0x90 <= s[1] <= 0xBF && IsUtf8(s[4..])
    else if 0xF1 <= s[0] <= 0xF3 then Continues(s[1]) && IsUtf8(s[4..])
    else if s[0] == 0xF4 then 0x80 <= s[1] <= 0x8F && IsUtf8(s[4..])
    else false
  }

  /** The string that a zero ends. */
  function Cstr(s: seq<Byte>): Parsed<seq<Byte>> {
    var n := ZeroAt(s);
    if n == |s| then Err(Truncated)
    else if !IsUtf8(s[..n]) then Err(BadString)
    else Ok(s[..n])
  }

  function TotalSize(header: seq<Byte>): Parsed<nat> {
    if |header| < 4 then Err(Truncated)
    else if Word(header, 0) != MAGIC then Err(BadMagic)
    else if |header| < 8 || Word(header, 4) < HEADER_SIZE then Err(Truncated)
    else Ok(Word(header, 4))
  }

  /** Every part of an accepted blob lies inside it. */
  function New(bytes: seq<Byte>): (r: Parsed<Blob>)
    ensures r.Ok? ==>
      && HEADER_SIZE <= |r.value.data| <= |bytes| && r.value.data == bytes[..|r.value.data|]
      && r.value.offStruct + r.value.sizeStruct <= |r.value.data|
      && r.value.offStrings + r.value.sizeStrings <= |r.value.data| && r.value.offRsvmap < |r.value.data|
  {
    var total := TotalSize(bytes);
    if total.Err? then Err(total.error)
    else if total.value > |bytes| then Err(Truncated)
    else
      var data := bytes[..total.value];
      if Word(data, 20) < 17 then Err(UnsupportedVersion(Word(data, 20)))
      else
        var b := Blob(data, Word(data, 8), Word(data, 36), Word(data, 12), Word(data, 32), Word(data, 16));
        if b.offStruct + b.sizeStruct > total.value || b.offStrings + b.sizeStrings > total.value
          || b.offRsvmap >= total.value
        then Err(Truncated)
        else Ok(b)
  }

  /** The header names its blob: the magic word, and a size of at least the header's that
      the bytes have. */
  predicate Sized(bytes: seq<Byte>) {
    |bytes| >= 8 && Word(bytes, 0) == 0xd00d_feed && 40 <= Word(bytes, 4) <= |bytes|
  }

  /** The parts that the header names lie in the blob. */
  predicate PartsInside(bytes: seq<Byte>)
    requires Sized(bytes)
  {
    && Word(bytes, 8) + Word(bytes, 36) <= Word(bytes, 4) && Word(bytes, 12) + Word(bytes, 32) <= Word(bytes, 4)
    && Word(bytes, 16) < Word(bytes, 4)
  }

  lemma WordOfPrefix(bytes: seq<Byte>, total: nat, off: nat)
    requires off + 4 <= total <= |bytes|
    ensures Word(bytes[..total], off) == Word(bytes, off)
  {
  }

  /** Each answer of `new`, told from the words of the header. */
  lemma NewIff(bytes: seq<Byte>)
    ensures New(bytes) == Err(BadMagic) <==> |bytes| >= 4 && Word(bytes, 0) != 0xd00d_feed
    ensures forall v: nat :: New(bytes) == Err(UnsupportedVersion(v)) <==>
              Sized(bytes) && v == Word(bytes, 20) < 17
    ensures New(bytes).Ok? <==> Sized(bytes) && Word(bytes, 20) >= 17 && PartsInside(bytes)
    ensures New(bytes).Ok? ==>
              New(bytes).value == Blob(bytes[..Word(bytes, 4)], Word(bytes, 8), Word(bytes, 36),
                                       Word(bytes, 12), Word(bytes, 32), Word(bytes, 16))
    ensures New(bytes) == Err(Truncated) <==>
            || |bytes| < 4
            || (Word(bytes, 0) == 0xd00d_feed && !Sized(bytes))
            || (Sized(bytes) && Word(bytes, 20) >= 17 && !PartsInside(bytes))
  {
    hide Word;
    if Sized(bytes) {
      var total := Word(bytes, 4);
      WordOfPrefix(bytes, total, 8);
      WordOfPrefix(bytes, total, 12);
      WordOfPrefix(bytes, total, 16);
      WordOfPrefix(bytes, total, 20);
      WordOfPrefix(bytes, total, 32);
      WordOfPrefix(bytes, total, 36);
    }
  }

  // ----- the walk -----

  /** What a walk gave, and how it ended. */
  datatype Walked = Walked(events: seq<Event>, error: Option<FdtError>)

  function Stop(e: FdtError): Walked {
    Walked([], Some(e))
  }

  function Then(e: Event, w: Walked): Walked {
    Walked([e] + w.events, w.error)
  }

  /** The name of a property: a string of the strings block. */
  function PropName(strings: seq<Byte>, off: nat): Parsed<seq<Byte>> {
    if off > |strings| then Err(BadString) else Cstr(strings[off..])
  }

  /** The walk from a token on. */
  function WalkFrom(data: seq<Byte>, off: nat, end: nat, strings: seq<Byte>, depth: nat): Walked
    requires end <= |data|
    decreases end + 4 - off
  {
    if off + 4 > end then Stop(Truncated)
    else
      var token, o := Word(data, off), off + 4;
      if token == BEGIN_NODE then
        var name := Cstr(data[o..end]);
        if name.Err? then Stop(name.error)
        else if depth + 1 > MAX_DEPTH then Stop(TooDeep)
        else Then(BeginNode(name.value, depth + 1),
                  WalkFrom(data, Align4(o + |name.value| + 1), end, strings, depth + 1))
      else if token == END_NODE then
        if depth == 0 then Stop(BadToken(token)) else Then(EndNode, WalkFrom(data, o, end, strings, depth - 1))
      else if token == PROP then
        if o + 8 > end then Stop(Truncated)
        else if o + 8 + Word(data, o) > end then Stop(Truncated)
        else
          var name := PropName(strings, Word(data, o + 4));
          var stop := o + 8 + Word(data, o);
          if name.Err? then Stop(name.error)
          else Then(Prop(name.value, data[o + 8..stop]), WalkFrom(data, Align4(stop), end, strings, depth))
      else if token == NOP then WalkFrom(data, o, end, strings, depth)
      else if token == END then if depth == 0 then Walked([], None) else Stop(Truncated)
      else Stop(BadToken(token))
  }

  /** The depth after the events, when they nest from depth `d` on; names and depths agree. */
  predicate Nests(es: seq<Event>, d: nat)
  {
    if es == [] then d == 0
    else match es[0]
      case BeginNode(_, depth) => depth == d + 1 && depth <= MAX_DEPTH && Nests(es[1..], d + 1)
      case EndNode => d > 0 && Nests(es[1..], d - 1)
      case Prop(_, _) => Nests(es[1..], d)
  }

  /** What a first event does to the nesting. */
  predicate NestsFirst(e: Event, es: seq<Event>, d: nat) {
    match e
    case BeginNode(_, depth) => depth == d + 1 && depth <= MAX_DEPTH && Nests(es, d + 1)
    case EndNode => d > 0 && Nests(es, d - 1)
    case Prop(_, _) => Nests(es, d)
  }

  lemma NestsThen(e: Event, es: seq<Event>, d: nat)
    ensures Nests([e] + es, d) <==> NestsFirst(e, es, d)
  {
    assert ([e] + es)[1..] == es;
  }

  /** Names are strings without zeros. */
  predicate GoodName(name: seq<Byte>) {
    IsUtf8(name) && forall i: nat | i < |name| :: name[i] != 0
  }

  predicate GoodNames(es: seq<Event>) {
    forall i: nat | i < |es| && !es[i].EndNode? :: GoodName(es[i].name)
  }

  /** As Nests, but the events may end at any depth. */
  predicate NestsSoFar(es: seq<Event>, d: nat)
  {
    if es == [] then true
    else match es[0]
      case BeginNode(_, depth) => depth == d + 1 && depth <= MAX_DEPTH && NestsSoFar(es[1..], d + 1)
      case EndNode => d > 0 && NestsSoFar(es[1..], d - 1)
      case Prop(_, _) => NestsSoFar(es[1..], d)
  }

  predicate SoFarFirst(e: Event, es: seq<Event>, d: nat) {
    match e
    case BeginNode(_, depth) => depth == d + 1 && depth <= MAX_DEPTH && NestsSoFar(es, d + 1)
    case EndNode => d > 0 && NestsSoFar(es, d - 1)
    case Prop(_, _) => NestsSoFar(es, d)
  }

  lemma SoFarThen(e: Event, es: seq<Event>, d: nat)
    requires SoFarFirst(e, es, d) && GoodNames(es) && (!e.EndNode? ==> GoodName(e.name))
    ensures NestsSoFar([e] + es, d) && GoodNames([e] + es)
  {
    hide GoodName;
    assert ([e] + es)[1..] == es;
    forall i: nat | i < |[e] + es| && !([e] + es)[i].EndNode? ensures GoodName(([e] + es)[i].name) {
      if i > 0 {
        assert ([e] + es)[i] == es[i - 1];
      }
    }
  }

  lemma CstrGood(s: seq<Byte>)
    ensures Cstr(s).Ok? ==> GoodName(Cstr(s).value)
  {
  }

  /** Whatever the bytes, and however the walk ends, the events it gave nest: no node ends
      that did not begin, each begins one deeper than the last open one, none deeper than
      MAX_DEPTH, and every name is a string. */
  lemma {:induction false} WalkNests(data: seq<Byte>, off: nat, end: nat, strings: seq<Byte>, depth: nat)
    requires end <= |data|
    ensures var events := WalkFrom(data, off, end, strings, depth).events;
              NestsSoFar(events, depth) && GoodNames(events)
    decreases end + 4 - off, 1
  {
    hide Cstr, Word, NestsSoFar, GoodNames, GoodName;
    NoEvents(depth);
    if off + 4 <= end {
      var token, o := Word(data, off), off + 4;
      if token == BEGIN_NODE {
        BeginNests(data, off, end, strings, depth);
      } else if token == END_NODE && depth > 0 {
        WalkNests(data, o, end, strings, depth - 1);
        SoFarThen(EndNode, WalkFrom(data, o, end, strings, depth - 1).events, depth);
      } else if token == PROP {
        PropNests(data, off, end, strings, depth);
      } else if token == NOP {
        WalkNests(data, o, end, strings, depth);
      }
    }
  }

  lemma NoEvents(depth: nat)
    ensures NestsSoFar([], depth) && GoodNames([])
  {
  }

  lemma {:induction false} BeginNests(data: seq<Byte>, off: nat, end: nat, strings: seq<Byte>, depth: nat)
    requires off + 4 <= end <= |data| && Word(data, off) == BEGIN_NODE
    ensures var events := WalkFrom(data, off, end, strings, depth).events;
              NestsSoFar(events, depth) && GoodNames(events)
    decreases end + 4 - off, 0
  {
    hide Cstr, Word, NestsSoFar, GoodNames, GoodName;
    NoEvents(depth);
    var o := off + 4;
    var name := Cstr(data[o..end]);
    if name.Ok? && depth + 1 <= MAX_DEPTH {
      var next := Align4(o + |name.value| + 1);
      WalkNests(data, next, end, strings, depth + 1);
      CstrGood(data[o..end]);
      SoFarThen(BeginNode(name.value, depth + 1), WalkFrom(data, next, end, strings, depth + 1).events, depth);
    }
  }

  lemma {:induction false} PropNests(data: seq<Byte>, off: nat, end: nat, strings: seq<Byte>, depth: nat)
    requires off + 4 <= end <= |data| && Word(data, off) == PROP
    ensures var events := WalkFrom(data, off, end, strings, depth).events;
              NestsSoFar(events, depth) && GoodNames(events)
    decreases end + 4 - off, 0
  {
    hide Cstr, Word, NestsSoFar, GoodNames, GoodName;
    NoEvents(depth);
    var o := off + 4;
    if o + 8 <= end && o + 8 + Word(data, o) <= end {
      var nameoff, stop := Word(data, o + 4), o + 8 + Word(data, o);
      var name := PropName(strings, nameoff);
      if name.Ok? {
        WalkNests(data, Align4(stop), end, strings, depth);
        CstrGood(strings[nameoff..]);
        SoFarThen(Prop(name.value, data[o + 8..stop]), WalkFrom(data, Align4(stop), end, strings, depth).events, depth);
      }
    }
  }

  /** A walk that ends well gave balanced events, whatever the bytes. */
  lemma {:induction false} WalkBalances(data: seq<Byte>, off: nat, end: nat, strings: seq<Byte>, depth: nat)
    requires end <= |data| && WalkFrom(data, off, end, strings, depth).error.None?
    ensures Nests(WalkFrom(data, off, end, strings, depth).events, depth)
    decreases end + 4 - off
  {
    hide Cstr, PropName, Word;
    var token, o := Word(data, off), off + 4;
    if token == BEGIN_NODE {
      var name := Cstr(data[o..end]).value;
      var next := Align4(o + |name| + 1);
      WalkBalances(data, next, end, strings, depth + 1);
      NestsThen(BeginNode(name, depth + 1), WalkFrom(data, next, end, strings, depth + 1).events, depth);
    } else if token == END_NODE {
      WalkBalances(data, o, end, strings, depth - 1);
      NestsThen(EndNode, WalkFrom(data, o, end, strings, depth - 1).events, depth);
    } else if token == PROP {
      var stop := o + 8 + Word(data, o);
      WalkBalances(data, Align4(stop), end, strings, depth);
      NestsThen(Prop(PropName(strings, Word(data, o + 4)).value, data[o + 8..stop]),
                WalkFrom(data, Align4(stop), end, strings, depth).events, depth);
    } else if token == NOP {
      WalkBalances(data, o, end, strings, depth);
    }
  }

  function Join(es: seq<Event>, w: Walked): Walked {
    Walked(es + w.events, w.error)
  }

  lemma JoinThen(es: seq<Event>, e: Event, w: Walked)
    ensures Join(es, Then(e, w)) == Join(es + [e], w)
  {
  }

  /** What one token does: the walk is over, or it goes on, perhaps with an event. */
  datatype Turn = Over(error: Option<FdtError>) | Go(event: Option<Event>, off: nat, depth: nat)

  function Rest(t: Turn, data: seq<Byte>, end: nat, strings: seq<Byte>): Walked
    requires end <= |data|
  {
    match t
    case Over(error) => Walked([], error)
    case Go(None, off, depth) => WalkFrom(data, off, end, strings, depth)
    case Go(Some(e), off, depth) => Then(e, WalkFrom(data, off, end, strings, depth))
  }

  /** One turn of the loop: every read lies in the structure block or the strings. */
  method Token(data: seq<Byte>, from: nat, end: nat, strings: seq<Byte>, depth: nat) returns (t: Turn)
    requires end <= |data|
    ensures WalkFrom(data, from, end, strings, depth) == Rest(t, data, end, strings)
    ensures t.Go? ==> from < t.off && from + 4 <= end
  {
    if from + 4 > end {
      return Over(Some(Truncated));
    }
    var token := Word(data, from);
    var off := from + 4;
    if token == BEGIN_NODE {
      var name := Cstr(data[off..end]);
      if name.Err? {
        return Over(Some(name.error));
      }
      off := Align4(off + |name.value| + 1);
      if depth + 1 > MAX_DEPTH {
        return Over(Some(TooDeep));
      }
      return Go(Some(BeginNode(name.value, depth + 1)), off, depth + 1);
    } else if token == END_NODE {
      if depth == 0 {
        return Over(Some(BadToken(token)));
      }
      return Go(Some(EndNode), off, depth - 1);
    } else if token == PROP {
      t := PropToken(data, off, end, strings, depth);
    } else if token == NOP {
      return Go(None, off, depth);
    } else if token == END {
      return Over(if depth == 0 then None else Some(Truncated));
    } else {
      return Over(Some(BadToken(token)));
    }
  }

  method PropToken(data: seq<Byte>, from: nat, end: nat, strings: seq<Byte>, depth: nat) returns (t: Turn)
    requires 4 <= from <= end <= |data| && Word(data, from - 4) == PROP
    ensures WalkFrom(data, from - 4, end, strings, depth) == Rest(t, data, end, strings)
    ensures t.Go? ==> from <= t.off
  {
    if from + 8 > end {
      return Over(Some(Truncated));
    }
    var len, nameoff := Word(data, from), Word(data, from + 4);
    var off := from + 8;
    var stop := off + len;
    if stop > end {
      return Over(Some(Truncated));
    }
    var name := PropName(strings, nameoff);
    if name.Err? {
      return Over(Some(name.error));
    }
    t := Go(Some(Prop(name.value, data[off..stop])), Align4(stop), depth);
  }

  /** The loop over the tokens: it stays in the blob and ends; its events nest, and on
      success they are balanced. */
  method Walk(b: Blob) returns (w: Walked)
    requires b.offStruct + b.sizeStruct <= |b.data| && b.offStrings + b.sizeStrings <= |b.data|
    ensures w
            == WalkFrom(b.data, b.offStruct, b.offStruct + b.sizeStruct,
                        b.data[b.offStrings..b.offStrings + b.sizeStrings], 0)
    ensures NestsSoFar(w.events, 0) && GoodNames(w.events) && (w.error.None? ==> Nests(w.events, 0))
  {
    hide WalkFrom, Nests, NestsSoFar, GoodNames;
    var data, end := b.data, b.offStruct + b.sizeStruct;
    var strings := data[b.offStrings..b.offStrings + b.sizeStrings];
    var off, depth := b.offStruct, 0;
    var out: seq<Event> := [];
    ghost var whole := WalkFrom(data, off, end, strings, 0);
    WalkNests(data, off, end, strings, 0);
    if whole.error.None? {
      WalkBalances(data, off, end, strings, 0);
    }
    while true
      invariant Join(out, WalkFrom(data, off, end, strings, depth)) == whole
      decreases end + 4 - off
    {
      var t := Token(data, off, end, strings, depth);
      if t.Over? {
        return Walked(out, t.error);
      }
      if t.event.Some? {
        JoinThen(out, t.event.value, WalkFrom(data, t.off, end, strings, t.depth));
        out := out + [t.event.value];
      }
      off, depth := t.off, t.depth;
    }
  }
}
