/** The writer of blobs, and the round trip through the walker. */
module FdtBuilder {
  import opened Common
  import opened Arithmetic
  import opened Fdt

  /** A word as four bytes, most significant first. */
  function Be(n: nat): (s: seq<Byte>)
    requires n < 0x1_0000_0000
    ensures |s| == 4
  {
    [n / 0x100_0000, n / 0x1_0000 % 0x100, n / 0x100 % 0x100, n % 0x100]
  }

  lemma BeWord(n: nat)
    requires n < 0x1_0000_0000
    ensures Word(Be(n), 0) == n
  {
    assert n / 0x1_0000 == n / 0x100_0000 * 0x100 + n / 0x1_0000 % 0x100;
    assert n / 0x100 == n / 0x1_0000 * 0x100 + n / 0x100 % 0x100;
    assert n == n / 0x100 * 0x100 + n % 0x100;
  }

  /** A word is read where it stands. */
  lemma WordAt(data: seq<Byte>, off: nat, end: nat, n: nat, rest: seq<Byte>)
    requires n < 0x1_0000_0000 && off <= end <= |data| && data[off..end] == Be(n) + rest
    ensures off + 4 <= end && Word(data, off) == n && data[off + 4..end] == rest
  {
    BeWord(n);
    var s := data[off..end];
    assert |s| == 4 + |rest|;
    assert forall k: nat | k < 4 :: data[off + k] == s[k] == Be(n)[k];
    assert data[off + 4..end] == s[4..] == rest;
  }

  function Zeros(n: nat): (s: seq<Byte>)
    ensures |s| == n
  {
    seq(n, _ => 0)
  }

  /** Zeros up to a multiple of four. */
  function Pad(len: nat): nat {
    Align4(len) - len
  }

  lemma AlignedPad(off: nat, len: nat)
    requires off % 4 == 0
    ensures Align4(off + len) == off + len + Pad(len) && (off + len + Pad(len)) % 4 == 0
  {
    var q, c := off / 4, (len + 3) / 4;
    ModUnique(off + len + 3, q + c, (len + 3) % 4, 4);
    assert Align4(off + len) == 4 * (q + c) && Align4(len) == 4 * c;
    ModUnique(4 * (q + c), q + c, 0, 4);
  }

  /** The bytes of one event in the structure block; `strings` is how long the strings block
      was when it was written. */
  function One(e: Event, strings: nat): seq<Byte>
    requires strings < 0x1_0000_0000 && (e.Prop? ==> |e.value| < 0x1_0000_0000)
  {
    match e
    case BeginNode(name, _) => Be(BEGIN_NODE) + name + [0] + Zeros(Pad(|name| + 1))
    case EndNode => Be(END_NODE)
    case Prop(_, value) => Be(PROP) + Be(|value|) + Be(strings) + value + Zeros(Pad(|value|))
  }

  /** What an event adds to the strings block. */
  function Name(e: Event): seq<Byte> {
    if e.Prop? then e.name + [0] else []
  }

  predicate Fits(es: seq<Event>, strings: nat) {
    if es == [] then strings < 0x1_0000_0000
    else
      && strings < 0x1_0000_0000 && (es[0].Prop? ==> |es[0].value| < 0x1_0000_0000)
      && Fits(es[1..], strings + |Name(es[0])|)
  }

  function Structure(es: seq<Event>, strings: nat): seq<Byte>
    requires Fits(es, strings)
  {
    if es == [] then [] else One(es[0], strings) + Structure(es[1..], strings + |Name(es[0])|)
  }

  function Strings(es: seq<Event>): seq<Byte> {
    if es == [] then [] else Name(es[0]) + Strings(es[1..])
  }

  lemma CstrOf(name: seq<Byte>, rest: seq<Byte>)
    requires GoodName(name)
    ensures Cstr(name + [0] + rest) == Ok(name)
  {
    var s := name + [0] + rest;
    var n := ZeroAt(s);
    assert s[|name|] == 0 && forall i: nat | i < |name| :: s[i] == name[i];
    assert n == |name| && s[..n] == name;
  }

  // ----- one event back -----

  lemma BeginBack(data: seq<Byte>, off: nat, end: nat, name: seq<Byte>, rest: seq<Byte>)
    requires off <= end <= |data| && off % 4 == 0 && GoodName(name)
    requires data[off..end] == Be(BEGIN_NODE) + name + [0] + Zeros(Pad(|name| + 1)) + rest
    ensures off + 4 <= end && Word(data, off) == BEGIN_NODE && Cstr(data[off + 4..end]) == Ok(name)
    ensures var next := Align4(off + 4 + |name| + 1); next <= end && next % 4 == 0 && data[next..end] == rest
  {
    var tail := name + [0] + Zeros(Pad(|name| + 1)) + rest;
    assert data[off..end] == Be(BEGIN_NODE) + tail;
    WordAt(data, off, end, BEGIN_NODE, tail);
    CstrOf(name, Zeros(Pad(|name| + 1)) + rest);
    assert tail == name + [0] + (Zeros(Pad(|name| + 1)) + rest);
    AlignedPad(off + 4, |name| + 1);
    var k := |name| + 1 + Pad(|name| + 1);
    assert data[off + 4..end][k..] == tail[k..] == rest;
    assert data[off + 4 + k..end] == data[off + 4..end][k..];
  }

  lemma PropBack(data: seq<Byte>, off: nat, end: nat, value: seq<Byte>, nameoff: nat, rest: seq<Byte>)
    requires off <= end <= |data| && off % 4 == 0 && |value| < 0x1_0000_0000 && nameoff < 0x1_0000_0000
    requires data[off..end] == Be(PROP) + Be(|value|) + Be(nameoff) + value + Zeros(Pad(|value|)) + rest
    ensures off + 12 + |value| <= end && Word(data, off) == PROP && Word(data, off + 4) == |value|
    ensures Word(data, off + 8) == nameoff
    ensures data[off + 12..off + 12 + |value|] == value
    ensures var next := Align4(off + 12 + |value|); next <= end && next % 4 == 0 && data[next..end] == rest
  {
    hide Word, Be, Zeros, Pad;
    var t3 := value + Zeros(Pad(|value|)) + rest;
    var t2 := Be(nameoff) + t3;
    var t1 := Be(|value|) + t2;
    assert data[off..end] == Be(PROP) + t1;
    WordAt(data, off, end, PROP, t1);
    WordAt(data, off + 4, end, |value|, t2);
    WordAt(data, off + 8, end, nameoff, t3);
    AlignedPad(off + 12, |value|);
    TailParts(data, off + 12, end, value, Zeros(Pad(|value|)), rest);
  }

  lemma TailParts(data: seq<Byte>, off: nat, end: nat, value: seq<Byte>, zeros: seq<Byte>, rest: seq<Byte>)
    requires off <= end <= |data| && data[off..end] == value + zeros + rest
    ensures off + |value| + |zeros| <= end && data[off..off + |value|] == value
    ensures data[off + |value| + |zeros|..end] == rest
  {
    var s := data[off..end];
    assert s[..|value|] == value && s[|value| + |zeros|..] == rest;
    assert data[off..off + |value|] == s[..|value|];
    assert data[off + |value| + |zeros|..end] == s[|value| + |zeros|..];
  }

  // ----- the round trip -----

  lemma StringsTail(strings: seq<Byte>, so: nat, es: seq<Event>)
    requires so <= |strings| && es != [] && strings[so..] == Strings(es)
    ensures so + |Name(es[0])| <= |strings| && strings[so + |Name(es[0])|..] == Strings(es[1..])
  {
    var n := |Name(es[0])|;
    assert strings[so..][n..] == Strings(es)[n..] == Strings(es[1..]);
    assert strings[so + n..] == strings[so..][n..];
  }

  // What one token makes of the walk.

  lemma OnBegin(data: seq<Byte>, off: nat, end: nat, strings: seq<Byte>, depth: nat, name: seq<Byte>)
    requires off + 4 <= end <= |data| && Word(data, off) == BEGIN_NODE && Cstr(data[off + 4..end]) == Ok(name)
    requires depth + 1 <= MAX_DEPTH
    ensures WalkFrom(data, off, end, strings, depth)
            == Then(BeginNode(name, depth + 1), WalkFrom(data, Align4(off + 4 + |name| + 1), end, strings, depth + 1))
  {
  }

  lemma OnEnd(data: seq<Byte>, off: nat, end: nat, strings: seq<Byte>, depth: nat)
    requires off + 4 <= end <= |data| && Word(data, off) == END_NODE && depth > 0
    ensures WalkFrom(data, off, end, strings, depth) == Then(EndNode, WalkFrom(data, off + 4, end, strings, depth - 1))
  {
  }

  lemma OnProp(data: seq<Byte>, off: nat, end: nat, strings: seq<Byte>, depth: nat, name: seq<Byte>, value: seq<Byte>,
               nameoff: nat)
    requires off + 12 + |value| <= end <= |data| && Word(data, off) == PROP && Word(data, off + 4) == |value|
    requires Word(data, off + 8) == nameoff
    requires data[off + 12..off + 12 + |value|] == value && PropName(strings, nameoff) == Ok(name)
    ensures WalkFrom(data, off, end, strings, depth)
            == Then(Prop(name, value), WalkFrom(data, Align4(off + 12 + |value|), end, strings, depth))
  {
  }

  /** The walk over what was written for balanced events gives those events. */
  lemma {:induction false} WalkBack(data: seq<Byte>, off: nat, end: nat, strings: seq<Byte>, so: nat, es: seq<Event>,
                                    depth: nat)
    requires off <= end <= |data| && off % 4 == 0 && so <= |strings|
    requires Nests(es, depth) && GoodNames(es) && Fits(es, so)
    requires data[off..end] == Structure(es, so) + Be(END) && strings[so..] == Strings(es)
    ensures WalkFrom(data, off, end, strings, depth) == Walked(es, None)
    decreases |es|
  {
    if es == [] {
      assert data[off..end] == Be(END) + [];
      WordAt(data, off, end, END, []);
    } else {
      var e, more := es[0], es[1..];
      var rest := Structure(more, so + |Name(e)|) + Be(END);
      assert es == [e] + more;
      NestsThen(e, more, depth);
      StringsTail(strings, so, es);
      assert data[off..end] == One(e, so) + rest;
      GoodRest(es);
      WalkBackStep(data, off, end, strings, so, e, more, rest, depth);
    }
  }

  lemma GoodRest(es: seq<Event>)
    requires es != [] && GoodNames(es)
    ensures GoodNames(es[1..]) && (!es[0].EndNode? ==> GoodName(es[0].name))
  {
    forall i: nat | i < |es[1..]| && !es[1..][i].EndNode? ensures GoodName(es[1..][i].name) {
      assert es[1..][i] == es[i + 1];
    }
  }

  lemma {:induction false} WalkBackStep(data: seq<Byte>, off: nat, end: nat, strings: seq<Byte>, so: nat, e: Event,
                                        more: seq<Event>, rest: seq<Byte>, depth: nat)
    requires off <= end <= |data| && off % 4 == 0 && so < 0x1_0000_0000 && so + |Name(e)| <= |strings|
    requires NestsFirst(e, more, depth) && GoodNames(more) && (!e.EndNode? ==> GoodName(e.name))
    requires Fits(more, so + |Name(e)|)
    requires e.Prop? ==> |e.value| < 0x1_0000_0000
    requires rest == Structure(more, so + |Name(e)|) + Be(END) && data[off..end] == One(e, so) + rest
    requires strings[so..] == Name(e) + Strings(more) && strings[so + |Name(e)|..] == Strings(more)
    ensures WalkFrom(data, off, end, strings, depth) == Walked([e] + more, None)
    decreases |more| + 1, 0
  {
    hide WalkFrom, Structure, Strings, Fits, Nests, GoodNames, Cstr, Word, Align4, Pad;
    match e
    case BeginNode(name, d) =>
      BeginBack(data, off, end, name, rest);
      WalkBack(data, Align4(off + 4 + |name| + 1), end, strings, so, more, depth + 1);
      OnBegin(data, off, end, strings, depth, name);
    case EndNode =>
      WordAt(data, off, end, END_NODE, rest);
      WalkBack(data, off + 4, end, strings, so, more, depth - 1);
      OnEnd(data, off, end, strings, depth);
    case Prop(name, value) =>
      PropBack(data, off, end, value, so, rest);
      CstrOf(name, Strings(more));
      WalkBack(data, Align4(off + 12 + |value|), end, strings, so + |name| + 1, more, depth);
      OnProp(data, off, end, strings, depth, name, value, so);
  }

  // ----- the whole blob -----

  function Words(ws: seq<nat>): (s: seq<Byte>)
    requires forall i: nat | i < |ws| :: ws[i] < 0x1_0000_0000
    ensures |s| == 4 * |ws|
  {
    if ws == [] then [] else Be(ws[0]) + Words(ws[1..])
  }

  lemma {:induction false} WordsAt(data: seq<Byte>, off: nat, ws: seq<nat>, rest: seq<Byte>, k: nat)
    requires forall i: nat | i < |ws| :: ws[i] < 0x1_0000_0000
    requires off <= |data| && data[off..] == Words(ws) + rest && k < |ws|
    ensures off + 4 * k + 4 <= |data| && Word(data, off + 4 * k) == ws[k]
    decreases k
  {
    var tail := Words(ws[1..]) + rest;
    assert data[off..|data|] == Be(ws[0]) + tail;
    WordAt(data, off, |data|, ws[0], tail);
    if k > 0 {
      assert data[off + 4..] == data[off + 4..|data|];
      WordsAt(data, off + 4, ws[1..], rest, k - 1);
    }
  }

  const STRUCT_AT: nat := 56

  function Size(structure: seq<Byte>, strings: seq<Byte>): nat {
    STRUCT_AT + |structure| + |strings|
  }

  /** finish: the header, an empty reservation block, the structure and the strings. */
  function Finish(structure: seq<Byte>, strings: seq<Byte>): (blob: seq<Byte>)
    requires Size(structure, strings) < 0x1_0000_0000
    ensures |blob| == Size(structure, strings)
  {
    Words([MAGIC, Size(structure, strings), STRUCT_AT, STRUCT_AT + |structure|,
           HEADER_SIZE, 17, 16, 0, |strings|, |structure|])
    + Zeros(16) + structure + strings
  }

  lemma HeaderWord(structure: seq<Byte>, strings: seq<Byte>, k: nat)
    requires Size(structure, strings) < 0x1_0000_0000 && k < 10
    ensures Word(Finish(structure, strings), 4 * k) ==
            [MAGIC, Size(structure, strings), STRUCT_AT, STRUCT_AT + |structure|,
             HEADER_SIZE, 17, 16, 0, |strings|, |structure|][k]
  {
    var ws := [MAGIC, Size(structure, strings), STRUCT_AT, STRUCT_AT + |structure|,
               HEADER_SIZE, 17, 16, 0, |strings|, |structure|];
    var blob := Finish(structure, strings);
    assert blob[0..] == blob == Words(ws) + (Zeros(16) + structure + strings);
    WordsAt(blob, 0, ws, Zeros(16) + structure + strings, k);
  }

  /** The reader accepts the blob and finds its parts. */
  lemma HeaderBack(structure: seq<Byte>, strings: seq<Byte>)
    requires Size(structure, strings) < 0x1_0000_0000
    ensures New(Finish(structure, strings))
            == Ok(Blob(Finish(structure, strings), STRUCT_AT, |structure|,
                       STRUCT_AT + |structure|, |strings|, HEADER_SIZE))
  {
    var blob := Finish(structure, strings);
    hide Finish, Word;
    HeaderWord(structure, strings, 0);
    HeaderWord(structure, strings, 1);
    HeaderWord(structure, strings, 2);
    HeaderWord(structure, strings, 3);
    HeaderWord(structure, strings, 4);
    HeaderWord(structure, strings, 5);
    HeaderWord(structure, strings, 8);
    HeaderWord(structure, strings, 9);
    assert blob[..|blob|] == blob;
  }

  lemma PartsBack(structure: seq<Byte>, strings: seq<Byte>)
    requires Size(structure, strings) < 0x1_0000_0000
    ensures var blob := Finish(structure, strings); var at := STRUCT_AT + |structure|;
            blob[STRUCT_AT..at] == structure && blob[at..at + |strings|] == strings
  {
  }

  /** The blob of an event list. */
  function Built(es: seq<Event>): seq<Byte>
    requires Fits(es, 0) && Size(Structure(es, 0) + Be(END), Strings(es)) < 0x1_0000_0000
  {
    Finish(Structure(es, 0) + Be(END), Strings(es))
  }

  /** Walking the blob built from balanced events gives those events. */
  lemma RoundTrip(es: seq<Event>)
    requires Nests(es, 0) && GoodNames(es) && Fits(es, 0)
    requires Size(Structure(es, 0) + Be(END), Strings(es)) < 0x1_0000_0000
    ensures New(Built(es)).Ok?
    ensures var b := New(Built(es)).value;
            WalkFrom(b.data, b.offStruct, b.offStruct + b.sizeStruct,
                     b.data[b.offStrings..b.offStrings + b.sizeStrings], 0) == Walked(es, None)
  {
    hide Structure, Strings, Finish, WalkFrom, Nests, GoodNames, Fits, New, Be;
    var structure, strings := Structure(es, 0) + Be(END), Strings(es);
    HeaderBack(structure, strings);
    PartsBack(structure, strings);
    var blob := Finish(structure, strings);
    assert strings[0..] == strings;
    WalkBack(blob, STRUCT_AT, STRUCT_AT + |structure|, strings, 0, es, 0);
  }

  // ----- the builder -----

  lemma {:induction false} StringsMore(es: seq<Event>, e: Event)
    ensures Strings(es + [e]) == Strings(es) + Name(e)
    decreases |es|
  {
    var l := es + [e];
    if es == [] {
      assert l == [e];
    } else {
      assert l[0] == es[0] && l[1..] == es[1..] + [e];
      StringsMore(es[1..], e);
    }
  }

  lemma {:induction false} FitsMore(es: seq<Event>, e: Event, so: nat)
    requires Fits(es, so) && Fits([e], so + |Strings(es)|)
    ensures Fits(es + [e], so)
    decreases |es|
  {
    hide Name;
    var l := es + [e];
    if es == [] {
      assert l == [e];
    } else {
      assert l[0] == es[0] && l[1..] == es[1..] + [e];
      FitsMore(es[1..], e, so + |Name(es[0])|);
    }
  }

  lemma {:induction false} StructureMore(es: seq<Event>, e: Event, so: nat, at: nat)
    requires Fits(es, so) && at == so + |Strings(es)| && Fits([e], at) && Fits(es + [e], so)
    ensures Structure(es + [e], so) == Structure(es, so) + One(e, at)
    decreases |es|
  {
    hide One, Name;
    var l := es + [e];
    if es == [] {
      assert l == [e] && l[1..] == [];
    } else {
      assert l[0] == es[0] && l[1..] == es[1..] + [e];
      StructureMore(es[1..], e, so + |Name(es[0])|, at);
    }
  }

  lemma OneLength(e: Event, so: nat)
    requires so < 0x1_0000_0000 && (e.Prop? ==> |e.value| < 0x1_0000_0000)
    ensures |One(e, so)| % 4 == 0
  {
    match e
    case BeginNode(name, _) => AlignedPad(4, |name| + 1);
    case EndNode =>
    case Prop(_, value) => AlignedPad(12, |value|);
  }

  lemma {:induction false} LengthAligned(es: seq<Event>, so: nat)
    requires Fits(es, so)
    ensures |Structure(es, so)| % 4 == 0
    decreases |es|
  {
    hide One, Name;
    if es != [] {
      OneLength(es[0], so);
      LengthAligned(es[1..], so + |Name(es[0])|);
    }
  }

  lemma {:induction false} FitsBound(es: seq<Event>, so: nat)
    requires Fits(es, so)
    ensures so + |Strings(es)| < 0x1_0000_0000
    decreases |es|
  {
    hide Name;
    if es != [] {
      FitsBound(es[1..], so + |Name(es[0])|);
    }
  }

  /** What one more event adds to both blocks. */
  lemma OneMore(es: seq<Event>, e: Event, structure: seq<Byte>, strings: seq<Byte>)
    requires Fits(es, 0) && structure == Structure(es, 0) && strings == Strings(es)
    requires e.Prop? ==> |e.value| < 0x1_0000_0000 && |strings| + |e.name| + 1 < 0x1_0000_0000
    ensures |strings| < 0x1_0000_0000 && |structure| % 4 == 0 && Fits(es + [e], 0)
    ensures Structure(es + [e], 0) == structure + One(e, |strings|) && Strings(es + [e]) == strings + Name(e)
  {
    FitsBound(es, 0);
    LengthAligned(es, 0);
    assert Fits([e], |strings|);
    hide Fits, Structure, Strings, One, Name;
    FitsMore(es, e, 0);
    StructureMore(es, e, 0, |strings|);
    StringsMore(es, e);
  }

  lemma BeginBytes(was: seq<Byte>, name: seq<Byte>, depth: nat, strings: nat)
    requires strings < 0x1_0000_0000
    ensures was + Be(BEGIN_NODE) + name + [0] + Zeros(Pad(|name| + 1)) == was + One(BeginNode(name, depth), strings)
  {
  }

  lemma PropBytes(was: seq<Byte>, name: seq<Byte>, value: seq<Byte>, strings: nat)
    requires strings < 0x1_0000_0000 && |value| < 0x1_0000_0000
    ensures was + Be(PROP) + Be(|value|) + Be(strings) + value + Zeros(Pad(|value|))
            == was + One(Prop(name, value), strings)
  {
  }

  /** A writer of structure tokens in the order given. */
  class Builder {
    var structure: seq<Byte>
    var strings: seq<Byte>
    ghost var events: seq<Event>

    ghost predicate Valid()
      reads this
    {
      Fits(events, 0) && structure == Structure(events, 0) && strings == Strings(events)
    }

    constructor ()
      ensures Valid() && events == []
    {
      structure, strings, events := [], [], [];
    }

    method Token(token: nat)
      requires token < 0x1_0000_0000
      modifies `structure
      ensures structure == old(structure) + Be(token)
    {
      structure := structure + Be(token);
    }

    /** Zeros up to a multiple of four, from a multiple of four on. */
    method PadTo(from: nat)
      requires from <= |structure| && from % 4 == 0
      modifies `structure
      ensures structure == old(structure) + Zeros(Pad(|old(structure)| - from))
    {
      AlignedPad(from, |structure| - from);
      structure := structure + Zeros(Align4(|structure|) - |structure|);
    }

    method Begin(name: seq<Byte>, ghost depth: nat)
      requires Valid()
      modifies this
      ensures Valid() && events == old(events) + [BeginNode(name, depth)]
    {
      hide Structure, Strings, Fits, One, Be, Pad;
      OneMore(events, BeginNode(name, depth), structure, strings);
      BeginBytes(structure, name, depth, |strings|);
      var from := |structure| + 4;
      Token(BEGIN_NODE);
      structure := structure + name;
      structure := structure + [0];
      PadTo(from);
      events := events + [BeginNode(name, depth)];
    }

    method Property(name: seq<Byte>, value: seq<Byte>)
      requires Valid() && |value| < 0x1_0000_0000 && |strings| + |name| + 1 < 0x1_0000_0000
      modifies this
      ensures Valid() && events == old(events) + [Prop(name, value)]
    {
      hide Structure, Strings, Fits, One, Be, Pad;
      OneMore(events, Prop(name, value), structure, strings);
      PropBytes(structure, name, value, |strings|);
      var nameoff := |strings|;
      strings := strings + (name + [0]);
      var from := |structure| + 12;
      Token(PROP);
      structure := structure + Be(|value|);
      structure := structure + Be(nameoff);
      structure := structure + value;
      PadTo(from);
      events := events + [Prop(name, value)];
    }

    method End()
      requires Valid()
      modifies this
      ensures Valid() && events == old(events) + [EndNode]
    {
      hide Structure, Strings, Fits, Be;
      OneMore(events, EndNode, structure, strings);
      Token(END_NODE);
      events := events + [EndNode];
    }

    method Done() returns (blob: seq<Byte>)
      requires Valid() && Size(structure, strings) + 4 < 0x1_0000_0000
      modifies `structure
      ensures Size(Structure(events, 0) + Be(Fdt.END), Strings(events)) < 0x1_0000_0000 && blob == Built(events)
    {
      Token(Fdt.END);
      blob := Finish(structure, strings);
    }
  }
}
