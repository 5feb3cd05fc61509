/** What a walk makes of any written token stream: NOPs anywhere, any place of the names in
    the strings block, any bytes as padding, and every way in which a stream can end. */
module FdtTokens {
  import opened Common
  import opened Arithmetic
  import opened Fdt
  import opened FdtBuilder

  const WORDS: nat := 0x1_0000_0000

  datatype Tok =
    | Nop
    | Node(name: seq<Byte>, pad: seq<Byte>)
    | Close
    | Property(name: seq<Byte>, nameoff: nat, value: seq<Byte>, pad: seq<Byte>)

  /** Up to three bytes that bring a length to a multiple of four. */
  predicate PadsTo4(len: nat, pad: seq<Byte>) {
    |pad| < 4 && (len + |pad|) % 4 == 0
  }

  /** The name stands at the offset of the strings block, with a zero after it. */
  predicate NameAt(strings: seq<Byte>, off: nat, name: seq<Byte>) {
    && GoodName(name) && off + |name| < |strings|
    && strings[off..off + |name|] == name && strings[off + |name|] == 0
  }

  /** A token that a walk takes at a depth. */
  predicate TokOk(t: Tok, strings: seq<Byte>, depth: nat) {
    match t
    case Nop => true
    case Node(name, pad) => depth < 16 && GoodName(name) && PadsTo4(|name| + 1, pad)
    case Close => depth > 0
    case Property(name, nameoff, value, pad) =>
      |value| < WORDS && nameoff < WORDS && NameAt(strings, nameoff, name) && PadsTo4(|value|, pad)
  }

  function Bytes(t: Tok): seq<Byte>
    requires t.Property? ==> |t.value| < WORDS && t.nameoff < WORDS
  {
    match t
    case Nop => [0, 0, 0, 4]
    case Node(name, pad) => [0, 0, 0, 1] + name + [0] + pad
    case Close => [0, 0, 0, 2]
    case Property(_, nameoff, value, pad) => [0, 0, 0, 3] + Be(|value|) + Be(nameoff) + value + pad
  }

  function Below(t: Tok, depth: nat): nat
    requires t.Close? ==> depth > 0
  {
    match t
    case Node(_, _) => depth + 1
    case Close => depth - 1
    case _ => depth
  }

  function Event(t: Tok, depth: nat): seq<Fdt.Event> {
    match t
    case Nop => []
    case Node(name, _) => [BeginNode(name, depth + 1)]
    case Close => [EndNode]
    case Property(name, _, value, _) => [Prop(name, value)]
  }

  predicate ToksOk(ts: seq<Tok>, strings: seq<Byte>, depth: nat) {
    ts == [] || (TokOk(ts[0], strings, depth) && ToksOk(ts[1..], strings, Below(ts[0], depth)))
  }

  function Stream(ts: seq<Tok>, strings: seq<Byte>, depth: nat): seq<Byte>
    requires ToksOk(ts, strings, depth)
  {
    if ts == [] then [] else Bytes(ts[0]) + Stream(ts[1..], strings, Below(ts[0], depth))
  }

  function Events(ts: seq<Tok>, strings: seq<Byte>, depth: nat): seq<Fdt.Event>
    requires ToksOk(ts, strings, depth)
  {
    if ts == [] then [] else Event(ts[0], depth) + Events(ts[1..], strings, Below(ts[0], depth))
  }

  function DepthAfter(ts: seq<Tok>, strings: seq<Byte>, depth: nat): nat
    requires ToksOk(ts, strings, depth)
  {
    if ts == [] then depth else DepthAfter(ts[1..], strings, Below(ts[0], depth))
  }

  // ----- ways to end -----

  datatype Ending =
    | Finished(rest: seq<Byte>)
    | Unclosed(rest: seq<Byte>)
    | Unopened(rest: seq<Byte>)
    | Unknown(word: nat, rest: seq<Byte>)
    | Short(bytes: seq<Byte>)
    | OpenName(bytes: seq<Byte>)
    | BadName(bytes: seq<Byte>, rest: seq<Byte>)
    | Deep(name: seq<Byte>, rest: seq<Byte>)
    | ShortProp(bytes: seq<Byte>)
    | LongProp(len: nat, nameoff: nat, bytes: seq<Byte>)
    | NoSuchName(value: seq<Byte>, nameoff: nat, rest: seq<Byte>)
    | OpenPropName(value: seq<Byte>, nameoff: nat, rest: seq<Byte>)
    | BadPropName(value: seq<Byte>, nameoff: nat, name: seq<Byte>, rest: seq<Byte>)

  predicate NoZero(s: seq<Byte>) {
    forall i: nat | i < |s| :: s[i] != 0
  }

  predicate EndOk(x: Ending, strings: seq<Byte>, depth: nat) {
    match x
    case Finished(_) => depth == 0
    case Unclosed(_) => depth > 0
    case Unopened(_) => depth == 0
    case Unknown(word, _) => word < WORDS && word !in {1, 2, 3, 4, 9}
    case Short(bytes) => |bytes| < 4
    case OpenName(bytes) => NoZero(bytes)
    case BadName(bytes, _) => NoZero(bytes) && !IsUtf8(bytes)
    case Deep(name, _) => GoodName(name) && depth == 16
    case ShortProp(bytes) => |bytes| < 8
    case LongProp(len, nameoff, bytes) => |bytes| < len < WORDS && nameoff < WORDS
    case NoSuchName(value, nameoff, _) => |value| < WORDS && |strings| < nameoff < WORDS
    case OpenPropName(value, nameoff, _) =>
      |value| < WORDS && nameoff < WORDS && nameoff <= |strings| && NoZero(strings[nameoff..])
    case BadPropName(value, nameoff, name, _) =>
      && |value| < WORDS && nameoff < WORDS && nameoff + |name| < |strings|
      && strings[nameoff..nameoff + |name|] == name && strings[nameoff + |name|] == 0 && NoZero(name) && !IsUtf8(name)
  }

  function EndBytes(x: Ending, strings: seq<Byte>, depth: nat): seq<Byte>
    requires EndOk(x, strings, depth)
  {
    match x
    case Finished(rest) => [0, 0, 0, 9] + rest
    case Unclosed(rest) => [0, 0, 0, 9] + rest
    case Unopened(rest) => [0, 0, 0, 2] + rest
    case Unknown(word, rest) => Be(word) + rest
    case Short(bytes) => bytes
    case OpenName(bytes) => [0, 0, 0, 1] + bytes
    case BadName(bytes, rest) => [0, 0, 0, 1] + (bytes + [0] + rest)
    case Deep(name, rest) => [0, 0, 0, 1] + (name + [0] + rest)
    case ShortProp(bytes) => [0, 0, 0, 3] + bytes
    case LongProp(len, nameoff, bytes) => [0, 0, 0, 3] + (Be(len) + (Be(nameoff) + bytes))
    case NoSuchName(value, nameoff, rest) => [0, 0, 0, 3] + (Be(|value|) + (Be(nameoff) + (value + rest)))
    case OpenPropName(value, nameoff, rest) => [0, 0, 0, 3] + (Be(|value|) + (Be(nameoff) + (value + rest)))
    case BadPropName(value, nameoff, _, rest) => [0, 0, 0, 3] + (Be(|value|) + (Be(nameoff) + (value + rest)))
  }

  /** How the walk ends there. */
  function Outcome(x: Ending): Option<FdtError> {
    match x
    case Finished(_) => None
    case Unclosed(_) => Some(Truncated)
    case Unopened(_) => Some(BadToken(2))
    case Unknown(word, _) => Some(BadToken(word))
    case Short(_) => Some(Truncated)
    case OpenName(_) => Some(Truncated)
    case BadName(_, _) => Some(BadString)
    case Deep(_, _) => Some(TooDeep)
    case ShortProp(_) => Some(Truncated)
    case LongProp(_, _, _) => Some(Truncated)
    case NoSuchName(_, _, _) => Some(BadString)
    case OpenPropName(_, _, _) => Some(Truncated)
    case BadPropName(_, _, _, _) => Some(BadString)
  }

  // ----- words and strings -----

  lemma Literals()
    ensures Be(1) == [0, 0, 0, 1] && Be(2) == [0, 0, 0, 2] && Be(3) == [0, 0, 0, 3]
    ensures Be(4) == [0, 0, 0, 4] && Be(9) == [0, 0, 0, 9]
  {
  }

  /** What stands before the first zero. */
  lemma ZeroIs(s: seq<Byte>, name: seq<Byte>, rest: seq<Byte>)
    requires s == name + [0] + rest && NoZero(name)
    ensures ZeroAt(s) == |name| && s[..|name|] == name
  {
    assert s[|name|] == 0 && forall i: nat | i < |name| :: s[i] == name[i];
  }

  lemma NoZeroIs(s: seq<Byte>)
    requires NoZero(s)
    ensures ZeroAt(s) == |s| && Cstr(s) == Err(Truncated)
  {
  }

  lemma BadIs(s: seq<Byte>, name: seq<Byte>, rest: seq<Byte>)
    requires s == name + [0] + rest && NoZero(name) && !IsUtf8(name)
    ensures Cstr(s) == Err(BadString)
  {
    ZeroIs(s, name, rest);
  }

  lemma GoodIs(s: seq<Byte>, name: seq<Byte>, rest: seq<Byte>)
    requires s == name + [0] + rest && GoodName(name)
    ensures Cstr(s) == Ok(name)
  {
    ZeroIs(s, name, rest);
  }

  lemma SplitName(strings: seq<Byte>, off: nat, name: seq<Byte>)
    requires off + |name| < |strings| && strings[off..off + |name|] == name && strings[off + |name|] == 0
    ensures strings[off..] == name + [0] + strings[off + |name| + 1..]
  {
  }

  lemma NameFound(strings: seq<Byte>, off: nat, name: seq<Byte>)
    requires NameAt(strings, off, name)
    ensures PropName(strings, off) == Ok(name)
  {
    SplitName(strings, off, name);
    GoodIs(strings[off..], name, strings[off + |name| + 1..]);
  }

  lemma AlignIs(off: nat, len: nat, pad: seq<Byte>)
    requires off % 4 == 0 && PadsTo4(len, pad)
    ensures Align4(off + len) == off + len + |pad| && (off + len + |pad|) % 4 == 0
  {
  }

  // ----- one token -----

  lemma NodeBack(data: seq<Byte>, off: nat, end: nat, name: seq<Byte>, pad: seq<Byte>, rest: seq<Byte>)
    requires off <= end <= |data| && off % 4 == 0 && GoodName(name) && PadsTo4(|name| + 1, pad)
    requires data[off..end] == [0, 0, 0, 1] + name + [0] + pad + rest
    ensures off + 4 <= end && Word(data, off) == BEGIN_NODE && Cstr(data[off + 4..end]) == Ok(name)
    ensures var next := Align4(off + 4 + |name| + 1); next <= end && next % 4 == 0 && data[next..end] == rest
  {
    hide Cstr, Word, Be, Align4;
    Literals();
    var tail := name + [0] + (pad + rest);
    assert data[off..end] == Be(1) + tail;
    WordAt(data, off, end, 1, tail);
    GoodIs(tail, name, pad + rest);
    AlignIs(off + 4, |name| + 1, pad);
    assert tail == (name + [0]) + pad + rest;
    TailParts(data, off + 4, end, name + [0], pad, rest);
  }

  lemma PropertyBack(data: seq<Byte>, off: nat, end: nat, nameoff: nat, value: seq<Byte>, pad: seq<Byte>,
                     rest: seq<Byte>)
    requires off <= end <= |data| && off % 4 == 0 && |value| < WORDS && nameoff < WORDS && PadsTo4(|value|, pad)
    requires data[off..end] == [0, 0, 0, 3] + Be(|value|) + Be(nameoff) + value + pad + rest
    ensures off + 12 + |value| <= end && Word(data, off) == PROP && Word(data, off + 4) == |value|
    ensures Word(data, off + 8) == nameoff && data[off + 12..off + 12 + |value|] == value
    ensures var next := Align4(off + 12 + |value|); next <= end && next % 4 == 0 && data[next..end] == rest
  {
    hide Word, Be, Align4;
    Literals();
    var t3 := value + pad + rest;
    assert data[off..end] == Be(3) + (Be(|value|) + (Be(nameoff) + t3));
    PropWords(data, off, end, |value|, nameoff, t3);
    AlignIs(off + 12, |value|, pad);
    TailParts(data, off + 12, end, value, pad, rest);
  }

  lemma PropWords(data: seq<Byte>, off: nat, end: nat, len: nat, nameoff: nat, tail: seq<Byte>)
    requires off <= end <= |data| && len < WORDS && nameoff < WORDS
    requires data[off..end] == Be(3) + (Be(len) + (Be(nameoff) + tail))
    ensures off + 12 + |tail| == end && Word(data, off) == PROP && Word(data, off + 4) == len
    ensures Word(data, off + 8) == nameoff && data[off + 12..end] == tail
  {
    hide Word, Be;
    WordAt(data, off, end, 3, Be(len) + (Be(nameoff) + tail));
    WordAt(data, off + 4, end, len, Be(nameoff) + tail);
    WordAt(data, off + 8, end, nameoff, tail);
    assert |data[off..end]| == 12 + |tail|;
  }

  /** A NOP is passed over: the walk goes on at the very next word. */
  lemma OnNop(data: seq<Byte>, off: nat, end: nat, strings: seq<Byte>, depth: nat)
    requires off + 4 <= end <= |data| && Word(data, off) == 4
    ensures WalkFrom(data, off, end, strings, depth) == WalkFrom(data, off + 4, end, strings, depth)
  {
  }

  /** One token: its event, and the walk of the rest. */
  lemma OneToken(data: seq<Byte>, off: nat, end: nat, strings: seq<Byte>, depth: nat, t: Tok, rest: seq<Byte>)
    returns (next: nat)
    requires off <= end <= |data| && off % 4 == 0 && TokOk(t, strings, depth) && data[off..end] == Bytes(t) + rest
    ensures next <= end && next % 4 == 0 && data[next..end] == rest
    ensures WalkFrom(data, off, end, strings, depth)
            == Join(Event(t, depth), WalkFrom(data, next, end, strings, Below(t, depth)))
  {
    hide WalkFrom, Cstr, Word, Be, Align4, PropName, IsUtf8;
    Literals();
    match t
    case Nop =>
      WordAt(data, off, end, 4, rest);
      next := off + 4;
      OnNop(data, off, end, strings, depth);
    case Node(name, pad) =>
      NodeBack(data, off, end, name, pad, rest);
      next := Align4(off + 4 + |name| + 1);
      OnBegin(data, off, end, strings, depth, name);
    case Close =>
      WordAt(data, off, end, 2, rest);
      next := off + 4;
      OnEnd(data, off, end, strings, depth);
    case Property(name, nameoff, value, pad) =>
      PropertyBack(data, off, end, nameoff, value, pad, rest);
      NameFound(strings, nameoff, name);
      next := Align4(off + 12 + |value|);
      OnProp(data, off, end, strings, depth, name, value, nameoff);
  }

  // ----- the end -----

  lemma WordEnds(data: seq<Byte>, off: nat, end: nat, strings: seq<Byte>, depth: nat, word: nat)
    requires off + 4 <= end <= |data| && Word(data, off) == word
    ensures word == 9 && depth == 0 ==> WalkFrom(data, off, end, strings, depth) == Walked([], None)
    ensures word == 9 && depth > 0 ==> WalkFrom(data, off, end, strings, depth) == Walked([], Some(Truncated))
    ensures word == 2 && depth == 0 ==> WalkFrom(data, off, end, strings, depth) == Walked([], Some(BadToken(2)))
    ensures word !in {1, 2, 3, 4, 9} ==> WalkFrom(data, off, end, strings, depth) == Walked([], Some(BadToken(word)))
  {
  }

  lemma NameEnds(data: seq<Byte>, off: nat, end: nat, strings: seq<Byte>, depth: nat)
    requires off + 4 <= end <= |data| && Word(data, off) == 1
    ensures Cstr(data[off + 4..end]).Err? ==>
              WalkFrom(data, off, end, strings, depth) == Walked([], Some(Cstr(data[off + 4..end]).error))
    ensures Cstr(data[off + 4..end]).Ok? && depth == 16 ==>
              WalkFrom(data, off, end, strings, depth) == Walked([], Some(TooDeep))
  {
  }

  lemma PropEnds(data: seq<Byte>, off: nat, end: nat, strings: seq<Byte>, depth: nat)
    requires off + 4 <= end <= |data| && Word(data, off) == 3
    ensures off + 12 > end ==> WalkFrom(data, off, end, strings, depth) == Walked([], Some(Truncated))
    ensures off + 12 <= end && off + 12 + Word(data, off + 4) > end ==>
              WalkFrom(data, off, end, strings, depth) == Walked([], Some(Truncated))
    ensures off + 12 <= end && off + 12 + Word(data, off + 4) <= end && PropName(strings, Word(data, off + 8)).Err? ==>
              WalkFrom(data, off, end, strings, depth) == Walked([], Some(PropName(strings, Word(data, off + 8)).error))
  {
  }

  lemma PropNameFails(strings: seq<Byte>, x: Ending, depth: nat)
    requires EndOk(x, strings, depth) && (x.NoSuchName? || x.OpenPropName? || x.BadPropName?)
    ensures PropName(strings, x.nameoff) == Err(Outcome(x).value)
  {
    if x.OpenPropName? {
      NoZeroIs(strings[x.nameoff..]);
    } else if x.BadPropName? {
      SplitName(strings, x.nameoff, x.name);
      BadIs(strings[x.nameoff..], x.name, strings[x.nameoff + |x.name| + 1..]);
    }
  }

  lemma NodeTail(data: seq<Byte>, off: nat, end: nat, tail: seq<Byte>)
    requires off <= end <= |data| && data[off..end] == [0, 0, 0, 1] + tail
    ensures off + 4 <= end && Word(data, off) == 1 && data[off + 4..end] == tail
  {
    hide Be, Word;
    Literals();
    WordAt(data, off, end, 1, tail);
  }

  lemma EndOfName(data: seq<Byte>, off: nat, end: nat, strings: seq<Byte>, depth: nat, x: Ending)
    requires off <= end <= |data| && EndOk(x, strings, depth) && (x.OpenName? || x.BadName? || x.Deep?)
    requires data[off..end] == EndBytes(x, strings, depth)
    ensures WalkFrom(data, off, end, strings, depth) == Walked([], Outcome(x))
  {
    hide WalkFrom, Word, Be, Cstr, IsUtf8;
    match x
    case OpenName(bytes) =>
      NodeTail(data, off, end, bytes);
      NoZeroIs(bytes);
      NameEnds(data, off, end, strings, depth);
    case BadName(bytes, rest) =>
      NodeTail(data, off, end, bytes + [0] + rest);
      BadIs(bytes + [0] + rest, bytes, rest);
      NameEnds(data, off, end, strings, depth);
    case Deep(name, rest) =>
      NodeTail(data, off, end, name + [0] + rest);
      GoodIs(name + [0] + rest, name, rest);
      NameEnds(data, off, end, strings, depth);
  }

  lemma EndOfProp(data: seq<Byte>, off: nat, end: nat, strings: seq<Byte>, depth: nat, x: Ending)
    requires off <= end <= |data| && EndOk(x, strings, depth) && (x.NoSuchName? || x.OpenPropName? || x.BadPropName?)
    requires data[off..end] == EndBytes(x, strings, depth)
    ensures WalkFrom(data, off, end, strings, depth) == Walked([], Outcome(x))
  {
    hide WalkFrom, Word, Be, PropName, IsUtf8, Cstr;
    Literals();
    PropWords(data, off, end, |x.value|, x.nameoff, x.value + x.rest);
    PropNameFails(strings, x, depth);
    PropEnds(data, off, end, strings, depth);
  }

  /** Every ending gives its outcome and no event. */
  lemma EndIs(data: seq<Byte>, off: nat, end: nat, strings: seq<Byte>, depth: nat, x: Ending)
    requires off <= end <= |data| && EndOk(x, strings, depth) && data[off..end] == EndBytes(x, strings, depth)
    ensures WalkFrom(data, off, end, strings, depth) == Walked([], Outcome(x))
  {
    hide WalkFrom, Word, Be, IsUtf8;
    Literals();
    match x
    case Finished(rest) =>
      WordAt(data, off, end, 9, rest);
      WordEnds(data, off, end, strings, depth, 9);
    case Unclosed(rest) =>
      WordAt(data, off, end, 9, rest);
      WordEnds(data, off, end, strings, depth, 9);
    case Unopened(rest) =>
      WordAt(data, off, end, 2, rest);
      WordEnds(data, off, end, strings, depth, 2);
    case Unknown(word, rest) =>
      WordAt(data, off, end, word, rest);
      WordEnds(data, off, end, strings, depth, word);
    case Short(bytes) => ShortEnds(data, off, end, strings, depth);
    case ShortProp(bytes) =>
      WordAt(data, off, end, 3, bytes);
      PropEnds(data, off, end, strings, depth);
    case LongProp(len, nameoff, bytes) =>
      PropWords(data, off, end, len, nameoff, bytes);
      PropEnds(data, off, end, strings, depth);
    case OpenName(_) => EndOfName(data, off, end, strings, depth, x);
    case BadName(_, _) => EndOfName(data, off, end, strings, depth, x);
    case Deep(_, _) => EndOfName(data, off, end, strings, depth, x);
    case _ => EndOfProp(data, off, end, strings, depth, x);
  }

  lemma ShortEnds(data: seq<Byte>, off: nat, end: nat, strings: seq<Byte>, depth: nat)
    requires off <= end <= |data| && end - off < 4
    ensures WalkFrom(data, off, end, strings, depth) == Walked([], Some(Truncated))
  {
  }

  // ----- the whole stream -----

  /** A walk over written tokens gives their events, NOPs none, and ends as the end says. */
  lemma {:induction false} WalkReads(data: seq<Byte>, off: nat, end: nat, strings: seq<Byte>, depth: nat,
                                     ts: seq<Tok>, x: Ending)
    requires off <= end <= |data| && off % 4 == 0 && ToksOk(ts, strings, depth)
    requires EndOk(x, strings, DepthAfter(ts, strings, depth))
    requires data[off..end] == Stream(ts, strings, depth) + EndBytes(x, strings, DepthAfter(ts, strings, depth))
    ensures WalkFrom(data, off, end, strings, depth) == Walked(Events(ts, strings, depth), Outcome(x))
    decreases |ts|
  {
    hide WalkFrom, GoodName, NameAt, PadsTo4, EndOk, EndBytes, Bytes, Outcome, Event, Below;
    var last := EndBytes(x, strings, DepthAfter(ts, strings, depth));
    if ts == [] {
      assert data[off..end] == last;
      EndIs(data, off, end, strings, depth, x);
    } else {
      var below := Below(ts[0], depth);
      var rest := Stream(ts[1..], strings, below) + last;
      assert data[off..end] == Bytes(ts[0]) + rest;
      var next := OneToken(data, off, end, strings, depth, ts[0], rest);
      WalkReads(data, next, end, strings, below, ts[1..], x);
      assert Events(ts, strings, depth) == Event(ts[0], depth) + Events(ts[1..], strings, below);
    }
  }

  // ----- NOPs -----

  function Dense(ts: seq<Tok>): seq<Tok> {
    if ts == [] then [] else (if ts[0].Nop? then [] else [ts[0]]) + Dense(ts[1..])
  }

  lemma {:induction false} DenseSame(ts: seq<Tok>, strings: seq<Byte>, depth: nat)
    requires ToksOk(ts, strings, depth)
    ensures ToksOk(Dense(ts), strings, depth)
    ensures Events(Dense(ts), strings, depth) == Events(ts, strings, depth)
    ensures DepthAfter(Dense(ts), strings, depth) == DepthAfter(ts, strings, depth)
    decreases |ts|
  {
    hide TokOk;
    if ts != [] {
      DenseSame(ts[1..], strings, Below(ts[0], depth));
      var d := Dense(ts[1..]);
      if !ts[0].Nop? {
        assert Dense(ts) == [ts[0]] + d;
        assert Dense(ts)[1..] == d;
      } else {
        assert Dense(ts) == d;
      }
    }
  }

  /** Any number of NOPs before any token: two blocks that differ only in them walk alike. */
  lemma NopsVanish(data: seq<Byte>, off: nat, end: nat, data': seq<Byte>, off': nat, end': nat,
                   strings: seq<Byte>, depth: nat, ts: seq<Tok>, ts': seq<Tok>, x: Ending)
    requires off <= end <= |data| && off % 4 == 0 && off' <= end' <= |data'| && off' % 4 == 0
    requires ToksOk(ts, strings, depth) && ToksOk(ts', strings, depth) && Dense(ts) == Dense(ts')
    requires EndOk(x, strings, DepthAfter(ts, strings, depth)) && EndOk(x, strings, DepthAfter(ts', strings, depth))
    requires data[off..end] == Stream(ts, strings, depth) + EndBytes(x, strings, DepthAfter(ts, strings, depth))
    requires data'[off'..end'] == Stream(ts', strings, depth) + EndBytes(x, strings, DepthAfter(ts', strings, depth))
    ensures WalkFrom(data, off, end, strings, depth) == WalkFrom(data', off', end', strings, depth)
  {
    hide WalkFrom, TokOk, EndOk, EndBytes, Stream, ToksOk;
    WalkReads(data, off, end, strings, depth, ts, x);
    WalkReads(data', off', end', strings, depth, ts', x);
    DenseSame(ts, strings, depth);
    DenseSame(ts', strings, depth);
  }
}
