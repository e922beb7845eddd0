/**
  The packet builder and the parse loop as they run: a packet updated attribute by
  attribute, and a loop in uint16 arithmetic over the receive buffer that pads attribute
  values in place.
 */
module StunParser {
  import opened Common
  import opened StunPacket

  // ---------- Building and printing ----------

  class PacketBuilder {
    var types: u16
    var length: u16
    var transID: seq<byte>
    var attributes: seq<Attribute>

    ghost function Value(): Packet
      reads this
    {
      Packet(types, length, transID, attributes)
    }

    constructor (transID: seq<byte>)
      ensures Value() == Packet(0, 0, transID, [])
    {
      types, length, attributes := 0, 0, [];
      this.transID := transID;
    }

    method AddAttribute(a: Attribute)
      modifies this
      ensures Value() == Add(old(Value()), a)
    {
      attributes := attributes + [a];
      length := Add16(length, Add16(Align(a.length), 4));
    }

    method Bytes() returns (bytes: seq<byte>)
      ensures bytes == Print(Value())
    {
      bytes := Be16(types) + Be16(length) + transID;
      ghost var header := bytes;
      for k := 0 to |attributes|
        invariant bytes == header + Body(attributes[..k])
      {
        BodyAppend(attributes[..k], attributes[k]);
        assert attributes[..k + 1] == attributes[..k] + [attributes[k]];
        bytes := bytes + Be16(attributes[k].types) + Be16(attributes[k].length) + attributes[k].value;
      }
      assert attributes[..|attributes|] == attributes;
    }
  }

  // ---------- One iteration of the parse loop ----------

  datatype Iteration = Exit | Panics | BadFormat | Attr(types: u16, value: seq<byte>, next: u16)

  /**
    One iteration at `pos` over a body with room for `cap` bytes, in uint16 arithmetic.
    Panics stands for a slice expression with bounds out of order or beyond the capacity.
   */
  function Iterate(body: seq<byte>, cap: nat, pos: u16): Iteration
    requires |body| <= 65535 && |body| <= cap
  {
    var header := Add16(pos, 4);
    if header >= |body| then Exit
    else if !(pos <= Add16(pos, 2) <= header <= cap) then Panics
    else
      var length := Rd16(body[pos + 2], body[pos + 3]);
      var end := Add16(header, length);
      if end < header || end > |body| then BadFormat
      else Attr(Rd16(body[pos], body[pos + 1]), body[header..end], Add16(pos, Add16(Align(length), 4)))
  }

  /** The loop started at `pos` ends: it neither panics nor comes back to where it was. */
  predicate EndsFrom(body: seq<byte>, cap: nat, pos: u16)
    requires |body| <= 65535 && |body| <= cap
    decreases 65536 - pos
  {
    match Iterate(body, cap, pos)
    case Exit => true
    case BadFormat => true
    case Panics => false
    case Attr(_, _, next) => next > pos && EndsFrom(body, cap, next)
  }

  /** The loop started at `pos` runs into a panic before it comes back. */
  predicate PanicsFrom(body: seq<byte>, cap: nat, pos: u16)
    requires |body| <= 65535 && |body| <= cap
    decreases 65536 - pos
  {
    match Iterate(body, cap, pos)
    case Exit => false
    case BadFormat => false
    case Panics => true
    case Attr(_, _, next) => next > pos && PanicsFrom(body, cap, next)
  }

  /** The numbers of an iteration that found an attribute. */
  lemma AttrNumbers(body: seq<byte>, cap: nat, pos: u16)
    requires |body| <= 65535 && |body| <= cap && Aligned(pos) && pos < 65532 && Iterate(body, cap, pos).Attr?
    ensures var it := Iterate(body, cap, pos);
            && pos + 4 + |it.value| <= |body| && it.value == body[pos + 4..pos + 4 + |it.value|]
            && it.types == Rd16(body[pos], body[pos + 1])
            && |it.value| == Rd16(body[pos + 2], body[pos + 3])
            && pos + 4 + Up4(|it.value|) <= 65536
            && it.next == (if pos + 4 + Up4(|it.value|) == 65536 then 0 else pos + 4 + Up4(|it.value|))
            && Aligned(it.next)
  {
    var length := Rd16(body[pos + 2], body[pos + 3]);
    Up4After(pos, length);
    Up4Mono(pos + 4 + length, 65535);
  }

  /** Where an iteration ends the loop, the specification ends too, with the same verdict. */
  lemma {:induction false} IterateStops(body: seq<byte>, cap: nat, pos: u16)
    requires |body| <= 65535 && |body| <= cap && Aligned(pos)
    ensures Iterate(body, cap, pos).Exit? ==> ParseFrom(body, pos) == Some([])
    ensures Iterate(body, cap, pos).BadFormat? ==> ParseFrom(body, pos) == None
  {
  }

  /** Up to 65528 bytes the loop ends, whatever the body holds. */
  lemma {:induction false} ShortBodiesEnd(body: seq<byte>, cap: nat, pos: u16)
    requires |body| <= 65528 && |body| <= cap && Aligned(pos) && pos <= 65528
    ensures EndsFrom(body, cap, pos)
    decreases 65536 - pos
  {
    if Iterate(body, cap, pos).Attr? {
      var next := Iterate(body, cap, pos).next;
      var length := Rd16(body[pos + 2], body[pos + 3]);
      Up4After(pos, length);
      Up4Mono(pos + 4 + length, 65528);
      ShortBodiesEnd(body, cap, next);
    }
  }

  /** A body whose first attribute announces 65525 bytes. */
  function LongBody(m: nat): seq<byte>
    requires m >= 4
  {
    [0, 1, 0xff, 0xf5] + Zeros(m - 4)
  }

  /**
    65528 is the exact bound: every body of at most that many bytes is parsed to the end,
    and for every longer length the parser accepts there is one it panics on, because
    pos + 4 wraps past the loop test.
   */
  lemma EndsIffShort(m: nat, cap: nat)
    requires m <= 65535 && m <= cap
    ensures (forall body: seq<byte> :: |body| == m ==> EndsFrom(body, cap, 0)) <==> m <= 65528
  {
    if m <= 65528 {
      forall body: seq<byte> | |body| == m
        ensures EndsFrom(body, cap, 0)
      {
        ShortBodiesEnd(body, cap, 0);
      }
    } else {
      var body := LongBody(m);
      assert Rd16(body[2], body[3]) == 65525;
      assert Iterate(body, cap, 0).Attr? && Iterate(body, cap, 0).next == 65532;
      assert Iterate(body, cap, 65532) == Panics;
      assert !EndsFrom(body, cap, 65532);
      assert !EndsFrom(body, cap, 0);
    }
  }

  /** From 65533 bytes on the loop can also come back to position 0 and run for ever. */
  lemma CanLoop(m: nat, cap: nat)
    requires 65533 <= m <= 65535 && m <= cap
    ensures exists body: seq<byte> ::
              |body| == m && Iterate(body, cap, 0).Attr? && Iterate(body, cap, 0).next == 0
  {
    var body := [0, 1, 0xff, 0xf9] + Zeros(m - 4);
    assert Rd16(body[2], body[3]) == 65529;
    assert |body| == m && Iterate(body, cap, 0).Attr? && Iterate(body, cap, 0).next == 0;
  }

  // ---------- The parse loop ----------

  /** Where an attribute was found: its header's position in the body, its value's length. */
  datatype Span = Span(at: nat, len: nat)

  datatype Outcome = Parsed(p: Packet) | Failed(e: Error) | Panicked | Looping

  function Expected(bytes: seq<byte>): Outcome {
    match Parse(bytes) case Ok(p) => Parsed(p) case Err(e) => Failed(e)
  }

  /** append(value, zeros...): writes into the buffer if it has the room, else copies. */
  method Pad(buf: array<byte>, end: nat, count: nat)
    requires end <= buf.Length
    modifies buf
    ensures forall q :: 0 <= q < buf.Length ==>
              buf[q] == if end <= q < end + count && end + count <= buf.Length then 0 else old(buf[q])
  {
    if end + count <= buf.Length {
      for k := 0 to count
        invariant forall q :: 0 <= q < buf.Length ==> buf[q] == if end <= q < end + k then 0 else old(buf[q])
      {
        buf[end + k] := 0;
      }
    }
  }

  /** The slice of attribute k still shows its padded value, unless it had to be copied out. */
  predicate Shown(bytes: seq<byte>, s: Span, a: Attribute) {
    20 + s.at + 4 + |a.value| <= |bytes| ==> bytes[20 + s.at + 4..20 + s.at + 4 + |a.value|] == a.value
  }

  /** The header and the unpadded value of a span are what was received. */
  predicate Intact(was: seq<byte>, bytes: seq<byte>, s: Span) {
    && 20 + s.at + 4 + s.len <= |bytes| == |was|
    && bytes[20 + s.at..20 + s.at + 4 + s.len] == was[20 + s.at..20 + s.at + 4 + s.len]
  }

  /** Position q is one of the padding bytes after a span's value. */
  predicate IsPadding(s: Span, q: int) {
    20 + s.at + 4 + s.len <= q < 20 + s.at + 4 + Up4(s.len)
  }

  /** What the loop has established when it stands at `pos` with some attributes parsed. */
  ghost predicate SoFar(was: seq<byte>, bytes: seq<byte>, n: nat, pos: nat, attrs: seq<Attribute>, spans: seq<Span>)
    requires 20 <= n <= |was| == |bytes| && n <= 65535 + 20
  {
    && |attrs| == |spans|
    && (forall q :: 20 + pos <= q < |bytes| ==> bytes[q] == was[q])
    && (forall k :: 0 <= k < |spans| ==>
          && |attrs[k].value| == Up4(spans[k].len)
          && spans[k].at + 4 + Up4(spans[k].len) <= pos
          && Shown(bytes, spans[k], attrs[k])
          && Intact(was, bytes, spans[k]))
    && (forall q :: 0 <= q < |bytes| && bytes[q] != was[q] ==>
          bytes[q] == 0 && exists k :: 0 <= k < |spans| && IsPadding(spans[k], q))
  }

  /** Padding the next value in place keeps what was established. */
  lemma PadKeeps(was: seq<byte>, bytes: seq<byte>, bytes': seq<byte>, n: nat, pos: nat,
                 attrs: seq<Attribute>, spans: seq<Span>, types: u16, value: seq<byte>)
    requires 20 <= n <= |was| == |bytes| == |bytes'| && n <= 65535 + 20
    requires SoFar(was, bytes, n, pos, attrs, spans)
    requires 20 + pos + 4 + |value| <= n && value == bytes[20 + pos + 4..20 + pos + 4 + |value|]
    requires var end := 20 + pos + 4 + |value|; var top := 20 + pos + 4 + Up4(|value|);
             forall q :: 0 <= q < |bytes| ==> bytes'[q] == if end <= q < top && top <= |bytes| then 0 else bytes[q]
    ensures SoFar(was, bytes', n, pos + 4 + Up4(|value|), attrs + [NewAttribute(types, value)],
                  spans + [Span(pos, |value|)])
  {
    var a, s := NewAttribute(types, value), Span(pos, |value|);
    NewAttributeFits(types, value);
    PadShows(was, bytes, bytes', n, pos, types, value);
    forall k | 0 <= k < |spans|
      ensures Shown(bytes', spans[k], attrs[k]) && Intact(was, bytes', spans[k])
    {
      SpanKept(was, bytes, bytes', pos, spans[k], attrs[k]);
    }
    hide NewAttribute, Shown, Intact;
    forall q | 0 <= q < |bytes| && bytes'[q] != was[q]
      ensures bytes'[q] == 0 && exists k :: 0 <= k < |spans + [s]| && IsPadding((spans + [s])[k], q)
    {
      if bytes'[q] != bytes[q] {
        assert IsPadding((spans + [s])[|spans|], q);
      } else {
        var k :| 0 <= k < |spans| && IsPadding(spans[k], q);
        assert IsPadding((spans + [s])[k], q);
      }
    }
  }

  /** A span that ends before `pos` does not see what changes from there on. */
  lemma SpanKept(was: seq<byte>, bytes: seq<byte>, bytes': seq<byte>, pos: nat, s: Span, a: Attribute)
    requires |bytes'| == |bytes| && forall q :: 0 <= q < 20 + pos && q < |bytes| ==> bytes'[q] == bytes[q]
    requires |a.value| == Up4(s.len) && s.at + 4 + Up4(s.len) <= pos
    requires Shown(bytes, s, a) && Intact(was, bytes, s)
    ensures Shown(bytes', s, a) && Intact(was, bytes', s)
  {
    var v, e := 20 + s.at + 4, 20 + s.at + 4 + Up4(s.len);
    if e <= |bytes| {
      assert bytes'[v..e] == bytes[v..e];
    }
    assert bytes'[20 + s.at..v + s.len] == bytes[20 + s.at..v + s.len];
  }

  /** The value just padded shows padded, and its header and itself are as received. */
  lemma PadShows(was: seq<byte>, bytes: seq<byte>, bytes': seq<byte>, n: nat, pos: nat, types: u16, value: seq<byte>)
    requires 20 <= n <= |was| == |bytes| == |bytes'| && n <= 65535 + 20
    requires forall q :: 20 + pos <= q < |bytes| ==> bytes[q] == was[q]
    requires 20 + pos + 4 + |value| <= n && value == bytes[20 + pos + 4..20 + pos + 4 + |value|]
    requires var end := 20 + pos + 4 + |value|; var top := 20 + pos + 4 + Up4(|value|);
             forall q :: 0 <= q < |bytes| ==> bytes'[q] == if end <= q < top && top <= |bytes| then 0 else bytes[q]
    ensures Shown(bytes', Span(pos, |value|), NewAttribute(types, value))
    ensures Intact(was, bytes', Span(pos, |value|))
  {
    var a := NewAttribute(types, value);
    NewAttributeFits(types, value);
    hide NewAttribute;
    var v := 20 + pos + 4;
    if v + |a.value| <= |bytes| {
      forall k | 0 <= k < |a.value|
        ensures bytes'[v + k] == a.value[k]
      {
        assert k < |value| ==> a.value[k] == a.value[..|value|][k];
      }
    }
  }

  function Append(raws: seq<Raw>, rest: Option<seq<Raw>>): Option<seq<Raw>> {
    if rest.None? then None else Some(raws + rest.value)
  }

  lemma AppendCons(raws: seq<Raw>, a: Raw, rest: Option<seq<Raw>>)
    ensures Append(raws + [a], rest) == Append(raws, Cons(a, rest))
  {
    if rest.Some? {
      assert raws + [a] + rest.value == raws + ([a] + rest.value);
    }
  }

  lemma AppendNil(raws: seq<Raw>, rest: Option<seq<Raw>>)
    ensures Append([], rest) == rest
    ensures Append(raws, Some([])) == Some(raws)
  {
    assert raws + [] == raws;
    if rest.Some? {
      assert [] + rest.value == rest.value;
    }
  }

  /** An iteration looks only at the bytes from `pos` on. */
  lemma IterateLocal(b1: seq<byte>, b2: seq<byte>, cap: nat, pos: u16)
    requires |b1| == |b2| <= 65535 && |b1| <= cap
    requires forall q :: pos <= q < |b1| ==> b1[q] == b2[q]
    ensures Iterate(b1, cap, pos) == Iterate(b2, cap, pos)
  {
    if pos < 65532 && pos + 4 < |b1| {
      assert b1[pos + 2] == b2[pos + 2] && b1[pos + 3] == b2[pos + 3];
      var end := pos + 4 + Rd16(b1[pos + 2], b1[pos + 3]);
      if end <= |b1| {
        assert b1[pos + 4..end] == b2[pos + 4..end];
      }
    }
  }

  /** The loop's variables: position, attributes so far, where they were, the length field. */
  datatype Loop = Loop(pos: u16, attrs: seq<Attribute>, spans: seq<Span>, length: u16)

  /** How far the specification has been followed, having found `raws`. */
  predicate OnTrack(body: seq<byte>, cap: nat, length0: u16, raws: seq<Raw>, st: Loop)
    requires |body| <= 65535 && |body| <= cap
  {
    && Aligned(st.pos)
    && (EndsFrom(body, cap, 0) <==> EndsFrom(body, cap, st.pos))
    && (PanicsFrom(body, cap, 0) <==> PanicsFrom(body, cap, st.pos))
    && ParseFrom(body, 0) == Append(raws, ParseFrom(body, st.pos))
    && st.attrs == Attrs(raws)
    && st.length == AddAll(length0, st.attrs)
  }

  function Found(st: Loop, it: Iteration): Loop
    requires it.Attr?
  {
    var a := NewAttribute(it.types, it.value);
    Loop(it.next, st.attrs + [a], st.spans + [Span(st.pos, |it.value|)], AddLength(st.length, a))
  }

  /** A position past 65531 cannot pass the loop test without panicking. */
  lemma HighPosition(body: seq<byte>, cap: nat, pos: u16)
    requires |body| <= 65535 && |body| <= cap && Aligned(pos)
    requires Iterate(body, cap, pos).Attr?
    ensures pos < 65532
  {
  }

  /** An attribute found is the next one of the specification. */
  lemma {:induction false} ParseUnfold(body: seq<byte>, cap: nat, pos: u16)
    requires |body| <= 65535 && |body| <= cap && Aligned(pos)
    requires Iterate(body, cap, pos).Attr? && Iterate(body, cap, pos).next > pos
    ensures var it := Iterate(body, cap, pos);
            && Aligned(it.next) && it.next == pos + 4 + Up4(|it.value|)
            && pos + 4 + |it.value| <= |body| && it.value == body[pos + 4..pos + 4 + |it.value|]
            && ParseFrom(body, pos) == Cons(Raw(it.types, it.value), ParseFrom(body, it.next))
  {
    HighPosition(body, cap, pos);
    AttrNumbers(body, cap, pos);
    hide Iterate, Up4;
  }

  lemma {:induction false} EndsUnfold(body: seq<byte>, cap: nat, pos: u16)
    requires |body| <= 65535 && |body| <= cap
    requires Iterate(body, cap, pos).Attr? && Iterate(body, cap, pos).next > pos
    ensures EndsFrom(body, cap, pos) == EndsFrom(body, cap, Iterate(body, cap, pos).next)
    ensures PanicsFrom(body, cap, pos) == PanicsFrom(body, cap, Iterate(body, cap, pos).next)
  {
    hide Iterate;
  }

  lemma FoundOnTrack(body: seq<byte>, cap: nat, length0: u16, raws: seq<Raw>, st: Loop)
    requires |body| <= 65535 && |body| <= cap && OnTrack(body, cap, length0, raws, st)
    requires Iterate(body, cap, st.pos).Attr? && Iterate(body, cap, st.pos).next > st.pos
    ensures var it := Iterate(body, cap, st.pos);
            OnTrack(body, cap, length0, raws + [Raw(it.types, it.value)], Found(st, it))
  {
    hide Iterate, ParseFrom, EndsFrom, PanicsFrom, Cons, Append, NewAttribute, AddAll;
    var it := Iterate(body, cap, st.pos);
    ParseUnfold(body, cap, st.pos);
    EndsUnfold(body, cap, st.pos);
    AppendCons(raws, Raw(it.types, it.value), ParseFrom(body, it.next));
    assert Attrs(raws + [Raw(it.types, it.value)]) == st.attrs + [NewAttribute(it.types, it.value)];
    AddAllAppend(length0, st.attrs, NewAttribute(it.types, it.value));
  }

  lemma {:induction false} StopsOnTrack(body: seq<byte>, cap: nat, length0: u16, raws: seq<Raw>, st: Loop)
    requires |body| <= 65535 && |body| <= cap && OnTrack(body, cap, length0, raws, st)
    ensures Iterate(body, cap, st.pos).Exit? ==> EndsFrom(body, cap, 0) && ParseFrom(body, 0) == Some(raws)
    ensures Iterate(body, cap, st.pos).BadFormat? ==> EndsFrom(body, cap, 0) && ParseFrom(body, 0) == None
    ensures Iterate(body, cap, st.pos).Panics? ==> !EndsFrom(body, cap, 0) && PanicsFrom(body, cap, 0)
    ensures Iterate(body, cap, st.pos).Attr? && Iterate(body, cap, st.pos).next <= st.pos ==>
              !EndsFrom(body, cap, 0) && !PanicsFrom(body, cap, 0)
  {
    IterateStops(body, cap, st.pos);
    AppendNil(raws, None);
  }

  /** Padding the value just found, in the buffer. */
  method PadNext(buf: array<byte>, n: nat, st: Loop, it: Iteration, ghost was: seq<byte>)
    requires 20 <= n <= buf.Length == |was| && n <= 65535 + 20
    requires SoFar(was, buf[..], n, st.pos, st.attrs, st.spans)
    requires it.Attr? && 20 + st.pos + 4 + |it.value| <= n
    requires it.value == buf[20 + st.pos + 4..20 + st.pos + 4 + |it.value|]
    requires it.next == st.pos + 4 + Up4(|it.value|)
    modifies buf
    ensures var st' := Found(st, it); SoFar(was, buf[..], n, st'.pos, st'.attrs, st'.spans)
  {
    NewAttributeFits(it.types, it.value);
    Pad(buf, 20 + st.pos + 4 + |it.value|, PadLen(|it.value|));
    PadKeeps(was, old(buf[..]), buf[..], n, st.pos, st.attrs, st.spans, it.types, it.value);
  }

  /** The body as it is now agrees with the one received from the loop's position on. */
  lemma BodyAhead(was: seq<byte>, bytes: seq<byte>, n: nat, cap: nat, st: Loop)
    requires 20 <= n <= |was| == |bytes| == cap + 20 && n <= 65535 + 20
    requires SoFar(was, bytes, n, st.pos, st.attrs, st.spans)
    ensures Iterate(bytes[20..n], cap, st.pos) == Iterate(was[20..n], cap, st.pos)
  {
    IterateLocal(bytes[20..n], was[20..n], cap, st.pos);
  }

  /** Where an attribute's value lies in the buffer as it is now. */
  lemma ValueAhead(was: seq<byte>, bytes: seq<byte>, n: nat, cap: nat, st: Loop)
    requires 20 <= n <= |was| == |bytes| == cap + 20 && n <= 65535 + 20
    requires SoFar(was, bytes, n, st.pos, st.attrs, st.spans) && Aligned(st.pos)
    requires Iterate(was[20..n], cap, st.pos).Attr?
    ensures var it := Iterate(was[20..n], cap, st.pos);
            && 20 + st.pos + 4 + |it.value| <= n
            && it.value == bytes[20 + st.pos + 4..20 + st.pos + 4 + |it.value|]
            && (it.next > st.pos ==> it.next == st.pos + 4 + Up4(|it.value|))
  {
    var body := was[20..n];
    HighPosition(body, cap, st.pos);
    AttrNumbers(body, cap, st.pos);
    hide Iterate, Up4, Rd16;
    var it := Iterate(body, cap, st.pos);
    var from, end := 20 + st.pos + 4, 20 + st.pos + 4 + |it.value|;
    SameAhead(was, bytes, n, st, from, end);
    SliceOfSlice(was, n, from, end);
  }

  lemma SliceOfSlice(b: seq<byte>, n: nat, from: nat, end: nat)
    requires 20 <= from <= end <= n <= |b|
    ensures b[20..n][from - 20..end - 20] == b[from..end]
  {
    var s, t := b[20..n][from - 20..end - 20], b[from..end];
    assert |s| == |t|;
    forall k | 0 <= k < |t|
      ensures s[k] == t[k]
    {
      assert s[k] == b[20..n][from - 20 + k] == b[from + k];
    }
  }

  lemma SameAhead(was: seq<byte>, bytes: seq<byte>, n: nat, st: Loop, from: nat, end: nat)
    requires 20 <= n <= |was| == |bytes| && n <= 65535 + 20
    requires SoFar(was, bytes, n, st.pos, st.attrs, st.spans)
    requires 20 + st.pos <= from <= end <= n
    ensures bytes[from..end] == was[from..end]
  {
  }

  lemma FoundPosition(st: Loop, it: Iteration)
    requires it.Attr?
    ensures Found(st, it).pos == it.next
  {
  }

  /** The body of the parse loop. */
  method ParseNext(buf: array<byte>, n: nat, st: Loop, it: Iteration, ghost was: seq<byte>,
                   length0: u16, ghost raws: seq<Raw>)
    returns (st': Loop, it': Iteration, ghost raws': seq<Raw>)
    requires 20 <= n <= buf.Length == |was| && n <= 65535 + 20
    requires SoFar(was, buf[..], n, st.pos, st.attrs, st.spans) && Aligned(st.pos)
    requires OnTrack(was[20..n], buf.Length - 20, length0, raws, st)
    requires it == Iterate(was[20..n], buf.Length - 20, st.pos) && it.Attr? && it.next > st.pos
    modifies buf
    ensures SoFar(was, buf[..], n, st'.pos, st'.attrs, st'.spans)
    ensures OnTrack(was[20..n], buf.Length - 20, length0, raws', st')
    ensures it' == Iterate(was[20..n], buf.Length - 20, st'.pos) && st'.pos > st.pos
  {
    hide *;
    FoundPosition(st, it);
    ValueAhead(was, buf[..], n, buf.Length - 20, st);
    FoundOnTrack(was[20..n], buf.Length - 20, length0, raws, st);
    PadNext(buf, n, st, it, was);
    st', raws' := Found(st, it), raws + [Raw(it.types, it.value)];
    BodyAhead(was, buf[..], n, buf.Length - 20, st');
    assert buf[20..n] == buf[..][20..n];
    it' := Iterate(buf[20..n], buf.Length - 20, st'.pos);
  }

  /** The parse loop over the body of the first n bytes of the buffer. */
  method ParseLoop(buf: array<byte>, n: nat, length0: u16)
    returns (it: Iteration, st: Loop, ghost raws: seq<Raw>)
    requires 20 <= n <= buf.Length && n <= 65535 + 20
    modifies buf
    ensures SoFar(old(buf[..]), buf[..], n, st.pos, st.attrs, st.spans)
    ensures OnTrack(old(buf[..])[20..n], buf.Length - 20, length0, raws, st)
    ensures it == Iterate(old(buf[..])[20..n], buf.Length - 20, st.pos)
    ensures it.Attr? ==> it.next <= st.pos
  {
    st, raws := Loop(0, [], [], length0), [];
    ghost var was := buf[..];
    assert buf[20..n] == was[20..n];
    AppendNil([], ParseFrom(was[20..n], 0));
    it := Iterate(buf[20..n], buf.Length - 20, 0);
    while it.Attr? && it.next > st.pos
      invariant SoFar(was, buf[..], n, st.pos, st.attrs, st.spans)
      invariant OnTrack(was[20..n], buf.Length - 20, length0, raws, st)
      invariant it == Iterate(was[20..n], buf.Length - 20, st.pos)
      decreases 65536 - st.pos
    {
      st, it, raws := ParseNext(buf, n, st, it, was, length0, raws);
    }
  }

  /**
    newPacketFromBytes on the first n bytes of a buffer. Whenever the loop ends, and so for
    every body of at most 65528 bytes, the outcome is the specification's. Whatever the
    outcome, the only bytes changed are padding bytes set to zero, so every header and every
    value in the buffer is as received, and the slices returned show the padded values.
   */
  method NewPacketFromBytes(buf: array<byte>, n: nat) returns (r: Outcome, spans: seq<Span>)
    requires n <= buf.Length
    modifies buf
    ensures !(20 <= n <= 65535 + 20) ==> r == Expected(old(buf[..n]))
    ensures 20 <= n <= 65535 + 20 ==>
              if EndsFrom(old(buf[20..n]), buf.Length - 20, 0) then r == Expected(old(buf[..n]))
              else r == if PanicsFrom(old(buf[20..n]), buf.Length - 20, 0) then Panicked else Looping
    ensures forall k :: 0 <= k < |spans| ==> Intact(old(buf[..]), buf[..], spans[k])
    ensures forall q :: 0 <= q < buf.Length && buf[q] != old(buf[q]) ==>
              buf[q] == 0 && exists k :: 0 <= k < |spans| && IsPadding(spans[k], q)
    ensures r.Parsed? ==>
              && |spans| == |r.p.attributes|
              && forall k :: 0 <= k < |spans| ==> Shown(buf[..], spans[k], r.p.attributes[k])
  {
    hide Iterate, EndsFrom, PanicsFrom, ParseFrom, Intact, Shown, IsPadding;
    if n < 20 {
      return Failed(TooShort), [];
    }
    if n > 65535 + 20 {
      return Failed(TooLong), [];
    }
    ghost var bytes, body := buf[..n], buf[..][20..n];
    assert bytes[20..] == body == buf[20..n] && bytes[4..20] == buf[4..20];
    var types, length := Rd16(buf[0], buf[1]), Rd16(buf[2], buf[3]);
    var transID := buf[4..20];
    var it, st, raws := ParseLoop(buf, n, length);
    spans := st.spans;
    StopsOnTrack(body, buf.Length - 20, length, raws, st);
    match it
    case Exit => r := Parsed(Packet(types, st.length, transID, st.attrs));
    case BadFormat => r := Failed(Mismatch);
    case Panics => r := Panicked;
    case Attr(_, _, _) => r := Looping;
  }

  // ---------- Printing what was accepted ----------

  /** What an accepting run has parsed takes, padded, at most 65528 bytes. */
  lemma {:induction false} AcceptedSize(body: seq<byte>, cap: nat, pos: u16)
    requires |body| <= 65535 && |body| <= cap && Aligned(pos) && (body == [] ==> pos == 0)
    requires EndsFrom(body, cap, pos) && ParseFrom(body, pos).Some?
    ensures pos + PaddedSize(ParseFrom(body, pos).value) <= 65528
    ensures forall k :: 0 <= k < |ParseFrom(body, pos).value| ==> |ParseFrom(body, pos).value[k].value| <= 65531
    decreases 65536 - pos
  {
    IterateStops(body, cap, pos);
    var it := Iterate(body, cap, pos);
    if it.Attr? {
      ParseUnfold(body, cap, pos);
      hide Iterate, ParseFrom;
      AcceptedSize(body, cap, it.next);
      var tail := ParseFrom(body, it.next).value;
      assert ([Raw(it.types, it.value)] + tail)[1..] == tail;
    } else {
      ExitPosition(body, cap, pos);
    }
  }

  lemma ExitPosition(body: seq<byte>, cap: nat, pos: u16)
    requires |body| <= 65535 && |body| <= cap && Aligned(pos) && Iterate(body, cap, pos).Exit?
    requires body == [] ==> pos == 0
    ensures pos <= 65528
  {
  }

  /** From 65533 bytes on a body is never accepted: no aligned position passes the loop test. */
  lemma {:induction false} LongBodiesAreRefused(body: seq<byte>, cap: nat, pos: u16)
    requires 65533 <= |body| <= 65535 && |body| <= cap && Aligned(pos) && EndsFrom(body, cap, pos)
    ensures ParseFrom(body, pos) == None
    decreases 65536 - pos
  {
    IterateStops(body, cap, pos);
    if Iterate(body, cap, pos).Attr? {
      ParseUnfold(body, cap, pos);
      LongBodiesAreRefused(body, cap, Iterate(body, cap, pos).next);
    }
  }

  /**
    Whatever newPacketFromBytes accepts, it accepts again once printed, with the same type and
    transaction ID and the same attributes but for an empty last one, in any buffer that holds it.
   */
  lemma {:induction false} ParsePrintParse(bytes: seq<byte>, cap: nat, cap': nat)
    requires 20 <= |bytes| <= 65535 + 20 && |bytes| - 20 <= cap && EndsFrom(bytes[20..], cap, 0)
    requires Parse(bytes).Ok?
    ensures |bytes| <= 65532 + 20 && |Print(Parse(bytes).value)| <= 65528 + 20
    ensures var p := Parse(bytes).value;
            && (|Print(p)| - 20 <= cap' ==> EndsFrom(Print(p)[20..], cap', 0))
            && Parse(Print(p)).Ok?
            && Parse(Print(p)).value.attributes == Trim(p.attributes)
            && Parse(Print(p)).value.transID == p.transID
            && Parse(Print(p)).value.types == p.types
  {
    AcceptedSize(bytes[20..], cap, 0);
    if |bytes| > 65532 + 20 {
      LongBodiesAreRefused(bytes[20..], cap, 0);
      assert false;
    }
    var p := Parse(bytes).value;
    hide EndsFrom, ParseFrom, Print, PaddedSize;
    PrintedParses(bytes);
    if |Print(p)| - 20 <= cap' {
      ShortBodiesEnd(Print(p)[20..], cap', 0);
    }
  }
}
