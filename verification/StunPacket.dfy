/**
  The STUN packet codec: attributes padded to four bytes, uint16 arithmetic that wraps,
  a parser that pads attribute values inside the buffer it parses.
 */
module StunPacket {
  import opened Common
  import opened Masks

  type u16 = n: int | 0 <= n < 65536

  /** Conversion of a length to uint16. */
  function Low16(n: nat): u16 { if n < 65536 then n else n % 65536 }

  /** uint16 addition and subtraction. */
  function Add16(a: u16, b: u16): u16 { if a + b < 65536 then a + b else a + b - 65536 }

  function Sub16(a: u16, b: u16): u16 { if a >= b then a - b else a - b + 65536 }

  /** Rounding up to a multiple of four, without wrap-around. */
  function Up4(n: nat): (r: nat)
    ensures n <= r < n + 4
  {
    4 * ((n + 3) / 4)
  }

  predicate Aligned(n: nat) { Up4(n) == n }

  /** `align` on uint16: rounds up, except that 65533 and above wrap to 0. */
  function Align(n: u16): u16 { if n <= 65532 then Up4(n) else 0 }

  lemma Pow14() ensures Pow2(14) == 16384 {}

  /** Masking out the low bit by halves. */
  lemma {:induction false} MaskHalf(x: nat, y: nat)
    requires y > 0
    ensures And(x, 2 * y) == 2 * And(x / 2, y)
  {
    if x == 1 {
      assert And(0, y) == 0;
    }
  }

  lemma {:induction false} MaskLowBits(x: u16)
    ensures And(x, 0xfffc) == 4 * (x / 4)
  {
    hide And, Pow2;
    MaskHalf(x, 0x7ffe);
    MaskHalf(x / 2, 0x3fff);
    MaskIsMod(x / 2 / 2, 14);
    Pow14();
    assert x / 2 / 2 == x / 4;
  }

  /** The Go `align` computes (n + 3) & 0xfffc in uint16. */
  lemma AlignIsMasked(n: u16)
    ensures Align(n) == And(Add16(n, 3), 0xfffc)
  {
    MaskLowBits(Add16(n, 3));
  }

  function Be16(n: u16): (b: seq<byte>) { [n / 256, n % 256] }

  function Rd16(hi: byte, lo: byte): u16 { hi * 256 + lo }

  function Zeros(n: nat): seq<byte> { seq(n, _ => 0) }

  // ---------- Packets and their bytes ----------

  datatype Attribute = Attribute(types: u16, length: u16, value: seq<byte>)

  datatype Packet = Packet(types: u16, length: u16, transID: seq<byte>, attributes: seq<Attribute>)

  /** `padding`: the number of zero bytes appended, in uint16 arithmetic. */
  function PadLen(n: nat): u16 { Sub16(Align(Low16(n)), Low16(n)) }

  function NewAttribute(types: u16, value: seq<byte>): Attribute {
    var padded := value + Zeros(PadLen(|value|));
    Attribute(types, Low16(|padded|), padded)
  }

  /** A value that fits is padded to a multiple of four and its length is the padded one. */
  lemma NewAttributeFits(types: u16, value: seq<byte>)
    requires |value| <= 65532
    ensures var a := NewAttribute(types, value);
            && |a.value| == Up4(|value|) == a.length
            && a.value[..|value|] == value
            && (forall k :: |value| <= k < |a.value| ==> a.value[k] == 0)
  {
  }

  /** What NewAttribute makes of a value that fits. */
  predicate Padded(a: Attribute) {
    Aligned(|a.value|) && |a.value| <= 65532 && a.length == |a.value|
  }

  lemma PaddedAgain(a: Attribute)
    requires Padded(a)
    ensures NewAttribute(a.types, a.value) == a
  {
    assert a.value + Zeros(0) == a.value;
  }

  function AddLength(length: u16, a: Attribute): u16 { Add16(length, Add16(Align(a.length), 4)) }

  function Add(p: Packet, a: Attribute): Packet {
    p.(attributes := p.attributes + [a], length := AddLength(p.length, a))
  }

  function AttrBytes(a: Attribute): seq<byte> { Be16(a.types) + Be16(a.length) + a.value }

  function Body(attrs: seq<Attribute>): seq<byte> {
    if attrs == [] then [] else AttrBytes(attrs[0]) + Body(attrs[1..])
  }

  function Print(p: Packet): seq<byte> {
    Be16(p.types) + Be16(p.length) + p.transID + Body(p.attributes)
  }

  // ---------- What parsing means, in unbounded arithmetic ----------

  datatype Error = TooShort | TooLong | Mismatch

  /** An attribute as found in a body: its type and its unpadded value. */
  datatype Raw = Raw(types: u16, value: seq<byte>)

  /** The attributes from `pos` on; four bytes or fewer at the end are not an attribute. */
  function ParseFrom(b: seq<byte>, pos: nat): Option<seq<Raw>>
    decreases if pos < |b| then |b| - pos else 0
  {
    if pos + 4 >= |b| then Some([])
    else
      var n := Rd16(b[pos + 2], b[pos + 3]);
      if pos + 4 + n > |b| then None
      else Cons(Raw(Rd16(b[pos], b[pos + 1]), b[pos + 4..pos + 4 + n]), ParseFrom(b, pos + 4 + Up4(n)))
  }

  function Cons(a: Raw, rest: Option<seq<Raw>>): Option<seq<Raw>> {
    if rest.None? then None else Some([a] + rest.value)
  }

  /** newAttribute on each. */
  function Attrs(raws: seq<Raw>): (attrs: seq<Attribute>)
    ensures |attrs| == |raws|
    ensures forall k :: 0 <= k < |raws| ==> attrs[k] == NewAttribute(raws[k].types, raws[k].value)
  {
    seq(|raws|, k requires 0 <= k < |raws| => NewAttribute(raws[k].types, raws[k].value))
  }

  function AddAll(length: u16, attrs: seq<Attribute>): u16 {
    if attrs == [] then length else AddLength(AddAll(length, attrs[..|attrs| - 1]), attrs[|attrs| - 1])
  }

  function Parse(bytes: seq<byte>): Result<Packet, Error> {
    if |bytes| < 20 then Err(TooShort)
    else if |bytes| > 65535 + 20 then Err(TooLong)
    else match ParseFrom(bytes[20..], 0)
         case None => Err(Mismatch)
         case Some(raws) =>
           Ok(Packet(Rd16(bytes[0], bytes[1]), AddAll(Rd16(bytes[2], bytes[3]), Attrs(raws)), bytes[4..20],
                     Attrs(raws)))
  }

  // ---------- Round trips ----------

  /** A zero-length attribute at the very end of a body is not parsed. */
  function Trim(attrs: seq<Attribute>): seq<Attribute> {
    if attrs != [] && attrs[|attrs| - 1].value == [] then attrs[..|attrs| - 1] else attrs
  }

  /** Most significant byte first. */
  lemma Be16RoundTrip(n: u16)
    ensures Rd16(Be16(n)[0], Be16(n)[1]) == n
    ensures var b: seq<int> := Be16(n); 256 * b[0] + b[1] == n
  {
  }

  /** The layout of one printed attribute followed by anything. */
  lemma AttrLayout(a: Attribute, tail: seq<byte>)
    requires Padded(a)
    ensures var b := AttrBytes(a) + tail;
            && |b| == 4 + a.length + |tail|
            && Rd16(b[0], b[1]) == a.types && Rd16(b[2], b[3]) == a.length
            && b[4..4 + a.length] == a.value && b[4 + a.length..] == tail
  {
    Be16RoundTrip(a.types);
    Be16RoundTrip(a.length);
    var b := AttrBytes(a) + tail;
    assert b[0..2] == Be16(a.types) && b[2..4] == Be16(a.length);
  }

  lemma ShiftSlices(p: seq<byte>, b: seq<byte>, i: nat, j: nat)
    requires i <= j <= |b|
    ensures (p + b)[|p| + i..|p| + j] == b[i..j]
  {
  }

  /** Parsing does not look at what comes before. */
  lemma {:induction false} ParseShift(p: seq<byte>, b: seq<byte>, pos: nat)
    ensures ParseFrom(p + b, |p| + pos) == ParseFrom(b, pos)
    decreases if pos < |b| then |b| - pos else 0
  {
    hide Up4;
    if pos + 4 < |b| {
      var n := Rd16(b[pos + 2], b[pos + 3]);
      assert Rd16((p + b)[|p| + pos + 2], (p + b)[|p| + pos + 3]) == n;
      if pos + 4 + n <= |b| {
        ShiftSlices(p, b, pos + 4, pos + 4 + n);
        ParseShift(p, b, pos + 4 + Up4(n));
        assert |p| + (pos + 4 + Up4(n)) == |p| + pos + 4 + Up4(n);
      }
    }
  }

  /** One step of the parser on a printed attribute. */
  lemma {:induction false} ParseOne(a: Attribute, tail: seq<byte>)
    requires Padded(a) && (a.value != [] || tail != [])
    ensures ParseFrom(AttrBytes(a) + tail, 0) == Cons(Raw(a.types, a.value), ParseFrom(tail, 0))
  {
    AttrLayout(a, tail);
    ParseShift(AttrBytes(a), tail, 0);
  }

  /** The raw attributes that NewAttribute leaves as they are. */
  function Raws(attrs: seq<Attribute>): (raws: seq<Raw>)
    ensures |raws| == |attrs|
    ensures forall k :: 0 <= k < |attrs| ==> raws[k] == Raw(attrs[k].types, attrs[k].value)
  {
    seq(|attrs|, k requires 0 <= k < |attrs| => Raw(attrs[k].types, attrs[k].value))
  }

  lemma AttrsOfRaws(attrs: seq<Attribute>)
    requires forall k :: 0 <= k < |attrs| ==> Padded(attrs[k])
    ensures Attrs(Raws(attrs)) == attrs
  {
    forall k | 0 <= k < |attrs|
      ensures NewAttribute(attrs[k].types, attrs[k].value) == attrs[k]
    {
      PaddedAgain(attrs[k]);
    }
  }

  lemma ParseLast(a: Attribute)
    requires Padded(a)
    ensures ParseFrom(AttrBytes(a), 0) == Some(Raws(Trim([a])))
  {
    assert AttrBytes(a) + [] == AttrBytes(a);
    if a.value != [] {
      ParseOne(a, []);
      assert [Raw(a.types, a.value)] + [] == Raws([a]);
    } else {
      assert |AttrBytes(a)| == 4;
    }
  }

  lemma {:induction false} BodyCons(a: Attribute, rest: seq<Attribute>)
    ensures Body([a] + rest) == AttrBytes(a) + Body(rest)
  {
    assert ([a] + rest)[1..] == rest;
  }

  lemma {:induction false} BodyNonEmpty(attrs: seq<Attribute>)
    requires attrs != []
    ensures Body(attrs) != []
  {
  }

  lemma {:induction false} ParseBodyStep(a: Attribute, rest: seq<Attribute>)
    requires Padded(a) && rest != [] && ParseFrom(Body(rest), 0) == Some(Raws(Trim(rest)))
    ensures ParseFrom(Body([a] + rest), 0) == Some(Raws(Trim([a] + rest)))
  {
    hide ParseFrom, Body, AttrBytes;
    BodyCons(a, rest);
    BodyNonEmpty(rest);
    ParseOne(a, Body(rest));
    TrimCons(a, rest);
    assert [Raw(a.types, a.value)] + Raws(Trim(rest)) == Raws([a] + Trim(rest));
  }

  /** Parsing a printed body gives its attributes back, but for a zero-length last one. */
  lemma {:induction false} ParseBody(attrs: seq<Attribute>)
    requires forall k :: 0 <= k < |attrs| ==> Padded(attrs[k])
    ensures ParseFrom(Body(attrs), 0) == Some(Raws(Trim(attrs)))
    decreases |attrs|
  {
    if attrs == [] {
      assert Raws([]) == [];
    } else if |attrs| == 1 {
      assert attrs == [attrs[0]];
      BodyCons(attrs[0], []);
      assert AttrBytes(attrs[0]) + [] == AttrBytes(attrs[0]);
      ParseLast(attrs[0]);
    } else {
      ParseBody(attrs[1..]);
      ParseBodyStep(attrs[0], attrs[1..]);
      assert attrs == [attrs[0]] + attrs[1..];
    }
  }

  lemma TrimCons(a: Attribute, rest: seq<Attribute>)
    requires rest != []
    ensures Trim([a] + rest) == [a] + Trim(rest)
  {
  }

  lemma {:induction false} BodyAppend(attrs: seq<Attribute>, a: Attribute)
    ensures Body(attrs + [a]) == Body(attrs) + AttrBytes(a)
    decreases |attrs|
  {
    if attrs == [] {
      assert [] + [a] == [a];
    } else {
      assert (attrs + [a])[1..] == attrs[1..] + [a];
      BodyAppend(attrs[1..], a);
    }
  }

  lemma {:induction false} AddAllAppend(length: u16, attrs: seq<Attribute>, a: Attribute)
    ensures AddAll(length, attrs + [a]) == AddLength(AddAll(length, attrs), a)
  {
    assert (attrs + [a])[..|attrs|] == attrs;
  }

  /** Adding attributes adds their printed size to the length field, modulo 2^16. */
  lemma {:induction false} AddAllIsBodySize(length: u16, attrs: seq<Attribute>)
    requires forall k :: 0 <= k < |attrs| ==> Padded(attrs[k])
    requires |Body(attrs)| <= 65535
    ensures AddAll(length, attrs) == Add16(length, |Body(attrs)|)
    decreases |attrs|
  {
    if attrs != [] {
      var init, a := attrs[..|attrs| - 1], attrs[|attrs| - 1];
      assert attrs == init + [a];
      BodyAppend(init, a);
      AddAllIsBodySize(length, init);
    }
  }

  lemma PrintLayout(p: Packet)
    requires |p.transID| == 16
    ensures var b := Print(p);
            && |b| == 20 + |Body(p.attributes)|
            && Rd16(b[0], b[1]) == p.types && Rd16(b[2], b[3]) == p.length
            && b[4..20] == p.transID && b[20..] == Body(p.attributes)
  {
    Be16RoundTrip(p.types);
    Be16RoundTrip(p.length);
    var b := Print(p);
    assert b[0..2] == Be16(p.types) && b[2..4] == Be16(p.length);
  }

  lemma {:induction false} TrimSize(attrs: seq<Attribute>)
    ensures |Body(Trim(attrs))| <= |Body(attrs)|
  {
    if Trim(attrs) != attrs {
      BodyAppend(Trim(attrs), attrs[|attrs| - 1]);
      assert attrs == Trim(attrs) + [attrs[|attrs| - 1]];
    }
  }

  /**
    Parsing undoes printing for every packet of padded attributes that fits: type,
    transaction ID and attributes come back, except that a zero-length last attribute is
    lost. The length field does not: the parser adds the attributes to the one it read.
   */
  lemma ParsePrint(p: Packet)
    requires |p.transID| == 16 && |Body(p.attributes)| <= 65535
    requires forall k :: 0 <= k < |p.attributes| ==> Padded(p.attributes[k])
    ensures Parse(Print(p)) == Ok(Packet(p.types, Add16(p.length, Low16(|Body(Trim(p.attributes))|)), p.transID,
                                         Trim(p.attributes)))
    ensures Parse(Print(p)).value.attributes == p.attributes
            <==> p.attributes == [] || p.attributes[|p.attributes| - 1].value != []
  {
    PrintLayout(p);
    ParseBody(p.attributes);
    TrimSize(p.attributes);
    AttrsOfRaws(Trim(p.attributes));
    AddAllIsBodySize(p.length, Trim(p.attributes));
  }

  lemma Up4Mono(n: nat, total: nat)
    requires n <= total
    ensures Up4(n) <= Up4(total)
  {
  }

  /** The end of a padded value after an aligned header. */
  lemma Up4After(pos: nat, n: nat)
    requires Aligned(pos)
    ensures Up4(pos + 4 + n) == pos + 4 + Up4(n) && Aligned(pos + 4 + Up4(n))
  {
  }

  lemma AttrsCons(a: Raw, tail: seq<Raw>)
    ensures Attrs([a] + tail) == [NewAttribute(a.types, a.value)] + Attrs(tail)
  {
  }

  /** The printed size of raw attributes once padded. */
  function PaddedSize(raws: seq<Raw>): nat {
    if raws == [] then 0 else 4 + Up4(|raws[0].value|) + PaddedSize(raws[1..])
  }

  lemma {:induction false} BodyOfAttrs(raws: seq<Raw>)
    requires forall k :: 0 <= k < |raws| ==> |raws[k].value| <= 65531
    ensures |Body(Attrs(raws))| == PaddedSize(raws)
    decreases |raws|
  {
    if raws != [] {
      var a, tail := raws[0], raws[1..];
      assert raws == [a] + tail;
      BodyOfAttrs(tail);
      AttrsCons(a, tail);
      NewAttributeFits(a.types, a.value);
      BodyCons(NewAttribute(a.types, a.value), Attrs(tail));
    }
  }

  /** What was parsed takes no more room than the body rounded up. */
  lemma {:induction false} ParsedSize(b: seq<byte>, pos: nat)
    requires |b| <= 65535 && pos <= Up4(|b|) && Aligned(pos) && ParseFrom(b, pos).Some?
    ensures forall k :: 0 <= k < |ParseFrom(b, pos).value| ==> |ParseFrom(b, pos).value[k].value| <= 65531
    ensures pos + PaddedSize(ParseFrom(b, pos).value) <= Up4(|b|)
    decreases if pos < |b| then |b| - pos else 0
  {
    if pos + 4 < |b| {
      var n := Rd16(b[pos + 2], b[pos + 3]);
      var next := pos + 4 + Up4(n);
      Up4After(pos, n);
      Up4Mono(pos + 4 + n, |b|);
      ParsedSize(b, next);
      var a := Raw(Rd16(b[pos], b[pos + 1]), b[pos + 4..pos + 4 + n]);
      var tail := ParseFrom(b, next).value;
      assert ([a] + tail)[1..] == tail;
    }
  }

  lemma AttrsArePadded(raws: seq<Raw>)
    requires forall k :: 0 <= k < |raws| ==> |raws[k].value| <= 65531
    ensures forall k :: 0 <= k < |raws| ==> Padded(Attrs(raws)[k])
  {
    forall k | 0 <= k < |raws|
      ensures Padded(Attrs(raws)[k])
    {
      NewAttributeFits(raws[k].types, raws[k].value);
    }
  }

  /** Printing what was parsed and parsing again gives the same attributes but for an empty last one. */
  lemma PrintedParses(bytes: seq<byte>)
    requires |bytes| >= 20 && Parse(bytes).Ok?
    requires forall k :: 0 <= k < |ParseFrom(bytes[20..], 0).value| ==>
               |ParseFrom(bytes[20..], 0).value[k].value| <= 65531
    requires PaddedSize(ParseFrom(bytes[20..], 0).value) <= 65535
    ensures var p := Parse(bytes).value;
            && |Print(p)| == 20 + PaddedSize(ParseFrom(bytes[20..], 0).value)
            && Parse(Print(p)).Ok?
            && Parse(Print(p)).value.attributes == Trim(p.attributes)
            && Parse(Print(p)).value.transID == p.transID
            && Parse(Print(p)).value.types == p.types
  {
    var p := Parse(bytes).value;
    hide ParseFrom, Print, PaddedSize;
    AttrsArePadded(ParseFrom(bytes[20..], 0).value);
    BodyOfAttrs(ParseFrom(bytes[20..], 0).value);
    PrintLayout(p);
    ParsePrint(p);
  }
}
