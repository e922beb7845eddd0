/**
  A binding request: software name, optional change request and fingerprint. The checksum
  is a parameter; what matters is which bytes it is given.
 */
module StunRequest {
  import opened Common
  import opened StunPacket
  import opened StunParser

  const TYPE_BINDING_REQUEST: u16 := 0x0001
  const ATTRIBUTE_CHANGE_REQUEST: u16 := 0x0003
  const ATTRIBUTE_SOFTWARE: u16 := 0x8022
  const ATTRIBUTE_FINGERPRINT: u16 := 0x8028

  /** Four bytes: the checksum of a byte string xor the fingerprint constant, big-endian. */
  type Word = w: seq<byte> | |w| == 4 witness [0, 0, 0, 0]

  type Checksum = seq<byte> -> Word

  function ChangeRequest(changeIP: bool, changePort: bool): Attribute {
    var flags: byte := (if changeIP then 0x04 else 0) + (if changePort then 0x02 else 0);
    NewAttribute(ATTRIBUTE_CHANGE_REQUEST, [0, 0, 0, flags])
  }

  /** The attributes before the fingerprint. */
  function Unsigned(name: seq<byte>, changeIP: bool, changePort: bool): seq<Attribute> {
    [NewAttribute(ATTRIBUTE_SOFTWARE, name)]
    + if changeIP || changePort then [ChangeRequest(changeIP, changePort)] else []
  }

  /** The longest name whose packet has a body of at most 65535 bytes. */
  function LongestName(changeIP: bool, changePort: bool): nat {
    if changeIP || changePort then 65512 else 65520
  }

  lemma WordAttribute(types: u16, w: Word)
    ensures NewAttribute(types, w) == Attribute(types, 4, w)
  {
    assert PadLen(4) == 0;
    assert w + Zeros(0) == w;
  }

  lemma {:induction false} UnsignedSize(name: seq<byte>, changeIP: bool, changePort: bool)
    ensures var size := |Body(Unsigned(name, changeIP, changePort))|;
            && size + 8 >= 12 + |name| + (if changeIP || changePort then 8 else 0)
            && (|name| <= 65532 ==> size + 8 == 12 + Up4(|name|) + (if changeIP || changePort then 8 else 0))
  {
    var a := NewAttribute(ATTRIBUTE_SOFTWARE, name);
    if |name| <= 65532 {
      NewAttributeFits(ATTRIBUTE_SOFTWARE, name);
    }
    if changeIP || changePort {
      var c := ChangeRequest(changeIP, changePort);
      WordAttribute(ATTRIBUTE_CHANGE_REQUEST, c.value);
      BodyCons(a, [c]);
      BodyCons(c, []);
      assert [c] + [] == [c];
    } else {
      BodyCons(a, []);
    }
  }

  /** A printed attribute at the end, split off. */
  lemma PrintAppend(p: Packet, length: u16, a: Attribute)
    requires |p.transID| == 16
    ensures Print(p.(length := length, attributes := p.attributes + [a])) == Print(p.(length := length)) + AttrBytes(a)
  {
    BodyAppend(p.attributes, a);
  }

  lemma AddAllNone()
    ensures AddAll(0, []) == 0
  {
  }

  /** The size of the signed packet's body against the longest name. */
  lemma SignedSize(name: seq<byte>, changeIP: bool, changePort: bool, fp: Attribute)
    requires |fp.value| == 4
    ensures var size := |Body(Unsigned(name, changeIP, changePort) + [fp])|;
            && size == |Body(Unsigned(name, changeIP, changePort))| + 8
            && (size <= 65535 <==> |name| <= LongestName(changeIP, changePort))
  {
    UnsignedSize(name, changeIP, changePort);
    BodyAppend(Unsigned(name, changeIP, changePort), fp);
    if |name| <= 65532 {
      Up4Mono(|name|, 65532);
    }
  }

  lemma SignedPadded(name: seq<byte>, changeIP: bool, changePort: bool, fp: Attribute)
    requires |name| <= 65532 && Padded(fp)
    ensures var attrs := Unsigned(name, changeIP, changePort) + [fp];
            forall k :: 0 <= k < |attrs| ==> Padded(attrs[k])
  {
    NewAttributeFits(ATTRIBUTE_SOFTWARE, name);
    if changeIP || changePort {
      WordAttribute(ATTRIBUTE_CHANGE_REQUEST, ChangeRequest(changeIP, changePort).value);
    }
  }

  /** The length field of the signed packet, once everything is added. */
  lemma SignedLength(name: seq<byte>, changeIP: bool, changePort: bool, fp: Attribute)
    requires |name| <= LongestName(changeIP, changePort) && Padded(fp) && |fp.value| == 4
    ensures var attrs := Unsigned(name, changeIP, changePort) + [fp];
            AddAll(0, attrs) == |Body(attrs)|
  {
    SignedSize(name, changeIP, changePort, fp);
    SignedPadded(name, changeIP, changePort, fp);
    AddAllIsBodySize(0, Unsigned(name, changeIP, changePort) + [fp]);
  }

  /** What the two printings have to do with each other. */
  lemma SentLayout(name: seq<byte>, changeIP: bool, changePort: bool, p: Packet, q: Packet,
                   covered: seq<byte>, word: Word)
    requires |p.transID| == 16 && p.attributes == Unsigned(name, changeIP, changePort)
    requires p.length == AddAll(0, p.attributes) && covered == Print(p.(length := Add16(p.length, 8)))
    requires q == Add(p, NewAttribute(ATTRIBUTE_FINGERPRINT, word))
    ensures var sent := Print(q);
            && |sent| >= 28 && covered == sent[..|sent| - 8]
            && sent[|sent| - 8..] == Be16(ATTRIBUTE_FINGERPRINT) + Be16(4) + word
            && (Rd16(sent[2], sent[3]) == |sent| - 20 <==> |name| <= LongestName(changeIP, changePort))
            && (|name| <= LongestName(changeIP, changePort) ==>
                  && Parse(sent).Ok?
                  && Parse(sent).value.types == p.types && Parse(sent).value.transID == p.transID
                  && Parse(sent).value.attributes == q.attributes)
  {
    WordAttribute(ATTRIBUTE_FINGERPRINT, word);
    var fp := NewAttribute(ATTRIBUTE_FINGERPRINT, word);
    PrintAppend(p, q.length, fp);
    PrintLayout(q);
    PrintLayout(p.(length := q.length));
    SignedSize(name, changeIP, changePort, fp);
    AddAllAppend(0, p.attributes, fp);
    if |name| <= LongestName(changeIP, changePort) {
      SignedLength(name, changeIP, changePort, fp);
      SignedPadded(name, changeIP, changePort, fp);
      ParsePrint(q);
    }
  }

  /**
    The attributes a receiver finds, by their numbers: the software name, zero-padded; if a change is
    asked for, the change request, in whose last byte bit 2 asks for another address and bit 1 for
    another port; the fingerprint.
   */
  predicate Carries(attrs: seq<Attribute>, name: seq<byte>, changeIP: bool, changePort: bool, word: Word) {
    var last := if changeIP || changePort then 2 else 1;
    && |attrs| == last + 1
    && attrs[0].types == 0x8022 && |attrs[0].value| == Up4(|name|) && attrs[0].value[..|name|] == name
    && (forall k :: |name| <= k < |attrs[0].value| ==> attrs[0].value[k] == 0)
    && (changeIP || changePort ==> attrs[1].types == 0x0003 && Asks(attrs[1].value, changeIP, changePort))
    && attrs[last] == Attribute(0x8028, 4, word)
  }

  predicate Asks(value: seq<byte>, changeIP: bool, changePort: bool) {
    && |value| == 4 && value[..3] == [0, 0, 0] && value[3] < 8 && value[3] % 2 == 0
    && (value[3] / 4 % 2 == 1 <==> changeIP) && (value[3] / 2 % 2 == 1 <==> changePort)
  }

  lemma UnsignedCarries(name: seq<byte>, changeIP: bool, changePort: bool, word: Word)
    requires |name| <= 65532
    ensures var attrs := Unsigned(name, changeIP, changePort) + [Attribute(0x8028, 4, word)];
            Carries(attrs, name, changeIP, changePort, word)
  {
    NewAttributeFits(ATTRIBUTE_SOFTWARE, name);
    if changeIP || changePort {
      var flags: byte := (if changeIP then 0x04 else 0) + (if changePort then 0x02 else 0);
      WordAttribute(ATTRIBUTE_CHANGE_REQUEST, [0, 0, 0, flags]);
    }
    hide NewAttribute;
  }

  const MAGIC_COOKIE: seq<byte> := [0x21, 0x12, 0xa4, 0x42]

  /**
    The sent packet for every name and every pair of flags: the checksum covers exactly the
    packet without its last eight bytes, which are the fingerprint attribute; the length
    field is the packet's size minus 20 exactly for the names that fit; and then a receiver
    parses back a binding request with the magic cookie, the random bytes and the attributes
    that were asked for.
   */
  method BindingRequest(name: seq<byte>, changeIP: bool, changePort: bool, random: seq<byte>, checksum: Checksum)
    returns (sent: seq<byte>, covered: seq<byte>)
    requires |random| == 12
    ensures |sent| >= 28 && covered == sent[..|sent| - 8]
    ensures sent[|sent| - 8..] == [0x80, 0x28, 0, 4] + checksum(covered)
    ensures Rd16(sent[2], sent[3]) == |sent| - 20 <==> |name| <= LongestName(changeIP, changePort)
    ensures |name| <= LongestName(changeIP, changePort) ==>
              && Parse(sent).Ok?
              && Parse(sent).value.types == 0x0001 && Parse(sent).value.transID == [0x21, 0x12, 0xa4, 0x42] + random
              && Carries(Parse(sent).value.attributes, name, changeIP, changePort, checksum(covered))
  {
    FingerprintHeader();
    hide Print, Parse, NewAttribute, AddLength, AddAll, ChangeRequest, Be16, Rd16, Carries;
    var transID := MAGIC_COOKIE + random;
    var pkt := new PacketBuilder(transID);
    AddAllNone();
    pkt.types := TYPE_BINDING_REQUEST;
    AddAllAppend(0, [], NewAttribute(ATTRIBUTE_SOFTWARE, name));
    pkt.AddAttribute(NewAttribute(ATTRIBUTE_SOFTWARE, name));
    ghost var attrs := Unsigned(name, changeIP, changePort);
    if changeIP || changePort {
      AddAllAppend(0, pkt.attributes, ChangeRequest(changeIP, changePort));
      pkt.AddAttribute(ChangeRequest(changeIP, changePort));
    }
    assert pkt.attributes == attrs && pkt.length == AddAll(0, attrs);
    ghost var p := pkt.Value();
    pkt.length := Add16(pkt.length, 8);
    covered := pkt.Bytes();
    pkt.length := Sub16(pkt.length, 8);
    assert pkt.Value() == p;
    WordAttribute(ATTRIBUTE_FINGERPRINT, checksum(covered));
    pkt.AddAttribute(NewAttribute(ATTRIBUTE_FINGERPRINT, checksum(covered)));
    sent := pkt.Bytes();
    SentLayout(name, changeIP, changePort, p, pkt.Value(), covered, checksum(covered));
    if |name| <= LongestName(changeIP, changePort) {
      UnsignedCarries(name, changeIP, changePort, checksum(covered));
    }
  }

  lemma FingerprintHeader()
    ensures Be16(ATTRIBUTE_FINGERPRINT) + Be16(4) == [0x80, 0x28, 0, 4]
  {
  }
}
