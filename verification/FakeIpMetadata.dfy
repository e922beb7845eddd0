/** The fake-IP metadata's binary form: four elements, each behind a 16-bit length. */
module FakeIpMetadata {
  import opened Common
  import opened Wire

  /** The elements' own codecs, by position; they belong to net/netip and may fail. */
  datatype Codec<!V> = Codec(enc: (nat, V) -> Option<seq<byte>>, dec: (nat, seq<byte>) -> Option<V>)

  /** A short length is not an error but a panic. */
  datatype Outcome = Done | Failed | Panicked

  /** uint16(len(data)) before the element: the length wraps. */
  function Frame(e: seq<byte>): (f: seq<byte>)
    ensures |f| == |e| + 2
  {
    PutFixed(|e| % TWO16, 2) + e
  }

  /** The elements from i on, framed. */
  function ImageFrom<V>(c: Codec<V>, vs: seq<V>, i: nat): Option<seq<byte>>
    requires i <= |vs|
    decreases |vs| - i
  {
    if i == |vs| then Some([])
    else match c.enc(i, vs[i])
         case None => None
         case Some(e) =>
           match ImageFrom(c, vs, i + 1)
           case None => None
           case Some(rest) => Some(Frame(e) + rest)
  }

  /** Reading elements i and on of `vs` from position pos; elements read before a failure stay read. */
  function LoadFrom<V>(c: Codec<V>, vs: seq<V>, data: seq<byte>, pos: nat, i: nat): (r: (seq<V>, Outcome))
    requires i <= |vs| && pos <= |data|
    ensures |r.0| == |vs| && r.0[..i] == vs[..i]
    decreases |vs| - i
  {
    if i == |vs| then (vs, Done)
    else if pos + 2 > |data| then (vs, Panicked)
    else
      var next := pos + 2 + GetFixed(data[pos..pos + 2]);
      if next > |data| then (vs, Failed)
      else match c.dec(i, data[pos + 2..next])
           case None => (vs, Failed)
           case Some(v) =>
             var r := LoadFrom(c, vs[i := v], data, next, i + 1);
             assert r.0[..i] == r.0[..i + 1][..i] == vs[i := v][..i + 1][..i] == vs[..i];
             r
  }

  // ---------- Round trip ----------

  /** The element codec reads back what it wrote. */
  ghost predicate ReadsBack<V(!new)>(c: Codec<V>) {
    forall i, v :: c.enc(i, v).Some? ==> c.dec(i, c.enc(i, v).value) == Some(v)
  }

  /** No value is read from a proper prefix of its own form. */
  ghost predicate NeedsAll<V(!new)>(c: Codec<V>) {
    forall i, v, k: nat :: c.enc(i, v).Some? && k < |c.enc(i, v).value| ==> c.dec(i, c.enc(i, v).value[..k]) != Some(v)
  }

  /** Every element's form fits the 16-bit length. */
  predicate Fits<V>(c: Codec<V>, vs: seq<V>, i: nat) {
    forall k :: i <= k < |vs| ==> c.enc(k, vs[k]).Some? ==> |c.enc(k, vs[k]).value| < TWO16
  }

  lemma FrameRead(before: seq<byte>, e: seq<byte>, rest: seq<byte>)
    ensures var data := before + (Frame(e) + rest);
            && GetFixed(data[|before|..|before| + 2]) == |e| % TWO16
            && |before| + 2 + |e| % TWO16 <= |data|
            && data[|before| + 2..|before| + 2 + |e| % TWO16] == e[..|e| % TWO16]
  {
    var n := |e| % TWO16;
    var data, head := before + (Frame(e) + rest), PutFixed(n, 2);
    GetPutFixed(n, 2);
    assert Pow256(2) == TWO16;
    hide PutFixed, GetFixed;
    assert data == before + head + e + rest;
    assert data[|before|..|before| + 2] == head;
    assert data[|before| + 2..|before| + 2 + n] == e[..n];
  }

  lemma LoadUnfold<V(!new)>(c: Codec<V>, vs: seq<V>, data: seq<byte>, pos: nat, i: nat, e: seq<byte>)
    requires i < |vs| && pos + 2 + |e| <= |data| && c.dec(i, e).Some?
    requires GetFixed(data[pos..pos + 2]) == |e| && data[pos + 2..pos + 2 + |e|] == e
    ensures LoadFrom(c, vs, data, pos, i) == LoadFrom(c, vs[i := c.dec(i, e).value], data, pos + 2 + |e|, i + 1)
  {
    hide GetFixed;
  }

  /** Where one framed element that fits lies. */
  lemma FrameFits(before: seq<byte>, e: seq<byte>, rest: seq<byte>)
    requires |e| < TWO16
    ensures var data := before + (Frame(e) + rest);
            && GetFixed(data[|before|..|before| + 2]) == |e|
            && data[|before| + 2..|before| + 2 + |e|] == e
            && data == before + Frame(e) + rest
  {
    hide Frame, GetFixed;
    FrameRead(before, e, rest);
    assert e[..|e|] == e;
  }

  lemma {:induction false} LoadEnd<V(!new)>(c: Codec<V>, vs: seq<V>, data: seq<byte>, pos: nat)
    requires pos <= |data|
    ensures LoadFrom(c, vs, data, pos, |vs|) == (vs, Done)
  {
  }

  lemma ReadsBackAt<V(!new)>(c: Codec<V>, i: nat, v: V)
    requires ReadsBack(c) && c.enc(i, v).Some?
    ensures c.dec(i, c.enc(i, v).value) == Some(v)
  {
  }

  lemma {:induction false} LoadImageFrom<V(!new)>(c: Codec<V>, vs: seq<V>, was: seq<V>, before: seq<byte>, i: nat)
    requires |was| == |vs| && i <= |vs| && was[..i] == vs[..i]
    requires ReadsBack(c) && ImageFrom(c, vs, i).Some? && Fits(c, vs, i)
    ensures LoadFrom(c, was, before + ImageFrom(c, vs, i).value, |before|, i) == (vs, Done)
    decreases |vs| - i
  {
    hide Frame, LoadFrom, ReadsBack, GetFixed;
    if i == |vs| {
      assert was == was[..i] == vs[..i] == vs;
      LoadEnd(c, vs, before + [], |before|);
    } else {
      var e := c.enc(i, vs[i]).value;
      var rest := ImageFrom(c, vs, i + 1).value;
      ReadsBackAt(c, i, vs[i]);
      FrameFits(before, e, rest);
      LoadUnfold(c, was, before + (Frame(e) + rest), |before|, i, e);
      LoadImageFrom(c, vs, was[i := vs[i]], before + Frame(e), i + 1);
    }
  }

  lemma {:induction false} LoadRefused<V(!new)>(c: Codec<V>, vs: seq<V>, data: seq<byte>, pos: nat, i: nat,
                                                e: seq<byte>)
    requires i < |vs| && pos + 2 + |e| <= |data| && c.dec(i, e).None?
    requires GetFixed(data[pos..pos + 2]) == |e| && data[pos + 2..pos + 2 + |e|] == e
    ensures LoadFrom(c, vs, data, pos, i) == (vs, Failed)
  {
    hide GetFixed;
  }

  lemma LoadKeeps<V(!new)>(c: Codec<V>, vs: seq<V>, data: seq<byte>, pos: nat, i: nat)
    requires i < |vs| && pos <= |data|
    ensures LoadFrom(c, vs, data, pos, i + 1).0[i] == vs[i]
  {
    hide LoadFrom;
    var r := LoadFrom(c, vs, data, pos, i + 1).0;
    assert r[i] == r[..i + 1][i] == vs[..i + 1][i];
  }

  lemma NeedsAllAt<V(!new)>(c: Codec<V>, i: nat, v: V, k: nat)
    requires NeedsAll(c) && c.enc(i, v).Some? && k < |c.enc(i, v).value|
    ensures c.dec(i, c.enc(i, v).value[..k]) != Some(v)
  {
  }

  /** An element that does not decode to the value spoils the result. */
  lemma {:induction false} ReadShort<V(!new)>(c: Codec<V>, vs: seq<V>, was: seq<V>, data: seq<byte>,
                                              pos: nat, i: nat, e: seq<byte>)
    requires |was| == |vs| && i < |vs| && pos + 2 + |e| <= |data|
    requires GetFixed(data[pos..pos + 2]) == |e| && data[pos + 2..pos + 2 + |e|] == e
    requires c.dec(i, e) != Some(vs[i])
    ensures LoadFrom(c, was, data, pos, i) != (vs, Done)
  {
    hide GetFixed, LoadFrom;
    if c.dec(i, e).Some? {
      LoadUnfold(c, was, data, pos, i, e);
      LoadKeeps(c, was[i := c.dec(i, e).value], data, pos + 2 + |e|, i);
    } else {
      LoadRefused(c, was, data, pos, i, e);
    }
  }

  lemma {:induction false} WrapLoses<V(!new)>(c: Codec<V>, vs: seq<V>, was: seq<V>, before: seq<byte>, i: nat)
    requires |was| == |vs| && i <= |vs|
    requires ReadsBack(c) && NeedsAll(c) && ImageFrom(c, vs, i).Some? && !Fits(c, vs, i)
    ensures LoadFrom(c, was, before + ImageFrom(c, vs, i).value, |before|, i) != (vs, Done)
    decreases |vs| - i
  {
    hide Frame, LoadFrom, ReadsBack, NeedsAll, GetFixed;
    var e := c.enc(i, vs[i]).value;
    var rest := ImageFrom(c, vs, i + 1).value;
    if |e| < TWO16 {
      ReadsBackAt(c, i, vs[i]);
      FrameFits(before, e, rest);
      LoadUnfold(c, was, before + (Frame(e) + rest), |before|, i, e);
      WrapLoses(c, vs, was[i := vs[i]], before + Frame(e), i + 1);
    } else {
      FrameRead(before, e, rest);
      NeedsAllAt(c, i, vs[i], |e| % TWO16);
      ReadShort(c, vs, was, before + (Frame(e) + rest), |before|, i, e[..|e| % TWO16]);
    }
  }

  /** What was marshalled reads back exactly when every element is shorter than 65536 bytes. */
  lemma {:induction false} RoundTripIffFits<V(!new)>(c: Codec<V>, vs: seq<V>, was: seq<V>)
    requires |was| == |vs| && ReadsBack(c) && NeedsAll(c) && ImageFrom(c, vs, 0).Some?
    ensures LoadFrom(c, was, ImageFrom(c, vs, 0).value, 0, 0) == (vs, Done) <==> Fits(c, vs, 0)
  {
    var data := ImageFrom(c, vs, 0).value;
    assert [] + data == data;
    if Fits(c, vs, 0) {
      LoadImageFrom(c, vs, was, [], 0);
    } else {
      WrapLoses(c, vs, was, [], 0);
    }
  }

  // ---------- The codecs of net/netip ----------

  type Bytes4 = s: seq<byte> | |s| == 4 witness [0, 0, 0, 0]

  type Bytes16 = s: seq<byte> | |s| == 16 witness [0, 0, 0, 0, 0, 0, 0, 0, 0, 0, 0, 0, 0, 0, 0, 0]

  /** netip.Addr. */
  datatype Addr = NoAddr | V4(ip4: Bytes4) | V6(ip6: Bytes16, zone: seq<byte>)

  /** A netip.Prefix, -1 standing for bits out of range, or a netip.Addr. */
  datatype Element = Range(prefix: Addr, bits: int) | Current(addr: Addr)

  function AddrForm(a: Addr): seq<byte> {
    match a
    case NoAddr => []
    case V4(ip) => ip
    case V6(ip, zone) => ip + zone
  }

  function AddrOf(e: seq<byte>): Option<Addr> {
    if |e| == 0 then Some(NoAddr)
    else if |e| == 4 then Some(V4(e))
    else if |e| >= 16 then Some(V6(e[..16], e[16..]))
    else None
  }

  function BitLen(a: Addr): int {
    match a
    case NoAddr => -1
    case V4(_) => 32
    case V6(_, _) => 128
  }

  function WithoutZone(a: Addr): Addr {
    if a.V6? then V6(a.ip6, []) else a
  }

  /** What netip.PrefixFrom makes: no zone, and bits in range or -1. */
  predicate PrefixOk(v: Element)
    requires v.Range?
  {
    WithoutZone(v.prefix) == v.prefix && -1 <= v.bits <= BitLen(v.prefix)
  }

  /** The ranges there are: to 32 bits of an IPv4 address, to 128 of an IPv6 address without zone. */
  lemma PrefixBits(a: Addr, bits: int)
    ensures a.NoAddr? ==> (PrefixOk(Range(a, bits)) <==> bits == -1)
    ensures a.V4? ==> (PrefixOk(Range(a, bits)) <==> -1 <= bits <= 32)
    ensures a.V6? ==> (PrefixOk(Range(a, bits)) <==> a.zone == [] && -1 <= bits <= 128)
  {
  }

  /** MarshalBinary; None where v is not a value of the i-th element's type. */
  function NetipEnc(i: nat, v: Element): Option<seq<byte>> {
    if i < 2 then
      (if v.Range? && PrefixOk(v) then Some(AddrForm(v.prefix) + [if v.bits < 0 then 255 else v.bits]) else None)
    else if v.Current? then Some(AddrForm(v.addr)) else None
  }

  function NetipDec(i: nat, e: seq<byte>): Option<Element> {
    if i < 2 then
      if e == [] then None
      else match AddrOf(e[..|e| - 1])
           case None => None
           case Some(a) => Some(Range(WithoutZone(a), if e[|e| - 1] <= BitLen(a) then e[|e| - 1] else -1))
    else match AddrOf(e)
         case None => None
         case Some(a) => Some(Current(a))
  }

  const NETIP: Codec<Element> := Codec((i: nat, v: Element) => NetipEnc(i, v), (i: nat, e: seq<byte>) => NetipDec(i, e))

  lemma AddrReadsBack(a: Addr)
    ensures AddrOf(AddrForm(a)) == Some(a)
  {
    if a.V6? {
      assert AddrForm(a)[..16] == a.ip6 && AddrForm(a)[16..] == a.zone;
    }
  }

  lemma AddrIsCanonical(e: seq<byte>)
    requires AddrOf(e).Some?
    ensures AddrForm(AddrOf(e).value) == e
  {
  }

  lemma NetipReadsBack(i: nat, v: Element)
    requires NetipEnc(i, v).Some?
    ensures NetipDec(i, NetipEnc(i, v).value) == Some(v)
  {
    var e := NetipEnc(i, v).value;
    if i < 2 {
      assert e[..|e| - 1] == AddrForm(v.prefix);
      AddrReadsBack(v.prefix);
    } else {
      AddrReadsBack(v.addr);
    }
  }

  lemma NetipNeedsAll(i: nat, v: Element, k: nat)
    requires NetipEnc(i, v).Some? && k < |NetipEnc(i, v).value|
    ensures NetipDec(i, NetipEnc(i, v).value[..k]) != Some(v)
  {
    var e := NetipEnc(i, v).value;
    if i >= 2 {
      if AddrOf(e[..k]).Some? {
        AddrIsCanonical(e[..k]);
      }
    } else if k > 0 {
      assert e[..k][..k - 1] == AddrForm(v.prefix)[..k - 1];
      if AddrOf(e[..k - 1]).Some? {
        AddrIsCanonical(e[..k - 1]);
      }
    }
  }

  /** A current address whose form is shorter than 65536 bytes. */
  predicate ZoneFits(v: Element) {
    v.Current? && v.addr.V6? ==> |v.addr.zone| < TWO16 - 16
  }

  lemma NetipIsFaithful()
    ensures ReadsBack(NETIP) && NeedsAll(NETIP)
  {
    forall i: nat, v: Element | NETIP.enc(i, v).Some?
      ensures NETIP.dec(i, NETIP.enc(i, v).value) == Some(v)
    {
      NetipReadsBack(i, v);
    }
    forall i: nat, v: Element, k: nat | NETIP.enc(i, v).Some? && k < |NETIP.enc(i, v).value|
      ensures NETIP.dec(i, NETIP.enc(i, v).value[..k]) != Some(v)
    {
      NetipNeedsAll(i, v, k);
    }
  }

  lemma NetipSize(i: nat, v: Element)
    requires NetipEnc(i, v).Some?
    ensures i < 2 ==> |NetipEnc(i, v).value| <= 17
    ensures i >= 2 ==> (|NetipEnc(i, v).value| < TWO16 <==> ZoneFits(v))
  {
  }

  lemma NetipFits(vs: seq<Element>)
    requires |vs| == 4 && forall k :: 0 <= k < 4 ==> NETIP.enc(k, vs[k]).Some?
    ensures Fits(NETIP, vs, 0) <==> ZoneFits(vs[2]) && ZoneFits(vs[3])
  {
    hide ZoneFits, NetipEnc;
    forall k | 0 <= k < 4
      ensures k < 2 ==> |NETIP.enc(k, vs[k]).value| <= 17
      ensures k >= 2 ==> (|NETIP.enc(k, vs[k]).value| < TWO16 <==> ZoneFits(vs[k]))
    {
      NetipSize(k, vs[k]);
    }
  }

  /** The metadata reads back exactly when both current addresses have zones of fewer than 65520 bytes. */
  lemma {:induction false} NetipRoundTrip(vs: seq<Element>, was: seq<Element>)
    requires |vs| == |was| == 4 && ImageFrom(NETIP, vs, 0).Some?
    ensures LoadFrom(NETIP, was, ImageFrom(NETIP, vs, 0).value, 0, 0) == (vs, Done)
            <==> ZoneFits(vs[2]) && ZoneFits(vs[3])
  {
    hide *;
    NetipIsFaithful();
    RoundTripIffFits(NETIP, vs, was);
    AllEncoded(vs);
    NetipFits(vs);
  }

  lemma {:induction false} AllEncoded(vs: seq<Element>)
    requires |vs| == 4 && ImageFrom(NETIP, vs, 0).Some?
    ensures forall k :: 0 <= k < 4 ==> NETIP.enc(k, vs[k]).Some?
  {
    assert ImageFrom(NETIP, vs, 1).Some?;
    assert ImageFrom(NETIP, vs, 2).Some?;
    assert ImageFrom(NETIP, vs, 3).Some?;
  }

  /** One that does not: an address with a zone of 65520 bytes, which marshals without error. */
  lemma LongZoneIsLost(was: seq<Element>) returns (vs: seq<Element>)
    requires |was| == 4
    ensures |vs| == 4 && ImageFrom(NETIP, vs, 0).Some?
    ensures LoadFrom(NETIP, was, ImageFrom(NETIP, vs, 0).value, 0, 0) != (vs, Done)
  {
    var ip: Bytes16 := [0, 0, 0, 0, 0, 0, 0, 0, 0, 0, 0, 0, 0, 0, 0, 1];
    var far := Current(V6(ip, seq(TWO16 - 16, _ => 97)));
    vs := [Range(NoAddr, -1), Range(NoAddr, -1), far, Current(NoAddr)];
    hide LoadFrom;
    assert ImageFrom(NETIP, vs, 4).Some?;
    assert ImageFrom(NETIP, vs, 3).Some?;
    assert ImageFrom(NETIP, vs, 2).Some?;
    assert ImageFrom(NETIP, vs, 1).Some?;
    NetipRoundTrip(vs, was);
    assert !ZoneFits(vs[2]);
  }

  // ---------- The object ----------

  function Prepend(data: seq<byte>, image: Option<seq<byte>>): Option<seq<byte>> {
    if image.None? then None else Some(data + image.value)
  }

  lemma PrependNone(image: Option<seq<byte>>)
    ensures Prepend([], image) == image
  {
    assert image.Some? ==> [] + image.value == image.value;
  }

  lemma PrependStep<V>(c: Codec<V>, vs: seq<V>, data: seq<byte>, i: nat)
    requires i < |vs|
    ensures c.enc(i, vs[i]).None? ==> Prepend(data, ImageFrom(c, vs, i)) == None
    ensures c.enc(i, vs[i]).Some? ==>
              var e := c.enc(i, vs[i]).value;
              Prepend(data, ImageFrom(c, vs, i))
              == Prepend(data + PutFixed(|e| % TWO16, 2) + e, ImageFrom(c, vs, i + 1))
  {
    var rest := ImageFrom(c, vs, i + 1);
    if c.enc(i, vs[i]).Some? && rest.Some? {
      var e := c.enc(i, vs[i]).value;
      assert data + (Frame(e) + rest.value) == data + PutFixed(|e| % TWO16, 2) + e + rest.value;
    }
  }

  class Metadata<V> {
    var inet4Range: V
    var inet6Range: V
    var inet4Current: V
    var inet6Current: V

    constructor (a: V, b: V, c: V, d: V)
      ensures Value() == [a, b, c, d]
    {
      inet4Range, inet6Range, inet4Current, inet6Current := a, b, c, d;
    }

    function Value(): (vs: seq<V>)
      reads this
      ensures |vs| == 4
    {
      [inet4Range, inet6Range, inet4Current, inet6Current]
    }

    /** Assignment through the i-th of the four pointers. */
    method Set(i: nat, v: V)
      requires i < 4
      modifies this
      ensures Value() == old(Value())[i := v]
    {
      if i == 0 {
        inet4Range := v;
      } else if i == 1 {
        inet6Range := v;
      } else if i == 2 {
        inet4Current := v;
      } else {
        inet6Current := v;
      }
    }

    method MarshalBinary(c: Codec<V>) returns (r: Option<seq<byte>>)
      ensures r == ImageFrom(c, Value(), 0)
    {
      var data, i := [], 0;
      var vs := Value();
      PrependNone(ImageFrom(c, vs, 0));
      while i < 4
        invariant 0 <= i <= 4
        invariant ImageFrom(c, vs, 0) == Prepend(data, ImageFrom(c, vs, i))
      {
        PrependStep(c, vs, data, i);
        var element := c.enc(i, vs[i]);
        if element.None? {
          return None;
        }
        data := data + PutFixed(|element.value| % TWO16, 2);
        data := data + element.value;
        i := i + 1;
      }
      assert data + [] == data;
      r := Some(data);
    }

    method UnmarshalBinary(c: Codec<V>, data: seq<byte>) returns (r: Outcome)
      modifies this
      ensures (Value(), r) == LoadFrom(c, old(Value()), data, 0, 0)
    {
      var pos, i := 0, 0;
      while i < 4
        invariant 0 <= i <= 4 && 0 <= pos <= |data|
        invariant LoadFrom(c, old(Value()), data, 0, 0) == LoadFrom(c, Value(), data, pos, i)
      {
        if pos + 2 > |data| {
          return Panicked;
        }
        var length := GetFixed(data[pos..pos + 2]);
        pos := pos + 2;
        if pos + length > |data| {
          return Failed;
        }
        var v := c.dec(i, data[pos..pos + length]);
        if v.None? {
          return Failed;
        }
        Set(i, v.value);
        pos := pos + length;
        i := i + 1;
      }
      r := Done;
    }
  }
}
