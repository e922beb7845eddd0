/**
  The two NAT classifiers, `discover` (section 10.1 of RFC 3489) and `behaviorTest`
  (sections 4.3 and 4.4 of RFC 5780), run against an arbitrary network and judged against
  every stateful NAT in front of an honest server.
 */
module NatDiscovery {
  import opened Common
  import opened NatModel

  // ---------- One exchange ----------

  /** An honest network around a well-formed NAT, asked at one of the server's endpoints. */
  ghost predicate Setting(net: Net, gw: Nat, srv: Server, st: State, addr: Endpoint) {
    Honest(net, gw, srv, st) && WellFormed(gw, st) && ServerOk(srv) && Serves(srv, addr)
  }

  /** The state before the request and the reply, on an honest network. */
  lemma {:induction false} Asked(net: Net, gw: Nat, srv: Server, st: State, h: seq<Request>, r: Request)
    requires Honest(net, gw, srv, st)
    ensures net(h + [r]) == Ok(Answer(gw, srv, After(gw, st, h), r))
    ensures After(gw, st, h + [r]) == Outbound(gw, After(gw, st, h), r.dest)
  {
    AfterAppend(gw, st, h, r);
  }

  /** A request without change flags is always answered: its destination was just contacted. */
  lemma PlainAnswered(gw: Nat, srv: Server, st: State, dest: Endpoint)
    requires Serves(srv, dest)
    ensures Answer(gw, srv, st, Request(dest, false, false)).Some?
  {
    var ext := External(gw, st, dest);
    assert (ext, dest) in Outbound(gw, st, dest).contacted;
  }

  /** The endpoint `ext` has sent to some port of `ip`. */
  predicate Reached(st: State, ext: Endpoint, ip: int) {
    exists c :: c in st.contacted && c.0 == ext && c.1.ip == ip
  }

  lemma ReachedAfter(gw: Nat, st: State, dest: Endpoint, ext: Endpoint, ip: int)
    ensures Reached(Outbound(gw, st, dest), ext, ip)
            <==> Reached(st, ext, ip) || (External(gw, st, dest) == ext && dest.ip == ip)
  {
    var t := Outbound(gw, st, dest);
    if External(gw, st, dest) == ext && dest.ip == ip {
      assert (ext, dest) in t.contacted;
    }
    if Reached(t, ext, ip) {
      var c :| c in t.contacted && c.0 == ext && c.1.ip == ip;
      assert c in st.contacted || c == (External(gw, st, dest), dest);
    }
    if c :| c in st.contacted && c.0 == ext && c.1.ip == ip {
      assert c in t.contacted;
    }
  }

  /** Whether an answer from another endpoint of the server gets in, told by the contacts before. */
  lemma AdmitsBy(gw: Nat, st: State, dest: Endpoint, source: Endpoint)
    ensures var ext := External(gw, st, dest);
            Admits(gw, Outbound(gw, st, dest), ext, source)
            <==> match gw.filtering
                 case Independent => true
                 case OnAddress => Reached(st, ext, source.ip) || dest.ip == source.ip
                 case OnAddressAndPort => (ext, source) in st.contacted || dest == source
  {
    ReachedAfter(gw, st, dest, External(gw, st, dest), source.ip);
  }

  // ---------- discover ----------

  datatype NatType =
    | NATError | NATUnknown | NATNone | NATBlocked | NATFull | NATSymmetric | NATRestricted
    | NATPortRestricted | SymmetricUDPFirewall

  /**
    The kind a NAT is by the definitions of section 5 of RFC 3489. One that maps by destination but
    lets everybody in is none of them: a full cone has one mapping, a symmetric NAT filters.
   */
  function Kind(gw: Nat): Option<NatType> {
    if !gw.translated then Some(if gw.filtering.Independent? then NATNone else SymmetricUDPFirewall)
    else if !gw.mapping.Independent? then if gw.filtering.Independent? then None else Some(NATSymmetric)
    else match gw.filtering
         case Independent => Some(NATFull)
         case OnAddress => Some(NATRestricted)
         case OnAddressAndPort => Some(NATPortRestricted)
  }

  /**
    The socket's external endpoint has not been used to reach those endpoints of the
    server that the tests expect to be strangers. A socket never used before is unused.
   */
  predicate Unused(gw: Nat, srv: Server, st: State, addr: Endpoint) {
    var ext, alt := External(gw, st, addr), Alternate(srv, addr);
    match gw.filtering
    case Independent => true
    case OnAddress => !Reached(st, ext, alt.ip)
    case OnAddressAndPort =>
      && (ext, alt) !in st.contacted
      && (gw.translated && gw.mapping.Independent? ==> (ext, Endpoint(alt.ip, addr.port)) !in st.contacted)
  }

  /** What the tests see of a NAT in state `st`. */
  function Seen(gw: Nat, srv: Server, st: State, addr: Endpoint): NatType {
    var ext, alt := External(gw, st, addr), Alternate(srv, addr);
    var second := Admits(gw, Outbound(gw, st, addr), ext, alt);
    if !gw.translated then if second then NATNone else SymmetricUDPFirewall
    else if second then NATFull
    else if !gw.mapping.Independent? then NATSymmetric
    else if gw.filtering.OnAddress? || (ext, Endpoint(alt.ip, addr.port)) in st.contacted then NATRestricted
    else NATPortRestricted
  }

  /**
    The tests see the NAT's kind exactly on a socket that is unused. A NAT that is of no kind they
    always take for a full cone.
   */
  lemma SeenIsKind(gw: Nat, srv: Server, st: State, addr: Endpoint)
    requires ServerOk(srv) && Serves(srv, addr)
    ensures Kind(gw).Some? ==> (Seen(gw, srv, st, addr) == Kind(gw).value <==> Unused(gw, srv, st, addr))
    ensures Kind(gw).None? ==> Seen(gw, srv, st, addr) == NATFull
  {
    AdmitsBy(gw, st, addr, Alternate(srv, addr));
  }

  lemma FreshSocketIsUnused(gw: Nat, srv: Server, st: State, addr: Endpoint)
    requires forall c :: c in st.contacted ==> c.0 != External(gw, st, addr)
    ensures Unused(gw, srv, st, addr)
  {
  }

  /** Test II after test I: the state has not changed in anything that matters to it. */
  lemma SecondTest(gw: Nat, srv: Server, st: State, addr: Endpoint)
    requires WellFormed(gw, st)
    ensures var st1 := Outbound(gw, st, addr);
            && External(gw, st1, addr) == External(gw, st, addr)
            && Outbound(gw, st1, addr) == st1
  {
    MappingStays(gw, st, addr, addr);
    var st1 := Outbound(gw, st, addr);
    assert Outbound(gw, st1, addr).contacted == st1.contacted;
    if gw.translated {
      assert st1.maps[KeyOf(gw.mapping, addr) := External(gw, st, addr)] == st1.maps;
    }
  }

  /** Test III, sent to the alternate address and answered from its other port. */
  lemma ThirdTest(gw: Nat, srv: Server, st: State, addr: Endpoint)
    requires WellFormed(gw, st) && ServerOk(srv) && Serves(srv, addr)
    requires gw.translated && gw.mapping.Independent? && !gw.filtering.Independent?
    ensures var ext, alt := External(gw, st, addr), Alternate(srv, addr);
            var st2 := Outbound(gw, Outbound(gw, st, addr), alt);
            Answer(gw, srv, st2, Request(alt, false, true)).Some?
            <==> gw.filtering.OnAddress? || (ext, Endpoint(alt.ip, addr.port)) in st.contacted
  {
    var ext, alt := External(gw, st, addr), Alternate(srv, addr);
    var st1 := Outbound(gw, st, addr);
    var st2 := Outbound(gw, st1, alt);
    var source := Endpoint(alt.ip, addr.port);
    assert External(gw, st1, alt) == ext && External(gw, st2, alt) == ext;
    assert Source(srv, Request(alt, false, true)) == source;
    AdmitsBy(gw, st2, alt, source);
  }

  /** The endpoint of the later tests: CHANGED-ADDRESS, or else OTHER-ADDRESS. */
  function AlternateOf(r: Response): Option<Endpoint> {
    if r.changed.Some? then r.changed else r.other
  }

  /** The requests sent: test I, test II, and both again at the alternate endpoint, the last asking for another port. */
  predicate Planned(net: Net, addr: Endpoint, h: seq<Request>) {
    && 1 <= |h| <= 4 && h[0] == Request(addr, false, false)
    && (|h| >= 2 ==>
          && h[1] == Request(addr, true, true)
          && net(h[..1]).Ok? && net(h[..1]).value.Some? && AlternateOf(net(h[..1]).value.value).Some?)
    && (|h| >= 3 ==> h[2] == Request(AlternateOf(net(h[..1]).value.value).value, false, false) && net(h[..2]).Ok?)
    && (|h| >= 4 ==> h[3] == Request(h[2].dest, false, true) && net(h[..3]).Ok?)
  }

  /** A reply from an endpoint other than the one the request asked for. */
  predicate Stray(reply: Reply, r: Request) {
    reply.Ok? && reply.value.Some? &&
    var server := reply.value.value.server;
    || (if r.changeIP then server.ip == r.dest.ip else server.ip != r.dest.ip)
    || (if r.changePort then server.port == r.dest.port else server.port != r.dest.port)
  }

  /** Some reply in the exchange was stray. */
  predicate SomeStray(net: Net, h: seq<Request>) {
    exists k :: 0 <= k < |h| && StrayAt(net, h, k)
  }

  predicate StrayAt(net: Net, h: seq<Request>, k: nat)
    requires k < |h|
  {
    Stray(net(h[..k + 1]), h[k])
  }

  lemma {:induction false} StrayMore(net: Net, h: seq<Request>, r: Request)
    ensures SomeStray(net, h + [r]) <==> SomeStray(net, h) || Stray(net(h + [r]), r)
  {
    var g := h + [r];
    assert g[..|g|] == g;
    forall k | 0 <= k < |h|
      ensures StrayAt(net, g, k) <==> StrayAt(net, h, k)
    {
      assert g[..k + 1] == h[..k + 1];
    }
    if Stray(net(g), r) {
      assert StrayAt(net, g, |h|);
    }
    if SomeStray(net, h) {
      var k :| 0 <= k < |h| && StrayAt(net, h, k);
      assert StrayAt(net, g, k);
    }
  }

  lemma NoStray(net: Net)
    ensures !SomeStray(net, [])
  {
  }

  /** Whether the first reply names a mapped address; without one the exchange ends there. */
  predicate FirstMapped(net: Net, h: seq<Request>)
    requires |h| >= 1
  {
    net(h[..1]).Ok? && net(h[..1]).value.Some? && net(h[..1]).value.value.mapped.Some?
  }

  /** Where test II got no answer behind a NAT in state st: the exchange so far, on an honest network. */
  ghost predicate NoSecond(net: Net, gw: Nat, srv: Server, st: State, addr: Endpoint, h: seq<Request>) {
    && Setting(net, gw, srv, st, addr) && gw.translated && After(gw, st, h) == Outbound(gw, st, addr)
    && !Admits(gw, Outbound(gw, st, addr), External(gw, st, addr), Alternate(srv, addr))
  }

  /** The tests at the alternate endpoint: test I again, and test III. */
  method AlternateTests(net: Net, addr: Endpoint, mapped: Endpoint, caddr: Endpoint, before: seq<Request>, fake: bool,
                        ghost gw: Nat, ghost srv: Server, ghost st: State)
    returns (t: NatType, err: Option<Error>, fakeFullCone: bool, h: seq<Request>)
    requires |before| == 2 && Planned(net, addr, before) && net(before).Ok?
    requires AlternateOf(net(before[..1]).value.value) == Some(caddr) && (fake <==> SomeStray(net, before))
    ensures t == NATError <==> err.Some?
    ensures Planned(net, addr, h) && h[..1] == before[..1] && (net(h).Err? ==> err == Some(net(h).error))
    ensures fakeFullCone <==> SomeStray(net, h)
    ensures NoSecond(net, gw, srv, st, addr, before) && mapped == External(gw, st, addr)
            && caddr == Alternate(srv, addr) && !fake ==>
              t == Seen(gw, srv, st, addr) && !fakeFullCone
  {
    hide SomeStray, StrayAt;
    fakeFullCone, h := fake, before;
    ghost var honest := NoSecond(net, gw, srv, st, addr, before) && mapped == External(gw, st, addr)
                        && caddr == Alternate(srv, addr) && !fake;
    var third := Request(caddr, false, false);
    if honest {
      Asked(net, gw, srv, st, h, third);
      PlainAnswered(gw, srv, Outbound(gw, st, addr), caddr);
      MappingTells(gw, st, addr, caddr);
    }
    StrayMore(net, h, third);
    assert (h + [third])[..|h|] == h && (h + [third])[..1] == h[..1];
    h := h + [third];
    var reply := net(h);
    if reply.Err? {
      return NATError, Some(reply.error), fakeFullCone, h;
    }
    if reply.value == None {
      return NATUnknown, None, fakeFullCone, h;
    }
    var resp := reply.value.value;
    if resp.server.ip != caddr.ip || resp.server.port != caddr.port {
      fakeFullCone := true;
    }
    if resp.mapped == None {
      return NATError, Some(NoMapped), fakeFullCone, h;
    }
    if mapped != resp.mapped.value {
      return NATSymmetric, None, fakeFullCone, h;
    }

    var fourth := Request(caddr, false, true);
    if honest {
      Asked(net, gw, srv, st, h, fourth);
      ThirdTest(gw, srv, st, addr);
    }
    StrayMore(net, h, fourth);
    assert (h + [fourth])[..|h|] == h && (h + [fourth])[..1] == h[..1] && (h + [fourth])[..2] == h[..2];
    h := h + [fourth];
    reply := net(h);
    if reply.Err? {
      return NATError, Some(reply.error), fakeFullCone, h;
    }
    if reply.value == None {
      return NATPortRestricted, None, fakeFullCone, h;
    }
    resp := reply.value.value;
    if resp.server.ip != caddr.ip || resp.server.port == caddr.port {
      fakeFullCone := true;
    }
    return NATRestricted, None, fakeFullCone, h;
  }

  /**
    discover, on any network. The requests h are sent in the fixed order; an error of one ends the
    exchange with that error; fakeFullCone tells exactly whether a reply came from another endpoint than
    the one asked for. On an honest network, whatever the NAT and its state, it returns what the tests
    can see, with fakeFullCone false and the first mapped address; by SeenIsKind that is the NAT's kind
    exactly when the socket is unused.
   */
  method Discover(net: Net, addr: Endpoint, ghost gw: Nat, ghost srv: Server, ghost st: State)
    returns (t: NatType, mapped: Option<Endpoint>, err: Option<Error>, fakeFullCone: bool, h: seq<Request>)
    ensures t == NATError <==> err.Some?
    ensures Planned(net, addr, h) && (net(h).Err? ==> err == Some(net(h).error))
    ensures mapped == if FirstMapped(net, h) then net(h[..1]).value.value.mapped else None
    ensures fakeFullCone <==> FirstMapped(net, h) && SomeStray(net, h)
    ensures net([Request(addr, false, false)]) == Ok(None) ==> t == NATBlocked && mapped == None
    ensures Setting(net, gw, srv, st, addr) ==>
              t == Seen(gw, srv, st, addr) && mapped == Some(External(gw, st, addr)) && !fakeFullCone
  {
    hide SomeStray, StrayAt;
    NoStray(net);
    ghost var honest := Setting(net, gw, srv, st, addr);
    var first := Request(addr, false, false);
    h := [first];
    StrayMore(net, [], first);
    assert [] + [first] == h && h[..1] == h;
    fakeFullCone := false;
    if honest {
      Asked(net, gw, srv, st, [], first);
      PlainAnswered(gw, srv, st, addr);
    }
    var reply := net(h);
    if reply.Err? {
      return NATError, None, Some(reply.error), fakeFullCone, h;
    }
    if reply.value == None {
      return NATBlocked, None, None, fakeFullCone, h;
    }
    var resp := reply.value.value;
    var identical := resp.identical;
    var changedAddr := resp.changed;
    mapped := resp.mapped;
    if mapped == None {
      return NATError, None, Some(NoMapped), fakeFullCone, h;
    }
    if resp.server.ip != addr.ip || resp.server.port != addr.port {
      fakeFullCone := true;
    }
    if changedAddr == None {
      changedAddr := resp.other;
    }
    if changedAddr == None {
      return NATError, mapped, Some(NoChanged), fakeFullCone, h;
    }

    var second := Request(addr, true, true);
    if honest {
      Asked(net, gw, srv, st, h, second);
      SecondTest(gw, srv, st, addr);
    }
    StrayMore(net, h, second);
    assert (h + [second])[..|h|] == h && (h + [second])[..1] == h[..1];
    h := h + [second];
    reply := net(h);
    if reply.Err? {
      return NATError, mapped, Some(reply.error), fakeFullCone, h;
    }
    if reply.value.Some? && (reply.value.value.server.ip == addr.ip || reply.value.value.server.port == addr.port) {
      fakeFullCone := true;
    }
    if identical {
      return if reply.value == None then SymmetricUDPFirewall else NATNone, mapped, None, fakeFullCone, h;
    }
    if reply.value.Some? {
      return NATFull, mapped, None, fakeFullCone, h;
    }

    t, err, fakeFullCone, h := AlternateTests(net, addr, mapped.value, changedAddr.value, h, fakeFullCone, gw, srv, st);
  }

  // ---------- behaviorTest ----------

  datatype Behavior = Behavior(mapping: Option<Dependence>, filtering: Option<Dependence>)

  predicate AddrCompare(host: Endpoint, addr: Endpoint, ipChange: bool, portChange: bool) {
    (host.ip != addr.ip) == ipChange && (host.port != addr.port) == portChange
  }

  /**
    sendWithLog: silence is an error only without change flags, and a reply is accepted exactly if its
    address and its port each differ from the ones asked where a change was requested, and only there.
   */
  function Checked(reply: Reply, r: Request): (c: Reply)
    ensures reply.Err? ==> c == reply
    ensures reply == Ok(None) ==> c == if r.changeIP || r.changePort then reply else Err(NatBlocked)
    ensures reply.Ok? && reply.value.Some? ==>
              var server := reply.value.value.server;
              c == if (server.ip != r.dest.ip <==> r.changeIP) && (server.port != r.dest.port <==> r.changePort)
                   then reply else Err(WrongSource)
  {
    if reply.Err? then reply
    else if reply.value == None && !r.changeIP && !r.changePort then Err(NatBlocked)
    else if reply.value.Some? && !AddrCompare(reply.value.value.server, r.dest, r.changeIP, r.changePort)
    then Err(WrongSource)
    else reply
  }

  /** An honest server's answers pass the check. */
  lemma CheckedPasses(gw: Nat, srv: Server, st: State, r: Request)
    requires ServerOk(srv) && Serves(srv, r.dest)
    ensures Checked(Ok(Answer(gw, srv, st, r)), r) == Ok(Answer(gw, srv, st, r))
  {
    if !r.changeIP && !r.changePort {
      PlainAnswered(gw, srv, st, r.dest);
    }
  }

  /** The mapping tests leave the socket's first mapping with this set of contacts. */
  function AfterMappingTests(gw: Nat, srv: Server, st: State, addr: Endpoint): State {
    var alt := Alternate(srv, addr);
    var st2 := Outbound(gw, Outbound(gw, st, addr), Endpoint(alt.ip, addr.port));
    if gw.mapping.Independent? then st2 else Outbound(gw, st2, alt)
  }

  /** The filtering class the last two tests see. */
  function SeenFiltering(gw: Nat, srv: Server, st: State, addr: Endpoint): Dependence {
    var ext, alt := External(gw, st, addr), Alternate(srv, addr);
    match gw.filtering
    case Independent => Independent
    case OnAddress =>
      if gw.mapping.Independent? || Reached(st, ext, alt.ip) then Independent else OnAddress
    case OnAddressAndPort =>
      if (ext, alt) in st.contacted then Independent
      else if (ext, Endpoint(addr.ip, alt.port)) in st.contacted then OnAddress
      else OnAddressAndPort
  }

  /**
    The mapping the filtering tests use holds no permission that would give the answer
    away: in particular the mapping tests did not go through it to the alternate address.
   */
  predicate NoPermission(gw: Nat, srv: Server, st: State, addr: Endpoint) {
    var ext, alt := External(gw, st, addr), Alternate(srv, addr);
    match gw.filtering
    case Independent => true
    case OnAddress => !gw.mapping.Independent? && !Reached(st, ext, alt.ip)
    case OnAddressAndPort => (ext, alt) !in st.contacted && (ext, Endpoint(addr.ip, alt.port)) !in st.contacted
  }

  lemma SeenFilteringIsTrue(gw: Nat, srv: Server, st: State, addr: Endpoint)
    ensures SeenFiltering(gw, srv, st, addr) == gw.filtering <==> NoPermission(gw, srv, st, addr)
  {
  }

  /** A first mapping that stays, and what was reached through it by contacting `dest`. */
  lemma ContactVia(gw: Nat, st: State, addr: Endpoint, dest: Endpoint)
    requires WellFormed(gw, st) && gw.translated && KeyOf(gw.mapping, addr) in st.maps
    ensures var ext := External(gw, st, addr);
            var t := Outbound(gw, st, dest);
            && WellFormed(gw, t) && KeyOf(gw.mapping, addr) in t.maps && External(gw, t, addr) == ext
            && (External(gw, st, dest) == ext <==> KeyOf(gw.mapping, dest) == KeyOf(gw.mapping, addr))
            && (forall e :: (ext, e) in t.contacted <==>
                  (ext, e) in st.contacted || (e == dest && KeyOf(gw.mapping, dest) == KeyOf(gw.mapping, addr)))
  {
    OutboundWellFormed(gw, st, dest);
  }

  /** What the first mapping has reached once the mapping tests are over. */
  lemma MappingContacts(gw: Nat, srv: Server, st: State, addr: Endpoint)
    requires WellFormed(gw, st) && gw.translated && ServerOk(srv) && Serves(srv, addr)
    ensures var ext, alt := External(gw, st, addr), Alternate(srv, addr);
            var t := AfterMappingTests(gw, srv, st, addr);
            && WellFormed(gw, t) && External(gw, t, addr) == ext
            && (forall e :: (ext, e) in t.contacted <==>
                  || (ext, e) in st.contacted || e == addr
                  || (e == Endpoint(alt.ip, addr.port) && gw.mapping.Independent?))
  {
    var alt := Alternate(srv, addr);
    var st1 := Outbound(gw, st, addr);
    OutboundWellFormed(gw, st, addr);
    var st2 := Outbound(gw, st1, Endpoint(alt.ip, addr.port));
    ContactVia(gw, st1, addr, Endpoint(alt.ip, addr.port));
    if !gw.mapping.Independent? {
      ContactVia(gw, st2, addr, alt);
    }
  }

  lemma ReachedByContacts(st: State, ext: Endpoint, ip: int)
    ensures Reached(st, ext, ip) <==> exists e: Endpoint :: (ext, e) in st.contacted && e.ip == ip
  {
    if Reached(st, ext, ip) {
      var c :| c in st.contacted && c.0 == ext && c.1.ip == ip;
      assert (ext, c.1) in st.contacted;
    }
    if e: Endpoint :| (ext, e) in st.contacted && e.ip == ip {
      assert (ext, e).0 == ext && (ext, e).1.ip == ip;
    }
  }

  /** The two filtering tests see SeenFiltering. */
  lemma FilteringTests(gw: Nat, srv: Server, st: State, addr: Endpoint)
    requires WellFormed(gw, st) && gw.translated && ServerOk(srv) && Serves(srv, addr)
    ensures var t := AfterMappingTests(gw, srv, st, addr);
            && (Answer(gw, srv, t, Request(addr, true, true)).Some? <==>
                SeenFiltering(gw, srv, st, addr) == Independent)
            && (SeenFiltering(gw, srv, st, addr) != Independent ==>
                  (Answer(gw, srv, Outbound(gw, t, addr), Request(addr, false, true)).Some? <==>
                   SeenFiltering(gw, srv, st, addr) == OnAddress))
  {
    var ext, alt := External(gw, st, addr), Alternate(srv, addr);
    var t := AfterMappingTests(gw, srv, st, addr);
    MappingContacts(gw, srv, st, addr);
    AdmitsBy(gw, t, addr, alt);
    ReachedByContacts(t, ext, alt.ip);
    ReachedByContacts(st, ext, alt.ip);
    if gw.mapping.Independent? {
      assert (ext, Endpoint(alt.ip, addr.port)) in t.contacted;
    }
    var t' := Outbound(gw, t, addr);
    SecondTest(gw, srv, t, addr);
    assert Source(srv, Request(addr, false, true)) == Endpoint(addr.ip, alt.port);
    AdmitsBy(gw, t', addr, Endpoint(addr.ip, alt.port));
  }

  /** An honest exchange as sendWithLog reports it. */
  lemma {:induction false} AskedChecked(net: Net, gw: Nat, srv: Server, st: State, addr: Endpoint,
                                        h: seq<Request>, r: Request)
    requires Setting(net, gw, srv, st, addr) && Serves(srv, r.dest)
    ensures Checked(net(h + [r]), r) == Ok(Answer(gw, srv, After(gw, st, h), r))
    ensures !r.changeIP && !r.changePort ==> Answer(gw, srv, After(gw, st, h), r).Some?
    ensures After(gw, st, h + [r]) == Outbound(gw, After(gw, st, h), r.dest)
  {
    Asked(net, gw, srv, st, h, r);
    CheckedPasses(gw, srv, After(gw, st, h), r);
    if !r.changeIP && !r.changePort {
      PlainAnswered(gw, srv, After(gw, st, h), r.dest);
    }
  }

  /** What a plain request brings back in this setting. */
  lemma {:induction false} PlainReply(net: Net, gw: Nat, srv: Server, st: State, addr: Endpoint,
                                      h: seq<Request>, dest: Endpoint)
    requires Setting(net, gw, srv, st, addr) && Serves(srv, dest)
    ensures var r := Request(dest, false, false);
            var reply := Checked(net(h + [r]), r);
            && reply.Ok? && reply.value.Some?
            && reply.value.value.mapped == Some(External(gw, After(gw, st, h), dest))
            && reply.value.value.identical == (External(gw, After(gw, st, h), dest).ip in gw.localIPs)
            && reply.value.value.changed == (if srv.sendsChanged then Some(Alternate(srv, dest)) else None)
            && reply.value.value.other == (if srv.sendsOther then Some(Alternate(srv, dest)) else None)
            && After(gw, st, h + [r]) == Outbound(gw, After(gw, st, h), dest)
  {
    AskedChecked(net, gw, srv, st, addr, h, Request(dest, false, false));
  }

  /** The setting's consequences for the first exchange. */
  lemma {:induction false} SettingFacts(net: Net, gw: Nat, srv: Server, st: State, addr: Endpoint)
    requires Setting(net, gw, srv, st, addr)
    ensures WellFormed(gw, st) && WellFormed(gw, Outbound(gw, st, addr)) && After(gw, st, []) == st
    ensures ServerOk(srv) && Serves(srv, addr)
    ensures External(gw, st, addr).ip in gw.localIPs <==> !gw.translated
  {
    OutboundWellFormed(gw, st, addr);
  }

  /** The reply to request k of the exchange, as sendWithLog reports it. */
  function ReplyAt(net: Net, h: seq<Request>, k: nat): Reply
    requires k < |h|
  {
    Checked(net(h[..k + 1]), h[k])
  }

  /** An exchange that went on as long as the replies were accepted. */
  predicate WentOn(net: Net, addr: Endpoint, h: seq<Request>) {
    && |h| >= 1 && h[0] == Request(addr, false, false)
    && forall k :: 0 <= k < |h| - 1 ==> ReplyAt(net, h, k).Ok?
  }

  lemma {:induction false} GoesOn(net: Net, addr: Endpoint, h: seq<Request>, r: Request)
    requires WentOn(net, addr, h) && Checked(net(h), h[|h| - 1]).Ok?
    ensures WentOn(net, addr, h + [r]) && ReplyAt(net, h + [r], |h|) == Checked(net(h + [r]), r)
  {
    var g := h + [r];
    assert g[..|h| + 1] == g && h[..|h|] == h;
    forall k | 0 <= k < |h|
      ensures ReplyAt(net, g, k).Ok?
    {
      assert g[..k + 1] == h[..k + 1];
      assert ReplyAt(net, g, k) == ReplyAt(net, h, k);
    }
  }

  /** The mapping tests, one to three; otherAddr is what the server announced. */
  method MappingTests(net: Net, addr: Endpoint, ghost gw: Nat, ghost srv: Server, ghost st: State)
    returns (r: Result<Dependence, Error>, h: seq<Request>)
    ensures WentOn(net, addr, h)
    ensures Checked(net(h), h[|h| - 1]).Err? ==> r == Err(Checked(net(h), h[|h| - 1]).error)
    ensures Setting(net, gw, srv, st, addr) ==>
              if !gw.translated then r == Err(NotBehindNat)
              else r == Ok(gw.mapping) && After(gw, st, h) == AfterMappingTests(gw, srv, st, addr)
  {
    ghost var honest := Setting(net, gw, srv, st, addr);
    hide Setting, Honest, WellFormed, After, Answer, External, Outbound, Checked, Admits, ReplyAt;
    var t1 := Request(addr, false, false);
    if honest {
      SettingFacts(net, gw, srv, st, addr);
      PlainReply(net, gw, srv, st, addr, [], addr);
    }
    h := [] + [t1];
    assert WentOn(net, addr, h);
    var reply := Checked(net(h), t1);
    if reply.Err? {
      return Err(reply.error), h;
    }
    var resp1 := reply.value.value;
    if resp1.mapped == None {
      return Err(NoMapped), h;
    }
    if resp1.identical {
      return Err(NotBehindNat), h;
    }
    var otherAddr := resp1.other;
    if otherAddr == None {
      otherAddr := resp1.changed;
      if otherAddr == None {
        return Err(NoChanged), h;
      }
    }

    var tmpAddr := Endpoint(otherAddr.value.ip, addr.port);
    var t2 := Request(tmpAddr, false, false);
    if honest {
      PlainReply(net, gw, srv, st, addr, h, tmpAddr);
      MappingTells(gw, st, addr, tmpAddr);
    }
    GoesOn(net, addr, h, t2);
    h := h + [t2];
    reply := Checked(net(h), t2);
    if reply.Err? {
      return Err(reply.error), h;
    }
    var resp2 := reply.value.value;
    if resp2.mapped == None {
      return Err(NoMapped), h;
    }
    if resp2.mapped.value == resp1.mapped.value {
      return Ok(Independent), h;
    }

    var t3 := Request(otherAddr.value, false, false);
    if honest {
      PlainReply(net, gw, srv, st, addr, h, otherAddr.value);
      MappingTells(gw, Outbound(gw, st, addr), tmpAddr, otherAddr.value);
    }
    GoesOn(net, addr, h, t3);
    h := h + [t3];
    reply := Checked(net(h), t3);
    if reply.Err? {
      return Err(reply.error), h;
    }
    var resp3 := reply.value.value;
    if resp3.mapped == None {
      return Err(NoMapped), h;
    }
    return Ok(if resp3.mapped.value == resp2.mapped.value then OnAddress else OnAddressAndPort), h;
  }

  /** How the reply to the last test decides the filtering class. */
  predicate DecidedBy(reply: Reply, addr: Endpoint, r: Request, filtering: Dependence) {
    reply.Ok? &&
    if r == Request(addr, true, true) then reply.value.Some? && filtering == Independent
    else r == Request(addr, false, true) && filtering == if reply.value.Some? then OnAddress else OnAddressAndPort
  }

  /**
    behaviorTest, on any network: it goes on as long as replies are accepted, ends with the error of the
    first that is not, and the last reply decides the filtering class. On an honest one, whatever the
    NAT and its state, the mapping class is the NAT's and the filtering class is SeenFiltering, which
    by SeenFilteringIsTrue is the NAT's exactly when its mapping holds no permission.
   */
  method BehaviorTest(net: Net, addr: Endpoint, ghost gw: Nat, ghost srv: Server, ghost st: State)
    returns (b: Option<Behavior>, err: Option<Error>, h: seq<Request>)
    ensures WentOn(net, addr, h)
    ensures Checked(net(h), h[|h| - 1]).Err? ==> err == Some(Checked(net(h), h[|h| - 1]).error)
    ensures err.None? ==> b.Some? && b.value.mapping.Some? && b.value.filtering.Some?
                          && DecidedBy(Checked(net(h), h[|h| - 1]), addr, h[|h| - 1], b.value.filtering.value)
    ensures Setting(net, gw, srv, st, addr) ==>
              if !gw.translated then b == None && err == Some(NotBehindNat)
              else err == None && b == Some(Behavior(Some(gw.mapping), Some(SeenFiltering(gw, srv, st, addr))))
  {
    ghost var honest := Setting(net, gw, srv, st, addr) && gw.translated;
    var m;
    m, h := MappingTests(net, addr, gw, srv, st);
    if m.Err? {
      return None, Some(m.error), h;
    }
    var partial := Behavior(Some(m.value), None);

    var t4 := Request(addr, true, true);
    if honest {
      AskedChecked(net, gw, srv, st, addr, h, t4);
      FilteringTests(gw, srv, st, addr);
    }
    GoesOn(net, addr, h, t4);
    h := h + [t4];
    var reply := Checked(net(h), t4);
    if reply.Err? {
      return Some(partial), Some(reply.error), h;
    }
    if reply.value.Some? {
      return Some(partial.(filtering := Some(Independent))), None, h;
    }

    var t5 := Request(addr, false, true);
    if honest {
      AskedChecked(net, gw, srv, st, addr, h, t5);
    }
    GoesOn(net, addr, h, t5);
    h := h + [t5];
    reply := Checked(net(h), t5);
    if reply.Err? {
      return Some(partial), Some(reply.error), h;
    }
    return Some(partial.(filtering := Some(if reply.value.Some? then OnAddress else OnAddressAndPort))), None, h;
  }

  // ---------- Where the classifiers are wrong ----------

  /** A port above a finite set of ports. */
  lemma {:induction false} SomePortAbove(ports: set<int>) returns (p: int)
    ensures forall q :: q in ports ==> q < p
    decreases |ports|
  {
    p := 0;
    if q :| q in ports {
      p := SomePortAbove(ports - {q});
      p := if p <= q then q + 1 else p;
      forall x | x in ports
        ensures x < p
      {
        assert x == q || x in ports - {q};
      }
    }
  }

  ghost predicate Free(s: State, p: int) {
    forall k :: k in s.maps ==> s.maps[k].port < p
  }

  lemma SomePortIsFree(s: State)
    ensures exists p :: Free(s, p)
  {
    var ports := set k | k in s.maps :: s.maps[k].port;
    var p := SomePortAbove(ports);
    assert forall k :: k in s.maps ==> s.maps[k].port in ports;
    assert Free(s, p);
  }

  ghost function FreshEndpoint(s: State, k: Key): (e: Endpoint)
    ensures e.ip == 203 && Free(s, e.port)
  {
    SomePortIsFree(s);
    var p :| Free(s, p);
    Endpoint(203, p)
  }

  ghost function Gateway(mapping: Dependence, filtering: Dependence): Nat {
    Nat(true, mapping, filtering, Endpoint(10, 5000), {10}, (s, k) => FreshEndpoint(s, k))
  }

  /** The honest network itself: it answers each request from the state the earlier ones left. */
  function HonestNet(gw: Nat, srv: Server, st: State): Net {
    (h: seq<Request>) =>
      if h == [] then Ok(None) else Ok(Answer(gw, srv, After(gw, st, h[..|h| - 1]), h[|h| - 1]))
  }

  lemma HonestNetIsHonest(gw: Nat, srv: Server, st: State)
    ensures Honest(HonestNet(gw, srv, st), gw, srv, st)
  {
  }

  /**
    discover behind any NAT in any state, with an honest server: what it returns, and that this is the
    NAT's kind, if it is of one, when the socket's mapping has contacted nobody yet.
   */
  method DiscoverBehind(gw: Nat, srv: Server, st: State, addr: Endpoint) returns (t: NatType)
    requires WellFormed(gw, st) && ServerOk(srv) && Serves(srv, addr)
    ensures t == Seen(gw, srv, st, addr)
    ensures Kind(gw).Some? && (forall c :: c in st.contacted ==> c.0 != External(gw, st, addr)) ==>
              t == Kind(gw).value
  {
    HonestNetIsHonest(gw, srv, st);
    SeenIsKind(gw, srv, st, addr);
    if forall c :: c in st.contacted ==> c.0 != External(gw, st, addr) {
      FreshSocketIsUnused(gw, srv, st, addr);
    }
    var mapped, err, fakeFullCone, h;
    t, mapped, err, fakeFullCone, h := Discover(HonestNet(gw, srv, st), addr, gw, srv, st);
  }

  /** behaviorTest behind any NAT in any state, with an honest server: what it returns. */
  method BehaviorBehind(gw: Nat, srv: Server, st: State, addr: Endpoint) returns (b: Option<Behavior>)
    requires WellFormed(gw, st) && ServerOk(srv) && Serves(srv, addr)
    ensures b == if !gw.translated then None
                 else Some(Behavior(Some(gw.mapping), Some(SeenFiltering(gw, srv, st, addr))))
  {
    HonestNetIsHonest(gw, srv, st);
    var err, h;
    b, err, h := BehaviorTest(HonestNet(gw, srv, st), addr, gw, srv, st);
  }

  const SERVER := Server(1, 2, 3478, 3479, true, true)

  /**
    A restricted cone NAT on a fresh socket, with a network on which that is what is asked:
    behaviorTest reports endpoint-independent filtering.
   */
  lemma RestrictedConeMisreported()
    ensures var gw, st, addr := Gateway(Independent, OnAddress), State(map[], {}), Endpoint(1, 3478);
            && Setting(HonestNet(gw, SERVER, st), gw, SERVER, st, addr) && gw.translated
            && SeenFiltering(gw, SERVER, st, addr) == Independent != gw.filtering
  {
    var gw, st := Gateway(Independent, OnAddress), State(map[], {});
    HonestNetIsHonest(gw, SERVER, st);
  }

  /** The same NAT on a socket that has talked to the server's other address: discover says full cone. */
  lemma ReusedSocketMisreported()
    ensures var gw, addr := Gateway(Independent, OnAddress), Endpoint(1, 3478);
            var st := Outbound(gw, State(map[], {}), Endpoint(2, 3478));
            && Setting(HonestNet(gw, SERVER, st), gw, SERVER, st, addr)
            && Seen(gw, SERVER, st, addr) == NATFull && Kind(gw) == Some(NATRestricted)
  {
    var gw, st0, addr := Gateway(Independent, OnAddress), State(map[], {}), Endpoint(1, 3478);
    OutboundWellFormed(gw, st0, Endpoint(2, 3478));
    var st := Outbound(gw, st0, Endpoint(2, 3478));
    HonestNetIsHonest(gw, SERVER, st);
    ReachedAfter(gw, st0, Endpoint(2, 3478), External(gw, st, addr), 2);
    AdmitsBy(gw, st, addr, Alternate(SERVER, addr));
  }
}
