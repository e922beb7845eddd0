/**
  What the two NAT classifiers talk to: a stateful NAT in the terms of section 4 and 5 of
  RFC 4787, and an honest STUN server with two addresses and two ports. Nothing is lost.
 */
module NatModel {
  import opened Common

  datatype Endpoint = Endpoint(ip: int, port: int)

  /** How a mapping or a filter depends on the remote endpoint. */
  datatype Dependence = Independent | OnAddress | OnAddressAndPort

  /** What a mapping is looked up by. */
  datatype Key = Any | ByAddress(ip: int) | ByEndpoint(e: Endpoint)

  /** External endpoints in use, and which remotes were contacted through each of them. */
  datatype State = State(maps: map<Key, Endpoint>, contacted: set<(Endpoint, Endpoint)>)

  /** `alloc` picks the external endpoint of a new mapping; an untranslated host keeps its own. */
  datatype Nat = Nat(translated: bool, mapping: Dependence, filtering: Dependence,
                     local: Endpoint, localIPs: set<int>, alloc: (State, Key) -> Endpoint)

  function KeyOf(mapping: Dependence, dest: Endpoint): Key {
    match mapping
    case Independent => Any
    case OnAddress => ByAddress(dest.ip)
    case OnAddressAndPort => ByEndpoint(dest)
  }

  /** The external endpoint a packet to `dest` leaves from. */
  function External(gw: Nat, st: State, dest: Endpoint): Endpoint {
    var key := KeyOf(gw.mapping, dest);
    if !gw.translated then gw.local
    else if key in st.maps then st.maps[key]
    else gw.alloc(st, key)
  }

  function Outbound(gw: Nat, st: State, dest: Endpoint): State {
    var ext := External(gw, st, dest);
    State(if gw.translated then st.maps[KeyOf(gw.mapping, dest) := ext] else st.maps,
          st.contacted + {(ext, dest)})
  }

  /** Whether a packet from `remote` to the external endpoint gets in. */
  predicate Admits(gw: Nat, st: State, ext: Endpoint, remote: Endpoint) {
    match gw.filtering
    case Independent => true
    case OnAddress => exists c :: c in st.contacted && c.0 == ext && c.1.ip == remote.ip
    case OnAddressAndPort => (ext, remote) in st.contacted
  }

  /** Distinct mappings have distinct external endpoints, none of them the host's own address. */
  ghost predicate WellFormed(gw: Nat, st: State) {
    && gw.local.ip in gw.localIPs
    && (forall k, k' :: k in st.maps && k' in st.maps && st.maps[k] == st.maps[k'] ==> k == k')
    && (forall k :: k in st.maps ==> st.maps[k].ip !in gw.localIPs)
    && (forall s: State, k :: gw.alloc(s, k).ip !in gw.localIPs)
    && (forall s: State, k, k' :: k' in s.maps ==> gw.alloc(s, k) != s.maps[k'])
  }

  // ---------- The server ----------

  /** Two addresses, two ports; which of CHANGED-ADDRESS and OTHER-ADDRESS it sends. */
  datatype Server = Server(ip1: int, ip2: int, port1: int, port2: int, sendsChanged: bool, sendsOther: bool)

  predicate ServerOk(srv: Server) {
    srv.ip1 != srv.ip2 && srv.port1 != srv.port2 && (srv.sendsChanged || srv.sendsOther)
  }

  predicate Serves(srv: Server, e: Endpoint) {
    (e.ip == srv.ip1 || e.ip == srv.ip2) && (e.port == srv.port1 || e.port == srv.port2)
  }

  function OtherIp(srv: Server, ip: int): int { if ip == srv.ip1 then srv.ip2 else srv.ip1 }

  function OtherPort(srv: Server, port: int): int { if port == srv.port1 then srv.port2 else srv.port1 }

  function Alternate(srv: Server, e: Endpoint): Endpoint { Endpoint(OtherIp(srv, e.ip), OtherPort(srv, e.port)) }

  // ---------- Exchanges ----------

  datatype Request = Request(dest: Endpoint, changeIP: bool, changePort: bool)

  datatype Response = Response(mapped: Option<Endpoint>, changed: Option<Endpoint>, other: Option<Endpoint>,
                               server: Endpoint, identical: bool)

  datatype Error = SendFailed | NoMapped | NoChanged | NatBlocked | WrongSource | NotBehindNat

  /** send: an error, a response, or nothing after the last retransmission. */
  type Reply = Result<Option<Response>, Error>

  /** A network answers a request knowing all the requests before it. */
  type Net = seq<Request> -> Reply

  function Source(srv: Server, r: Request): Endpoint {
    Endpoint(if r.changeIP then OtherIp(srv, r.dest.ip) else r.dest.ip,
             if r.changePort then OtherPort(srv, r.dest.port) else r.dest.port)
  }

  /** One exchange: out through the NAT, answered by the server, back in if the filter admits it. */
  function Answer(gw: Nat, srv: Server, st: State, r: Request): Option<Response> {
    var ext := External(gw, st, r.dest);
    var source := Source(srv, r);
    if Serves(srv, r.dest) && Admits(gw, Outbound(gw, st, r.dest), ext, source) then
      Some(Response(Some(ext),
                    if srv.sendsChanged then Some(Alternate(srv, r.dest)) else None,
                    if srv.sendsOther then Some(Alternate(srv, r.dest)) else None,
                    source, ext.ip in gw.localIPs))
    else None
  }

  function After(gw: Nat, st: State, h: seq<Request>): State {
    if h == [] then st else Outbound(gw, After(gw, st, h[..|h| - 1]), h[|h| - 1].dest)
  }

  /** The network is this NAT in front of this server, from state `st` on. */
  ghost predicate Honest(net: Net, gw: Nat, srv: Server, st: State) {
    forall h: seq<Request>, r: Request :: net(h + [r]) == Ok(Answer(gw, srv, After(gw, st, h), r))
  }

  lemma {:induction false} AfterAppend(gw: Nat, st: State, h: seq<Request>, r: Request)
    ensures After(gw, st, h + [r]) == Outbound(gw, After(gw, st, h), r.dest)
  {
    assert (h + [r])[..|h|] == h;
  }

  lemma OutboundWellFormed(gw: Nat, st: State, dest: Endpoint)
    requires WellFormed(gw, st)
    ensures WellFormed(gw, Outbound(gw, st, dest))
  {
  }

  /** Once mapped, always mapped the same way. */
  lemma MappingStays(gw: Nat, st: State, d: Endpoint, dest: Endpoint)
    requires WellFormed(gw, st)
    ensures External(gw, Outbound(gw, Outbound(gw, st, d), dest), d) == External(gw, st, d)
    ensures External(gw, Outbound(gw, st, d), d) == External(gw, st, d)
  {
  }

  /** Two destinations share an external endpoint exactly when the mapping cannot tell them apart. */
  lemma MappingTells(gw: Nat, st: State, d: Endpoint, dest: Endpoint)
    requires WellFormed(gw, st) && gw.translated
    ensures External(gw, Outbound(gw, st, d), dest) == External(gw, st, d)
            <==> KeyOf(gw.mapping, d) == KeyOf(gw.mapping, dest)
  {
    var k := KeyOf(gw.mapping, d);
    var st' := Outbound(gw, st, d);
    OutboundWellFormed(gw, st, d);
    assert st'.maps[k] == External(gw, st, d);
  }
}
