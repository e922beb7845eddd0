/**
  The traffic counters: connections register counters by name and add to them, queries read or
  reset them, in any interleaving. Only the map is under the lock; additions, loads and swaps of
  one counter are atomic by themselves. One action is one critical section or one atomic access.
 */
module CounterNames {

  datatype Kind = Inbound | Outbound | User

  datatype Direction = Uplink | Downlink

  function KindText(k: Kind): string {
    match k
    case Inbound => "inbound"
    case Outbound => "outbound"
    case User => "user"
  }

  function DirectionText(d: Direction): string {
    match d
    case Uplink => "uplink"
    case Downlink => "downlink"
  }

  function Name(k: Kind, tag: string, d: Direction): string {
    KindText(k) + ">>>" + tag + ">>>traffic>>>" + DirectionText(d)
  }

  lemma NameEnds(k: Kind, tag: string, d: Direction)
    ensures var n := Name(k, tag, d);
            && |n| > 6 && n[0] == KindText(k)[0] && n[|n| - 6] == DirectionText(d)[|DirectionText(d)| - 6]
            && n[|KindText(k)| + 3..|n| - 13 - |DirectionText(d)|] == tag
  {
    var n, a, z := Name(k, tag, d), KindText(k), DirectionText(d);
    assert n == a + ">>>" + tag + ">>>traffic>>>" + z;
    assert |">>>"| == 3 && |">>>traffic>>>"| == 13;
    assert n[|n| - 6] == z[|z| - 6];
  }

  /** The names as the queries of an instance spell them. */
  lemma NameText(tag: string, d: Direction)
    ensures Name(Outbound, tag, d) == "outbound>>>" + tag + ">>>traffic>>>" + if d.Uplink? then "uplink" else "downlink"
  {
    assert "outbound" + ">>>" == "outbound>>>";
  }

  /** Distinct triples have distinct names, whatever text the tags are. */
  lemma NameIsInjective(k: Kind, tag: string, d: Direction, k': Kind, tag': string, d': Direction)
    ensures Name(k, tag, d) == Name(k', tag', d') <==> k == k' && tag == tag' && d == d'
  {
    NameEnds(k, tag, d);
    NameEnds(k', tag', d');
  }
}

module TrafficStats {
  import opened Common
  import opened CounterNames

  /** int64 arithmetic. */
  function Wrap(x: int): int {
    (x + TWO63) % TWO64 - TWO63
  }

  lemma WrapSame(x: int, k: int)
    ensures Wrap(x + k * TWO64) == Wrap(x)
  {
    var y := x + TWO63;
    assert (y + k * TWO64) / TWO64 == y / TWO64 + k;
  }

  lemma WrapAdd(x: int, n: int)
    ensures Wrap(Wrap(x) + n) == Wrap(x + n) && Wrap(x - Wrap(x)) == 0
  {
    var k := (x + TWO63) / TWO64;
    assert Wrap(x) == x - k * TWO64;
    WrapSame(x + n, -k);
    WrapSame(0, k);
  }

  lemma WrapInRange(x: int)
    requires -TWO63 <= x < TWO63
    ensures Wrap(x) == x
  {
  }

  // ---------- State ----------

  type Tag = (Kind, string)

  /** What the service was set up to count. */
  datatype Config = Config(inbounds: set<string>, outbounds: set<string>, users: set<string>)

  /** A counted connection: its counters for reading and for writing. */
  datatype Tracker = Tracker(tags: seq<Tag>, directIn: bool, read: seq<nat>, write: seq<nat>)

  /** A loop adding n, with the counters still to be added to. */
  datatype Adding = Adding(ids: seq<nat>, n: int)

  /** A query that has found its counter. */
  datatype Query = Query(id: nat, reset: bool)

  /** Traffic that moved, with the names it counts for. */
  datatype Entry = Entry(names: seq<string>, n: int)

  /** `returned` (what resetting queries answered, by counter) and `log` are history variables. */
  datatype State = State(counters: map<string, nat>, values: seq<int>, trackers: seq<Tracker>, adds: seq<Adding>,
                         queries: seq<Query>, returned: seq<int>, log: seq<Entry>)

  const START := State(map[], [], [], [], [], [], [])

  datatype Action =
    | Route(inbound: string, outbound: string, user: string, directIn: bool)
    | Count(t: nat, reading: bool, n: int)
    | AddOne(p: nat)
    | Lookup(name: string, reset: bool)
    | Answer(q: nat)

  // ---------- Steps ----------

  /** The tags to count: named, and configured for their kind. */
  function Counted(c: Config, inbound: string, outbound: string, user: string): seq<Tag> {
    (if inbound != "" && inbound in c.inbounds then [(Inbound, inbound)] else [])
    + (if outbound != "" && outbound in c.outbounds then [(Outbound, outbound)] else [])
    + (if user != "" && user in c.users then [(User, user)] else [])
  }

  function NamesOf(tags: seq<Tag>, d: Direction): (names: seq<string>)
    ensures |names| == |tags|
  {
    seq(|tags|, i requires 0 <= i < |tags| => Name(tags[i].0, tags[i].1, d))
  }

  /** Uplink then downlink, tag by tag: the order in which counters are made. */
  function Pairs(tags: seq<Tag>): seq<string> {
    if tags == [] then []
    else [Name(tags[0].0, tags[0].1, Uplink), Name(tags[0].0, tags[0].1, Downlink)] + Pairs(tags[1..])
  }

  function LoadOrCreate(s: State, name: string): State {
    if name in s.counters then s
    else s.(counters := s.counters[name := |s.values|], values := s.values + [0], returned := s.returned + [0])
  }

  function LoadAll(s: State, names: seq<string>): State
    decreases |names|
  {
    if names == [] then s else LoadAll(LoadOrCreate(s, names[0]), names[1..])
  }

  function IdsOf(counters: map<string, nat>, names: seq<string>): seq<nat> {
    seq(|names|, i requires 0 <= i < |names| => if names[i] in counters then counters[names[i]] else 0)
  }

  /** What reading counts as; a connection that is not direct counts the other way round. */
  function ReadDirection(directIn: bool): Direction {
    if directIn then Uplink else Downlink
  }

  function WriteDirection(directIn: bool): Direction {
    if directIn then Downlink else Uplink
  }

  function Routed(s: State, tags: seq<Tag>, directIn: bool): State {
    if tags == [] then s
    else
      var t := LoadAll(s, Pairs(tags));
      t.(trackers := t.trackers + [Tracker(tags, directIn,
                                           IdsOf(t.counters, NamesOf(tags, ReadDirection(directIn))),
                                           IdsOf(t.counters, NamesOf(tags, WriteDirection(directIn))))])
  }

  function DirectionOf(t: Tracker, reading: bool): Direction {
    if reading then ReadDirection(t.directIn) else WriteDirection(t.directIn)
  }

  function CountStep(s: State, t: Tracker, reading: bool, n: int): State {
    s.(adds := s.adds + [Adding(if reading then t.read else t.write, n)],
       log := s.log + [Entry(NamesOf(t.tags, DirectionOf(t, reading)), n)])
  }

  function AddStep(s: State, p: nat): State
    requires p < |s.adds| && s.adds[p].ids != [] && s.adds[p].ids[0] < |s.values|
  {
    var a := s.adds[p];
    s.(values := s.values[a.ids[0] := Wrap(s.values[a.ids[0]] + a.n)], adds := s.adds[p := Adding(a.ids[1..], a.n)])
  }

  function AnswerStep(s: State, q: nat): State
    requires q < |s.queries| && s.queries[q].id < |s.values| == |s.returned|
  {
    var k := s.queries[q].id;
    var t := s.(queries := s.queries[..q] + s.queries[q + 1..]);
    if s.queries[q].reset then t.(values := s.values[k := 0], returned := s.returned[k := s.returned[k] + s.values[k]])
    else t
  }

  function Step(c: Config, s: State, a: Action): Option<State> {
    match a
    case Route(i, o, u, directIn) => Some(Routed(s, Counted(c, i, o, u), directIn))
    case Count(t, reading, n) => if t < |s.trackers| then Some(CountStep(s, s.trackers[t], reading, n)) else None
    case AddOne(p) =>
      if p < |s.adds| && s.adds[p].ids != [] && s.adds[p].ids[0] < |s.values| then Some(AddStep(s, p)) else None
    case Lookup(name, reset) =>
      // a name that is not there is an error to the caller and changes nothing
      Some(if name in s.counters then s.(queries := s.queries + [Query(s.counters[name], reset)]) else s)
    case Answer(q) =>
      if q < |s.queries| && s.queries[q].id < |s.values| == |s.returned| then Some(AnswerStep(s, q)) else None
  }

  function Exec(c: Config, s: State, acts: seq<Action>): Option<State>
    decreases |acts|
  {
    if acts == [] then Some(s)
    else match Step(c, s, acts[0])
         case None => None
         case Some(t) => Exec(c, t, acts[1..])
  }

  // ---------- Conservation ----------

  /** Traffic that counts for a name. */
  function Logged(log: seq<Entry>, name: string): int {
    if log == [] then 0 else (if name in log[0].names then log[0].n else 0) + Logged(log[1..], name)
  }

  function Share(a: Adding, id: nat): int {
    if id in a.ids then a.n else 0
  }

  /** Traffic that is still to be added to a counter by the loops under way. */
  function Owed(adds: seq<Adding>, id: nat): int {
    if adds == [] then 0 else Share(adds[0], id) + Owed(adds[1..], id)
  }

  predicate Registered(counters: map<string, nat>, names: seq<string>, ids: seq<nat>) {
    |ids| == |names| && forall i :: 0 <= i < |names| ==> names[i] in counters && counters[names[i]] == ids[i]
  }

  predicate MapOk(s: State) {
    && |s.returned| == |s.values|
    && (forall n :: n in s.counters ==> s.counters[n] < |s.values|)
    && (forall n, m :: n in s.counters && m in s.counters && n != m ==> s.counters[n] != s.counters[m])
  }

  predicate TrackerOk(counters: map<string, nat>, t: Tracker) {
    && Distinct(t.tags)
    && Registered(counters, NamesOf(t.tags, ReadDirection(t.directIn)), t.read)
    && Registered(counters, NamesOf(t.tags, WriteDirection(t.directIn)), t.write)
  }

  predicate AddOk(a: Adding, size: nat) {
    Distinct(a.ids) && forall id :: id in a.ids ==> id < size
  }

  predicate EntryOk(counters: map<string, nat>, e: Entry) {
    forall n :: n in e.names ==> n in counters
  }

  predicate ListsOk(s: State) {
    && (forall i :: 0 <= i < |s.trackers| ==> TrackerOk(s.counters, s.trackers[i]))
    && (forall i :: 0 <= i < |s.adds| ==> AddOk(s.adds[i], |s.values|))
    && (forall i :: 0 <= i < |s.queries| ==> s.queries[i].id < |s.values|)
    && (forall i :: 0 <= i < |s.log| ==> EntryOk(s.counters, s.log[i]))
  }

  /** The counter is the traffic for the name, less what was returned and what is still owed, as an int64. */
  predicate Balanced(s: State, name: string)
    requires MapOk(s) && name in s.counters
  {
    var id := s.counters[name];
    s.values[id] == Wrap(Logged(s.log, name) - s.returned[id] - Owed(s.adds, id))
  }

  ghost predicate Inv(s: State) {
    MapOk(s) && ListsOk(s) && forall name :: name in s.counters ==> Balanced(s, name)
  }

  lemma {:induction false} LoggedNone(log: seq<Entry>, name: string)
    requires forall i :: 0 <= i < |log| ==> name !in log[i].names
    ensures Logged(log, name) == 0
  {
    if log != [] {
      LoggedNone(log[1..], name);
    }
  }

  lemma {:induction false} LoggedMore(log: seq<Entry>, e: Entry, name: string)
    ensures Logged(log + [e], name) == Logged(log, name) + if name in e.names then e.n else 0
  {
    if log == [] {
      assert log + [e] == [e];
    } else {
      LoggedMore(log[1..], e, name);
      assert (log + [e])[1..] == log[1..] + [e];
    }
  }

  lemma {:induction false} OwedNone(adds: seq<Adding>, id: nat)
    requires forall i :: 0 <= i < |adds| ==> id !in adds[i].ids
    ensures Owed(adds, id) == 0
  {
    if adds != [] {
      OwedNone(adds[1..], id);
    }
  }

  lemma {:induction false} OwedMore(adds: seq<Adding>, a: Adding, id: nat)
    ensures Owed(adds + [a], id) == Owed(adds, id) + Share(a, id)
  {
    if adds == [] {
      assert adds + [a] == [a];
    } else {
      OwedMore(adds[1..], a, id);
      assert (adds + [a])[1..] == adds[1..] + [a];
    }
  }

  lemma {:induction false} OwedUpdate(adds: seq<Adding>, p: nat, a: Adding, id: nat)
    requires p < |adds|
    ensures Owed(adds[p := a], id) == Owed(adds, id) - Share(adds[p], id) + Share(a, id)
  {
    if p == 0 {
      assert adds[p := a][1..] == adds[1..];
    } else {
      OwedUpdate(adds[1..], p - 1, a, id);
      assert adds[p := a][1..] == adds[1..][p - 1 := a];
    }
  }

  // ---------- The invariant ----------

  lemma InvLoad(s: State, name: string)
    requires Inv(s)
    ensures Inv(LoadOrCreate(s, name))
  {
    hide Wrap;
    var t := LoadOrCreate(s, name);
    if name !in s.counters {
      var id := |s.values|;
      forall i | 0 <= i < |s.adds|
        ensures id !in s.adds[i].ids && AddOk(s.adds[i], |t.values|)
      {
        assert AddOk(s.adds[i], |s.values|);
      }
      forall i | 0 <= i < |s.log|
        ensures name !in s.log[i].names && EntryOk(t.counters, s.log[i])
      {
        assert EntryOk(s.counters, s.log[i]);
      }
      forall i | 0 <= i < |s.trackers|
        ensures TrackerOk(t.counters, s.trackers[i])
      {
        assert TrackerOk(s.counters, s.trackers[i]);
      }
      LoggedNone(s.log, name);
      OwedNone(s.adds, id);
      WrapInRange(0);
      forall n | n in t.counters
        ensures Balanced(t, n)
      {
        assert n in s.counters ==> Balanced(s, n);
      }
    }
  }

  /** No name is taken away or bound to another counter. */
  predicate Extends(was: map<string, nat>, now: map<string, nat>) {
    forall n :: n in was ==> n in now && now[n] == was[n]
  }

  lemma {:induction false} InvLoadAll(s: State, names: seq<string>)
    requires Inv(s)
    ensures var t := LoadAll(s, names);
            && Inv(t) && Extends(s.counters, t.counters)
            && t.trackers == s.trackers && forall n :: n in names ==> n in t.counters
    decreases |names|
  {
    hide Inv;
    if names != [] {
      InvLoad(s, names[0]);
      InvLoadAll(LoadOrCreate(s, names[0]), names[1..]);
      assert forall n :: n in names ==> n == names[0] || n in names[1..];
    }
  }

  lemma {:induction false} PairsHold(tags: seq<Tag>, i: nat, d: Direction)
    requires i < |tags|
    ensures Name(tags[i].0, tags[i].1, d) in Pairs(tags)
  {
    hide Name;
    if i > 0 {
      PairsHold(tags[1..], i - 1, d);
    } else {
      var ps := [Name(tags[0].0, tags[0].1, Uplink), Name(tags[0].0, tags[0].1, Downlink)];
      assert Name(tags[0].0, tags[0].1, d) in ps;
    }
  }

  lemma {:induction false} IdsRegistered(counters: map<string, nat>, tags: seq<Tag>, d: Direction)
    requires forall n :: n in Pairs(tags) ==> n in counters
    ensures Registered(counters, NamesOf(tags, d), IdsOf(counters, NamesOf(tags, d)))
  {
    hide Name, Pairs;
    forall i | 0 <= i < |tags|
      ensures NamesOf(tags, d)[i] in counters
    {
      PairsHold(tags, i, d);
    }
  }

  lemma InvRoute(s: State, tags: seq<Tag>, directIn: bool)
    requires Inv(s) && Distinct(tags)
    ensures Inv(Routed(s, tags, directIn)) && Extends(s.counters, Routed(s, tags, directIn).counters)
  {
    hide Wrap, LoadAll, Pairs, NamesOf, IdsOf;
    if tags != [] {
      InvLoadAll(s, Pairs(tags));
      var t := LoadAll(s, Pairs(tags));
      IdsRegistered(t.counters, tags, Uplink);
      IdsRegistered(t.counters, tags, Downlink);
      var s' := Routed(s, tags, directIn);
      forall n | n in s'.counters
        ensures Balanced(s', n)
      {
        assert Balanced(t, n);
      }
    }
  }

  lemma CountedDistinct(c: Config, inbound: string, outbound: string, user: string)
    ensures Distinct(Counted(c, inbound, outbound, user))
  {
  }

  lemma NamesDistinct(tags: seq<Tag>, d: Direction)
    requires Distinct(tags)
    ensures Distinct(NamesOf(tags, d))
  {
    hide Name;
    var names := NamesOf(tags, d);
    forall i, j | 0 <= i < j < |names|
      ensures names[i] != names[j]
    {
      NameIsInjective(tags[i].0, tags[i].1, d, tags[j].0, tags[j].1, d);
    }
  }

  /** A counter is in the list exactly when its name is. */
  lemma SameMembers(s: State, names: seq<string>, ids: seq<nat>, name: string)
    requires MapOk(s) && Registered(s.counters, names, ids) && name in s.counters
    ensures name in names <==> s.counters[name] in ids
  {
    if name in names {
      var i :| 0 <= i < |names| && names[i] == name;
      assert ids[i] == s.counters[name];
    }
    if s.counters[name] in ids {
      var i :| 0 <= i < |ids| && ids[i] == s.counters[name];
      assert names[i] == name;
    }
  }

  lemma IdsDistinct(s: State, names: seq<string>, ids: seq<nat>)
    requires MapOk(s) && Registered(s.counters, names, ids) && Distinct(names)
    ensures AddOk(Adding(ids, 0), |s.values|)
  {
    forall i, j | 0 <= i < j < |ids|
      ensures ids[i] != ids[j]
    {
      assert names[i] != names[j];
    }
    forall id | id in ids
      ensures id < |s.values|
    {
      var i :| 0 <= i < |ids| && ids[i] == id;
      assert names[i] in s.counters;
    }
  }

  /** One more loop over registered counters, and its entry in the log. */
  lemma InvCounting(s: State, names: seq<string>, ids: seq<nat>, n: int)
    requires Inv(s) && Registered(s.counters, names, ids) && Distinct(names)
    ensures Inv(s.(adds := s.adds + [Adding(ids, n)], log := s.log + [Entry(names, n)]))
  {
    hide Wrap, Logged, Owed;
    var t := s.(adds := s.adds + [Adding(ids, n)], log := s.log + [Entry(names, n)]);
    IdsDistinct(s, names, ids);
    assert AddOk(Adding(ids, n), |s.values|);
    assert EntryOk(s.counters, Entry(names, n));
    forall name | name in s.counters
      ensures Balanced(t, name)
    {
      assert Balanced(s, name);
      SameMembers(s, names, ids, name);
      LoggedMore(s.log, Entry(names, n), name);
      OwedMore(s.adds, Adding(ids, n), s.counters[name]);
    }
  }

  lemma TailOk(a: Adding, size: nat)
    requires AddOk(a, size) && a.ids != []
    ensures AddOk(Adding(a.ids[1..], a.n), size)
  {
    var ids := a.ids[1..];
    forall i, j | 0 <= i < j < |ids|
      ensures ids[i] != ids[j]
    {
      assert a.ids[i + 1] != a.ids[j + 1];
    }
    forall id | id in ids
      ensures id < size
    {
      assert id in a.ids;
    }
  }

  lemma InvAdd(s: State, p: nat)
    requires Inv(s) && p < |s.adds| && s.adds[p].ids != [] && s.adds[p].ids[0] < |s.values|
    ensures Inv(AddStep(s, p))
  {
    hide Wrap, Logged, Owed;
    var t := AddStep(s, p);
    var a, a' := s.adds[p], t.adds[p];
    assert AddOk(a, |s.values|);
    TailOk(a, |s.values|);
    assert a.ids == [a.ids[0]] + a'.ids;
    forall name | name in s.counters
      ensures Balanced(t, name)
    {
      assert Balanced(s, name);
      var id := s.counters[name];
      OwedUpdate(s.adds, p, a', id);
      assert id in a.ids <==> id == a.ids[0] || id in a'.ids;
      assert a.ids[0] !in a'.ids;
      WrapAdd(Logged(s.log, name) - s.returned[id] - Owed(s.adds, id), a.n);
    }
  }

  lemma InvAnswer(s: State, q: nat)
    requires Inv(s) && q < |s.queries| && s.queries[q].id < |s.values| == |s.returned|
    ensures Inv(AnswerStep(s, q))
  {
    hide Wrap, Logged, Owed;
    var t := AnswerStep(s, q);
    forall name | name in s.counters
      ensures Balanced(t, name)
    {
      assert Balanced(s, name);
      var id := s.counters[name];
      WrapAdd(Logged(s.log, name) - s.returned[id] - Owed(s.adds, id), 0);
    }
  }

  lemma InvStep(c: Config, s: State, a: Action)
    requires Inv(s) && Step(c, s, a).Some?
    ensures Inv(Step(c, s, a).value) && Extends(s.counters, Step(c, s, a).value.counters)
  {
    hide Wrap, Logged, Owed, Routed, NamesOf;
    match a
    case Route(i, o, u, directIn) =>
      CountedDistinct(c, i, o, u);
      InvRoute(s, Counted(c, i, o, u), directIn);
    case Count(t, reading, n) =>
      var k := s.trackers[t];
      assert TrackerOk(s.counters, k);
      var d := DirectionOf(k, reading);
      NamesDistinct(k.tags, d);
      InvCounting(s, NamesOf(k.tags, d), if reading then k.read else k.write, n);
    case AddOne(p) => InvAdd(s, p);
    case Lookup(name, reset) =>
      var t := Step(c, s, a).value;
      assert forall n :: n in s.counters ==> Balanced(s, n);
      assert forall n :: n in s.counters ==> Balanced(t, n);
    case Answer(q) => InvAnswer(s, q);
  }

  lemma {:induction false} InvExec(c: Config, s: State, acts: seq<Action>)
    requires Inv(s) && Exec(c, s, acts).Some?
    ensures Inv(Exec(c, s, acts).value) && Extends(s.counters, Exec(c, s, acts).value.counters)
    decreases |acts|
  {
    hide Inv, Step;
    if acts != [] {
      InvStep(c, s, acts[0]);
      InvExec(c, Step(c, s, acts[0]).value, acts[1..]);
    }
  }

  // ---------- Results ----------

  /** In every interleaving a name keeps its counter from its first use on, and no two names share one. */
  lemma {:induction false} NamesAreNeverRebound(c: Config, before: seq<Action>, after: seq<Action>,
                                                name: string, other: string)
    requires Exec(c, START, before).Some? && Exec(c, Exec(c, START, before).value, after).Some?
    ensures var s, t := Exec(c, START, before).value, Exec(c, Exec(c, START, before).value, after).value;
            && (name in s.counters ==> name in t.counters && t.counters[name] == s.counters[name])
            && (name in t.counters && other in t.counters && name != other ==> t.counters[name] != t.counters[other])
  {
    StartInv();
    InvExec(c, START, before);
    InvExec(c, Exec(c, START, before).value, after);
  }

  lemma InNames(tags: seq<Tag>, k: Kind, tag: string, d: Direction, d': Direction)
    ensures Name(k, tag, d) in NamesOf(tags, d') <==> d == d' && (k, tag) in tags
  {
    hide Name;
    var names := NamesOf(tags, d');
    if Name(k, tag, d) in names {
      var i :| 0 <= i < |names| && names[i] == Name(k, tag, d);
      NameIsInjective(tags[i].0, tags[i].1, d', k, tag, d);
      assert tags[i] == (k, tag);
    }
    if d == d' && (k, tag) in tags {
      var i :| 0 <= i < |tags| && tags[i] == (k, tag);
      assert names[i] == Name(k, tag, d);
    }
  }

  // ---------- From a connection to its counters ----------

  /** A connection's own tag of each kind. */
  function TagOf(a: Action, k: Kind): string
    requires a.Route?
  {
    match k
    case Inbound => a.inbound
    case Outbound => a.outbound
    case User => a.user
  }

  /** What is configured for each kind. */
  function ConfiguredFor(c: Config, k: Kind): set<string> {
    match k
    case Inbound => c.inbounds
    case Outbound => c.outbounds
    case User => c.users
  }

  /** The connection is counted for its tag of kind k: it has one, and it is configured. */
  predicate CountsKind(c: Config, a: Action, k: Kind)
    requires a.Route?
  {
    TagOf(a, k) != "" && TagOf(a, k) in ConfiguredFor(c, k)
  }

  lemma CountedIs(c: Config, a: Action, k: Kind, tag: string)
    requires a.Route?
    ensures (k, tag) in Counted(c, a.inbound, a.outbound, a.user) <==> tag == TagOf(a, k) && CountsKind(c, a, k)
  {
  }

  /**
    Routing a connection: it gets counters if and only if one of its tags is named and configured for its
    own kind, and then for exactly those.
   */
  lemma {:induction false} RouteCounts(c: Config, s: State, a: Action)
    requires a.Route?
    ensures var s' := Step(c, s, a).value;
            if exists k :: CountsKind(c, a, k) then
              && |s'.trackers| == |s.trackers| + 1 && s'.trackers[..|s.trackers|] == s.trackers
              && s'.trackers[|s.trackers|].directIn == a.directIn
              && forall k, tag ::
                   (k, tag) in s'.trackers[|s.trackers|].tags <==> tag == TagOf(a, k) && CountsKind(c, a, k)
            else s' == s
  {
    var tags := Counted(c, a.inbound, a.outbound, a.user);
    forall k, tag
      ensures (k, tag) in tags <==> tag == TagOf(a, k) && CountsKind(c, a, k)
    {
      CountedIs(c, a, k, tag);
    }
    LoadAllTrackers(s, Pairs(tags));
    hide Counted, CountsKind, LoadAll, Pairs, IdsOf, NamesOf;
    assert tags != [] ==> (tags[0].0, tags[0].1) in tags;
    if k :| CountsKind(c, a, k) {
      assert (k, TagOf(a, k)) in tags;
    }
  }

  lemma {:induction false} LoadAllTrackers(s: State, names: seq<string>)
    ensures LoadAll(s, names).trackers == s.trackers && LoadAll(s, names).log == s.log
    decreases |names|
  {
    if names != [] {
      LoadAllTrackers(LoadOrCreate(s, names[0]), names[1..]);
    }
  }

  /**
    From the connection to the counter: n bytes read or written on a counted connection add n to the
    traffic of a name exactly if it is that of the connection's own, configured tag, in the uplink
    direction when a direct connection reads or another one writes, and downlink otherwise.
   */
  lemma {:induction false} ConnectionCountsFor(c: Config, s: State, a: Action, reading: bool, n: int,
                                               k: Kind, tag: string, d: Direction)
    requires a.Route? && exists j :: CountsKind(c, a, j)
    ensures Step(c, Step(c, s, a).value, Count(|s.trackers|, reading, n)).Some?
    ensures var s' := Step(c, Step(c, s, a).value, Count(|s.trackers|, reading, n)).value;
            Logged(s'.log, Name(k, tag, d)) - Logged(s.log, Name(k, tag, d))
            == if tag == TagOf(a, k) && CountsKind(c, a, k) && (d.Uplink? <==> (reading <==> a.directIn)) then n else 0
  {
    RouteCounts(c, s, a);
    LoadAllTrackers(s, Pairs(Counted(c, a.inbound, a.outbound, a.user)));
    var s1 := Step(c, s, a).value;
    assert s1.log == s.log;
    hide Logged, Name, Routed, CountsKind, Counted, CountStep;
    TrafficCountsFor(c, s1, |s.trackers|, reading, n, k, tag, d);
  }

  /**
    A query, found and answered: by its own counter. With reset the counter is left at zero and what it
    held is returned; without, nothing changes; an unknown name is an error and changes nothing.
   */
  lemma {:induction false} QueryAnswers(c: Config, s: State, name: string, reset: bool)
    requires Inv(s)
    ensures name !in s.counters ==> Step(c, s, Lookup(name, reset)) == Some(s)
    ensures name in s.counters ==>
              Exec(c, s, [Lookup(name, reset), Answer(|s.queries|)])
              == Some(if reset then ResetOf(s, s.counters[name]) else s)
  {
    hide Logged, Owed, Wrap;
    if name in s.counters {
      var s1 := s.(queries := s.queries + [Query(s.counters[name], reset)]);
      var acts := [Lookup(name, reset), Answer(|s.queries|)];
      assert acts[1..] == [Answer(|s.queries|)] && acts[1..][1..] == [];
      assert Step(c, s, acts[0]) == Some(s1);
      assert s1.queries[..|s.queries|] + s1.queries[|s.queries| + 1..] == s.queries;
      assert s1.queries[|s.queries|] == Query(s.counters[name], reset);
      assert Step(c, s1, acts[1]) == Some(if reset then ResetOf(s, s.counters[name]) else s);
      ExecTwo(c, s, acts[0], s1, acts[1]);
    }
  }

  /** Counter id swapped for zero, and what it held returned. */
  function ResetOf(s: State, id: nat): State
    requires id < |s.values| == |s.returned|
  {
    s.(values := s.values[id := 0], returned := s.returned[id := s.returned[id] + s.values[id]])
  }

  lemma {:induction false} ExecTwo(c: Config, s: State, a: Action, s1: State, b: Action)
    requires Step(c, s, a) == Some(s1) && Step(c, s1, b).Some?
    ensures Exec(c, s, [a, b]) == Step(c, s1, b)
  {
    hide Step;
    assert [a, b][1..] == [b] && [b][1..] == [];
    assert Exec(c, s1, [b]) == Step(c, s1, b);
  }

  /**
    Where traffic counts: for exactly the connection's own tags, as uplink when a direct connection
    reads or another one writes, and as downlink otherwise.
   */
  lemma TrafficCountsFor(c: Config, s: State, t: nat, reading: bool, n: int, k: Kind, tag: string, d: Direction)
    requires t < |s.trackers|
    ensures var s' := Step(c, s, Count(t, reading, n)).value;
            Logged(s'.log, Name(k, tag, d)) - Logged(s.log, Name(k, tag, d))
            == if (k, tag) in s.trackers[t].tags && (d.Uplink? <==> (reading <==> s.trackers[t].directIn)) then n else 0
  {
    hide Name, NamesOf, Logged;
    var x := s.trackers[t];
    var d' := DirectionOf(x, reading);
    InNames(x.tags, k, tag, d, d');
    LoggedMore(s.log, Entry(NamesOf(x.tags, d'), n), Name(k, tag, d));
  }

  /**
    Traffic is conserved in every interleaving: what moved for a name is what resetting queries
    returned, plus what the counter holds, plus what loops under way still have to add, modulo
    2^64, and exactly so when what is neither returned nor owed fits an int64.
   */
  lemma {:induction false} TrafficIsConserved(c: Config, acts: seq<Action>, name: string)
    requires Exec(c, START, acts).Some? && name in Exec(c, START, acts).value.counters
    ensures var s := Exec(c, START, acts).value;
            var id := s.counters[name];
            && id < |s.values| == |s.returned|
            && var held := Logged(s.log, name) - s.returned[id] - Owed(s.adds, id);
               s.values[id] == Wrap(held) && (-TWO63 <= held < TWO63 ==> s.values[id] == held)
  {
    hide Wrap, Logged, Owed, Exec, Inv;
    StartInv();
    InvExec(c, START, acts);
    HeldInRange(Exec(c, START, acts).value, name);
  }

  lemma StartInv()
    ensures Inv(START)
  {
  }

  lemma {:induction false} HeldInRange(s: State, name: string)
    requires Inv(s) && name in s.counters
    ensures var id := s.counters[name];
            && id < |s.values| == |s.returned|
            && var held := Logged(s.log, name) - s.returned[id] - Owed(s.adds, id);
               s.values[id] == Wrap(held) && (-TWO63 <= held < TWO63 ==> s.values[id] == held)
  {
    hide Wrap, Logged, Owed, ListsOk;
    assert Balanced(s, name);
    var id := s.counters[name];
    var held := Logged(s.log, name) - s.returned[id] - Owed(s.adds, id);
    if -TWO63 <= held < TWO63 {
      WrapInRange(held);
    }
  }
}
