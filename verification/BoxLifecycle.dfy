/**
  Starting and closing a sing-box instance: components are started in four stages, each
  start call can fail, the context can be cancelled between any two calls, and a failed
  start closes the box.
 */
module BoxLifecycle {
  import opened Common

  datatype Stage = Initialize | Start | PostStart | Started

  function Rank(s: Stage): nat {
    match s case Initialize => 0 case Start => 1 case PostStart => 2 case Started => 3
  }

  /** Internal(i) is the i-th internal service: cache file, Clash API, V2Ray API, NTP. */
  datatype Component =
    | Logger | DebugServer | Network | DnsTransport | DnsRouter | Connection | Router | Outbound | Inbound
    | Endpoint | Service | CertificateProvider | HttpClient | Internal(i: nat)

  datatype Task = StartLogger | StartDebug | Call(c: Component, stage: Stage)

  /** A start call that was made, whether or not it returned an error, or a close call. */
  datatype Event = Did(task: Task) | Closed(c: Component)

  /**
    What the outside decides: whether a start call fails and whether the context is
    cancelled, both as functions of how much has happened, and which closes fail.
   */
  datatype Env = Env(fails: (nat, Task) -> bool, cancelled: nat -> bool, closeFails: Component -> bool,
                     debugConfigured: bool)

  // ---------- The start schedule ----------

  datatype Block = Block(stage: Stage, services: seq<Component>)

  function Internals(n: nat): seq<Component> { seq(n, i requires 0 <= i < n => Internal(i)) }

  const MANAGERS := [Network, DnsTransport, DnsRouter, Connection, Router, Outbound, Inbound, Endpoint, Service,
                     CertificateProvider]

  /** preStart after the logger and the debug server. */
  function PrePlan(n: nat): seq<Block> {
    [Block(Initialize, Internals(n)),
     Block(Initialize, MANAGERS),
     Block(Start, [Outbound, DnsTransport, Network, Connection]),
     Block(Start, [HttpClient]),
     Block(Start, [Router, DnsRouter])]
  }

  /** start after preStart. */
  function PostPlan(n: nat): seq<Block> {
    [Block(Start, Internals(n)),
     Block(Start, [Endpoint]),
     Block(Start, [CertificateProvider]),
     Block(Start, [Inbound, Service]),
     Block(PostStart, [Outbound, Network, DnsTransport, DnsRouter, Connection, Router, Endpoint, CertificateProvider,
                       Inbound, Service]),
     Block(PostStart, Internals(n)),
     Block(Started, [Network, DnsTransport, DnsRouter, Connection, Router, Outbound, Endpoint, CertificateProvider,
                     Inbound, Service]),
     Block(Started, Internals(n))]
  }

  function Calls(b: Block): seq<Task> {
    seq(|b.services|, i requires 0 <= i < |b.services| => Call(b.services[i], b.stage))
  }

  function Flatten(plan: seq<Block>): seq<Task> {
    if plan == [] then [] else Calls(plan[0]) + Flatten(plan[1..])
  }

  const PRELUDE := [StartLogger, StartDebug]

  /** The one fixed order in which everything is started. */
  function Schedule(n: nat): seq<Task> { PRELUDE + Flatten(PrePlan(n) + PostPlan(n)) }

  // ---------- Running tasks ----------

  /** Whether the run stops here: cancelled before the call, or it returns an error. */
  predicate Cancelled(env: Env, t: Task, at: nat) { t.Call? && env.cancelled(at) }

  /** The events so far after running tasks in order until one stops the run. */
  function RunTasks(env: Env, tasks: seq<Task>, trace: seq<Event>): (seq<Event>, bool)
    decreases |tasks|
  {
    if tasks == [] then (trace, true)
    else if Cancelled(env, tasks[0], |trace|) then (trace, false)
    else
      var trace' := trace + [Did(tasks[0])];
      if env.fails(|trace|, tasks[0]) then (trace', false) else RunTasks(env, tasks[1..], trace')
  }

  function Dids(tasks: seq<Task>): seq<Event> {
    seq(|tasks|, i requires 0 <= i < |tasks| => Did(tasks[i]))
  }

  /** What a run of tasks leaves behind is a prefix of them, all of them exactly if nothing stopped it. */
  lemma {:induction false} RunIsPrefix(env: Env, tasks: seq<Task>, trace: seq<Event>) returns (k: nat)
    ensures k <= |tasks|
    ensures RunTasks(env, tasks, trace).0 == trace + Dids(tasks[..k])
    ensures RunTasks(env, tasks, trace).1 ==> k == |tasks|
    ensures forall i :: 0 <= i < k - 1 ==> !env.fails(|trace| + i, tasks[i])
    ensures forall i :: 0 <= i < k ==> !Cancelled(env, tasks[i], |trace| + i)
    ensures !RunTasks(env, tasks, trace).1 ==>
              || (k > 0 && env.fails(|trace| + k - 1, tasks[k - 1]))
              || (k < |tasks| && Cancelled(env, tasks[k], |trace| + k))
    ensures RunTasks(env, tasks, trace).1 && k > 0 ==> !env.fails(|trace| + k - 1, tasks[k - 1])
    decreases |tasks|
  {
    if tasks == [] {
      k := 0;
    } else if Cancelled(env, tasks[0], |trace|) {
      k := 0;
    } else {
      var trace' := trace + [Did(tasks[0])];
      if env.fails(|trace|, tasks[0]) {
        k := 1;
        assert trace + Dids(tasks[..1]) == trace';
      } else {
        var j := RunIsPrefix(env, tasks[1..], trace');
        k := j + 1;
        assert tasks[..k] == [tasks[0]] + tasks[1..][..j];
        assert trace' + Dids(tasks[1..][..j]) == trace + Dids(tasks[..k]);
        forall i | 0 <= i < k
          ensures !Cancelled(env, tasks[i], |trace| + i)
          ensures i < k - 1 ==> !env.fails(|trace| + i, tasks[i])
        {
          if i > 0 {
            assert tasks[i] == tasks[1..][i - 1];
          }
        }
      }
    }
  }

  lemma {:induction false} RunAppend(env: Env, a: seq<Task>, b: seq<Task>, trace: seq<Event>)
    ensures var r := RunTasks(env, a, trace);
            RunTasks(env, a + b, trace) == if r.1 then RunTasks(env, b, r.0) else r
    decreases |a|
  {
    if a == [] {
      assert a + b == b;
    } else {
      assert (a + b)[1..] == a[1..] + b;
      if !Cancelled(env, a[0], |trace|) && !env.fails(|trace|, a[0]) {
        RunAppend(env, a[1..], b, trace + [Did(a[0])]);
      }
    }
  }

  lemma {:induction false} FlattenAppend(a: seq<Block>, b: seq<Block>)
    ensures Flatten(a + b) == Flatten(a) + Flatten(b)
    decreases |a|
  {
    if a == [] {
      assert a + b == b;
    } else {
      assert (a + b)[1..] == a[1..] + b;
      FlattenAppend(a[1..], b);
    }
  }

  // ---------- The close order ----------

  const CLOSE_ORDER := [Service, Inbound, CertificateProvider, Endpoint, Outbound, Router, Connection, DnsRouter,
                        DnsTransport, Network]

  function CloseOrder(n: nat, debug: bool): seq<Component> {
    (if debug then [DebugServer] else []) + CLOSE_ORDER + [HttpClient] + Internals(n) + [Logger]
  }

  function Closes(cs: seq<Component>): seq<Event> {
    seq(|cs|, i requires 0 <= i < |cs| => Closed(cs[i]))
  }

  function Failing(env: Env, cs: seq<Component>): seq<Component> {
    if cs == [] then []
    else Failing(env, cs[..|cs| - 1]) + if env.closeFails(cs[|cs| - 1]) then [cs[|cs| - 1]] else []
  }

  // ---------- The box ----------

  lemma {:induction false} FlattenMore(plan: seq<Block>, b: Block)
    ensures PRELUDE + Flatten(plan + [b]) == PRELUDE + Flatten(plan) + Calls(b)
  {
    assert Flatten([b]) == Calls(b) by {
      assert [b][1..] == [];
    }
    hide Flatten, Calls;
    FlattenAppend(plan, [b]);
  }

  /** Whether the debug server is up after a start that begins `at` events into the trace. */
  predicate DebugUp(env: Env, at: nat, was: bool) {
    if env.fails(at, StartLogger) then was else env.debugConfigured && !env.fails(at + 1, StartDebug)
  }

  class Box {
    const n: nat           // number of internal services
    const env: Env
    var done: bool         // the done channel is closed
    var debug: bool        // debugHTTPServer != nil
    var trace: seq<Event>

    constructor (n: nat, env: Env)
      ensures !done && !debug && trace == [] && this.n == n && this.env == env
    {
      this.n, this.env := n, env;
      done, debug, trace := false, false, [];
    }

    /** adapter.Start and adapter.StartNamed. */
    method StartServices(stage: Stage, services: seq<Component>) returns (ok: bool)
      modifies this`trace
      ensures (trace, ok) == RunTasks(env, Calls(Block(stage, services)), old(trace))
    {
      ghost var tasks := Calls(Block(stage, services));
      for k := 0 to |services|
        invariant RunTasks(env, tasks, old(trace)) == RunTasks(env, tasks[k..], trace)
      {
        if env.cancelled(|trace|) {
          return false;
        }
        var task := Call(services[k], stage);
        assert tasks[k..][0] == task && tasks[k..][1..] == tasks[k + 1..];
        var failed := env.fails(|trace|, task);
        trace := trace + [Did(task)];
        if failed {
          return false;
        }
      }
      return true;
    }

    /** A plan that stopped would not have gone further with more blocks. */
    lemma {:induction false} Stopped(from: seq<Event>, sofar: seq<Block>, more: seq<Block>)
      requires !RunTasks(env, PRELUDE + Flatten(sofar), from).1
      ensures RunTasks(env, PRELUDE + Flatten(sofar + more), from) == RunTasks(env, PRELUDE + Flatten(sofar), from)
    {
      hide RunTasks, Flatten;
      FlattenAppend(sofar, more);
      assert PRELUDE + Flatten(sofar + more) == PRELUDE + Flatten(sofar) + Flatten(more);
      RunAppend(env, PRELUDE + Flatten(sofar), Flatten(more), from);
    }

    lemma {:induction false} StoppedAtOnce(from: seq<Event>, plan: seq<Block>)
      requires !RunTasks(env, PRELUDE + Flatten([]), from).1
      ensures RunTasks(env, PRELUDE + Flatten(plan), from) == RunTasks(env, PRELUDE + Flatten([]), from)
    {
      hide RunTasks, Flatten;
      Stopped(from, [], plan);
      assert [] + plan == plan;
    }

    /** Block k of a plan that has gone well so far; if it does not, the whole plan stops there. */
    method StartBlock(stage: Stage, services: seq<Component>,
                      ghost from: seq<Event>, ghost plan: seq<Block>, ghost k: nat)
      returns (ok: bool)
      requires k < |plan| && plan[k] == Block(stage, services)
      requires (trace, true) == RunTasks(env, PRELUDE + Flatten(plan[..k]), from)
      modifies this`trace
      ensures ok ==> (trace, true) == RunTasks(env, PRELUDE + Flatten(plan[..k + 1]), from)
      ensures !ok ==> (trace, false) == RunTasks(env, PRELUDE + Flatten(plan), from)
    {
      hide RunTasks, Flatten, Calls;
      ok := StartServices(stage, services);
      FlattenMore(plan[..k], plan[k]);
      assert plan[..k] + [plan[k]] == plan[..k + 1];
      RunAppend(env, PRELUDE + Flatten(plan[..k]), Calls(plan[k]), from);
      if !ok {
        Stopped(from, plan[..k + 1], plan[k + 1..]);
        assert plan[..k + 1] + plan[k + 1..] == plan;
      }
    }

    method PreStartInner() returns (ok: bool)
      modifies this`trace, this`debug
      ensures (trace, ok) == RunTasks(env, PRELUDE + Flatten(PrePlan(n)), old(trace))
      ensures debug == DebugUp(env, |old(trace)|, old(debug))
    {
      hide RunTasks, Flatten;
      ghost var plan := PrePlan(n);
      assert plan[..0] == [] && plan[..5] == plan;
      ok := StartPrelude();
      if !ok {
        StoppedAtOnce(old(trace), plan);
        return;
      }
      ok := StartBlock(Initialize, Internals(n), old(trace), plan, 0);
      if !ok {
        return;
      }
      ok := StartBlock(Initialize, [Network, DnsTransport, DnsRouter, Connection, Router, Outbound, Inbound, Endpoint,
                                    Service, CertificateProvider], old(trace), plan, 1);
      if !ok {
        return;
      }
      ok := StartBlock(Start, [Outbound, DnsTransport, Network, Connection], old(trace), plan, 2);
      if !ok {
        return;
      }
      ok := StartBlock(Start, [HttpClient], old(trace), plan, 3);
      if !ok {
        return;
      }
      ok := StartBlock(Start, [Router, DnsRouter], old(trace), plan, 4);
    }

    /** The logger and the debug HTTP server. */
    method StartPrelude() returns (ok: bool)
      modifies this`trace, this`debug
      ensures (trace, ok) == RunTasks(env, PRELUDE + Flatten([]), old(trace))
      ensures debug == DebugUp(env, |old(trace)|, old(debug))
    {
      assert PRELUDE + Flatten([]) == PRELUDE && PRELUDE[1..] == [StartDebug] && [StartDebug][1..] == [];
      ok := !env.fails(|trace|, StartLogger);
      trace := trace + [Did(StartLogger)];
      if !ok {
        return;
      }
      ok := !env.fails(|trace|, StartDebug);
      debug := ok && env.debugConfigured;
      trace := trace + [Did(StartDebug)];
    }

    method StartInner() returns (ok: bool)
      modifies this`trace, this`debug
      ensures (trace, ok) == RunTasks(env, Schedule(n), old(trace))
      ensures debug == DebugUp(env, |old(trace)|, old(debug))
    {
      hide RunTasks, Flatten;
      ghost var plan := PrePlan(n) + PostPlan(n);
      assert plan[..5] == PrePlan(n) && plan[..13] == plan;
      ok := PreStartInner();
      if !ok {
        Stopped(old(trace), PrePlan(n), PostPlan(n));
        return;
      }
      ok := StartBlock(Start, Internals(n), old(trace), plan, 5);
      if !ok {
        return;
      }
      ok := StartBlock(Start, [Endpoint], old(trace), plan, 6);
      if !ok {
        return;
      }
      ok := StartBlock(Start, [CertificateProvider], old(trace), plan, 7);
      if !ok {
        return;
      }
      ok := StartBlock(Start, [Inbound, Service], old(trace), plan, 8);
      if !ok {
        return;
      }
      ok := StartBlock(PostStart, [Outbound, Network, DnsTransport, DnsRouter, Connection, Router, Endpoint,
                                   CertificateProvider, Inbound, Service], old(trace), plan, 9);
      if !ok {
        return;
      }
      ok := StartBlock(PostStart, Internals(n), old(trace), plan, 10);
      if !ok {
        return;
      }
      ok := StartBlock(Started, [Network, DnsTransport, DnsRouter, Connection, Router, Outbound, Endpoint,
                                 CertificateProvider, Inbound, Service], old(trace), plan, 11);
      if !ok {
        return;
      }
      ok := StartBlock(Started, Internals(n), old(trace), plan, 12);
    }

    /** Close a list of components, keeping going over errors. */
    method CloseAll(cs: seq<Component>, before: seq<Component>) returns (errs: seq<Component>)
      modifies this`trace
      ensures trace == old(trace) + Closes(cs)
      ensures errs == before + Failing(env, cs)
    {
      errs := before;
      for k := 0 to |cs|
        invariant trace == old(trace) + Closes(cs[..k])
        invariant errs == before + Failing(env, cs[..k])
      {
        assert cs[..k + 1][..k] == cs[..k];
        trace := trace + [Closed(cs[k])];
        if env.closeFails(cs[k]) {
          errs := errs + [cs[k]];
        }
      }
      assert cs[..|cs|] == cs;
    }

    /** Close: None stands for os.ErrClosed, otherwise the components whose close failed. */
    method Close() returns (r: Option<seq<Component>>)
      modifies this
      ensures done
      ensures old(done) ==> r == None && trace == old(trace) && debug == old(debug)
      ensures !old(done) ==>
                && trace == old(trace) + Closes(CloseOrder(n, old(debug))) && !debug
                && r == Some(Failing(env, CloseOrder(n, old(debug))))
    {
      if done {
        return None;
      }
      done := true;
      var errs: seq<Component> := [];
      ghost var so: seq<Component> := if debug then [DebugServer] else [];
      if debug {
        errs := CloseAll([DebugServer], errs);
        debug := false;
      }
      var managers := [Service, Inbound, CertificateProvider, Endpoint, Outbound, Router, Connection, DnsRouter,
                       DnsTransport, Network];
      errs := CloseMore(managers, errs, so, old(trace));
      errs := CloseMore([HttpClient], errs, so + managers, old(trace));
      errs := CloseMore(Internals(n), errs, so + managers + [HttpClient], old(trace));
      errs := CloseMore([Logger], errs, so + managers + [HttpClient] + Internals(n), old(trace));
      assert managers == CLOSE_ORDER;
      return Some(errs);
    }

    method CloseMore(cs: seq<Component>, before: seq<Component>, ghost so: seq<Component>, ghost from: seq<Event>)
      returns (errs: seq<Component>)
      requires trace == from + Closes(so) && before == Failing(env, so)
      modifies this`trace
      ensures trace == from + Closes(so + cs) && errs == Failing(env, so + cs)
    {
      errs := CloseAll(cs, before);
      FailingAppend(env, so, cs);
    }

    /**
      Start. What was started is a prefix of the one schedule, all of it exactly if Start
      succeeds; a failed start closes the box, unless it had been closed already.
     */
    method StartBox() returns (ok: bool, ghost k: nat, ghost debugUp: bool)
      modifies this
      ensures k <= |Schedule(n)| && (ok ==> k == |Schedule(n)|)
      ensures ok ==> trace == old(trace) + Dids(Schedule(n)[..k]) && done == old(done)
      ensures !ok ==> done && trace == old(trace) + Dids(Schedule(n)[..k])
                                       + if old(done) then [] else Closes(CloseOrder(n, debugUp))
      ensures ok == RunTasks(env, Schedule(n), old(trace)).1
      ensures debugUp == DebugUp(env, |old(trace)|, old(debug))
    {
      hide RunTasks, Schedule, CloseOrder;
      ok := StartInner();
      k := RunIsPrefix(env, Schedule(n), old(trace));
      debugUp := debug;
      if !ok {
        var r := Close();
      }
    }
  }

  lemma {:induction false} FailingAppend(env: Env, a: seq<Component>, b: seq<Component>)
    ensures Failing(env, a + b) == Failing(env, a) + Failing(env, b)
    decreases |b|
  {
    if b == [] {
      assert a + b == a;
    } else {
      assert (a + b)[..|a + b| - 1] == a + b[..|b| - 1];
      FailingAppend(env, a, b[..|b| - 1]);
    }
  }

  // ---------- The schedule's order ----------

  predicate Staged(tasks: seq<Task>) {
    && (forall i :: 0 <= i < |tasks| ==> tasks[i].Call?)
    && forall i, j :: 0 <= i < j < |tasks| ==> Rank(tasks[i].stage) <= Rank(tasks[j].stage)
  }

  lemma {:induction false} FlattenStaged(plan: seq<Block>)
    requires forall i, j :: 0 <= i < j < |plan| ==> Rank(plan[i].stage) <= Rank(plan[j].stage)
    ensures Staged(Flatten(plan))
    ensures forall i :: 0 <= i < |Flatten(plan)| ==> Rank(plan[0].stage) <= Rank(Flatten(plan)[i].stage)
    decreases |plan|
  {
    if plan != [] {
      FlattenStaged(plan[1..]);
      var rest := Flatten(plan[1..]);
      forall i | 0 <= i < |rest|
        ensures Rank(plan[0].stage) <= Rank(rest[i].stage)
      {
        assert plan[1..][0] == plan[1];
      }
    }
  }

  lemma PlanStaged(n: nat)
    ensures Staged(Flatten(PrePlan(n) + PostPlan(n)))
  {
    var plan := PrePlan(n) + PostPlan(n);
    assert forall i :: 0 <= i < |plan| ==>
        plan[i].stage == if i < 2 then Initialize else if i < 9 then Start else if i < 11 then PostStart else Started;
    FlattenStaged(plan);
  }

  /**
    In every start trace, whatever failed or was cancelled: a component gets a stage only
    after everything scheduled for an earlier stage has had it, without error.
   */
  lemma {:induction false} NoEarlyStage(env: Env, n: nat, trace: seq<Event>, k: nat, i: nat, j: nat)
    requires k <= |Schedule(n)| && RunTasks(env, Schedule(n), trace).0 == trace + Dids(Schedule(n)[..k])
    requires i < k && j < |Schedule(n)| && Schedule(n)[i].Call? && Schedule(n)[j].Call?
    requires Rank(Schedule(n)[j].stage) < Rank(Schedule(n)[i].stage)
    ensures j < i && !env.fails(|trace| + j, Schedule(n)[j])
  {
    PlanStaged(n);
    var s := Schedule(n);
    var k' := RunIsPrefix(env, s, trace);
    assert |trace + Dids(s[..k])| == |trace + Dids(s[..k'])|;
  }

  // ---------- Everything exactly once ----------

  /** The components every stage is meant for; the HTTP client only has the Start stage. */
  predicate GetsStage(n: nat, c: Component, st: Stage) {
    c in MANAGERS || (c.Internal? && c.i < n) || (c.HttpClient? && st.Start?)
  }

  predicate NoInternal(cs: seq<Component>) { forall i :: 0 <= i < |cs| ==> !cs[i].Internal? }

  /** A list with the internal services in the middle. */
  lemma DistinctAround(x: seq<Component>, n: nat, y: seq<Component>)
    requires Distinct(x + y) && NoInternal(x) && NoInternal(y)
    ensures Distinct(x + Internals(n) + y)
    ensures forall c :: c in x + Internals(n) + y <==> c in x || c in y || (c.Internal? && c.i < n)
  {
    var s := x + Internals(n) + y;
    forall i, j | 0 <= i < j < |s|
      ensures s[i] != s[j]
    {
      assert i < |x| ==> s[i] == (x + y)[i];
      assert i >= |x| + n ==> s[i] == (x + y)[i - n];
      assert j < |x| ==> s[j] == (x + y)[j];
      assert j >= |x| + n ==> s[j] == (x + y)[j - n];
    }
    forall c: Component | c.Internal? && c.i < n
      ensures c in s
    {
      assert s[|x| + c.i] == c;
    }
  }

  /** The services of consecutive blocks, one list. */
  function Services(plan: seq<Block>): seq<Component> {
    if plan == [] then [] else plan[0].services + Services(plan[1..])
  }

  lemma ServicesFrom(plan: seq<Block>, k: nat)
    requires k < |plan|
    ensures Services(plan[k..]) == plan[k].services + Services(plan[k + 1..])
  {
    assert plan[k..][1..] == plan[k + 1..];
  }

  /** Consecutive blocks of one stage are one block. */
  lemma {:induction false} FlattenSame(plan: seq<Block>, st: Stage)
    requires forall i :: 0 <= i < |plan| ==> plan[i].stage == st
    ensures Flatten(plan) == Calls(Block(st, Services(plan)))
    decreases |plan|
  {
    if plan != [] {
      FlattenSame(plan[1..], st);
    }
  }

  /** What comes before and after the internal services in each stage. */
  function Before(st: Stage): seq<Component> {
    match st
    case Initialize => []
    case Start => [Outbound, DnsTransport, Network, Connection] + [HttpClient] + [Router, DnsRouter]
    case PostStart => [Outbound, Network, DnsTransport, DnsRouter, Connection, Router, Endpoint, CertificateProvider,
                       Inbound, Service]
    case Started => [Network, DnsTransport, DnsRouter, Connection, Router, Outbound, Endpoint, CertificateProvider,
                     Inbound, Service]
  }

  function Behind(st: Stage): seq<Component> {
    match st
    case Initialize => MANAGERS
    case Start => [Endpoint] + [CertificateProvider] + [Inbound, Service]
    case PostStart => []
    case Started => []
  }

  function StageList(n: nat, st: Stage): seq<Component> { Before(st) + Internals(n) + Behind(st) }

  function StageTasks(n: nat, st: Stage): seq<Task> { Calls(Block(st, StageList(n, st))) }

  lemma StartServicesList(n: nat)
    ensures Services((PrePlan(n) + PostPlan(n))[2..9]) == StageList(n, Start)
  {
    hide Services;
    var p := (PrePlan(n) + PostPlan(n))[2..9];
    var z := [Endpoint] + [CertificateProvider] + [Inbound, Service];
    StartServicesTail(n);
    ServicesFrom(p, 2);
    assert Services(p[2..]) == [Router, DnsRouter] + (Internals(n) + z);
    ServicesFrom(p, 1);
    assert Services(p[1..]) == [HttpClient] + ([Router, DnsRouter] + (Internals(n) + z));
    ServicesFrom(p, 0);
    assert p[0..] == p;
  }

  lemma StartServicesTail(n: nat)
    ensures Services((PrePlan(n) + PostPlan(n))[2..9][3..])
            == Internals(n) + ([Endpoint] + [CertificateProvider] + [Inbound, Service])
  {
    hide Services;
    var p := (PrePlan(n) + PostPlan(n))[2..9];
    NoServices();
    assert p[7..] == [];
    ServicesFrom(p, 6);
    assert Services(p[6..]) == [Inbound, Service];
    ServicesFrom(p, 5);
    ServicesFrom(p, 4);
    ServicesFrom(p, 3);
  }

  lemma NoServices()
    ensures Services([]) == []
  {
  }

  lemma {:induction false} TwoBlocks(st: Stage, x: seq<Component>, y: seq<Component>)
    ensures Flatten([Block(st, x), Block(st, y)]) == Calls(Block(st, x + y))
  {
    var a, b := Block(st, x), Block(st, y);
    assert [a, b][1..] == [b] && [b][1..] == [];
    assert Flatten([b]) == Calls(b) + [];
    assert Calls(Block(st, x + y)) == Calls(a) + (Calls(b) + []);
  }

  /** The blocks of one stage. */
  function StagePlan(n: nat, st: Stage): seq<Block> {
    match st
    case Initialize => [Block(Initialize, Internals(n)), Block(Initialize, MANAGERS)]
    case Start => (PrePlan(n) + PostPlan(n))[2..9]
    case PostStart => [Block(PostStart, Before(PostStart)), Block(PostStart, Internals(n))]
    case Started => [Block(Started, Before(Started)), Block(Started, Internals(n))]
  }

  lemma PlanByStage(n: nat)
    ensures PrePlan(n) + PostPlan(n)
            == StagePlan(n, Initialize) + StagePlan(n, Start) + StagePlan(n, PostStart) + StagePlan(n, Started)
  {
  }

  lemma InitializeFlat(n: nat)
    ensures Flatten(StagePlan(n, Initialize)) == StageTasks(n, Initialize)
  {
    hide Flatten, Calls;
    TwoBlocks(Initialize, Internals(n), MANAGERS);
    assert StageList(n, Initialize) == Internals(n) + MANAGERS;
  }

  lemma StartFlat(n: nat)
    ensures Flatten(StagePlan(n, Start)) == StageTasks(n, Start)
  {
    hide Flatten, Calls, Services, StageList;
    FlattenSame(StagePlan(n, Start), Start);
    StartServicesList(n);
  }

  lemma LaterFlat(n: nat, st: Stage)
    requires st.PostStart? || st.Started?
    ensures Flatten(StagePlan(n, st)) == StageTasks(n, st)
  {
    hide Flatten, Calls, Before;
    TwoBlocks(st, Before(st), Internals(n));
    assert StageList(n, st) == Before(st) + Internals(n);
  }

  /** The whole schedule, stage by stage. */
  lemma ScheduleByStage(n: nat)
    ensures Schedule(n) == PRELUDE + StageTasks(n, Initialize) + StageTasks(n, Start) + StageTasks(n, PostStart)
                           + StageTasks(n, Started)
  {
    hide Flatten, StagePlan, StageTasks, PrePlan, PostPlan;
    var a, b, c, d := StagePlan(n, Initialize), StagePlan(n, Start), StagePlan(n, PostStart), StagePlan(n, Started);
    PlanByStage(n);
    FlattenAppend(a + b + c, d);
    FlattenAppend(a + b, c);
    FlattenAppend(a, b);
    InitializeFlat(n);
    StartFlat(n);
    LaterFlat(n, PostStart);
    LaterFlat(n, Started);
    var p, q, r, u := StageTasks(n, Initialize), StageTasks(n, Start), StageTasks(n, PostStart), StageTasks(n, Started);
    assert PRELUDE + (p + q + r + u) == PRELUDE + p + q + r + u;
  }

  lemma StageListOk(n: nat, st: Stage)
    ensures Distinct(StageList(n, st))
    ensures forall c :: c in StageList(n, st) <==> GetsStage(n, c, st)
  {
    var x, y := Before(st), Behind(st);
    AroundOk(st);
    hide Before, Behind;
    DistinctAround(x, n, y);
    forall c: Component
      ensures c in x || c in y <==> c in MANAGERS || (c.HttpClient? && st.Start?)
    {
      StageMembers(c, st);
    }
  }

  lemma AroundOk(st: Stage)
    ensures Distinct(Before(st) + Behind(st)) && NoInternal(Before(st)) && NoInternal(Behind(st))
  {
    hide *;
    match st
    case Initialize => AroundInitialize();
    case Start => AroundStart();
    case PostStart => AroundPostStart();
    case Started => AroundStarted();
  }

  lemma AroundInitialize()
    ensures var x, y := Before(Initialize), Behind(Initialize); Distinct(x + y) && NoInternal(x) && NoInternal(y)
  {
    hide MANAGERS;
    ManagersOk();
    assert Before(Initialize) + Behind(Initialize) == Behind(Initialize);
  }

  lemma ManagersOk()
    ensures Distinct(MANAGERS) && NoInternal(MANAGERS)
  {
  }

  lemma AroundPostStart()
    ensures var x, y := Before(PostStart), Behind(PostStart); Distinct(x + y) && NoInternal(x) && NoInternal(y)
  {
    assert Before(PostStart) + Behind(PostStart) == Before(PostStart);
  }

  lemma AroundStarted()
    ensures var x, y := Before(Started), Behind(Started); Distinct(x + y) && NoInternal(x) && NoInternal(y)
  {
    assert Before(Started) + Behind(Started) == Before(Started);
  }

  lemma AroundStart()
    ensures var x, y := Before(Start), Behind(Start); Distinct(x + y) && NoInternal(x) && NoInternal(y)
  {
    var all := [Outbound, DnsTransport, Network, Connection, HttpClient, Router, DnsRouter, Endpoint,
                CertificateProvider, Inbound, Service];
    assert Before(Start) == all[..7] && Behind(Start) == all[7..];
    assert all[..7] + all[7..] == all && Distinct(all);
  }

  lemma StageMembers(c: Component, st: Stage)
    ensures c in Before(st) || c in Behind(st) <==> c in MANAGERS || (c.HttpClient? && st.Start?)
  {
  }

  lemma StageTasksOk(n: nat, st: Stage)
    ensures Distinct(StageTasks(n, st))
    ensures forall i :: 0 <= i < |StageTasks(n, st)| ==> StageTasks(n, st)[i].Call? && StageTasks(n, st)[i].stage == st
    ensures forall c :: Call(c, st) in StageTasks(n, st) <==> GetsStage(n, c, st)
  {
    hide Before, Behind;
    StageListOk(n, st);
    var cs := StageList(n, st);
    forall c | c in cs
      ensures Call(c, st) in StageTasks(n, st)
    {
      var i :| 0 <= i < |cs| && cs[i] == c;
      assert StageTasks(n, st)[i] == Call(c, st);
    }
  }

  /** Lists of tasks of different stages, end to end. */
  lemma DistinctStages(a: seq<Task>, b: seq<Task>)
    requires Distinct(a) && Distinct(b)
    requires forall i, j :: 0 <= i < |a| && 0 <= j < |b| ==> a[i] != b[j]
    ensures Distinct(a + b)
  {
  }

  /** The schedule gives every component each of its stages exactly once, and nothing else. */
  lemma EachStageOnce(n: nat)
    ensures Distinct(Schedule(n))
    ensures forall c, st :: Call(c, st) in Schedule(n) <==> GetsStage(n, c, st)
  {
    hide Schedule, StageTasks, GetsStage;
    ScheduleByStage(n);
    StageTasksOk(n, Initialize);
    StageTasksOk(n, Start);
    StageTasksOk(n, PostStart);
    StageTasksOk(n, Started);
    var p0 := PRELUDE;
    var p1 := p0 + StageTasks(n, Initialize);
    var p2 := p1 + StageTasks(n, Start);
    var p3 := p2 + StageTasks(n, PostStart);
    DistinctStages(p0, StageTasks(n, Initialize));
    DistinctStages(p1, StageTasks(n, Start));
    DistinctStages(p2, StageTasks(n, PostStart));
    DistinctStages(p3, StageTasks(n, Started));
    forall c: Component, st: Stage
      ensures Call(c, st) in Schedule(n) <==> GetsStage(n, c, st)
    {
      assert Call(c, st) !in PRELUDE;
      match st
      case Initialize =>
      case Start =>
      case PostStart =>
      case Started =>
    }
  }

  /** Close closes every component exactly once: managers, HTTP client, internal services, logger. */
  lemma ClosesEachOnce(n: nat, debug: bool)
    ensures Distinct(CloseOrder(n, debug))
    ensures forall c :: c in CloseOrder(n, debug) <==>
              (c.DebugServer? ==> debug) && (c.Internal? ==> c.i < n)
  {
    var x := (if debug then [DebugServer] else []) + CLOSE_ORDER + [HttpClient];
    assert Distinct(x + [Logger]);
    DistinctAround(x, n, [Logger]);
    forall c: Component
      ensures c in x || c in [Logger] <==> !c.Internal? && (c.DebugServer? ==> debug)
    {
      CloseMembers(debug, c);
    }
  }

  lemma CloseMembers(debug: bool, c: Component)
    ensures var x := (if debug then [DebugServer] else []) + CLOSE_ORDER + [HttpClient];
            c in x || c in [Logger] <==> !c.Internal? && (c.DebugServer? ==> debug)
  {
    var x := (if debug then [DebugServer] else []) + CLOSE_ORDER + [HttpClient];
    assert forall d :: d in x <==> (d in CLOSE_ORDER || d == HttpClient || (debug && d == DebugServer));
    assert c in CLOSE_ORDER <==> c in MANAGERS by {
      match c
      case Service => assert CLOSE_ORDER[0] == c && MANAGERS[8] == c;
      case Inbound => assert CLOSE_ORDER[1] == c && MANAGERS[6] == c;
      case CertificateProvider => assert CLOSE_ORDER[2] == c && MANAGERS[9] == c;
      case Endpoint => assert CLOSE_ORDER[3] == c && MANAGERS[7] == c;
      case Outbound => assert CLOSE_ORDER[4] == c && MANAGERS[5] == c;
      case Router => assert CLOSE_ORDER[5] == c && MANAGERS[4] == c;
      case Connection => assert CLOSE_ORDER[6] == c && MANAGERS[3] == c;
      case DnsRouter => assert CLOSE_ORDER[7] == c && MANAGERS[2] == c;
      case DnsTransport => assert CLOSE_ORDER[8] == c && MANAGERS[1] == c;
      case Network => assert CLOSE_ORDER[9] == c && MANAGERS[0] == c;
      case _ =>
    }
  }

  // ---------- Closing in reverse ----------

  ghost predicate Precedes<T>(s: seq<T>, x: T, y: T) {
    exists i, j :: 0 <= i < j < |s| && s[i] == x && s[j] == y
  }

  lemma PrecedesAt<T>(s: seq<T>, i: nat, j: nat)
    requires i < |s| && j < |s| && Distinct(s) && i != j
    ensures Precedes(s, s[i], s[j]) <==> i < j
  {
  }

  /** Where component a of the Started stage is in the schedule. */
  lemma StartedAt(n: nat, a: nat) returns (base: nat)
    requires a < 10 + n
    ensures base == |Schedule(n)| - (10 + n) && Schedule(n)[base + a] == Call(StageList(n, Started)[a], Started)
  {
    hide Before, Behind, Schedule, StageTasks;
    ScheduleByStage(n);
    StartedList(n);
    var tasks := StageTasks(n, Started);
    StartedTask(n, a);
    base := |Schedule(n)| - |tasks|;
    assert Schedule(n)[base..] == tasks;
    assert Schedule(n)[base..][a] == Schedule(n)[base + a];
  }

  lemma StartedTask(n: nat, a: nat)
    requires a < |StageList(n, Started)|
    ensures |StageTasks(n, Started)| == |StageList(n, Started)|
    ensures StageTasks(n, Started)[a] == Call(StageList(n, Started)[a], Started)
  {
    hide StageList;
  }

  /** The managers are closed in the reverse of the order in which they were told of the Started stage. */
  lemma StartedList(n: nat)
    ensures |StageList(n, Started)| == 10 + n
    ensures forall a :: 0 <= a < 10 ==> StageList(n, Started)[a] == CLOSE_ORDER[9 - a]
    ensures forall a :: 10 <= a < 10 + n ==> StageList(n, Started)[a] == Internal(a - 10)
  {
    var order := Before(Started);
    assert forall a :: 0 <= a < 10 ==> order[a] == CLOSE_ORDER[9 - a];
  }

  predicate Manager(n: nat, c: Component) { Call(c, Started) in Schedule(n) && !c.Internal? }

  lemma ManagerAt(n: nat, c: Component) returns (a: nat)
    requires Manager(n, c)
    ensures a < 10 && CLOSE_ORDER[9 - a] == c
  {
    hide StageList, Schedule, CLOSE_ORDER, Before, Behind;
    EachStageOnce(n);
    StageListOk(n, Started);
    StartedList(n);
    assert c in StageList(n, Started);
    a :| 0 <= a < |StageList(n, Started)| && StageList(n, Started)[a] == c;
  }

  /** Of any two managers, the one that was started first is closed last. */
  lemma ClosesInReverse(n: nat, debug: bool, c: Component, d: Component)
    requires Manager(n, c) && Manager(n, d)
    ensures Precedes(Schedule(n), Call(c, Started), Call(d, Started)) <==> Precedes(CloseOrder(n, debug), d, c)
  {
    hide *;
    var a := ManagerAt(n, c);
    var b := ManagerAt(n, d);
    EachStageOnce(n);
    ClosesEachOnce(n, debug);
    var base := StartedAt(n, a);
    var base' := StartedAt(n, b);
    StartedList(n);
    var off := if debug then 1 else 0;
    CloseAt(n, debug);
    if a == b {
      NotBefore(Schedule(n), Call(c, Started));
      NotBefore(CloseOrder(n, debug), c);
    } else {
      PrecedesAt(Schedule(n), base + a, base + b);
      PrecedesAt(CloseOrder(n, debug), off + (9 - b), off + (9 - a));
    }
  }

  lemma NotBefore<T>(s: seq<T>, x: T)
    requires Distinct(s)
    ensures !Precedes(s, x, x)
  {
  }

  /** What is closed when, by position. */
  lemma CloseAt(n: nat, debug: bool)
    ensures var off, order := if debug then 1 else 0, CloseOrder(n, debug);
            && |order| == off + 12 + n
            && (forall k :: 0 <= k < 10 ==> order[off + k] == CLOSE_ORDER[k])
            && order[off + 10] == HttpClient
            && (forall k :: 0 <= k < n ==> order[off + 11 + k] == Internal(k))
            && order[off + 11 + n] == Logger
  {
  }

  /**
    The debug server is closed first and the logger last; in between come the managers, then
    the HTTP client, then the internal services.
   */
  lemma ClosesLayers(n: nat, debug: bool, c: Component)
    requires Manager(n, c)
    ensures var order := CloseOrder(n, debug);
            && order[|order| - 1] == Logger && (debug ==> order[0] == DebugServer)
            && Precedes(order, c, HttpClient)
            && forall i :: 0 <= i < n ==> Precedes(order, HttpClient, Internal(i))
  {
    var order, off := CloseOrder(n, debug), if debug then 1 else 0;
    var a := ManagerAt(n, c);
    ClosesEachOnce(n, debug);
    CloseAt(n, debug);
    assert debug ==> order[0] == DebugServer;
    hide *;
    PrecedesAt(order, off + (9 - a), off + 10);
    forall i | 0 <= i < n
      ensures Precedes(order, HttpClient, Internal(i))
    {
      PrecedesAt(order, off + 10, off + 11 + i);
    }
  }

  /** The internal services are closed in the order in which they were started, the order of the list. */
  lemma InternalsInOrder(n: nat, debug: bool, i: nat, j: nat)
    requires i < n && j < n && i != j
    ensures Precedes(CloseOrder(n, debug), Internal(i), Internal(j)) <==> i < j
    ensures Precedes(Schedule(n), Call(Internal(i), Started), Call(Internal(j), Started)) <==> i < j
  {
    hide *;
    var off := if debug then 1 else 0;
    EachStageOnce(n);
    ClosesEachOnce(n, debug);
    CloseAt(n, debug);
    StartedList(n);
    var base := StartedAt(n, 10 + i);
    var base' := StartedAt(n, 10 + j);
    PrecedesAt(CloseOrder(n, debug), off + 11 + i, off + 11 + j);
    PrecedesAt(Schedule(n), base + (10 + i), base + (10 + j));
  }

  /**
    A start that is retried after a failed one is never closed: whatever the second start
    has started by the time it ends, neither its failure nor a later Close closes any of it.
   */
  method RetriedStartIsNeverClosed(n: nat, env: Env)
    returns (first: bool, after: seq<Event>, final: seq<Event>, ghost j: nat, ghost k: nat)
    ensures first == RunTasks(env, Schedule(n), []).1
    ensures j <= |Schedule(n)| && k <= |Schedule(n)| && (first ==> j == |Schedule(n)| && final == after)
    ensures after == Dids(Schedule(n)[..j]) + if first then [] else Closes(CloseOrder(n, DebugUp(env, 0, false)))
    ensures !first ==> final == after + Dids(Schedule(n)[..k])
    ensures !first && RunTasks(env, Schedule(n), after).1 ==> k == |Schedule(n)|
  {
    hide *;
    var box := new Box(n, env);
    ghost var debugUp;
    first, j, debugUp := box.StartBox();
    after := box.trace;
    final := after;
    k := 0;
    if !first {
      var second, l, up := box.StartBox();
      k := l;
      var r := box.Close();
      final := box.trace;
    }
  }
}
