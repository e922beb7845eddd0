/**
  The GL work queue: `enqueue` runs on the caller's goroutine, `DoWork` on the
  worker's. They share a work channel of capacity 3, a wake-up channel of capacity 1
  and an unbuffered return channel. Two workers are modelled as step relations over the
  same channels: the one of work_windows.go, which runs one call at a time, and the one
  of work.go, which gathers up to three calls and hands them to C in one batch.
 */
module GlQueue {
  import opened Common

  const WORKBUF_LEN := 3

  /** One GL function with its arguments: the fnargs struct and the pointer argument. */
  datatype Fn = Fn(args: int, parg: int)

  datatype Call = Call(fn: Fn, blocking: bool)

  /** The value a GL function returns may depend on everything executed so far. */
  type Device = seq<Fn> -> int

  function Fns(calls: seq<Call>): (fs: seq<Fn>)
    ensures |fs| == |calls|
    ensures forall k :: 0 <= k < |calls| ==> fs[k] == calls[k].fn
  {
    seq(|calls|, k requires 0 <= k < |calls| => calls[k].fn)
  }

  lemma FnsAppend(a: seq<Call>, b: seq<Call>)
    ensures Fns(a + b) == Fns(a) + Fns(b)
  {
  }

  // ---------- One batch ----------

  /** The C function `process`: run count entries, return the last one's value. */
  method ProcessC(cargs: array<int>, parg: array<int>, count: nat, device: Device, log: seq<Fn>)
    returns (log': seq<Fn>, ret: int)
    requires cargs.Length == parg.Length == WORKBUF_LEN && 1 <= count <= WORKBUF_LEN
    ensures |log'| == |log| + count && log' == log + log'[|log|..]
    ensures forall k :: 0 <= k < count ==> log'[|log| + k] == Fn(cargs[k], parg[k])
    ensures ret == device(log')
  {
    log' := log + [Fn(cargs[0], parg[0])];
    ret := device(log');
    if count > 1 {
      log' := log' + [Fn(cargs[1], parg[1])];
      ret := device(log');
    }
    if count > 2 {
      log' := log' + [Fn(cargs[2], parg[2])];
      ret := device(log');
    }
  }

  /**
    The end of one DoWork iteration: copy the queue into the argument arrays, which may
    hold entries of an earlier batch, and process it. Exactly the queued calls run, in
    order, and the value returned is the last call's.
   */
  method ProcessBatch(queue: seq<Call>, cargs: array<int>, parg: array<int>, device: Device, log: seq<Fn>)
    returns (log': seq<Fn>, ret: int)
    requires cargs.Length == parg.Length == WORKBUF_LEN && 1 <= |queue| <= WORKBUF_LEN && cargs != parg
    modifies cargs, parg
    ensures log' == log + Fns(queue)
    ensures ret == device(log + Fns(queue))
  {
    for i := 0 to |queue|
      invariant forall k :: 0 <= k < i ==> cargs[k] == queue[k].fn.args && parg[k] == queue[k].fn.parg
    {
      cargs[i] := queue[i].fn.args;
      parg[i] := queue[i].fn.parg;
    }
    log', ret := ProcessC(cargs, parg, |queue|, device, log);
    assert log' == log + Fns(queue);
  }

  // ---------- State ----------

  datatype CallerPc =
    | Send      // at `ctx.work <- c`
    | Notify    // at the non-blocking send on workAvailable
    | Await     // at `<-ctx.retvalue`

  /** Idle waits for workAvailable; Reply is blocked in `ctx.retvalue <- ret`. */
  datatype WorkerPc = Idle | Top | Gather | Ready | Reply(ret: int)

  /**
    `next` is the call the caller is making, `results` what its finished calls returned,
    `log` what the device has executed. `queue` is the batch of work.go; the worker of
    work_windows.go keeps it empty.
   */
  datatype State = State(next: nat, caller: CallerPc, results: seq<int>, work: seq<Call>, token: bool,
                         worker: WorkerPc, queue: seq<Call>, log: seq<Fn>)

  const Init := State(0, Send, [], [], false, Idle, [], [])

  datatype Action =
    | Enqueue | Post | Return      // the caller; Return is the rendezvous on retvalue
    | WakeUp | Take | Empty | Run  // the worker

  /** `blocking` in DoWork: whether the last gathered call is. */
  predicate Blocking(queue: seq<Call>) {
    queue != [] && queue[|queue| - 1].blocking
  }

  // ---------- Steps ----------

  function CallerStep(calls: seq<Call>, s: State, a: Action): Option<State> {
    match a
    case Enqueue =>
      if s.caller.Send? && s.next < |calls| && |s.work| < WORKBUF_LEN
      then Some(s.(work := s.work + [calls[s.next]], caller := Notify)) else None
    case Post =>
      if s.caller.Notify? && s.next < |calls|
      then Some(if calls[s.next].blocking then s.(token := true, caller := Await)
                else s.(token := true, caller := Send, next := s.next + 1, results := s.results + [0]))
      else None
    case Return =>
      if s.caller.Await? && s.worker.Reply?
      then Some(s.(caller := Send, next := s.next + 1, results := s.results + [s.worker.ret], worker := Top))
      else None
    case _ => None
  }

  function WakeStep(s: State): Option<State> {
    if s.worker.Idle? && s.token then Some(s.(token := false, worker := Top)) else None
  }

  /** The one-at-a-time worker of work_windows.go. */
  function SingleStep(calls: seq<Call>, device: Device, s: State, a: Action): Option<State> {
    match a
    case WakeUp => WakeStep(s)
    case Take =>
      if s.worker.Top? && s.work != [] then
        var w := s.work[0];
        var log := s.log + [w.fn];
        Some(s.(work := s.work[1..], log := log,
                worker := if w.blocking then Reply(device(log)) else Top))
      else None
    case Empty => if s.worker.Top? && s.work == [] then Some(s.(worker := Idle)) else None
    case Run => None
    case _ => CallerStep(calls, s, a)
  }

  /** The batching worker of work.go. */
  function BatchStep(calls: seq<Call>, device: Device, s: State, a: Action): Option<State> {
    match a
    case WakeUp => WakeStep(s)
    case Take =>
      if s.work != []
         && (s.worker.Top? || (s.worker.Gather? && |s.queue| < WORKBUF_LEN && !Blocking(s.queue)))
      then Some(s.(work := s.work[1..], queue := s.queue + [s.work[0]], worker := Gather))
      else None
    case Empty =>
      if s.work != [] then None
      else if s.worker.Top? then Some(s.(worker := Idle))
      else if s.worker.Gather? && |s.queue| < WORKBUF_LEN && !Blocking(s.queue) then Some(s.(worker := Ready))
      else None
    case Run =>
      if s.worker.Ready? || (s.worker.Gather? && (|s.queue| >= WORKBUF_LEN || Blocking(s.queue))) then
        var log := s.log + Fns(s.queue);
        Some(s.(log := log, queue := [],
                worker := if Blocking(s.queue) then Reply(device(log)) else Top))
      else None
    case _ => CallerStep(calls, s, a)
  }

  function Step(batched: bool, calls: seq<Call>, device: Device, s: State, a: Action): Option<State> {
    if batched then BatchStep(calls, device, s, a) else SingleStep(calls, device, s, a)
  }

  function Exec(batched: bool, calls: seq<Call>, device: Device, s: State, acts: seq<Action>): Option<State>
    decreases |acts|
  {
    if acts == [] then Some(s)
    else match Step(batched, calls, device, s, acts[0])
         case None => None
         case Some(t) => Exec(batched, calls, device, t, acts[1..])
  }

  // ---------- Gathering a batch ----------

  /** A batch takes what waits, up to its capacity and up to the first blocking call. */
  lemma {:induction false} Gathers(calls: seq<Call>, device: Device, s: State, k: nat)
    requires 1 <= k <= 3 && k <= |s.work| && s.worker.Top? && s.queue == []
    requires forall i :: 0 <= i < k - 1 ==> !s.work[i].blocking
    ensures Exec(true, calls, device, s, seq(k, _ => Take))
            == Some(s.(work := s.work[k..], queue := s.work[..k], worker := Gather))
  {
    var takes := seq(k, _ => Take);
    var s1 := s.(work := s.work[1..], queue := s.work[..1], worker := Gather);
    assert [] + [s.work[0]] == s.work[..1];
    assert BatchStep(calls, device, s, Take) == Some(s1);
    GathersMore(calls, device, s, s1, 1, k);
    assert takes[1..] == seq(k - 1, _ => Take);
  }

  lemma {:induction false} GathersMore(calls: seq<Call>, device: Device, s: State, t: State, j: nat, k: nat)
    requires 1 <= j <= k <= 3 && k <= |s.work|
    requires forall i :: 0 <= i < k - 1 ==> !s.work[i].blocking
    requires t == s.(work := s.work[j..], queue := s.work[..j], worker := Gather)
    ensures Exec(true, calls, device, t, seq(k - j, _ => Take))
            == Some(s.(work := s.work[k..], queue := s.work[..k], worker := Gather))
    decreases k - j
  {
    if j < k {
      var t' := s.(work := s.work[j + 1..], queue := s.work[..j + 1], worker := Gather);
      assert s.work[j..][1..] == s.work[j + 1..] && s.work[..j] + [s.work[j..][0]] == s.work[..j + 1];
      assert BatchStep(calls, device, t, Take) == Some(t');
      assert seq(k - j, _ => Take)[1..] == seq(k - (j + 1), _ => Take);
      GathersMore(calls, device, s, t', j + 1, k);
    }
  }

  // ---------- The batching worker refines the one-at-a-time worker ----------

  /** The one-at-a-time state that a batching state stands for: gathered calls count as executed. */
  function Abs(device: Device, s: State): State {
    var log := s.log + Fns(s.queue);
    s.(queue := [], log := log,
       worker := if s.worker.Gather? || s.worker.Ready? then
                   (if Blocking(s.queue) then Reply(device(log)) else Top)
                 else s.worker)
  }

  predicate QueueOk(s: State) {
    && |s.queue| <= WORKBUF_LEN
    && (s.queue != [] <==> s.worker.Gather? || s.worker.Ready?)
    && forall k :: 0 <= k < |s.queue| - 1 ==> !s.queue[k].blocking
  }

  /** Gathering, giving up gathering and running the batch are invisible steps. */
  predicate Invisible(s: State, a: Action) {
    a.Run? || (a.Empty? && s.worker.Gather?)
  }

  lemma StepRefines(calls: seq<Call>, device: Device, s: State, a: Action)
    requires QueueOk(s) && BatchStep(calls, device, s, a).Some?
    ensures var t := BatchStep(calls, device, s, a).value;
            && QueueOk(t)
            && (Invisible(s, a) ==> Abs(device, t) == Abs(device, s))
            && (!Invisible(s, a) ==> SingleStep(calls, device, Abs(device, s), a) == Some(Abs(device, t)))
  {
    var t := BatchStep(calls, device, s, a).value;
    match a
    case Take =>
      assert Fns(s.queue + [s.work[0]]) == Fns(s.queue) + [s.work[0].fn];
      assert s.log + Fns(t.queue) == s.log + Fns(s.queue) + [s.work[0].fn];
    case Run =>
      assert t.log + Fns([]) == t.log;
    case _ =>
      assert Fns([]) == [];
  }

  /** The visible part of a batching run. */
  function Visible(calls: seq<Call>, device: Device, s: State, acts: seq<Action>): seq<Action>
    requires Exec(true, calls, device, s, acts).Some?
    decreases |acts|
  {
    if acts == [] then []
    else
      var rest := Visible(calls, device, BatchStep(calls, device, s, acts[0]).value, acts[1..]);
      if Invisible(s, acts[0]) then rest else [acts[0]] + rest
  }

  lemma {:induction false} ExecRefines(calls: seq<Call>, device: Device, s: State, acts: seq<Action>)
    requires QueueOk(s) && Exec(true, calls, device, s, acts).Some?
    ensures QueueOk(Exec(true, calls, device, s, acts).value)
    ensures Exec(false, calls, device, Abs(device, s), Visible(calls, device, s, acts))
            == Some(Abs(device, Exec(true, calls, device, s, acts).value))
    decreases |acts|
  {
    if acts != [] {
      StepRefines(calls, device, s, acts[0]);
      var t := BatchStep(calls, device, s, acts[0]).value;
      ExecRefines(calls, device, t, acts[1..]);
      if !Invisible(s, acts[0]) {
        var rest := Visible(calls, device, t, acts[1..]);
        assert ([acts[0]] + rest)[1..] == rest;
      }
    }
  }

  /**
    Every run of the batching worker is a run of the one-at-a-time worker: same calls
    made, same results, same channels, and the same device log between batches.
   */
  lemma {:induction false} BatchedRefinesSingle(calls: seq<Call>, device: Device, acts: seq<Action>)
    requires Exec(true, calls, device, Init, acts).Some?
    ensures var s := Exec(true, calls, device, Init, acts).value;
            exists acts' ::
              && Exec(false, calls, device, Init, acts').Some?
              && var t := Exec(false, calls, device, Init, acts').value;
                 && t.next == s.next && t.caller == s.caller && t.results == s.results
                 && t.work == s.work && t.token == s.token
                 && t.log == s.log + Fns(s.queue)
                 && (s.queue == [] ==> t == s)
  {
    assert Abs(device, Init) == Init;
    ExecRefines(calls, device, Init, acts);
    var s := Exec(true, calls, device, Init, acts).value;
    assert Exec(false, calls, device, Init, Visible(calls, device, Init, acts)) == Some(Abs(device, s));
    if s.queue == [] {
      assert s.log + Fns([]) == s.log;
    }
  }

  // ---------- What both workers guarantee ----------

  /** What each call must return: its own value if it blocks, otherwise 0. */
  function Expected(calls: seq<Call>, device: Device): seq<int> {
    seq(|calls|, k requires 0 <= k < |calls| => if calls[k].blocking then device(Fns(calls[..k + 1])) else 0)
  }

  /** How many calls have been put on the work channel. */
  function Sent(s: State): nat {
    if s.caller.Send? then s.next else s.next + 1
  }

  /** Invariant of the one-at-a-time worker. */
  predicate Inv(calls: seq<Call>, device: Device, s: State) {
    && s.queue == [] && !s.worker.Gather? && !s.worker.Ready?
    && |s.work| <= WORKBUF_LEN
    && Sent(s) <= |calls|
    && |s.log| <= Sent(s)
    && s.log == Fns(calls[..|s.log|])
    && s.work == calls[|s.log|..Sent(s)]
    && s.results == Expected(calls[..s.next], device)
    && (forall k :: |s.log| <= k < s.next ==> !calls[k].blocking)
    && (s.caller.Await? ==> calls[s.next].blocking)
    && (s.worker.Reply? <==> !s.caller.Send? && calls[s.next].blocking && |s.log| == Sent(s))
    && (s.worker.Reply? ==> s.worker.ret == device(s.log))
    && (s.worker.Idle? && s.work != [] ==> s.token || s.caller.Notify?)
  }

  lemma ExpectedAppend(calls: seq<Call>, device: Device, k: nat)
    requires k < |calls|
    ensures Expected(calls[..k + 1], device)
            == Expected(calls[..k], device) + [if calls[k].blocking then device(Fns(calls[..k + 1])) else 0]
  {
    var e := Expected(calls[..k + 1], device);
    forall j | 0 <= j < k
      ensures e[j] == Expected(calls[..k], device)[j]
    {
      assert calls[..k + 1][..j + 1] == calls[..k][..j + 1];
    }
    assert calls[..k + 1][..k + 1] == calls[..k + 1];
  }

  lemma InvTake(calls: seq<Call>, device: Device, s: State)
    requires Inv(calls, device, s) && SingleStep(calls, device, s, Take).Some?
    ensures Inv(calls, device, SingleStep(calls, device, s, Take).value)
  {
    var t := SingleStep(calls, device, s, Take).value;
    assert calls[..|s.log| + 1] == calls[..|s.log|] + [s.work[0]];
    assert t.log == Fns(calls[..|t.log|]);
    assert s.work[0] == calls[|s.log|];
  }

  lemma InvStep(calls: seq<Call>, device: Device, s: State, a: Action)
    requires Inv(calls, device, s) && SingleStep(calls, device, s, a).Some?
    ensures Inv(calls, device, SingleStep(calls, device, s, a).value)
  {
    match a
    case Take => InvTake(calls, device, s);
    case Enqueue =>
      assert calls[|s.log|..s.next + 1] == calls[|s.log|..s.next] + [calls[s.next]];
    case Post => ExpectedAppend(calls, device, s.next);
    case Return => ExpectedAppend(calls, device, s.next);
    case _ =>
  }

  lemma {:induction false} InvExec(calls: seq<Call>, device: Device, s: State, acts: seq<Action>)
    requires Inv(calls, device, s) && Exec(false, calls, device, s, acts).Some?
    ensures Inv(calls, device, Exec(false, calls, device, s, acts).value)
    decreases |acts|
  {
    if acts != [] {
      InvStep(calls, device, s, acts[0]);
      InvExec(calls, device, SingleStep(calls, device, s, acts[0]).value, acts[1..]);
    }
  }

  lemma InitInv(calls: seq<Call>, device: Device)
    ensures Inv(calls, device, Init)
  {
    assert Fns(calls[..0]) == [];
  }

  /** The invariant of a batching run, through the state it stands for. */
  lemma {:induction false} BatchedInv(calls: seq<Call>, device: Device, acts: seq<Action>)
    requires Exec(true, calls, device, Init, acts).Some?
    ensures QueueOk(Exec(true, calls, device, Init, acts).value)
    ensures Inv(calls, device, Abs(device, Exec(true, calls, device, Init, acts).value))
  {
    assert Abs(device, Init) == Init;
    ExecRefines(calls, device, Init, acts);
    InitInv(calls, device);
    InvExec(calls, device, Init, Visible(calls, device, Init, acts));
  }

  /**
    Calls execute exactly once, in the order they were enqueued, and every finished call
    got its own value, whatever it was batched with.
   */
  lemma {:induction false} ExactlyOnceInOrder(calls: seq<Call>, device: Device, acts: seq<Action>)
    requires Exec(true, calls, device, Init, acts).Some?
    ensures var s := Exec(true, calls, device, Init, acts).value;
            && s.next <= |calls|
            && s.results == Expected(calls[..s.next], device)
            && |s.log| <= |calls| && s.log == Fns(calls[..|s.log|])
            && Sent(s) <= |calls|
            && s.log + Fns(s.queue) + Fns(s.work) == Fns(calls[..Sent(s)])
  {
    BatchedInv(calls, device, acts);
    var s := Exec(true, calls, device, Init, acts).value;
    var n := |s.log + Fns(s.queue)|;
    assert s.log + Fns(s.queue) == Fns(calls[..n]);
    assert s.log == Fns(calls[..|s.log|]) by {
      assert s.log == (s.log + Fns(s.queue))[..|s.log|];
      assert Fns(calls[..n])[..|s.log|] == Fns(calls[..|s.log|]);
    }
    FnsAppend(calls[..n], s.work);
    assert calls[..n] + s.work == calls[..Sent(s)];
  }

  /** No lost wake-up: queued work with an idle worker has a token, present or about to be posted. */
  lemma {:induction false} NoLostWakeUp(calls: seq<Call>, device: Device, acts: seq<Action>)
    requires Exec(true, calls, device, Init, acts).Some?
    ensures var s := Exec(true, calls, device, Init, acts).value;
            s.worker.Idle? && s.work != [] ==> s.token || s.caller.Notify?
  {
    BatchedInv(calls, device, acts);
  }

  // ---------- Every run ends, with everything executed ----------

  function Rank(calls: seq<Call>, s: State): int {
    12 * (|calls| - s.next) - (match s.caller case Send => 0 case Notify => 6 case Await => 10)
    + 5 * |s.work|
    + (if s.token then 3 else 0)
    + (match s.worker case Idle => 0 case Top => 2 case Gather => 6 case Ready => 5 case Reply(_) => 3)
  }

  lemma RankDecreases(calls: seq<Call>, device: Device, s: State, a: Action)
    requires BatchStep(calls, device, s, a).Some?
    ensures Rank(calls, BatchStep(calls, device, s, a).value) < Rank(calls, s)
  {
    match a
    case Enqueue =>
    case Post =>
    case Return =>
    case WakeUp =>
    case Take =>
    case Empty =>
    case Run =>
  }

  lemma {:induction false} ExecRank(calls: seq<Call>, device: Device, s: State, acts: seq<Action>)
    requires Exec(true, calls, device, s, acts).Some?
    ensures Rank(calls, Exec(true, calls, device, s, acts).value) <= Rank(calls, s) - |acts|
    decreases |acts|
  {
    if acts != [] {
      RankDecreases(calls, device, s, acts[0]);
      ExecRank(calls, device, BatchStep(calls, device, s, acts[0]).value, acts[1..]);
    }
  }

  /** Whatever the interleaving, a caller making m calls and its worker take at most 12m steps. */
  lemma {:induction false} RunsAreFinite(calls: seq<Call>, device: Device, acts: seq<Action>)
    requires Exec(true, calls, device, Init, acts).Some?
    ensures |acts| <= 12 * |calls|
  {
    ExecRank(calls, device, Init, acts);
    BatchedInv(calls, device, acts);
  }

  predicate Done(calls: seq<Call>, s: State) {
    s.next == |calls| && s.caller.Send? && s.work == [] && s.queue == [] && s.worker.Idle?
  }

  /** A caller blocked on the full queue or on its return value can always be unblocked. */
  lemma Progress(calls: seq<Call>, device: Device, s: State) returns (a: Action)
    requires QueueOk(s) && Inv(calls, device, Abs(device, s)) && !Done(calls, s)
    ensures BatchStep(calls, device, s, a).Some?
  {
    if s.caller.Notify? {
      a := Post;
    } else if s.caller.Send? && s.next < |calls| && |s.work| < WORKBUF_LEN {
      a := Enqueue;
    } else {
      match s.worker
      case Idle => a := WakeUp;
      case Top => a := if s.work == [] then Empty else Take;
      case Gather =>
        a := if |s.queue| >= WORKBUF_LEN || Blocking(s.queue) then Run else if s.work == [] then Empty else Take;
      case Ready => a := Run;
      case Reply(_) => a := Return;
    }
  }

  /** A run that cannot go on has executed every call and returned every result. */
  lemma {:induction false} StuckMeansDone(calls: seq<Call>, device: Device, acts: seq<Action>)
    requires Exec(true, calls, device, Init, acts).Some?
    requires forall a: Action :: BatchStep(calls, device, Exec(true, calls, device, Init, acts).value, a).None?
    ensures var s := Exec(true, calls, device, Init, acts).value;
            s.log == Fns(calls) && s.results == Expected(calls, device)
  {
    BatchedInv(calls, device, acts);
    var s := Exec(true, calls, device, Init, acts).value;
    if !Done(calls, s) {
      var a := Progress(calls, device, s);
      assert false;
    }
    assert s.log + Fns([]) == s.log;
    assert calls[..|calls|] == calls;
  }
}
