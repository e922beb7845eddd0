/**
  The Android box instances: any number of goroutines start, close, make main and use any
  number of instances, under one lock per instance, one lock for the main instance, and one
  global protect listener. One action is one atomic step of one goroutine.
 */
module BoxInstance {
  import opened Common

  // ---------- State ----------

  /** `state` 0, 1 and 2. */
  datatype Phase = Fresh | Running | Closed

  /**
    `owner` holds b.access. The rest are history variables: Box.Close has begun, and Box.Start
    has failed and closed the box itself.
   */
  datatype Inst = Inst(phase: Phase, owner: Option<nat>, torn: bool, failed: bool)

  datatype Pc =
    | Rest
    // Start
    | WantStart(b: nat) | InStart(b: nat) | Starting(b: nat) | OutStart(b: nat)
    // Close
    | WantClose(b: nat) | InClose(b: nat) | CloseWantMain(b: nat) | ClearMain(b: nat) | StopListener(b: nat)
    | CloseFreeMain(b: nat) | CloseBox(b: nat) | OutClose(b: nat)
    // SetAsMain
    | WantMain(b: nat) | SetMain(b: nat) | StopOld(b: nat) | Serve(b: nat) | OutMain(b: nat)
    // newProxyHttpClient, and UrlTest on the main instance
    | WantClient(b: nat) | InClient(b: nat) | Building(b: nat) | WantRead | ReadMain | OutRead(got: Option<nat>)

  datatype Op = Start(b: nat) | Close(b: nat) | SetAsMain(b: nat) | Client(b: nat) | TestMain

  /** `closer` is protectCloser != nil; `open` counts the listeners that are open. */
  datatype State = State(insts: seq<Inst>, threads: seq<Pc>, mainLock: Option<nat>, main: Option<nat>,
                         closer: bool, open: nat)

  function Init(instances: nat, threads: nat): State {
    State(seq(instances, _ => Inst(Fresh, None, false, false)), seq(threads, _ => Rest), None, None, false, 0)
  }

  /**
    What a call inside the step does. Box.Start closes the box when it fails; if that close panics it
    recovers and returns nil, which is FailsQuietly. A panic before that leaves the box open.
   */
  datatype Choice = Succeeds | Fails | FailsQuietly | Panics

  datatype Action = Begin(t: nat, op: Op) | Step(t: nat, choice: Choice)

  // ---------- Steps ----------

  function Entry(op: Op): Pc {
    match op
    case Start(b) => WantStart(b)
    case Close(b) => WantClose(b)
    case SetAsMain(b) => WantMain(b)
    case Client(b) => WantClient(b)
    case TestMain => WantRead
  }

  function PcInst(pc: Pc): Option<nat> {
    match pc
    case Rest => None
    case WantRead => None
    case ReadMain => None
    case OutRead(got) => got
    case _ => Some(pc.b)
  }

  function At(s: State, t: nat, pc: Pc): State
    requires t < |s.threads|
  {
    s.(threads := s.threads[t := pc])
  }

  function Put(s: State, b: nat, i: Inst): State
    requires b < |s.insts|
  {
    s.(insts := s.insts[b := i])
  }

  function Acquire(s: State, t: nat, b: nat, pc: Pc): Option<State>
    requires t < |s.threads| && b < |s.insts|
  {
    if s.insts[b].owner.None? then Some(At(Put(s, b, s.insts[b].(owner := Some(t))), t, pc)) else None
  }

  function Release(s: State, t: nat, b: nat): State
    requires t < |s.threads| && b < |s.insts|
  {
    At(Put(s, b, s.insts[b].(owner := None)), t, Rest)
  }

  function AcquireMain(s: State, t: nat, pc: Pc): Option<State>
    requires t < |s.threads|
  {
    if s.mainLock.None? then Some(At(s, t, pc).(mainLock := Some(t))) else None
  }

  function ReleaseMain(s: State, t: nat, pc: Pc): State
    requires t < |s.threads|
  {
    At(s, t, pc).(mainLock := None)
  }

  /** protectCloser.Close() if there is one. */
  function StopServing(s: State): State {
    if s.closer then s.(closer := false, open := if s.open > 0 then s.open - 1 else 0) else s
  }

  /** Steps that take or give back a lock. */
  function LockStep(s: State, t: nat): Option<State>
    requires t < |s.threads| && (PcInst(s.threads[t]).Some? ==> PcInst(s.threads[t]).value < |s.insts|)
  {
    match s.threads[t]
    case WantStart(b) => Acquire(s, t, b, InStart(b))
    case OutStart(b) => Some(Release(s, t, b))
    case WantClose(b) => Acquire(s, t, b, InClose(b))
    case CloseWantMain(b) => AcquireMain(s, t, ClearMain(b))
    case CloseFreeMain(b) => Some(ReleaseMain(s, t, CloseBox(b)))
    case OutClose(b) => Some(Release(s, t, b))
    case WantMain(b) => AcquireMain(s, t, SetMain(b))
    case OutMain(b) => Some(ReleaseMain(s, t, Rest))
    case WantClient(b) => Acquire(s, t, b, InClient(b))
    case WantRead => AcquireMain(s, t, ReadMain)
    case OutRead(got) => Some(ReleaseMain(s, t, if got.Some? then WantClient(got.value) else Rest))
    case _ => None
  }

  predicate StartFails(choice: Choice) { choice.Fails? || choice.FailsQuietly? }

  /** The instance after Box.Start: an error or a panic rolls back so that Start can be retried. */
  function AfterStart(i: Inst, choice: Choice): Inst {
    var j := if StartFails(choice) then i.(torn := true, failed := true) else i;
    if choice.Fails? || (choice.Panics? && i.phase.Running?) then j.(phase := Fresh) else j
  }

  /** Steps under a lock. */
  function WorkStep(s: State, t: nat, choice: Choice): Option<State>
    requires t < |s.threads| && (PcInst(s.threads[t]).Some? ==> PcInst(s.threads[t]).value < |s.insts|)
  {
    match s.threads[t]
    case InStart(b) =>
      Some(if s.insts[b].phase.Fresh? then At(Put(s, b, s.insts[b].(phase := Running)), t, Starting(b))
           else At(s, t, OutStart(b)))
    case Starting(b) => Some(At(Put(s, b, AfterStart(s.insts[b], choice)), t, OutStart(b)))
    case InClose(b) =>
      Some(if s.insts[b].phase.Closed? then At(s, t, OutClose(b))
           else At(Put(s, b, s.insts[b].(phase := Closed)), t, CloseWantMain(b)))
    case ClearMain(b) =>
      Some(if s.main == Some(b) then At(s, t, StopListener(b)).(main := None) else At(s, t, CloseFreeMain(b)))
    case StopListener(b) => Some(At(StopServing(s), t, CloseFreeMain(b)))
    case CloseBox(b) => Some(At(Put(s, b, s.insts[b].(torn := true)), t, OutClose(b)))
    case SetMain(b) => Some(At(s, t, StopOld(b)).(main := Some(b)))
    case StopOld(b) => Some(At(StopServing(s), t, Serve(b)))
    case Serve(b) =>
      Some(if choice.Succeeds? then At(s, t, OutMain(b)).(closer := true, open := s.open + 1) else At(s, t, OutMain(b)))
    case InClient(b) => Some(if s.insts[b].phase.Closed? then Release(s, t, b) else At(s, t, Building(b)))
    case Building(b) => Some(Release(s, t, b))
    case ReadMain => Some(At(s, t, OutRead(s.main)))
    case _ => None
  }

  function Do(s: State, a: Action): Option<State> {
    if a.t >= |s.threads| then None
    else if a.Begin? then
      (if s.threads[a.t].Rest? && (PcInst(Entry(a.op)).Some? ==> PcInst(Entry(a.op)).value < |s.insts|)
       then Some(At(s, a.t, Entry(a.op))) else None)
    else if PcInst(s.threads[a.t]).Some? && PcInst(s.threads[a.t]).value >= |s.insts| then None
    else if LockStep(s, a.t).Some? then LockStep(s, a.t)
    else WorkStep(s, a.t, a.choice)
  }

  function Exec(s: State, acts: seq<Action>): Option<State>
    decreases |acts|
  {
    if acts == [] then Some(s)
    else match Do(s, acts[0])
         case None => None
         case Some(t) => Exec(t, acts[1..])
  }

  // ---------- The invariant ----------

  function HoldsAccess(pc: Pc): Option<nat> {
    if pc.InStart? || pc.Starting? || pc.OutStart? || pc.InClose? || pc.CloseWantMain? || pc.ClearMain?
       || pc.StopListener? || pc.CloseFreeMain? || pc.CloseBox? || pc.OutClose? || pc.InClient?
       || pc.Building?
    then Some(pc.b) else None
  }

  predicate HoldsMain(pc: Pc) {
    || pc.ClearMain? || pc.StopListener? || pc.CloseFreeMain? || pc.SetMain? || pc.StopOld? || pc.Serve?
    || pc.OutMain? || pc.ReadMain? || pc.OutRead?
  }

  /** The closing goroutine has marked its instance closed. */
  predicate Marked(pc: Pc) {
    pc.CloseWantMain? || pc.ClearMain? || pc.StopListener? || pc.CloseFreeMain? || pc.CloseBox?
  }

  /** What holds of goroutine t at `pc`. */
  predicate ThreadOk(s: State, t: nat, pc: Pc) {
    && (PcInst(pc).Some? ==> PcInst(pc).value < |s.insts|)
    && (HoldsMain(pc) <==> s.mainLock == Some(t))
    && (forall b :: 0 <= b < |s.insts| ==> (HoldsAccess(pc) == Some(b) <==> s.insts[b].owner == Some(t)))
    && (pc.Starting? ==> s.insts[pc.b].phase.Running?)
    && (pc.Building? ==> !s.insts[pc.b].phase.Closed?)
    && (Marked(pc) ==> s.insts[pc.b].phase.Closed?)
    && (pc.StopListener? ==> s.main.None?)
    && (pc.StopOld? || pc.Serve? || pc.OutMain? ==> s.main == Some(pc.b))
    && (pc.Serve? ==> !s.closer)
  }

  /** What holds of an instance: a torn-down box is closed, or its start has failed. */
  predicate InstOk(s: State, i: Inst) {
    && (i.owner.Some? ==> i.owner.value < |s.threads|)
    && (i.torn ==> i.phase.Closed? || i.failed)
    && (i.failed ==> i.torn)
  }

  predicate SharedOk(s: State) {
    && (s.main.Some? ==> s.main.value < |s.insts|)
    && (s.mainLock.Some? ==> s.mainLock.value < |s.threads|)
    && s.open == (if s.closer then 1 else 0)
    && (s.closer && s.main.None? ==> s.mainLock.Some? && s.threads[s.mainLock.value].StopListener?)
  }

  ghost predicate Inv(s: State) {
    && SharedOk(s)
    && (forall t :: 0 <= t < |s.threads| ==> ThreadOk(s, t, s.threads[t]))
    && (forall b :: 0 <= b < |s.insts| ==> InstOk(s, s.insts[b]))
  }

  /** From s to s' only goroutine t and instance b changed, besides the shared variables. */
  predicate Apart(s: State, s': State, t: nat, b: nat) {
    && |s'.threads| == |s.threads| && |s'.insts| == |s.insts|
    && (forall u :: 0 <= u < |s.threads| && u != t ==> s'.threads[u] == s.threads[u])
    && (forall c :: 0 <= c < |s.insts| && c != b ==> s'.insts[c] == s.insts[c])
  }

  /** A lock is left alone, taken by t while free, or given back by t. */
  predicate LockMoves(was: Option<nat>, now: Option<nat>, t: nat) {
    now == was || (was.None? && now == Some(t)) || (was == Some(t) && now.None?)
  }

  /** What t may change: the main instance and the listener under the main lock, b's phase under its lock. */
  predicate Disciplined(s: State, s': State, t: nat, b: nat) {
    && LockMoves(s.mainLock, s'.mainLock, t)
    && (s.mainLock == Some(t) || (s'.main == s.main && s'.closer == s.closer))
    && (b < |s.insts| && b < |s'.insts| ==>
          && LockMoves(s.insts[b].owner, s'.insts[b].owner, t)
          && (s.insts[b].owner == Some(t) || s'.insts[b].phase == s.insts[b].phase))
  }

  lemma OtherThread(s: State, s': State, t: nat, b: nat, u: nat)
    requires u < |s.threads| && u != t && ThreadOk(s, u, s.threads[u])
    requires Apart(s, s', t, b) && Disciplined(s, s', t, b)
    ensures ThreadOk(s', u, s'.threads[u])
  {
    forall c | 0 <= c < |s.insts|
      ensures s'.insts[c].owner == Some(u) <==> s.insts[c].owner == Some(u)
    {
      assert c != b ==> s'.insts[c] == s.insts[c];
    }
  }

  /** A disciplined step keeps the invariant if it is right about itself, its instance and what is shared. */
  lemma InvFrame(s: State, s': State, t: nat, b: nat)
    requires Inv(s) && t < |s.threads| && Apart(s, s', t, b) && Disciplined(s, s', t, b)
    requires SharedOk(s') && ThreadOk(s', t, s'.threads[t])
    requires b < |s.insts| ==> InstOk(s', s'.insts[b])
    ensures Inv(s')
  {
    hide SharedOk, Disciplined;
    assert forall c :: 0 <= c < |s.insts| && c != b ==> InstOk(s, s.insts[c]);
    hide InstOk;
    forall u | 0 <= u < |s.threads|
      ensures ThreadOk(s', u, s'.threads[u])
    {
      if u != t {
        OtherThread(s, s', t, b, u);
      }
    }
    forall c | 0 <= c < |s.insts|
      ensures InstOk(s', s'.insts[c])
    {
      if c != b {
        OtherInst(s, s', s.insts[c]);
      }
    }
  }

  lemma OtherInst(s: State, s': State, i: Inst)
    requires InstOk(s, i) && |s'.threads| == |s.threads|
    ensures InstOk(s', i)
  {
  }

  /** The invariant, where t and b are concerned. */
  lemma InvAt(s: State, t: nat, b: nat)
    requires Inv(s) && t < |s.threads|
    ensures SharedOk(s) && ThreadOk(s, t, s.threads[t])
    ensures b < |s.insts| ==> InstOk(s, s.insts[b])
  {
  }

  /** What the program points have to do with the locks. */
  lemma PcFacts(pc: Pc)
    ensures pc.StopListener? || pc.StopOld? || pc.Serve? || pc.OutMain? ==> HoldsMain(pc)
    ensures pc.Starting? || pc.Building? || Marked(pc) ==> HoldsAccess(pc) == Some(pc.b) == PcInst(pc)
    ensures HoldsAccess(pc).Some? ==> HoldsAccess(pc) == PcInst(pc)
  {
  }

  lemma EntryFacts(op: Op)
    ensures HoldsAccess(Entry(op)).None? && !HoldsMain(Entry(op))
  {
  }

  lemma InvBegin(s: State, t: nat, op: Op)
    requires Inv(s) && Do(s, Begin(t, op)).Some?
    ensures Inv(Do(s, Begin(t, op)).value)
  {
    hide Inv, Entry, HoldsAccess, HoldsMain, Marked;
    EntryFacts(op);
    EntryFacts(TestMain);
    PcFacts(Entry(op));
    var b := if op.TestMain? then 0 else op.b;
    InvAt(s, t, b);
    assert HoldsAccess(Rest).None? && !HoldsMain(Rest) by { RestFacts(); }
    InvFrame(s, Do(s, Begin(t, op)).value, t, b);
  }

  lemma RestFacts()
    ensures HoldsAccess(Rest).None? && !HoldsMain(Rest) && !Marked(Rest)
  {
  }

  lemma InvAcquire(s: State, t: nat, b: nat, pc: Pc)
    requires Inv(s) && t < |s.threads| && b < |s.insts| && Acquire(s, t, b, pc).Some?
    requires HoldsAccess(s.threads[t]).None? && !HoldsMain(s.threads[t])
    requires HoldsAccess(pc) == Some(b) && !HoldsMain(pc) && !pc.Starting? && !pc.Building? && !Marked(pc)
    ensures Inv(Acquire(s, t, b, pc).value)
  {
    hide Inv, HoldsAccess, HoldsMain, PcInst, Marked;
    PcFacts(pc);
    InvAt(s, t, b);
    InvFrame(s, Acquire(s, t, b, pc).value, t, b);
  }

  lemma InvRelease(s: State, t: nat, b: nat)
    requires Inv(s) && t < |s.threads| && b < |s.insts|
    requires s.threads[t] in {OutStart(b), OutClose(b), InClient(b), Building(b)}
    ensures Inv(Release(s, t, b))
  {
    hide Inv;
    InvAt(s, t, b);
    InvFrame(s, Release(s, t, b), t, b);
  }

  /** Taking the main lock without holding an instance. */
  lemma InvAcquireMain(s: State, t: nat, pc: Pc)
    requires Inv(s) && t < |s.threads| && AcquireMain(s, t, pc).Some?
    requires PcInst(pc) == PcInst(s.threads[t]) && HoldsAccess(s.threads[t]).None? && HoldsAccess(pc).None?
    requires !HoldsMain(s.threads[t]) && HoldsMain(pc)
    requires !pc.StopListener? && !pc.StopOld? && !pc.Serve? && !pc.OutMain?
    ensures Inv(AcquireMain(s, t, pc).value)
  {
    hide Inv, HoldsAccess, HoldsMain, PcInst, Marked;
    PcFacts(pc);
    PcFacts(s.threads[t]);
    InvAt(s, t, |s.insts|);
    InvFrame(s, AcquireMain(s, t, pc).value, t, |s.insts|);
  }

  lemma InvCloseWantMain(s: State, t: nat, b: nat)
    requires Inv(s) && t < |s.threads| && s.threads[t] == CloseWantMain(b) && AcquireMain(s, t, ClearMain(b)).Some?
    ensures Inv(AcquireMain(s, t, ClearMain(b)).value)
  {
    hide Inv;
    InvAt(s, t, b);
    InvFrame(s, AcquireMain(s, t, ClearMain(b)).value, t, b);
  }

  lemma InvCloseFreeMain(s: State, t: nat, b: nat)
    requires Inv(s) && t < |s.threads| && s.threads[t] == CloseFreeMain(b)
    ensures Inv(ReleaseMain(s, t, CloseBox(b)))
  {
    hide Inv;
    InvAt(s, t, b);
    InvFrame(s, ReleaseMain(s, t, CloseBox(b)), t, b);
  }

  lemma InvOutMain(s: State, t: nat)
    requires Inv(s) && t < |s.threads| && s.threads[t].OutMain?
    ensures Inv(ReleaseMain(s, t, Rest))
  {
    hide Inv;
    InvAt(s, t, |s.insts|);
    InvFrame(s, ReleaseMain(s, t, Rest), t, |s.insts|);
  }

  lemma InvOutRead(s: State, t: nat, pc: Pc)
    requires Inv(s) && t < |s.threads| && s.threads[t].OutRead?
    requires pc == if s.threads[t].got.Some? then WantClient(s.threads[t].got.value) else Rest
    ensures Inv(ReleaseMain(s, t, pc))
  {
    hide Inv;
    InvAt(s, t, |s.insts|);
    InvFrame(s, ReleaseMain(s, t, pc), t, |s.insts|);
  }

  lemma InvLock(s: State, t: nat)
    requires Inv(s) && t < |s.threads|
    requires PcInst(s.threads[t]).Some? ==> PcInst(s.threads[t]).value < |s.insts|
    requires LockStep(s, t).Some?
    ensures Inv(LockStep(s, t).value)
  {
    hide Inv, Acquire, Release, AcquireMain, ReleaseMain;
    match s.threads[t]
    case WantStart(b) => InvAcquire(s, t, b, InStart(b));
    case OutStart(b) => InvRelease(s, t, b);
    case WantClose(b) => InvAcquire(s, t, b, InClose(b));
    case CloseWantMain(b) => InvCloseWantMain(s, t, b);
    case CloseFreeMain(b) => InvCloseFreeMain(s, t, b);
    case OutClose(b) => InvRelease(s, t, b);
    case WantMain(b) => InvAcquireMain(s, t, SetMain(b));
    case OutMain(b) => InvOutMain(s, t);
    case WantClient(b) => InvAcquire(s, t, b, InClient(b));
    case WantRead => InvAcquireMain(s, t, ReadMain);
    case OutRead(got) => InvOutRead(s, t, if got.Some? then WantClient(got.value) else Rest);
  }

  /** A step of t that changes only its own place and its own instance, under the instance's lock. */
  lemma InvOwn(s: State, t: nat, b: nat, i: Inst, pc: Pc)
    requires Inv(s) && t < |s.threads| && b < |s.insts|
    requires HoldsAccess(s.threads[t]) == Some(b) && !HoldsMain(s.threads[t])
    requires HoldsAccess(pc) == Some(b) && !HoldsMain(pc)
    requires i.owner == s.insts[b].owner
    requires (i.torn ==> i.phase.Closed? || i.failed) && (i.failed ==> i.torn)
    requires pc.Starting? ==> i.phase.Running?
    requires pc.Building? ==> !i.phase.Closed?
    requires Marked(pc) ==> i.phase.Closed?
    ensures Inv(At(Put(s, b, i), t, pc))
  {
    hide Inv;
    InvAt(s, t, b);
    InvFrame(s, At(Put(s, b, i), t, pc), t, b);
  }

  lemma InvStarting(s: State, t: nat, choice: Choice)
    requires Inv(s) && t < |s.threads| && (s.threads[t].InStart? || s.threads[t].Starting?)
    requires s.threads[t].b < |s.insts|
    ensures Inv(WorkStep(s, t, choice).value)
  {
    hide Inv;
    var b := s.threads[t].b;
    InvAt(s, t, b);
    assert Put(s, b, s.insts[b]) == s;
    if s.threads[t].Starting? {
      InvOwn(s, t, b, AfterStart(s.insts[b], choice), OutStart(b));
    } else if s.insts[b].phase.Fresh? {
      InvOwn(s, t, b, s.insts[b].(phase := Running), Starting(b));
    } else {
      InvOwn(s, t, b, s.insts[b], OutStart(b));
    }
  }

  lemma InvClosing(s: State, t: nat, choice: Choice)
    requires Inv(s) && t < |s.threads| && (s.threads[t].InClose? || s.threads[t].CloseBox?)
    requires s.threads[t].b < |s.insts|
    ensures Inv(WorkStep(s, t, choice).value)
  {
    hide Inv;
    var b := s.threads[t].b;
    InvAt(s, t, b);
    assert Put(s, b, s.insts[b]) == s;
    if s.threads[t].CloseBox? {
      InvOwn(s, t, b, s.insts[b].(torn := true), OutClose(b));
    } else if s.insts[b].phase.Closed? {
      InvOwn(s, t, b, s.insts[b], OutClose(b));
    } else {
      InvOwn(s, t, b, s.insts[b].(phase := Closed), CloseWantMain(b));
    }
  }

  lemma InvClient(s: State, t: nat, choice: Choice)
    requires Inv(s) && t < |s.threads| && (s.threads[t].InClient? || s.threads[t].Building?)
    requires s.threads[t].b < |s.insts|
    ensures Inv(WorkStep(s, t, choice).value)
  {
    hide Inv;
    var b := s.threads[t].b;
    InvAt(s, t, b);
    if s.threads[t].Building? || s.insts[b].phase.Closed? {
      InvRelease(s, t, b);
    } else {
      assert Put(s, b, s.insts[b]) == s;
      InvOwn(s, t, b, s.insts[b], Building(b));
    }
  }

  lemma InvClearing(s: State, t: nat, choice: Choice)
    requires Inv(s) && t < |s.threads| && (s.threads[t].ClearMain? || s.threads[t].StopListener?)
    requires s.threads[t].b < |s.insts|
    ensures Inv(WorkStep(s, t, choice).value)
  {
    hide Inv;
    InvAt(s, t, s.threads[t].b);
    InvFrame(s, WorkStep(s, t, choice).value, t, s.threads[t].b);
  }

  lemma InvSetMain(s: State, t: nat, choice: Choice)
    requires Inv(s) && t < |s.threads| && s.threads[t].SetMain? && s.threads[t].b < |s.insts|
    ensures Inv(WorkStep(s, t, choice).value)
  {
    hide Inv;
    var b := s.threads[t].b;
    var s' := WorkStep(s, t, choice).value;
    InvAt(s, t, b);
    assert SharedOk(s') && ThreadOk(s', t, s'.threads[t]);
    assert InstOk(s', s'.insts[b]);
    hide WorkStep, InstOk, SharedOk, ThreadOk;
    InvFrame(s, s', t, b);
  }

  lemma InvStopOld(s: State, t: nat, choice: Choice)
    requires Inv(s) && t < |s.threads| && s.threads[t].StopOld? && s.threads[t].b < |s.insts|
    ensures Inv(WorkStep(s, t, choice).value)
  {
    hide Inv;
    InvAt(s, t, s.threads[t].b);
    InvFrame(s, WorkStep(s, t, choice).value, t, s.threads[t].b);
  }

  lemma InvServe(s: State, t: nat, choice: Choice)
    requires Inv(s) && t < |s.threads| && s.threads[t].Serve? && s.threads[t].b < |s.insts|
    ensures Inv(WorkStep(s, t, choice).value)
  {
    hide Inv;
    InvAt(s, t, s.threads[t].b);
    InvFrame(s, WorkStep(s, t, choice).value, t, s.threads[t].b);
  }

  lemma InvReading(s: State, t: nat, choice: Choice)
    requires Inv(s) && t < |s.threads| && s.threads[t].ReadMain?
    ensures Inv(WorkStep(s, t, choice).value)
  {
    hide Inv;
    InvAt(s, t, 0);
    InvFrame(s, WorkStep(s, t, choice).value, t, 0);
  }

  predicate Works(pc: Pc) {
    || pc.InStart? || pc.Starting? || pc.InClose? || pc.CloseBox? || pc.ClearMain? || pc.StopListener? || pc.SetMain?
    || pc.StopOld? || pc.Serve? || pc.InClient? || pc.Building? || pc.ReadMain?
  }

  lemma WorkSites(s: State, t: nat, choice: Choice)
    requires t < |s.threads|
    requires PcInst(s.threads[t]).Some? ==> PcInst(s.threads[t]).value < |s.insts|
    ensures WorkStep(s, t, choice).Some? <==> Works(s.threads[t])
  {
  }

  lemma InvWork(s: State, t: nat, choice: Choice)
    requires Inv(s) && t < |s.threads|
    requires PcInst(s.threads[t]).Some? ==> PcInst(s.threads[t]).value < |s.insts|
    requires LockStep(s, t).None? && WorkStep(s, t, choice).Some?
    ensures Inv(WorkStep(s, t, choice).value)
  {
    hide Inv, WorkStep;
    WorkSites(s, t, choice);
    match s.threads[t]
    case InStart(b) => InvStarting(s, t, choice);
    case Starting(b) => InvStarting(s, t, choice);
    case InClose(b) => InvClosing(s, t, choice);
    case CloseBox(b) => InvClosing(s, t, choice);
    case ClearMain(b) => InvClearing(s, t, choice);
    case StopListener(b) => InvClearing(s, t, choice);
    case SetMain(b) => InvSetMain(s, t, choice);
    case StopOld(b) => InvStopOld(s, t, choice);
    case Serve(b) => InvServe(s, t, choice);
    case InClient(b) => InvClient(s, t, choice);
    case Building(b) => InvClient(s, t, choice);
    case ReadMain => InvReading(s, t, choice);
  }

  lemma InvStep(s: State, a: Action)
    requires Inv(s) && Do(s, a).Some?
    ensures Inv(Do(s, a).value)
  {
    hide Inv, LockStep, WorkStep;
    if a.Begin? {
      InvBegin(s, a.t, a.op);
    } else if LockStep(s, a.t).Some? {
      InvLock(s, a.t);
    } else {
      InvWork(s, a.t, a.choice);
    }
  }

  lemma {:induction false} InvExec(s: State, acts: seq<Action>)
    requires Inv(s) && Exec(s, acts).Some?
    ensures Inv(Exec(s, acts).value)
    decreases |acts|
  {
    hide Inv, Do;
    if acts != [] {
      InvStep(s, acts[0]);
      InvExec(Do(s, acts[0]).value, acts[1..]);
    }
  }

  // ---------- What every run keeps ----------

  lemma InitInv(instances: nat, threads: nat)
    ensures Inv(Init(instances, threads))
  {
  }

  /**
    While Box.Start runs on an instance or a client is built on it, no Close of the instance is tearing
    its box down, and nobody else's step can begin to.
   */
  lemma {:induction false} NotTornMeanwhile(instances: nat, threads: nat, acts: seq<Action>, t: nat, a: Action)
    requires Exec(Init(instances, threads), acts).Some?
    ensures var s := Exec(Init(instances, threads), acts).value;
            t < |s.threads| && (s.threads[t].Starting? || s.threads[t].Building?) ==>
              && s.threads[t].b < |s.insts|
              && (forall u :: 0 <= u < |s.threads| ==> s.threads[u] != CloseBox(s.threads[t].b))
              && (a.t != t && Do(s, a).Some? && |Do(s, a).value.insts| == |s.insts| ==>
                    Do(s, a).value.insts[s.threads[t].b].torn == s.insts[s.threads[t].b].torn)
  {
    InitInv(instances, threads);
    InvExec(Init(instances, threads), acts);
    var s := Exec(Init(instances, threads), acts).value;
    if t < |s.threads| && (s.threads[t].Starting? || s.threads[t].Building?) {
      var b := s.threads[t].b;
      assert ThreadOk(s, t, s.threads[t]);
      hide Exec, Do, InstOk, SharedOk;
      forall u | 0 <= u < |s.threads| && u != t
        ensures s.threads[u] != CloseBox(b) && s.threads[u] != Starting(b)
      {
        assert ThreadOk(s, u, s.threads[u]);
      }
      if a.t != t && Do(s, a).Some? {
        TornStep(s, a, b);
      }
    }
  }

  /** Only two steps tear a box down: the instance's Close, and a Box.Start that fails. */
  lemma TornStep(s: State, a: Action, b: nat)
    requires Do(s, a).Some? && b < |s.insts|
    ensures a.t < |s.threads| && |Do(s, a).value.insts| == |s.insts|
    ensures Do(s, a).value.insts[b].torn
            <==> s.insts[b].torn || (a.Step? && s.threads[a.t] == CloseBox(b)) || FailsStart(s, a, b)
    ensures Do(s, a).value.insts[b].failed <==> s.insts[b].failed || FailsStart(s, a, b)
  {
    hide LockStep, WorkStep;
    if a.Step? && LockStep(s, a.t).Some? {
      LockTears(s, a.t, b);
    } else if a.Step? {
      WorkTears(s, a.t, a.choice, b);
    }
  }

  lemma LockTears(s: State, t: nat, b: nat)
    requires t < |s.threads| && (PcInst(s.threads[t]).Some? ==> PcInst(s.threads[t]).value < |s.insts|)
    requires LockStep(s, t).Some? && b < |s.insts|
    ensures var s' := LockStep(s, t).value;
            && |s'.insts| == |s.insts| && s'.insts[b].torn == s.insts[b].torn && s'.insts[b].failed == s.insts[b].failed
            && s.threads[t] != CloseBox(b) && s.threads[t] != Starting(b)
  {
  }

  lemma WorkTears(s: State, t: nat, choice: Choice, b: nat)
    requires t < |s.threads| && (PcInst(s.threads[t]).Some? ==> PcInst(s.threads[t]).value < |s.insts|)
    requires WorkStep(s, t, choice).Some? && b < |s.insts|
    ensures var s' := WorkStep(s, t, choice).value;
            && |s'.insts| == |s.insts|
            && (s'.insts[b].torn
                <==> s.insts[b].torn || s.threads[t] == CloseBox(b) || FailsStart(s, Step(t, choice), b))
            && (s'.insts[b].failed <==> s.insts[b].failed || FailsStart(s, Step(t, choice), b))
  {
  }

  /** The step is a Box.Start of b that fails. */
  predicate FailsStart(s: State, a: Action, b: nat) {
    a.Step? && a.t < |s.threads| && s.threads[a.t] == Starting(b) && StartFails(a.choice)
  }

  /** Along the run some Box.Start of b has failed. */
  predicate HasFailed(s: State, acts: seq<Action>, b: nat)
    requires Exec(s, acts).Some?
    decreases |acts|
  {
    acts != [] && (FailsStart(s, acts[0], b) || HasFailed(Do(s, acts[0]).value, acts[1..], b))
  }

  lemma {:induction false} FailedExec(s: State, acts: seq<Action>, b: nat)
    requires Exec(s, acts).Some? && b < |s.insts|
    ensures |Exec(s, acts).value.insts| == |s.insts|
    ensures Exec(s, acts).value.insts[b].failed <==> s.insts[b].failed || HasFailed(s, acts, b)
    decreases |acts|
  {
    hide Do, FailsStart;
    if acts != [] {
      TornStep(s, acts[0], b);
      FailedExec(Do(s, acts[0]).value, acts[1..], b);
    }
  }

  /**
    Box.Start, or the building of a client, meets a box that has been torn down if and only if an
    earlier Box.Start of the same instance failed: that is the only way a box is closed and used again.
   */
  lemma {:induction false} MeetsTornIffFailed(instances: nat, threads: nat, acts: seq<Action>, t: nat)
    requires Exec(Init(instances, threads), acts).Some?
    ensures var s := Exec(Init(instances, threads), acts).value;
            t < |s.threads| && (s.threads[t].Starting? || s.threads[t].Building?) ==>
              && s.threads[t].b < |s.insts|
              && (s.insts[s.threads[t].b].torn <==> HasFailed(Init(instances, threads), acts, s.threads[t].b))
  {
    var s0 := Init(instances, threads);
    InitInv(instances, threads);
    InvExec(s0, acts);
    var s := Exec(s0, acts).value;
    if t < |s.threads| && (s.threads[t].Starting? || s.threads[t].Building?) {
      var b := s.threads[t].b;
      assert ThreadOk(s, t, s.threads[t]);
      assert InstOk(s, s.insts[b]);
      SameInsts(s0, acts);
      FailedExec(s0, acts, b);
    }
  }

  lemma {:induction false} SameInsts(s: State, acts: seq<Action>)
    requires Exec(s, acts).Some?
    ensures |Exec(s, acts).value.insts| == |s.insts|
    decreases |acts|
  {
    if acts != [] {
      SameInstsStep(s, acts[0]);
      SameInsts(Do(s, acts[0]).value, acts[1..]);
    }
  }

  lemma SameInstsStep(s: State, a: Action)
    requires Do(s, a).Some?
    ensures |Do(s, a).value.insts| == |s.insts|
  {
  }

  /** At most one protect listener is open; with the main lock free, only while there is a main instance. */
  lemma {:induction false} OneListener(instances: nat, threads: nat, acts: seq<Action>)
    requires Exec(Init(instances, threads), acts).Some?
    ensures var s := Exec(Init(instances, threads), acts).value;
            && s.open <= 1
            && (s.open == 1 <==> s.closer)
            && (s.open == 1 && s.mainLock.None? ==> s.main.Some?)
  {
    InitInv(instances, threads);
    InvExec(Init(instances, threads), acts);
  }

  /** What never goes back in an instance. */
  predicate Ages(was: Inst, now: Inst) {
    && (was.phase.Closed? ==> now.phase.Closed?)
    && (was.torn ==> now.torn)
  }

  lemma LockAges(s: State, t: nat, b: nat)
    requires t < |s.threads| && (PcInst(s.threads[t]).Some? ==> PcInst(s.threads[t]).value < |s.insts|)
    requires LockStep(s, t).Some? && b < |s.insts|
    ensures |LockStep(s, t).value.insts| == |s.insts| && Ages(s.insts[b], LockStep(s, t).value.insts[b])
  {
  }

  lemma WorkAges(s: State, t: nat, choice: Choice, b: nat)
    requires t < |s.threads| && (PcInst(s.threads[t]).Some? ==> PcInst(s.threads[t]).value < |s.insts|)
    requires WorkStep(s, t, choice).Some? && b < |s.insts|
    requires s.threads[t].Starting? ==> s.insts[s.threads[t].b].phase.Running?
    ensures |WorkStep(s, t, choice).value.insts| == |s.insts| && Ages(s.insts[b], WorkStep(s, t, choice).value.insts[b])
  {
  }

  lemma AgesStep(s: State, a: Action, b: nat)
    requires Inv(s) && Do(s, a).Some? && b < |s.insts|
    ensures |Do(s, a).value.insts| == |s.insts| && Ages(s.insts[b], Do(s, a).value.insts[b])
  {
    assert ThreadOk(s, a.t, s.threads[a.t]);
    hide LockStep, WorkStep, Inv;
    if a.Step? && LockStep(s, a.t).Some? {
      LockAges(s, a.t, b);
    } else if a.Step? {
      WorkAges(s, a.t, a.choice, b);
    }
  }

  lemma {:induction false} AgesExec(s: State, acts: seq<Action>, b: nat)
    requires Inv(s) && Exec(s, acts).Some? && b < |s.insts|
    ensures |Exec(s, acts).value.insts| == |s.insts| && Ages(s.insts[b], Exec(s, acts).value.insts[b])
    decreases |acts|
  {
    hide Inv, Do;
    if acts != [] {
      AgesStep(s, acts[0], b);
      InvStep(s, acts[0]);
      AgesExec(Do(s, acts[0]).value, acts[1..], b);
    }
  }

  /** Closed is final, whatever calls follow, and whatever they return. */
  lemma {:induction false} ClosedIsFinal(instances: nat, threads: nat, before: seq<Action>, after: seq<Action>, b: nat)
    requires Exec(Init(instances, threads), before).Some?
    requires Exec(Exec(Init(instances, threads), before).value, after).Some?
    ensures var s := Exec(Init(instances, threads), before).value;
            var s' := Exec(s, after).value;
            b < |s.insts| && s.insts[b].phase.Closed? ==> b < |s'.insts| && s'.insts[b].phase.Closed?
  {
    InitInv(instances, threads);
    InvExec(Init(instances, threads), before);
    var s := Exec(Init(instances, threads), before).value;
    if b < |s.insts| {
      AgesExec(s, after, b);
    }
  }

  lemma {:induction false} ExecOne(s: State, a: Action, rest: seq<Action>, s': State)
    requires Do(s, a) == Some(s')
    ensures Exec(s, [a] + rest) == Exec(s', rest)
  {
    assert ([a] + rest)[1..] == rest;
  }

  /** n steps of t, whose inner calls do as `choice` says. */
  function Steps(t: nat, n: nat, choice: Choice): seq<Action> {
    seq(n, _ => Step(t, choice))
  }

  lemma {:induction false} ExecStep(s: State, t: nat, n: nat, choice: Choice, s': State)
    requires n > 0 && Do(s, Step(t, choice)) == Some(s')
    ensures Exec(s, Steps(t, n, choice)) == Exec(s', Steps(t, n - 1, choice))
  {
    assert Steps(t, n, choice)[1..] == Steps(t, n - 1, choice);
  }

  lemma {:induction false} ExecNone(s: State, acts: seq<Action>)
    requires acts == []
    ensures Exec(s, acts) == Some(s)
  {
  }

  lemma DoStarting(s: State, t: nat, b: nat, choice: Choice)
    requires t < |s.threads| && b < |s.insts| && s.threads[t] == Starting(b)
    ensures Do(s, Step(t, choice)) == Some(At(Put(s, b, AfterStart(s.insts[b], choice)), t, OutStart(b)))
  {
    hide AfterStart;
  }

  lemma DoOutStart(s: State, t: nat, b: nat, choice: Choice)
    requires t < |s.threads| && b < |s.insts| && s.threads[t] == OutStart(b)
    ensures Do(s, Step(t, choice)) == Some(Release(s, t, b))
  {
  }

  lemma DoWantStart(s: State, t: nat, b: nat, choice: Choice)
    requires t < |s.threads| && b < |s.insts| && s.threads[t] == WantStart(b)
    ensures Do(s, Step(t, choice)).Some? ==> Do(s, Step(t, choice)) == Acquire(s, t, b, InStart(b))
    ensures s.insts[b].owner.None? ==> Do(s, Step(t, choice)).Some?
  {
  }

  lemma DoInStart(s: State, t: nat, b: nat, choice: Choice)
    requires t < |s.threads| && b < |s.insts| && s.threads[t] == InStart(b) && s.insts[b].phase.Fresh?
    ensures Do(s, Step(t, choice)) == Some(At(Put(s, b, s.insts[b].(phase := Running)), t, Starting(b)))
  {
  }

  lemma DoBegin(s: State, t: nat, op: Op)
    requires t < |s.threads| && s.threads[t].Rest? && (op.TestMain? || op.b < |s.insts|)
    ensures Do(s, Begin(t, op)) == Some(At(s, t, Entry(op)))
  {
  }

  /** A Start that has the lock and runs Box.Start, to its end. */
  lemma {:induction false} StartEnds(s: State, t: nat, b: nat, choice: Choice)
    requires t < |s.threads| && b < |s.insts| && s.threads[t] == Starting(b)
    ensures Exec(s, Steps(t, 2, choice))
            == Some(s.(threads := s.threads[t := Rest],
                       insts := s.insts[b := AfterStart(s.insts[b], choice).(owner := None)]))
  {
    hide Exec, AfterStart, Do;
    var i := AfterStart(s.insts[b], choice);
    var s1 := At(Put(s, b, i), t, OutStart(b));
    DoStarting(s, t, b, choice);
    ExecStep(s, t, 2, choice, s1);
    var s2 := Release(s1, t, b);
    DoOutStart(s1, t, b, choice);
    ExecStep(s1, t, 1, choice, s2);
    ExecNone(s2, Steps(t, 0, choice));
    assert s2.insts == s.insts[b := i.(owner := None)] && s2.threads == s.threads[t := Rest];
  }

  /** The first two steps of a Start: a fresh instance whose lock is free reaches Box.Start as it is. */
  lemma {:induction false} StartReaches(s: State, t: nat, b: nat, choice: Choice, more: nat)
    requires t < |s.threads| && b < |s.insts| && s.threads[t].Rest?
    requires s.insts[b].phase.Fresh? && s.insts[b].owner.None?
    ensures Exec(s, [Begin(t, Start(b))] + Steps(t, 2 + more, choice))
            == Exec(s.(threads := s.threads[t := Starting(b)],
                       insts := s.insts[b := s.insts[b].(phase := Running, owner := Some(t))]), Steps(t, more, choice))
  {
    hide Exec, Do;
    var s1 := At(s, t, WantStart(b));
    DoBegin(s, t, Start(b));
    ExecOne(s, Begin(t, Start(b)), Steps(t, 2 + more, choice), s1);
    var s2 := Acquire(s1, t, b, InStart(b)).value;
    DoWantStart(s1, t, b, choice);
    ExecStep(s1, t, 2 + more, choice, s2);
    var s3 := At(Put(s2, b, s2.insts[b].(phase := Running)), t, Starting(b));
    DoInStart(s2, t, b, choice);
    ExecStep(s2, t, 1 + more, choice, s3);
    assert s3.threads == s.threads[t := Starting(b)];
    assert s3.insts == s.insts[b := s.insts[b].(phase := Running, owner := Some(t))];
  }

  /**
    What a whole Start call, run without interruption, makes of a fresh instance: running if Box.Start
    returned nil, else fresh again for a retry; torn down if Box.Start failed.
   */
  function Started(i: Inst, choice: Choice): Inst {
    Inst(if choice.Succeeds? || choice.FailsQuietly? then Running else Fresh, i.owner,
         i.torn || choice.Fails? || choice.FailsQuietly?, i.failed || choice.Fails? || choice.FailsQuietly?)
  }

  lemma {:induction false} StartCall(s: State, t: nat, b: nat, choice: Choice)
    requires t < |s.threads| && b < |s.insts| && s.threads[t].Rest?
    requires s.insts[b].phase.Fresh? && s.insts[b].owner.None?
    ensures Exec(s, [Begin(t, Start(b))] + Steps(t, 4, choice))
            == Some(s.(insts := s.insts[b := Started(s.insts[b], choice)]))
  {
    hide Exec;
    StartReaches(s, t, b, choice, 2);
    var i := s.insts[b].(phase := Running, owner := Some(t));
    var s1 := s.(threads := s.threads[t := Starting(b)], insts := s.insts[b := i]);
    StartEnds(s1, t, b, choice);
    assert s1.insts[b := Started(s.insts[b], choice)] == s.insts[b := Started(s.insts[b], choice)];
    assert s1.threads[t := Rest] == s.threads;
  }

  /** A Start that returns an error, then the same call again as far as Box.Start. */
  function FailThenRetry(t: nat, b: nat): seq<Action> {
    [Begin(t, Start(b))] + Steps(t, 4, Fails) + ([Begin(t, Start(b))] + Steps(t, 2, Fails))
  }

  /** A Start that returns an error, then a client as far as its building. */
  function FailThenClient(t: nat, b: nat): seq<Action> {
    [Begin(t, Start(b))] + Steps(t, 4, Fails) + ([Begin(t, Client(b))] + Steps(t, 2, Succeeds))
  }

  /** The retry that the rollback allows, and a client built in between, do meet a torn-down box. */
  lemma {:induction false} RetryMeetsTornBox(s: State, t: nat, b: nat)
    requires t < |s.threads| && b < |s.insts| && s.threads[t].Rest?
    requires s.insts[b].phase.Fresh? && s.insts[b].owner.None?
    ensures var retried := Exec(s, FailThenRetry(t, b));
            && retried.Some? && |retried.value.threads| > t && |retried.value.insts| > b
            && retried.value.threads[t] == Starting(b) && retried.value.insts[b].torn
    ensures var built := Exec(s, FailThenClient(t, b));
            && built.Some? && |built.value.threads| > t && |built.value.insts| > b
            && built.value.threads[t] == Building(b) && built.value.insts[b].torn
  {
    hide Exec;
    StartCall(s, t, b, Fails);
    var s1 := s.(insts := s.insts[b := Started(s.insts[b], Fails)]);
    ExecThen(s, [Begin(t, Start(b))] + Steps(t, 4, Fails), s1, [Begin(t, Start(b))] + Steps(t, 2, Fails));
    StartReaches(s1, t, b, Fails, 0);
    var s2 := s1.(threads := s1.threads[t := Starting(b)],
                  insts := s1.insts[b := s1.insts[b].(phase := Running, owner := Some(t))]);
    ExecNone(s2, Steps(t, 0, Fails));
    ExecThen(s, [Begin(t, Start(b))] + Steps(t, 4, Fails), s1, [Begin(t, Client(b))] + Steps(t, 2, Succeeds));
    ClientCall(s1, t, b);
  }

  lemma DoClient(s: State, t: nat, b: nat)
    requires t < |s.threads| && b < |s.insts|
    ensures s.threads[t] == WantClient(b) && s.insts[b].owner.None? ==>
              Do(s, Step(t, Succeeds)) == Acquire(s, t, b, InClient(b))
    ensures s.threads[t] == InClient(b) ==>
              Do(s, Step(t, Succeeds))
              == Some(if s.insts[b].phase.Closed? then Release(s, t, b) else At(s, t, Building(b)))
  {
  }

  lemma {:induction false} ExecThen(s: State, acts: seq<Action>, s': State, more: seq<Action>)
    requires Exec(s, acts) == Some(s')
    ensures Exec(s, acts + more) == Exec(s', more)
    decreases |acts|
  {
    hide Do;
    if acts == [] {
      assert acts + more == more;
    } else {
      assert (acts + more)[1..] == acts[1..] + more;
      ExecThen(Do(s, acts[0]).value, acts[1..], s', more);
    }
  }

  // ---------- A closed instance is torn down ----------

  /** A Close of b has marked it closed and has not come to the end of Box.Close. */
  predicate ClosingNow(pc: Pc, b: nat) { Marked(pc) && pc.b == b }

  predicate SomeoneClosing(s: State, b: nat) {
    exists t :: 0 <= t < |s.threads| && ClosingNow(s.threads[t], b)
  }

  /** b is closed and its box is not torn down yet. */
  predicate Untorn(s: State, b: nat) {
    b < |s.insts| && s.insts[b].phase.Closed? && !s.insts[b].torn
  }

  lemma LockKeepsClosing(s: State, t: nat, b: nat)
    requires t < |s.threads| && (PcInst(s.threads[t]).Some? ==> PcInst(s.threads[t]).value < |s.insts|)
    requires LockStep(s, t).Some?
    ensures var s' := LockStep(s, t).value;
            && |s'.threads| == |s.threads|
            && (Untorn(s', b) <==> Untorn(s, b)) && (ClosingNow(s.threads[t], b) ==> ClosingNow(s'.threads[t], b))
  {
    match s.threads[t]
    case WantStart(_) =>
    case OutStart(_) =>
    case WantClose(_) =>
    case CloseWantMain(_) =>
    case CloseFreeMain(_) =>
    case OutClose(_) =>
    case WantMain(_) =>
    case OutMain(_) =>
    case WantClient(_) =>
    case WantRead =>
    case OutRead(_) =>
  }

  /** Only Box.Close ends a Close; only a Close that is under way leaves an instance closed and not torn down. */
  lemma WorkKeepsClosing(s: State, t: nat, choice: Choice, b: nat)
    requires t < |s.threads| && (PcInst(s.threads[t]).Some? ==> PcInst(s.threads[t]).value < |s.insts|)
    requires WorkStep(s, t, choice).Some?
    ensures var s' := WorkStep(s, t, choice).value;
            && |s'.threads| == |s.threads|
            && (Untorn(s', b) ==> Untorn(s, b) || ClosingNow(s'.threads[t], b))
            && (Untorn(s', b) && ClosingNow(s.threads[t], b) ==> ClosingNow(s'.threads[t], b))
  {
    match s.threads[t]
    case InStart(_) =>
    case Starting(_) =>
    case InClose(_) =>
    case ClearMain(_) =>
    case StopListener(_) =>
    case CloseBox(_) =>
    case SetMain(_) =>
    case StopOld(_) =>
    case Serve(_) =>
    case InClient(_) =>
    case Building(_) =>
    case ReadMain =>
  }

  lemma ClosingStep(s: State, a: Action, b: nat)
    requires Do(s, a).Some? && (Untorn(s, b) ==> SomeoneClosing(s, b))
    ensures Untorn(Do(s, a).value, b) ==> SomeoneClosing(Do(s, a).value, b)
  {
    StepLeft(s, a);
    var s' := Do(s, a).value;
    if a.Step? && LockStep(s, a.t).Some? {
      LockKeepsClosing(s, a.t, b);
    } else if a.Step? {
      WorkKeepsClosing(s, a.t, a.choice, b);
    }
    hide LockStep, WorkStep, Marked;
    if Untorn(s', b) {
      if ClosingNow(s'.threads[a.t], b) {
        assert SomeoneClosing(s', b);
      } else {
        var u :| 0 <= u < |s.threads| && ClosingNow(s.threads[u], b);
        assert u != a.t ==> ClosingNow(s'.threads[u], b);
      }
    }
  }

  lemma {:induction false} ClosingExec(s: State, acts: seq<Action>, b: nat)
    requires Exec(s, acts).Some? && (Untorn(s, b) ==> SomeoneClosing(s, b))
    ensures Untorn(Exec(s, acts).value, b) ==> SomeoneClosing(Exec(s, acts).value, b)
    decreases |acts|
  {
    hide Do, Untorn, SomeoneClosing;
    if acts != [] {
      ClosingStep(s, acts[0], b);
      ClosingExec(Do(s, acts[0]).value, acts[1..], b);
    }
  }

  /**
    In every reachable state a closed instance is torn down, or a Close of it is still on its way there;
    so once every call has returned it is torn down.
   */
  lemma {:induction false} ClosedIsTornDown(instances: nat, threads: nat, acts: seq<Action>, b: nat)
    requires Exec(Init(instances, threads), acts).Some?
    ensures var s := Exec(Init(instances, threads), acts).value;
            b < |s.insts| && s.insts[b].phase.Closed? ==>
              && (s.insts[b].torn || SomeoneClosing(s, b))
              && ((forall t :: 0 <= t < |s.threads| ==> s.threads[t].Rest?) ==> s.insts[b].torn)
  {
    ClosingExec(Init(instances, threads), acts, b);
  }

  // ---------- A start that succeeds is the last ----------

  /** b has been started or closed, and no Box.Start runs on it. */
  predicate PastStart(s: State, b: nat) {
    && b < |s.insts| && !s.insts[b].phase.Fresh?
    && forall t :: 0 <= t < |s.threads| ==> s.threads[t] != Starting(b)
  }

  lemma LockPastStart(s: State, t: nat, b: nat)
    requires t < |s.threads| && (PcInst(s.threads[t]).Some? ==> PcInst(s.threads[t]).value < |s.insts|)
    requires LockStep(s, t).Some? && b < |s.insts| && !s.insts[b].phase.Fresh?
    ensures var s' := LockStep(s, t).value;
            && |s'.insts| == |s.insts| && !s'.insts[b].phase.Fresh?
            && |s'.threads| == |s.threads| && s'.threads[t] != Starting(b)
  {
    match s.threads[t]
    case WantStart(_) =>
    case OutStart(_) =>
    case WantClose(_) =>
    case CloseWantMain(_) =>
    case CloseFreeMain(_) =>
    case OutClose(_) =>
    case WantMain(_) =>
    case OutMain(_) =>
    case WantClient(_) =>
    case WantRead =>
    case OutRead(_) =>
  }

  lemma WorkPastStart(s: State, t: nat, choice: Choice, b: nat)
    requires t < |s.threads| && (PcInst(s.threads[t]).Some? ==> PcInst(s.threads[t]).value < |s.insts|)
    requires WorkStep(s, t, choice).Some? && b < |s.insts| && !s.insts[b].phase.Fresh? && s.threads[t] != Starting(b)
    ensures var s' := WorkStep(s, t, choice).value;
            && |s'.insts| == |s.insts| && !s'.insts[b].phase.Fresh?
            && |s'.threads| == |s.threads| && s'.threads[t] != Starting(b)
  {
    match s.threads[t]
    case InStart(_) =>
    case Starting(_) =>
    case InClose(_) =>
    case ClearMain(_) =>
    case StopListener(_) =>
    case CloseBox(_) =>
    case SetMain(_) =>
    case StopOld(_) =>
    case Serve(_) =>
    case InClient(_) =>
    case Building(_) =>
    case ReadMain =>
  }

  lemma PastStartStep(s: State, a: Action, b: nat)
    requires Do(s, a).Some? && PastStart(s, b)
    ensures PastStart(Do(s, a).value, b)
  {
    StepLeft(s, a);
    if a.Step? && LockStep(s, a.t).Some? {
      LockPastStart(s, a.t, b);
    } else if a.Step? {
      WorkPastStart(s, a.t, a.choice, b);
    }
    hide LockStep, WorkStep;
    var s' := Do(s, a).value;
    assert forall u :: 0 <= u < |s.threads| && u != a.t ==> s'.threads[u] == s.threads[u];
  }

  lemma {:induction false} PastStartExec(s: State, acts: seq<Action>, b: nat)
    requires Exec(s, acts).Some? && PastStart(s, b)
    ensures PastStart(Exec(s, acts).value, b)
    decreases |acts|
  {
    hide Do, PastStart;
    if acts != [] {
      PastStartStep(s, acts[0], b);
      PastStartExec(Do(s, acts[0]).value, acts[1..], b);
    }
  }

  /**
    Once a Box.Start of b has returned nil, no Box.Start runs on b ever again and b is running until it is
    closed: two starts of b have one between them that returned an error or panicked.
   */
  lemma {:induction false} SuccessfulStartIsLast(instances: nat, threads: nat, before: seq<Action>, t: nat,
                                                 choice: Choice, after: seq<Action>)
    requires Exec(Init(instances, threads), before).Some?
    requires var s := Exec(Init(instances, threads), before).value; t < |s.threads| && s.threads[t].Starting?
    requires choice.Succeeds? || choice.FailsQuietly?
    requires Do(Exec(Init(instances, threads), before).value, Step(t, choice)).Some?
    requires Exec(Do(Exec(Init(instances, threads), before).value, Step(t, choice)).value, after).Some?
    ensures var s := Exec(Init(instances, threads), before).value;
            var b, s1 := s.threads[t].b, Do(s, Step(t, choice)).value;
            && b < |s1.insts| && s1.insts[b].phase.Running?
            && PastStart(Exec(s1, after).value, b)
  {
    var s := Exec(Init(instances, threads), before).value;
    InitInv(instances, threads);
    InvExec(Init(instances, threads), before);
    var b := s.threads[t].b;
    OnlyStarting(s, t);
    DoStarting(s, t, b, choice);
    var s1 := Do(s, Step(t, choice)).value;
    assert PastStart(s1, b);
    PastStartExec(s1, after, b);
  }

  lemma OnlyStarting(s: State, t: nat)
    requires Inv(s) && t < |s.threads| && s.threads[t].Starting?
    ensures s.threads[t].b < |s.insts| && s.insts[s.threads[t].b].phase.Running?
    ensures forall u :: 0 <= u < |s.threads| && u != t ==> s.threads[u] != Starting(s.threads[t].b)
  {
    assert ThreadOk(s, t, s.threads[t]);
    forall u | 0 <= u < |s.threads| && u != t
      ensures s.threads[u] != Starting(s.threads[t].b)
    {
      assert ThreadOk(s, u, s.threads[u]);
    }
  }

  // ---------- Clients ----------

  /** newProxyHttpClient, with the instance's lock free: it builds a client exactly if the instance is not closed. */
  lemma {:induction false} ClientCall(s: State, t: nat, b: nat)
    requires t < |s.threads| && b < |s.insts| && s.threads[t].Rest? && s.insts[b].owner.None?
    ensures Exec(s, [Begin(t, Client(b))] + Steps(t, 2, Succeeds))
            == Some(if s.insts[b].phase.Closed? then s
                    else s.(threads := s.threads[t := Building(b)],
                            insts := s.insts[b := s.insts[b].(owner := Some(t))]))
  {
    hide Exec, Do;
    var s1 := At(s, t, WantClient(b));
    DoBegin(s, t, Client(b));
    ExecOne(s, Begin(t, Client(b)), Steps(t, 2, Succeeds), s1);
    var s2 := Acquire(s1, t, b, InClient(b)).value;
    DoClient(s1, t, b);
    ExecStep(s1, t, 2, Succeeds, s2);
    DoClient(s2, t, b);
    var s3 := Do(s2, Step(t, Succeeds)).value;
    ExecStep(s2, t, 1, Succeeds, s3);
    ExecNone(s3, Steps(t, 0, Succeeds));
    if s.insts[b].phase.Closed? {
      assert s3.insts == s.insts && s3.threads == s.threads;
    } else {
      assert s3.threads == s.threads[t := Building(b)];
    }
  }

  /** UrlTest without an instance goes on to the main one, if there is one. */
  lemma {:induction false} TestMainCall(s: State, t: nat)
    requires t < |s.threads| && s.threads[t].Rest? && s.mainLock.None? && (s.main.Some? ==> s.main.value < |s.insts|)
    ensures Exec(s, [Begin(t, TestMain)] + Steps(t, 3, Succeeds))
            == Some(if s.main.Some? then At(s, t, WantClient(s.main.value)) else s)
  {
    hide Exec, Do;
    var s1 := At(s, t, WantRead);
    DoBegin(s, t, TestMain);
    ExecOne(s, Begin(t, TestMain), Steps(t, 3, Succeeds), s1);
    DoRead(s1, t);
    var s2 := AcquireMain(s1, t, ReadMain).value;
    ExecStep(s1, t, 3, Succeeds, s2);
    DoRead(s2, t);
    var s3 := At(s2, t, OutRead(s2.main));
    ExecStep(s2, t, 2, Succeeds, s3);
    DoRead(s3, t);
    var s4 := Do(s3, Step(t, Succeeds)).value;
    ExecStep(s3, t, 1, Succeeds, s4);
    ExecNone(s4, Steps(t, 0, Succeeds));
    assert s4.threads == if s.main.Some? then s.threads[t := WantClient(s.main.value)] else s.threads;
  }

  lemma DoRead(s: State, t: nat)
    requires t < |s.threads| && (s.main.Some? ==> s.main.value < |s.insts|)
    ensures s.threads[t].WantRead? && s.mainLock.None? ==> Do(s, Step(t, Succeeds)) == AcquireMain(s, t, ReadMain)
    ensures s.threads[t].ReadMain? ==> Do(s, Step(t, Succeeds)) == Some(At(s, t, OutRead(s.main)))
    ensures s.threads[t].OutRead? && s.threads[t].got == s.main ==>
              Do(s, Step(t, Succeeds))
              == Some(ReleaseMain(s, t, if s.main.Some? then WantClient(s.main.value) else Rest))
  {
  }

  // ---------- A closed instance as main ----------

  /** A Close of b has marked it closed and has not yet come to clearing the main instance. */
  predicate Clearing(pc: Pc, b: nat) {
    pc == CloseWantMain(b) || pc == ClearMain(b)
  }

  predicate NotClearing(s: State, b: nat) {
    forall t :: 0 <= t < |s.threads| ==> !Clearing(s.threads[t], b)
  }

  /** b is closed and main, and no Close is on its way to clear it. */
  predicate ClosedMain(s: State, b: nat) {
    b < |s.insts| && s.insts[b].phase.Closed? && s.main == Some(b) && NotClearing(s, b)
  }

  /** The step is a SetAsMain of b that assigns when b is closed and no Close will clear it any more. */
  predicate SetsClosed(s: State, a: Action, b: nat) {
    && a.Step? && a.t < |s.threads| && s.threads[a.t] == SetMain(b)
    && b < |s.insts| && s.insts[b].phase.Closed? && NotClearing(s, b)
  }

  /** In every state of the run. */
  predicate NeverClosedMain(s: State, acts: seq<Action>, b: nat)
    requires Exec(s, acts).Some?
    decreases |acts|
  {
    !ClosedMain(s, b) && (acts == [] || NeverClosedMain(Do(s, acts[0]).value, acts[1..], b))
  }

  /** At every step of the run. */
  predicate NeverSetsClosed(s: State, acts: seq<Action>, b: nat)
    requires Exec(s, acts).Some?
    decreases |acts|
  {
    acts == [] || (!SetsClosed(s, acts[0], b) && NeverSetsClosed(Do(s, acts[0]).value, acts[1..], b))
  }

  /** b is closed and main, as far as t's own place tells. */
  predicate ClosedMainBut(s: State, b: nat, pc: Pc) {
    b < |s.insts| && s.insts[b].phase.Closed? && s.main == Some(b) && !Clearing(pc, b)
  }

  lemma LockKeepsMain(s: State, t: nat, b: nat)
    requires t < |s.threads| && (PcInst(s.threads[t]).Some? ==> PcInst(s.threads[t]).value < |s.insts|)
    requires LockStep(s, t).Some?
    ensures var s' := LockStep(s, t).value;
            |s'.threads| == |s.threads| && (ClosedMainBut(s', b, s'.threads[t]) <==> ClosedMainBut(s, b, s.threads[t]))
    ensures !s.threads[t].SetMain?
  {
    match s.threads[t]
    case WantStart(_) =>
    case OutStart(_) =>
    case WantClose(_) =>
    case CloseWantMain(_) =>
    case CloseFreeMain(_) =>
    case OutClose(_) =>
    case WantMain(_) =>
    case OutMain(_) =>
    case WantClient(_) =>
    case WantRead =>
    case OutRead(_) =>
  }

  /** t is at SetMain(b) with b closed. */
  predicate AtClosed(s: State, t: nat, b: nat)
    requires t < |s.threads|
  {
    s.threads[t] == SetMain(b) && b < |s.insts| && s.insts[b].phase.Closed?
  }

  /** Work under the main lock. */
  lemma MainWorkMakesMain(s: State, t: nat, choice: Choice, b: nat)
    requires t < |s.threads| && (PcInst(s.threads[t]).Some? ==> PcInst(s.threads[t]).value < |s.insts|)
    requires WorkStep(s, t, choice).Some? && HoldsMain(s.threads[t])
    ensures var s' := WorkStep(s, t, choice).value;
            && |s'.threads| == |s.threads|
            && (ClosedMainBut(s', b, s'.threads[t]) ==> ClosedMainBut(s, b, s.threads[t]) || AtClosed(s, t, b))
            && (AtClosed(s, t, b) ==> ClosedMainBut(s', b, s'.threads[t]))
  {
    match s.threads[t]
    case ClearMain(_) =>
    case StopListener(_) =>
    case SetMain(_) =>
    case StopOld(_) =>
    case Serve(_) =>
    case ReadMain =>
  }

  /** Work under the instance's lock alone leaves the main instance, and closes only on its way to clear it. */
  lemma OwnWorkKeepsMain(s: State, t: nat, choice: Choice, b: nat)
    requires t < |s.threads| && (PcInst(s.threads[t]).Some? ==> PcInst(s.threads[t]).value < |s.insts|)
    requires WorkStep(s, t, choice).Some? && !HoldsMain(s.threads[t])
    ensures var s' := WorkStep(s, t, choice).value;
            && |s'.threads| == |s.threads| && !AtClosed(s, t, b)
            && (ClosedMainBut(s', b, s'.threads[t]) ==> ClosedMainBut(s, b, s.threads[t]))
  {
    match s.threads[t]
    case InStart(_) =>
    case Starting(_) =>
    case InClose(_) =>
    case CloseBox(_) =>
    case InClient(_) =>
    case Building(_) =>
  }

  lemma BeginKeepsMain(s: State, t: nat, op: Op, b: nat)
    requires Do(s, Begin(t, op)).Some?
    ensures var s' := Do(s, Begin(t, op)).value;
            |s'.threads| == |s.threads| && (ClosedMainBut(s', b, s'.threads[t]) <==> ClosedMainBut(s, b, s.threads[t]))
  {
  }

  /** The step that makes b a closed main instance, seen from its own goroutine. */
  lemma StepMakesMain(s: State, a: Action, b: nat)
    requires Do(s, a).Some?
    ensures a.t < |s.threads| && |Do(s, a).value.threads| == |s.threads|
    ensures var s', sets := Do(s, a).value, a.Step? && AtClosed(s, a.t, b);
            && (ClosedMainBut(s', b, s'.threads[a.t]) ==> ClosedMainBut(s, b, s.threads[a.t]) || sets)
            && (sets ==> ClosedMainBut(s', b, s'.threads[a.t]))
  {
    hide LockStep, WorkStep, ClosedMainBut, HoldsMain;
    if a.Begin? {
      BeginKeepsMain(s, a.t, a.op, b);
    } else if LockStep(s, a.t).Some? {
      LockKeepsMain(s, a.t, b);
    } else if HoldsMain(s.threads[a.t]) {
      MainWorkMakesMain(s, a.t, a.choice, b);
    } else {
      OwnWorkKeepsMain(s, a.t, a.choice, b);
    }
  }

  lemma ClosedMainIs(s: State, b: nat, t: nat)
    requires t < |s.threads|
    ensures ClosedMain(s, b) <==>
              && ClosedMainBut(s, b, s.threads[t])
              && forall u :: 0 <= u < |s.threads| && u != t ==> !Clearing(s.threads[u], b)
  {
  }

  /** A closed instance becomes main, for good, by no other step, and by every such step. */
  lemma ClosedMainStep(s: State, a: Action, b: nat)
    requires Do(s, a).Some?
    ensures ClosedMain(Do(s, a).value, b) ==> ClosedMain(s, b) || SetsClosed(s, a, b)
    ensures SetsClosed(s, a, b) ==> ClosedMain(Do(s, a).value, b)
  {
    StepLeft(s, a);
    hide Do, ClosedMain, ClosedMainBut;
    StepMakesMain(s, a, b);
    ClosedMainIs(s, b, a.t);
    ClosedMainIs(Do(s, a).value, b, a.t);
    var s' := Do(s, a).value;
    assert forall u :: 0 <= u < |s.threads| && u != a.t ==> s.threads[u] == s'.threads[u];
    if ClosedMain(s', b) && a.Step? && s.threads[a.t] == SetMain(b) {
      assert NotClearing(s, b);
    }
  }

  lemma {:induction false} ClosedMainExec(s: State, acts: seq<Action>, b: nat)
    requires Exec(s, acts).Some? && !ClosedMain(s, b)
    ensures NeverClosedMain(s, acts, b) <==> NeverSetsClosed(s, acts, b)
    decreases |acts|
  {
    hide Do, ClosedMain, SetsClosed;
    if acts != [] {
      ClosedMainStep(s, acts[0], b);
      var s' := Do(s, acts[0]).value;
      if !ClosedMain(s', b) {
        ClosedMainExec(s', acts[1..], b);
      }
    }
  }

  /**
    For each instance and in every run: at no moment is b closed and main with no Close on its way to
    clear it, if and only if no SetAsMain of b assigns when b is closed and no Close will clear it any
    more. What happens to other instances does not matter, nor does a SetAsMain that a Close still clears.
   */
  lemma {:induction false} ClosedIsNotMain(instances: nat, threads: nat, acts: seq<Action>, b: nat)
    requires Exec(Init(instances, threads), acts).Some?
    ensures NeverClosedMain(Init(instances, threads), acts, b) <==> NeverSetsClosed(Init(instances, threads), acts, b)
  {
    ClosedMainExec(Init(instances, threads), acts, b);
  }

  /** From s to s', t has come back to rest with b as main; the listener is open if ServeProtect succeeded. */
  predicate MadeMain(s: State, s': State, t: nat, b: nat, choice: Choice)
    requires t < |s.threads| && b < |s.insts|
  {
    && s'.threads == s.threads[t := Rest] && s'.mainLock.None? && s'.main == Some(b)
    && s'.open == (if choice.Succeeds? then 1 else 0)
    && |s'.insts| == |s.insts| && s'.insts[b].phase == s.insts[b].phase
  }

  lemma DoServe(s: State, t: nat, b: nat, choice: Choice)
    requires t < |s.threads| && b < |s.insts| && s.threads[t] == Serve(b)
    ensures Do(s, Step(t, choice))
            == Some(if choice.Succeeds? then At(s, t, OutMain(b)).(closer := true, open := s.open + 1)
                    else At(s, t, OutMain(b)))
  {
  }

  lemma DoOutMain(s: State, t: nat, b: nat, choice: Choice)
    requires t < |s.threads| && b < |s.insts| && s.threads[t] == OutMain(b)
    ensures Do(s, Step(t, choice)) == Some(ReleaseMain(s, t, Rest))
  {
  }

  lemma DoWantMain(s: State, t: nat, b: nat, choice: Choice)
    requires t < |s.threads| && b < |s.insts| && s.threads[t] == WantMain(b) && s.mainLock.None?
    ensures Do(s, Step(t, choice)) == AcquireMain(s, t, SetMain(b))
  {
  }

  lemma {:induction false} SetAsMainEnd(s: State, t: nat, b: nat, choice: Choice)
    requires t < |s.threads| && b < |s.insts| && s.threads[t] == Serve(b) && s.main == Some(b) && s.open == 0
    ensures Exec(s, Steps(t, 2, choice)).Some? && MadeMain(s, Exec(s, Steps(t, 2, choice)).value, t, b, choice)
  {
    hide Exec, Do;
    DoServe(s, t, b, choice);
    var s1 := Do(s, Step(t, choice)).value;
    ExecStep(s, t, 2, choice, s1);
    DoOutMain(s1, t, b, choice);
    var s2 := ReleaseMain(s1, t, Rest);
    ExecStep(s1, t, 1, choice, s2);
    ExecNone(s2, Steps(t, 0, choice));
  }

  lemma SetMainStep(s: State, t: nat, b: nat, choice: Choice) returns (s': State)
    requires t < |s.threads| && b < |s.insts| && s.threads[t] == SetMain(b)
    ensures Do(s, Step(t, choice)) == Some(s') && s'.main == Some(b)
    ensures s'.threads == s.threads[t := StopOld(b)] && s'.open == s.open && s'.closer == s.closer
    ensures |s'.insts| == |s.insts| && s'.insts[b].phase == s.insts[b].phase
  {
    s' := At(s, t, StopOld(b)).(main := Some(b));
  }

  lemma StopOldStep(s: State, t: nat, b: nat, choice: Choice) returns (s': State)
    requires t < |s.threads| && b < |s.insts| && s.threads[t] == StopOld(b) && s.open == (if s.closer then 1 else 0)
    ensures Do(s, Step(t, choice)) == Some(s') && s'.main == s.main
    ensures s'.threads == s.threads[t := Serve(b)] && s'.open == 0 && s'.insts == s.insts
  {
    s' := At(StopServing(s), t, Serve(b));
  }

  lemma {:induction false} SetAsMainMiddle(s: State, t: nat, b: nat, choice: Choice)
    requires t < |s.threads| && b < |s.insts| && s.threads[t] == SetMain(b) && s.open == (if s.closer then 1 else 0)
    ensures Exec(s, Steps(t, 4, choice)).Some? && MadeMain(s, Exec(s, Steps(t, 4, choice)).value, t, b, choice)
  {
    hide Exec, Do;
    var s1 := SetMainStep(s, t, b, choice);
    ExecStep(s, t, 4, choice, s1);
    var s2 := StopOldStep(s1, t, b, choice);
    ExecStep(s1, t, 3, choice, s2);
    SetAsMainEnd(s2, t, b, choice);
  }

  lemma SharedHolds(s: State)
    requires Inv(s)
    ensures SharedOk(s)
  {
  }

  /**
    SetAsMain does not look at the instance's state: with the main lock free it always ends with b
    as main, whether or not the listener opens, so the new main instance is closed exactly when b was.
   */
  lemma {:induction false} SetAsMainIgnoresClosed(s: State, t: nat, b: nat, choice: Choice)
    requires Inv(s) && t < |s.threads| && b < |s.insts| && s.threads[t].Rest? && s.mainLock.None?
    ensures var run := Exec(s, [Begin(t, SetAsMain(b))] + Steps(t, 5, choice));
            && run.Some? && MadeMain(s, run.value, t, b, choice)
            && (run.value.insts[run.value.main.value].phase.Closed? <==> s.insts[b].phase.Closed?)
  {
    hide Exec, Inv, Do;
    var s1 := At(s, t, WantMain(b));
    DoBegin(s, t, SetAsMain(b));
    ExecOne(s, Begin(t, SetAsMain(b)), Steps(t, 5, choice), s1);
    assert SharedOk(s) by { SharedHolds(s); }
    var s2 := AcquireMain(s1, t, SetMain(b)).value;
    DoWantMain(s1, t, b, choice);
    ExecStep(s1, t, 5, choice, s2);
    SetAsMainMiddle(s2, t, b, choice);
    assert s2.threads[t := Rest] == s.threads[t := Rest] && s2.insts == s.insts;
    assert MadeMain(s, Exec(s2, Steps(t, 4, choice)).value, t, b, choice);
  }

  /** Nobody is about to make another instance main. */
  predicate NoRival(s: State, b: nat) {
    forall t :: 0 <= t < |s.threads| && (s.threads[t].WantMain? || s.threads[t].SetMain?) ==> s.threads[t].b == b
  }

  predicate RivalFree(acts: seq<Action>, b: nat) {
    forall i :: 0 <= i < |acts| && acts[i].Begin? && acts[i].op.SetAsMain? ==> acts[i].op.b == b
  }

  lemma StaleStep(s: State, a: Action, b: nat)
    requires Inv(s) && Do(s, a).Some? && b < |s.insts|
    requires ClosedMain(s, b) && NoRival(s, b)
    requires a.Begin? && a.op.SetAsMain? ==> a.op.b == b
    ensures var s' := Do(s, a).value;
            |s'.insts| == |s.insts| && ClosedMain(s', b) && NoRival(s', b)
  {
    hide Inv, Do;
    AgesStep(s, a, b);
    StepLeft(s, a);
    StalePc(s, a, b);
  }

  /** Where t stands and who is main, seen from b. */
  predicate Harmless(s: State, t: nat, b: nat) {
    && t < |s.threads| && s.main == Some(b) && !Clearing(s.threads[t], b)
    && (s.threads[t].WantMain? || s.threads[t].SetMain? ==> s.threads[t].b == b)
  }

  lemma StaleLock(s: State, t: nat, b: nat)
    requires Harmless(s, t, b) && (PcInst(s.threads[t]).Some? ==> PcInst(s.threads[t]).value < |s.insts|)
    requires LockStep(s, t).Some?
    ensures Harmless(LockStep(s, t).value, t, b) && |LockStep(s, t).value.threads| == |s.threads|
  {
  }

  lemma StaleWork(s: State, t: nat, choice: Choice, b: nat)
    requires Harmless(s, t, b) && (PcInst(s.threads[t]).Some? ==> PcInst(s.threads[t]).value < |s.insts|)
    requires b < |s.insts| && s.insts[b].phase.Closed? && WorkStep(s, t, choice).Some?
    ensures Harmless(WorkStep(s, t, choice).value, t, b) && |WorkStep(s, t, choice).value.threads| == |s.threads|
  {
  }

  lemma StalePc(s: State, a: Action, b: nat)
    requires Do(s, a).Some? && b < |s.insts| && s.insts[b].phase.Closed? && Harmless(s, a.t, b)
    requires a.Begin? && a.op.SetAsMain? ==> a.op.b == b
    ensures Harmless(Do(s, a).value, a.t, b) && |Do(s, a).value.threads| == |s.threads|
  {
    hide LockStep, WorkStep;
    if a.Step? && LockStep(s, a.t).Some? {
      StaleLock(s, a.t, b);
    } else if a.Step? {
      StaleWork(s, a.t, a.choice, b);
    }
  }

  /** A closed main instance stays main through any later calls, Close included, until another instance is made main. */
  lemma {:induction false} ClosedMainStays(s: State, acts: seq<Action>, b: nat)
    requires Inv(s) && Exec(s, acts).Some? && b < |s.insts|
    requires ClosedMain(s, b) && NoRival(s, b)
    requires RivalFree(acts, b)
    ensures ClosedMain(Exec(s, acts).value, b)
    decreases |acts|
  {
    hide Inv, Do;
    if acts != [] {
      StaleStep(s, acts[0], b);
      InvStep(s, acts[0]);
      assert RivalFree(acts[1..], b) by {
        assert forall i :: 0 <= i < |acts| - 1 ==> acts[1..][i] == acts[i + 1];
      }
      ClosedMainStays(Do(s, acts[0]).value, acts[1..], b);
    }
  }

  // ---------- No deadlock, and every call ends ----------

  predicate Enabled(s: State, t: nat) {
    Do(s, Step(t, Succeeds)).Some?
  }

  lemma EnabledOrWaits(s: State, t: nat)
    requires Inv(s) && t < |s.threads|
    ensures var pc := s.threads[t];
            || pc.Rest? || Enabled(s, t)
            || ((pc.WantStart? || pc.WantClose? || pc.WantClient?) && pc.b < |s.insts| && s.insts[pc.b].owner.Some?)
            || ((pc.CloseWantMain? || pc.WantMain? || pc.WantRead?) && s.mainLock.Some?)
  {
    assert ThreadOk(s, t, s.threads[t]);
  }

  /** The lock order, instance before main, admits no deadlock: while a call is unfinished, some goroutine can step. */
  lemma Progress(s: State, t: nat) returns (u: nat)
    requires Inv(s) && t < |s.threads| && !s.threads[t].Rest?
    ensures u < |s.threads| && Enabled(s, u)
  {
    hide Do, Enabled, LockStep, WorkStep;
    EnabledOrWaits(s, t);
    u := t;
    if !Enabled(s, t) && s.mainLock.None? {
      // t waits for an instance whose owner can step
      var b := s.threads[t].b;
      assert InstOk(s, s.insts[b]);
      u := s.insts[b].owner.value;
      assert ThreadOk(s, u, s.threads[u]);
      EnabledOrWaits(s, u);
    } else if !Enabled(s, t) {
      u := s.mainLock.value;
      assert ThreadOk(s, u, s.threads[u]);
      EnabledOrWaits(s, u);
    }
  }

  lemma LockHoldersAreBusy(s: State)
    requires Inv(s)
    ensures s.mainLock.Some? ==> s.mainLock.value < |s.threads| && !s.threads[s.mainLock.value].Rest?
    ensures forall b :: 0 <= b < |s.insts| && s.insts[b].owner.Some? ==>
              s.insts[b].owner.value < |s.threads| && !s.threads[s.insts[b].owner.value].Rest?
  {
    if s.mainLock.Some? {
      assert ThreadOk(s, s.mainLock.value, s.threads[s.mainLock.value]);
    }
    forall b | 0 <= b < |s.insts| && s.insts[b].owner.Some?
      ensures s.insts[b].owner.value < |s.threads| && !s.threads[s.insts[b].owner.value].Rest?
    {
      assert InstOk(s, s.insts[b]);
      assert ThreadOk(s, s.insts[b].owner.value, s.threads[s.insts[b].owner.value]);
    }
  }

  /** When no goroutine can step, every call has returned and every lock is free. */
  lemma {:induction false} StuckMeansDone(instances: nat, threads: nat, acts: seq<Action>)
    requires Exec(Init(instances, threads), acts).Some?
    requires forall t :: 0 <= t < |Exec(Init(instances, threads), acts).value.threads| ==>
               !Enabled(Exec(Init(instances, threads), acts).value, t)
    ensures var s := Exec(Init(instances, threads), acts).value;
            && (forall t :: 0 <= t < |s.threads| ==> s.threads[t].Rest?)
            && s.mainLock.None? && (forall b :: 0 <= b < |s.insts| ==> s.insts[b].owner.None?)
  {
    hide Enabled;
    InitInv(instances, threads);
    InvExec(Init(instances, threads), acts);
    var s := Exec(Init(instances, threads), acts).value;
    forall t | 0 <= t < |s.threads|
      ensures s.threads[t].Rest?
    {
      if !s.threads[t].Rest? {
        var u := Progress(s, t);
      }
    }
    LockHoldersAreBusy(s);
  }

  /** Steps left to a goroutine at `pc`. */
  function Left(pc: Pc): nat {
    match pc
    case Rest => 0
    case WantStart(_) => 4
    case InStart(_) => 3
    case Starting(_) => 2
    case OutStart(_) => 1
    case WantClose(_) => 8
    case InClose(_) => 7
    case CloseWantMain(_) => 6
    case ClearMain(_) => 5
    case StopListener(_) => 4
    case CloseFreeMain(_) => 3
    case CloseBox(_) => 2
    case OutClose(_) => 1
    case WantMain(_) => 5
    case SetMain(_) => 4
    case StopOld(_) => 3
    case Serve(_) => 2
    case OutMain(_) => 1
    case WantClient(_) => 3
    case InClient(_) => 2
    case Building(_) => 1
    case WantRead => 6
    case ReadMain => 5
    case OutRead(_) => 4
  }

  function Rank(pcs: seq<Pc>): nat {
    if pcs == [] then 0 else Left(pcs[0]) + Rank(pcs[1..])
  }

  lemma {:induction false} RankUpdate(pcs: seq<Pc>, t: nat, pc: Pc)
    requires t < |pcs|
    ensures Rank(pcs[t := pc]) == Rank(pcs) - Left(pcs[t]) + Left(pc)
  {
    if t > 0 {
      RankUpdate(pcs[1..], t - 1, pc);
      assert pcs[t := pc][1..] == pcs[1..][t - 1 := pc];
    } else {
      assert pcs[t := pc][1..] == pcs[1..];
    }
  }

  lemma {:induction false} RankAtRest(n: nat)
    ensures Rank(seq(n, _ => Rest)) == 0
  {
    if n > 0 {
      RankAtRest(n - 1);
      assert seq(n, _ => Rest)[1..] == seq(n - 1, _ => Rest);
    }
  }

  /** From s to s' only goroutine t moved. */
  predicate Moved(s: State, s': State, t: nat)
    requires t < |s.threads|
  {
    |s'.threads| == |s.threads| && s'.threads == s.threads[t := s'.threads[t]]
  }

  lemma LockLeft(s: State, t: nat)
    requires t < |s.threads| && (PcInst(s.threads[t]).Some? ==> PcInst(s.threads[t]).value < |s.insts|)
    requires LockStep(s, t).Some?
    ensures Moved(s, LockStep(s, t).value, t) && Left(LockStep(s, t).value.threads[t]) + 1 <= Left(s.threads[t])
  {
  }

  lemma WorkLeft(s: State, t: nat, choice: Choice)
    requires t < |s.threads| && (PcInst(s.threads[t]).Some? ==> PcInst(s.threads[t]).value < |s.insts|)
    requires WorkStep(s, t, choice).Some?
    ensures Moved(s, WorkStep(s, t, choice).value, t)
    ensures Left(WorkStep(s, t, choice).value.threads[t]) + 1 <= Left(s.threads[t])
  {
  }

  lemma StepLeft(s: State, a: Action)
    requires Do(s, a).Some?
    ensures a.t < |s.threads| && Moved(s, Do(s, a).value, a.t)
    ensures var was, now := Left(s.threads[a.t]), Left(Do(s, a).value.threads[a.t]);
            if a.Begin? then was == 0 && now <= 8 else now + 1 <= was
  {
    hide LockStep, WorkStep;
    if a.Step? && LockStep(s, a.t).Some? {
      LockLeft(s, a.t);
    } else if a.Step? {
      WorkLeft(s, a.t, a.choice);
    }
  }

  function Begins(acts: seq<Action>): nat {
    if acts == [] then 0 else (if acts[0].Begin? then 1 else 0) + Begins(acts[1..])
  }

  lemma {:induction false} RankExec(s: State, acts: seq<Action>)
    requires Exec(s, acts).Some?
    ensures |acts| - Begins(acts) + Rank(Exec(s, acts).value.threads) <= Rank(s.threads) + 8 * Begins(acts)
    decreases |acts|
  {
    hide Do;
    if acts != [] {
      var s' := Do(s, acts[0]).value;
      StepLeft(s, acts[0]);
      RankUpdate(s.threads, acts[0].t, s'.threads[acts[0].t]);
      RankExec(s', acts[1..]);
    }
  }

  /** A call takes at most eight steps of its goroutine, so a run with finitely many calls ends. */
  lemma {:induction false} RunsAreFinite(instances: nat, threads: nat, acts: seq<Action>)
    requires Exec(Init(instances, threads), acts).Some?
    ensures |acts| <= 9 * Begins(acts)
  {
    RankExec(Init(instances, threads), acts);
    RankAtRest(threads);
    assert Init(instances, threads).threads == seq(threads, _ => Rest);
  }
}
