/**
  The request race of `doH3Direct`: n goroutines race, the first 200 response is
  handed over an unbuffered channel, every other body is closed by the goroutine
  that obtained it. The race is a step relation over program counters; one action
  is one atomic operation of one goroutine, and an execution is any list of
  enabled actions.
 */
module HttpRace {
  import opened Common

  // ---------- State ----------

  /** Program points of one racing goroutine. */
  datatype Pc =
    | Unborn                        // its `go` statement has not run yet
    | Running                       // inside f(reqCtx)
    | JoinFailure(withBody: bool)   // f failed, possibly with a response attached
    | CloseFailed                   // closing the body that came with the error
    | ReadStatus                    // not 200: errorString reads and closes the body
    | JoinStatus
    | Score                         // 200: about to add to successCount
    | CloseLoser                    // not the first success
    | Offering                      // first success, entering the select
    | Parked                        // first success, blocked in the select
    | CloseLate                     // the select took waitCtx.Done()
    | LoadSuccess                   // deferred check: load successCount
    | AddFailed                     // deferred check: it was 0, add to failedCount
    | Wake                          // deferred check: all failed, call waitCancel
    | Finished

  /**
    `closes` counts calls of Body.Close by the goroutine, `sends` counts hand-overs
    of its response; `scored` and `counted` record that it added to successCount and
    to failedCount, `joined` that its error is in finalErr, `cancelled` that its
    request context was cancelled.
   */
  datatype Racer = Racer(pc: Pc, got: bool, closes: nat, sends: nat,
                         scored: bool, counted: bool, joined: bool, cancelled: bool)

  datatype Reason = Canceled | DeadlineExceeded

  datatype RaceError = Joined(from: set<nat>) | FromContext(reason: Reason)

  /** What doH3Direct returns; None is Go's nil. */
  datatype Outcome = Outcome(response: Option<nat>, err: Option<RaceError>)

  datatype MainPc =
    | Spawn(next: nat)
    | Wait
    | Recheck                             // waitCtx done: the non-blocking receive
    | CancelLosers(winner: nat, next: nat)
    | CancelAll(next: nat)
    | ReadError
    | Leave(out: Outcome)                 // before the deferred waitCancel
    | Returned(out: Outcome)

  /**
    What the goroutines share. `leader` and `last` are history variables: whose
    successCount.Add(1) returned 1, and whose failedCount.Add(1) returned n.
   */
  datatype Shared = Shared(successes: nat, failures: nat, wait: Option<Reason>, main: MainPc,
                           leader: Option<nat>, last: Option<nat>, callerCloses: nat, hookRuns: nat)

  datatype Race = Race(racers: seq<Racer>, g: Shared)

  /** What f returned: a panic inside f, an error, a non-200 status or a 200 response. */
  datatype Reply = Panic | Fail(withBody: bool) | BadStatus | Good

  datatype Action =
    | Launch                     // the spawning loop starts the next goroutine
    | Respond(i: nat, reply: Reply)
    | Advance(i: nat)            // next atomic operation of goroutine i
    | Abandon(i: nat)            // its select takes waitCtx.Done()
    | Handover(i: nat)           // rendezvous on successCh
    | Deadline                   // waitCtx times out
    | MainDone                   // the outer select takes waitCtx.Done()
    | MainDefault                // the inner select takes default
    | MainStep                   // next atomic operation of the caller's goroutine
    | CallerClose                // the caller closes the returned body

  function Init(n: nat): Race {
    Race(seq(n, i => Racer(Unborn, false, 0, 0, false, false, false, false)),
         Shared(0, 0, None, Spawn(0), None, None, 0, 0))
  }

  // ---------- Transitions ----------

  function Inc32(x: nat): nat { (x + 1) % TWO32 }

  /** A context keeps the first reason it was cancelled for. */
  function Cancel(w: Option<Reason>, r: Reason): Option<Reason> {
    if w.Some? then w else Some(r)
  }

  function AfterReply(r: Racer, reply: Reply): Racer {
    match reply
    case Panic => r.(pc := LoadSuccess)
    case Fail(b) => r.(pc := JoinFailure(b), got := b)
    case BadStatus => r.(pc := ReadStatus, got := true)
    case Good => r.(pc := Score, got := true)
  }

  /** The next atomic operation of goroutine i out of n, None where it is not runnable. */
  function AdvanceRacer(n: nat, g: Shared, i: nat, r: Racer): Option<(Racer, Shared)> {
    match r.pc
    case JoinFailure(b) => Some((r.(pc := if b then CloseFailed else LoadSuccess, joined := true), g))
    case CloseFailed => Some((r.(pc := LoadSuccess, closes := r.closes + 1), g))
    case ReadStatus => Some((r.(pc := JoinStatus, closes := r.closes + 1), g))
    case JoinStatus => Some((r.(pc := LoadSuccess, joined := true), g))
    case Score =>
      var count := Inc32(g.successes);
      Some((r.(pc := if count == 1 then Offering else CloseLoser, scored := true),
            g.(successes := count, leader := if count == 1 then Some(i) else g.leader)))
    case CloseLoser => Some((r.(pc := LoadSuccess, closes := r.closes + 1), g))
    case Offering => Some((r.(pc := Parked), g))
    case CloseLate => Some((r.(pc := LoadSuccess, closes := r.closes + 1), g))
    case LoadSuccess => Some((r.(pc := if g.successes == 0 then AddFailed else Finished), g))
    case AddFailed =>
      var count := Inc32(g.failures);
      Some((r.(pc := if count >= n then Wake else Finished, counted := true),
            g.(failures := count, last := if count >= n then Some(i) else g.last)))
    case Wake => Some((r.(pc := Finished), g.(wait := Cancel(g.wait, Canceled))))
    case _ => None
  }

  function Put(s: Race, i: nat, r: Racer, g: Shared): Race
    requires i < |s.racers|
  {
    Race(s.racers[i := r], g)
  }

  function JoinedSet(rs: seq<Racer>): set<nat> {
    set i | 0 <= i < |rs| && rs[i].joined
  }

  /** The error of the failing return: finalErr, or waitCtx.Err() when finalErr is nil. */
  function FinalError(s: Race): Option<RaceError> {
    if JoinedSet(s.racers) != {} then Some(Joined(JoinedSet(s.racers)))
    else match s.g.wait case Some(r) => Some(FromContext(r)) case None => None
  }

  function CancelRacer(s: Race, i: nat, g: Shared): Race
    requires i < |s.racers|
  {
    Put(s, i, s.racers[i].(cancelled := true), g)
  }

  function MainAdvance(s: Race): Option<Race> {
    var g := s.g;
    match g.main
    case CancelLosers(w, j) =>
      if j < |s.racers| then
        var g' := g.(main := CancelLosers(w, j + 1));
        Some(if j != w then CancelRacer(s, j, g') else s.(g := g'))
      else Some(s.(g := g.(main := Leave(Outcome(Some(w), None)))))
    case CancelAll(j) =>
      if j < |s.racers| then Some(CancelRacer(s, j, g.(main := CancelAll(j + 1))))
      else Some(s.(g := g.(main := ReadError)))
    case ReadError => Some(s.(g := g.(main := Leave(Outcome(None, FinalError(s))))))
    case Leave(out) => Some(s.(g := g.(main := Returned(out), wait := Cancel(g.wait, Canceled))))
    case _ => None
  }

  function LaunchStep(s: Race): Option<Race> {
    if !s.g.main.Spawn? then None
    else if s.g.main.next < |s.racers| then
      var k := s.g.main.next;
      Some(Put(s, k, s.racers[k].(pc := Running), s.g.(main := Spawn(k + 1))))
    else Some(s.(g := s.g.(main := Wait)))
  }

  /** The leader offers its response in the select of its goroutine. */
  predicate InSelect(r: Racer) { r.pc.Offering? || r.pc.Parked? }

  function HandoverStep(s: Race, i: nat): Option<Race> {
    if i < |s.racers| && InSelect(s.racers[i]) && (s.g.main.Wait? || s.g.main.Recheck?) then
      var r := s.racers[i];
      Some(Put(s, i, r.(pc := LoadSuccess, sends := r.sends + 1), s.g.(main := CancelLosers(i, 0))))
    else None
  }

  /** bodyCloseHook.Close: close the wrapped body, run the hook the first time only. */
  function CallerCloseStep(s: Race): Option<Race> {
    var g := s.g;
    if g.main.Returned? && g.main.out.response.Some? && g.main.out.response.value < |s.racers| then
      var g' := g.(callerCloses := g.callerCloses + 1);
      Some(if g.hookRuns == 0
           then CancelRacer(s, g.main.out.response.value, g'.(hookRuns := 1)) else s.(g := g'))
    else None
  }

  predicate SomeoneParked(s: Race) {
    exists i :: 0 <= i < |s.racers| && s.racers[i].pc.Parked?
  }

  function Step(s: Race, a: Action): Option<Race> {
    match a
    case Launch => LaunchStep(s)
    case Respond(i, reply) =>
      if i < |s.racers| && s.racers[i].pc.Running?
      then Some(Put(s, i, AfterReply(s.racers[i], reply), s.g)) else None
    case Advance(i) =>
      if i >= |s.racers| then None
      else (match AdvanceRacer(|s.racers|, s.g, i, s.racers[i])
            case None => None
            case Some(p) => Some(Put(s, i, p.0, p.1)))
    case Abandon(i) =>
      if i < |s.racers| && InSelect(s.racers[i]) && s.g.wait.Some?
      then Some(Put(s, i, s.racers[i].(pc := CloseLate), s.g)) else None
    case Handover(i) => HandoverStep(s, i)
    case Deadline =>
      if s.g.wait.None? then Some(s.(g := s.g.(wait := Some(DeadlineExceeded)))) else None
    case MainDone =>
      if s.g.main.Wait? && s.g.wait.Some? then Some(s.(g := s.g.(main := Recheck))) else None
    case MainDefault =>
      if s.g.main.Recheck? && !SomeoneParked(s) then Some(s.(g := s.g.(main := CancelAll(0)))) else None
    case MainStep => MainAdvance(s)
    case CallerClose => CallerCloseStep(s)
  }

  /** Runs a list of actions; None as soon as one of them is not enabled. */
  function Exec(s: Race, acts: seq<Action>): Option<Race>
    decreases |acts|
  {
    if acts == [] then Some(s)
    else match Step(s, acts[0])
         case None => None
         case Some(t) => Exec(t, acts[1..])
  }

  // ---------- The invariant ----------

  function Scored(rs: seq<Racer>): set<nat> {
    set i | 0 <= i < |rs| && rs[i].scored
  }

  function Counted(rs: seq<Racer>): set<nat> {
    set i | 0 <= i < |rs| && rs[i].counted
  }

  /** The goroutine still owes its response body a close or a hand-over. */
  predicate Owes(pc: Pc) {
    || (pc.JoinFailure? && pc.withBody) || pc.CloseFailed? || pc.ReadStatus? || pc.Score?
    || pc.CloseLoser? || pc.Offering? || pc.Parked? || pc.CloseLate?
  }

  predicate RacerOk(r: Racer) {
    && (Owes(r.pc) ==> r.got && r.closes == 0 && r.sends == 0)
    && (!Owes(r.pc) && r.got ==> r.closes + r.sends == 1)
    && (!r.got ==> r.closes == 0 && r.sends == 0)
    && (r.pc.Unborn? || r.pc.Running? ==> !r.got && !r.scored)
    && (r.pc.JoinFailure? || r.pc.CloseFailed? || r.pc.ReadStatus? || r.pc.JoinStatus? ==> !r.scored)
    && (r.pc.Score? || r.pc.AddFailed? || r.pc.Wake? ==> !r.scored)
    && (r.pc.CloseLoser? || r.pc.Offering? || r.pc.Parked? || r.pc.CloseLate? ==> r.scored)
    && (r.sends > 0 ==> r.scored)
    && (r.counted ==> !r.scored && (r.pc.Wake? || r.pc.Finished?))
    && (r.pc.Wake? ==> r.counted)
  }

  /** The index whose response the caller's goroutine holds, if any. */
  function Winner(m: MainPc): Option<nat> {
    match m
    case CancelLosers(w, _) => Some(w)
    case Leave(out) => out.response
    case Returned(out) => out.response
    case _ => None
  }

  /** Which request contexts are cancelled at each point of the caller's goroutine. */
  predicate ContextOk(g: Shared, i: nat, r: Racer) {
    && (r.pc.Unborn? <==> g.main.Spawn? && g.main.next <= i)
    && match g.main
       case CancelLosers(w, j) => r.cancelled <==> i < j && i != w
       case CancelAll(j) => r.cancelled <==> i < j
       case ReadError => r.cancelled
       case Leave(out) => r.cancelled <==> out.response != Some(i)
       case Returned(out) => r.cancelled <==> out.response != Some(i) || g.callerCloses > 0
       case _ => !r.cancelled
  }

  /** What holds of goroutine i in every reachable state. */
  predicate Local(n: nat, g: Shared, i: nat, r: Racer) {
    && RacerOk(r)
    && ContextOk(g, i, r)
    && (r.sends > 0 <==> Winner(g.main) == Some(i))
    && (r.scored ==> g.successes > 0)
    && (InSelect(r) || r.pc.CloseLate? || r.sends > 0 ==> g.leader == Some(i))
    && (r.pc.CloseLoser? ==> g.leader != Some(i))
    && (g.leader == Some(i) ==>
          r.scored && (r.sends == 0 && (r.pc.CloseLate? || !Owes(r.pc)) ==> g.wait.Some?))
    && (r.pc.Wake? ==> g.failures == n)
    && (g.last == Some(i) ==> r.pc.Wake? || (r.pc.Finished? && g.wait.Some?))
    && (r.pc.Finished? && !r.counted ==> g.successes > 0)
  }

  /** What holds of the shared variables in every reachable state. */
  predicate Global(n: nat, g: Shared) {
    && (g.leader.Some? <==> g.successes > 0)
    && (g.leader.Some? ==> g.leader.value < n)
    && (g.failures == n ==> g.last.Some? && g.last.value < n)
    && (g.wait == Some(Canceled) && !g.main.Returned? ==> g.failures == n)
    && (g.callerCloses > 0 ==> g.main.Returned?)
    && g.hookRuns == (if g.callerCloses > 0 then 1 else 0)
    && (Winner(g.main).Some? ==> Winner(g.main).value < n)
    && match g.main
       case Spawn(k) => k <= n
       case Recheck => g.wait.Some?
       case CancelLosers(w, j) => j <= n
       case CancelAll(j) => g.wait.Some? && j <= n
       case ReadError => g.wait.Some?
       case Leave(out) => out.response.Some? <==> out.err.None?
       case Returned(out) => (out.response.Some? <==> out.err.None?) && g.wait.Some?
       case _ => true
  }

  ghost predicate Inv(s: Race) {
    && 1 <= |s.racers| < TWO32
    && Global(|s.racers|, s.g)
    && (forall i :: 0 <= i < |s.racers| ==> Local(|s.racers|, s.g, i, s.racers[i]))
    && s.g.successes == |Scored(s.racers)|
    && s.g.failures == |Counted(s.racers)|
  }

  // ---------- Termination measure ----------

  function PcRank(pc: Pc): nat {
    match pc
    case Unborn => 9
    case Running => 8
    case JoinFailure(_) => 7
    case ReadStatus => 7
    case Score => 7
    case CloseFailed => 6
    case JoinStatus => 6
    case Offering => 6
    case CloseLoser => 5
    case Parked => 5
    case CloseLate => 4
    case LoadSuccess => 3
    case AddFailed => 2
    case Wake => 1
    case Finished => 0
  }

  function SumRank(rs: seq<Racer>): nat {
    if rs == [] then 0 else PcRank(rs[0].pc) + SumRank(rs[1..])
  }

  function MainRank(n: nat, m: MainPc): int {
    match m
    case Spawn(k) => 2 * n + 7 - k
    case Wait => n + 6
    case Recheck => n + 5
    case CancelLosers(_, j) => n + 2 - j
    case CancelAll(j) => n + 3 - j
    case ReadError => 2
    case Leave(_) => 1
    case Returned(_) => 0
  }

  function Rank(s: Race): int {
    SumRank(s.racers) + MainRank(|s.racers|, s.g.main) + (if s.g.wait.None? then 1 else 0)
  }

  /** Every goroutine has ended and doH3Direct has returned. */
  predicate Final(s: Race) {
    s.g.main.Returned? && forall i :: 0 <= i < |s.racers| ==> s.racers[i].pc.Finished?
  }
}
