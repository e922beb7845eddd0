/** What the race returns against what the requests returned. */
module HttpRaceReplies {
  import opened Common
  import opened HttpRace
  import opened HttpRaceProof

  /** What request i returned in the run, if it has. */
  function ReplyTo(acts: seq<Action>, i: nat): Option<Reply> {
    if acts == [] then None
    else if acts[0].Respond? && acts[0].i == i then Some(acts[0].reply)
    else ReplyTo(acts[1..], i)
  }

  predicate Ending(pc: Pc) { pc.LoadSuccess? || pc.AddFailed? || pc.Wake? || pc.Finished? }

  /** Where a goroutine can be, and what it has recorded, given what its request returned. */
  predicate Follows(r: Racer, rep: Option<Reply>) {
    match rep
    case None => (r.pc.Unborn? || r.pc.Running?) && !r.joined && !r.scored
    case Some(Panic) => Ending(r.pc) && !r.joined && !r.scored
    case Some(Fail(b)) =>
      !r.scored && if r.joined then Ending(r.pc) || (b && r.pc.CloseFailed?) else r.pc == JoinFailure(b)
    case Some(BadStatus) => !r.scored && if r.joined then Ending(r.pc) else r.pc.ReadStatus? || r.pc.JoinStatus?
    case Some(Good) =>
      && !r.joined
      && if r.scored then r.pc.CloseLoser? || r.pc.Offering? || r.pc.Parked? || r.pc.CloseLate? || Ending(r.pc)
         else r.pc.Score?
  }

  lemma FollowsAdvance(n: nat, g: Shared, i: nat, r: Racer, rep: Option<Reply>)
    requires Follows(r, rep) && AdvanceRacer(n, g, i, r).Some?
    ensures Follows(AdvanceRacer(n, g, i, r).value.0, rep)
  {
    match r.pc
    case JoinFailure(_) =>
    case CloseFailed =>
    case ReadStatus =>
    case JoinStatus =>
    case Score =>
    case CloseLoser =>
    case Offering =>
    case CloseLate =>
    case LoadSuccess =>
    case AddFailed =>
    case Wake =>
  }

  lemma FollowsMain(s: Race, i: nat, rep: Option<Reply>)
    requires i < |s.racers| && Follows(s.racers[i], rep) && MainAdvance(s).Some?
    ensures |MainAdvance(s).value.racers| == |s.racers| && Follows(MainAdvance(s).value.racers[i], rep)
  {
    hide MainAdvance, Follows;
    MainFrames(s);
    FollowsCancelled(s.racers[i], rep, MainAdvance(s).value.racers[i].cancelled);
  }

  lemma FollowsCancelled(r: Racer, rep: Option<Reply>, c: bool)
    requires Follows(r, rep)
    ensures Follows(r.(cancelled := c), rep)
  {
  }

  lemma FollowsLaunch(s: Race, i: nat, rep: Option<Reply>)
    requires Inv(s) && i < |s.racers| && Follows(s.racers[i], rep) && LaunchStep(s).Some?
    ensures |LaunchStep(s).value.racers| == |s.racers| && Follows(LaunchStep(s).value.racers[i], rep)
  {
    assert Local(|s.racers|, s.g, i, s.racers[i]);
  }

  lemma FollowsRest(s: Race, a: Action, i: nat, rep: Option<Reply>)
    requires i < |s.racers| && Follows(s.racers[i], rep) && Step(s, a).Some?
    requires !a.Advance? && !a.MainStep? && !a.Launch?
    ensures |Step(s, a).value.racers| == |s.racers|
    ensures a.Respond? && a.i == i ==> rep.None?
    ensures Follows(Step(s, a).value.racers[i], if a.Respond? && a.i == i then Some(a.reply) else rep)
  {
  }

  lemma FollowsStep(s: Race, a: Action, i: nat, rep: Option<Reply>)
    requires Inv(s) && i < |s.racers| && Follows(s.racers[i], rep) && Step(s, a).Some?
    ensures |Step(s, a).value.racers| == |s.racers|
    ensures a.Respond? && a.i == i ==> rep.None?
    ensures Follows(Step(s, a).value.racers[i], if a.Respond? && a.i == i then Some(a.reply) else rep)
  {
    if a.Advance? {
      hide AdvanceRacer, Follows, Inv;
      if a.i == i {
        FollowsAdvance(|s.racers|, s.g, i, s.racers[i], rep);
      }
    } else if a.MainStep? {
      hide MainAdvance, Follows, Inv;
      FollowsMain(s, i, rep);
    } else if a.Launch? {
      hide LaunchStep, Follows, Inv;
      FollowsLaunch(s, i, rep);
    } else {
      hide Step, Follows, Inv;
      FollowsRest(s, a, i, rep);
    }
  }

  lemma {:induction false} FollowsExec(s: Race, acts: seq<Action>, i: nat, rep: Option<Reply>)
    requires Inv(s) && i < |s.racers| && Follows(s.racers[i], rep) && Exec(s, acts).Some?
    ensures |Exec(s, acts).value.racers| == |s.racers|
    ensures Follows(Exec(s, acts).value.racers[i], if rep.Some? then rep else ReplyTo(acts, i))
    ensures forall x :: Respond(i, x) in acts ==> rep.None? && ReplyTo(acts, i) == Some(x)
    decreases |acts|
  {
    hide Step, Follows, Inv;
    if acts != [] {
      var a := acts[0];
      FollowsStep(s, a, i, rep);
      InvStep(s, a);
      FollowsExec(Step(s, a).value, acts[1..], i, if a.Respond? && a.i == i then Some(a.reply) else rep);
      assert forall x :: Respond(i, x) in acts ==> a == Respond(i, x) || Respond(i, x) in acts[1..];
    }
  }

  lemma {:induction false} ReplyIsIn(acts: seq<Action>, i: nat)
    ensures ReplyTo(acts, i).Some? ==> Respond(i, ReplyTo(acts, i).value) in acts
  {
    if acts != [] && ReplyTo(acts, i).Some? && !(acts[0].Respond? && acts[0].i == i) {
      ReplyIsIn(acts[1..], i);
    }
  }

  lemma {:induction false} RaceFollows(n: nat, acts: seq<Action>, i: nat)
    requires i < n < TWO32 && Exec(Init(n), acts).Some?
    ensures |Exec(Init(n), acts).value.racers| == n
    ensures Follows(Exec(Init(n), acts).value.racers[i], ReplyTo(acts, i))
    ensures forall x :: Respond(i, x) in acts <==> ReplyTo(acts, i) == Some(x)
  {
    InitInv(n);
    FollowsExec(Init(n), acts, i, None);
    ReplyIsIn(acts, i);
  }

  /**
    A goroutine that has ended has scored exactly if its request returned a 200 response, and its error
    is in finalErr exactly if the request failed or returned another status.
   */
  lemma {:induction false} EndedAsReplied(n: nat, acts: seq<Action>, i: nat)
    requires i < n < TWO32 && Exec(Init(n), acts).Some?
    ensures |Exec(Init(n), acts).value.racers| == n
    ensures var r := Exec(Init(n), acts).value.racers[i];
            r.pc.Finished? ==>
              && (r.scored <==> Respond(i, Good) in acts)
              && (r.joined <==> Respond(i, BadStatus) in acts || exists b :: Respond(i, Fail(b)) in acts)
  {
    RaceFollows(n, acts, i);
    var r := Exec(Init(n), acts).value.racers[i];
    if r.pc.Finished? && r.joined && ReplyTo(acts, i) != Some(BadStatus) {
      assert Respond(i, Fail(ReplyTo(acts, i).value.withBody)) in acts;
    }
  }

  /** A response that is returned is a 200 response of the request it is attributed to. */
  lemma {:induction false} ReturnedIsGood(n: nat, acts: seq<Action>)
    requires 1 <= n < TWO32 && Exec(Init(n), acts).Some? && Exec(Init(n), acts).value.g.main.Returned?
    ensures var out := Exec(Init(n), acts).value.g.main.out;
            out.response.Some? ==> out.response.value < n && Respond(out.response.value, Good) in acts
  {
    ReturnedOutcome(n, acts);
    var s := Exec(Init(n), acts).value;
    if s.g.main.out.response.Some? {
      var i := s.g.main.out.response.value;
      InitInv(n);
      InvExec(Init(n), acts);
      assert Local(n, s.g, i, s.racers[i]);
      RaceFollows(n, acts, i);
    }
  }

  // ---------- Errors ----------

  /** The failing return has been chosen. */
  predicate GaveUp(m: MainPc) {
    m.CancelAll? || m.ReadError? || (m.Leave? && m.out.response.None?) || (m.Returned? && m.out.response.None?)
  }

  /** The returned error, if any yet. */
  function ErrorOf(m: MainPc): Option<RaceError> {
    match m
    case Leave(out) => out.err
    case Returned(out) => out.err
    case _ => None
  }

  /** The error names only goroutines whose error is in finalErr. */
  predicate ErrorOk(s: Race) {
    ErrorOf(s.g.main).Some? && ErrorOf(s.g.main).value.Joined? ==>
      ErrorOf(s.g.main).value.from <= JoinedSet(s.racers)
  }

  /** What the failing return reports. */
  function Report(joined: set<nat>): RaceError {
    if joined != {} then Joined(joined) else FromContext(Canceled)
  }

  /** Without a deadline: the race gives up only when all have failed, and then reports every one of them. */
  predicate Undisturbed(s: Race) {
    && s.g.wait != Some(DeadlineExceeded)
    && (GaveUp(s.g.main) ==> s.g.failures == |s.racers|)
    && (GaveUp(s.g.main) && ErrorOf(s.g.main).Some? ==> ErrorOf(s.g.main) == Some(Report(JoinedSet(s.racers))))
  }

  lemma JoinedGrows(s: Race, a: Action, i: nat)
    requires Step(s, a).Some? && i < |s.racers| && s.racers[i].joined
    ensures |Step(s, a).value.racers| == |s.racers| && Step(s, a).value.racers[i].joined
  {
    if a.MainStep? {
      MainFrames(s);
    }
  }

  lemma ErrorSet(s: Race, a: Action)
    requires Step(s, a).Some? && ErrorOk(s) && ErrorOf(s.g.main) == ErrorOf(Step(s, a).value.g.main)
    ensures ErrorOk(Step(s, a).value)
  {
    var t := Step(s, a).value;
    hide Step;
    if ErrorOf(t.g.main).Some? && ErrorOf(t.g.main).value.Joined? {
      forall i | i in ErrorOf(t.g.main).value.from
        ensures i in JoinedSet(t.racers)
      {
        assert i in JoinedSet(s.racers);
        JoinedGrows(s, a, i);
      }
    }
  }

  lemma ErrorStep(s: Race, a: Action)
    requires Step(s, a).Some? && ErrorOk(s)
    ensures ErrorOk(Step(s, a).value)
  {
    if ErrorOf(s.g.main) == ErrorOf(Step(s, a).value.g.main) {
      ErrorSet(s, a);
    }
  }

  lemma {:induction false} ErrorExec(s: Race, acts: seq<Action>)
    requires ErrorOk(s) && Exec(s, acts).Some?
    ensures ErrorOk(Exec(s, acts).value)
    decreases |acts|
  {
    hide Step, ErrorOk;
    if acts != [] {
      ErrorStep(s, acts[0]);
      ErrorExec(Step(s, acts[0]).value, acts[1..]);
    }
  }

  /** A joined error that is returned names only requests that failed or returned another status. */
  lemma {:induction false} ErrorsAreReplies(n: nat, acts: seq<Action>, i: nat)
    requires n < TWO32 && Exec(Init(n), acts).Some?
    requires ErrorOf(Exec(Init(n), acts).value.g.main).Some? && ErrorOf(Exec(Init(n), acts).value.g.main).value.Joined?
    requires i in ErrorOf(Exec(Init(n), acts).value.g.main).value.from
    ensures i < n && (Respond(i, BadStatus) in acts || exists b :: Respond(i, Fail(b)) in acts)
  {
    ErrorExec(Init(n), acts);
    SameRacers(Init(n), acts);
    RaceFollows(n, acts, i);
    if ReplyTo(acts, i) != Some(BadStatus) {
      assert Respond(i, Fail(ReplyTo(acts, i).value.withBody)) in acts;
    }
  }

  lemma {:induction false} SameRacers(s: Race, acts: seq<Action>)
    requires Exec(s, acts).Some?
    ensures |Exec(s, acts).value.racers| == |s.racers|
    decreases |acts|
  {
    if acts != [] {
      SameRacersStep(s, acts[0]);
      SameRacers(Step(s, acts[0]).value, acts[1..]);
    }
  }

  lemma SameRacersStep(s: Race, a: Action)
    requires Step(s, a).Some?
    ensures |Step(s, a).value.racers| == |s.racers|
  {
  }

  // ---------- Without a deadline ----------

  /** Once all have failed nobody scores and nobody's error is still to be joined. */
  lemma AllFailed(s: Race, i: nat)
    requires Inv(s) && s.g.failures == |s.racers| && i < |s.racers|
    ensures s.racers[i].counted && !s.racers[i].scored && (s.racers[i].pc.Wake? || s.racers[i].pc.Finished?)
  {
    CountsBounded(s.racers);
    assert Local(|s.racers|, s.g, i, s.racers[i]);
  }

  lemma FailuresStay(s: Race, a: Action)
    requires Inv(s) && Step(s, a).Some? && s.g.failures == |s.racers|
    ensures Step(s, a).value.g.failures == |s.racers| && JoinedSet(Step(s, a).value.racers) == JoinedSet(s.racers)
  {
    var t := Step(s, a).value;
    forall i | 0 <= i < |s.racers|
      ensures s.racers[i].counted && (s.racers[i].pc.Wake? || s.racers[i].pc.Finished?)
    {
      AllFailed(s, i);
    }
    hide Inv;
    if a.MainStep? {
      MainFrames(s);
      assert forall i :: 0 <= i < |s.racers| ==> t.racers[i].joined == s.racers[i].joined;
    } else {
      assert |t.racers| == |s.racers|;
      assert forall i :: 0 <= i < |s.racers| ==> t.racers[i].joined == s.racers[i].joined;
    }
  }

  /** How the caller's place and its error change once it has given up. */
  lemma GivenUp(s: Race, a: Action)
    requires Inv(s) && Step(s, a).Some? && !a.Deadline? && s.g.wait != Some(DeadlineExceeded)
    ensures Step(s, a).value.g.wait != Some(DeadlineExceeded)
    ensures var t := Step(s, a).value;
            GaveUp(t.g.main) ==>
              if GaveUp(s.g.main)
              then ErrorOf(t.g.main) == ErrorOf(s.g.main) || ErrorOf(t.g.main) == Some(Report(JoinedSet(s.racers)))
              else s.g.failures == |s.racers| && ErrorOf(t.g.main).None?
  {
    hide Local;
    Reasons(s.g.wait);
    match a
    case MainStep =>
      match s.g.main {
        case CancelAll(_) =>
        case _ =>
      }
    case _ =>
  }

  lemma Reasons(w: Option<Reason>)
    ensures w == None || w == Some(Canceled) || w == Some(DeadlineExceeded)
  {
    match w
    case None =>
    case Some(Canceled) =>
    case Some(DeadlineExceeded) =>
  }

  lemma UndisturbedStep(s: Race, a: Action)
    requires Inv(s) && Undisturbed(s) && Step(s, a).Some? && !a.Deadline?
    ensures Undisturbed(Step(s, a).value)
  {
    GivenUp(s, a);
    SameRacersStep(s, a);
    if s.g.failures == |s.racers| {
      FailuresStay(s, a);
    }
    hide Step, Inv, Report, JoinedSet;
  }

  lemma {:induction false} UndisturbedExec(s: Race, acts: seq<Action>)
    requires Inv(s) && Undisturbed(s) && Exec(s, acts).Some? && Deadline !in acts
    ensures Undisturbed(Exec(s, acts).value)
    decreases |acts|
  {
    hide Step, Inv, Undisturbed;
    if acts != [] {
      UndisturbedStep(s, acts[0]);
      InvStep(s, acts[0]);
      UndisturbedExec(Step(s, acts[0]).value, acts[1..]);
    }
  }

  /**
    Without a deadline the race returns a response if and only if some request returned a 200 response;
    otherwise it reports exactly the requests that failed or returned another status.
   */
  lemma {:induction false} SucceedsIffSomeGood(n: nat, acts: seq<Action>)
    requires 1 <= n < TWO32 && Exec(Init(n), acts).Some? && Exec(Init(n), acts).value.g.main.Returned?
    requires Deadline !in acts
    ensures var out := Exec(Init(n), acts).value.g.main.out;
            && (out.response.Some? <==> exists i: nat :: i < n && Respond(i, Good) in acts)
            && (out.response.None? ==>
                  exists joined: set<nat> ::
                    && out.err == Some(Report(joined))
                    && forall i: nat :: i in joined <==>
                         i < n && (Respond(i, BadStatus) in acts || exists b :: Respond(i, Fail(b)) in acts))
  {
    ReturnedIsGood(n, acts);
    ReturnedOutcome(n, acts);
    InitInv(n);
    InvExec(Init(n), acts);
    UndisturbedExec(Init(n), acts);
    var s := Exec(Init(n), acts).value;
    if s.g.main.out.response.None? {
      forall i: nat | i < n
        ensures Respond(i, Good) !in acts
        ensures i in JoinedSet(s.racers) <==> Respond(i, BadStatus) in acts || exists b :: Respond(i, Fail(b)) in acts
      {
        GaveUpReplies(n, acts, i);
      }
      assert s.g.main.out.err == Some(Report(JoinedSet(s.racers)));
    }
  }

  lemma {:induction false} GaveUpReplies(n: nat, acts: seq<Action>, i: nat)
    requires 1 <= n < TWO32 && i < n && Exec(Init(n), acts).Some? && Inv(Exec(Init(n), acts).value)
    requires Exec(Init(n), acts).value.g.failures == n == |Exec(Init(n), acts).value.racers|
    ensures Respond(i, Good) !in acts
    ensures i in JoinedSet(Exec(Init(n), acts).value.racers)
            <==> Respond(i, BadStatus) in acts || exists b :: Respond(i, Fail(b)) in acts
  {
    var s := Exec(Init(n), acts).value;
    AllFailed(s, i);
    RaceFollows(n, acts, i);
    hide Inv, Exec;
    if s.racers[i].joined && ReplyTo(acts, i) != Some(BadStatus) {
      assert Respond(i, Fail(ReplyTo(acts, i).value.withBody)) in acts;
    }
  }

  // ---------- Closing the returned body ----------

  function CloseTimes(k: nat): seq<Action> { seq(k, _ => CallerClose) }

  /** Closing the body of the winner any number of times: each closes it, only the first cancels its request. */
  lemma {:induction false} CloseCancelsOnce(s: Race, k: nat)
    requires s.g.main.Returned? && s.g.main.out.response.Some? && s.g.main.out.response.value < |s.racers|
    requires s.g.hookRuns <= 1
    ensures var w := s.g.main.out.response.value;
            Exec(s, CloseTimes(k))
            == Some(if k == 0 then s
                    else Race(if s.g.hookRuns == 1 then s.racers
                              else s.racers[w := s.racers[w].(cancelled := true)],
                              s.g.(callerCloses := s.g.callerCloses + k, hookRuns := 1)))
    decreases k
  {
    if k > 0 {
      var t := Step(s, CallerClose).value;
      assert CloseTimes(k)[1..] == CloseTimes(k - 1);
      CloseCancelsOnce(t, k - 1);
      assert t.g == s.g.(callerCloses := s.g.callerCloses + 1, hookRuns := 1);
    }
  }

  /** At the second look the caller gives up exactly if no goroutine is parked on the channel, else it can receive. */
  lemma SecondLook(s: Race)
    requires s.g.main.Recheck?
    ensures Step(s, MainDefault).Some? <==> forall i :: 0 <= i < |s.racers| ==> !s.racers[i].pc.Parked?
    ensures forall i: nat :: i < |s.racers| && s.racers[i].pc.Parked? ==> Step(s, Handover(i)).Some?
  {
  }

  // ---------- Narrow windows ----------

  /** A request that panics counts as failed exactly if no success has been counted by then, and joins no error. */
  lemma {:induction false} PanicCountsAsFailure(s: Race, i: nat)
    requires i < |s.racers| && s.racers[i].pc.Running?
    ensures Exec(s, [Respond(i, Panic), Advance(i)])
            == Some(Put(s, i, s.racers[i].(pc := if s.g.successes == 0 then AddFailed else Finished), s.g))
  {
    assert [Respond(i, Panic), Advance(i)][1..] == [Advance(i)] && [Advance(i)][1..] == [];
    var t := Put(s, i, s.racers[i].(pc := LoadSuccess), s.g);
    assert Step(s, Respond(i, Panic)) == Some(t);
    var r := s.racers[i].(pc := if s.g.successes == 0 then AddFailed else Finished);
    assert t.racers[i := r] == s.racers[i := r];
    assert Exec(t, [Advance(i)]) == Step(t, Advance(i));
  }

  /**
    A first success that is counted but not yet on offer is missed by a caller that takes its second look
    at that moment: it gives up, and the goroutine closes the body itself.
   */
  lemma {:induction false} CountedButMissed(s: Race, i: nat)
    requires i < |s.racers| && s.racers[i].pc.Score? && s.g.successes == 0
    requires s.g.main.Recheck? && s.g.wait.Some? && !SomeoneParked(s)
    ensures Exec(s, [Advance(i), MainDefault, Abandon(i), Advance(i)]).Some?
    ensures var t := Exec(s, [Advance(i), MainDefault, Abandon(i), Advance(i)]).value;
            && t.g.main == CancelAll(0) && |t.racers| == |s.racers|
            && t.racers[i].scored && t.racers[i].sends == s.racers[i].sends
            && t.racers[i].closes == s.racers[i].closes + 1
  {
    var acts := [Advance(i), MainDefault, Abandon(i), Advance(i)];
    assert acts[1..] == [MainDefault, Abandon(i), Advance(i)] && acts[1..][1..] == [Abandon(i), Advance(i)];
    assert acts[1..][1..][1..] == [Advance(i)] && [Advance(i)][1..] == [];
    var s1 := Step(s, Advance(i)).value;
    assert !SomeoneParked(s1);
    var s2 := Step(s1, MainDefault).value;
    var s3 := Step(s2, Abandon(i)).value;
    assert Exec(s3, [Advance(i)]) == Step(s3, Advance(i));
    assert Exec(s2, [Abandon(i), Advance(i)]) == Step(s3, Advance(i));
    assert Exec(s1, [MainDefault, Abandon(i), Advance(i)]) == Step(s3, Advance(i));
  }
}
