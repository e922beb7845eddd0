/** The invariant of the race is kept by every step, and what follows from it. */
module HttpRaceProof {
  import opened Common
  import opened HttpRace

  // ---------- Counting ----------

  predicate Below(i: nat, n: nat) { i < n }

  function Indices(n: nat): (a: set<nat>)
    ensures forall i: nat :: i in a <==> Below(i, n)
    ensures |a| == n
  {
    if n == 0 then {} else Indices(n - 1) + {n - 1}
  }

  /** A set of indices below n has at most n members, and n only if it has them all. */
  lemma {:induction false} IndexSet(a: set<nat>, n: nat)
    requires forall i :: i in a ==> Below(i, n)
    ensures |a| <= n
    ensures |a| == n ==> a == Indices(n)
  {
    var all := Indices(n);
    assert a <= all;
    assert all == a + (all - a);
  }

  lemma CountsBounded(rs: seq<Racer>)
    ensures |Scored(rs)| <= |rs| && |Counted(rs)| <= |rs|
    ensures |Counted(rs)| == |rs| ==> forall i :: 0 <= i < |rs| ==> rs[i].counted
  {
    IndexSet(Scored(rs), |rs|);
    IndexSet(Counted(rs), |rs|);
    if |Counted(rs)| == |rs| {
      forall i | 0 <= i < |rs|
        ensures rs[i].counted
      {
        assert Below(i, |rs|);
        assert i in Counted(rs);
      }
    }
  }

  /** How replacing one racer changes the two index sets. */
  lemma PutScored(rs: seq<Racer>, i: nat, r: Racer)
    requires i < |rs|
    requires rs[i].scored ==> r.scored
    ensures |Scored(rs[i := r])| == |Scored(rs)| + (if r.scored && !rs[i].scored then 1 else 0)
  {
    if r.scored && !rs[i].scored {
      assert Scored(rs[i := r]) == Scored(rs) + {i};
    } else {
      assert Scored(rs[i := r]) == Scored(rs);
    }
  }

  lemma PutCounted(rs: seq<Racer>, i: nat, r: Racer)
    requires i < |rs|
    requires rs[i].counted ==> r.counted
    ensures |Counted(rs[i := r])| == |Counted(rs)| + (if r.counted && !rs[i].counted then 1 else 0)
  {
    if r.counted && !rs[i].counted {
      assert Counted(rs[i := r]) == Counted(rs) + {i};
    } else {
      assert Counted(rs[i := r]) == Counted(rs);
    }
  }

  // ---------- The invariant is kept ----------

  /** A step of one goroutine keeps Inv if it is locally right and the others do not notice. */
  lemma PutInv(s: Race, i: nat, r: Racer, g: Shared)
    requires Inv(s) && i < |s.racers|
    requires Global(|s.racers|, g)
    requires Local(|s.racers|, g, i, r)
    requires forall j :: 0 <= j < |s.racers| && j != i ==> Local(|s.racers|, g, j, s.racers[j])
    requires s.racers[i].scored ==> r.scored
    requires s.racers[i].counted ==> r.counted
    requires g.successes == s.g.successes + (if r.scored && !s.racers[i].scored then 1 else 0)
    requires g.failures == s.g.failures + (if r.counted && !s.racers[i].counted then 1 else 0)
    ensures Inv(Put(s, i, r, g))
  {
    hide Local, Global;
    PutScored(s.racers, i, r);
    PutCounted(s.racers, i, r);
  }

  lemma InitInv(n: nat)
    requires 1 <= n < TWO32
    ensures Inv(Init(n))
  {
    assert Scored(Init(n).racers) == {};
    assert Counted(Init(n).racers) == {};
  }

  lemma InvLaunch(s: Race)
    requires Inv(s) && LaunchStep(s).Some?
    ensures Inv(LaunchStep(s).value)
  {
    var k := s.g.main.next;
    if k < |s.racers| {
      var g := s.g.(main := Spawn(k + 1));
      assert Local(|s.racers|, s.g, k, s.racers[k]);
      assert Local(|s.racers|, g, k, s.racers[k].(pc := Running));
      PutInv(s, k, s.racers[k].(pc := Running), g);
    }
  }

  lemma InvRespond(s: Race, i: nat, reply: Reply)
    requires Inv(s) && i < |s.racers| && s.racers[i].pc.Running?
    ensures Inv(Put(s, i, AfterReply(s.racers[i], reply), s.g))
  {
    assert Local(|s.racers|, s.g, i, s.racers[i]);
    PutInv(s, i, AfterReply(s.racers[i], reply), s.g);
  }

  /** Adding to successCount, as the goroutine that does it sees it. */
  lemma ScoreLocal(n: nat, g: Shared, i: nat, r: Racer)
    requires Local(n, g, i, r) && Global(n, g) && r.pc.Score? && g.successes + 1 < TWO32
    ensures AdvanceRacer(n, g, i, r).Some?
    ensures var (r', g') := AdvanceRacer(n, g, i, r).value;
            && Local(n, g', i, r') && r'.scored && !r.scored && r'.counted == r.counted
            && g'.successes == g.successes + 1 && g'.failures == g.failures
  {
  }

  /** The other goroutines only see successCount grow. */
  lemma ScoreOther(n: nat, g: Shared, i: nat, r: Racer, j: nat, other: Racer)
    requires Global(n, g) && Local(n, g, j, other) && i != j && r.pc.Score? && g.successes + 1 < TWO32
    ensures AdvanceRacer(n, g, i, r).Some? && Local(n, AdvanceRacer(n, g, i, r).value.1, j, other)
  {
    hide RacerOk;
  }

  lemma ScoreGlobal(n: nat, g: Shared, i: nat, r: Racer)
    requires Global(n, g) && i < n && r.pc.Score? && g.successes + 1 < TWO32
    ensures AdvanceRacer(n, g, i, r).Some? && Global(n, AdvanceRacer(n, g, i, r).value.1)
  {
  }

  lemma RoomToScore(s: Race, i: nat)
    requires Inv(s) && i < |s.racers| && !s.racers[i].scored
    ensures s.g.successes + 1 < TWO32
  {
    hide Local, Global;
    var r := s.racers[i].(scored := true);
    PutScored(s.racers, i, r);
    CountsBounded(s.racers[i := r]);
  }

  lemma InvScore(s: Race, i: nat)
    requires Inv(s) && i < |s.racers| && s.racers[i].pc.Score?
    ensures Inv(Step(s, Advance(i)).value)
  {
    var n := |s.racers|;
    assert Local(n, s.g, i, s.racers[i]) && !s.racers[i].scored;
    hide Local, Global, AdvanceRacer;
    RoomToScore(s, i);
    ScoreLocal(n, s.g, i, s.racers[i]);
    ScoreGlobal(n, s.g, i, s.racers[i]);
    var (r, g) := AdvanceRacer(n, s.g, i, s.racers[i]).value;
    forall j | 0 <= j < n && j != i
      ensures Local(n, g, j, s.racers[j])
    {
      ScoreOther(n, s.g, i, s.racers[i], j, s.racers[j]);
    }
    PutInv(s, i, r, g);
  }

  /** Adding to failedCount, as the goroutine that does it sees it. */
  lemma CountLocal(n: nat, g: Shared, i: nat, r: Racer)
    requires Local(n, g, i, r) && r.pc.AddFailed? && g.failures < n < TWO32
    ensures AdvanceRacer(n, g, i, r).Some?
    ensures var (r', g') := AdvanceRacer(n, g, i, r).value;
            && Local(n, g', i, r') && r'.scored == r.scored && r'.counted && !r.counted
            && g'.successes == g.successes && g'.failures == g.failures + 1
  {
  }

  /** The other goroutines only see failedCount grow. */
  lemma CountOther(n: nat, g: Shared, i: nat, r: Racer, j: nat, other: Racer)
    requires Local(n, g, j, other) && i != j && r.pc.AddFailed? && g.failures < n < TWO32
    ensures AdvanceRacer(n, g, i, r).Some? && Local(n, AdvanceRacer(n, g, i, r).value.1, j, other)
  {
    hide RacerOk;
  }

  lemma CountGlobal(n: nat, g: Shared, i: nat, r: Racer)
    requires Global(n, g) && i < n && r.pc.AddFailed? && g.failures < n < TWO32
    ensures AdvanceRacer(n, g, i, r).Some? && Global(n, AdvanceRacer(n, g, i, r).value.1)
  {
  }

  lemma RoomToCount(s: Race, i: nat)
    requires Inv(s) && i < |s.racers| && !s.racers[i].counted
    ensures s.g.failures < |s.racers|
  {
    hide Local, Global;
    var r := s.racers[i].(counted := true);
    PutCounted(s.racers, i, r);
    CountsBounded(s.racers[i := r]);
  }

  lemma InvCount(s: Race, i: nat)
    requires Inv(s) && i < |s.racers| && s.racers[i].pc.AddFailed?
    ensures Inv(Step(s, Advance(i)).value)
  {
    var n := |s.racers|;
    assert Local(n, s.g, i, s.racers[i]) && !s.racers[i].counted;
    hide Local, Global, AdvanceRacer;
    RoomToCount(s, i);
    CountLocal(n, s.g, i, s.racers[i]);
    CountGlobal(n, s.g, i, s.racers[i]);
    var (r, g) := AdvanceRacer(n, s.g, i, s.racers[i]).value;
    forall j | 0 <= j < n && j != i
      ensures Local(n, g, j, s.racers[j])
    {
      CountOther(n, s.g, i, s.racers[i], j, s.racers[j]);
    }
    PutInv(s, i, r, g);
  }

  /** The wake-up changes only waitCtx, which no other goroutine's facts can lose by. */
  lemma WakeLocal(n: nat, g: Shared, j: nat, r: Racer)
    requires Local(n, g, j, r)
    ensures Local(n, g.(wait := Cancel(g.wait, Canceled)), j, r)
  {
  }

  lemma InvWake(s: Race, i: nat)
    requires Inv(s) && i < |s.racers| && s.racers[i].pc.Wake?
    ensures Inv(Step(s, Advance(i)).value)
  {
    var n := |s.racers|;
    var g := s.g.(wait := Cancel(s.g.wait, Canceled));
    assert Local(n, s.g, i, s.racers[i]) && Global(n, g);
    hide Local, Global;
    forall j | 0 <= j < n
      ensures Local(n, g, j, s.racers[j])
    {
      WakeLocal(n, s.g, j, s.racers[j]);
    }
    FinishLocal(n, g, i, s.racers[i]);
    PutInv(s, i, s.racers[i].(pc := Finished), g);
  }

  lemma FinishLocal(n: nat, g: Shared, i: nat, r: Racer)
    requires Local(n, g, i, r) && r.pc.Wake? && g.wait.Some?
    ensures Local(n, g, i, r.(pc := Finished))
  {
  }

  /** Each way of closing the body settles what the goroutine owes. */
  lemma CloseLocal(n: nat, g: Shared, i: nat, r: Racer)
    requires Local(n, g, i, r)
    requires r.pc.CloseFailed? || r.pc.CloseLoser? || r.pc.CloseLate?
    ensures Local(n, g, i, r.(pc := LoadSuccess, closes := r.closes + 1))
  {
    hide ContextOk;
    BornContext(g, i, r, r.(pc := LoadSuccess, closes := r.closes + 1));
  }

  lemma FailureLocal(n: nat, g: Shared, i: nat, r: Racer)
    requires Local(n, g, i, r) && r.pc.JoinFailure?
    ensures Local(n, g, i, r.(pc := if r.pc.withBody then CloseFailed else LoadSuccess, joined := true))
  {
    hide ContextOk;
    BornContext(g, i, r, r.(pc := if r.pc.withBody then CloseFailed else LoadSuccess, joined := true));
  }

  lemma BornContext(g: Shared, i: nat, r: Racer, r': Racer)
    requires ContextOk(g, i, r) && r'.cancelled == r.cancelled && (r'.pc.Unborn? <==> r.pc.Unborn?)
    ensures ContextOk(g, i, r')
  {
  }

  lemma StatusLocal(n: nat, g: Shared, i: nat, r: Racer)
    requires Local(n, g, i, r) && r.pc.ReadStatus?
    ensures Local(n, g, i, r.(pc := JoinStatus, closes := r.closes + 1))
  {
    hide ContextOk;
    BornContext(g, i, r, r.(pc := JoinStatus, closes := r.closes + 1));
  }

  lemma JoinLocal(n: nat, g: Shared, i: nat, r: Racer)
    requires Local(n, g, i, r) && r.pc.JoinStatus?
    ensures Local(n, g, i, r.(pc := LoadSuccess, joined := true))
  {
    hide ContextOk;
    BornContext(g, i, r, r.(pc := LoadSuccess, joined := true));
  }

  lemma ParkLocal(n: nat, g: Shared, i: nat, r: Racer)
    requires Local(n, g, i, r) && r.pc.Offering?
    ensures Local(n, g, i, r.(pc := Parked))
  {
  }

  /** The deferred check of successCount. */
  lemma CheckLocal(n: nat, g: Shared, i: nat, r: Racer)
    requires Local(n, g, i, r) && r.pc.LoadSuccess?
    ensures Local(n, g, i, r.(pc := if g.successes == 0 then AddFailed else Finished))
  {
    hide ContextOk;
    BornContext(g, i, r, r.(pc := if g.successes == 0 then AddFailed else Finished));
  }

  predicate Quiet(pc: Pc) {
    !pc.Score? && !pc.AddFailed? && !pc.Wake?
  }

  /** A step that touches no shared variable. */
  lemma QuietLocal(n: nat, g: Shared, i: nat, r: Racer)
    requires Local(n, g, i, r) && AdvanceRacer(n, g, i, r).Some? && Quiet(r.pc)
    ensures var (r', g') := AdvanceRacer(n, g, i, r).value;
            Local(n, g, i, r') && g' == g && r'.scored == r.scored && r'.counted == r.counted
  {
    hide Local;
    match r.pc
    case Offering => ParkLocal(n, g, i, r);
    case LoadSuccess => CheckLocal(n, g, i, r);
    case JoinFailure(_) => FailureLocal(n, g, i, r);
    case ReadStatus => StatusLocal(n, g, i, r);
    case JoinStatus => JoinLocal(n, g, i, r);
    case _ => CloseLocal(n, g, i, r);
  }

  lemma InvAdvance(s: Race, i: nat)
    requires Inv(s) && Step(s, Advance(i)).Some?
    ensures Inv(Step(s, Advance(i)).value)
  {
    hide Local, Global, AdvanceRacer;
    var r := s.racers[i];
    if r.pc.Score? {
      InvScore(s, i);
    } else if r.pc.AddFailed? {
      InvCount(s, i);
    } else if r.pc.Wake? {
      InvWake(s, i);
    } else {
      QuietLocal(|s.racers|, s.g, i, r);
      PutInv(s, i, AdvanceRacer(|s.racers|, s.g, i, r).value.0, s.g);
    }
  }

  lemma InvAbandon(s: Race, i: nat)
    requires Inv(s) && Step(s, Abandon(i)).Some?
    ensures Inv(Step(s, Abandon(i)).value)
  {
    assert Local(|s.racers|, s.g, i, s.racers[i]);
    PutInv(s, i, s.racers[i].(pc := CloseLate), s.g);
  }

  lemma InvHandover(s: Race, i: nat)
    requires Inv(s) && HandoverStep(s, i).Some?
    ensures Inv(HandoverStep(s, i).value)
  {
    var n := |s.racers|;
    var r := s.racers[i];
    var g := s.g.(main := CancelLosers(i, 0));
    assert Local(n, s.g, i, r);
    forall j | 0 <= j < n && j != i
      ensures Local(n, g, j, s.racers[j])
    {
      assert Local(n, s.g, j, s.racers[j]);
    }
    PutInv(s, i, r.(pc := LoadSuccess, sends := r.sends + 1), g);
  }

  /** A step of the caller's goroutine: it counts nothing and cancels at most one context. */
  lemma MainInv(s: Race, t: Race)
    requires Inv(s) && |t.racers| == |s.racers|
    requires Global(|s.racers|, t.g)
    requires forall j :: 0 <= j < |s.racers| ==> Local(|s.racers|, t.g, j, t.racers[j])
    requires forall j :: 0 <= j < |s.racers| ==>
      t.racers[j].scored == s.racers[j].scored && t.racers[j].counted == s.racers[j].counted
    requires t.g.successes == s.g.successes && t.g.failures == s.g.failures
    ensures Inv(t)
  {
    hide Local, Global;
    assert Scored(t.racers) == Scored(s.racers);
    assert Counted(t.racers) == Counted(s.racers);
  }

  /** What a step of the caller's goroutine leaves alone: everything but contexts and its own place. */
  predicate MainFrame(s: Race, t: Race) {
    && |t.racers| == |s.racers|
    && t.g == s.g.(main := t.g.main, wait := t.g.wait)
    && Winner(t.g.main) == Winner(s.g.main)
    && (s.g.wait.Some? ==> t.g.wait.Some?)
    && forall j :: 0 <= j < |s.racers| ==> t.racers[j] == s.racers[j].(cancelled := t.racers[j].cancelled)
  }

  lemma MainFrames(s: Race)
    requires MainAdvance(s).Some?
    ensures MainFrame(s, MainAdvance(s).value)
  {
  }

  lemma MainGlobal(s: Race)
    requires Global(|s.racers|, s.g) && MainAdvance(s).Some?
    ensures Global(|s.racers|, MainAdvance(s).value.g)
  {
  }

  lemma MainContext(s: Race, j: nat)
    requires j < |s.racers| && ContextOk(s.g, j, s.racers[j])
    requires Global(|s.racers|, s.g) && MainAdvance(s).Some?
    ensures |MainAdvance(s).value.racers| == |s.racers|
    ensures ContextOk(MainAdvance(s).value.g, j, MainAdvance(s).value.racers[j])
  {
  }

  lemma FrameLocal(n: nat, g: Shared, g': Shared, j: nat, r: Racer, r': Racer)
    requires Local(n, g, j, r) && ContextOk(g', j, r') && r' == r.(cancelled := r'.cancelled)
    requires g' == g.(main := g'.main, wait := g'.wait)
    requires Winner(g'.main) == Winner(g.main) && (g.wait.Some? ==> g'.wait.Some?)
    ensures Local(n, g', j, r')
  {
    hide ContextOk, Winner;
  }

  lemma LocalContext(n: nat, g: Shared, j: nat, r: Racer)
    requires Local(n, g, j, r)
    ensures ContextOk(g, j, r)
  {
  }

  lemma InvMain(s: Race)
    requires Inv(s) && MainAdvance(s).Some?
    ensures Inv(MainAdvance(s).value)
  {
    hide Local, Global, ContextOk, MainAdvance, Winner;
    var t := MainAdvance(s).value;
    MainFrames(s);
    MainGlobal(s);
    forall j | 0 <= j < |s.racers|
      ensures Local(|s.racers|, t.g, j, t.racers[j])
    {
      LocalContext(|s.racers|, s.g, j, s.racers[j]);
      MainContext(s, j);
      FrameLocal(|s.racers|, s.g, t.g, j, s.racers[j], t.racers[j]);
    }
    MainInv(s, t);
  }

  lemma InvCaller(s: Race)
    requires Inv(s) && CallerCloseStep(s).Some?
    ensures Inv(CallerCloseStep(s).value)
  {
    var t := CallerCloseStep(s).value;
    forall j | 0 <= j < |s.racers|
      ensures Local(|s.racers|, t.g, j, t.racers[j])
    {
      assert Local(|s.racers|, s.g, j, s.racers[j]);
    }
    MainInv(s, t);
  }

  /** The timeout, and the two choices of the caller's selects. */
  lemma InvSelects(s: Race, a: Action)
    requires Inv(s) && (a.Deadline? || a.MainDone? || a.MainDefault?) && Step(s, a).Some?
    ensures Inv(Step(s, a).value)
  {
    var t := Step(s, a).value;
    forall j | 0 <= j < |s.racers|
      ensures Local(|s.racers|, t.g, j, t.racers[j])
    {
      assert Local(|s.racers|, s.g, j, s.racers[j]);
    }
    MainInv(s, t);
  }

  lemma InvStep(s: Race, a: Action)
    requires Inv(s) && Step(s, a).Some?
    ensures Inv(Step(s, a).value)
    ensures |Step(s, a).value.racers| == |s.racers|
  {
    hide Inv, AdvanceRacer;
    match a
    case Launch => InvLaunch(s);
    case Respond(i, reply) => InvRespond(s, i, reply);
    case Advance(i) => InvAdvance(s, i);
    case Abandon(i) => InvAbandon(s, i);
    case Handover(i) => InvHandover(s, i);
    case MainStep => InvMain(s);
    case CallerClose => InvCaller(s);
    case _ => InvSelects(s, a);
  }

  lemma {:induction false} InvExec(s: Race, acts: seq<Action>)
    requires Inv(s) && Exec(s, acts).Some?
    ensures Inv(Exec(s, acts).value)
    ensures |Exec(s, acts).value.racers| == |s.racers|
    decreases |acts|
  {
    if acts != [] {
      InvStep(s, acts[0]);
      InvExec(Step(s, acts[0]).value, acts[1..]);
    }
  }

  // ---------- No run is infinite, none gets stuck ----------

  lemma {:induction false} SumPut(rs: seq<Racer>, i: nat, r: Racer)
    requires i < |rs|
    ensures SumRank(rs[i := r]) == SumRank(rs) - PcRank(rs[i].pc) + PcRank(r.pc)
  {
    if i == 0 {
      assert rs[0 := r][1..] == rs[1..];
    } else {
      assert rs[i := r][1..] == rs[1..][i - 1 := r];
      SumPut(rs[1..], i - 1, r);
    }
  }

  lemma RacerRankDrops(n: nat, g: Shared, i: nat, r: Racer)
    requires AdvanceRacer(n, g, i, r).Some?
    ensures PcRank(AdvanceRacer(n, g, i, r).value.0.pc) < PcRank(r.pc)
  {
    hide PcRank;
    if Quiet(r.pc) {
      QuietDrops(n, g, i, r);
    } else {
      SharedDrops(n, g, i, r);
    }
  }

  lemma QuietDrops(n: nat, g: Shared, i: nat, r: Racer)
    requires AdvanceRacer(n, g, i, r).Some? && Quiet(r.pc)
    ensures PcRank(AdvanceRacer(n, g, i, r).value.0.pc) < PcRank(r.pc)
  {
    match r.pc
    case JoinFailure(_) =>
    case CloseFailed =>
    case ReadStatus =>
    case JoinStatus =>
    case CloseLoser =>
    case Offering =>
    case CloseLate =>
    case LoadSuccess =>
  }

  lemma SharedDrops(n: nat, g: Shared, i: nat, r: Racer)
    requires AdvanceRacer(n, g, i, r).Some? && !Quiet(r.pc)
    ensures PcRank(AdvanceRacer(n, g, i, r).value.0.pc) < PcRank(r.pc)
  {
    match r.pc
    case Score =>
    case AddFailed =>
    case Wake =>
  }

  lemma RacerKeepsMain(n: nat, g: Shared, i: nat, r: Racer)
    requires AdvanceRacer(n, g, i, r).Some?
    ensures AdvanceRacer(n, g, i, r).value.1.main == g.main
    ensures g.wait.Some? ==> AdvanceRacer(n, g, i, r).value.1.wait.Some?
  {
  }

  lemma PutDecreases(s: Race, i: nat, r: Racer, g: Shared)
    requires i < |s.racers| && PcRank(r.pc) < PcRank(s.racers[i].pc)
    requires MainRank(|s.racers|, g.main) <= MainRank(|s.racers|, s.g.main)
    requires s.g.wait.Some? ==> g.wait.Some?
    ensures Rank(Put(s, i, r, g)) < Rank(s)
  {
    SumPut(s.racers, i, r);
  }

  lemma LaunchDecreases(s: Race)
    requires Inv(s) && LaunchStep(s).Some?
    ensures Rank(LaunchStep(s).value) < Rank(s)
  {
    var k := s.g.main.next;
    if k < |s.racers| {
      assert Local(|s.racers|, s.g, k, s.racers[k]);
      PutDecreases(s, k, s.racers[k].(pc := Running), s.g.(main := Spawn(k + 1)));
    }
  }

  lemma CancelKeepsRank(rs: seq<Racer>, j: nat)
    requires j < |rs|
    ensures SumRank(rs[j := rs[j].(cancelled := true)]) == SumRank(rs)
  {
    SumPut(rs, j, rs[j].(cancelled := true));
  }

  lemma MainStepDecreases(s: Race)
    requires Global(|s.racers|, s.g) && MainAdvance(s).Some?
    ensures Rank(MainAdvance(s).value) < Rank(s)
  {
    hide SumRank;
    if (s.g.main.CancelLosers? || s.g.main.CancelAll?) && s.g.main.next < |s.racers| {
      CancelKeepsRank(s.racers, s.g.main.next);
    }
  }

  lemma AdvanceDecreases(s: Race, i: nat)
    requires Step(s, Advance(i)).Some?
    ensures Rank(Step(s, Advance(i)).value) < Rank(s)
  {
    hide AdvanceRacer, Rank, PcRank;
    RacerRankDrops(|s.racers|, s.g, i, s.racers[i]);
    RacerKeepsMain(|s.racers|, s.g, i, s.racers[i]);
    var (r, g) := AdvanceRacer(|s.racers|, s.g, i, s.racers[i]).value;
    PutDecreases(s, i, r, g);
  }

  lemma OthersDecrease(s: Race, a: Action)
    requires Step(s, a).Some? && (a.Respond? || a.Abandon? || a.Handover?)
    ensures Rank(Step(s, a).value) < Rank(s)
  {
    hide Rank;
    var t := Step(s, a).value;
    PutDecreases(s, a.i, t.racers[a.i], t.g);
  }

  lemma SelectsDecrease(s: Race, a: Action)
    requires Step(s, a).Some? && (a.Deadline? || a.MainDone? || a.MainDefault?)
    ensures Rank(Step(s, a).value) < Rank(s)
  {
    hide SumRank;
  }

  /** Every step except the caller's closing of the body uses up rank. */
  lemma StepDecreases(s: Race, a: Action)
    requires Inv(s) && Step(s, a).Some? && !a.CallerClose?
    ensures Rank(Step(s, a).value) < Rank(s)
  {
    hide Rank, AdvanceRacer, MainAdvance, LaunchStep, HandoverStep, Local, Global;
    match a
    case Launch => LaunchDecreases(s);
    case Advance(i) => AdvanceDecreases(s, i);
    case Respond(i, _) => OthersDecrease(s, a);
    case Abandon(i) => OthersDecrease(s, a);
    case Handover(i) => OthersDecrease(s, a);
    case MainStep => MainStepDecreases(s);
    case _ => SelectsDecrease(s, a);
  }

  /** If every goroutine ended after failing, the last of them woke the wait. */
  lemma AllFinishedWakes(s: Race)
    requires Inv(s) && s.g.main.Wait?
    requires forall i :: 0 <= i < |s.racers| ==> s.racers[i].pc.Finished?
    ensures s.g.wait.Some?
  {
    var n := |s.racers|;
    forall i | 0 <= i < n
      ensures Local(n, s.g, i, s.racers[i])
    {
    }
    if s.g.successes > 0 {
      assert Local(n, s.g, s.g.leader.value, s.racers[s.g.leader.value]);
    } else {
      assert Counted(s.racers) == Indices(n) by {
        forall i: nat | i < n
          ensures i in Counted(s.racers)
        {
          assert Local(n, s.g, i, s.racers[i]);
        }
        assert forall i: nat :: i in Indices(n) <==> Below(i, n);
      }
      assert Local(n, s.g, s.g.last.value, s.racers[s.g.last.value]);
    }
  }

  /** A goroutine that is neither unborn nor finished can always be unblocked, deadline or not. */
  lemma RacerProgress(s: Race, i: nat) returns (a: Action)
    requires Inv(s) && i < |s.racers|
    requires !s.racers[i].pc.Unborn? && !s.racers[i].pc.Finished?
    ensures Step(s, a).Some? && !a.Deadline? && !a.CallerClose?
  {
    var r := s.racers[i];
    assert Local(|s.racers|, s.g, i, r);
    if r.pc.Running? {
      a := Respond(i, Panic);
    } else if !r.pc.Parked? {
      a := Advance(i);
    } else if s.g.wait.Some? {
      a := Abandon(i);
    } else if s.g.main.Wait? {
      a := Handover(i);
    } else if s.g.main.Spawn? {
      a := Launch;
    } else {
      a := MainStep;
    }
  }

  /** Without any deadline, a state with nothing left to do is final. */
  lemma Progress(s: Race) returns (a: Action)
    requires Inv(s) && !Final(s)
    ensures Step(s, a).Some? && !a.Deadline? && !a.CallerClose?
  {
    if s.g.main.Spawn? {
      a := Launch;
    } else if i :| 0 <= i < |s.racers| && !s.racers[i].pc.Finished? {
      assert Local(|s.racers|, s.g, i, s.racers[i]);
      a := RacerProgress(s, i);
    } else if s.g.main.Wait? {
      AllFinishedWakes(s);
      a := MainDone;
    } else if s.g.main.Recheck? {
      a := MainDefault;
    } else {
      a := MainStep;
    }
  }

  lemma {:induction false} ExecDecreases(s: Race, acts: seq<Action>)
    requires Inv(s) && Exec(s, acts).Some?
    requires forall k :: 0 <= k < |acts| ==> !acts[k].CallerClose?
    ensures 0 <= Rank(Exec(s, acts).value) <= Rank(s) - |acts|
    decreases |acts|
  {
    if acts != [] {
      StepDecreases(s, acts[0]);
      InvStep(s, acts[0]);
      ExecDecreases(Step(s, acts[0]).value, acts[1..]);
    }
  }

  lemma {:induction false} InitRank(rs: seq<Racer>)
    requires forall i :: 0 <= i < |rs| ==> rs[i].pc.Unborn?
    ensures SumRank(rs) == 9 * |rs|
  {
    if rs != [] {
      InitRank(rs[1..]);
    }
  }

  // ---------- The results ----------

  /** Every interleaving of n requests has at most 11n + 8 steps before the caller's own closes. */
  lemma {:induction false} RunsAreFinite(n: nat, acts: seq<Action>)
    requires 1 <= n < TWO32 && Exec(Init(n), acts).Some?
    requires forall k :: 0 <= k < |acts| ==> !acts[k].CallerClose?
    ensures |acts| <= 11 * n + 8
  {
    InitInv(n);
    InitRank(Init(n).racers);
    ExecDecreases(Init(n), acts);
  }

  /** When nothing but a deadline or a caller's close is possible, all goroutines have ended. */
  lemma {:induction false} StuckMeansDone(n: nat, acts: seq<Action>)
    requires 1 <= n < TWO32 && Exec(Init(n), acts).Some?
    requires forall a: Action :: Step(Exec(Init(n), acts).value, a).Some? ==> a.Deadline? || a.CallerClose?
    ensures Final(Exec(Init(n), acts).value)
  {
    InitInv(n);
    InvExec(Init(n), acts);
    var s := Exec(Init(n), acts).value;
    if !Final(s) {
      var a := Progress(s);
      assert false;
    }
  }

  /**
    Body ownership in every interleaving: a body is closed by its goroutine or handed to
    the caller, never both and never twice; at most one is handed over; once every
    goroutine has ended none is left unowned.
   */
  lemma {:induction false} BodyOwnership(n: nat, acts: seq<Action>)
    requires 1 <= n < TWO32 && Exec(Init(n), acts).Some?
    ensures var s := Exec(Init(n), acts).value;
            && |s.racers| == n
            && (forall i :: 0 <= i < n ==>
                  s.racers[i].closes + s.racers[i].sends <= if s.racers[i].got then 1 else 0)
            && (forall i, j :: 0 <= i < n && 0 <= j < n && s.racers[i].sends > 0 && s.racers[j].sends > 0 ==> i == j)
            && (forall i :: 0 <= i < n && s.racers[i].pc.Finished? && s.racers[i].got ==>
                  s.racers[i].closes + s.racers[i].sends == 1)
            && (forall i :: 0 <= i < n && s.racers[i].sends > 0 ==> Winner(s.g.main) == Some(i))
  {
    InitInv(n);
    InvExec(Init(n), acts);
    var s := Exec(Init(n), acts).value;
    forall i | 0 <= i < n
      ensures Local(n, s.g, i, s.racers[i])
    {
    }
  }

  /**
    doH3Direct returns exactly one of a response and an error, never (nil, nil). On
    success the response is the one handed over, the losers' contexts are cancelled and
    the winner's stays live until the caller closes the body; on failure all are cancelled.
   */
  lemma {:induction false} ReturnedOutcome(n: nat, acts: seq<Action>)
    requires 1 <= n < TWO32 && Exec(Init(n), acts).Some?
    requires Exec(Init(n), acts).value.g.main.Returned?
    ensures var s := Exec(Init(n), acts).value;
            var out := s.g.main.out;
            && |s.racers| == n
            && (out.response.Some? <==> out.err.None?)
            && (out.response.Some? ==>
                  out.response.value < n && s.racers[out.response.value].sends == 1)
            && (forall i :: 0 <= i < n ==>
                  (!s.racers[i].cancelled <==> out.response == Some(i) && s.g.callerCloses == 0))
            && s.g.hookRuns <= 1
  {
    InitInv(n);
    InvExec(Init(n), acts);
    var s := Exec(Init(n), acts).value;
    forall i | 0 <= i < n
      ensures Local(n, s.g, i, s.racers[i])
    {
    }
  }

  /** The wait is woken early only when all n requests failed, so no success is discarded by it. */
  lemma {:induction false} EarlyWakeMeansAllFailed(n: nat, acts: seq<Action>)
    requires 1 <= n < TWO32 && Exec(Init(n), acts).Some?
    requires var g := Exec(Init(n), acts).value.g; g.wait == Some(Canceled) && !g.main.Returned?
    ensures var s := Exec(Init(n), acts).value;
            && |s.racers| == n
            && forall i :: 0 <= i < n ==>
              !s.racers[i].scored && (s.racers[i].pc.Wake? || s.racers[i].pc.Finished?)
  {
    InitInv(n);
    InvExec(Init(n), acts);
    var s := Exec(Init(n), acts).value;
    CountsBounded(s.racers);
    forall i | 0 <= i < n
      ensures Local(n, s.g, i, s.racers[i])
    {
    }
  }
}
