/**
 What the workers of Protocol.dfy can rely on: commands in order, the same barrier
 waits for all, measurements that no other phase overlaps, and an end to every run.
 */
module Progress {
  import opened Wrappers
  import opened Protocol

  // ----- commands

  /** A worker has executed a prefix of the commands sent to it, in order and once each; the rest is in its queue. */
  lemma CommandsInOrder(u: Setup, steps: seq<Step>, i: nat)
    requires u.Valid() && Run(u, steps).Some? && i < u.n
    ensures var s := Run(u, steps).value;
      && |s.workers| == u.n && SentTo(s, i) <= |u.plan|
      && s.workers[i].log + s.workers[i].queue == u.plan[..SentTo(s, i)]
  {
    InvAlways(u, steps);
    assert WorkerOk(u, Run(u, steps).value, i);
  }

  // ----- waits

  /** All workers make the same number of calibration rounds in the same run. */
  ghost predicate SameRounds(u: Setup) {
    forall i, j, c :: u.extra(i, c) == u.extra(j, c)
  }

  lemma {:induction false} AllWaitsSame(u: Setup, i: nat, j: nat, c: nat)
    requires SameRounds(u)
    ensures AllWaits(u, i, c) == AllWaits(u, j, c)
    decreases |u.plan| - c
  {
    if c < |u.plan| {
      AllWaitsSame(u, i, j, c + 1);
    }
  }

  /** The waits of a worker are the first ones of those that it will make in all. */
  lemma WaitsSoFar(u: Setup, s: State, i: nat)
    requires Inv(u, s) && i < u.n
    ensures s.workers[i].waits <= AllWaits(u, i, 0)
  {
    var w := s.workers[i];
    assert WorkerOk(u, s, i);
  }

  /** The k-th wait of any two workers is at the same place in the program. */
  lemma SameWaits(u: Setup, steps: seq<Step>, s: State, i: nat, j: nat, k: nat)
    requires u.Valid() && SameRounds(u) && Run(u, steps) == Some(s) && i < |s.workers| && j < |s.workers|
    requires k < |s.workers[i].waits| && k < |s.workers[j].waits|
    ensures s.workers[i].waits[k] == s.workers[j].waits[k]
  {
    InvAlways(u, steps);
    WaitsSoFar(u, s, i);
    WaitsSoFar(u, s, j);
    AllWaitsSame(u, i, j, 0);
  }

  // ----- phases

  lemma Split(u: Setup, s: State, i: nat)
    requires Inv(u, s) && i < u.n
    ensures s.workers[i].waits + ToCome(u, i, s.workers[i]) == AllWaits(u, i, 0)
    ensures |s.workers[i].waits| == s.generation || Held(s.workers[i], s.generation)
  {
    var w := s.workers[i];
    assert WorkerOk(u, s, i);
  }

  lemma SameTail<T>(a: seq<T>, b: seq<T>, c: seq<T>, d: seq<T>)
    requires a + b == c + d && |a| == |c|
    ensures b == d
  {
    assert b == (a + b)[|a|..] == (c + d)[|c|..] == d;
  }

  /** Workers that the barrier does not hold are all between the same two waits. */
  lemma SamePhase(u: Setup, s: State, i: nat, j: nat)
    requires Inv(u, s) && SameRounds(u) && i < u.n && j < u.n
    requires !Held(s.workers[i], s.generation) && !Held(s.workers[j], s.generation)
    ensures ToCome(u, i, s.workers[i]) == ToCome(u, j, s.workers[j])
  {
    Split(u, s, i);
    Split(u, s, j);
    AllWaitsSame(u, i, j, 0);
    SameTail(s.workers[i].waits, ToCome(u, i, s.workers[i]), s.workers[j].waits, ToCome(u, j, s.workers[j]));
  }

  /** Before, in, or after the measured loop, but nowhere else. */
  predicate AtMeasurement(w: Worker) {
    w.pc == Timing || (w.pc == Wait(TimedStart) && w.blocked) || w.pc == Wait(TimedEnd)
  }

  lemma NextCommand(u: Setup, i: nat, c: nat)
    ensures AllWaits(u, i, c) != [] ==> AllWaits(u, i, c)[0] in {CommandEnd, RunStart, ExitStart}
  {
  }

  lemma NextIsTimedEnd(u: Setup, i: nat, w: Worker)
    requires ToCome(u, i, w) != [] && ToCome(u, i, w)[0] == TimedEnd && (w.blocked ==> w.pc.Wait?)
    ensures AtMeasurement(w)
  {
    NextCommand(u, i, |w.log|);
    var a := Ahead(w.pc, w.blocked, w.round, RoundsNow(u, i, w));
    if a != [] {
      assert ToCome(u, i, w)[0] == a[0];
      FirstAhead(w, RoundsNow(u, i, w));
    }
  }

  lemma FirstRound(k: int)
    ensures RoundWaits(k) != [] ==> RoundWaits(k)[0] == RoundStart
  {
  }

  lemma FirstAhead(w: Worker, k: nat)
    requires var a := Ahead(w.pc, w.blocked, w.round, k); a != [] && a[0] == TimedEnd
    requires w.blocked ==> w.pc.Wait?
    ensures AtMeasurement(w)
  {
    match w.pc {
      case Wait(b) =>
        if w.blocked && (b == CalibrationStart || b == RoundEnd) {
          FirstRound(if b == RoundEnd then k - w.round - 1 else k);
        }
      case _ =>
    }
  }

  /** While one worker is in its measured loop, every worker of the group is at the measurement. */
  lemma MeasurementsDoNotOverlap(u: Setup, steps: seq<Step>, s: State, i: nat, j: nat)
    requires u.Valid() && SameRounds(u) && Run(u, steps) == Some(s) && i < |s.workers| && j < |s.workers|
    requires s.workers[i].pc == Timing
    ensures AtMeasurement(s.workers[j])
  {
    InvAlways(u, steps);
    var v, w := s.workers[i], s.workers[j];
    assert WorkerOk(u, s, i) && WorkerOk(u, s, j);
    TimingIsNext(u, i, v);
    if Held(w, s.generation) {
      Split(u, s, i);
      Split(u, s, j);
      AllWaitsSame(u, i, j, 0);
      HeldAt(v.waits, ToCome(u, i, v), w.waits, ToCome(u, j, w));
    } else {
      SamePhase(u, s, i, j);
      NextIsTimedEnd(u, j, w);
    }
  }

  lemma TimingIsNext(u: Setup, i: nat, w: Worker)
    requires w.pc == Timing
    ensures ToCome(u, i, w) != [] && ToCome(u, i, w)[0] == TimedEnd
  {
  }

  lemma HeldAt(a: seq<Barrier>, b: seq<Barrier>, c: seq<Barrier>, d: seq<Barrier>)
    requires a + b == c + d && |c| == |a| + 1 && b != []
    ensures c[|a|] == b[0]
  {
    assert (a + b)[|a|] == (c + d)[|a|];
  }

  lemma {:induction false} LaterIsShorter(u: Setup, i: nat, c: nat)
    requires c <= |u.plan|
    ensures |AllWaits(u, i, c)| <= |AllWaits(u, i, 0)|
    decreases c
  {
    if c > 0 {
      LaterIsShorter(u, i, c - 1);
    }
  }

  /**
   With the commands that are sent, INITIALIZE before everything else and not again,
   no worker is in its measured loop while another one initializes, however many
   calibration rounds each of them makes.
   */
  lemma InitializedBeforeTimed(u: Setup, steps: seq<Step>, s: State, i: nat, j: nat)
    requires u.Valid() && Run(u, steps) == Some(s) && i < |s.workers| && j < |s.workers|
    requires u.plan[0] == INITIALIZE && forall c :: 0 < c < |u.plan| ==> u.plan[c] != INITIALIZE
    ensures !(s.workers[i].pc == Timing && s.workers[j].pc == Initializing)
  {
    InvAlways(u, steps);
    var v, w := s.workers[i], s.workers[j];
    assert WorkerOk(u, s, i) && WorkerOk(u, s, j);
    if v.pc == Timing && w.pc == Initializing {
      LogIsPrefix(u, s, i);
      LogIsPrefix(u, s, j);
      InitializingIsFirst(u, s, j);
      TimingHasWaited(u, s, i);
      Split(u, s, i);
      Split(u, s, j);
      assert false;
    }
  }

  lemma LogIsPrefix(u: Setup, s: State, i: nat)
    requires Inv(u, s) && i < u.n
    ensures |s.workers[i].log| <= |u.plan|
    ensures forall c :: 0 <= c < |s.workers[i].log| ==> s.workers[i].log[c] == u.plan[c]
  {
    var w := s.workers[i];
    assert WorkerOk(u, s, i);
    forall c | 0 <= c < |w.log|
      ensures w.log[c] == u.plan[c]
    {
      assert (w.log + w.queue)[c] == u.plan[..SentTo(s, i)][c];
    }
  }

  lemma InitializingIsFirst(u: Setup, s: State, j: nat)
    requires Inv(u, s) && j < u.n && s.workers[j].pc == Initializing && u.plan != [] && u.plan[0] == INITIALIZE
    requires forall c :: 0 < c < |u.plan| ==> u.plan[c] != INITIALIZE
    ensures s.workers[j].waits == []
  {
    var w := s.workers[j];
    assert WorkerOk(u, s, j);
    LogIsPrefix(u, s, j);
    assert |w.log| == 1;
    Split(u, s, j);
    assert |AllWaits(u, j, 0)| == 1 + |AllWaits(u, j, 1)|;
  }

  lemma TimingHasWaited(u: Setup, s: State, i: nat)
    requires Inv(u, s) && i < u.n && s.workers[i].pc == Timing
    ensures s.workers[i].waits != []
  {
    var w := s.workers[i];
    assert WorkerOk(u, s, i);
    LogIsPrefix(u, s, i);
    var c := |w.log| - 1;
    LaterIsShorter(u, i, c);
    Split(u, s, i);
    assert |AllWaits(u, i, c)| == |CommandWaits(RUN, u.Rounds(i, c))| + |AllWaits(u, i, c + 1)|;
  }

  // ----- how many waits there are

  /** The calibration rounds of worker i from command c on. */
  function TotalRounds(u: Setup, i: nat, c: nat): nat
    decreases |u.plan| - c
  {
    if c >= |u.plan| then 0 else (if u.plan[c] == RUN then u.Rounds(i, c) else 0) + TotalRounds(u, i, c + 1)
  }

  /** The waits that do not belong to a round of calibration; they are the same for all workers. */
  function FixedWaits(u: Setup, c: nat): nat
    decreases |u.plan| - c
  {
    if c >= |u.plan| then 0 else |CommandWaits(u.plan[c], 0)| + FixedWaits(u, c + 1)
  }

  lemma CommandCount(command: Command, k: nat)
    ensures |CommandWaits(command, k)| == |CommandWaits(command, 0)| + if command == RUN then 2 * k else 0
  {
  }

  lemma {:induction false} WaitsCount(u: Setup, i: nat, c: nat)
    ensures |AllWaits(u, i, c)| == FixedWaits(u, c) + 2 * TotalRounds(u, i, c)
    decreases |u.plan| - c
  {
    if c < |u.plan| {
      CommandCount(u.plan[c], u.Rounds(i, c));
      WaitsCount(u, i, c + 1);
    }
  }

  /** All workers make the same number of calibration rounds in all. */
  ghost predicate SameTotals(u: Setup) {
    forall i, j :: 0 <= i < u.n && 0 <= j < u.n ==> TotalRounds(u, i, 0) == TotalRounds(u, j, 0)
  }

  // ----- progress

  ghost predicate AllExited(s: State) {
    forall i :: 0 <= i < |s.workers| ==> s.workers[i].pc == Exited
  }

  lemma ExitedIsThrough(u: Setup, s: State, i: nat)
    requires u.Valid() && Inv(u, s) && i < u.n && s.workers[i].pc == Exited
    ensures s.workers[i].waits == AllWaits(u, i, 0) && |s.workers[i].waits| == s.generation
  {
    var w := s.workers[i];
    assert WorkerOk(u, s, i);
    LogIsPrefix(u, s, i);
    assert |w.log| == |u.plan|;
    Split(u, s, i);
  }

  lemma CanGoOn(u: Setup, i: nat, w: Worker, generation: nat)
    requires u.Valid() && Sound(u, i, w, |u.plan|) && w.pc != Exited && !Held(w, generation)
    requires |w.waits| == generation || Held(w, generation)
    ensures CanWork(w.pc) || w.pc.Wait? || (w.pc == Idle && w.queue != [])
    ensures w.blocked ==> |w.waits| <= generation
  {
    if w.queue == [] {
      assert w.log == u.plan[..|u.plan|] == u.plan;
    }
  }

  /** A worker that is neither done nor held by the barrier can do a step when all commands have been sent. */
  lemma OneCanGoOn(u: Setup, s: State, i: nat) returns (t: Step)
    requires u.Valid() && Inv(u, s) && s.stage == |u.plan| && i < u.n
    requires s.workers[i].pc != Exited && !Held(s.workers[i], s.generation)
    ensures Enabled(u, s, t)
  {
    var w := s.workers[i];
    assert WorkerOk(u, s, i);
    Split(u, s, i);
    CanGoOn(u, i, w, s.generation);
    if CanWork(w.pc) {
      t := Work(i);
    } else if w.pc == Idle {
      t := Take(i);
    } else if w.blocked {
      t := Leave(i);
    } else {
      t := Arrive(i);
    }
  }

  /** As long as not all workers have ended, some step is possible. */
  lemma NoDeadlock(u: Setup, s: State) returns (t: Step)
    requires u.Valid() && SameTotals(u) && Inv(u, s) && !AllExited(s)
    ensures Enabled(u, s, t)
  {
    if s.stage < |u.plan| {
      t := Send;
    } else if i :| 0 <= i < u.n && s.workers[i].pc != Exited && !Held(s.workers[i], s.generation) {
      t := OneCanGoOn(u, s, i);
    } else {
      var i :| 0 <= i < u.n && s.workers[i].pc != Exited;
      Split(u, s, i);
      forall j | 0 <= j < u.n
        ensures Held(s.workers[j], s.generation)
      {
        if s.workers[j].pc == Exited {
          ExitedIsThrough(u, s, j);
          WaitsCount(u, i, 0);
          WaitsCount(u, j, 0);
          assert false;
        }
      }
      HeldAll(s.workers, s.generation);
      t := Send;
      assert false;
    }
  }

  /** If all have ended, then all have made as many waits: this needs the same number of rounds in all. */
  lemma OnlyWithSameTotals(u: Setup, steps: seq<Step>)
    requires u.Valid() && Run(u, steps).Some? && AllExited(Run(u, steps).value)
    ensures SameTotals(u)
  {
    InvAlways(u, steps);
    var s := Run(u, steps).value;
    forall i, j | 0 <= i < u.n && 0 <= j < u.n
      ensures TotalRounds(u, i, 0) == TotalRounds(u, j, 0)
    {
      ExitedIsThrough(u, s, i);
      ExitedIsThrough(u, s, j);
      WaitsCount(u, i, 0);
      WaitsCount(u, j, 0);
    }
  }

  // ----- every run ends

  function Local(w: Worker): nat {
    match w.pc
    case Initializing => 2
    case Nothing => 2
    case Idle => 0
    case Exited => 0
    case Wait(_) => if w.blocked then 3 else 0
    case _ => 1
  }

  /** A bound for the steps that have still to do with worker i, its sends included. */
  function Potential(u: Setup, i: nat, w: Worker): int {
    Local(w) + 4 * |ToCome(u, i, w)| + 5 * (|u.plan| - |w.log|) - |w.queue|
  }

  function Potentials(u: Setup): (nat, Worker) -> int {
    (i: nat, w: Worker) => Potential(u, i, w)
  }

  function Summed<W>(cost: (nat, W) -> int, ws: seq<W>, n: nat): int
    requires n <= |ws|
  {
    if n == 0 then 0 else Summed(cost, ws, n - 1) + cost(n - 1, ws[n - 1])
  }

  lemma {:induction false} SummedUpdate<W>(cost: (nat, W) -> int, ws: seq<W>, n: nat, i: nat, w: W)
    requires n <= |ws| && i < |ws|
    ensures Summed(cost, ws[i := w], n) == Summed(cost, ws, n) + if i < n then cost(i, w) - cost(i, ws[i]) else 0
    decreases n
  {
    if n > 0 {
      SummedUpdate(cost, ws, n - 1, i, w);
    }
  }

  function Total(u: Setup, ws: seq<Worker>, n: nat): int
    requires n <= |ws|
  {
    Summed(Potentials(u), ws, n)
  }

  lemma TotalUpdate(u: Setup, ws: seq<Worker>, n: nat, i: nat, w: Worker)
    requires n <= |ws| && i < |ws|
    ensures Total(u, ws[i := w], n)
         == Total(u, ws, n) + if i < n then Potential(u, i, w) - Potential(u, i, ws[i]) else 0
  {
    SummedUpdate(Potentials(u), ws, n, i, w);
  }

  lemma {:induction false} TotalNonNegative(u: Setup, s: State, n: nat)
    requires Inv(u, s) && n <= u.n
    ensures Total(u, s.workers, n) >= 0
    decreases n
  {
    if n > 0 {
      TotalNonNegative(u, s, n - 1);
      var w := s.workers[n - 1];
      assert WorkerOk(u, s, n - 1);
      assert |w.log + w.queue| <= |u.plan|;
    }
  }

  /** Every step brings the end nearer. */
  lemma StepDecreases(u: Setup, s: State, t: Step)
    requires u.Valid() && Inv(u, s) && Enabled(u, s, t)
    ensures Total(u, Apply(u, s, t).workers, u.n) < Total(u, s.workers, u.n)
  {
    match t {
      case Send =>
        SendLess(u, s.next, s.workers[s.next], u.plan[s.stage]);
        TotalUpdate(u, s.workers, u.n, s.next, Apply(u, s, t).workers[s.next]);
      case Take(i) =>
        assert WorkerOk(u, s, i);
        LogIsPrefix(u, s, i);
        assert s.workers[i].queue[0] == (s.workers[i].log + s.workers[i].queue)[|s.workers[i].log|];
        TakeLess(u, i, s.workers[i]);
        TotalUpdate(u, s.workers, u.n, i, Taken(s.workers[i]));
      case Work(i) =>
        assert WorkerOk(u, s, i);
        WorkLess(u, i, s.workers[i]);
        TotalUpdate(u, s.workers, u.n, i, s.workers[i].(pc := Worked(s.workers[i].pc)));
      case Arrive(i) =>
        ArriveLess(u, i, s.workers[i]);
        TotalUpdate(u, s.workers, u.n, i, ArrivedAt(s.workers[i]));
      case Leave(i) =>
        assert WorkerOk(u, s, i);
        LeaveLess(u, i, s.workers[i]);
        TotalUpdate(u, s.workers, u.n, i, Left(s.workers[i], RoundsNow(u, i, s.workers[i])));
    }
  }

  lemma SendLess(u: Setup, i: nat, w: Worker, c: Command)
    ensures Potential(u, i, w.(queue := w.queue + [c])) < Potential(u, i, w)
  {
    SendToCome(u, i, w, c);
  }

  lemma TakeLess(u: Setup, i: nat, w: Worker)
    requires w.pc == Idle && !w.blocked && w.queue != [] && |w.log| < |u.plan| && w.queue[0] == u.plan[|w.log|]
    ensures Potential(u, i, Taken(w)) < Potential(u, i, w)
  {
    TakeToCome(u, i, w);
  }

  lemma WorkLess(u: Setup, i: nat, w: Worker)
    requires CanWork(w.pc) && !w.blocked
    ensures Potential(u, i, w.(pc := Worked(w.pc))) < Potential(u, i, w)
  {
    WorkToCome(u, i, w);
  }

  lemma ArriveLess(u: Setup, i: nat, w: Worker)
    requires w.pc.Wait? && !w.blocked
    ensures Potential(u, i, ArrivedAt(w)) < Potential(u, i, w)
  {
    ArriveToCome(u, i, w);
  }

  lemma LeaveLess(u: Setup, i: nat, w: Worker)
    requires w.pc.Wait? && w.blocked && RoundOk(w, RoundsNow(u, i, w))
    ensures Potential(u, i, Left(w, RoundsNow(u, i, w))) < Potential(u, i, w)
  {
    LeaveToCome(u, i, w);
  }

  /** No run is longer than the bound that the start gives. */
  lemma {:induction false} RunsAreFinite(u: Setup, steps: seq<Step>)
    requires u.Valid() && Run(u, steps).Some?
    ensures Inv(u, Run(u, steps).value)
    ensures |steps| + Total(u, Run(u, steps).value.workers, u.n) <= Total(u, Start(u).workers, u.n)
    decreases |steps|
  {
    InvAlways(u, steps);
    if steps != [] {
      var n := |steps| - 1;
      RunsAreFinite(u, steps[..n]);
      StepDecreases(u, Run(u, steps[..n]).value, steps[n]);
    }
  }

  /**
   Every run can be no longer than a bound, and a run that cannot be continued has
   ended all workers. It is so exactly because they make the same number of
   calibration rounds in all (OnlyWithSameTotals is the other half).
   */
  lemma EveryRunFinishes(u: Setup, steps: seq<Step>)
    requires u.Valid() && SameTotals(u) && Run(u, steps).Some?
    ensures |steps| <= Total(u, Start(u).workers, u.n)
    ensures AllExited(Run(u, steps).value) || exists t :: Enabled(u, Run(u, steps).value, t)
  {
    RunsAreFinite(u, steps);
    var s := Run(u, steps).value;
    TotalNonNegative(u, s, u.n);
    if !AllExited(s) {
      var t := NoDeadlock(u, s);
    }
  }
}
