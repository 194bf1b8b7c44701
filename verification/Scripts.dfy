/**
 What a worker does from its start to its end: its work and its barrier waits, one
 after the other, as a script that depends on the plan and on the number of its
 calibration rounds alone.
 */
module Scripts {
  import opened Wrappers
  import opened Protocol
  import opened Progress

  /** A worker has done the work of a point of the program, or has waited at a barrier. */
  datatype Event = Did(work: Point) | Waited(at: Barrier)

  // ----- the script

  /** k calibration rounds, each between its two waits. */
  function RoundEvents(k: int): seq<Event>
    decreases k
  {
    if k <= 0 then [] else [Waited(RoundStart), Did(Calibrating), Waited(RoundEnd)] + RoundEvents(k - 1)
  }

  /** What follows the calibration; the measured loop lies between the waits that start and end the time. */
  const AFTER_ROUNDS: seq<Event> := [
    Waited(CalibrationEnd), Waited(TimedStart), Did(Timing), Waited(TimedEnd), Waited(Measured), Waited(RunEnd),
    Did(Completing), Waited(CommandEnd)]

  function Script(c: Command, k: nat): seq<Event> {
    match c
    case INITIALIZE => [Did(Initializing), Did(Completing), Waited(CommandEnd)]
    case NOOP => [Did(Nothing), Did(Completing), Waited(CommandEnd)]
    case RUN => [Did(Starting), Waited(RunStart), Waited(CalibrationStart)] + RoundEvents(k) + AFTER_ROUNDS
    case EXIT => [Waited(ExitStart), Did(Exiting), Waited(ExitEnd)]
  }

  /** The script of worker i from its command number c on. */
  function ScriptFrom(u: Setup, i: nat, c: nat): seq<Event>
    decreases |u.plan| - c
  {
    if c >= |u.plan| then [] else Script(u.plan[c], u.Rounds(i, c)) + ScriptFrom(u, i, c + 1)
  }

  // ----- what happens in a run

  /** What the step adds to the events of worker i. */
  function EventOf(s: State, t: Step, i: nat): seq<Event>
    requires i < |s.workers|
  {
    match t
    case Work(j) => if j == i then [Did(s.workers[i].pc)] else []
    case Arrive(j) => if j == i && s.workers[i].pc.Wait? then [Waited(s.workers[i].pc.at)] else []
    case _ => []
  }

  /** All that worker i has done and waited for in a run. */
  function EventsOf(u: Setup, steps: seq<Step>, i: nat): seq<Event>
    requires i < u.n
    decreases |steps|
  {
    if steps == [] then []
    else
      var n := |steps| - 1;
      EventsOf(u, steps[..n], i) +
        match Run(u, steps[..n])
        case Some(s) => if i < |s.workers| then EventOf(s, steps[n], i) else []
        case None => []
  }

  // ----- what is still to come

  /** What follows a wait in the same command. */
  function Behind(b: Barrier, round: nat, k: nat): seq<Event> {
    match b
    case RunStart => [Waited(CalibrationStart)] + RoundEvents(k) + AFTER_ROUNDS
    case CalibrationStart => RoundEvents(k) + AFTER_ROUNDS
    case RoundStart => [Did(Calibrating), Waited(RoundEnd)] + RoundEvents(k - round - 1) + AFTER_ROUNDS
    case RoundEnd => RoundEvents(k - round - 1) + AFTER_ROUNDS
    case CalibrationEnd => AFTER_ROUNDS[1..]
    case TimedStart => AFTER_ROUNDS[2..]
    case TimedEnd => AFTER_ROUNDS[4..]
    case Measured => AFTER_ROUNDS[5..]
    case RunEnd => AFTER_ROUNDS[6..]
    case CommandEnd => []
    case ExitStart => [Did(Exiting), Waited(ExitEnd)]
    case ExitEnd => []
  }

  function Before(pc: Point, blocked: bool, round: nat, k: nat): seq<Event> {
    match pc
    case Idle => []
    case Initializing => Script(INITIALIZE, k)
    case Nothing => Script(NOOP, k)
    case Starting => Script(RUN, k)
    case Calibrating => Behind(RoundStart, round, k)
    case Timing => Behind(TimedStart, round, k)
    case Completing => [Did(Completing), Waited(CommandEnd)]
    case Exiting => [Did(Exiting), Waited(ExitEnd)]
    case Exited => []
    case Wait(b) => if blocked then Behind(b, round, k) else [Waited(b)] + Behind(b, round, k)
  }

  /** What worker i has still to do. */
  function Remaining(u: Setup, i: nat, w: Worker): seq<Event> {
    Before(w.pc, w.blocked, w.round, RoundsNow(u, i, w)) + ScriptFrom(u, i, |w.log|)
  }

  // ----- a step does the first thing that is still to do

  lemma RoundsUnrolledEvents(k: nat)
    requires k > 0
    ensures [Waited(RoundStart)] + ([Did(Calibrating), Waited(RoundEnd)] + RoundEvents(k - 1) + AFTER_ROUNDS)
         == RoundEvents(k) + AFTER_ROUNDS
  {
    assert RoundEvents(k) == [Waited(RoundStart), Did(Calibrating), Waited(RoundEnd)] + RoundEvents(k - 1);
  }

  lemma WorkDoes(p: Point, round: nat, k: nat)
    requires CanWork(p)
    ensures Before(p, false, round, k) == [Did(p)] + Before(Worked(p), false, round, k)
  {
    match p {
      case Starting => FirstOfThree(Did(Starting), Waited(RunStart), Waited(CalibrationStart), RoundEvents(k));
      case Calibrating => FirstOfTwo(Did(Calibrating), Waited(RoundEnd), RoundEvents(k - round - 1));
      case _ =>
    }
  }

  lemma FirstOfThree(a: Event, b: Event, c: Event, rounds: seq<Event>)
    ensures [a, b, c] + rounds + AFTER_ROUNDS == [a] + ([b] + ([c] + rounds + AFTER_ROUNDS))
  {
  }

  lemma FirstOfTwo(a: Event, b: Event, rounds: seq<Event>)
    ensures [a, b] + rounds + AFTER_ROUNDS == [a] + ([b] + (rounds + AFTER_ROUNDS))
  {
  }

  lemma ArriveDoes(b: Barrier, round: nat, k: nat)
    ensures Before(Wait(b), false, round, k) == [Waited(b)] + Before(Wait(b), true, round, k)
  {
  }

  lemma LeaveDoes(b: Barrier, round: nat, k: nat)
    requires k > 0 && (b == RoundStart || b == RoundEnd ==> round < k) && (b == CalibrationStart ==> round == 0)
    ensures var after := if b == RoundEnd then round + 1 else round;
      Before(Passed(b, after < k), false, after, k) == Before(Wait(b), true, round, k)
  {
    match b {
      case RunStart =>
      case CalibrationStart => RoundsUnrolledEvents(k);
      case RoundStart =>
      case RoundEnd => RoundEndDoes(round, k);
      case _ => LateDoes(b, round, k);
    }
  }

  lemma RoundEndDoes(round: nat, k: nat)
    requires round < k
    ensures Before(Passed(RoundEnd, round + 1 < k), false, round + 1, k) == Behind(RoundEnd, round, k)
  {
    if round + 1 < k {
      RoundsUnrolledEvents(k - round - 1);
    }
  }

  lemma LateDoes(b: Barrier, round: nat, k: nat)
    requires b !in {RunStart, CalibrationStart, RoundStart, RoundEnd}
    ensures forall again :: Before(Passed(b, again), false, round, k) == Behind(b, round, k)
  {
  }

  lemma TakeDoes(c: Command, k: nat)
    ensures Before(Entry(c), false, 0, k) == Script(c, k)
  {
  }

  // ----- the same for a worker

  lemma WorkRemaining(u: Setup, i: nat, w: Worker)
    requires CanWork(w.pc) && !w.blocked
    ensures Remaining(u, i, w) == [Did(w.pc)] + Remaining(u, i, w.(pc := Worked(w.pc)))
  {
    WorkDoes(w.pc, w.round, RoundsNow(u, i, w));
    Regroup([Did(w.pc)], Before(Worked(w.pc), false, w.round, RoundsNow(u, i, w)), ScriptFrom(u, i, |w.log|));
  }

  lemma ArriveRemaining(u: Setup, i: nat, w: Worker)
    requires w.pc.Wait? && !w.blocked
    ensures Remaining(u, i, w) == [Waited(w.pc.at)] + Remaining(u, i, ArrivedAt(w))
  {
    ArriveDoes(w.pc.at, w.round, RoundsNow(u, i, w));
    Regroup([Waited(w.pc.at)], Before(w.pc, true, w.round, RoundsNow(u, i, w)), ScriptFrom(u, i, |w.log|));
  }

  lemma LeaveRemaining(u: Setup, i: nat, w: Worker)
    requires w.pc.Wait? && w.blocked && RoundOk(w, RoundsNow(u, i, w))
    ensures Remaining(u, i, w) == Remaining(u, i, Left(w, RoundsNow(u, i, w)))
  {
    LeaveDoes(w.pc.at, w.round, RoundsNow(u, i, w));
  }

  lemma TakeRemaining(u: Setup, i: nat, w: Worker)
    requires w.pc == Idle && !w.blocked && w.queue != [] && |w.log| < |u.plan| && w.queue[0] == u.plan[|w.log|]
    ensures Remaining(u, i, w) == Remaining(u, i, Taken(w))
  {
    var n := |w.log|;
    TakeDoes(w.queue[0], u.Rounds(i, n));
    assert ScriptFrom(u, i, n) == Script(u.plan[n], u.Rounds(i, n)) + ScriptFrom(u, i, n + 1);
  }

  /** A step takes what it does off what worker i has still to do. */
  lemma StepDoes(u: Setup, s: State, t: Step, i: nat)
    requires u.Valid() && Inv(u, s) && Enabled(u, s, t) && i < u.n
    ensures Remaining(u, i, s.workers[i]) == EventOf(s, t, i) + Remaining(u, i, Apply(u, s, t).workers[i])
  {
    var w, w' := s.workers[i], Apply(u, s, t).workers[i];
    assert WorkerOk(u, s, i);
    StepMoves(u, s, t, i);
    if OwnStep(t, i) {
      OwnStepDoes(u, s, t, i);
    } else {
      NothingDone(u, i, w, w');
    }
  }

  /** How a step changes worker i. */
  lemma StepMoves(u: Setup, s: State, t: Step, i: nat)
    requires Enabled(u, s, t) && i < |s.workers|
    ensures var w, w' := s.workers[i], Apply(u, s, t).workers[i];
      match t
      case Send => w' == w || w' == w.(queue := w'.queue)
      case Take(j) => w' == if j == i then Taken(w) else w
      case Work(j) => w' == if j == i then w.(pc := Worked(w.pc)) else w
      case Arrive(j) => w' == if j == i then ArrivedAt(w) else w
      case Leave(j) => w' == if j == i then Left(w, RoundsNow(u, i, w)) else w
    ensures Apply(u, s, t).workers[i] == s.workers[i] || t == Send || OwnStep(t, i)
    ensures !OwnStep(t, i) ==> EventOf(s, t, i) == []
  {
  }

  predicate OwnStep(t: Step, i: nat) {
    t == Take(i) || t == Work(i) || t == Arrive(i) || t == Leave(i)
  }

  lemma NothingDone(u: Setup, i: nat, w: Worker, w': Worker)
    requires w' == w.(queue := w'.queue)
    ensures Remaining(u, i, w') == Remaining(u, i, w) == [] + Remaining(u, i, w')
  {
  }

  lemma OwnStepDoes(u: Setup, s: State, t: Step, i: nat)
    requires u.Valid() && Inv(u, s) && Enabled(u, s, t) && i < u.n && OwnStep(t, i)
    ensures Remaining(u, i, s.workers[i]) == EventOf(s, t, i) + Remaining(u, i, Apply(u, s, t).workers[i])
  {
    var w, w' := s.workers[i], Apply(u, s, t).workers[i];
    assert WorkerOk(u, s, i);
    StepMoves(u, s, t, i);
    match t {
      case Take(_) =>
        FirstOf(w.log, w.queue, u.plan, SentTo(s, i));
        TakeRemaining(u, i, w);
        NoneFirst(Remaining(u, i, w'));
      case Work(_) => WorkRemaining(u, i, w);
      case Arrive(_) => ArriveRemaining(u, i, w);
      case Leave(_) =>
        LeaveRemaining(u, i, w);
        NoneFirst(Remaining(u, i, w'));
    }
  }

  lemma NoneFirst(s: seq<Event>)
    ensures [] + s == s
  {
  }

  lemma StartRemaining(u: Setup, i: nat)
    requires i < u.n
    ensures Remaining(u, i, Start(u).workers[i]) == ScriptFrom(u, i, 0)
  {
    assert Start(u).workers[i] == Worker(Idle, false, 0, [], [], []);
    assert [] + ScriptFrom(u, i, 0) == ScriptFrom(u, i, 0);
  }

  // ----- whole runs

  /** What a worker has done and what it has still to do are its script. */
  lemma {:induction false} DoneAndRemaining(u: Setup, steps: seq<Step>, i: nat)
    requires u.Valid() && Run(u, steps).Some? && i < u.n
    ensures |Run(u, steps).value.workers| == u.n
    ensures EventsOf(u, steps, i) + Remaining(u, i, Run(u, steps).value.workers[i]) == ScriptFrom(u, i, 0)
    decreases |steps|
  {
    InvAlways(u, steps);
    if steps == [] {
      StartRemaining(u, i);
    } else {
      var n := |steps| - 1;
      var s := Run(u, steps[..n]).value;
      InvAlways(u, steps[..n]);
      DoneAndRemaining(u, steps[..n], i);
      StepDoes(u, s, steps[n], i);
      Regroup(
        EventsOf(u, steps[..n], i), EventOf(s, steps[n], i), Remaining(u, i, Run(u, steps).value.workers[i]));
    }
  }

  /**
   In every run a worker does a first part of its script, and all of it when it has
   ended: no work is left out or done twice, and every calibration round and every
   measured loop lies between its waits.
   */
  lemma WorkerFollowsScript(u: Setup, steps: seq<Step>, i: nat)
    requires u.Valid() && Run(u, steps).Some? && i < u.n
    ensures EventsOf(u, steps, i) <= ScriptFrom(u, i, 0)
    ensures i < |Run(u, steps).value.workers|
    ensures Run(u, steps).value.workers[i].pc == Exited ==> EventsOf(u, steps, i) == ScriptFrom(u, i, 0)
  {
    DoneAndRemaining(u, steps, i);
    InvAlways(u, steps);
    var s := Run(u, steps).value;
    if s.workers[i].pc == Exited {
      ExitedHasAll(u, s, i);
    }
  }

  lemma ExitedHasAll(u: Setup, s: State, i: nat)
    requires u.Valid() && Inv(u, s) && i < u.n && s.workers[i].pc == Exited
    ensures Remaining(u, i, s.workers[i]) == []
  {
    var w := s.workers[i];
    assert WorkerOk(u, s, i);
    LogIsPrefix(u, s, i);
    assert |w.log| == |u.plan|;
  }

  // ----- the work alone

  function WorkOf(e: Event): seq<Point> {
    if e.Did? then [e.work] else []
  }

  function Flattened<E, P>(f: E -> seq<P>, s: seq<E>): seq<P> {
    if s == [] then [] else f(s[0]) + Flattened(f, s[1..])
  }

  lemma {:induction false} FlattenedSum<E, P>(f: E -> seq<P>, a: seq<E>, b: seq<E>)
    ensures Flattened(f, a + b) == Flattened(f, a) + Flattened(f, b)
  {
    if a == [] {
      assert a + b == b;
    } else {
      assert (a + b)[1..] == a[1..] + b;
      FlattenedSum(f, a[1..], b);
    }
  }

  lemma FlattenedThree<E, P>(f: E -> seq<P>, a: E, b: E, c: E)
    ensures Flattened(f, [a, b, c]) == f(a) + f(b) + f(c)
  {
    assert [a, b, c][1..] == [b, c] && [b, c][1..] == [c] && [c][1..] == [];
    assert Flattened(f, [c]) == f(c);
    assert Flattened(f, [b, c]) == f(b) + Flattened(f, [c]);
  }

  /** The work among the events. */
  function Works(events: seq<Event>): seq<Point> {
    Flattened(WorkOf, events)
  }

  lemma WorksSum(a: seq<Event>, b: seq<Event>)
    ensures Works(a + b) == Works(a) + Works(b)
  {
    FlattenedSum(WorkOf, a, b);
  }

  lemma WorksOfThree(a: Event, b: Event, c: Event)
    ensures Works([a, b, c]) == WorkOf(a) + WorkOf(b) + WorkOf(c)
  {
    FlattenedThree(WorkOf, a, b, c);
  }

  lemma WorksOfTwo(a: Event, b: Event)
    ensures Works([a, b]) == WorkOf(a) + WorkOf(b)
  {
    assert [a, b][1..] == [b] && [b][1..] == [];
    assert Flattened(WorkOf, [b]) == WorkOf(b);
  }

  function Repeated(p: Point, k: nat): (s: seq<Point>)
    ensures |s| == k && forall j :: 0 <= j < k ==> s[j] == p
  {
    seq(k, _ => p)
  }

  lemma {:induction false} WorksOfRounds(k: nat)
    ensures Works(RoundEvents(k)) == Repeated(Calibrating, k)
  {
    if k > 0 {
      WorksOfRounds(k - 1);
      var one := [Waited(RoundStart), Did(Calibrating), Waited(RoundEnd)];
      WorksSum(one, RoundEvents(k - 1));
      WorksOfThree(one[0], one[1], one[2]);
    }
  }

  lemma WorksAfterRounds()
    ensures Works(AFTER_ROUNDS) == [Timing, Completing]
  {
    var a, b := [Waited(CalibrationEnd), Waited(TimedStart), Did(Timing)],
      [Waited(TimedEnd), Waited(Measured), Waited(RunEnd)];
    var c := [Did(Completing), Waited(CommandEnd)];
    assert AFTER_ROUNDS == a + (b + c);
    WorksSum(a, b + c);
    WorksSum(b, c);
    WorksOfThree(a[0], a[1], a[2]);
    WorksOfThree(b[0], b[1], b[2]);
    WorksOfTwo(c[0], c[1]);
  }

  /** The work for a command: a run calibrates as often as it has rounds, and then measures once. */
  lemma WorksOfCommand(c: Command, k: nat)
    ensures Works(Script(c, k)) ==
      match c
      case INITIALIZE => [Initializing, Completing]
      case NOOP => [Nothing, Completing]
      case RUN => [Starting] + Repeated(Calibrating, k) + [Timing, Completing]
      case EXIT => [Exiting]
  {
    match c {
      case RUN =>
        var start := [Did(Starting), Waited(RunStart), Waited(CalibrationStart)];
        WorksSum(start + RoundEvents(k), AFTER_ROUNDS);
        WorksSum(start, RoundEvents(k));
        WorksOfThree(start[0], start[1], start[2]);
        WorksOfRounds(k);
        WorksAfterRounds();
      case INITIALIZE => WorksOfThree(Did(Initializing), Did(Completing), Waited(CommandEnd));
      case NOOP => WorksOfThree(Did(Nothing), Did(Completing), Waited(CommandEnd));
      case EXIT => WorksOfThree(Waited(ExitStart), Did(Exiting), Waited(ExitEnd));
    }
  }

  // ----- the measured loop is reached

  /** From every run on there is one that ends. */
  lemma {:induction false} CanFinish(u: Setup, steps: seq<Step>) returns (all: seq<Step>)
    requires u.Valid() && SameTotals(u) && Run(u, steps).Some?
    ensures steps <= all && Run(u, all).Some? && AllExited(Run(u, all).value)
    decreases StepsLeft(u, steps)
  {
    InvAlways(u, steps);
    var s := Run(u, steps).value;
    all := steps;
    if !AllExited(s) {
      var t := NoDeadlock(u, s);
      var more := steps + [t];
      assert more[..|steps|] == steps;
      StepDecreases(u, s, t);
      InvAlways(u, more);
      TotalNonNegative(u, Run(u, more).value, u.n);
      all := CanFinish(u, more);
    }
  }

  /** A bound for the steps that the run can still go on for. */
  function StepsLeft(u: Setup, steps: seq<Step>): int {
    match Run(u, steps)
    case Some(s) => if u.n <= |s.workers| then Total(u, s.workers, u.n) else 0
    case None => 0
  }

  /** Work that has been done was the work of the point that the worker was at. */
  lemma {:induction false} DoneWasReached(u: Setup, steps: seq<Step>, i: nat, p: Point) returns (n: nat)
    requires u.Valid() && Run(u, steps).Some? && i < u.n && Did(p) in EventsOf(u, steps, i)
    ensures n < |steps| && Run(u, steps[..n]).Some? && i < |Run(u, steps[..n]).value.workers|
    ensures Run(u, steps[..n]).value.workers[i].pc == p
    decreases |steps|
  {
    n := |steps| - 1;
    InvAlways(u, steps[..n]);
    var s := Run(u, steps[..n]).value;
    if Did(p) in EventsOf(u, steps[..n], i) {
      var k := DoneWasReached(u, steps[..n], i, p);
      assert steps[..n][..k] == steps[..k];
      n := k;
    }
  }

  lemma {:induction false} MeasuresInScript(u: Setup, i: nat, from: nat, c: nat)
    requires from <= c < |u.plan| && u.plan[c] == RUN
    ensures Did(Timing) in ScriptFrom(u, i, from)
    decreases c - from
  {
    if from == c {
      MeasuresInRun(u.Rounds(i, c));
    } else {
      MeasuresInScript(u, i, from + 1, c);
    }
    InOneOf(Did(Timing), Script(u.plan[from], u.Rounds(i, from)), ScriptFrom(u, i, from + 1));
  }

  lemma InOneOf<T>(x: T, a: seq<T>, b: seq<T>)
    ensures x in a + b <==> x in a || x in b
  {
  }

  lemma MeasuresInRun(k: nat)
    ensures Did(Timing) in Script(RUN, k)
  {
    assert AFTER_ROUNDS[2] == Did(Timing);
    InOneOf(
      Did(Timing), [Did(Starting), Waited(RunStart), Waited(CalibrationStart)] + RoundEvents(k), AFTER_ROUNDS);
  }

  /** If the plan has a RUN, every run of the system can be led to its end, and on the way every worker measures. */
  lemma EveryWorkerMeasures(u: Setup, steps: seq<Step>, i: nat, c: nat) returns (all: seq<Step>, n: nat)
    requires u.Valid() && SameTotals(u) && Run(u, steps).Some?
    requires i < u.n && c < |u.plan| && u.plan[c] == RUN
    ensures steps <= all && Run(u, all).Some? && AllExited(Run(u, all).value)
    ensures n < |all| && Run(u, all[..n]).Some? && i < |Run(u, all[..n]).value.workers|
    ensures Run(u, all[..n]).value.workers[i].pc == Timing
  {
    all := CanFinish(u, steps);
    WorkerFollowsScript(u, all, i);
    MeasuresInScript(u, i, 0, c);
    n := DoneWasReached(u, all, i, Timing);
  }
}
