/**
 The worker threads of a workgroup, the main thread that sends them commands, and
 the barrier they share: _func_t of src/threads.c, run_benchmark of src/bench.c and
 the sends of likwid-bench.c, as a system of steps. Any number of workers, and
 every interleaving of their steps with each other and with the sender.
 */
module Protocol {
  import opened Wrappers

  datatype Command = INITIALIZE | NOOP | RUN | EXIT

  /** The barrier waits by their place in the code; all of them are waits at the same barrier. */
  datatype Barrier =
    | RunStart | CalibrationStart | RoundStart | RoundEnd | CalibrationEnd
    | TimedStart | TimedEnd | Measured | RunEnd
    | CommandEnd | ExitStart | ExitEnd

  /** Where a worker is. Wait: it is about to wait at the barrier, or does. */
  datatype Point =
    | Idle | Initializing | Nothing | Starting | Calibrating | Timing | Completing | Exiting | Exited
    | Wait(at: Barrier)

  /**
   `blocked`: it has arrived at the barrier and not gone on. `round`: the calibration
   rounds done in this run. `log` and `waits` record the commands it took from its
   queue and its waits.
   */
  datatype Worker = Worker(
    pc: Point, blocked: bool, round: nat, queue: seq<Command>, log: seq<Command>, waits: seq<Barrier>)

  /** The barrier counts arrivals; `generation` is the number of times it has opened. The sender is about to send the
      command `stage` of the plan to worker `next`. */
  datatype State = State(workers: seq<Worker>, arrived: nat, generation: nat, stage: nat, next: nat)

  /**
   The commands that every worker is sent, and how many calibration rounds after
   the first one a worker makes in its run number c: that is up to its own timer.
   */
  datatype Setup = Setup(n: nat, plan: seq<Command>, extra: (nat, nat) -> nat) {
    /** There are workers, and the last command, and no other, is EXIT. */
    ghost predicate Valid() {
      && n > 0 && plan != [] && plan[|plan| - 1] == EXIT
      && forall c :: 0 <= c < |plan| - 1 ==> plan[c] != EXIT
    }

    function Rounds(i: nat, c: nat): nat {
      extra(i, c) + 1
    }
  }

  // ----- the steps

  datatype Step = Send | Take(i: nat) | Work(i: nat) | Arrive(i: nat) | Leave(i: nat)

  /** Where a command leads. */
  function Entry(c: Command): Point {
    match c
    case INITIALIZE => Initializing
    case NOOP => Nothing
    case RUN => Starting
    case EXIT => Wait(ExitStart)
  }

  /** What comes after something that is not a wait. */
  function Worked(p: Point): Point
    requires p in {Initializing, Nothing, Starting, Calibrating, Timing, Completing, Exiting}
  {
    match p
    case Initializing => Completing
    case Nothing => Completing
    case Starting => Wait(RunStart)
    case Calibrating => Wait(RoundEnd)
    case Timing => Wait(TimedEnd)
    case Completing => Wait(CommandEnd)
    case _ => Wait(ExitEnd)
  }

  /** What comes after a wait; after a calibration round, another one or the end of the calibration. */
  function Passed(b: Barrier, again: bool): Point {
    match b
    case RunStart => Wait(CalibrationStart)
    case CalibrationStart => Wait(RoundStart)
    case RoundStart => Calibrating
    case RoundEnd => if again then Wait(RoundStart) else Wait(CalibrationEnd)
    case CalibrationEnd => Wait(TimedStart)
    case TimedStart => Timing
    case TimedEnd => Wait(Measured)
    case Measured => Wait(RunEnd)
    case RunEnd => Completing
    case CommandEnd => Idle
    case ExitStart => Exiting
    case ExitEnd => Exited
  }

  /** A worker's own steps; `k` is the number of rounds it makes in its present run. */
  function Taken(w: Worker): Worker
    requires w.queue != []
  {
    w.(pc := Entry(w.queue[0]), round := 0, queue := w.queue[1..], log := w.log + [w.queue[0]])
  }

  function Left(w: Worker, k: nat): Worker
    requires w.pc.Wait?
  {
    var round := if w.pc.at == RoundEnd then w.round + 1 else w.round;
    w.(pc := Passed(w.pc.at, round < k), blocked := false, round := round)
  }

  function ArrivedAt(w: Worker): Worker
    requires w.pc.Wait?
  {
    w.(blocked := true, waits := w.waits + [w.pc.at])
  }

  predicate CanWork(p: Point) {
    !p.Wait? && p != Idle && p != Exited
  }

  /** The rounds of the n-th command of worker i. */
  function RoundsOf(u: Setup, i: nat, n: nat): nat {
    if n == 0 then 1 else u.Rounds(i, n - 1)
  }

  /** The rounds of the command that the worker is busy with. */
  function RoundsNow(u: Setup, i: nat, w: Worker): nat {
    RoundsOf(u, i, |w.log|)
  }

  predicate Enabled(u: Setup, s: State, t: Step) {
    match t
    case Send => s.stage < |u.plan| && s.next < |s.workers|
    case Take(i) => i < |s.workers| && s.workers[i].pc == Idle && s.workers[i].queue != []
    case Work(i) => i < |s.workers| && CanWork(s.workers[i].pc)
    case Arrive(i) => i < |s.workers| && s.workers[i].pc.Wait? && !s.workers[i].blocked
    case Leave(i) =>
      i < |s.workers| && s.workers[i].pc.Wait? && s.workers[i].blocked && s.generation >= |s.workers[i].waits|
  }

  function Apply(u: Setup, s: State, t: Step): State
    requires Enabled(u, s, t)
  {
    match t
    case Send =>
      var w := s.workers[s.next];
      var sent := s.(workers := s.workers[s.next := w.(queue := w.queue + [u.plan[s.stage]])]);
      if s.next + 1 < |s.workers| then sent.(next := s.next + 1) else sent.(stage := s.stage + 1, next := 0)
    case Take(i) => s.(workers := s.workers[i := Taken(s.workers[i])])
    case Work(i) => s.(workers := s.workers[i := s.workers[i].(pc := Worked(s.workers[i].pc))])
    case Arrive(i) =>
      var at := s.(workers := s.workers[i := ArrivedAt(s.workers[i])]);
      if s.arrived + 1 < |s.workers| then at.(arrived := s.arrived + 1)
      else at.(arrived := 0, generation := s.generation + 1)
    case Leave(i) => s.(workers := s.workers[i := Left(s.workers[i], RoundsNow(u, i, s.workers[i]))])
  }

  function Start(u: Setup): State {
    State(seq(u.n, _ => Worker(Idle, false, 0, [], [], [])), 0, 0, 0, 0)
  }

  /** Where a run leads, if its steps are possible one after the other. */
  function Run(u: Setup, steps: seq<Step>): Option<State>
    decreases |steps|
  {
    if steps == [] then Some(Start(u))
    else
      var n := |steps| - 1;
      match Run(u, steps[..n])
      case None => None
      case Some(s) => if Enabled(u, s, steps[n]) then Some(Apply(u, s, steps[n])) else None
  }

  // ----- the waits of a worker

  /** k calibration rounds. */
  function RoundWaits(k: int): (r: seq<Barrier>)
    ensures |r| == if k > 0 then 2 * k else 0
    decreases k
  {
    if k <= 0 then [] else [RoundStart, RoundEnd] + RoundWaits(k - 1)
  }

  const RUN_TAIL := [CalibrationEnd, TimedStart, TimedEnd, Measured, RunEnd, CommandEnd]

  function CommandWaits(c: Command, k: nat): seq<Barrier> {
    match c
    case INITIALIZE => [CommandEnd]
    case NOOP => [CommandEnd]
    case RUN => [RunStart, CalibrationStart] + RoundWaits(k) + RUN_TAIL
    case EXIT => [ExitStart, ExitEnd]
  }

  /** All waits of worker i from its command number c on. */
  function AllWaits(u: Setup, i: nat, c: nat): seq<Barrier>
    decreases |u.plan| - c
  {
    if c >= |u.plan| then [] else CommandWaits(u.plan[c], u.Rounds(i, c)) + AllWaits(u, i, c + 1)
  }

  /** The waits that follow a wait in the same command; k rounds in all, `round` of them done before this one. */
  function Following(b: Barrier, round: nat, k: nat): seq<Barrier> {
    match b
    case RunStart => [CalibrationStart] + RoundWaits(k) + RUN_TAIL
    case CalibrationStart => RoundWaits(k) + RUN_TAIL
    case RoundStart => [RoundEnd] + RoundWaits(k - round - 1) + RUN_TAIL
    case RoundEnd => RoundWaits(k - round - 1) + RUN_TAIL
    case CalibrationEnd => RUN_TAIL[1..]
    case TimedStart => RUN_TAIL[2..]
    case TimedEnd => RUN_TAIL[3..]
    case Measured => RUN_TAIL[4..]
    case RunEnd => RUN_TAIL[5..]
    case CommandEnd => []
    case ExitStart => [ExitEnd]
    case ExitEnd => []
  }

  /** The waits that are still to come in the present command. */
  function Ahead(pc: Point, blocked: bool, round: nat, k: nat): seq<Barrier> {
    match pc
    case Idle => []
    case Initializing => [CommandEnd]
    case Nothing => [CommandEnd]
    case Starting => [RunStart] + Following(RunStart, round, k)
    case Calibrating => Following(RoundStart, round, k)
    case Timing => Following(TimedStart, round, k)
    case Completing => [CommandEnd]
    case Exiting => [ExitEnd]
    case Exited => []
    case Wait(b) => (if blocked then [] else [b]) + Following(b, round, k)
  }

  /** The waits that worker i has still to make, those of later commands included. */
  function ToCome(u: Setup, i: nat, w: Worker): seq<Barrier> {
    Rest(u, i, w.pc, w.blocked, w.round, |w.log|)
  }

  /** The same for a worker that has taken n commands. */
  function Rest(u: Setup, i: nat, pc: Point, blocked: bool, round: nat, n: nat): seq<Barrier> {
    Ahead(pc, blocked, round, RoundsOf(u, i, n)) + AllWaits(u, i, n)
  }

  /** Which command the worker can be busy with at a point. */
  predicate Fits(p: Point, c: Command) {
    match p
    case Idle => c != EXIT
    case Initializing => c == INITIALIZE
    case Nothing => c == NOOP
    case Completing => c != EXIT
    case Starting => c == RUN
    case Calibrating => c == RUN
    case Timing => c == RUN
    case Exiting => c == EXIT
    case Exited => c == EXIT
    case Wait(b) =>
      if b == CommandEnd then c != EXIT else if b == ExitStart || b == ExitEnd then c == EXIT else c == RUN
  }

  /** The point lies inside the calibration. */
  predicate InRound(p: Point) {
    p == Calibrating || p == Wait(RoundStart) || p == Wait(RoundEnd)
  }

  // ----- the invariant

  /** Inside the calibration there is a round left to do; before it none has been done. */
  ghost predicate RoundOk(w: Worker, k: nat) {
    && (InRound(w.pc) ==> w.round < k)
    && (w.pc in {Starting, Wait(RunStart), Wait(CalibrationStart)} ==> w.round == 0)
  }

  /** How many commands worker i has been sent. */
  function SentTo(s: State, i: nat): nat {
    if i < s.next then s.stage + 1 else s.stage
  }

  /** What is true of worker i when it has been sent the first `sent` commands of the plan. */
  ghost predicate Sound(u: Setup, i: nat, w: Worker, sent: nat) {
    && sent <= |u.plan| && w.log + w.queue == u.plan[..sent]
    && (if w.log == [] then w.pc == Idle else Fits(w.pc, w.log[|w.log| - 1]))
    && RoundOk(w, RoundsNow(u, i, w))
    && (w.blocked ==> w.pc.Wait? && w.waits != [] && w.waits[|w.waits| - 1] == w.pc.at)
    && w.waits + ToCome(u, i, w) == AllWaits(u, i, 0)
  }

  ghost predicate WorkerOk(u: Setup, s: State, i: nat)
    requires i < |s.workers|
  {
    Sound(u, i, s.workers[i], SentTo(s, i))
  }

  /** Whether the worker is held by the barrier. */
  predicate Held(w: Worker, generation: nat) {
    w.blocked && |w.waits| == generation + 1
  }

  function HeldCount(ws: seq<Worker>, generation: nat): nat {
    if ws == [] then 0 else (if Held(ws[0], generation) then 1 else 0) + HeldCount(ws[1..], generation)
  }

  ghost predicate BarrierOk(s: State) {
    && s.arrived == HeldCount(s.workers, s.generation) < |s.workers|
    && forall i {:trigger s.workers[i]} :: 0 <= i < |s.workers| ==>
         |s.workers[i].waits| == s.generation || Held(s.workers[i], s.generation)
  }

  ghost predicate Inv(u: Setup, s: State) {
    && |s.workers| == u.n && s.stage <= |u.plan| && s.next < u.n && (s.stage == |u.plan| ==> s.next == 0)
    && (forall i :: 0 <= i < u.n ==> WorkerOk(u, s, i))
    && BarrierOk(s)
  }

  // ----- every step keeps the invariant

  lemma {:induction false} HeldUpdate(ws: seq<Worker>, g: nat, i: nat, w: Worker)
    requires i < |ws|
    ensures HeldCount(ws[i := w], g)
         == HeldCount(ws, g) - (if Held(ws[i], g) then 1 else 0) + (if Held(w, g) then 1 else 0)
  {
    if i == 0 {
      assert ws[0 := w][1..] == ws[1..];
    } else {
      assert ws[i := w][1..] == ws[1..][i - 1 := w];
      HeldUpdate(ws[1..], g, i - 1, w);
    }
  }

  lemma {:induction false} HeldAll(ws: seq<Worker>, g: nat)
    ensures HeldCount(ws, g) <= |ws|
    ensures HeldCount(ws, g) == |ws| <==> forall i :: 0 <= i < |ws| ==> Held(ws[i], g)
    ensures HeldCount(ws, g) == 0 <==> forall i :: 0 <= i < |ws| ==> !Held(ws[i], g)
  {
    if ws != [] {
      HeldAll(ws[1..], g);
      assert forall i :: 1 <= i < |ws| ==> ws[i] == ws[1..][i - 1];
    }
  }

  // what a step does to the waits to come

  lemma RoundsUnrolled(k: nat)
    requires k > 0
    ensures [RoundStart] + ([RoundEnd] + RoundWaits(k - 1) + RUN_TAIL) == RoundWaits(k) + RUN_TAIL
  {
    assert RoundWaits(k) == [RoundStart, RoundEnd] + RoundWaits(k - 1);
  }

  lemma LeaveKeepsAhead(w: Worker, k: nat)
    requires w.pc.Wait? && w.blocked && k > 0 && RoundOk(w, k)
    ensures var w' := Left(w, k);
      Ahead(w'.pc, w'.blocked, w'.round, k) == Ahead(w.pc, w.blocked, w.round, k) && RoundOk(w', k)
  {
    LeaveAhead(w.pc.at, w.round, k);
  }

  /** Going on from a wait, what follows it is what is still to come. */
  lemma LeaveAhead(b: Barrier, round: nat, k: nat)
    requires k > 0 && (b == RoundStart || b == RoundEnd ==> round < k) && (b == CalibrationStart ==> round == 0)
    ensures var after := if b == RoundEnd then round + 1 else round;
      Ahead(Passed(b, after < k), false, after, k) == [] + Following(b, round, k)
  {
    match b {
      case CalibrationStart =>
        RoundsUnrolled(k);
        NoneBefore(RoundWaits(k) + RUN_TAIL);
      case RoundEnd => LeaveRound(round, k);
      case RunStart => NoneBefore([CalibrationStart] + RoundWaits(k) + RUN_TAIL);
      case RoundStart => NoneBefore([RoundEnd] + RoundWaits(k - round - 1) + RUN_TAIL);
      case _ => LeaveLate(b, round, k);
    }
  }

  lemma NoneBefore(s: seq<Barrier>)
    ensures [] + s == s
  {
  }

  lemma LeaveRound(round: nat, k: nat)
    requires round < k
    ensures Ahead(Passed(RoundEnd, round + 1 < k), false, round + 1, k) == [] + Following(RoundEnd, round, k)
  {
    var left := k - round - 1;
    NoneBefore(RoundWaits(left) + RUN_TAIL);
    if left > 0 {
      RoundsUnrolled(left);
    } else {
      assert [CalibrationEnd] + RUN_TAIL[1..] == RUN_TAIL;
    }
  }

  lemma LeaveLate(b: Barrier, round: nat, k: nat)
    requires b !in {RunStart, CalibrationStart, RoundStart, RoundEnd}
    ensures Ahead(Passed(b, false), false, round, k) == [] + Following(b, round, k)
    ensures Passed(b, false) == Passed(b, true)
  {
  }

  lemma LeaveToCome(u: Setup, i: nat, w: Worker)
    requires w.pc.Wait? && w.blocked && RoundOk(w, RoundsNow(u, i, w))
    ensures ToCome(u, i, Left(w, RoundsNow(u, i, w))) == ToCome(u, i, w)
  {
    LeaveKeepsAhead(w, RoundsNow(u, i, w));
  }

  lemma TakeToCome(u: Setup, i: nat, w: Worker)
    requires w.pc == Idle && !w.blocked && w.queue != [] && |w.log| < |u.plan| && w.queue[0] == u.plan[|w.log|]
    ensures ToCome(u, i, Taken(w)) == ToCome(u, i, w)
  {
    var n, c := |w.log|, w.queue[0];
    EntryAhead(c, u.Rounds(i, n));
    NextCommandWaits(u, i, n);
    NoneBefore(AllWaits(u, i, n));
  }

  lemma NextCommandWaits(u: Setup, i: nat, n: nat)
    requires n < |u.plan|
    ensures AllWaits(u, i, n) == CommandWaits(u.plan[n], u.Rounds(i, n)) + AllWaits(u, i, n + 1)
  {
  }

  lemma EntryAhead(c: Command, k: nat)
    ensures Ahead(Entry(c), false, 0, k) == CommandWaits(c, k)
  {
    if c == RUN {
      assert [RunStart] + ([CalibrationStart] + RoundWaits(k) + RUN_TAIL) == CommandWaits(RUN, k);
    }
  }

  lemma WorkToCome(u: Setup, i: nat, w: Worker)
    requires CanWork(w.pc) && !w.blocked
    ensures ToCome(u, i, w.(pc := Worked(w.pc))) == ToCome(u, i, w)
  {
    WorkAhead(w.pc, w.round, RoundsNow(u, i, w));
  }

  lemma WorkAhead(p: Point, round: nat, k: nat)
    requires CanWork(p)
    ensures Ahead(Worked(p), false, round, k) == Ahead(p, false, round, k)
  {
    if p == Timing {
      assert [TimedEnd] + RUN_TAIL[3..] == RUN_TAIL[2..];
    } else if p == Calibrating {
      assert [RoundEnd] + (RoundWaits(k - round - 1) + RUN_TAIL) == [RoundEnd] + RoundWaits(k - round - 1) + RUN_TAIL;
    }
  }

  lemma ArriveToCome(u: Setup, i: nat, w: Worker)
    requires w.pc.Wait? && !w.blocked
    ensures ToCome(u, i, w) == [w.pc.at] + ToCome(u, i, ArrivedAt(w))
  {
    ArriveRest(Following(w.pc.at, w.round, RoundsNow(u, i, w)), w.pc.at, AllWaits(u, i, |w.log|));
  }

  lemma ArriveRest(a: seq<Barrier>, at: Barrier, b: seq<Barrier>)
    ensures [at] + a + b == [at] + ([] + a + b)
  {
    assert [] + a == a;
  }

  lemma SendToCome(u: Setup, i: nat, w: Worker, c: Command)
    ensures ToCome(u, i, w.(queue := w.queue + [c])) == ToCome(u, i, w)
  {
  }

  lemma FirstOf<T>(log: seq<T>, queue: seq<T>, plan: seq<T>, sent: nat)
    requires sent <= |plan| && log + queue == plan[..sent] && queue != []
    ensures |log| < |plan| && queue[0] == plan[|log|] && log + [queue[0]] + queue[1..] == plan[..sent]
  {
    assert queue[0] == (log + queue)[|log|] == plan[..sent][|log|];
    Regroup(log, [queue[0]], queue[1..]);
    assert [queue[0]] + queue[1..] == queue;
  }

  lemma SendSound(u: Setup, i: nat, w: Worker, sent: nat)
    requires Sound(u, i, w, sent) && sent < |u.plan|
    ensures Sound(u, i, w.(queue := w.queue + [u.plan[sent]]), sent + 1)
  {
    var c := u.plan[sent];
    OneMoreSent(w.log, w.queue, u.plan, sent);
    SendToCome(u, i, w, c);
  }

  lemma OneMoreSent<T>(log: seq<T>, queue: seq<T>, plan: seq<T>, sent: nat)
    requires sent < |plan| && log + queue == plan[..sent]
    ensures log + (queue + [plan[sent]]) == plan[..sent + 1]
  {
    assert log + (queue + [plan[sent]]) == log + queue + [plan[sent]];
  }

  lemma TakeSound(u: Setup, i: nat, w: Worker, sent: nat)
    requires Sound(u, i, w, sent) && w.pc == Idle && w.queue != []
    ensures Sound(u, i, Taken(w), sent)
  {
    FirstOf(w.log, w.queue, u.plan, sent);
    TakeToCome(u, i, w);
  }

  lemma WorkSound(u: Setup, i: nat, w: Worker, sent: nat)
    requires Sound(u, i, w, sent) && CanWork(w.pc)
    ensures Sound(u, i, w.(pc := Worked(w.pc)), sent)
  {
    WorkToCome(u, i, w);
  }

  lemma ArriveSound(u: Setup, i: nat, w: Worker, sent: nat)
    requires Sound(u, i, w, sent) && w.pc.Wait? && !w.blocked
    ensures Sound(u, i, ArrivedAt(w), sent)
  {
    ArriveToCome(u, i, w);
    Regroup(w.waits, [w.pc.at], ToCome(u, i, ArrivedAt(w)));
  }

  lemma LeaveSound(u: Setup, i: nat, w: Worker, sent: nat)
    requires Sound(u, i, w, sent) && w.pc.Wait? && w.blocked
    ensures Sound(u, i, Left(w, RoundsNow(u, i, w)), sent)
  {
    var k := RoundsNow(u, i, w);
    LeaveKeepsAhead(w, k);
    LeaveToCome(u, i, w);
    LeaveFits(w.pc.at, Left(w, k).round < k, w.log);
  }

  lemma LeaveFits(b: Barrier, again: bool, log: seq<Command>)
    requires if log == [] then Wait(b) == Idle else Fits(Wait(b), log[|log| - 1])
    ensures log != [] && Fits(Passed(b, again), log[|log| - 1])
  {
  }

  /** A step of one worker leaves the others as they are. */
  lemma OneMoves(u: Setup, s: State, s': State, i: nat)
    requires Inv(u, s) && i < u.n && |s'.workers| == u.n && s'.stage == s.stage && s'.next == s.next
    requires s'.workers == s.workers[i := s'.workers[i]] && Sound(u, i, s'.workers[i], SentTo(s, i))
    ensures forall j :: 0 <= j < u.n ==> WorkerOk(u, s', j)
  {
    forall j | 0 <= j < u.n
      ensures WorkerOk(u, s', j)
    {
      assert WorkerOk(u, s, j);
    }
  }

  /** A worker that the barrier does not hold, before and after, does not change the count. */
  lemma BarrierStays(s: State, s': State, i: nat)
    requires BarrierOk(s) && i < |s.workers| == |s'.workers| && s'.workers == s.workers[i := s'.workers[i]]
    requires s'.arrived == s.arrived && s'.generation == s.generation
    requires s'.workers[i].waits == s.workers[i].waits
    requires Held(s.workers[i], s.generation) <==> Held(s'.workers[i], s.generation)
    ensures BarrierOk(s')
  {
    HeldUpdate(s.workers, s.generation, i, s'.workers[i]);
  }

  lemma SendKeeps(u: Setup, s: State)
    requires u.Valid() && Inv(u, s) && Enabled(u, s, Send)
    ensures Inv(u, Apply(u, s, Send))
  {
    var s', i := Apply(u, s, Send), s.next;
    assert WorkerOk(u, s, i);
    SendSound(u, i, s.workers[i], s.stage);
    SendOthers(u, s, s', i);
    BarrierStays(s, s', i);
  }

  lemma SendOthers(u: Setup, s: State, s': State, i: nat)
    requires Inv(u, s) && i == s.next < u.n && s.stage < |u.plan| && |s'.workers| == u.n
    requires s'.workers == s.workers[i := s'.workers[i]] && Sound(u, i, s'.workers[i], s.stage + 1)
    requires if i + 1 < u.n then s'.stage == s.stage && s'.next == i + 1 else s'.stage == s.stage + 1 && s'.next == 0
    ensures forall j :: 0 <= j < u.n ==> WorkerOk(u, s', j)
  {
    forall j | 0 <= j < u.n
      ensures WorkerOk(u, s', j)
    {
      assert WorkerOk(u, s, j);
      assert j != i ==> s'.workers[j] == s.workers[j] && SentTo(s', j) == SentTo(s, j);
    }
  }

  lemma TakeKeeps(u: Setup, s: State, i: nat)
    requires u.Valid() && Inv(u, s) && Enabled(u, s, Take(i))
    ensures Inv(u, Apply(u, s, Take(i)))
  {
    var s' := Apply(u, s, Take(i));
    assert WorkerOk(u, s, i);
    TakeSound(u, i, s.workers[i], SentTo(s, i));
    OneMoves(u, s, s', i);
    BarrierStays(s, s', i);
  }

  lemma WorkKeeps(u: Setup, s: State, i: nat)
    requires u.Valid() && Inv(u, s) && Enabled(u, s, Work(i))
    ensures Inv(u, Apply(u, s, Work(i)))
  {
    var s' := Apply(u, s, Work(i));
    assert WorkerOk(u, s, i);
    WorkSound(u, i, s.workers[i], SentTo(s, i));
    OneMoves(u, s, s', i);
    BarrierStays(s, s', i);
  }

  /** The barrier opens with the last arrival. */
  lemma ArriveOpens(s: State, s': State, i: nat, w': Worker)
    requires BarrierOk(s) && i < |s.workers| && !s.workers[i].blocked
    requires w'.blocked && |w'.waits| == |s.workers[i].waits| + 1 && s'.workers == s.workers[i := w']
    requires if s.arrived + 1 < |s.workers| then s'.arrived == s.arrived + 1 && s'.generation == s.generation
             else s'.arrived == 0 && s'.generation == s.generation + 1
    ensures BarrierOk(s')
  {
    HeldUpdate(s.workers, s.generation, i, w');
    HeldAll(s'.workers, s.generation);
    if s'.generation > s.generation {
      assert forall j :: 0 <= j < |s'.workers| ==> Held(s'.workers[j], s.generation);
      HeldAll(s'.workers, s'.generation);
    }
  }

  lemma ArriveKeeps(u: Setup, s: State, i: nat)
    requires u.Valid() && Inv(u, s) && Enabled(u, s, Arrive(i))
    ensures Inv(u, Apply(u, s, Arrive(i)))
  {
    var s' := Apply(u, s, Arrive(i));
    assert WorkerOk(u, s, i);
    ArriveSound(u, i, s.workers[i], SentTo(s, i));
    OneMoves(u, s, s', i);
    ArriveOpens(s, s', i, s'.workers[i]);
  }

  lemma LeaveKeeps(u: Setup, s: State, i: nat)
    requires u.Valid() && Inv(u, s) && Enabled(u, s, Leave(i))
    ensures Inv(u, Apply(u, s, Leave(i)))
  {
    var s' := Apply(u, s, Leave(i));
    assert WorkerOk(u, s, i);
    LeaveSound(u, i, s.workers[i], SentTo(s, i));
    OneMoves(u, s, s', i);
    BarrierStays(s, s', i);
  }

  lemma StartOk(u: Setup)
    requires u.Valid()
    ensures Inv(u, Start(u))
  {
    var s := Start(u);
    HeldAll(s.workers, 0);
    forall i | 0 <= i < u.n
      ensures WorkerOk(u, s, i)
    {
      assert s.workers[i] == Worker(Idle, false, 0, [], [], []);
      assert u.plan[..0] == [];
      assert [] + ([] + AllWaits(u, i, 0)) == AllWaits(u, i, 0);
    }
  }

  /** The invariant holds in every state of every run. */
  lemma {:induction false} InvAlways(u: Setup, steps: seq<Step>)
    requires u.Valid() && Run(u, steps).Some?
    ensures Inv(u, Run(u, steps).value)
    decreases |steps|
  {
    if steps == [] {
      StartOk(u);
    } else {
      var n := |steps| - 1;
      InvAlways(u, steps[..n]);
      var s := Run(u, steps[..n]).value;
      match steps[n] {
        case Send => SendKeeps(u, s);
        case Take(i) => TakeKeeps(u, s, i);
        case Work(i) => WorkKeeps(u, s, i);
        case Arrive(i) => ArriveKeeps(u, s, i);
        case Leave(i) => LeaveKeeps(u, s, i);
      }
    }
  }
}
