/** The audit drainer as a transition system: any number of threads that
    enqueue, flush and stop, and the drain thread. A step is one lock region or
    one access to an atomic; a lock region that touches one thing outside its
    lock is one step, since what the lock guards is not seen halfway. */
module Drainer {
  /** A row is named by the enqueue call that brings it. */
  type RowId = nat
  type Caller = nat

  datatype Config = Config(capacity: nat, maxAttempts: nat)

  datatype Outcome = Drained | DeadLettered | LostAtStop

  datatype Answer = Stored | Failed(rejected: bool) | Panics

  /** An enqueue call. */
  datatype Enqueue =
    | Entered
    | Acquiring
    | Acquired
    | AtQueue
    | Releasing
    | Refused
    | Accepted

  /** A flush call; `seen` is how many rows had been accepted when it began. */
  datatype Flush = Waiting(target: nat, seen: nat) | FlushReturned(ok: bool, seen: nat)

  /** A stop call. */
  datatype Stop = Signalled | Released

  datatype Worker =
    | Idle
    | Got(row: RowId)
    | Ready(row: RowId, attempt: nat, inShutdown: bool)
    | Inserting(row: RowId, attempt: nat, inShutdown: bool)
    | AfterPanic(row: RowId, inShutdown: bool)
    | AfterError(row: RowId, attempt: nat, inShutdown: bool, rejected: bool)
    | Backoff(row: RowId, attempt: nat, inShutdown: bool)
    | Finishing(row: RowId, outcome: Outcome)
    | Leaving
    | Exited
    | Dead(held: seq<RowId>)

  datatype State = State(
    queue: seq<RowId>,
    free: nat,
    stop: bool,
    drained: nat,
    deadLettered: nat,
    lostAtStop: nat,
    worker: Worker,
    enqueues: map<Caller, Enqueue>,
    flushes: map<Caller, Flush>,
    stops: map<Caller, Stop>,
    // What happened so far, for the statements below.
    accepted: seq<RowId>,
    finished: seq<(RowId, Outcome)>,
    tries: map<RowId, nat>,
    late: map<RowId, nat>)
  {
    function Done(): nat { drained + deadLettered + lostAtStop }
    predicate WorkerExited() { worker.Exited? || worker.Dead? }
    predicate WorkerPanicked() { worker.Dead? }
  }

  function Start(c: Config): State
  {
    State([], c.capacity, false, 0, 0, 0, Idle, map[], map[], map[], [], [], map[], map[])
  }

  function Count(m: map<RowId, nat>, r: RowId): nat { if r in m then m[r] else 0 }

  /******* Steps *******/

  datatype EnqueueMove = Enter | Look | Acquire | Recheck | Push | GiveBack
  datatype FlushMove = Begin | Check | TimeOut
  datatype StopMove = Signal | ReleaseAll
  datatype WorkerMove = Take | Prepare(inShutdown: bool) | Insert | Answered(answer: Answer) | Decide | Awake | Finish | Leave | Panic

  datatype Step =
    | ByEnqueue(e: Caller, enqueue: EnqueueMove)
    | ByFlush(f: Caller, flush: FlushMove)
    | ByStop(k: Caller, stop: StopMove)
    | ByWorker(work: WorkerMove)

  predicate At(m: map<Caller, Enqueue>, e: Caller, pc: Enqueue) { e in m && m[e] == pc }

  predicate EnqueueEnabled(s: State, e: Caller, move: EnqueueMove)
  {
    match move
    case Enter => e !in s.enqueues
    case Look => At(s.enqueues, e, Entered)
    case Acquire => At(s.enqueues, e, Acquiring) && s.free > 0
    case Recheck => At(s.enqueues, e, Acquired)
    case Push => At(s.enqueues, e, AtQueue)
    case GiveBack => At(s.enqueues, e, Releasing)
  }

  predicate WorkerEnabled(s: State, move: WorkerMove)
  {
    match move
    case Take => s.worker.Idle? && (s.queue != [] || s.stop)
    case Prepare(b) => s.worker.Got? && (b ==> s.stop)
    case Insert => s.worker.Ready?
    case Answered(_) => s.worker.Inserting?
    case Decide => s.worker.AfterPanic? || s.worker.AfterError?
    case Awake => s.worker.Backoff?
    case Finish => s.worker.Finishing?
    case Leave => s.worker.Leaving?
    case Panic => !s.WorkerExited()
  }

  predicate FlushEnabled(s: State, f: Caller, move: FlushMove)
  {
    if move.Begin? then f !in s.flushes else f in s.flushes && s.flushes[f].Waiting?
  }

  predicate StopEnabled(s: State, k: Caller, move: StopMove)
  {
    if move.Signal? then k !in s.stops else k in s.stops && s.stops[k].Signalled?
  }

  predicate Enabled(s: State, step: Step)
  {
    match step
    case ByEnqueue(e, move) => EnqueueEnabled(s, e, move)
    case ByFlush(f, move) => FlushEnabled(s, f, move)
    case ByStop(k, move) => StopEnabled(s, k, move)
    case ByWorker(move) => WorkerEnabled(s, move)
  }

  /** Sem::release: never above the capacity. */
  function Release(c: Config, free: nat): nat { if free < c.capacity then free + 1 else free }

  function Used(c: Config, s: State): nat { if s.free <= c.capacity then c.capacity - s.free else 0 }

  function InFlight(w: Worker): seq<RowId>
  {
    match w
    case Idle => []
    case Leaving => []
    case Exited => []
    case Dead(held) => held
    case Got(r) => [r]
    case Ready(r, _, _) => [r]
    case Inserting(r, _, _) => [r]
    case AfterPanic(r, _) => [r]
    case AfterError(r, _, _, _) => [r]
    case Backoff(r, _, _) => [r]
    case Finishing(r, _) => [r]
  }

  function ApplyEnqueue(c: Config, s: State, e: Caller, move: EnqueueMove): State
    requires EnqueueEnabled(s, e, move)
  {
    match move
    case Enter => s.(enqueues := s.enqueues[e := Entered])
    case Look => s.(enqueues := s.enqueues[e := if s.stop then Refused else Acquiring])
    case Acquire => s.(enqueues := s.enqueues[e := Acquired], free := s.free - 1)
    case Recheck => s.(enqueues := s.enqueues[e := if s.stop then Releasing else AtQueue])
    case Push =>
      if s.stop then s.(enqueues := s.enqueues[e := Releasing])
      else s.(enqueues := s.enqueues[e := Accepted], queue := s.queue + [e], accepted := s.accepted + [e])
    case GiveBack => s.(enqueues := s.enqueues[e := Refused], free := Release(c, s.free))
  }

  function CheckFlush(s: State, f: Flush): Flush
    requires f.Waiting?
  {
    if s.Done() >= f.target && !s.stop then FlushReturned(true, f.seen)
    else if s.WorkerExited() then FlushReturned(s.stop && !s.WorkerPanicked(), f.seen)
    else f
  }

  function ApplyFlush(c: Config, s: State, f: Caller, move: FlushMove): State
    requires FlushEnabled(s, f, move)
  {
    match move
    case Begin => s.(flushes := s.flushes[f := Waiting(s.Done() + Used(c, s), |s.accepted|)])
    case Check => s.(flushes := s.flushes[f := CheckFlush(s, s.flushes[f])])
    case TimeOut => s.(flushes := s.flushes[f := FlushReturned(false, s.flushes[f].seen)])
  }

  function ApplyStop(c: Config, s: State, k: Caller, move: StopMove): State
    requires StopEnabled(s, k, move)
  {
    match move
    case Signal => s.(stop := true, stops := s.stops[k := Signalled])
    case ReleaseAll => s.(free := c.capacity, stops := s.stops[k := Released])
  }

  function AfterAnswer(w: Worker, a: Answer): Worker
    requires w.Inserting?
  {
    match a
    case Stored => Finishing(w.row, Drained)
    case Panics => AfterPanic(w.row, w.inShutdown)
    case Failed(rejected) => AfterError(w.row, w.attempt + 1, w.inShutdown, rejected)
  }

  /** What the result of an insert leads to. */
  function Decision(c: Config, stop: bool, w: Worker): Worker
    requires w.AfterPanic? || w.AfterError?
  {
    if w.AfterPanic? then Finishing(w.row, if w.inShutdown || stop then LostAtStop else DeadLettered)
    else if w.inShutdown || stop then Finishing(w.row, LostAtStop)
    else if w.attempt >= c.maxAttempts || w.rejected then Finishing(w.row, DeadLettered)
    else Backoff(w.row, w.attempt, w.inShutdown)
  }

  function ApplyWorker(c: Config, s: State, move: WorkerMove): State
    requires WorkerEnabled(s, move)
  {
    match move
    case Take =>
      if s.queue != [] then s.(worker := Got(s.queue[0]), queue := s.queue[1..]) else s.(worker := Leaving)
    case Prepare(b) => s.(worker := Ready(s.worker.row, 0, b))
    case Insert =>
      var r := s.worker.row;
      s.(worker := Inserting(r, s.worker.attempt, s.worker.inShutdown),
         tries := s.tries[r := Count(s.tries, r) + 1],
         late := if s.stop then s.late[r := Count(s.late, r) + 1] else s.late)
    case Answered(a) => s.(worker := AfterAnswer(s.worker, a))
    case Decide => s.(worker := Decision(c, s.stop, s.worker))
    case Awake => s.(worker := Ready(s.worker.row, s.worker.attempt, s.worker.inShutdown))
    case Finish =>
      var o := s.worker.outcome;
      s.(worker := Idle, free := Release(c, s.free), finished := s.finished + [(s.worker.row, o)],
         drained := s.drained + (if o.Drained? then 1 else 0),
         deadLettered := s.deadLettered + (if o.DeadLettered? then 1 else 0),
         lostAtStop := s.lostAtStop + (if o.LostAtStop? then 1 else 0))
    case Leave => s.(worker := Exited)
    case Panic => s.(worker := Dead(InFlight(s.worker)))
  }

  function Apply(c: Config, s: State, step: Step): State
    requires Enabled(s, step)
  {
    match step
    case ByEnqueue(e, move) => ApplyEnqueue(c, s, e, move)
    case ByFlush(f, move) => ApplyFlush(c, s, f, move)
    case ByStop(k, move) => ApplyStop(c, s, k, move)
    case ByWorker(move) => ApplyWorker(c, s, move)
  }

  ghost predicate Run(c: Config, states: seq<State>, steps: seq<Step>)
  {
    && |states| == |steps| + 1 && states[0] == Start(c)
    && forall i | 0 <= i < |steps| :: Enabled(states[i], steps[i]) && states[i + 1] == Apply(c, states[i], steps[i])
  }
}
