/** The C++ handle on the drainer: calls count themselves in `busy` before they
    look at `stopped`, and shutdown sets `stopped` before it waits for `busy`
    to be 0, so the store is not used once it is freed. */
module Handle {
  import opened Counting

  type Caller = nat

  /** A put, stats or flush call. */
  datatype Call =
    | Counted
    | Using
    | TurnedAway
    | AwaitingClose
    | CallDone
    | ClosedSeen

  /** A shutdown call. */
  datatype Shutdown =
    | Closing
    | AwaitingIdle
    | Freeing
    | Freed
    | ShutDown
    | NotFirst

  datatype State = State(
    stopped: bool,
    busy: nat,
    closed: bool,
    calls: map<Caller, Call>,
    shutdowns: map<Caller, Shutdown>,
    // How often the store was freed, and used after that.
    freed: nat,
    misused: nat)

  const START: State := State(false, 0, false, map[], map[], 0, 0)

  datatype CallMove = Enter | LookStopped | UseStore | Leave(thenWait: bool) | SeeClosed
  datatype ShutdownMove = Begin | CloseDrainer | SeeIdle | FreeStore | MarkClosed

  datatype Step = ByCall(c: Caller, call: CallMove) | ByShutdown(k: Caller, shutdown: ShutdownMove)

  predicate Calling(s: State, c: Caller, pc: Call) { c in s.calls && s.calls[c] == pc }

  predicate Shutting(s: State, k: Caller, pc: Shutdown) { k in s.shutdowns && s.shutdowns[k] == pc }

  predicate CallEnabled(s: State, c: Caller, move: CallMove)
  {
    match move
    case Enter => c !in s.calls
    case LookStopped => Calling(s, c, Counted)
    case UseStore => Calling(s, c, Using)
    case Leave(_) => Calling(s, c, Using) || Calling(s, c, TurnedAway)
    case SeeClosed => Calling(s, c, AwaitingClose) && s.closed
  }

  predicate ShutdownEnabled(s: State, k: Caller, move: ShutdownMove)
  {
    match move
    case Begin => k !in s.shutdowns
    case CloseDrainer => Shutting(s, k, Closing)
    case SeeIdle => Shutting(s, k, AwaitingIdle) && s.busy == 0
    case FreeStore => Shutting(s, k, Freeing)
    case MarkClosed => Shutting(s, k, Freed)
  }

  predicate Enabled(s: State, step: Step)
  {
    match step
    case ByCall(c, move) => CallEnabled(s, c, move)
    case ByShutdown(k, move) => ShutdownEnabled(s, k, move)
  }

  /** Any access to the store; one after it was freed is counted. */
  function Access(s: State): State { if s.freed > 0 then s.(misused := s.misused + 1) else s }

  function ApplyCall(s: State, c: Caller, move: CallMove): State
    requires CallEnabled(s, c, move)
  {
    match move
    case Enter => s.(busy := s.busy + 1, calls := s.calls[c := Counted])
    case LookStopped => s.(calls := s.calls[c := if s.stopped then TurnedAway else Using])
    case UseStore => Access(s)
    case Leave(thenWait) =>
      s.(busy := if s.busy > 0 then s.busy - 1 else 0,
         calls := s.calls[c := if thenWait && s.calls[c].TurnedAway? then AwaitingClose else CallDone])
    case SeeClosed => s.(calls := s.calls[c := ClosedSeen])
  }

  function ApplyShutdown(s: State, k: Caller, move: ShutdownMove): State
    requires ShutdownEnabled(s, k, move)
  {
    match move
    case Begin => s.(stopped := true, shutdowns := s.shutdowns[k := if s.stopped then NotFirst else Closing])
    case CloseDrainer => Access(s).(shutdowns := s.shutdowns[k := AwaitingIdle])
    case SeeIdle => s.(shutdowns := s.shutdowns[k := Freeing])
    case FreeStore => Access(s).(freed := s.freed + 1, shutdowns := s.shutdowns[k := Freed])
    case MarkClosed => s.(closed := true, shutdowns := s.shutdowns[k := ShutDown])
  }

  function Apply(s: State, step: Step): State
    requires Enabled(s, step)
  {
    match step
    case ByCall(c, move) => ApplyCall(s, c, move)
    case ByShutdown(k, move) => ApplyShutdown(s, k, move)
  }

  ghost predicate Run(states: seq<State>, steps: seq<Step>)
  {
    && |states| == |steps| + 1 && states[0] == START
    && forall i | 0 <= i < |steps| :: Enabled(states[i], steps[i]) && states[i + 1] == Apply(states[i], steps[i])
  }

  /******* Who is in *******/

  predicate Inside(pc: Call) { pc.Counted? || pc.Using? || pc.TurnedAway? }

  function Insiders(m: map<Caller, Call>): set<Caller> { set c | c in m && Inside(m[c]) }

  predicate BusyCounts(s: State) { s.busy == |Insiders(s.calls)| }

  /** Only the first shutdown call goes on, and only it frees the store. */
  ghost predicate OneShutdown(s: State)
  {
    && (forall k | k in s.shutdowns :: s.stopped)
    && (forall j, k | j in s.shutdowns && k in s.shutdowns && !s.shutdowns[j].NotFirst? && !s.shutdowns[k].NotFirst? :: j == k)
    && (s.freed > 0 ==> s.freed == 1 && exists k | k in s.shutdowns :: s.shutdowns[k].Freed? || s.shutdowns[k].ShutDown?)
    && (s.closed ==> s.freed == 1)
    && (forall k | k in s.shutdowns && (s.shutdowns[k].Freed? || s.shutdowns[k].ShutDown?) :: s.freed == 1)
  }

  /** Once a shutdown has seen nobody inside, nobody uses the store any more. */
  ghost predicate NobodyUses(s: State)
  {
    (exists k | k in s.shutdowns :: s.shutdowns[k].Freeing? || s.shutdowns[k].Freed? || s.shutdowns[k].ShutDown?) ==>
      forall c | c in s.calls :: !s.calls[c].Using?
  }

  ghost predicate Inv(s: State) { BusyCounts(s) && OneShutdown(s) && NobodyUses(s) && s.misused == 0 }

  lemma InsidersAfter(m: map<Caller, Call>, c: Caller, pc: Call)
    ensures |Insiders(m[c := pc])| == |Insiders(m)| - (if c in m && Inside(m[c]) then 1 else 0) + (if Inside(pc) then 1 else 0)
  {
    var a, b := Insiders(m), Insiders(m[c := pc]);
    SizeWithout(a, c);
    SizeWithout(b, c);
    SameWithout(a, b, c);
  }

  lemma BusyStep(s: State, step: Step)
    requires Enabled(s, step) && BusyCounts(s)
    ensures BusyCounts(Apply(s, step))
  {
    hide Insiders;
    if step.ByCall? && !step.call.UseStore? {
      InsidersAfter(s.calls, step.c, Apply(s, step).calls[step.c]);
    }
  }

  lemma NobodyInside(s: State)
    requires BusyCounts(s) && s.busy == 0
    ensures forall c | c in s.calls :: !s.calls[c].Using?
  {
    assert forall c | c in s.calls && Inside(s.calls[c]) :: c in Insiders(s.calls);
  }

  lemma OneCall(s: State, c: Caller, move: CallMove)
    requires CallEnabled(s, c, move) && OneShutdown(s)
    ensures OneShutdown(ApplyCall(s, c, move))
  {
  }

  lemma OneStep(s: State, k: Caller, move: ShutdownMove)
    requires ShutdownEnabled(s, k, move) && OneShutdown(s)
    ensures OneShutdown(ApplyShutdown(s, k, move))
  {
    var t := ApplyShutdown(s, k, move);
    assert k in t.shutdowns;
    if s.freed > 0 {
      var j :| j in s.shutdowns && (s.shutdowns[j].Freed? || s.shutdowns[j].ShutDown?);
      assert t.shutdowns[j].Freed? || t.shutdowns[j].ShutDown?;
    }
  }

  lemma UsesCall(s: State, c: Caller, move: CallMove)
    requires CallEnabled(s, c, move) && OneShutdown(s) && NobodyUses(s)
    ensures NobodyUses(ApplyCall(s, c, move))
  {
  }

  lemma UsesShutdown(s: State, k: Caller, move: ShutdownMove)
    requires ShutdownEnabled(s, k, move) && OneShutdown(s) && NobodyUses(s) && BusyCounts(s)
    ensures NobodyUses(ApplyShutdown(s, k, move))
  {
    hide BusyCounts;
    if move.SeeIdle? {
      NobodyInside(s);
    }
  }

  /** The store is there whenever a step accesses it. */
  lemma AccessSafe(s: State, step: Step)
    requires Enabled(s, step) && Inv(s)
    requires (step.ByCall? && step.call.UseStore?) || (step.ByShutdown? && (step.shutdown.CloseDrainer? || step.shutdown.FreeStore?))
    ensures s.freed == 0
  {
    hide BusyCounts;
  }

  lemma StepInv(s: State, step: Step)
    requires Enabled(s, step) && Inv(s)
    ensures Inv(Apply(s, step))
  {
    BusyStep(s, step);
    hide BusyCounts, OneShutdown, NobodyUses;
    match step
    case ByCall(c, move) =>
      OneCall(s, c, move);
      UsesCall(s, c, move);
      if move.UseStore? { AccessSafe(s, step); }
    case ByShutdown(k, move) =>
      OneStep(s, k, move);
      UsesShutdown(s, k, move);
      if move.CloseDrainer? || move.FreeStore? { AccessSafe(s, step); }
  }

  lemma {:induction false} RunInv(states: seq<State>, steps: seq<Step>, i: nat)
    requires Run(states, steps) && i < |states|
    ensures Inv(states[i])
  {
    if i == 0 {
      assert Insiders(map[]) == {};
    } else {
      hide Inv, Apply, Enabled;
      RunInv(states, steps, i - 1);
      StepInv(states[i - 1], steps[i - 1]);
    }
  }

  /** In every interleaving of calls and shutdowns the store is never used after
      it is freed and freed at most once; `closed` is seen only after that. */
  lemma HandleSafe(states: seq<State>, steps: seq<Step>, i: nat)
    requires Run(states, steps) && i < |states|
    ensures states[i].misused == 0 && states[i].freed <= 1
    ensures states[i].closed ==> states[i].freed == 1
    ensures forall c | c in states[i].calls && states[i].calls[c].Using? :: states[i].freed == 0
  {
    hide Apply, Enabled, BusyCounts;
    RunInv(states, steps, i);
  }
}
