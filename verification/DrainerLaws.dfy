/** What holds of the drainer in every interleaving. */
module DrainerLaws {
  import opened Counting
  import opened Drainer

  /******* Nothing is lost or done twice *******/

  function RowsOf(f: seq<(RowId, Outcome)>): (rows: seq<RowId>)
    ensures |rows| == |f| && forall i | 0 <= i < |f| :: rows[i] == f[i].0
  {
    if f == [] then [] else RowsOf(f[..|f| - 1]) + [f[|f| - 1].0]
  }

  function Tally(f: seq<(RowId, Outcome)>, o: Outcome): nat
  {
    if f == [] then 0 else Tally(f[..|f| - 1], o) + if f[|f| - 1].1 == o then 1 else 0
  }

  /** Accepted rows are finished, in flight or queued, in that order. */
  predicate Conserved(s: State)
  {
    s.accepted == RowsOf(s.finished) + InFlight(s.worker) + s.queue
  }

  predicate Tallied(s: State)
  {
    && s.drained == Tally(s.finished, Drained) && s.deadLettered == Tally(s.finished, DeadLettered)
    && s.lostAtStop == Tally(s.finished, LostAtStop) && s.Done() == |s.finished|
  }

  lemma RowsOfMore(f: seq<(RowId, Outcome)>, x: (RowId, Outcome))
    ensures RowsOf(f + [x]) == RowsOf(f) + [x.0]
  {
    assert (f + [x])[..|f|] == f;
  }

  /******* What each kind of step can change *******/

  lemma EnqueueFrame(c: Config, s: State, e: Caller, move: EnqueueMove)
    requires EnqueueEnabled(s, e, move)
    ensures var t := ApplyEnqueue(c, s, e, move);
      && t == s.(enqueues := t.enqueues, free := t.free, queue := t.queue, accepted := t.accepted)
      && t.enqueues == s.enqueues[e := t.enqueues[e]]
      && (|| (t.queue == s.queue && t.accepted == s.accepted && !t.enqueues[e].Accepted?)
          || (!s.stop && At(s.enqueues, e, AtQueue) && t.free == s.free && t.enqueues[e] == Accepted
              && t.queue == s.queue + [e] && t.accepted == s.accepted + [e]))
  {
  }

  lemma FlushFrame(c: Config, s: State, f: Caller, move: FlushMove)
    requires FlushEnabled(s, f, move)
    ensures var t := ApplyFlush(c, s, f, move); t == s.(flushes := t.flushes) && t.flushes == s.flushes[f := t.flushes[f]]
  {
  }

  lemma StopFrame(c: Config, s: State, k: Caller, move: StopMove)
    requires StopEnabled(s, k, move) && StopsSignalled(s)
    ensures var t := ApplyStop(c, s, k, move);
      t == s.(stop := true, free := t.free, stops := t.stops) && (t.free == s.free || t.free == c.capacity)
  {
    if move.ReleaseAll? { assert k in s.stops; }
  }

  lemma WorkerFrame(c: Config, s: State, move: WorkerMove)
    requires WorkerEnabled(s, move)
    ensures var t := ApplyWorker(c, s, move);
      && t == s.(worker := t.worker, queue := t.queue, free := t.free, finished := t.finished, drained := t.drained,
                 deadLettered := t.deadLettered, lostAtStop := t.lostAtStop, tries := t.tries, late := t.late)
      && (!move.Finish? ==> t.free == s.free && t.finished == s.finished && t.Done() == s.Done())
      && (!move.Finish? && !move.Take? ==> t.queue == s.queue && InFlight(t.worker) == InFlight(s.worker))
      && (!move.Insert? ==> t.tries == s.tries && t.late == s.late)
  {
  }

  predicate StopsSignalled(s: State) { s.stops != map[] ==> s.stop }

  lemma StopsStep(c: Config, s: State, step: Step)
    requires Enabled(s, step) && StopsSignalled(s)
    ensures StopsSignalled(Apply(c, s, step)) && (s.stop ==> Apply(c, s, step).stop)
  {
    hide ApplyEnqueue, ApplyFlush, ApplyWorker;
    match step
    case ByEnqueue(e, move) => EnqueueFrame(c, s, e, move);
    case ByFlush(f, move) => FlushFrame(c, s, f, move);
    case ByStop(k, move) => StopFrame(c, s, k, move);
    case ByWorker(move) => WorkerFrame(c, s, move);
  }

  /******* Rows *******/

  lemma Joined(a: seq<RowId>, b: seq<RowId>, q: seq<RowId>, more: seq<RowId>)
    ensures a + b + q + more == a + b + (q + more)
  {
  }

  lemma Popped(a: seq<RowId>, q: seq<RowId>)
    requires q != []
    ensures a + [] + q == a + [q[0]] + q[1..]
  {
  }

  lemma Finished(a: seq<RowId>, r: RowId, q: seq<RowId>)
    ensures a + [r] + q == (a + [r]) + [] + q
  {
  }

  lemma ConservedWork(c: Config, s: State, move: WorkerMove)
    requires WorkerEnabled(s, move) && Conserved(s)
    ensures Conserved(ApplyWorker(c, s, move))
  {
    hide RowsOf;
    if move.Take? {
      if s.queue != [] { Popped(RowsOf(s.finished), s.queue); }
    } else if move.Finish? {
      RowsOfMore(s.finished, (s.worker.row, s.worker.outcome));
      Finished(RowsOf(s.finished), s.worker.row, s.queue);
    } else {
      WorkerFrame(c, s, move);
      hide ApplyWorker;
    }
  }

  lemma ConservedStep(c: Config, s: State, step: Step)
    requires Enabled(s, step) && Conserved(s) && StopsSignalled(s)
    ensures Conserved(Apply(c, s, step))
  {
    hide RowsOf, ApplyEnqueue, ApplyFlush, ApplyStop, ApplyWorker, InFlight;
    match step
    case ByEnqueue(e, move) =>
      EnqueueFrame(c, s, e, move);
      Joined(RowsOf(s.finished), InFlight(s.worker), s.queue, [e]);
    case ByFlush(f, move) => FlushFrame(c, s, f, move);
    case ByStop(k, move) => StopFrame(c, s, k, move);
    case ByWorker(move) => ConservedWork(c, s, move);
  }

  lemma TallyMore(f: seq<(RowId, Outcome)>, x: (RowId, Outcome), o: Outcome)
    ensures Tally(f + [x], o) == Tally(f, o) + if x.1 == o then 1 else 0
  {
    assert (f + [x])[..|f|] == f;
  }

  lemma TalliedWork(c: Config, s: State, move: WorkerMove)
    requires WorkerEnabled(s, move) && Tallied(s)
    ensures Tallied(ApplyWorker(c, s, move))
  {
    hide Tally;
    if move.Finish? {
      var x := (s.worker.row, s.worker.outcome);
      TallyMore(s.finished, x, Drained);
      TallyMore(s.finished, x, DeadLettered);
      TallyMore(s.finished, x, LostAtStop);
    }
  }

  lemma TalliedStep(c: Config, s: State, step: Step)
    requires Enabled(s, step) && Tallied(s) && StopsSignalled(s)
    ensures Tallied(Apply(c, s, step))
  {
    hide Tally, ApplyEnqueue, ApplyFlush, ApplyStop, ApplyWorker;
    match step
    case ByEnqueue(e, move) => EnqueueFrame(c, s, e, move);
    case ByFlush(f, move) => FlushFrame(c, s, f, move);
    case ByStop(k, move) => StopFrame(c, s, k, move);
    case ByWorker(move) => TalliedWork(c, s, move);
  }

  /** Each call brings its row in at most once, exactly if it returns true. */
  ghost predicate AcceptedOnce(s: State)
  {
    && (forall i, j | 0 <= i < j < |s.accepted| :: s.accepted[i] != s.accepted[j])
    && (forall e :: e in s.accepted <==> At(s.enqueues, e, Accepted))
  }

  lemma PushAccepted(s: State, t: State, e: Caller)
    requires AcceptedOnce(s) && At(s.enqueues, e, AtQueue)
    requires t.accepted == s.accepted + [e] && t.enqueues == s.enqueues[e := Accepted]
    ensures AcceptedOnce(t)
  {
    assert e !in s.accepted;
    assert forall i | 0 <= i < |s.accepted| :: s.accepted[i] in s.accepted;
  }

  lemma OtherMove(c: Config, s: State, e: Caller, move: EnqueueMove)
    requires EnqueueEnabled(s, e, move) && AcceptedOnce(s) && ApplyEnqueue(c, s, e, move).accepted == s.accepted
    ensures AcceptedOnce(ApplyEnqueue(c, s, e, move))
  {
    var t := ApplyEnqueue(c, s, e, move);
    EnqueueFrame(c, s, e, move);
    assert !At(s.enqueues, e, Accepted);
    hide ApplyEnqueue;
    forall o ensures At(t.enqueues, o, Accepted) <==> At(s.enqueues, o, Accepted) {
    }
  }

  lemma AcceptedStep(c: Config, s: State, step: Step)
    requires Enabled(s, step) && AcceptedOnce(s) && StopsSignalled(s)
    ensures AcceptedOnce(Apply(c, s, step))
  {
    hide ApplyEnqueue, ApplyFlush, ApplyStop, ApplyWorker, AcceptedOnce;
    match step
    case ByEnqueue(e, move) =>
      EnqueueFrame(c, s, e, move);
      var t := ApplyEnqueue(c, s, e, move);
      if t.accepted == s.accepted { OtherMove(c, s, e, move); } else { PushAccepted(s, t, e); }
    case ByFlush(f, move) =>
      FlushFrame(c, s, f, move);
      SameAccepted(s, ApplyFlush(c, s, f, move));
    case ByStop(k, move) =>
      StopFrame(c, s, k, move);
      SameAccepted(s, ApplyStop(c, s, k, move));
    case ByWorker(move) =>
      WorkerFrame(c, s, move);
      SameAccepted(s, ApplyWorker(c, s, move));
  }

  lemma SameAccepted(s: State, t: State)
    requires AcceptedOnce(s) && t.accepted == s.accepted && t.enqueues == s.enqueues
    ensures AcceptedOnce(t)
  {
  }

  /******* Slots *******/

  predicate Holding(pc: Enqueue) { pc.Acquired? || pc.AtQueue? || pc.Releasing? }

  function Holders(m: map<Caller, Enqueue>): set<Caller> { set e | e in m && Holding(m[e]) }

  lemma HoldersAfter(m: map<Caller, Enqueue>, e: Caller, pc: Enqueue)
    ensures |Holders(m[e := pc])| == |Holders(m)| - (if e in m && Holding(m[e]) then 1 else 0) + (if Holding(pc) then 1 else 0)
  {
    var a, b := Holders(m), Holders(m[e := pc]);
    SizeWithout(a, e);
    SizeWithout(b, e);
    SameWithout(a, b, e);
  }

  /** Until stop, a slot is used for each row queued or in flight and each call
      that holds one; nobody gives a slot back but the drain thread. */
  predicate SlotsExact(c: Config, s: State)
  {
    && s.free <= c.capacity
    && (!s.stop ==>
        && c.capacity - s.free == |s.queue| + |InFlight(s.worker)| + |Holders(s.enqueues)|
        && forall e | e in s.enqueues :: !s.enqueues[e].Releasing?)
  }

  predicate Bounded(c: Config, s: State) { |s.queue| + |InFlight(s.worker)| <= c.capacity }

  lemma EnqueueSlots(c: Config, s: State, e: Caller, move: EnqueueMove)
    requires EnqueueEnabled(s, e, move) && SlotsExact(c, s)
    ensures SlotsExact(c, ApplyEnqueue(c, s, e, move))
  {
    hide Holders, InFlight;
    HoldersAfter(s.enqueues, e, ApplyEnqueue(c, s, e, move).enqueues[e]);
  }

  lemma WorkerSlots(c: Config, s: State, move: WorkerMove)
    requires WorkerEnabled(s, move) && SlotsExact(c, s)
    ensures SlotsExact(c, ApplyWorker(c, s, move))
  {
    hide Holders;
    if !move.Finish? && !move.Take? {
      WorkerFrame(c, s, move);
      hide ApplyWorker;
    }
  }

  lemma SlotsStep(c: Config, s: State, step: Step)
    requires Enabled(s, step) && SlotsExact(c, s) && StopsSignalled(s)
    ensures SlotsExact(c, Apply(c, s, step))
  {
    hide Holders, InFlight, ApplyEnqueue, ApplyFlush, ApplyStop, ApplyWorker;
    match step
    case ByEnqueue(e, move) => EnqueueSlots(c, s, e, move);
    case ByFlush(f, move) => FlushFrame(c, s, f, move);
    case ByStop(k, move) => StopFrame(c, s, k, move);
    case ByWorker(move) => WorkerSlots(c, s, move);
  }

  lemma OneHolder(m: map<Caller, Enqueue>, e: Caller)
    requires e in m && Holding(m[e])
    ensures |Holders(m)| >= 1
  {
    assert e in Holders(m);
  }

  lemma BoundedWork(c: Config, s: State, move: WorkerMove)
    requires WorkerEnabled(s, move) && Bounded(c, s)
    ensures Bounded(c, ApplyWorker(c, s, move))
  {
  }

  /** Queued plus in flight stays within the capacity, also once stop has freed
      all slots: nothing is pushed any more. */
  lemma BoundedStep(c: Config, s: State, step: Step)
    requires Enabled(s, step) && SlotsExact(c, s) && Bounded(c, s) && StopsSignalled(s)
    ensures Bounded(c, Apply(c, s, step))
  {
    hide Holders, ApplyEnqueue, ApplyFlush, ApplyStop, ApplyWorker, InFlight;
    match step
    case ByEnqueue(e, move) =>
      EnqueueFrame(c, s, e, move);
      if At(s.enqueues, e, AtQueue) { OneHolder(s.enqueues, e); }
    case ByFlush(f, move) => FlushFrame(c, s, f, move);
    case ByStop(k, move) => StopFrame(c, s, k, move);
    case ByWorker(move) => BoundedWork(c, s, move);
  }

  /******* The end *******/

  /** A drain thread that leaves has seen stop and an empty queue. */
  predicate LeavesEmpty(s: State) { s.worker.Leaving? || s.worker.Exited? ==> s.stop && s.queue == [] }

  lemma LeavesWork(c: Config, s: State, move: WorkerMove)
    requires WorkerEnabled(s, move) && LeavesEmpty(s)
    ensures LeavesEmpty(ApplyWorker(c, s, move))
  {
  }

  lemma LeavesStep(c: Config, s: State, step: Step)
    requires Enabled(s, step) && LeavesEmpty(s) && StopsSignalled(s)
    ensures LeavesEmpty(Apply(c, s, step))
  {
    hide ApplyEnqueue, ApplyFlush, ApplyStop, ApplyWorker, InFlight;
    match step
    case ByEnqueue(e, move) => EnqueueFrame(c, s, e, move);
    case ByFlush(f, move) => FlushFrame(c, s, f, move);
    case ByStop(k, move) => StopFrame(c, s, k, move);
    case ByWorker(move) => LeavesWork(c, s, move);
  }

  /******* Tries *******/

  function Limit(c: Config): nat { if c.maxAttempts > 1 then c.maxAttempts else 1 }

  /** No row gets more inserts than allowed, or more than one begun after stop,
      and rows get inserts only from the front of the line. */
  ghost predicate TriesBounded(c: Config, s: State)
  {
    && (forall r :: Count(s.tries, r) <= Limit(c) && Count(s.late, r) <= 1)
    && (forall r :: Count(s.tries, r) > 0 || Count(s.late, r) > 0 ==> r in RowsOf(s.finished) || r in InFlight(s.worker))
  }

  /** How far the row in flight has got. */
  predicate TriesInFlight(c: Config, s: State)
  {
    var w := s.worker;
    match w
    case Got(r) => Count(s.tries, r) == 0 && Count(s.late, r) == 0
    case Ready(r, a, _) => Count(s.tries, r) == a && Count(s.late, r) == 0 && (a == 0 || a < c.maxAttempts)
    case Inserting(r, a, _) => Count(s.tries, r) == a + 1 && (Count(s.late, r) == 0 || s.stop)
    case AfterPanic(r, _) => Count(s.late, r) == 0 || s.stop
    case AfterError(r, a, _, _) => Count(s.tries, r) == a && (Count(s.late, r) == 0 || s.stop)
    case Backoff(r, a, _) => Count(s.tries, r) == a && Count(s.late, r) == 0 && a < c.maxAttempts
    case _ => true
  }

  lemma FrontUntried(c: Config, s: State)
    requires TriesBounded(c, s) && AcceptedOnce(s) && Conserved(s) && s.worker.Idle? && s.queue != []
    ensures Count(s.tries, s.queue[0]) == 0 && Count(s.late, s.queue[0]) == 0
  {
    hide RowsOf, Count;
    var done, r := RowsOf(s.finished), s.queue[0];
    assert s.accepted[|done|] == r;
    assert forall i | 0 <= i < |done| :: s.accepted[i] == done[i];
  }

  lemma TriesWork(c: Config, s: State, move: WorkerMove)
    requires WorkerEnabled(s, move) && TriesInFlight(c, s) && TriesBounded(c, s) && AcceptedOnce(s) && Conserved(s)
    ensures TriesInFlight(c, ApplyWorker(c, s, move))
  {
    hide TriesBounded, AcceptedOnce, Conserved, RowsOf;
    if move.Take? && s.queue != [] { FrontUntried(c, s); }
  }

  lemma TriesInFlightStep(c: Config, s: State, step: Step)
    requires Enabled(s, step) && TriesInFlight(c, s) && TriesBounded(c, s) && AcceptedOnce(s) && Conserved(s) && StopsSignalled(s)
    ensures TriesInFlight(c, Apply(c, s, step))
  {
    hide TriesBounded, AcceptedOnce, Conserved, RowsOf, ApplyEnqueue, ApplyFlush, ApplyStop, ApplyWorker;
    match step
    case ByEnqueue(e, move) => EnqueueFrame(c, s, e, move);
    case ByFlush(f, move) => FlushFrame(c, s, f, move);
    case ByStop(k, move) => StopFrame(c, s, k, move);
    case ByWorker(move) => TriesWork(c, s, move);
  }

  lemma InsertTries(c: Config, s: State)
    requires s.worker.Ready? && TriesInFlight(c, s) && TriesBounded(c, s)
    ensures TriesBounded(c, ApplyWorker(c, s, Insert))
  {
    hide RowsOf;
  }

  lemma StillThere(c: Config, s: State, move: WorkerMove)
    requires WorkerEnabled(s, move)
    ensures forall r | r in RowsOf(s.finished) || r in InFlight(s.worker) ::
      r in RowsOf(ApplyWorker(c, s, move).finished) || r in InFlight(ApplyWorker(c, s, move).worker)
  {
    hide RowsOf;
    if move.Finish? {
      RowsOfMore(s.finished, (s.worker.row, s.worker.outcome));
    } else if !move.Take? {
      WorkerFrame(c, s, move);
      hide ApplyWorker;
    }
  }

  lemma TriesBoundedStep(c: Config, s: State, step: Step)
    requires Enabled(s, step) && TriesInFlight(c, s) && TriesBounded(c, s) && StopsSignalled(s)
    ensures TriesBounded(c, Apply(c, s, step))
  {
    hide RowsOf, ApplyEnqueue, ApplyFlush, ApplyStop, ApplyWorker, InFlight, TriesInFlight;
    match step
    case ByEnqueue(e, move) => EnqueueFrame(c, s, e, move);
    case ByFlush(f, move) => FlushFrame(c, s, f, move);
    case ByStop(k, move) => StopFrame(c, s, k, move);
    case ByWorker(move) =>
      if move.Insert? {
        InsertTries(c, s);
      } else {
        WorkerFrame(c, s, move);
        StillThere(c, s, move);
      }
  }

  /******* Flush *******/

  /** A flush waits for at least what was accepted when it began, unless stop
      came; and one that returned true saw all of that finished. */
  ghost predicate FlushSound(s: State)
  {
    forall f | f in s.flushes ::
      match s.flushes[f]
      case Waiting(target, seen) => seen <= |s.accepted| && (!s.stop ==> target >= seen)
      case FlushReturned(ok, seen) => seen <= |s.accepted| && (ok ==> seen <= |s.finished|)
  }

  lemma Lengths(s: State)
    requires Conserved(s)
    ensures |s.accepted| == |s.finished| + |InFlight(s.worker)| + |s.queue|
  {
  }

  lemma FlushMoves(c: Config, s: State, f: Caller, move: FlushMove)
    requires FlushEnabled(s, f, move) && FlushSound(s) && Conserved(s) && Tallied(s) && SlotsExact(c, s) && LeavesEmpty(s)
    ensures FlushSound(ApplyFlush(c, s, f, move))
  {
    hide RowsOf, Tally, Holders;
    Lengths(s);
  }

  lemma FlushesKept(s: State, t: State)
    requires FlushSound(s) && t.flushes == s.flushes && (s.stop ==> t.stop)
    requires |t.accepted| >= |s.accepted| && |t.finished| >= |s.finished|
    ensures FlushSound(t)
  {
  }

  lemma FlushStep(c: Config, s: State, step: Step)
    requires Enabled(s, step) && FlushSound(s) && Conserved(s) && Tallied(s) && SlotsExact(c, s) && LeavesEmpty(s) && StopsSignalled(s)
    ensures FlushSound(Apply(c, s, step))
  {
    hide FlushSound, Conserved, Tallied, SlotsExact, LeavesEmpty, ApplyEnqueue, ApplyFlush, ApplyStop, ApplyWorker;
    match step
    case ByEnqueue(e, move) =>
      EnqueueFrame(c, s, e, move);
      FlushesKept(s, ApplyEnqueue(c, s, e, move));
    case ByFlush(f, move) => FlushMoves(c, s, f, move);
    case ByStop(k, move) =>
      StopFrame(c, s, k, move);
      FlushesKept(s, ApplyStop(c, s, k, move));
    case ByWorker(move) =>
      WorkerFrame(c, s, move);
      FinishedGrows(c, s, move);
      FlushesKept(s, ApplyWorker(c, s, move));
  }

  lemma FinishedGrows(c: Config, s: State, move: WorkerMove)
    requires WorkerEnabled(s, move)
    ensures |ApplyWorker(c, s, move).finished| >= |s.finished|
  {
    if !move.Finish? {
      WorkerFrame(c, s, move);
      hide ApplyWorker;
    }
  }

  /******* In every state of every run *******/

  ghost predicate Inv(c: Config, s: State)
  {
    && Conserved(s) && Tallied(s) && AcceptedOnce(s)
    && SlotsExact(c, s) && Bounded(c, s) && StopsSignalled(s) && LeavesEmpty(s)
    && TriesBounded(c, s) && TriesInFlight(c, s) && FlushSound(s)
  }

  lemma StartInv(c: Config)
    ensures Inv(c, Start(c))
  {
    assert Holders(map[]) == {};
  }

  lemma StepInv(c: Config, s: State, step: Step)
    requires Enabled(s, step) && Inv(c, s)
    ensures Inv(c, Apply(c, s, step))
  {
    hide Conserved, Tallied, AcceptedOnce, SlotsExact, Bounded, StopsSignalled, LeavesEmpty, TriesBounded, TriesInFlight, FlushSound,
      Apply, Enabled;
    ConservedStep(c, s, step);
    TalliedStep(c, s, step);
    AcceptedStep(c, s, step);
    SlotsStep(c, s, step);
    BoundedStep(c, s, step);
    StopsStep(c, s, step);
    LeavesStep(c, s, step);
    TriesBoundedStep(c, s, step);
    TriesInFlightStep(c, s, step);
    FlushStep(c, s, step);
  }

  lemma {:induction false} RunInv(c: Config, states: seq<State>, steps: seq<Step>, k: nat)
    requires Run(c, states, steps) && k < |states|
    ensures Inv(c, states[k])
  {
    hide Inv, Apply, Enabled;
    if k == 0 {
      StartInv(c);
    } else {
      RunInv(c, states, steps, k - 1);
      StepInv(c, states[k - 1], steps[k - 1]);
    }
  }

  /******* What that means *******/

  /** Each accepted row is in exactly one place, with one outcome once it is
      finished; the counters add up; the queue never holds more than it may. */
  lemma Conservation(c: Config, states: seq<State>, steps: seq<Step>, k: nat)
    requires Run(c, states, steps) && k < |states|
    ensures var s := states[k];
      && s.accepted == RowsOf(s.finished) + InFlight(s.worker) + s.queue
      && |s.accepted| == s.drained + s.deadLettered + s.lostAtStop + |InFlight(s.worker)| + |s.queue|
      && (forall i, j | 0 <= i < j < |s.accepted| :: s.accepted[i] != s.accepted[j])
      && (forall e :: e in s.accepted <==> At(s.enqueues, e, Accepted))
      && |s.queue| + |InFlight(s.worker)| <= c.capacity
  {
    hide Run, Apply, Enabled, RowsOf, Tally;
    RunInv(c, states, steps, k);
    Lengths(states[k]);
  }

  /** Once the drain thread has left without a panic, the queue is empty for
      good and every row of an enqueue that returned true has its outcome. */
  lemma NothingLeftBehind(c: Config, states: seq<State>, steps: seq<Step>, i: nat, k: nat)
    requires Run(c, states, steps) && i <= k < |states| && states[i].worker.Exited?
    ensures states[k].queue == [] && states[k].worker.Exited?
    ensures forall e | At(states[k].enqueues, e, Accepted) :: e in RowsOf(states[k].finished)
  {
    hide Run, Apply, Enabled, RowsOf;
    StaysExited(c, states, steps, i, k);
    RunInv(c, states, steps, k);
    var s := states[k];
    assert s.accepted == RowsOf(s.finished);
  }

  lemma ExitedIsIdle(s: State, move: WorkerMove)
    requires s.worker.Exited?
    ensures !WorkerEnabled(s, move)
  {
  }

  lemma ExitedStays(c: Config, s: State, step: Step)
    requires Enabled(s, step) && s.worker.Exited? && StopsSignalled(s)
    ensures Apply(c, s, step).worker.Exited?
  {
    hide ApplyEnqueue, ApplyFlush, ApplyStop, ApplyWorker, InFlight;
    match step
    case ByEnqueue(e, move) => EnqueueFrame(c, s, e, move);
    case ByFlush(f, move) => FlushFrame(c, s, f, move);
    case ByStop(k, move) => StopFrame(c, s, k, move);
    case ByWorker(move) => ExitedIsIdle(s, move);
  }

  lemma {:induction false} StaysExited(c: Config, states: seq<State>, steps: seq<Step>, i: nat, k: nat)
    requires Run(c, states, steps) && i <= k < |states| && states[i].worker.Exited?
    ensures states[k].worker.Exited?
    decreases k
  {
    hide Apply, Enabled;
    if i < k {
      StaysExited(c, states, steps, i, k - 1);
      RunInv(c, states, steps, k - 1);
      ExitedStays(c, states[k - 1], steps[k - 1]);
    }
  }

  lemma AcceptedGrows(c: Config, s: State, step: Step)
    requires Enabled(s, step) && StopsSignalled(s)
    ensures s.accepted <= Apply(c, s, step).accepted
  {
    hide ApplyEnqueue, ApplyFlush, ApplyStop, ApplyWorker;
    match step
    case ByEnqueue(e, move) => EnqueueFrame(c, s, e, move);
    case ByFlush(f, move) => FlushFrame(c, s, f, move);
    case ByStop(k, move) => StopFrame(c, s, k, move);
    case ByWorker(move) => WorkerFrame(c, s, move);
  }

  lemma SeenMove(c: Config, s: State, g: Caller, move: FlushMove, f: Caller)
    requires FlushEnabled(s, g, move) && f in s.flushes
    ensures f in ApplyFlush(c, s, g, move).flushes && ApplyFlush(c, s, g, move).flushes[f].seen == s.flushes[f].seen
  {
  }

  lemma SeenStays(c: Config, s: State, step: Step, f: Caller)
    requires Enabled(s, step) && f in s.flushes && StopsSignalled(s)
    ensures f in Apply(c, s, step).flushes && Apply(c, s, step).flushes[f].seen == s.flushes[f].seen
  {
    hide ApplyEnqueue, ApplyFlush, ApplyStop, ApplyWorker;
    match step
    case ByEnqueue(e, move) => EnqueueFrame(c, s, e, move);
    case ByFlush(g, move) => SeenMove(c, s, g, move, f);
    case ByStop(k, move) => StopFrame(c, s, k, move);
    case ByWorker(move) => WorkerFrame(c, s, move);
  }

  lemma {:induction false} SeenAtBegin(c: Config, states: seq<State>, steps: seq<Step>, i: nat, k: nat, f: Caller)
    requires Run(c, states, steps) && i < k < |states| && steps[i] == ByFlush(f, Begin)
    ensures f in states[k].flushes && states[k].flushes[f].seen == |states[i].accepted| && states[i].accepted <= states[k].accepted
    decreases k
  {
    if i + 1 < k {
      hide Apply, Enabled;
      SeenAtBegin(c, states, steps, i, k - 1, f);
      RunInv(c, states, steps, k - 1);
      SeenStays(c, states[k - 1], steps[k - 1], f);
      AcceptedGrows(c, states[k - 1], steps[k - 1]);
    } else {
      assert Enabled(states[i], steps[i]) && states[k] == Apply(c, states[i], steps[i]);
    }
  }

  /** When a flush returns true, every row whose enqueue had returned true
      before it began has its outcome, whether or not stop came in between. */
  lemma FlushIsSound(c: Config, states: seq<State>, steps: seq<Step>, i: nat, k: nat, f: Caller, e: Caller)
    requires Run(c, states, steps) && i < k < |states| && steps[i] == ByFlush(f, Begin) && At(states[i].enqueues, e, Accepted)
    requires f in states[k].flushes && states[k].flushes[f].FlushReturned? && states[k].flushes[f].ok
    ensures e in RowsOf(states[k].finished)
  {
    hide Run, Apply, Enabled, RowsOf;
    RunInv(c, states, steps, i);
    RunInv(c, states, steps, k);
    SeenAtBegin(c, states, steps, i, k, f);
    var s, done := states[k], RowsOf(states[k].finished);
    assert e in states[i].accepted;
    var n :| 0 <= n < |states[i].accepted| && states[i].accepted[n] == e;
    assert s.accepted[n] == e && done[n] == e;
  }

  /******* Bounded work *******/

  /** The row in flight is the next in the order of acceptance, no row gets more
      inserts than allowed, and none more than one begun after stop. */
  lemma TriesInOrder(c: Config, states: seq<State>, steps: seq<Step>, k: nat, r: RowId)
    requires Run(c, states, steps) && k < |states|
    ensures Count(states[k].tries, r) <= Limit(c) && Count(states[k].late, r) <= 1
    ensures r in InFlight(states[k].worker) ==> |states[k].finished| < |states[k].accepted| && states[k].accepted[|states[k].finished|] == r
  {
    hide Run, Apply, Enabled, RowsOf;
    RunInv(c, states, steps, k);
    var s := states[k];
    if r in InFlight(s.worker) {
      HeldOne(c, states, steps, k);
      OneInFlight(s.worker, r);
      assert s.accepted[|RowsOf(s.finished)|] == InFlight(s.worker)[0];
    }
  }

  lemma OneInFlight(w: Worker, r: RowId)
    requires r in InFlight(w) && |InFlight(w)| <= 1
    ensures InFlight(w) == [r]
  {
  }

  predicate AtMostOne(s: State) { |InFlight(s.worker)| <= 1 }

  lemma OneWork(c: Config, s: State, move: WorkerMove)
    requires WorkerEnabled(s, move) && AtMostOne(s)
    ensures AtMostOne(ApplyWorker(c, s, move))
  {
  }

  lemma OneStep(c: Config, s: State, step: Step)
    requires Enabled(s, step) && AtMostOne(s) && StopsSignalled(s)
    ensures AtMostOne(Apply(c, s, step))
  {
    hide ApplyEnqueue, ApplyFlush, ApplyStop, ApplyWorker, InFlight;
    match step
    case ByEnqueue(e, move) => EnqueueFrame(c, s, e, move);
    case ByFlush(f, move) => FlushFrame(c, s, f, move);
    case ByStop(k, move) => StopFrame(c, s, k, move);
    case ByWorker(move) => OneWork(c, s, move);
  }

  lemma {:induction false} HeldOne(c: Config, states: seq<State>, steps: seq<Step>, k: nat)
    requires Run(c, states, steps) && k < |states|
    ensures AtMostOne(states[k])
  {
    hide Apply, Enabled;
    if k > 0 {
      HeldOne(c, states, steps, k - 1);
      RunInv(c, states, steps, k - 1);
      OneStep(c, states[k - 1], steps[k - 1]);
    }
  }

  function Rank(w: Worker): nat
  {
    match w
    case Got(_) => 7
    case Backoff(_, _, _) => 7
    case Ready(_, _, _) => 6
    case Inserting(_, _, _) => 5
    case AfterPanic(_, _) => 4
    case AfterError(_, _, _, _) => 4
    case Finishing(_, _) => 3
    case Idle => 2
    case Leaving => 1
    case Exited => 0
    case Dead(_) => 0
  }

  /** What is left for the drain thread to do once stopping. */
  function Remaining(s: State): nat { 8 * |s.queue| + Rank(s.worker) }

  lemma WorkLess(c: Config, s: State, move: WorkerMove)
    requires s.stop && WorkerEnabled(s, move)
    ensures Remaining(ApplyWorker(c, s, move)) < Remaining(s)
  {
  }

  /** After stop every step of the drain thread leaves less to do, no other step
      adds to it, and until it has left the drain thread can always go on. */
  lemma StopTerminates(c: Config, s: State, step: Step)
    requires s.stop && Enabled(s, step) && StopsSignalled(s)
    ensures step.ByWorker? ==> Remaining(Apply(c, s, step)) < Remaining(s)
    ensures !step.ByWorker? ==> Remaining(Apply(c, s, step)) == Remaining(s)
  {
    hide ApplyEnqueue, ApplyFlush, ApplyStop, ApplyWorker, Rank;
    match step
    case ByEnqueue(e, move) => EnqueueFrame(c, s, e, move);
    case ByFlush(f, move) => FlushFrame(c, s, f, move);
    case ByStop(k, move) => StopFrame(c, s, k, move);
    case ByWorker(move) => WorkLess(c, s, move);
  }

  lemma WorkerGoesOn(s: State) returns (move: WorkerMove)
    requires s.stop && !s.WorkerExited()
    ensures !move.Panic? && WorkerEnabled(s, move)
  {
    match s.worker
    case Idle => move := Take;
    case Got(_) => move := Prepare(true);
    case Ready(_, _, _) => move := Insert;
    case Inserting(_, _, _) => move := Answered(Stored);
    case AfterPanic(_, _) => move := Decide;
    case AfterError(_, _, _, _) => move := Decide;
    case Backoff(_, _, _) => move := Awake;
    case Finishing(_, _) => move := Finish;
    case Leaving => move := Leave;
  }

  function WorkerSteps(steps: seq<Step>, i: nat, k: nat): nat
    requires i <= k <= |steps|
  {
    if k == i then 0 else WorkerSteps(steps, i, k - 1) + if steps[k - 1].ByWorker? then 1 else 0
  }

  /** So the drain thread takes at most so many steps after stop. */
  lemma {:induction false} StopBound(c: Config, states: seq<State>, steps: seq<Step>, i: nat, k: nat)
    requires Run(c, states, steps) && i <= k < |states| && states[i].stop
    ensures states[k].stop && WorkerSteps(steps, i, k) + Remaining(states[k]) <= Remaining(states[i])
    decreases k
  {
    hide Apply, Enabled, Remaining;
    if i < k {
      StopBound(c, states, steps, i, k - 1);
      RunInv(c, states, steps, k - 1);
      StopTerminates(c, states[k - 1], steps[k - 1]);
      StopsStep(c, states[k - 1], steps[k - 1]);
    }
  }
}
