/** NetworkServer::Stop: the IOCP workers, which are the only threads that enqueue jobs, are
  * joined before the job queue is stopped. Joins IocpShutdown and JobQueueProtocol. */
module ServerShutdown {
  import IS = IocpShutdown
  import JQ = JobQueueProtocol
  import QS = QueueShutdown

  type WorkerId = IS.WorkerId

  /** `owing` are the IOCP workers between the unlock and the notify of an Enqueue. */
  datatype State = State(iocp: IS.State, q: JQ.State, owing: set<WorkerId>)

  datatype Label =
    | Io(io: IS.Label)
    | Push(w: WorkerId, hasCallback: bool)
    | Notify(w: WorkerId, l: JQ.Label)
    | Db(l: JQ.Label)

  /** IoCompletionPort::Stop has returned. */
  predicate Joined(iocp: IS.State) {
    !iocp.running && iocp.unposted == 0 && forall w <- iocp.workers :: iocp.workers[w] == IS.Exited
  }

  predicate Notifies(l: JQ.Label) {
    l.NotifyOne? || l.NotifyNone?
  }

  predicate Enabled(st: State, l: Label) {
    match l
    case Io(l) => IS.Enabled(st.iocp, l) && (l.Return? ==> l.w !in st.owing)
    case Push(w, hasCallback) =>
      IS.Is(st.iocp, w, IS.Handling) && w !in st.owing && JQ.Enabled(st.q, JQ.Push(hasCallback))
    case Notify(w, l) => w in st.owing && Notifies(l) && JQ.Enabled(st.q, l)
    case Db(l) => JQ.Enabled(st.q, l) && !l.Push? && !Notifies(l) && (l.ClearRunning? ==> Joined(st.iocp))
  }

  function Apply(st: State, l: Label): State
    requires Enabled(st, l)
  {
    match l
    case Io(l) => st.(iocp := IS.Apply(st.iocp, l))
    case Push(w, hasCallback) => st.(q := JQ.Apply(st.q, JQ.Push(hasCallback)), owing := st.owing + {w})
    case Notify(w, l) => st.(q := JQ.Apply(st.q, l), owing := st.owing - {w})
    case Db(l) => st.(q := JQ.Apply(st.q, l))
  }

  ghost predicate Init(st: State) {
    IS.Init(st.iocp) && JQ.Init(st.q) && st.owing == {}
  }

  ghost predicate Next(st: State, st': State) {
    exists l :: Enabled(st, l) && st' == Apply(st, l)
  }

  ghost predicate Execution(run: seq<State>) {
    && run != [] && Init(run[0])
    && forall i | 0 <= i < |run| - 1 :: Next(run[i], run[i + 1])
  }

  // ----- Invariant -----

  /** The notifies owed are those of IOCP workers still in their handlers. */
  predicate Owed(st: State) {
    st.q.owed == |st.owing| && forall w <- st.owing :: IS.Is(st.iocp, w, IS.Handling)
  }

  /** The queue is stopped after the IOCP workers are gone, its workers leave after that, and
    * the last one leaves nothing behind. */
  predicate Ordered(st: State) {
    && (st.q.stop != JQ.Running ==> Joined(st.iocp))
    && QS.StaysWhileRunning(st.q)
    && (JQ.AllExited(st.q) && st.q.workers != map[] ==> st.q.queue == [])
  }

  ghost predicate Inv(st: State) {
    JQ.Inv(st.q) && Owed(st) && Ordered(st)
  }

  /** The step that the job queue takes, if any. */
  function QueueLabel(l: Label): seq<JQ.Label> {
    match l
    case Io(_) => []
    case Push(_, hasCallback) => [JQ.Push(hasCallback)]
    case Notify(_, l) => [l]
    case Db(l) => [l]
  }

  lemma IoStep(iocp: IS.State, l: IS.Label, w: WorkerId)
    requires IS.Enabled(iocp, l)
    ensures IS.Is(iocp, w, IS.Handling) && l != IS.Return(w) ==> IS.Is(IS.Apply(iocp, l), w, IS.Handling)
    ensures Joined(iocp) ==> Joined(IS.Apply(iocp, l))
  {
  }

  lemma OwedCount(q: JQ.State, l: JQ.Label)
    requires JQ.Enabled(q, l)
    ensures JQ.Apply(q, l).owed == q.owed + (if l.Push? then 1 else 0) - (if Notifies(l) then 1 else 0)
  {
  }

  lemma OwedStep(st: State, l: Label)
    requires Owed(st) && Enabled(st, l)
    ensures Owed(Apply(st, l))
  {
    hide JQ.Apply, JQ.Enabled, IS.Apply, IS.Enabled;
    match l {
      case Io(l) =>
        forall w <- st.owing ensures IS.Is(IS.Apply(st.iocp, l), w, IS.Handling) {
          IoStep(st.iocp, l, w);
        }
      case Push(_, hasCallback) => OwedCount(st.q, JQ.Push(hasCallback));
      case Notify(_, l) => OwedCount(st.q, l);
      case Db(l) => OwedCount(st.q, l);
    }
  }

  lemma QueueEnd(q: JQ.State, l: JQ.Label)
    requires JQ.Enabled(q, l)
    requires JQ.AllExited(q) && q.workers != map[] ==> q.queue == []
    requires JQ.AllExited(q) && q.workers != map[] ==> !l.Push?
    ensures var q' := JQ.Apply(q, l); JQ.AllExited(q') && q'.workers != map[] ==> q'.queue == []
  {
    QS.StopGrows(q, l);
    if JQ.AllExited(q) {
      QS.AfterExitStep(q, l);
    } else if JQ.AllExited(JQ.Apply(q, l)) {
      QS.ExitStep(q, l);
    }
  }

  /** An IOCP worker that pushes a job has not been joined, so the queue is not being stopped. */
  lemma PushIsEarly(st: State, l: Label)
    requires Ordered(st) && Enabled(st, l) && l.Push?
    ensures st.q.stop == JQ.Running && !(JQ.AllExited(st.q) && st.q.workers != map[])
  {
    if st.q.workers != map[] {
      var w :| w in st.q.workers.Keys;
      assert st.q.workers[w] != JQ.Exited;
    }
  }

  lemma StopStep(q: JQ.State, l: JQ.Label)
    requires JQ.Enabled(q, l)
    ensures JQ.Apply(q, l).stop == JQ.Running <==> q.stop == JQ.Running && !l.ClearRunning?
  {
  }

  lemma OrderedStep(st: State, l: Label)
    requires Ordered(st) && Enabled(st, l)
    ensures Ordered(Apply(st, l))
  {
    hide JQ.Apply, JQ.Enabled, IS.Apply, IS.Enabled;
    if l.Io? {
      IoStep(st.iocp, l.io, 0);
    } else {
      if l.Push? {
        PushIsEarly(st, l);
      }
      var k := QueueLabel(l)[0];
      StopStep(st.q, k);
      QS.NoExitStep(st.q, k);
      QueueEnd(st.q, k);
    }
  }

  lemma InvStep(st: State, l: Label)
    requires Inv(st) && Enabled(st, l)
    ensures Inv(Apply(st, l))
  {
    OwedStep(st, l);
    OrderedStep(st, l);
    hide JQ.Apply, JQ.Enabled, JQ.Inv, IS.Apply, IS.Enabled, Owed, Ordered;
    if !l.Io? {
      JQ.InvStep(st.q, QueueLabel(l)[0]);
    }
  }

  lemma NobodyExited(q: JQ.State)
    requires JQ.Init(q)
    ensures q.stop == JQ.Running && q.owed == 0 && forall w <- q.workers :: q.workers[w] != JQ.Exited
    ensures q.workers != map[] ==> !JQ.AllExited(q)
  {
    if q.workers != map[] {
      var w :| w in q.workers.Keys;
    }
  }

  lemma {:induction false} ExecutionInv(run: seq<State>, i: nat)
    requires Execution(run) && i < |run|
    ensures Inv(run[i])
  {
    hide Enabled, Apply, JQ.Inv;
    if i == 0 {
      JQ.InitInv(run[0].q);
      NobodyExited(run[0].q);
    } else {
      ExecutionInv(run, i - 1);
      assert Next(run[i - 1], run[i]);
      var l :| Enabled(run[i - 1], l) && run[i] == Apply(run[i - 1], l);
      hide Inv;
      InvStep(run[i - 1], l);
    }
  }

  // ----- Main results -----

  /** NetworkServer::Stop drains the job queue: once its workers are gone - at least one was
    * started - no job is left, every job ever accepted has run, and its callback has run or
    * is held for the main thread. And from the moment that the queue is being stopped, no
    * Enqueue is under way and none begins. */
  lemma ShutdownDrains(run: seq<State>, i: nat, j: JQ.JobId)
    requires Execution(run) && i < |run|
    ensures var q := run[i].q;
      q.workers != map[] && JQ.AllExited(q) && j < |q.accepted| ==>
        && q.queue == [] && j in q.ran
        && (q.accepted[j] ==> j in q.completion || j in q.ready || j in q.called)
    ensures run[i].q.stop != JQ.Running ==>
              run[i].owing == {} && forall w, hasCallback :: !Enabled(run[i], Push(w, hasCallback))
  {
    var st := run[i];
    ExecutionInv(run, i);
    hide JQ.Inv, JQ.Enabled;
    if st.q.workers != map[] && JQ.AllExited(st.q) && j < |st.q.accepted| {
      QS.DrainedState(st.q, j);
    }
  }

  /** No spurious wakeup of this worker. */
  ghost predicate Undisturbed(st: State, st': State, w: JQ.WorkerId) {
    exists l :: Enabled(st, l) && st' == Apply(st, l) && l != Db(JQ.Wake(w))
  }

  lemma JoiningStep(st: State, l: Label, w: JQ.WorkerId)
    requires Inv(st) && Enabled(st, l) && st.q.stop == JQ.Joining
    ensures var st' := Apply(st, l);
      && st'.q.stop == JQ.Joining
      && (QS.Waits(st'.q, w) <==> QS.Waits(st.q, w) && l != Db(JQ.Wake(w)))
  {
    hide JQ.Apply, JQ.Inv, IS.Apply, QS.Waits;
    if !l.Io? {
      QS.WaitsStep(st.q, QueueLabel(l)[0], w);
    }
  }

  lemma JoiningNext(st: State, st': State, w: JQ.WorkerId)
    requires Inv(st) && Next(st, st') && st.q.stop == JQ.Joining
    ensures st'.q.stop == JQ.Joining
    ensures QS.Waits(st'.q, w) ==> QS.Waits(st.q, w)
    ensures QS.Waits(st.q, w) && Undisturbed(st, st', w) ==> QS.Waits(st'.q, w)
  {
    hide Enabled, Apply, Inv, QS.Waits;
    var l :| Enabled(st, l) && st' == Apply(st, l);
    JoiningStep(st, l, w);
    if Undisturbed(st, st', w) {
      var l' :| Enabled(st, l') && st' == Apply(st, l') && l' != Db(JQ.Wake(w));
      JoiningStep(st, l', w);
    }
  }

  lemma {:induction false} JoiningRun(run: seq<State>, i: nat, k: nat, w: JQ.WorkerId)
    requires Execution(run) && i <= k < |run| && run[i].q.stop == JQ.Joining
    ensures run[k].q.stop == JQ.Joining
    ensures QS.Waits(run[k].q, w) ==> QS.Waits(run[i].q, w)
    ensures QS.Waits(run[i].q, w) && (forall m | i <= m < k :: Undisturbed(run[m], run[m + 1], w)) ==>
              QS.Waits(run[k].q, w)
  {
    hide Next, Undisturbed, Inv, Init, QS.Waits;
    if k == i {
    } else {
      JoiningRun(run, i, k - 1, w);
      ExecutionInv(run, k - 1);
      assert Next(run[k - 1], run[k - 1 + 1]);
      JoiningNext(run[k - 1], run[k], w);
      if forall m | i <= m < k :: Undisturbed(run[m], run[m + 1], w) {
        assert Undisturbed(run[k - 1], run[k - 1 + 1], w);
      }
    }
  }

  lemma NotifyStep(st: State, st': State)
    requires Next(st, st') && st.q.stop == JQ.Cleared && st'.q.stop == JQ.Joining
    ensures JQ.Enabled(st.q, JQ.NotifyAll) && st'.q == JQ.Apply(st.q, JQ.NotifyAll)
  {
    hide IS.Apply, IS.Enabled;
    var l :| Enabled(st, l) && st' == Apply(st, l);
    assert JQ.Next(st.q, st'.q);
    QS.NotifyIsNotifyAll(st.q, st'.q);
  }

  /** In this program the joins of AsyncDbJobQueue::Stop wait for nobody who sleeps if and
    * only if no worker holds job_mutex_ between its predicate and its sleep when the notify
    * comes. The worker that does is never joined: short of a spurious wakeup, nothing in
    * the program wakes it. */
  lemma ShutdownReturnsIffUnlocked(run: seq<State>, i: nat, k: nat, w: JQ.WorkerId)
    requires Execution(run) && i < k < |run| && run[i].q.stop == JQ.Cleared && run[i + 1].q.stop == JQ.Joining
    ensures QS.NobodyWaits(run[i + 1].q) <==> JQ.Unlocked(run[i].q)
    ensures JQ.Unlocked(run[i].q) ==> QS.NobodyWaits(run[k].q)
    ensures JQ.Is(run[i].q, w, JQ.AboutToSleep) && (forall m | i < m < k :: Undisturbed(run[m], run[m + 1], w)) ==>
              QS.Waits(run[k].q, w) && !JQ.AllExited(run[k].q)
  {
    var q, q' := run[i].q, run[i + 1].q;
    assert Next(run[i], run[i + 1]);
    NotifyStep(run[i], run[i + 1]);
    hide Next, JQ.Enabled;
    forall v: JQ.WorkerId ensures QS.Waits(q', v) <==> JQ.Is(q, v, JQ.AboutToSleep) {
      QS.NotifyAllStep(q, v);
    }
    hide JQ.Apply;
    if JQ.Unlocked(q) {
      forall v <- run[k].q.workers ensures !QS.Waits(run[k].q, v) {
        JoiningRun(run, i + 1, k, v);
      }
    } else {
      var v :| v in q.workers && q.workers[v] == JQ.AboutToSleep;
      assert QS.Waits(q', v);
    }
    if JQ.Is(q, w, JQ.AboutToSleep) && forall m | i < m < k :: Undisturbed(run[m], run[m + 1], w) {
      JoiningRun(run, i + 1, k, w);
    }
  }

  /** And if nobody sleeps they return: in every run of the server each worker that has not
    * returned can go on, each of its steps lowers a bound, nothing else raises it, and at
    * zero everybody has returned with the queue empty. */
  lemma ShutdownJoins(run: seq<State>, i: nat, w: JQ.WorkerId, l: Label)
    requires Execution(run) && i < |run| && run[i].q.stop == JQ.Joining && QS.NobodyWaits(run[i].q)
    ensures var q := run[i].q;
      w in q.workers && q.workers[w] != JQ.Exited ==>
        exists k :: Enabled(run[i], Db(k)) && w in QS.WorkerIn(k)
    ensures Enabled(run[i], l) ==>
              QS.WorkLeft(Apply(run[i], l).q) <= QS.WorkLeft(run[i].q) - if l.Db? then |QS.WorkerIn(l.l)| else 0
    ensures QS.WorkLeft(run[i].q) == 0 ==> JQ.AllExited(run[i].q) && run[i].q.queue == []
  {
    var st := run[i];
    ExecutionInv(run, i);
    hide JQ.Apply, JQ.Enabled, JQ.Inv;
    if w in st.q.workers && st.q.workers[w] != JQ.Exited {
      QS.SomeoneCanStep(st.q, w);
      var k :| JQ.Enabled(st.q, k) && w in QS.WorkerIn(k);
      assert Enabled(st, Db(k));
    }
    if Enabled(st, l) && !l.Io? {
      QS.WorkLeftStep(st.q, QueueLabel(l)[0]);
    }
    if QS.WorkLeft(st.q) == 0 {
      QS.NothingLeft(st.q);
    }
  }
}
