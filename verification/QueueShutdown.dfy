/** AsyncDbJobQueue::Stop: which workers its notify reaches, when its joins can return, and
  * which jobs have run when they do. */
module QueueShutdown {
  import opened JobQueueProtocol

  /** In job_cv_.wait with the predicate found false. */
  predicate Waits(st: State, w: WorkerId) {
    Is(st, w, AboutToSleep) || Is(st, w, Sleeping)
  }

  // ----- Whom the notify reaches -----

  /** Only a worker in the gap is missed. */
  lemma NotifyAllStep(st: State, w: WorkerId)
    requires Enabled(st, NotifyAll)
    ensures Waits(Apply(st, NotifyAll), w) <==> Is(st, w, AboutToSleep)
  {
  }

  lemma NotifyIsNotifyAll(st: State, st': State)
    requires Next(st, st') && st.stop == Cleared && st'.stop == Joining
    ensures Enabled(st, NotifyAll) && st' == Apply(st, NotifyAll)
  {
  }

  /** Once running_ is cleared nobody begins to wait, and after the notify one who waits is
    * released only by a notify that an Enqueue still owes, or by a spurious wakeup. */
  lemma WaitsStep(st: State, l: Label, w: WorkerId)
    requires Enabled(st, l) && st.stop == Joining
    ensures Apply(st, l).stop == Joining
    ensures Waits(Apply(st, l), w) <==> Waits(st, w) && l != NotifyOne(w) && l != Wake(w)
  {
  }

  lemma {:induction false} NobodyWaitsAgain(run: seq<State>, i: nat, k: nat, w: WorkerId)
    requires Execution(run) && i <= k < |run| && run[i].stop == Joining && !Waits(run[i], w)
    ensures run[k].stop == Joining && !Waits(run[k], w)
  {
    hide Apply, Enabled, Waits, Init;
    if k == i {
    } else {
      NobodyWaitsAgain(run, i, k - 1, w);
      assert Next(run[k - 1], run[k]);
      var l :| Enabled(run[k - 1], l) && run[k] == Apply(run[k - 1], l);
      WaitsStep(run[k - 1], l, w);
    }
  }

  /** A step that neither pushes a job nor wakes this worker spuriously. */
  ghost predicate Undisturbed(st: State, st': State, w: WorkerId) {
    exists l :: Enabled(st, l) && st' == Apply(st, l) && !l.Push? && l != Wake(w)
  }

  /** Stop is joining a worker that waits, and no notify is owed. */
  predicate Stuck(st: State, w: WorkerId) {
    st.stop == Joining && Waits(st, w) && st.owed == 0
  }

  lemma StuckStep(st: State, l: Label, w: WorkerId)
    requires Stuck(st, w) && Enabled(st, l) && !l.Push? && l != Wake(w)
    ensures Stuck(Apply(st, l), w)
  {
  }

  lemma {:induction false} StuckForever(run: seq<State>, i: nat, k: nat, w: WorkerId)
    requires i <= k < |run| && Stuck(run[i], w)
    requires forall m | i <= m < k :: Undisturbed(run[m], run[m + 1], w)
    ensures Stuck(run[k], w)
  {
    hide Apply, Enabled;
    if k == i {
    } else {
      StuckForever(run, i, k - 1, w);
      assert Undisturbed(run[k - 1], run[k - 1 + 1], w);
      var l :| Enabled(run[k - 1], l) && run[k] == Apply(run[k - 1], l) && !l.Push? && l != Wake(w);
      StuckStep(run[k - 1], l, w);
    }
  }

  predicate NobodyWaits(st: State) {
    forall w <- st.workers :: !Waits(st, w)
  }

  /** Stop's notify reaches every waiting worker if and only if no worker holds job_mutex_
    * between its predicate and its sleep at that moment - and then nobody waits ever after.
    * Otherwise it misses exactly the one worker that does; and if no Enqueue still owes a
    * notify, that worker is never joined, short of a later Enqueue or a spurious wakeup. */
  lemma StopWakesAllIffUnlocked(run: seq<State>, i: nat, k: nat, v: WorkerId, w: WorkerId)
    requires Execution(run) && i < k < |run| && run[i].stop == Cleared && run[i + 1].stop == Joining
    ensures NobodyWaits(run[i + 1]) <==> Unlocked(run[i])
    ensures Unlocked(run[i]) ==> NobodyWaits(run[k])
    ensures Waits(run[i + 1], v) && Waits(run[i + 1], w) ==> v == w
    ensures Waits(run[i + 1], w) && run[i + 1].owed == 0
            && (forall m | i < m < k :: Undisturbed(run[m], run[m + 1], w)) ==>
              Waits(run[k], w) && !AllExited(run[k])
  {
    var before, after := run[i], run[i + 1];
    ExecutionInv(run, i);
    assert Next(before, after);
    NotifyIsNotifyAll(before, after);
    forall u: WorkerId ensures Waits(after, u) <==> Is(before, u, AboutToSleep) {
      NotifyAllStep(before, u);
    }
    hide Apply, Enabled, Placed, Accounted, Next, Undisturbed;
    if Unlocked(before) {
      forall u <- run[k].workers ensures !Waits(run[k], u) {
        NobodyWaitsAgain(run, i + 1, k, u);
      }
    } else {
      var u :| u in before.workers && before.workers[u] == AboutToSleep;
      assert Waits(after, u);
    }
    if Waits(after, w) && after.owed == 0 && forall m | i < m < k :: Undisturbed(run[m], run[m + 1], w) {
      StuckForever(run, i + 1, k, w);
    }
  }

  // ----- Joining -----

  function WorkerIn(l: Label): set<WorkerId> {
    match l
    case Take(w) => {w}
    case RunWork(w) => {w}
    case Complete(w) => {w}
    case Exit(w) => {w}
    case _ => {}
  }

  function WorkingSet(st: State): set<WorkerId> {
    set w <- st.workers | st.workers[w].Working?
  }

  function FinishedSet(st: State): set<WorkerId> {
    set w <- st.workers | st.workers[w].Finished?
  }

  /** An upper bound on the steps that the workers have still to take. */
  function WorkLeft(st: State): nat {
    4 * |st.queue| + 3 * |WorkingSet(st)| + 2 * |FinishedSet(st)| + |AwakeSet(st)|
  }

  lemma WorkingStep(st: State, l: Label)
    requires Enabled(st, l)
    ensures WorkingSet(Apply(st, l)) ==
            WorkingSet(st) + (if l.Take? then {l.w} else {}) - (if l.RunWork? then {l.w} else {})
    ensures l.Take? ==> l.w !in WorkingSet(st)
    ensures l.RunWork? ==> l.w in WorkingSet(st)
  {
  }

  lemma FinishedStep(st: State, l: Label)
    requires Enabled(st, l)
    ensures FinishedSet(Apply(st, l)) ==
            FinishedSet(st) + (if l.RunWork? then {l.w} else {}) - (if l.Complete? then {l.w} else {})
    ensures l.RunWork? ==> l.w !in FinishedSet(st)
    ensures l.Complete? ==> l.w in FinishedSet(st)
  {
  }

  lemma AwakeStep(st: State, l: Label)
    requires Enabled(st, l) && st.stop == Joining && NobodyWaits(st)
    ensures AwakeSet(Apply(st, l)) ==
            AwakeSet(st) + (if l.Complete? then {l.w} else {}) - (if l.Take? || l.Exit? then {l.w} else {})
    ensures l.Complete? ==> l.w !in AwakeSet(st)
    ensures l.Take? || l.Exit? ==> l.w in AwakeSet(st)
  {
  }

  lemma QueueLength(st: State, l: Label)
    requires Enabled(st, l) && !l.Push?
    ensures |Apply(st, l).queue| == |st.queue| - if l.Take? then 1 else 0
  {
  }

  lemma WorkLeftStep(st: State, l: Label)
    requires Enabled(st, l) && st.stop == Joining && NobodyWaits(st) && !l.Push?
    ensures WorkLeft(Apply(st, l)) <= WorkLeft(st) - |WorkerIn(l)|
  {
    WorkingStep(st, l);
    FinishedStep(st, l);
    AwakeStep(st, l);
    QueueLength(st, l);
    hide Apply, Enabled, NobodyWaits, WorkingSet, FinishedSet, AwakeSet;
  }

  lemma SomeoneCanStep(st: State, w: WorkerId)
    requires Inv(st) && st.stop == Joining && NobodyWaits(st) && w in st.workers && st.workers[w] != Exited
    ensures exists l :: Enabled(st, l) && w in WorkerIn(l)
  {
    assert Unlocked(st);
    match st.workers[w] {
      case Awake =>
        var l := if st.queue == [] then Exit(w) else Take(w);
        assert Enabled(st, l) && w in WorkerIn(l);
      case Working(_) => assert Enabled(st, RunWork(w)) && w in WorkerIn(RunWork(w));
      case Finished(j) =>
        assert At(st, j, Held(w));
        assert Enabled(st, Complete(w)) && w in WorkerIn(Complete(w));
    }
  }

  lemma NothingLeft(st: State)
    requires NobodyWaits(st) && WorkLeft(st) == 0
    ensures AllExited(st) && st.queue == []
  {
    forall v <- st.workers ensures st.workers[v] == Exited {
      assert v !in WorkingSet(st) && v !in FinishedSet(st) && v !in AwakeSet(st);
    }
  }

  /** If Stop's notify missed nobody its joins return: every worker that has not returned
    * can go on, each step of a worker brings the end nearer, and no other step but a
    * further Enqueue takes it away again. */
  lemma JoinReturns(run: seq<State>, i: nat, w: WorkerId, l: Label)
    requires Execution(run) && i < |run| && run[i].stop == Joining && NobodyWaits(run[i])
    ensures w in run[i].workers && run[i].workers[w] != Exited ==>
              exists l' :: Enabled(run[i], l') && w in WorkerIn(l')
    ensures Enabled(run[i], l) && !l.Push? ==> WorkLeft(Apply(run[i], l)) <= WorkLeft(run[i]) - |WorkerIn(l)|
    ensures WorkLeft(run[i]) == 0 ==> AllExited(run[i]) && run[i].queue == []
  {
    var st := run[i];
    ExecutionInv(run, i);
    if w in st.workers && st.workers[w] != Exited {
      SomeoneCanStep(st, w);
    }
    if Enabled(st, l) && !l.Push? {
      WorkLeftStep(st, l);
    }
    if WorkLeft(st) == 0 {
      NothingLeft(st);
    }
  }

  // ----- Which jobs have run -----

  /** The last worker to return leaves an empty queue. */
  lemma ExitStep(st: State, l: Label)
    requires Enabled(st, l) && !AllExited(st)
    ensures AllExited(Apply(st, l)) ==> Apply(st, l).queue == []
  {
    var w :| w in st.workers && st.workers[w] != Exited;
    if !l.Exit? {
      assert Apply(st, l).workers[w] != Exited;
    }
  }

  /** After the last exit only a push changes the queue. */
  lemma AfterExitStep(st: State, l: Label)
    requires Enabled(st, l) && AllExited(st)
    ensures var st' := Apply(st, l);
      AllExited(st') && |st'.queue| - |st.queue| == |st'.accepted| - |st.accepted|
  {
  }

  lemma {:induction false} QueueAfterExit(run: seq<State>, e: nat, i: nat)
    requires Execution(run) && e < i < |run| && !AllExited(run[e]) && AllExited(run[e + 1])
    ensures AllExited(run[i]) && |run[i].queue| == |run[i].accepted| - |run[e + 1].accepted|
  {
    hide Apply, Enabled, AllExited, Init;
    assert Next(run[i - 1], run[i]);
    var l :| Enabled(run[i - 1], l) && run[i] == Apply(run[i - 1], l);
    if i == e + 1 {
      ExitStep(run[e], l);
    } else {
      QueueAfterExit(run, e, i - 1);
      AfterExitStep(run[i - 1], l);
    }
  }

  /** When no worker is left, the jobs that have run are those that left the queue. */
  lemma DrainedState(st: State, j: JobId)
    requires Inv(st) && AllExited(st) && j < |st.accepted|
    ensures j in st.ran <==> j < |st.accepted| - |st.queue|
    ensures j in st.ran && st.accepted[j] ==> j in st.completion || j in st.ready || j in st.called
  {
    if j >= |st.accepted| - |st.queue| {
      assert st.queue[j - (|st.accepted| - |st.queue|)] == j;
    }
    assert Lives(st, j);
    var p :| At(st, j, p);
    assert !p.Held?;
  }

  /** Once every worker has returned, the last one at step e, a job's work has run exactly
    * if it was pushed by then; so none is lost exactly if no Enqueue came later. A job
    * whose work has run has had its callback run, or the main thread can still run it. */
  lemma DrainOnStop(run: seq<State>, e: nat, i: nat, j: JobId)
    requires Execution(run) && e < i < |run| && !AllExited(run[e]) && AllExited(run[e + 1])
    requires j < |run[i].accepted|
    ensures var st := run[i];
      && (j in st.ran <==> j < |run[e + 1].accepted|)
      && (st.queue == [] <==> |st.accepted| == |run[e + 1].accepted|)
      && (j in st.ran && st.accepted[j] ==> j in st.completion || j in st.ready || j in st.called)
  {
    var st := run[i];
    QueueAfterExit(run, e, i);
    ExecutionInv(run, i);
    DrainedState(st, j);
  }

  /** No worker returns before running_ is cleared. */
  predicate StaysWhileRunning(st: State) {
    st.stop == Running ==> forall w <- st.workers :: st.workers[w] != Exited
  }

  lemma NoExitStep(st: State, l: Label)
    requires Enabled(st, l) && StaysWhileRunning(st)
    ensures StaysWhileRunning(Apply(st, l))
  {
  }

  lemma StayAtFirst(st: State)
    requires Init(st)
    ensures StaysWhileRunning(st)
  {
  }

  lemma StopGrows(st: State, l: Label)
    requires Enabled(st, l)
    ensures Apply(st, l).stop == Running ==> st.stop == Running
    ensures Apply(st, l).workers.Keys == st.workers.Keys
  {
  }

  lemma {:induction false} NoExitWhileRunning(run: seq<State>, i: nat)
    requires Execution(run) && i < |run|
    ensures StaysWhileRunning(run[i])
  {
    hide Apply, Enabled, Init;
    if i == 0 {
      StayAtFirst(run[0]);
    } else {
      NoExitWhileRunning(run, i - 1);
      assert Next(run[i - 1], run[i]);
      var l :| Enabled(run[i - 1], l) && run[i] == Apply(run[i - 1], l);
      NoExitStep(run[i - 1], l);
    }
  }

  lemma {:induction false} SameWorkers(run: seq<State>, k: nat, i: nat)
    requires Execution(run) && k <= i < |run|
    ensures run[i].workers.Keys == run[k].workers.Keys
  {
    if i == k {
    } else {
      hide Apply, Enabled, Init;
      SameWorkers(run, k, i - 1);
      assert Next(run[i - 1], run[i]);
      var l :| Enabled(run[i - 1], l) && run[i] == Apply(run[i - 1], l);
      StopGrows(run[i - 1], l);
    }
  }

  /** The step at which the last worker returned. */
  lemma {:induction false} LastExit(run: seq<State>, k: nat, i: nat) returns (e: nat)
    requires k <= i < |run| && !AllExited(run[k]) && AllExited(run[i])
    ensures k <= e < i && !AllExited(run[e]) && AllExited(run[e + 1])
  {
    if !AllExited(run[i - 1]) {
      e := i - 1;
    } else {
      e := LastExit(run, k, i - 1);
    }
  }

  /** As its caller sees it: if workers were started, and nothing is enqueued from some
    * moment before Stop on, then when the joins have returned no job is left and every
    * accepted job's work has run. */
  lemma DrainIfNoLatePush(run: seq<State>, k: nat, i: nat, j: JobId)
    requires Execution(run) && k <= i < |run| && run[k].stop == Running
    requires forall m | k <= m <= i :: |run[m].accepted| == |run[k].accepted|
    requires run[i].workers != map[] && AllExited(run[i]) && j < |run[i].accepted|
    ensures run[i].queue == [] && j in run[i].ran
    ensures run[i].accepted[j] ==> j in run[i].completion || j in run[i].ready || j in run[i].called
  {
    hide Execution;
    SameWorkers(run, k, i);
    NoExitWhileRunning(run, k);
    var w :| w in run[i].workers.Keys;
    assert w in run[k].workers && run[k].workers[w] != Exited;
    var e := LastExit(run, k, i);
    DrainOnStop(run, e, i, j);
  }

  // ----- Witnesses -----

  /** One worker, and the jobs in the queue. */
  function Lone(stop: Stop, pc: Pc, queued: nat): State {
    State(stop, seq(queued, i => i), map[0 := pc], queued, [], [], seq(queued, _ => true), [], [], [], [], 0)
  }

  lemma LoneStep(st: State, l: Label, st': State)
    requires Enabled(st, l) && Apply(st, l) == st'
    ensures Next(st, st')
  {
  }

  lemma LoneFacts(stop: Stop, pc: Pc, queued: nat)
    ensures var st := Lone(stop, pc, queued);
      && (stop == Running && pc == Awake && queued == 0 ==> Init(st))
      && (stop == Joining && pc == AboutToSleep && queued == 0 ==> Stuck(st, 0))
      && (AllExited(st) <==> pc == Exited)
      && |st.accepted| == queued
  {
    var st := Lone(stop, pc, queued);
    assert st.workers[0] == pc;
    assert queued == 0 ==> st.queue == [] == seq(|st.accepted|, i => i);
  }

  lemma LoneStops(pc: Pc)
    requires pc == Awake || pc == AboutToSleep
    ensures Next(Lone(Running, pc, 0), Lone(Cleared, pc, 0))
    ensures Next(Lone(Cleared, pc, 0), Lone(Joining, pc, 0))
  {
    hide Next;
    LoneStep(Lone(Running, pc, 0), ClearRunning, Lone(Cleared, pc, 0));
    LoneStep(Lone(Cleared, pc, 0), NotifyAll, Lone(Joining, pc, 0));
  }

  /** The other case occurs: Stop can wait for a worker that, by StuckForever, nobody will
    * notify. */
  lemma StopCanMissOne()
    ensures exists run :: Execution(run) && Stuck(run[|run| - 1], 0)
  {
    LoneFacts(Running, Awake, 0);
    LoneFacts(Joining, AboutToSleep, 0);
    LoneStep(Lone(Running, Awake, 0), CheckEmpty(0), Lone(Running, AboutToSleep, 0));
    LoneStops(AboutToSleep);
    hide Next, Lone, Init, Stuck;
    var run := [Lone(Running, Awake, 0), Lone(Running, AboutToSleep, 0), Lone(Cleared, AboutToSleep, 0),
                Lone(Joining, AboutToSleep, 0)];
    assert Execution(run) && Stuck(run[|run| - 1], 0);
  }

  /** The last worker returned two steps before the end, and the step after pushed a job. */
  predicate PushedTooLate(run: seq<State>, j: JobId) {
    && |run| > 2 && !AllExited(run[|run| - 3]) && AllExited(run[|run| - 2])
    && j == |run[|run| - 2].accepted| < |run[|run| - 1].accepted|
  }

  lemma {:induction false} AcceptedGrows(run: seq<State>, k: nat, i: nat)
    requires Execution(run) && k <= i < |run|
    ensures |run[k].accepted| <= |run[i].accepted|
  {
    if i == k {
    } else {
      hide Init;
      AcceptedGrows(run, k, i - 1);
      assert Next(run[i - 1], run[i]);
    }
  }

  /** However such a run goes on, the job's work never runs: Enqueue accepts it and drops
    * it. And such runs exist. */
  lemma LateJobIsLost(run: seq<State>, more: seq<State>, j: JobId)
    requires Execution(run + more) && PushedTooLate(run, j)
    ensures var last := (run + more)[|run + more| - 1]; j in last.queue && j !in last.ran
  {
    var all, e := run + more, |run| - 3;
    var i := |all| - 1;
    assert all[e] == run[e] && all[e + 1] == run[e + 1];
    AcceptedGrows(all, e + 2, i);
    DrainOnStop(all, e, i, j);
    QueueAfterExit(all, e, i);
    ExecutionInv(all, i);
    assert all[i].queue[j - (|all[i].accepted| - |all[i].queue|)] == j;
  }

  lemma LoneLate()
    ensures Next(Lone(Joining, Awake, 0), Lone(Joining, Exited, 0))
    ensures Next(Lone(Joining, Exited, 0), Lone(Joining, Exited, 1))
  {
    hide Next;
    LoneStep(Lone(Joining, Awake, 0), Exit(0), Lone(Joining, Exited, 0));
    LoneStep(Lone(Joining, Exited, 0), Push(true), Lone(Joining, Exited, 1));
  }

  lemma LateJobExists()
    ensures exists run :: Execution(run) && PushedTooLate(run, 0)
  {
    LoneStops(Awake);
    LoneLate();
    LoneFacts(Running, Awake, 0);
    LoneFacts(Joining, Awake, 0);
    LoneFacts(Joining, Exited, 0);
    LoneFacts(Joining, Exited, 1);
    hide Next, Lone, Init, AllExited, Stuck;
    var run := [Lone(Running, Awake, 0), Lone(Cleared, Awake, 0), Lone(Joining, Awake, 0),
                Lone(Joining, Exited, 0), Lone(Joining, Exited, 1)];
    assert Execution(run) && PushedTooLate(run, 0);
  }
}
