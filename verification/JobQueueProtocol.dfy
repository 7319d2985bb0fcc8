/** AsyncDbJobQueue under every interleaving of producers, workers, the main thread and a
  * stopping thread. A critical section is one step, except that a worker which found its
  * wait predicate false keeps job_mutex_ until it sleeps: that gap is explicit. */
module JobQueueProtocol {

  type JobId = nat // the number of jobs pushed before
  type WorkerId = nat

  datatype Pc =
    | Awake                // will lock job_mutex_ and evaluate the predicate
    | AboutToSleep         // holds job_mutex_, predicate was false
    | Sleeping
    | Working(job: JobId)  // popped, work not run
    | Finished(job: JobId) // work has run, completion not pushed
    | Exited

  datatype Stop = Running | Cleared | Joining // running_ is set / cleared / notify_all done

  datatype State = State(
    stop: Stop,
    queue: seq<JobId>,
    workers: map<WorkerId, Pc>,
    owed: nat,              // Enqueue calls between their unlock and notify_one
    completion: seq<JobId>,
    ready: seq<JobId>,      // swapped out by the main thread, not yet run
    // history
    accepted: seq<bool>,    // per pushed job: does it have a completion callback
    ran: seq<JobId>,
    called: seq<JobId>,
    retired: seq<JobId>,    // finished jobs without a callback
    batch: seq<JobId>,      // what the last swap found
    batchStart: nat)        // callbacks run before it

  datatype Label =
    | Push(hasCallback: bool)
    | NotifyOne(w: WorkerId)
    | NotifyNone
    | Take(w: WorkerId)
    | CheckEmpty(w: WorkerId)
    | Sleep(w: WorkerId)
    | Wake(w: WorkerId) // spurious
    | RunWork(w: WorkerId)
    | Complete(w: WorkerId)
    | Exit(w: WorkerId)
    | ClearRunning
    | NotifyAll
    | Swap
    | Call

  predicate Is(st: State, w: WorkerId, pc: Pc) {
    w in st.workers && st.workers[w] == pc
  }

  predicate Unlocked(st: State) {
    forall w <- st.workers :: st.workers[w] != AboutToSleep
  }

  predicate Holds(st: State, w: WorkerId) {
    w in st.workers && (st.workers[w].Working? || st.workers[w].Finished?)
  }

  predicate Enabled(st: State, l: Label) {
    match l
    case Push(_) => Unlocked(st)
    case NotifyOne(w) => st.owed > 0 && Is(st, w, Sleeping)
    case NotifyNone => st.owed > 0 && forall w <- st.workers :: st.workers[w] != Sleeping
    case Take(w) => Is(st, w, Awake) && Unlocked(st) && st.queue != []
    case CheckEmpty(w) => Is(st, w, Awake) && Unlocked(st) && st.queue == [] && st.stop == Running
    case Sleep(w) => Is(st, w, AboutToSleep)
    case Wake(w) => Is(st, w, Sleeping)
    case RunWork(w) => w in st.workers && st.workers[w].Working?
    case Complete(w) => w in st.workers && st.workers[w].Finished? && st.workers[w].job < |st.accepted|
    case Exit(w) => Is(st, w, Awake) && Unlocked(st) && st.queue == [] && st.stop != Running
    case ClearRunning => st.stop == Running
    case NotifyAll => st.stop == Cleared
    case Swap => st.ready == []
    case Call => st.ready != []
  }

  function Goto(st: State, w: WorkerId, pc: Pc): State {
    st.(workers := st.workers[w := pc])
  }

  function Woken(pc: Pc): Pc {
    if pc == Sleeping then Awake else pc
  }

  function Apply(st: State, l: Label): State
    requires Enabled(st, l)
  {
    match l
    case Push(hasCallback) =>
      st.(queue := st.queue + [|st.accepted|], owed := st.owed + 1, accepted := st.accepted + [hasCallback])
    case NotifyOne(w) => Goto(st, w, Awake).(owed := st.owed - 1)
    case NotifyNone => st.(owed := st.owed - 1)
    case Take(w) => Goto(st, w, Working(st.queue[0])).(queue := st.queue[1..])
    case CheckEmpty(w) => Goto(st, w, AboutToSleep)
    case Sleep(w) => Goto(st, w, Sleeping)
    case Wake(w) => Goto(st, w, Awake)
    case RunWork(w) => Goto(st, w, Finished(st.workers[w].job)).(ran := st.ran + [st.workers[w].job])
    case Complete(w) =>
      var job := st.workers[w].job;
      if st.accepted[job] then Goto(st, w, Awake).(completion := st.completion + [job])
      else Goto(st, w, Awake).(retired := st.retired + [job])
    case Exit(w) => Goto(st, w, Exited)
    case ClearRunning => st.(stop := Cleared)
    case NotifyAll =>
      st.(stop := Joining, workers := (map w <- st.workers :: Woken(st.workers[w])))
    case Swap =>
      st.(ready := st.completion, completion := [], batch := st.completion, batchStart := |st.called|)
    case Call => st.(ready := st.ready[1..], called := st.called + [st.ready[0]])
  }

  predicate Init(st: State) {
    && st.stop == Running && st.owed == 0 && st.batchStart == 0
    && st.queue == seq(|st.accepted|, i => i)
    && st.completion == st.ready == st.ran == st.called == st.retired == st.batch == []
    && forall w <- st.workers :: st.workers[w] == Awake
  }

  ghost predicate Next(st: State, st': State) {
    exists l :: Enabled(st, l) && st' == Apply(st, l)
  }

  ghost predicate Execution(run: seq<State>) {
    && run != [] && Init(run[0])
    && forall i | 0 <= i < |run| - 1 :: Next(run[i], run[i + 1])
  }

  // ----- Where each job is -----

  datatype Place =
    | Queued(i: nat)
    | Held(w: WorkerId)
    | Completed(i: nat)
    | Ready(i: nat)
    | Called(i: nat)
    | Retired(i: nat)

  predicate At(st: State, j: JobId, p: Place) {
    match p
    case Queued(i) => i < |st.queue| && st.queue[i] == j
    case Held(w) => Holds(st, w) && st.workers[w].job == j
    case Completed(i) => i < |st.completion| && st.completion[i] == j
    case Ready(i) => i < |st.ready| && st.ready[i] == j
    case Called(i) => i < |st.called| && st.called[i] == j
    case Retired(i) => i < |st.retired| && st.retired[i] == j
  }

  ghost predicate Lives(st: State, j: JobId) {
    exists p :: At(st, j, p)
  }

  /** Every pushed job is in exactly one place, and nothing else is anywhere. */
  ghost predicate Placed(st: State) {
    && (forall j: JobId, p, q :: At(st, j, p) && At(st, j, q) ==> p == q)
    && (forall j: JobId, p :: At(st, j, p) ==> j < |st.accepted|)
    && (forall j | 0 <= j < |st.accepted| :: Lives(st, j))
  }

  predicate Pending(st: State, j: JobId) {
    j in st.queue || exists w <- st.workers :: st.workers[w] == Working(j)
  }

  /** Works run once each, for exactly the jobs past that stage; callbacks only for jobs
    * that have one. */
  ghost predicate Accounted(st: State) {
    && (forall a, b | 0 <= a < b < |st.ran| :: st.ran[a] != st.ran[b])
    && (forall j: JobId :: j in st.ran <==> j < |st.accepted| && !Pending(st, j))
    && (forall j <- st.completion + st.ready + st.called :: j < |st.accepted| && st.accepted[j])
    && (forall j <- st.retired :: j < |st.accepted| && !st.accepted[j])
  }

  // ----- Order -----

  /** The queue holds the latest jobs, oldest first: jobs are taken in push order. */
  predicate Fifo(st: State) {
    && |st.queue| <= |st.accepted|
    && forall i | 0 <= i < |st.queue| :: st.queue[i] == |st.accepted| - |st.queue| + i
  }

  /** The jobs before k that have a callback. */
  function WithCallback(accepted: seq<bool>, k: nat): seq<JobId>
    requires k <= |accepted|
  {
    if k == 0 then []
    else if accepted[k - 1] then WithCallback(accepted, k - 1) + [k - 1]
    else WithCallback(accepted, k - 1)
  }

  /** A single worker has completed the jobs before this one. */
  function Settled(st: State, w: WorkerId): nat
    requires Fifo(st) && w in st.workers
  {
    if Holds(st, w) then st.workers[w].job else |st.accepted| - |st.queue|
  }

  ghost predicate SingleOrder(st: State)
    requires Fifo(st)
  {
    forall w | st.workers.Keys == {w} ::
      && (Holds(st, w) ==> st.workers[w].job == |st.accepted| - |st.queue| - 1)
      && st.called + st.ready + st.completion == WithCallback(st.accepted, Settled(st, w))
  }

  ghost predicate BatchOrder(st: State) {
    st.batchStart <= |st.called| && st.batch == st.called[st.batchStart..] + st.ready
  }

  // ----- Sleeping -----

  predicate HasSleeper(st: State) {
    exists w <- st.workers :: st.workers[w] == Sleeping
  }

  function AwakeSet(st: State): set<WorkerId> {
    set w <- st.workers | st.workers[w] == Awake
  }

  /** At most one worker is in the gap, and then the queue is empty. */
  ghost predicate Gap(st: State) {
    && (forall w <- st.workers | st.workers[w] == AboutToSleep :: st.queue == [])
    && (forall v, w :: Is(st, v, AboutToSleep) && Is(st, w, AboutToSleep) ==> v == w)
  }

  /** While a worker sleeps, each queued job has a worker coming for it or a notify owed. */
  ghost predicate Covered(st: State) {
    HasSleeper(st) ==> |st.queue| <= st.owed + |AwakeSet(st)|
  }

  predicate AllExited(st: State) {
    forall w <- st.workers :: st.workers[w] == Exited
  }

  ghost predicate Inv(st: State) {
    && Placed(st) && Accounted(st)
    && Fifo(st) && SingleOrder(st) && BatchOrder(st)
    && Gap(st) && Covered(st)
  }

  // ----- Jobs move from place to place -----

  function After(st: State, l: Label, p: Place): Place {
    match l
    case Take(w) =>
      if p == Queued(0) then Held(w)
      else if p.Queued? then Queued(p.i - 1)
      else p
    case Complete(w) =>
      if p != Held(w) || w !in st.workers || !Holds(st, w) || st.workers[w].job >= |st.accepted| then p
      else if st.accepted[st.workers[w].job] then Completed(|st.completion|)
      else Retired(|st.retired|)
    case Swap => if p.Completed? then Ready(p.i) else p
    case Call =>
      if p == Ready(0) then Called(|st.called|)
      else if p.Ready? then Ready(p.i - 1)
      else p
    case _ => p
  }

  function Before(st: State, l: Label, p: Place): Place {
    match l
    case Take(w) => if p == Held(w) then Queued(0) else if p.Queued? then Queued(p.i + 1) else p
    case Complete(w) =>
      if p == Completed(|st.completion|) || p == Retired(|st.retired|) then Held(w) else p
    case Swap => if p.Ready? then Completed(p.i) else p
    case Call =>
      if p == Called(|st.called|) then Ready(0)
      else if p.Ready? then Ready(p.i + 1)
      else p
    case _ => p
  }

  lemma HeldMovesTo(st: State, l: Label, j: JobId, w: WorkerId)
    requires Enabled(st, l) && At(st, j, Held(w))
    ensures At(Apply(st, l), j, After(st, l, Held(w)))
  {
  }

  lemma QueuedMovesTo(st: State, l: Label, j: JobId, i: nat)
    requires Enabled(st, l) && At(st, j, Queued(i))
    ensures At(Apply(st, l), j, After(st, l, Queued(i)))
  {
  }

  lemma FinishedMovesTo(st: State, l: Label, j: JobId, p: Place)
    requires Enabled(st, l) && At(st, j, p) && !p.Held? && !p.Queued?
    ensures At(Apply(st, l), j, After(st, l, p))
  {
  }

  lemma HeldMovedFrom(st: State, l: Label, j: JobId, w: WorkerId)
    requires Enabled(st, l) && At(Apply(st, l), j, Held(w))
    ensures At(st, j, Before(st, l, Held(w)))
  {
  }

  lemma MovedFrom(st: State, l: Label, j: JobId, p: Place)
    requires Enabled(st, l) && At(Apply(st, l), j, p)
    ensures (l.Push? && p == Queued(|st.queue|) && j == |st.accepted|) || At(st, j, Before(st, l, p))
  {
    if p.Held? {
      HeldMovedFrom(st, l, j, p.w);
    }
  }

  lemma BeforeInjective(st: State, l: Label, j: JobId, p: Place, q: Place)
    requires Enabled(st, l) && At(Apply(st, l), j, p) && At(Apply(st, l), j, q)
    requires Before(st, l, p) == Before(st, l, q)
    ensures p == q
  {
    if l.Complete? {
      assert !At(Apply(st, l), j, Held(l.w));
    } else if l.Take? {
      assert !At(Apply(st, l), j, Queued(|st.queue| - 1));
    }
  }

  lemma OnePlaceStep(st: State, l: Label, j: JobId, p: Place, q: Place)
    requires Placed(st) && Enabled(st, l) && At(Apply(st, l), j, p) && At(Apply(st, l), j, q)
    ensures p == q && j < |Apply(st, l).accepted|
  {
    assert |Apply(st, l).accepted| == |st.accepted| + if l.Push? then 1 else 0;
    MovedFrom(st, l, j, p);
    MovedFrom(st, l, j, q);
    hide At, Apply;
    if At(st, j, Before(st, l, p)) && At(st, j, Before(st, l, q)) {
      BeforeInjective(st, l, j, p, q);
    }
  }

  lemma LivesStep(st: State, l: Label, j: JobId)
    requires Placed(st) && Enabled(st, l) && j < |Apply(st, l).accepted|
    ensures Lives(Apply(st, l), j)
  {
    if j < |st.accepted| {
      assert Lives(st, j);
      var p :| At(st, j, p);
      if p.Held? {
        HeldMovesTo(st, l, j, p.w);
      } else if p.Queued? {
        QueuedMovesTo(st, l, j, p.i);
      } else {
        FinishedMovesTo(st, l, j, p);
      }
    } else {
      assert At(Apply(st, l), j, Queued(|st.queue|));
    }
  }

  lemma PlacedStep(st: State, l: Label)
    requires Placed(st) && Enabled(st, l)
    ensures Placed(Apply(st, l))
  {
    var st' := Apply(st, l);
    hide At, Apply, Lives;
    forall j: JobId, p, q | At(st', j, p) && At(st', j, q)
      ensures p == q && j < |st'.accepted|
    {
      OnePlaceStep(st, l, j, p, q);
    }
    forall j: JobId | j < |st'.accepted|
      ensures Lives(st', j)
    {
      LivesStep(st, l, j);
    }
  }

  // ----- Every step keeps the invariant -----

  lemma PendingStep(st: State, l: Label, j: JobId)
    requires Placed(st) && Enabled(st, l) && j < |st.accepted|
    ensures Pending(Apply(st, l), j) <==>
            Pending(st, j) && !(l.RunWork? && st.workers[l.w].job == j)
  {
    var st' := Apply(st, l);
    match l {
      case RunWork(w) =>
        if st.workers[w].job == j {
          assert At(st, j, Held(w));
          forall i | 0 <= i < |st.queue| ensures st.queue[i] != j {
            assert !At(st, j, Queued(i));
          }
          forall v <- st'.workers ensures st'.workers[v] != Working(j) {
            assert v == w || !At(st, j, Held(v));
          }
        } else if v :| v in st.workers && st.workers[v] == Working(j) {
          assert st'.workers[v] == Working(j);
        }
      case Take(w) =>
        assert st.queue == [st.queue[0]] + st.queue[1..];
        if v :| v in st.workers && st.workers[v] == Working(j) {
          assert st'.workers[v] == Working(j);
        }
        assert st'.workers[w] == Working(st.queue[0]);
      case _ =>
        forall v <- st.workers ensures st'.workers[v] == Working(j) <==> st.workers[v] == Working(j) {
        }
    }
  }

  lemma CallbacksStep(st: State, l: Label)
    requires Accounted(st) && Enabled(st, l)
    ensures var st' := Apply(st, l);
      && (forall j <- st'.completion + st'.ready + st'.called :: j < |st'.accepted| && st'.accepted[j])
      && (forall j <- st'.retired :: j < |st'.accepted| && !st'.accepted[j])
  {
    var st' := Apply(st, l);
    var was, now := st.completion + st.ready + st.called, st'.completion + st'.ready + st'.called;
    forall j <- now
      ensures j in was || (l.Complete? && j == st.workers[l.w].job && st.accepted[j])
    {
    }
  }

  lemma AccountedStep(st: State, l: Label)
    requires Placed(st) && Accounted(st) && Enabled(st, l)
    ensures Accounted(Apply(st, l))
  {
    var st' := Apply(st, l);
    if l.RunWork? {
      assert At(st, st.workers[l.w].job, Held(l.w));
      assert Pending(st, st.workers[l.w].job);
    }
    forall j: JobId
      ensures j in st'.ran <==> j < |st'.accepted| && !Pending(st', j)
    {
      if j < |st.accepted| {
        PendingStep(st, l, j);
      } else if l.Push? && j == |st.accepted| {
        assert st'.queue[|st.queue|] == j;
      }
    }
    CallbacksStep(st, l);
  }

  lemma FifoStep(st: State, l: Label)
    requires Fifo(st) && Enabled(st, l)
    ensures Fifo(Apply(st, l))
  {
  }

  lemma {:induction false} WithCallbackGrows(accepted: seq<bool>, b: bool, k: nat)
    requires k <= |accepted|
    ensures WithCallback(accepted + [b], k) == WithCallback(accepted, k)
  {
    if k == 0 {
    } else {
      WithCallbackGrows(accepted, b, k - 1);
    }
  }

  lemma SettledStep(st: State, l: Label, w: WorkerId)
    requires Fifo(st) && Enabled(st, l) && Fifo(Apply(st, l)) && st.workers.Keys == {w}
    requires Holds(st, w) ==> st.workers[w].job == |st.accepted| - |st.queue| - 1
    ensures var st' := Apply(st, l);
      && (Holds(st', w) ==> st'.workers[w].job == |st'.accepted| - |st'.queue| - 1)
      && Settled(st', w) == Settled(st, w) + (if l.Complete? then 1 else 0)
      && (l.Complete? ==> st.workers[w].Finished? && st.workers[w].job == Settled(st, w))
  {
    assert forall v <- st.workers :: v == w;
  }

  /** What the callbacks run, ready and completed together look like after a step. */
  lemma OutcomeStep(st: State, l: Label)
    requires Enabled(st, l)
    ensures var st' := Apply(st, l);
      st'.called + st'.ready + st'.completion ==
      st.called + st.ready + st.completion +
      (if l.Complete? && st.accepted[st.workers[l.w].job] then [st.workers[l.w].job] else [])
  {
    match l {
      case Call => assert st.ready == [st.ready[0]] + st.ready[1..];
      case _ =>
    }
  }

  lemma SingleOrderStep(st: State, l: Label)
    requires Fifo(st) && SingleOrder(st) && Enabled(st, l) && Fifo(Apply(st, l))
    ensures SingleOrder(Apply(st, l))
  {
    var st' := Apply(st, l);
    OutcomeStep(st, l);
    assert st'.workers.Keys == st.workers.Keys;
    assert st'.accepted == if l.Push? then st.accepted + [l.hasCallback] else st.accepted;
    hide Apply, Fifo;
    forall w | st'.workers.Keys == {w}
      ensures Holds(st', w) ==> st'.workers[w].job == |st'.accepted| - |st'.queue| - 1
      ensures st'.called + st'.ready + st'.completion == WithCallback(st'.accepted, Settled(st', w))
    {
      SettledStep(st, l, w);
      if l.Push? {
        WithCallbackGrows(st.accepted, l.hasCallback, Settled(st, w));
      }
      if l.Complete? {
        assert l.w in st.workers.Keys;
      }
    }
  }

  lemma BatchStep(st: State, l: Label)
    requires BatchOrder(st) && Enabled(st, l)
    ensures BatchOrder(Apply(st, l))
  {
  }

  lemma GapStep(st: State, l: Label)
    requires Gap(st) && Enabled(st, l)
    ensures Gap(Apply(st, l))
  {
    var st' := Apply(st, l);
    forall v | Is(st', v, AboutToSleep)
      ensures Is(st, v, AboutToSleep) || l == CheckEmpty(v)
    {
      assert v in st.workers;
    }
    if l.CheckEmpty? {
      assert forall v :: !Is(st, v, AboutToSleep);
    }
  }

  /** The worker that becomes awake, or stops being so. */
  function Awakens(l: Label): set<WorkerId> {
    match l
    case NotifyOne(w) => {w}
    case Wake(w) => {w}
    case Complete(w) => {w}
    case _ => {}
  }

  function Leaves(l: Label): set<WorkerId> {
    match l
    case Take(w) => {w}
    case CheckEmpty(w) => {w}
    case Exit(w) => {w}
    case _ => {}
  }

  lemma AwakeSetStep(st: State, l: Label)
    requires Enabled(st, l) && l != NotifyAll
    ensures AwakeSet(Apply(st, l)) == AwakeSet(st) + Awakens(l) - Leaves(l)
    ensures Awakens(l) !! AwakeSet(st) && Leaves(l) <= AwakeSet(st)
  {
  }

  lemma SleeperStep(st: State, l: Label)
    requires Enabled(st, l) && HasSleeper(Apply(st, l))
    ensures l != NotifyAll && (HasSleeper(st) || l.Sleep?)
  {
    var st' := Apply(st, l);
    var v :| v in st'.workers && st'.workers[v] == Sleeping;
    assert v in st.workers;
  }

  lemma CoveredStep(st: State, l: Label)
    requires Gap(st) && Covered(st) && Enabled(st, l)
    ensures Covered(Apply(st, l))
  {
    var st' := Apply(st, l);
    if HasSleeper(st') {
      SleeperStep(st, l);
      AwakeSetStep(st, l);
      var a, d := Awakens(l), Leaves(l);
      assert |AwakeSet(st) + a| == |AwakeSet(st)| + |a|;
      assert |AwakeSet(st) + a - d| == |AwakeSet(st) + a| - |d|;
      if l.Sleep? {
        assert st.workers[l.w] == AboutToSleep;
      }
    }
  }

  lemma InvStep(st: State, l: Label)
    requires Inv(st) && Enabled(st, l)
    ensures Inv(Apply(st, l))
  {
    PlacedStep(st, l);
    AccountedStep(st, l);
    FifoStep(st, l);
    SingleOrderStep(st, l);
    BatchStep(st, l);
    GapStep(st, l);
    CoveredStep(st, l);
    hide Placed, Accounted, Fifo, BatchOrder, Gap, Covered, Apply, Enabled;
  }

  lemma InitInv(st: State)
    requires Init(st)
    ensures Inv(st)
  {
    forall j: JobId | j < |st.accepted| ensures Lives(st, j) && j in st.queue {
      assert st.queue[j] == j;
      assert At(st, j, Queued(j));
    }
  }

  lemma {:induction false} ExecutionInv(run: seq<State>, i: nat)
    requires Execution(run) && i < |run|
    ensures Inv(run[i])
  {
    hide Inv, Init, Enabled, Apply;
    if i == 0 {
      InitInv(run[0]);
    } else {
      ExecutionInv(run, i - 1);
      assert Next(run[i - 1], run[i]);
      var l :| Enabled(run[i - 1], l) && run[i] == Apply(run[i - 1], l);
      InvStep(run[i - 1], l);
    }
  }

  // ----- Main results, for every state of every run -----

  /** No wakeup is lost: a worker sleeps only while each queued job has an awake worker
    * coming for it or a notify still owed; so with a job queued and a worker alive, some
    * worker is awake or some Enqueue still owes its notify. */
  lemma NoLostWakeup(run: seq<State>, i: nat)
    requires Execution(run) && i < |run|
    ensures var st := run[i];
      && ((exists w <- st.workers :: st.workers[w] == Sleeping) ==>
            |st.queue| <= st.owed + |set w <- st.workers | st.workers[w] == Awake|)
      && (st.queue != [] && (exists w <- st.workers :: st.workers[w] != Exited) ==>
            st.owed > 0 ||
            exists w <- st.workers :: st.workers[w] == Awake || st.workers[w].Working? || st.workers[w].Finished?)
  {
    var st := run[i];
    ExecutionInv(run, i);
    assert AwakeSet(st) == set w <- st.workers | st.workers[w] == Awake;
    if st.queue != [] && !AllExited(st) && st.owed == 0 {
      var w :| w in st.workers && st.workers[w] != Exited;
      if HasSleeper(st) {
        assert AwakeSet(st) != {};
        var v :| v in AwakeSet(st);
      } else {
        assert st.workers[w] != Sleeping && st.workers[w] != AboutToSleep;
      }
    }
  }

  lemma CalledIsOver(st: State, j: JobId, c: nat)
    requires Placed(st) && c < |st.called| && st.called[c] == j
    ensures !Pending(st, j) && j !in st.ready && j !in st.completion
  {
    assert At(st, j, Called(c));
    forall k | 0 <= k < |st.queue| ensures st.queue[k] != j { assert !At(st, j, Queued(k)); }
    forall k | 0 <= k < |st.ready| ensures st.ready[k] != j { assert !At(st, j, Ready(k)); }
    forall k | 0 <= k < |st.completion| ensures st.completion[k] != j { assert !At(st, j, Completed(k)); }
    forall w <- st.workers ensures st.workers[w] != Working(j) { assert !At(st, j, Held(w)); }
  }

  /** Each pushed job is in exactly one place. Its work runs at most once, its callback at
    * most once, after the work, and only if it has one; jobs leave the queue in push order. */
  lemma ExactlyOnce(run: seq<State>, i: nat, j: JobId)
    requires Execution(run) && i < |run| && j < |run[i].accepted|
    ensures var st := run[i];
      && (exists p :: At(st, j, p) && forall q | At(st, j, q) :: q == p)
      && (|| j in st.queue || j in st.completion || j in st.ready || j in st.called || j in st.retired
          || exists w <- st.workers :: st.workers[w] in {Working(j), Finished(j)})
      && (forall a, b | 0 <= a < b < |st.ran| :: st.ran[a] != st.ran[b])
      && (forall a, b | 0 <= a < b < |st.called| :: st.called[a] != st.called[b])
      && (j in st.ran <==> j !in st.queue && forall w <- st.workers :: st.workers[w] != Working(j))
      && (j in st.called ==> j in st.ran && st.accepted[j] && j !in st.ready && j !in st.completion)
      && (j in st.queue <==> j >= |st.accepted| - |st.queue|)
  {
    var st := run[i];
    ExecutionInv(run, i);
    assert Lives(st, j);
    var p :| At(st, j, p);
    forall a, b | 0 <= a < b < |st.called| ensures st.called[a] != st.called[b] {
      assert At(st, st.called[a], Called(a)) && At(st, st.called[b], Called(b));
    }
    if c :| 0 <= c < |st.called| && st.called[c] == j {
      CalledIsOver(st, j, c);
    }
    if j >= |st.accepted| - |st.queue| {
      assert st.queue[j - (|st.accepted| - |st.queue|)] == j;
    }
  }

  lemma {:induction false} WithCallbackPrefix(accepted: seq<bool>, k: nat, n: nat)
    requires k <= n <= |accepted|
    ensures WithCallback(accepted, k) <= WithCallback(accepted, n)
  {
    if k == n {
    } else {
      WithCallbackPrefix(accepted, k, n - 1);
    }
  }

  /** With one worker, callbacks run in the order in which their jobs were pushed. */
  lemma SingleWorkerOrder(run: seq<State>, i: nat, w: WorkerId)
    requires Execution(run) && i < |run| && run[i].workers.Keys == {w}
    ensures run[i].called <= WithCallback(run[i].accepted, |run[i].accepted|)
  {
    ExecutionInv(run, i);
    WithCallbackPrefix(run[i].accepted, Settled(run[i], w), |run[i].accepted|);
  }

  /** One ProcessCompletions runs exactly what its swap found, in order. It ends whatever
    * the callbacks and the other threads enqueue meanwhile: until `ready` is empty no step
    * changes the batch or adds to what is left of it, and each call takes one away. */
  lemma SnapshotOrder(run: seq<State>, i: nat, l: Label)
    requires Execution(run) && i < |run|
    ensures run[i].batchStart <= |run[i].called|
    ensures run[i].batch == run[i].called[run[i].batchStart..] + run[i].ready
    ensures Enabled(run[i], l) && run[i].ready != [] ==>
              var st' := Apply(run[i], l);
              && st'.batch == run[i].batch && st'.batchStart == run[i].batchStart
              && |st'.ready| == |run[i].ready| - (if l.Call? then 1 else 0)
    ensures run[i].ready != [] ==> Enabled(run[i], Call)
  {
    ExecutionInv(run, i);
    hide Placed, Accounted, Fifo, Gap, Covered;
  }

  // ----- Counting -----

  function Busy(st: State): set<WorkerId> {
    set w <- st.workers | Holds(st, w)
  }

  ghost predicate Balanced(st: State) {
    |st.accepted| == |st.queue| + |Busy(st)| + |st.completion| + |st.ready| + |st.called| + |st.retired|
  }

  lemma BusyStep(st: State, l: Label)
    requires Enabled(st, l)
    ensures Busy(Apply(st, l)) == Busy(st) + (if l.Take? then {l.w} else {}) - (if l.Complete? then {l.w} else {})
    ensures l.Take? ==> l.w !in Busy(st)
    ensures l.Complete? ==> l.w in Busy(st)
  {
  }

  lemma BalancedStep(st: State, l: Label)
    requires Balanced(st) && Enabled(st, l)
    ensures Balanced(Apply(st, l))
  {
    BusyStep(st, l);
    hide Busy;
  }

  lemma {:induction false} ExecutionBalanced(run: seq<State>, i: nat)
    requires Execution(run) && i < |run|
    ensures Balanced(run[i])
  {
    hide Enabled, Apply;
    if i == 0 {
      assert Busy(run[0]) == {};
    } else {
      ExecutionBalanced(run, i - 1);
      assert Next(run[i - 1], run[i]);
      var l :| Enabled(run[i - 1], l) && run[i] == Apply(run[i - 1], l);
      hide Balanced;
      BalancedStep(run[i - 1], l);
    }
  }

  /** The stages together hold as many jobs as were pushed: queued, with a worker, completed,
    * swapped out, called, or finished without a callback. */
  lemma Conservation(run: seq<State>, i: nat)
    requires Execution(run) && i < |run|
    ensures var st := run[i];
      |st.accepted| ==
      |st.queue| + |set w <- st.workers | st.workers[w].Working? || st.workers[w].Finished?|
      + |st.completion| + |st.ready| + |st.called| + |st.retired|
  {
    var st := run[i];
    ExecutionBalanced(run, i);
    assert Busy(st) == set w <- st.workers | st.workers[w].Working? || st.workers[w].Finished?;
  }
}
