/** EventDbBridge on the job queue: each load's worker half fills a shared rows cell, its
  * main-thread half inserts the rows one by one into the user's container. */
module EventLoad {
  import opened UserEvents
  import JQ = JobQueueProtocol

  type JobId = JQ.JobId
  type UserId = nat

  /** `since` is the version of the table when the load was requested. */
  datatype Load = Load(uid: nat, user: UserId, since: nat)

  datatype State = State(
    q: JQ.State,
    loads: seq<Load>,                   // per job
    cells: seq<seq<DbEventRow>>,        // per job, the vector that both halves share
    versions: seq<Table>,               // the table over time; the last one is current
    containers: map<UserId, Events>,
    initial: map<UserId, Events>,       // history: each user's records when first seen
    inserted: nat)                      // rows of the running callback inserted so far

  datatype Label =
    | Seed(uid: nat, rows: seq<DbEventRow>)
    | Start(uid: nat, user: UserId, events: Events)
    | Insert
    | Inner(l: JQ.Label)

  /** The job whose callback the main thread is running, or runs next. */
  predicate Front(st: State, j: JobId) {
    st.q.ready != [] && st.q.ready[0] == j && j < |st.loads| && j < |st.cells|
  }

  predicate Enabled(st: State, l: Label) {
    st.versions != [] &&
    match l
    case Seed(_, _) => true
    case Start(_, _, _) => JQ.Enabled(st.q, JQ.Push(true))
    case Insert =>
      && st.q.ready != [] && Front(st, st.q.ready[0])
      && st.inserted < |st.cells[st.q.ready[0]]| && st.loads[st.q.ready[0]].user in st.containers
    case Inner(l) =>
      && JQ.Enabled(st.q, l) && !l.Push?
      && (l.RunWork? ==> st.q.workers[l.w].job < |st.loads| && st.q.workers[l.w].job < |st.cells|)
      && (l.Call? ==> Front(st, st.q.ready[0]) && st.inserted == |st.cells[st.q.ready[0]]|)
  }

  function Current(st: State): Table
    requires st.versions != []
  {
    st.versions[|st.versions| - 1]
  }

  function Apply(st: State, l: Label): State
    requires Enabled(st, l)
  {
    match l
    case Seed(uid, rows) => st.(versions := st.versions + [Current(st)[uid := rows]])
    case Start(uid, user, events) =>
      var st' := st.(q := JQ.Apply(st.q, JQ.Push(true)),
                     loads := st.loads + [Load(uid, user, |st.versions| - 1)],
                     cells := st.cells + [[]]);
      if user in st.containers then st'
      else st'.(containers := st.containers[user := events], initial := st.initial[user := events])
    case Insert =>
      var j := st.q.ready[0];
      var (user, row) := (st.loads[j].user, st.cells[j][st.inserted]);
      st.(containers := st.containers[user := st.containers[user][row.eventId := InfoOf(row)]],
          inserted := st.inserted + 1)
    case Inner(l) =>
      var st' := st.(q := JQ.Apply(st.q, l));
      if l.RunWork? then
        var j := st.q.workers[l.w].job;
        st'.(cells := st.cells[j := Query(Current(st), st.loads[j].uid)])
      else if l.Call? then st'.(inserted := 0)
      else st'
  }

  ghost predicate Init(st: State) {
    && JQ.Init(st.q) && st.q.accepted == [] && st.loads == [] && st.cells == []
    && |st.versions| == 1 && st.containers == st.initial && st.inserted == 0
  }

  ghost predicate Next(st: State, st': State) {
    exists l :: Enabled(st, l) && st' == Apply(st, l)
  }

  ghost predicate Execution(run: seq<State>) {
    && run != [] && Init(run[0])
    && forall i | 0 <= i < |run| - 1 :: Next(run[i], run[i + 1])
  }

  // ----- What the containers must hold -----

  /** A user's records after these loads, in this order, have been applied. */
  ghost function Loaded(events: Events, user: UserId, jobs: seq<JobId>,
                        loads: seq<Load>, cells: seq<seq<DbEventRow>>): Events
    requires |loads| == |cells|
  {
    if jobs == [] then events
    else
      var j := jobs[|jobs| - 1];
      var before := Loaded(events, user, jobs[..|jobs| - 1], loads, cells);
      if j < |loads| && loads[j].user == user then Overlay(before, cells[j]) else before
  }

  /** A cell holds what the table held for the load's own uid, at some time since the
    * load was requested. */
  ghost predicate Queried(load: Load, cell: seq<DbEventRow>, versions: seq<Table>) {
    exists v | load.since <= v < |versions| ::
      cell == if load.uid in versions[v] then versions[v][load.uid] else []
  }

  ghost predicate Shape(st: State) {
    && JQ.Inv(st.q)
    && |st.q.accepted| == |st.loads| == |st.cells|
    && (forall j | 0 <= j < |st.loads| :: st.q.accepted[j])
    && st.versions != [] && (forall load <- st.loads :: load.since < |st.versions|)
    && st.containers.Keys == st.initial.Keys
    && (forall load <- st.loads :: load.user in st.containers)
    && FrontKnown(st)
  }

  predicate FrontKnown(st: State) {
    && (st.q.ready == [] ==> st.inserted == 0)
    && (st.q.ready != [] ==> Front(st, st.q.ready[0]) && st.inserted <= |st.cells[st.q.ready[0]]|)
  }

  ghost predicate CellsQueried(st: State)
    requires Shape(st)
  {
    forall j | 0 <= j < |st.loads| ::
      if j in st.q.ran then Queried(st.loads[j], st.cells[j], st.versions) else st.cells[j] == []
  }

  /** The records of one user: all finished loads, and part of the running one. */
  ghost function Expected(st: State, user: UserId): Events
    requires Shape(st) && user in st.initial
  {
    var done := Loaded(st.initial[user], user, st.q.called, st.loads, st.cells);
    if st.q.ready != [] && st.loads[st.q.ready[0]].user == user
    then Overlay(done, st.cells[st.q.ready[0]][..st.inserted])
    else done
  }

  ghost predicate ContainersLoaded(st: State)
    requires Shape(st)
  {
    forall u <- st.containers :: st.containers[u] == Expected(st, u)
  }

  ghost predicate Inv(st: State) {
    Shape(st) && CellsQueried(st) && ContainersLoaded(st)
  }

  // ----- Every step keeps the invariant -----

  lemma QueueStep(st: State, l: Label)
    requires Inv(st) && Enabled(st, l)
    ensures JQ.Inv(Apply(st, l).q)
  {
    match l {
      case Start(_, _, _) => JQ.InvStep(st.q, JQ.Push(true));
      case Inner(l) => JQ.InvStep(st.q, l);
      case _ =>
    }
  }

  /** Nothing of a job that is queued or with a worker is with the main thread. */
  lemma MainApart(q: JQ.State, w: JQ.WorkerId, i: nat)
    requires JQ.Inv(q) && JQ.Holds(q, w)
    ensures i < |q.ready| ==> q.ready[i] != q.workers[w].job
    ensures i < |q.called| ==> q.called[i] != q.workers[w].job
    ensures i < |q.completion| ==> q.completion[i] != q.workers[w].job
  {
    var j := q.workers[w].job;
    assert JQ.At(q, j, JQ.Held(w));
    assert !JQ.At(q, j, JQ.Ready(i)) && !JQ.At(q, j, JQ.Called(i)) && !JQ.At(q, j, JQ.Completed(i));
  }

  lemma MainJobsRan(q: JQ.State, j: JobId)
    requires JQ.Inv(q) && (j in q.ready || j in q.completion || j in q.called)
    ensures j in q.ran
  {
    var p := if j in q.ready then (var i :| 0 <= i < |q.ready| && q.ready[i] == j; JQ.Ready(i))
             else if j in q.completion then (var i :| 0 <= i < |q.completion| && q.completion[i] == j; JQ.Completed(i))
             else (var i :| 0 <= i < |q.called| && q.called[i] == j; JQ.Called(i));
    assert JQ.At(q, j, p);
    forall k | 0 <= k < |q.queue| ensures q.queue[k] != j { assert !JQ.At(q, j, JQ.Queued(k)); }
    forall w <- q.workers ensures q.workers[w] != JQ.Working(j) { assert !JQ.At(q, j, JQ.Held(w)); }
  }

  lemma KnownJobs(q: JQ.State)
    requires JQ.Inv(q)
    ensures forall j <- q.called :: j < |q.accepted|
    ensures forall j <- q.ready :: j < |q.accepted|
    ensures forall j <- q.completion :: j < |q.accepted|
    ensures forall w <- q.workers | JQ.Holds(q, w) :: q.workers[w].job < |q.accepted|
    ensures forall j | j in q.ready || j in q.completion || j in q.called :: j in q.ran
  {
    var all := q.completion + q.ready + q.called;
    assert forall j <- q.called :: j in all;
    assert forall j <- q.ready :: j in all;
    assert forall j <- q.completion :: j in all;
    forall w <- q.workers | JQ.Holds(q, w) ensures q.workers[w].job < |q.accepted| {
      assert JQ.At(q, q.workers[w].job, JQ.Held(w));
    }
    forall j | j in q.ready || j in q.completion || j in q.called ensures j in q.ran {
      MainJobsRan(q, j);
    }
  }

  lemma RanJobs(q: JQ.State)
    requires JQ.Inv(q)
    ensures forall j <- q.ran :: j < |q.accepted| && !JQ.Pending(q, j)
  {
  }

  /** What a step of the job queue does to the parts that matter to a load. */
  lemma QueueEffect(q: JQ.State, l: JQ.Label)
    requires JQ.Enabled(q, l)
    ensures l.Call? ==> q.ready != []
    ensures l.Swap? ==> q.ready == []
    ensures l.RunWork? ==> l.w in q.workers && JQ.Holds(q, l.w) && JQ.Pending(q, q.workers[l.w].job)
    ensures var q' := JQ.Apply(q, l);
      && q'.accepted == (if l.Push? then q.accepted + [l.hasCallback] else q.accepted)
      && q'.ran == (if l.RunWork? then q.ran + [q.workers[l.w].job] else q.ran)
      && q'.called == (if l.Call? then q.called + [q.ready[0]] else q.called)
      && q'.ready == (if l.Call? then q.ready[1..] else if l.Swap? then q.completion else q.ready)
  {
  }

  /** The loads and cells of the main thread's jobs are not changed by any step. */
  lemma MainCellsStep(st: State, l: Label)
    requires Inv(st) && Enabled(st, l)
    ensures |Apply(st, l).loads| == |Apply(st, l).cells| >= |st.loads|
    ensures forall j | j in st.q.called || j in st.q.ready || j in st.q.completion ::
              0 <= j < |st.loads| && Apply(st, l).loads[j] == st.loads[j] && Apply(st, l).cells[j] == st.cells[j]
  {
    hide JQ.Inv, JQ.Apply, JQ.Enabled, JQ.Pending, ContainersLoaded, CellsQueried;
    KnownJobs(st.q);
    RanJobs(st.q);
    if l.Inner? {
      QueueEffect(st.q, l.l);
    }
  }

  lemma FrontStep(st: State, l: Label)
    requires Inv(st) && Enabled(st, l)
    ensures FrontKnown(Apply(st, l))
  {
    hide JQ.Inv, JQ.Enabled, JQ.Apply, ContainersLoaded, CellsQueried;
    MainCellsStep(st, l);
    if l.Inner? || l.Start? {
      QueueEffect(st.q, if l.Inner? then l.l else JQ.Push(true));
    }
    assert st.q.ready != [] ==> st.q.ready[0] in st.q.ready;
    assert |st.q.ready| > 1 ==> st.q.ready[1] in st.q.ready;
    assert st.q.completion != [] ==> st.q.completion[0] in st.q.completion;
  }

  lemma JobsStep(st: State, l: Label)
    requires Inv(st) && Enabled(st, l)
    ensures var st' := Apply(st, l);
      && |st'.q.accepted| == |st'.loads| == |st'.cells|
      && forall j | 0 <= j < |st'.loads| :: st'.q.accepted[j]
  {
    hide JQ.Inv, JQ.Apply, ContainersLoaded, CellsQueried;
    if l.Inner? || l.Start? {
      QueueEffect(st.q, if l.Inner? then l.l else JQ.Push(true));
    }
  }

  lemma LoadsKnownStep(st: State, l: Label)
    requires Inv(st) && Enabled(st, l)
    ensures var st' := Apply(st, l);
      && st'.versions != [] && (forall load <- st'.loads :: load.since < |st'.versions|)
      && st'.containers.Keys == st'.initial.Keys
      && (forall load <- st'.loads :: load.user in st'.containers)
  {
    hide JQ.Inv, JQ.Enabled, JQ.Apply, ContainersLoaded, CellsQueried;
  }

  lemma ShapeStep(st: State, l: Label)
    requires Inv(st) && Enabled(st, l)
    ensures Shape(Apply(st, l))
  {
    hide Inv, Enabled, Apply, JQ.Inv, FrontKnown;
    QueueStep(st, l);
    JobsStep(st, l);
    LoadsKnownStep(st, l);
    FrontStep(st, l);
  }

  lemma SameLength(st: State, l: Label)
    requires Enabled(st, l) && |st.loads| == |st.cells|
    ensures |Apply(st, l).loads| == |Apply(st, l).cells| == |st.loads| + if l.Start? then 1 else 0
  {
    hide JQ.Apply;
  }

  /** What happens to an earlier job's load and cell: only its worker writes the cell. */
  lemma CellKept(st: State, l: Label, j: JobId)
    requires Enabled(st, l) && j < |st.loads| == |st.cells|
    ensures var st' := Apply(st, l);
      && j < |st'.loads| == |st'.cells| && st'.loads[j] == st.loads[j]
      && st.versions <= st'.versions
      && (if l.Inner? && l.l.RunWork? && st.q.workers[l.l.w].job == j
          then st'.cells[j] == Query(Current(st), st.loads[j].uid)
          else st'.cells[j] == st.cells[j])
  {
    SameLength(st, l);
    hide JQ.Apply, JQ.Enabled;
  }

  /** The jobs whose work has run after a step. */
  lemma RanStep(st: State, l: Label, j: JobId)
    requires Enabled(st, l) && JQ.Inv(st.q)
    ensures j in Apply(st, l).q.ran <==>
            j in st.q.ran || (l.Inner? && l.l.RunWork? && st.q.workers[l.l.w].job == j)
    ensures l.Inner? && l.l.RunWork? && st.q.workers[l.l.w].job == j ==> j !in st.q.ran && j < |st.q.accepted|
  {
    hide JQ.Apply, JQ.Enabled, JQ.Pending;
    if l.Inner? || l.Start? {
      QueueEffect(st.q, if l.Inner? then l.l else JQ.Push(true));
    }
    RanJobs(st.q);
    KnownJobs(st.q);
    hide JQ.Inv;
  }

  lemma CellStep(st: State, l: Label, j: JobId)
    requires Inv(st) && Enabled(st, l) && j < |st.loads|
    ensures var st' := Apply(st, l);
      && j < |st'.loads| == |st'.cells|
      && if j in st'.q.ran then Queried(st'.loads[j], st'.cells[j], st'.versions) else st'.cells[j] == []
  {
    hide JQ.Inv, ContainersLoaded;
    CellKept(st, l, j);
    RanStep(st, l, j);
    hide Apply, Enabled;
    var st' := Apply(st, l);
    assert st.loads[j] in st.loads;
    if j in st.q.ran {
      var uid := st.loads[j].uid;
      var v :| && st.loads[j].since <= v < |st.versions|
               && st.cells[j] == if uid in st.versions[v] then st.versions[v][uid] else [];
      assert st'.versions[v] == st.versions[v];
    } else if j in st'.q.ran {
      var v := |st.versions| - 1;
      assert st'.versions[v] == st.versions[v];
    }
  }

  lemma NewCellStep(st: State, l: Label, j: JobId)
    requires Inv(st) && Enabled(st, l) && |st.loads| <= j < |Apply(st, l).loads|
    ensures var st' := Apply(st, l); j < |st'.cells| && j !in st'.q.ran && st'.cells[j] == []
  {
    RanStep(st, l, j);
    hide JQ.Inv, JQ.Apply, JQ.Enabled, ContainersLoaded;
    RanJobs(st.q);
  }

  lemma CellsStep(st: State, l: Label)
    requires Inv(st) && Enabled(st, l) && Shape(Apply(st, l))
    ensures CellsQueried(Apply(st, l))
  {
    hide Inv, Enabled, Apply;
    var st' := Apply(st, l);
    forall j: JobId | j < |st'.loads|
      ensures if j in st'.q.ran then Queried(st'.loads[j], st'.cells[j], st'.versions) else st'.cells[j] == []
    {
      if j < |st.loads| {
        CellStep(st, l, j);
      } else {
        NewCellStep(st, l, j);
      }
    }
  }

  lemma {:induction false} LoadedFrame(events: Events, user: UserId, jobs: seq<JobId>, st: State, st': State)
    requires |st.loads| == |st.cells| && |st'.loads| == |st'.cells| >= |st.loads|
    requires forall j <- jobs :: j < |st.loads| && st'.loads[j] == st.loads[j] && st'.cells[j] == st.cells[j]
    ensures Loaded(events, user, jobs, st'.loads, st'.cells) == Loaded(events, user, jobs, st.loads, st.cells)
  {
    if jobs == [] {
    } else {
      var before := jobs[..|jobs| - 1];
      assert jobs[|jobs| - 1] in jobs && forall j <- before :: j in jobs;
      LoadedFrame(events, user, before, st, st');
    }
  }

  lemma {:induction false} LoadedOther(events: Events, user: UserId, jobs: seq<JobId>, st: State)
    requires |st.loads| == |st.cells|
    requires forall j <- jobs :: j < |st.loads| ==> st.loads[j].user != user
    ensures Loaded(events, user, jobs, st.loads, st.cells) == events
  {
    if jobs == [] {
    } else {
      assert jobs[|jobs| - 1] in jobs;
      LoadedOther(events, user, jobs[..|jobs| - 1], st);
    }
  }

  lemma FinishedStep(st: State, l: Label, events: Events, u: UserId)
    requires Inv(st) && Enabled(st, l) && |Apply(st, l).loads| == |Apply(st, l).cells|
    ensures var st' := Apply(st, l); var j := st.q.ready;
      var done := Loaded(events, u, st.q.called, st.loads, st.cells);
      Loaded(events, u, st'.q.called, st'.loads, st'.cells) ==
      if l == Inner(JQ.Call) && st.loads[j[0]].user == u then Overlay(done, st.cells[j[0]]) else done
  {
    hide JQ.Inv, JQ.Apply, JQ.Enabled, CellsQueried, ContainersLoaded;
    MainCellsStep(st, l);
    LoadedFrame(events, u, st.q.called, st, Apply(st, l));
    if l.Inner? || l.Start? {
      QueueEffect(st.q, if l.Inner? then l.l else JQ.Push(true));
    }
    if l == Inner(JQ.Call) {
      assert (st.q.called + [st.q.ready[0]])[..|st.q.called|] == st.q.called;
    }
  }

  lemma UnknownUser(st: State, events: Events, u: UserId)
    requires Inv(st) && u !in st.containers
    ensures Loaded(events, u, st.q.called, st.loads, st.cells) == events
    ensures st.q.ready != [] ==> st.loads[st.q.ready[0]].user != u
  {
    hide ContainersLoaded, CellsQueried;
    KnownJobs(st.q);
    hide JQ.Inv;
    assert forall j <- st.q.called :: st.loads[j] in st.loads;
    assert st.q.ready != [] ==> st.loads[st.q.ready[0]] in st.loads;
    LoadedOther(events, u, st.q.called, st);
  }

  lemma InsertContainer(st: State, u: UserId)
    requires Inv(st) && Enabled(st, Insert) && Shape(Apply(st, Insert)) && u in Apply(st, Insert).containers
    ensures Apply(st, Insert).containers[u] == Expected(Apply(st, Insert), u)
  {
    hide JQ.Inv, CellsQueried, Loaded;
    var cell, k := st.cells[st.q.ready[0]], st.inserted;
    assert cell[..k + 1][..k] == cell[..k];
  }

  lemma CallContainer(st: State, u: UserId)
    requires Inv(st) && Enabled(st, Inner(JQ.Call))
    requires Shape(Apply(st, Inner(JQ.Call))) && u in Apply(st, Inner(JQ.Call)).containers
    ensures Apply(st, Inner(JQ.Call)).containers[u] == Expected(Apply(st, Inner(JQ.Call)), u)
  {
    hide JQ.Inv, JQ.Apply, JQ.Enabled, CellsQueried, Loaded;
    var st' := Apply(st, Inner(JQ.Call));
    FinishedStep(st, Inner(JQ.Call), st'.initial[u], u);
    QueueEffect(st.q, JQ.Call);
    var cell := st.cells[st.q.ready[0]];
    assert cell[..|cell|] == cell && (st'.q.ready != [] ==> st'.cells[st'.q.ready[0]][..0] == []);
  }

  /** A user seen for the first time has the records that it came with. */
  lemma NewContainer(st: State, l: Label, u: UserId)
    requires Inv(st) && Enabled(st, l) && l.Start?
    requires Shape(Apply(st, l)) && u in Apply(st, l).containers && u !in st.containers
    ensures Apply(st, l).containers[u] == Expected(Apply(st, l), u)
  {
    hide JQ.Inv, JQ.Apply, JQ.Enabled, CellsQueried, Loaded;
    var st' := Apply(st, l);
    UnknownUser(st, st'.initial[u], u);
    FinishedStep(st, l, st'.initial[u], u);
    MainCellsStep(st, l);
    QueueEffect(st.q, JQ.Push(true));
    assert st.q.ready != [] ==> st.q.ready[0] in st.q.ready;
  }

  lemma OtherContainer(st: State, l: Label, u: UserId)
    requires Inv(st) && Enabled(st, l) && l != Insert && l != Inner(JQ.Call) && u in st.containers
    requires Shape(Apply(st, l)) && u in Apply(st, l).containers
    ensures Apply(st, l).containers[u] == Expected(Apply(st, l), u)
  {
    hide JQ.Inv, JQ.Apply, JQ.Enabled, CellsQueried, Loaded;
    FinishedStep(st, l, Apply(st, l).initial[u], u);
    MainCellsStep(st, l);
    if l.Inner? || l.Start? {
      QueueEffect(st.q, if l.Inner? then l.l else JQ.Push(true));
    }
    assert st.q.ready != [] ==> st.q.ready[0] in st.q.ready;
  }

  lemma OnlyStartAddsUsers(st: State, l: Label)
    requires Enabled(st, l)
    ensures Apply(st, l).containers.Keys == st.containers.Keys + if l.Start? then {l.user} else {}
  {
    hide JQ.Apply, JQ.Enabled;
  }

  lemma ContainerStep(st: State, l: Label, u: UserId)
    requires Inv(st) && Enabled(st, l) && Shape(Apply(st, l)) && u in Apply(st, l).containers
    ensures Apply(st, l).containers[u] == Expected(Apply(st, l), u)
  {
    hide Inv, Enabled, Apply, Expected;
    if l == Insert {
      InsertContainer(st, u);
    } else if l == Inner(JQ.Call) {
      CallContainer(st, u);
    } else if u !in st.containers {
      OnlyStartAddsUsers(st, l);
      assert u in Apply(st, l).containers.Keys && u !in st.containers.Keys;
      NewContainer(st, l, u);
    } else {
      OtherContainer(st, l, u);
    }
  }

  lemma InvStep(st: State, l: Label)
    requires Inv(st) && Enabled(st, l)
    ensures Inv(Apply(st, l))
  {
    hide CellsQueried, Expected, Enabled, Apply, JQ.Inv;
    ShapeStep(st, l);
    CellsStep(st, l);
    forall u <- Apply(st, l).containers
      ensures Apply(st, l).containers[u] == Expected(Apply(st, l), u)
    {
      ContainerStep(st, l, u);
    }
  }

  lemma InitInv(st: State)
    requires Init(st)
    ensures Inv(st)
  {
    JQ.InitInv(st.q);
  }

  lemma {:induction false} ExecutionInv(run: seq<State>, i: nat)
    requires Execution(run) && i < |run|
    ensures Inv(run[i])
  {
    hide Inv, Init, Enabled, Apply;
    if i == 0 {
      InitInv(run[0]);
    } else {
      ExecutionInv(run, i - 1);
      assert Next(run[i - 1], run[i]);
      var l :| Enabled(run[i - 1], l) && run[i] == Apply(run[i - 1], l);
      InvStep(run[i - 1], l);
    }
  }

  /** Containers change only while the main thread runs a callback, and then only that
    * load's user, by one of that load's rows. */
  lemma OnlyMainThreadWrites(st: State, l: Label, u: UserId)
    requires Enabled(st, l) && u in st.containers
    ensures u in Apply(st, l).containers
    ensures Apply(st, l).containers[u] != st.containers[u] ==>
              && st.q.ready != [] && Front(st, st.q.ready[0]) && st.loads[st.q.ready[0]].user == u
              && exists row <- st.cells[st.q.ready[0]] ::
                   Apply(st, l).containers[u] == st.containers[u][row.eventId := InfoOf(row)]
  {
    if l.Insert? {
      assert st.cells[st.q.ready[0]][st.inserted] in st.cells[st.q.ready[0]];
    }
  }

  // ----- Main results, for every state of every run -----

  /** Each container holds its user's old records overridden by the rows of the loads whose
    * callbacks have run for this user, in that order - and of the running one, those
    * inserted so far; and each load's rows are what the table held for its own uid. */
  lemma ContainersHoldLoads(run: seq<State>, i: nat, u: UserId, j: JobId)
    requires Execution(run) && i < |run| && u in run[i].containers && j < |run[i].loads|
    ensures Shape(run[i]) && u in run[i].initial && run[i].containers[u] == Expected(run[i], u)
    ensures var st := run[i];
      if j in st.q.ran then Queried(st.loads[j], st.cells[j], st.versions) else st.cells[j] == []
  {
    ExecutionInv(run, i);
  }

  lemma CalledOnce(q: JQ.State, c: nat)
    requires JQ.Inv(q) && c < |q.called|
    ensures forall d | 0 <= d < |q.called| && d != c :: q.called[d] != q.called[c]
  {
    assert JQ.At(q, q.called[c], JQ.Called(c));
    forall d | 0 <= d < |q.called| && d != c ensures q.called[d] != q.called[c] {
      assert !JQ.At(q, q.called[c], JQ.Called(d));
    }
  }

  lemma {:induction false} LoadedOnce(st: State, u: UserId, jobs: seq<JobId>, c: nat)
    requires |st.loads| == |st.cells| && u in st.initial
    requires c < |jobs| && jobs[c] < |st.loads| && st.loads[jobs[c]].user == u
    requires forall d | 0 <= d < |jobs| && d != c :: jobs[d] < |st.loads| ==> st.loads[jobs[d]].user != u
    ensures Loaded(st.initial[u], u, jobs, st.loads, st.cells) == Overlay(st.initial[u], st.cells[jobs[c]])
  {
    var n := |jobs| - 1;
    if c == n {
      LoadedOther(st.initial[u], u, jobs[..n], st);
    } else {
      LoadedOnce(st, u, jobs[..n], c);
    }
  }

  lemma LoadedAloneInv(st: State, j: JobId)
    requires Inv(st) && j in st.q.called && j < |st.loads|
    requires forall k | 0 <= k < |st.loads| && k != j :: st.loads[k].user != st.loads[j].user
    ensures var u := st.loads[j].user;
      && u in st.containers && u in st.initial && j < |st.cells|
      && st.containers[u] == Overlay(st.initial[u], st.cells[j])
      && Queried(st.loads[j], st.cells[j], st.versions)
  {
    var c :| 0 <= c < |st.q.called| && st.q.called[c] == j;
    JQ.CalledIsOver(st.q, j, c);
    KnownJobs(st.q);
    assert st.loads[j] in st.loads;
    CalledOnce(st.q, c);
    LoadedOnce(st, st.loads[j].user, st.q.called, c);
    assert st.q.ready != [] ==> st.q.ready[0] in st.q.ready;
  }

  /** A load into a user of its own: once its callback has run, the container is the old
    * map overridden by exactly this load's rows, whatever the other loads did. The last row
    * of an event gives its record, field by field, and an event without one keeps it. */
  lemma LoadedAlone(run: seq<State>, i: nat, j: JobId)
    requires Execution(run) && i < |run| && j in run[i].q.called && j < |run[i].loads|
    requires forall k | 0 <= k < |run[i].loads| && k != j :: run[i].loads[k].user != run[i].loads[j].user
    ensures var st := run[i]; var u := st.loads[j].user;
      && u in st.containers && u in st.initial && j < |st.cells|
      && st.containers[u] == Overlay(st.initial[u], st.cells[j])
      && Queried(st.loads[j], st.cells[j], st.versions)
    ensures var st := run[i]; var rows, records := st.cells[j], st.containers[st.loads[j].user];
      forall k | 0 <= k < |rows| && forall m | k < m < |rows| :: rows[m].eventId != rows[k].eventId ::
        && rows[k].eventId in records
        && var info, row := records[rows[k].eventId], rows[k];
        && info.eventId == row.eventId && info.step == row.step && info.subStep == row.subStep
        && info.deleted == row.deleted && info.lastUpdate == row.lastUpdate
    ensures var st := run[i]; var u := st.loads[j].user;
      forall id | forall row <- st.cells[j] :: row.eventId != id ::
        && (id in st.containers[u] <==> id in st.initial[u])
        && (id in st.initial[u] ==> st.containers[u][id] == st.initial[u][id])
  {
    ExecutionInv(run, i);
    LoadedAloneInv(run[i], j);
    hide Inv, Execution;
    var st := run[i];
    var u, rows := st.loads[j].user, st.cells[j];
    forall k | 0 <= k < |rows| && forall m | k < m < |rows| :: rows[m].eventId != rows[k].eventId
      ensures rows[k].eventId in st.containers[u]
      ensures var info, row := st.containers[u][rows[k].eventId], rows[k];
        && info.eventId == row.eventId && info.step == row.step && info.subStep == row.subStep
        && info.deleted == row.deleted && info.lastUpdate == row.lastUpdate
    {
      OverlayLastRowWins(st.initial[u], rows, k);
    }
    forall id | forall row <- rows :: row.eventId != id
      ensures id in st.containers[u] <==> id in st.initial[u]
      ensures id in st.initial[u] ==> st.containers[u][id] == st.initial[u][id]
    {
      OverlayKeepsOthers(st.initial[u], rows, id);
    }
  }

  lemma InvIsQueueInv(st: State)
    requires Inv(st)
    ensures JQ.Inv(st.q)
  {
  }

  lemma HeldIsApart(q: JQ.State, w: JQ.WorkerId, j: JobId)
    requires JQ.Inv(q) && JQ.Holds(q, w) && q.workers[w].job == j
    ensures j !in q.completion && j !in q.ready && j !in q.called
  {
    hide JQ.Inv;
    forall k: nat
      ensures k < |q.ready| ==> q.ready[k] != j
      ensures k < |q.called| ==> q.called[k] != j
      ensures k < |q.completion| ==> q.completion[k] != j
    {
      MainApart(q, w, k);
    }
  }

  /** Only the worker that holds a load's job writes the cell, once. */
  lemma CellWrittenOnce(st: State, l: Label, j: JobId)
    requires Inv(st) && Enabled(st, l) && j < |st.cells|
    ensures j < |Apply(st, l).cells|
    ensures Apply(st, l).cells[j] != st.cells[j] ==>
              l.Inner? && l.l.RunWork? && st.q.workers[l.l.w] == JQ.Working(j) && j !in st.q.ran
  {
    hide JQ.Inv, JQ.Apply, CellsQueried, ContainersLoaded;
    CellKept(st, l, j);
    RanStep(st, l, j);
    hide Apply;
  }

  /** The shared rows cell has one owner: while a worker holds a load's job the main thread
    * has no access to it, and only a worker that holds it writes it, once. */
  lemma CellHasOneOwner(run: seq<State>, i: nat, l: Label, w: JQ.WorkerId, j: JobId)
    requires Execution(run) && i < |run| && Enabled(run[i], l) && j < |run[i].cells|
    ensures var st := run[i];
      && (JQ.Holds(st.q, w) && st.q.workers[w].job == j ==>
            j !in st.q.completion && j !in st.q.ready && j !in st.q.called)
      && j < |Apply(st, l).cells|
      && (Apply(st, l).cells[j] != st.cells[j] ==>
            l.Inner? && l.l.RunWork? && st.q.workers[l.l.w] == JQ.Working(j) && j !in st.q.ran)
  {
    hide Inv, Enabled, Apply, Execution;
    var st := run[i];
    ExecutionInv(run, i);
    InvIsQueueInv(st);
    if JQ.Holds(st.q, w) && st.q.workers[w].job == j {
      HeldIsApart(st.q, w, j);
    }
    CellWrittenOnce(st, l, j);
  }
}
