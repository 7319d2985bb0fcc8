/** The methods of GameServer.AsyncDbJobQueue take the steps of EventLoad: what WorkerLoop and
  * ProcessCompletions compute on their objects, a worker and the main thread reach by steps
  * of the protocol. */
module LoadRefinement {
  import opened EventLoad
  import opened Steps
  import opened UserEvents
  import G = GameServer
  import JQ = JobQueueProtocol

  lemma Takes(st: State, l: Label, mid: State, st': State, n: nat)
    requires Enabled(st, l) && mid == Apply(st, l) && Reaches(Next, mid, st', n)
    ensures Reaches(Next, st, st', n + 1)
  {
    hide Enabled, Apply;
    assert Next(st, mid);
  }

  // ----- Objects and their numbers -----

  type Names = id: map<CUser, UserId> | forall u <- id, v <- id :: id[u] == id[v] ==> u == v
    witness map[]

  /** These jobs of the protocol are the loads of the queue object. */
  ghost predicate Queued(jobs: seq<G.LoadJob>, js: seq<JobId>, st: State, id: Names) {
    |jobs| == |js| && forall i | 0 <= i < |jobs| ::
      && js[i] < |st.loads| && jobs[i].user in id
      && st.loads[js[i]].uid == jobs[i].uid && st.loads[js[i]].user == id[jobs[i].user]
  }

  /** These jobs of the protocol are the completions of the queue object. */
  ghost predicate Done(batch: seq<G.LoadDone>, js: seq<JobId>, st: State, id: Names)
    requires |st.loads| == |st.cells|
  {
    |batch| == |js| && forall i | 0 <= i < |batch| ::
      && js[i] < |st.loads| && batch[i].user in id
      && st.loads[js[i]].user == id[batch[i].user] && st.cells[js[i]] == batch[i].rows
  }

  /** The two say the same of what a batch does to a user. */
  lemma {:induction false} LoadedAgree(events: Events, user: CUser, batch: seq<G.LoadDone>, js: seq<JobId>,
                                       st: State, id: Names)
    requires |st.loads| == |st.cells| && Done(batch, js, st, id) && user in id
    ensures Loaded(events, id[user], js, st.loads, st.cells) == G.Loaded(events, user, batch)
  {
    if batch == [] {
    } else {
      var n := |batch| - 1;
      LoadedAgree(events, user, batch[..n], js[..n], st, id);
    }
  }

  lemma {:induction false} LoadedConcat(events: Events, u: UserId, first: seq<JobId>, later: seq<JobId>, st: State)
    requires |st.loads| == |st.cells|
    ensures Loaded(events, u, first + later, st.loads, st.cells) ==
            Loaded(Loaded(events, u, first, st.loads, st.cells), u, later, st.loads, st.cells)
    decreases |later|
  {
    if later == [] {
      assert first + later == first;
    } else {
      var n := |later| - 1;
      assert (first + later)[..|first| + n] == first + later[..n];
      LoadedConcat(events, u, first, later[..n], st);
    }
  }

  // ----- Enqueue -----

  lemma EnqueueStep(st: State, uid: nat, u: UserId)
    requires Inv(st) && JQ.Unlocked(st.q) && u !in st.containers
    ensures Enabled(st, Start(uid, u, map[]))
    ensures var st' := Apply(st, Start(uid, u, map[]));
      && st'.loads == st.loads + [Load(uid, u, |st.versions| - 1)] && st'.cells == st.cells + [[]]
      && st'.q.queue == st.q.queue + [|st.loads|] && st'.q.completion == st.q.completion
      && u in st'.containers && st'.containers[u] == map[]
  {
    hide JQ.Inv, CellsQueried, ContainersLoaded;
  }

  /** LoadUserEventsAsync for a new user is one step of the protocol: the job goes behind the
    * others, with the user's own uid, and nothing of the earlier ones changes. */
  lemma EnqueueRefines(st: State, jobs: seq<G.LoadJob>, done: seq<G.LoadDone>, job: G.LoadJob, id: Names, u: UserId)
    requires Inv(st) && JQ.Unlocked(st.q)
    requires Queued(jobs, st.q.queue, st, id) && Done(done, st.q.completion, st, id)
    requires job.user !in id && u !in st.containers && forall v <- id :: id[v] != u
    ensures Enabled(st, Start(job.uid, u, map[]))
    ensures var st', id' := Apply(st, Start(job.uid, u, map[])), id[job.user := u];
      && (forall v <- id', w <- id' :: id'[v] == id'[w] ==> v == w)
      && Queued(jobs + [job], st'.q.queue, st', id')
      && |st'.loads| == |st'.cells| && Done(done, st'.q.completion, st', id')
      && u in st'.containers && st'.containers[u] == map[]
  {
    EnqueueStep(st, job.uid, u);
    KnownJobs(st.q);
    hide JQ.Inv, JQ.Apply, JQ.Enabled, JQ.Unlocked, CellsQueried, ContainersLoaded, Apply, Enabled;
  }

  // ----- ProcessCompletions -----

  predicate SameLoads(st: State, st': State) {
    st'.loads == st.loads && st'.cells == st.cells && st'.initial == st.initial && st'.q.completion == st.q.completion
  }

  /** The main thread's next step. */
  function MainLabel(st: State): Label
    requires st.q.ready != [] && st.q.ready[0] < |st.cells|
  {
    if st.inserted < |st.cells[st.q.ready[0]]| then Insert else Inner(JQ.Call)
  }

  lemma MainStep(st: State)
    requires Inv(st) && st.q.ready != []
    ensures st.q.ready[0] < |st.cells| && Enabled(st, MainLabel(st))
    ensures var st' := Apply(st, MainLabel(st));
      && SameLoads(st, st') && st'.q.called + st'.q.ready == st.q.called + st.q.ready
      && (if MainLabel(st) == Insert then st'.q.ready == st.q.ready && st'.inserted == st.inserted + 1
          else |st'.q.ready| == |st.q.ready| - 1)
  {
    hide JQ.Inv, CellsQueried, ContainersLoaded;
    assert st.loads[st.q.ready[0]] in st.loads;
    assert st.q.ready == [st.q.ready[0]] + st.q.ready[1..];
  }

  function RowsLeft(st: State): nat {
    if st.q.ready != [] && st.q.ready[0] < |st.cells| && st.inserted <= |st.cells[st.q.ready[0]]|
    then |st.cells[st.q.ready[0]]| - st.inserted
    else 0
  }

  lemma {:induction false} RunReady(st: State) returns (st': State, n: nat)
    requires Inv(st)
    ensures Reaches(Next, st, st', n) && Inv(st') && SameLoads(st, st')
    ensures st'.q.ready == [] && st'.q.called == st.q.called + st.q.ready
    decreases |st.q.ready|, RowsLeft(st)
  {
    hide Inv, Enabled, Apply;
    if st.q.ready == [] {
      st', n := st, 0;
    } else {
      MainStep(st);
      var l, mid := MainLabel(st), Apply(st, MainLabel(st));
      InvStep(st, l);
      st', n := RunReady(mid);
      Takes(st, l, mid, st', n);
      n := n + 1;
    }
  }

  lemma SwapStep(st: State)
    requires Inv(st) && st.q.ready == []
    ensures Enabled(st, Inner(JQ.Swap))
    ensures var st' := Apply(st, Inner(JQ.Swap));
      && st'.loads == st.loads && st'.cells == st.cells && st'.initial == st.initial
      && st'.q.completion == [] && st'.q.ready == st.q.completion && st'.q.called == st.q.called
  {
    hide JQ.Inv, CellsQueried, ContainersLoaded;
  }

  lemma Between(st: State, u: UserId)
    requires Inv(st) && st.q.ready == [] && u in st.initial
    ensures |st.loads| == |st.cells| && u in st.containers
    ensures st.containers[u] == Loaded(st.initial[u], u, st.q.called, st.loads, st.cells)
  {
    hide JQ.Inv, CellsQueried, Loaded;
    assert u in st.initial.Keys;
  }

  /** ProcessCompletions is a run of the protocol: one swap, then each ready callback row by
    * row. It empties the completion queue, and at its end every user's container is what
    * the method's contract says. */
  lemma ProcessCompletionsRefines(st: State, batch: seq<G.LoadDone>, id: Names) returns (st': State, n: nat)
    requires Inv(st) && st.q.ready == [] && Done(batch, st.q.completion, st, id)
    ensures Reaches(Next, st, st', n) && Inv(st')
    ensures st'.q.completion == st'.q.ready == [] && st'.q.called == st.q.called + st.q.completion
    ensures forall user <- id | id[user] in st.initial ::
              && id[user] in st.containers && id[user] in st'.containers
              && st'.containers[id[user]] == G.Loaded(st.containers[id[user]], user, batch)
  {
    SwapStep(st);
    var mid := Apply(st, Inner(JQ.Swap));
    InvStep(st, Inner(JQ.Swap));
    hide Enabled, Apply, Reaches, Loaded;
    st', n := RunReady(mid);
    Takes(st, Inner(JQ.Swap), mid, st', n);
    n := n + 1;
    forall user <- id | id[user] in st.initial
      ensures id[user] in st.containers && id[user] in st'.containers
      ensures st'.containers[id[user]] == G.Loaded(st.containers[id[user]], user, batch)
    {
      var u := id[user];
      Between(st, u);
      Between(st', u);
      hide Inv;
      LoadedConcat(st.initial[u], u, st.q.called, st.q.completion, st);
      LoadedAgree(st.containers[u], user, batch, st.q.completion, st, id);
    }
  }

  // ----- WorkerLoop -----

  lemma QueuedIsApart(q: JQ.State)
    requires JQ.Inv(q) && q.queue != []
    ensures q.queue[0] < |q.accepted| && q.queue[0] !in q.completion
  {
    assert JQ.At(q, q.queue[0], JQ.Queued(0));
    forall i | 0 <= i < |q.completion| ensures q.completion[i] != q.queue[0] {
      assert !JQ.At(q, q.queue[0], JQ.Completed(i));
    }
  }

  predicate Took(st: State, st': State, w: JQ.WorkerId, j: JobId) {
    && st.q.queue != [] && j == st.q.queue[0]
    && st' == st.(q := st.q.(queue := st.q.queue[1..], workers := st.q.workers[w := JQ.Working(j)]))
  }

  predicate Ran(st: State, st': State, w: JQ.WorkerId, j: JobId) {
    && st.versions != [] && j < |st.loads| && j < |st.cells|
    && st' == st.(q := st.q.(ran := st.q.ran + [j], workers := st.q.workers[w := JQ.Finished(j)]),
                  cells := st.cells[j := Query(Current(st), st.loads[j].uid)])
  }

  predicate Completed(st: State, st': State, w: JQ.WorkerId, j: JobId) {
    st' == st.(q := st.q.(completion := st.q.completion + [j], workers := st.q.workers[w := JQ.Awake]))
  }

  lemma TakeStep(st: State, w: JQ.WorkerId)
    requires st.versions != [] && JQ.Is(st.q, w, JQ.Awake) && JQ.Unlocked(st.q) && st.q.queue != []
    ensures Enabled(st, Inner(JQ.Take(w))) && Took(st, Apply(st, Inner(JQ.Take(w))), w, st.q.queue[0])
  {
  }

  lemma RunStep(st: State, w: JQ.WorkerId, j: JobId)
    requires st.versions != [] && JQ.Is(st.q, w, JQ.Working(j)) && j < |st.loads| && j < |st.cells|
    ensures Enabled(st, Inner(JQ.RunWork(w))) && Ran(st, Apply(st, Inner(JQ.RunWork(w))), w, j)
  {
  }

  lemma CompleteStep(st: State, w: JQ.WorkerId, j: JobId)
    requires st.versions != [] && JQ.Is(st.q, w, JQ.Finished(j)) && j < |st.q.accepted| && st.q.accepted[j]
    ensures Enabled(st, Inner(JQ.Complete(w))) && Completed(st, Apply(st, Inner(JQ.Complete(w))), w, j)
  {
  }

  lemma BackAwake(workers: map<JQ.WorkerId, JQ.Pc>, w: JQ.WorkerId, j: JobId)
    requires w in workers && workers[w] == JQ.Awake
    ensures workers[w := JQ.Working(j)][w := JQ.Finished(j)][w := JQ.Awake] == workers
  {
  }

  /** What remains of a job that one worker took through its three steps. */
  predicate JobDone(st: State, c: State) {
    && st.q.queue != [] && st.q.queue[0] < |st.loads| == |st.cells| && st.versions != []
    && c.loads == st.loads && c.versions == st.versions && c.q.workers == st.q.workers
    && c.cells == st.cells[st.q.queue[0] := Query(Current(st), st.loads[st.q.queue[0]].uid)]
    && c.q.queue == st.q.queue[1..] && c.q.completion == st.q.completion + [st.q.queue[0]]
  }

  lemma QueueHead(st: State)
    requires Inv(st) && st.q.queue != []
    ensures st.q.queue[0] < |st.loads| == |st.cells| && st.versions != []
    ensures st.q.queue[0] < |st.q.accepted| && st.q.accepted[st.q.queue[0]] && st.q.queue[0] !in st.q.completion
  {
    QueuedIsApart(st.q);
  }

  lemma AfterTake(st: State, a: State, w: JQ.WorkerId, j: JobId)
    requires Took(st, a, w, j)
    ensures JQ.Is(a.q, w, JQ.Working(j)) && a.versions == st.versions && a.loads == st.loads && a.cells == st.cells
    ensures a.q.accepted == st.q.accepted
  {
  }

  lemma AfterRun(a: State, b: State, w: JQ.WorkerId, j: JobId)
    requires Ran(a, b, w, j)
    ensures JQ.Is(b.q, w, JQ.Finished(j)) && b.versions == a.versions && b.q.accepted == a.q.accepted
  {
  }

  lemma ThreeSteps(st: State, a: State, b: State, c: State, w: JQ.WorkerId, j: JobId)
    requires JQ.Is(st.q, w, JQ.Awake) && st.versions != [] && j < |st.loads| == |st.cells|
    requires Took(st, a, w, j) && Ran(a, b, w, j) && Completed(b, c, w, j)
    ensures JobDone(st, c)
  {
    BackAwake(st.q.workers, w, j);
  }

  lemma JobSteps(st: State, w: JQ.WorkerId) returns (a: State, b: State, c: State)
    requires Inv(st) && JQ.Is(st.q, w, JQ.Awake) && JQ.Unlocked(st.q) && st.q.queue != []
    ensures Enabled(st, Inner(JQ.Take(w))) && a == Apply(st, Inner(JQ.Take(w)))
    ensures Enabled(a, Inner(JQ.RunWork(w))) && b == Apply(a, Inner(JQ.RunWork(w)))
    ensures Enabled(b, Inner(JQ.Complete(w))) && c == Apply(b, Inner(JQ.Complete(w)))
    ensures JobDone(st, c)
  {
    var j := st.q.queue[0];
    QueueHead(st);
    hide Inv, Apply, Enabled, JQ.Unlocked, JQ.Is, Took, Ran, Completed, JobDone;
    TakeStep(st, w);
    a := Apply(st, Inner(JQ.Take(w)));
    AfterTake(st, a, w, j);
    RunStep(a, w, j);
    b := Apply(a, Inner(JQ.RunWork(w)));
    AfterRun(a, b, w, j);
    CompleteStep(b, w, j);
    c := Apply(b, Inner(JQ.Complete(w)));
    ThreeSteps(st, a, b, c, w, j);
  }

  /** The objects follow. */
  lemma JobMoves(st: State, c: State, jobs: seq<G.LoadJob>, done: seq<G.LoadDone>, id: Names)
    requires JobDone(st, c) && st.q.queue[0] !in st.q.completion && jobs != []
    requires Queued(jobs, st.q.queue, st, id) && Done(done, st.q.completion, st, id)
    ensures Queued(jobs[1..], c.q.queue, c, id)
    ensures |c.loads| == |c.cells| && Done(done + [G.ResultOf(jobs[0], Current(st))], c.q.completion, c, id)
  {
    forall i | 0 <= i < |done| ensures c.cells[st.q.completion[i]] == done[i].rows {
      assert st.q.completion[i] in st.q.completion;
    }
  }

  lemma QueuedFacts(st: State, jobs: seq<G.LoadJob>, id: Names)
    requires Queued(jobs, st.q.queue, st, id)
    ensures |jobs| == |st.q.queue|
    ensures jobs != [] ==> st.q.queue[0] < |st.loads| && st.loads[st.q.queue[0]].uid == jobs[0].uid
  {
  }

  lemma NoSteps(st: State, jobs: seq<G.LoadJob>, id: Names)
    requires Queued(jobs, st.q.queue, st, id) && jobs == []
    ensures Reaches(Next, st, st, 0) && st.q.queue == []
  {
  }

  /** The table may have changed by the time of the job's query. */
  function Seeding(uid: nat, table: Table): Label {
    Seed(uid, Query(table, uid))
  }

  lemma SeedStep(st: State, uid: nat, table: Table)
    requires Inv(st)
    ensures Enabled(st, Seeding(uid, table))
    ensures var st' := Apply(st, Seeding(uid, table));
      && st' == st.(versions := st'.versions) && st'.versions != []
      && Query(Current(st'), uid) == Query(table, uid)
  {
    hide JQ.Inv, CellsQueried, ContainersLoaded;
  }

  lemma SeedMoves(st: State, st': State, jobs: seq<G.LoadJob>, done: seq<G.LoadDone>, id: Names)
    requires st' == st.(versions := st'.versions) && |st.loads| == |st.cells|
    requires Queued(jobs, st.q.queue, st, id) && Done(done, st.q.completion, st, id)
    ensures Queued(jobs, st'.q.queue, st', id) && Done(done, st'.q.completion, st', id)
  {
  }

  /** One job, from the queue to the completions. */
  lemma OneJob(st: State, w: JQ.WorkerId, jobs: seq<G.LoadJob>, done: seq<G.LoadDone>, id: Names, table: Table)
    returns (c: State)
    requires Inv(st) && JQ.Is(st.q, w, JQ.Awake) && JQ.Unlocked(st.q) && jobs != []
    requires Queued(jobs, st.q.queue, st, id) && Done(done, st.q.completion, st, id)
    ensures Reaches(Next, st, c, 4) && Inv(c) && JQ.Is(c.q, w, JQ.Awake) && JQ.Unlocked(c.q)
    ensures Queued(jobs[1..], c.q.queue, c, id)
    ensures Done(done + [G.ResultOf(jobs[0], table)], c.q.completion, c, id)
  {
    hide Inv, Enabled, Apply, Queued, Done, Query;
    QueuedFacts(st, jobs, id);
    QueueHead(st);
    var l := Seeding(jobs[0].uid, table);
    SeedStep(st, jobs[0].uid, table);
    var s := Apply(st, l);
    InvStep(st, l);
    SeedMoves(st, s, jobs, done, id);
    var a, b, end := JobSteps(s, w);
    c := end;
    JobMoves(s, c, jobs, done, id);
    InvStep(s, Inner(JQ.Take(w)));
    InvStep(a, Inner(JQ.RunWork(w)));
    InvStep(b, Inner(JQ.Complete(w)));
    Takes(b, Inner(JQ.Complete(w)), c, c, 0);
    hide Reaches, JQ.Is, JQ.Unlocked;
    Takes(a, Inner(JQ.RunWork(w)), b, c, 1);
    Takes(s, Inner(JQ.Take(w)), a, c, 2);
    Takes(st, l, s, c, 3);
  }

  /** WorkerLoop, up to its wait, is a run of the protocol in which one worker takes its three
    * steps for each queued job, and others change the table in between: it empties the queue
    * and completes what the method's contract says, in that order. */
  lemma {:induction false} WorkerLoopRefines(st: State, w: JQ.WorkerId, jobs: seq<G.LoadJob>,
                                             done: seq<G.LoadDone>, id: Names, tables: nat -> Table, k: nat)
    returns (st': State, n: nat)
    requires Inv(st) && JQ.Is(st.q, w, JQ.Awake) && JQ.Unlocked(st.q)
    requires Queued(jobs, st.q.queue, st, id) && Done(done, st.q.completion, st, id)
    ensures Reaches(Next, st, st', n) && Inv(st') && st'.q.queue == [] && JQ.Is(st'.q, w, JQ.Awake)
    ensures Done(done + G.Results(jobs, tables, k), st'.q.completion, st', id)
    decreases |jobs|
  {
    hide Inv, Queued, Done, Reaches;
    if jobs == [] {
      st', n := st, 0;
      NoSteps(st, jobs, id);
      assert done + [] == done;
    } else {
      var r := G.ResultOf(jobs[0], tables(k));
      var c := OneJob(st, w, jobs, done, id, tables(k));
      st', n := WorkerLoopRefines(c, w, jobs[1..], done + [r], id, tables, k + 1);
      Onward(Next, st, c, st', 4, n);
      n := 4 + n;
      assert done + [r] + G.Results(jobs[1..], tables, k + 1) == done + G.Results(jobs, tables, k);
    }
  }
}
