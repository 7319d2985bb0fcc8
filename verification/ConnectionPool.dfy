/** MySqlConnectionPool, and its use by the workers of the job queue. */
module ConnectionPool {
  import opened PacketDefs
  import opened Steps
  import opened UserEvents
  import JQ = JobQueueProtocol

  type Connection = nat
  type WorkerId = JQ.WorkerId

  /** The pool's queue, as one thread at a time uses it under mutex_. */
  class Pool {
    var pool: seq<Connection>
    var made: nat // connections created so far; each is a new one

    constructor ()
      ensures pool == [] && made == 0
    {
      pool, made := [], 0;
    }

    method Init(workerCount: int)
      modifies this
      ensures made == old(made) + if workerCount < 0 then 0 else workerCount
      ensures pool == old(pool) + seq(made - old(made), i => old(made) + i)
    {
      var i := 0;
      while i < workerCount
        invariant 0 <= i && (0 <= workerCount ==> i <= workerCount) && (workerCount < 0 ==> i == 0)
        invariant made == old(made) + i
        invariant pool == old(pool) + seq(i, k => old(made) + k)
      {
        pool := pool + [made];
        made := made + 1;
        i := i + 1;
      }
    }

    /** None says that the caller waits on cv_. */
    method Acquire() returns (conn: Option<Connection>)
      modifies `pool
      ensures conn.None? <==> old(pool) == []
      ensures pool == old(pool)[if conn.None? then 0 else 1..]
      ensures conn.Some? ==> [conn.value] + pool == old(pool)
    {
      if pool == [] {
        return None;
      }
      conn := Some(pool[0]);
      pool := pool[1..];
    }

    method Release(conn: Connection)
      modifies `pool
      ensures pool == old(pool) + [conn]
    {
      pool := pool + [conn];
    }

    /** QueryUserEvents in a worker, unless it waits: the connection goes back, behind the
      * others. */
    method QueryUserEvents(table: Table, uid: nat) returns (rows: Option<seq<DbEventRow>>)
      modifies `pool
      ensures rows == if old(pool) == [] then None else Some(Query(table, uid))
      ensures pool == if old(pool) == [] then [] else old(pool)[1..] + [old(pool)[0]]
    {
      var conn := Acquire();
      if conn.None? {
        return None;
      }
      rows := Some(Query(table, uid));
      Release(conn.value);
    }
  }

  // ----- Many workers -----

  /** `held` are the connections that workers have acquired and not released; `queried`
    * are the workers that have released theirs and whose work is about to return; `asleep`
    * wait on cv_. Release notifies under mutex_, so evaluating the predicate and going to
    * sleep are one step. */
  datatype State = State(q: JQ.State, pool: seq<Connection>, held: map<WorkerId, Connection>,
                         queried: set<WorkerId>, asleep: set<WorkerId>)

  datatype Label =
    | Acquire(w: WorkerId)
    | Wait(w: WorkerId)
    | Wake(w: WorkerId) // spurious
    | Release(w: WorkerId, notified: Option<WorkerId>)
    | Inner(l: JQ.Label)

  predicate Works(q: JQ.State, w: WorkerId) {
    w in q.workers && q.workers[w].Working?
  }

  /** The worker is in QueryUserEvents, before or in Acquire's wait. */
  predicate AtAcquire(st: State, w: WorkerId) {
    Works(st.q, w) && w !in st.held && w !in st.queried
  }

  predicate Enabled(st: State, l: Label) {
    match l
    case Acquire(w) => AtAcquire(st, w) && w !in st.asleep && st.pool != []
    case Wait(w) => AtAcquire(st, w) && w !in st.asleep && st.pool == []
    case Wake(w) => w in st.asleep
    case Release(w, v) => w in st.held && if v.None? then st.asleep == {} else v.value in st.asleep
    case Inner(l) => JQ.Enabled(st.q, l) && (l.RunWork? ==> l.w in st.queried)
  }

  function Apply(st: State, l: Label): State
    requires Enabled(st, l)
  {
    match l
    case Acquire(w) => st.(pool := st.pool[1..], held := st.held[w := st.pool[0]])
    case Wait(w) => st.(asleep := st.asleep + {w})
    case Wake(w) => st.(asleep := st.asleep - {w})
    case Release(w, v) =>
      st.(pool := st.pool + [st.held[w]], held := st.held - {w}, queried := st.queried + {w},
          asleep := if v.None? then {} else st.asleep - {v.value})
    case Inner(l) => st.(q := JQ.Apply(st.q, l), queried := if l.RunWork? then st.queried - {l.w} else st.queried)
  }

  predicate Init(st: State, size: nat) {
    JQ.Init(st.q) && st.pool == seq(size, i => i) && st.held == map[] && st.queried == st.asleep == {}
  }

  ghost predicate Next(st: State, st': State) {
    exists l :: Enabled(st, l) && st' == Apply(st, l)
  }

  ghost predicate Execution(run: seq<State>, size: nat) {
    && run != [] && Init(run[0], size)
    && forall i | 0 <= i < |run| - 1 :: Next(run[i], run[i + 1])
  }

  // ----- Ownership of connections -----

  datatype Place = Idle(i: nat) | Held(w: WorkerId)

  predicate At(st: State, c: Connection, p: Place) {
    match p
    case Idle(i) => i < |st.pool| && st.pool[i] == c
    case Held(w) => w in st.held && st.held[w] == c
  }

  ghost predicate Owned(st: State, c: Connection) {
    exists p :: At(st, c, p)
  }

  ghost predicate OnePlace(st: State, size: nat) {
    && (forall c: Connection, p, p' :: At(st, c, p) && At(st, c, p') ==> p == p')
    && (forall c: Connection, p :: At(st, c, p) ==> c < size)
    && (forall c: Connection | c < size :: Owned(st, c))
  }

  predicate Roles(st: State) {
    && (forall w <- st.held :: Works(st.q, w) && w !in st.queried)
    && (forall w <- st.queried :: Works(st.q, w))
    && (forall w <- st.asleep :: AtAcquire(st, w))
  }

  predicate Users(st: State, size: nat) {
    |st.pool| + |st.held| == size && Roles(st)
  }

  /** The workers that are awake and will look for a connection. */
  function Coming(st: State): set<WorkerId> {
    set w <- st.q.workers | AtAcquire(st, w) && w !in st.asleep
  }

  /** While a worker sleeps, each idle connection has an awake worker coming for it. */
  predicate Covered(st: State) {
    st.asleep != {} ==> |st.pool| <= |Coming(st)|
  }

  /** With a connection for every worker nobody ever sleeps. */
  predicate Ample(st: State, size: nat) {
    |st.q.workers.Keys| <= size ==> st.asleep == {}
  }

  /** Without any connection no query is ever answered. */
  predicate Barren(st: State, size: nat) {
    size == 0 ==> st.queried == {} && st.q.ran == []
  }

  ghost predicate Inv(st: State, size: nat) {
    OnePlace(st, size) && Users(st, size) && Covered(st) && Ample(st, size) && Barren(st, size)
  }

  // ----- Every step keeps the invariant -----

  function Before(st: State, l: Label, p: Place): Place {
    match l
    case Acquire(w) => if p == Held(w) then Idle(0) else if p.Idle? then Idle(p.i + 1) else p
    case Release(w, _) => if p == Idle(|st.pool|) then Held(w) else p
    case _ => p
  }

  function After(st: State, l: Label, p: Place): Place {
    match l
    case Acquire(w) => if p == Idle(0) then Held(w) else if p.Idle? then Idle(p.i - 1) else p
    case Release(w, _) => if p == Held(w) then Idle(|st.pool|) else p
    case _ => p
  }

  lemma Moves(st: State, l: Label, c: Connection, p: Place)
    requires Enabled(st, l)
    ensures At(st, c, p) ==> At(Apply(st, l), c, After(st, l, p))
    ensures At(Apply(st, l), c, p) ==> At(st, c, Before(st, l, p)) && After(st, l, Before(st, l, p)) == p
  {
    hide JQ.Apply, JQ.Enabled;
  }

  lemma OnePlaceStep(st: State, l: Label, size: nat)
    requires OnePlace(st, size) && Enabled(st, l)
    ensures OnePlace(Apply(st, l), size)
  {
    var st' := Apply(st, l);
    hide At, Apply, Enabled;
    forall c: Connection, p, p' | At(st', c, p) && At(st', c, p')
      ensures p == p' && c < size
    {
      Moves(st, l, c, p);
      Moves(st, l, c, p');
    }
    forall c: Connection | c < size
      ensures Owned(st', c)
    {
      assert Owned(st, c);
      var p :| At(st, c, p);
      Moves(st, l, c, p);
    }
  }

  /** What a step of the job queue does to the workers that are in a query. */
  lemma WorksStep(q: JQ.State, l: JQ.Label, w: WorkerId)
    requires JQ.Enabled(q, l)
    ensures Works(JQ.Apply(q, l), w) <==> (Works(q, w) && l != JQ.RunWork(w)) || l == JQ.Take(w)
    ensures l == JQ.Take(w) ==> !Works(q, w)
  {
  }

  lemma SameWorkers(q: JQ.State, l: JQ.Label)
    requires JQ.Enabled(q, l)
    ensures JQ.Apply(q, l).workers.Keys == q.workers.Keys
    ensures JQ.Apply(q, l).ran == if l.RunWork? then q.ran + [q.workers[l.w].job] else q.ran
  {
  }

  lemma InnerRoles(st: State, l: JQ.Label)
    requires Roles(st) && Enabled(st, Inner(l))
    ensures Roles(Apply(st, Inner(l)))
  {
    hide JQ.Apply, JQ.Enabled, Works;
    forall w ensures Works(JQ.Apply(st.q, l), w) <==> (Works(st.q, w) && l != JQ.RunWork(w)) || l == JQ.Take(w) {
      WorksStep(st.q, l, w);
    }
  }

  lemma RolesStep(st: State, l: Label)
    requires Roles(st) && Enabled(st, l)
    ensures Roles(Apply(st, l))
  {
    hide JQ.Apply, JQ.Enabled, Works;
    if l.Inner? {
      InnerRoles(st, l.l);
    }
  }

  lemma CountStep(st: State, l: Label)
    requires Enabled(st, l)
    ensures |Apply(st, l).pool| + |Apply(st, l).held| == |st.pool| + |st.held|
  {
    hide JQ.Apply, JQ.Enabled, Works;
    var held' := Apply(st, l).held;
    assert |held'| == |held'.Keys| && |st.held| == |st.held.Keys|;
    match l {
      case Acquire(w) => assert held'.Keys == st.held.Keys + {w};
      case Release(w, _) => assert held'.Keys == st.held.Keys - {w};
      case _ =>
    }
  }

  lemma UsersStep(st: State, l: Label, size: nat)
    requires Users(st, size) && Enabled(st, l)
    ensures Users(Apply(st, l), size)
  {
    RolesStep(st, l);
    CountStep(st, l);
    hide Roles, Apply, Enabled;
  }

  lemma WorkersWork(q: JQ.State)
    ensures forall w | Works(q, w) :: w in q.workers
  {
  }

  lemma ComingStep(st: State, l: Label, size: nat)
    requires Users(st, size) && Enabled(st, l)
    ensures var c, c' := Coming(st), Coming(Apply(st, l));
      match l
      case Acquire(w) => w in c && c' == c - {w}
      case Wait(w) => true
      case Wake(w) => w !in c && c' == c + {w}
      case Release(w, v) => v.Some? ==> v.value !in c && c' == c + {v.value}
      case Inner(_) => c <= c'
  {
    hide JQ.Apply, JQ.Enabled, Works;
    if l.Inner? {
      SameWorkers(st.q, l.l);
      forall w <- Coming(st) ensures w in Coming(Apply(st, l)) {
        assert w in st.q.workers.Keys;
        WorksStep(st.q, l.l, w);
      }
    } else {
      assert forall w | Works(st.q, w) :: w in st.q.workers by {
        WorkersWork(st.q);
      }
    }
  }

  lemma SubsetSize(a: set<WorkerId>, b: set<WorkerId>)
    requires a <= b
    ensures |a| <= |b|
  {
    assert |b| == |a| + |b - a| by {
      assert a + (b - a) == b;
    }
  }

  lemma CoveredStep(st: State, l: Label, size: nat)
    requires Users(st, size) && Covered(st) && Enabled(st, l)
    ensures Covered(Apply(st, l))
  {
    ComingStep(st, l, size);
    hide JQ.Apply, JQ.Enabled, Works;
    if l.Inner? {
      SubsetSize(Coming(st), Coming(Apply(st, l)));
    }
    hide Coming, AtAcquire;
  }

  /** A worker that finds the pool empty is one of more workers than there are connections. */
  lemma MoreWorkers(st: State, size: nat, w: WorkerId)
    requires Users(st, size) && AtAcquire(st, w) && st.pool == []
    ensures |st.q.workers.Keys| > size
  {
    assert forall v <- st.held.Keys :: v in st.q.workers.Keys && v != w;
    SubsetSize(st.held.Keys, st.q.workers.Keys - {w});
    assert |st.held| == |st.held.Keys|;
  }

  lemma SizesStep(st: State, l: Label, size: nat)
    requires Users(st, size) && Ample(st, size) && Barren(st, size) && Enabled(st, l)
    ensures Ample(Apply(st, l), size) && Barren(Apply(st, l), size)
    ensures Apply(st, l).q.workers.Keys == st.q.workers.Keys
  {
    match l {
      case Wait(w) => MoreWorkers(st, size, w);
      case Inner(l) => SameWorkers(st.q, l);
      case _ =>
    }
    hide JQ.Apply, JQ.Enabled, Works;
  }

  lemma InvStep(st: State, l: Label, size: nat)
    requires Inv(st, size) && Enabled(st, l)
    ensures Inv(Apply(st, l), size)
  {
    hide Apply, Enabled, OnePlace, Users, Covered, Ample, Barren;
    OnePlaceStep(st, l, size);
    UsersStep(st, l, size);
    CoveredStep(st, l, size);
    SizesStep(st, l, size);
  }

  lemma InitInv(st: State, size: nat)
    requires Init(st, size)
    ensures Inv(st, size)
  {
    forall c: Connection | c < size ensures Owned(st, c) {
      assert At(st, c, Idle(c));
    }
  }

  lemma {:induction false} ExecutionInv(run: seq<State>, size: nat, i: nat)
    requires Execution(run, size) && i < |run|
    ensures Inv(run[i], size) && run[i].q.workers.Keys == run[0].q.workers.Keys
  {
    hide Enabled, Apply, Init, OnePlace, Users, Covered, Ample, Barren;
    if i == 0 {
      InitInv(run[0], size);
    } else {
      ExecutionInv(run, size, i - 1);
      assert Next(run[i - 1], run[i]);
      var l :| Enabled(run[i - 1], l) && run[i] == Apply(run[i - 1], l);
      InvStep(run[i - 1], l, size);
      SizesStep(run[i - 1], l, size);
    }
  }

  // ----- Main results, for every state of every run -----

  lemma Apart(st: State, size: nat)
    requires OnePlace(st, size)
    ensures forall a, b | 0 <= a < b < |st.pool| :: st.pool[a] != st.pool[b]
    ensures forall v <- st.held, v' <- st.held | v != v' :: st.held[v] != st.held[v']
    ensures forall v <- st.held :: st.held[v] !in st.pool
  {
    forall a, b | 0 <= a < b < |st.pool| ensures st.pool[a] != st.pool[b] {
      assert At(st, st.pool[a], Idle(a)) && At(st, st.pool[b], Idle(b));
    }
    forall v <- st.held, v' <- st.held | v != v' ensures st.held[v] != st.held[v'] {
      assert At(st, st.held[v], Held(v)) && At(st, st.held[v'], Held(v'));
    }
    forall v <- st.held, k | 0 <= k < |st.pool| ensures st.held[v] != st.pool[k] {
      assert At(st, st.held[v], Held(v)) && At(st, st.pool[k], Idle(k));
    }
  }

  /** Each connection is idle or held, in one place, by at most one worker in a query; and
    * with at least as many connections as workers, a worker that comes to Acquire finds one
    * and nobody ever sleeps. If the pool is empty, workers in a query hold all connections. */
  lemma PoolOwnership(run: seq<State>, size: nat, i: nat, c: Connection, w: WorkerId)
    requires Execution(run, size) && i < |run|
    ensures c < size <==> exists p :: At(run[i], c, p) && forall p' | At(run[i], c, p') :: p' == p
    ensures c < size <==> c in run[i].pool || exists v <- run[i].held :: run[i].held[v] == c
    ensures forall a, b | 0 <= a < b < |run[i].pool| :: run[i].pool[a] != run[i].pool[b]
    ensures forall v <- run[i].held, v' <- run[i].held | v != v' :: run[i].held[v] != run[i].held[v']
    ensures forall v <- run[i].held :: run[i].held[v] !in run[i].pool
    ensures |run[0].q.workers.Keys| <= size ==> run[i].asleep == {} && (AtAcquire(run[i], w) ==> run[i].pool != [])
    ensures run[i].pool == [] ==>
              |run[i].held| == size && forall v <- run[i].held :: v in run[i].q.workers && run[i].q.workers[v].Working?
  {
    var st := run[i];
    ExecutionInv(run, size, i);
    Apart(st, size);
    if c < size {
      assert Owned(st, c);
      var p :| At(st, c, p);
    }
    if v :| v in st.held && st.held[v] == c {
      assert At(st, c, Held(v));
    } else if c in st.pool {
      var k :| 0 <= k < |st.pool| && st.pool[k] == c;
      assert At(st, c, Idle(k));
    }
    if AtAcquire(st, w) && st.pool == [] {
      MoreWorkers(st, size, w);
    }
  }

  /** In a pool of any size but zero no wakeup is lost and no query waits for ever for
    * others to move: while a worker sleeps, each idle connection has an awake worker coming
    * for it, and whenever a worker is at Acquire, some worker can acquire or release. In a
    * pool of size zero - one that was never initialised - no job's work ever finishes. */
  lemma PoolServesIffNotEmpty(run: seq<State>, size: nat, i: nat, w: WorkerId)
    requires Execution(run, size) && i < |run|
    ensures run[i].asleep != {} ==> |run[i].pool| <= |Coming(run[i])|
    ensures run[i].asleep != {} && run[i].pool != [] ==>
              exists v <- run[i].q.workers :: run[i].q.workers[v].Working? && Enabled(run[i], Acquire(v))
    ensures var st := run[i];
      size > 0 && w in st.q.workers && st.q.workers[w].Working? && w !in st.held && w !in st.queried ==>
        exists l :: Enabled(st, l) && (l.Acquire? || l.Release?)
    ensures size == 0 ==> run[i].q.ran == []
  {
    var st := run[i];
    ExecutionInv(run, size, i);
    if st.asleep != {} && st.pool != [] {
      assert Coming(st) != {};
      var v :| v in Coming(st);
      assert Enabled(st, Acquire(v));
    }
    if size > 0 && AtAcquire(st, w) {
      if st.pool == [] {
        assert |st.held.Keys| == |st.held| > 0;
        var v :| v in st.held.Keys;
        var notified := if u :| u in st.asleep then Some(u) else None;
        assert Enabled(st, Release(v, notified));
      } else if w in st.asleep {
        assert Coming(st) != {};
        var v :| v in Coming(st);
        assert Enabled(st, Acquire(v));
      } else {
        assert Enabled(st, Acquire(w));
      }
    }
  }

  lemma Takes(st: State, l: Label, mid: State, st': State, n: nat)
    requires Enabled(st, l) && mid == Apply(st, l) && Reaches(Next, mid, st', n)
    ensures Reaches(Next, st, st', n + 1)
  {
    hide Enabled, Apply;
    assert Next(st, mid);
  }

  lemma BorrowSteps(st: State, w: WorkerId, notified: Option<WorkerId>) returns (a: State, b: State)
    requires AtAcquire(st, w) && w !in st.asleep && st.pool != []
    requires if notified.None? then st.asleep == {} else notified.value in st.asleep
    ensures Enabled(st, Acquire(w)) && a == Apply(st, Acquire(w))
    ensures Enabled(a, Release(w, notified)) && b == Apply(a, Release(w, notified))
    ensures b == st.(pool := st.pool[1..] + [st.pool[0]], queried := st.queried + {w},
                     asleep := st.asleep - if notified.None? then {} else {notified.value})
  {
    a := Apply(st, Acquire(w));
    b := Apply(a, Release(w, notified));
    assert b.held == st.held;
  }

  lemma WorkStep(st: State, w: WorkerId)
    requires Works(st.q, w) && w in st.queried
    ensures Enabled(st, Inner(JQ.RunWork(w)))
    ensures Apply(st, Inner(JQ.RunWork(w))) == st.(q := JQ.Apply(st.q, JQ.RunWork(w)), queried := st.queried - {w})
  {
    hide JQ.Apply;
  }

  /** Pool.QueryUserEvents in a job's work is a run of the protocol: a worker that finds a
    * connection, whoever sleeps, acquires it, releases it and finishes the work. It leaves
    * the pool as the method does, and wakes one of the sleepers. */
  lemma QueryRefines(st: State, w: WorkerId, notified: Option<WorkerId>) returns (st': State)
    requires w in st.q.workers && st.q.workers[w].Working? && w !in st.held && w !in st.queried
    requires w !in st.asleep && st.pool != []
    requires if notified.None? then st.asleep == {} else notified.value in st.asleep
    ensures Reaches(Next, st, st', 3) && JQ.Enabled(st.q, JQ.RunWork(w))
    ensures st' == st.(q := JQ.Apply(st.q, JQ.RunWork(w)), pool := st.pool[1..] + [st.pool[0]],
                       asleep := st.asleep - if notified.None? then {} else {notified.value})
  {
    var a, b := BorrowSteps(st, w, notified);
    WorkStep(b, w);
    assert JQ.Enabled(st.q, JQ.RunWork(w));
    hide Enabled, Apply, JQ.Apply, JQ.Enabled;
    st' := Apply(b, Inner(JQ.RunWork(w)));
    assert st.queried + {w} - {w} == st.queried;
    Takes(b, Inner(JQ.RunWork(w)), st', st', 0);
    hide Reaches;
    Takes(a, Release(w, notified), b, st', 1);
    Takes(st, Acquire(w), a, st', 2);
  }
}
