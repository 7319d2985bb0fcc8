/** IoCompletionPort::Stop and the worker loop's exit: one null completion per worker. */
module IocpShutdown {

  type WorkerId = nat

  datatype Item = Io | Null

  datatype Pc = Waiting | Handling | GotNull | Exited

  datatype State = State(
    running: bool,
    unposted: nat,     // null completions that Stop has still to post
    port: seq<Item>,
    workers: map<WorkerId, Pc>)

  datatype Label =
    | Arrive           // an I/O completes
    | Dequeue(w: WorkerId)
    | Examine(w: WorkerId)
    | Return(w: WorkerId)
    | ClearRunning
    | PostNull

  predicate Is(st: State, w: WorkerId, pc: Pc) {
    w in st.workers && st.workers[w] == pc
  }

  predicate Enabled(st: State, l: Label) {
    match l
    case Arrive => true
    case Dequeue(w) => Is(st, w, Waiting) && st.port != []
    case Examine(w) => Is(st, w, GotNull)
    case Return(w) => Is(st, w, Handling)
    case ClearRunning => st.running
    case PostNull => st.unposted > 0
  }

  function Apply(st: State, l: Label): State
    requires Enabled(st, l)
  {
    match l
    case Arrive => st.(port := st.port + [Io])
    case Dequeue(w) =>
      st.(port := st.port[1..], workers := st.workers[w := if st.port[0] == Null then GotNull else Handling])
    case Examine(w) => st.(workers := st.workers[w := if st.running then Waiting else Exited])
    case Return(w) => st.(workers := st.workers[w := Waiting])
    case ClearRunning => st.(running := false, unposted := |st.workers|)
    case PostNull => st.(unposted := st.unposted - 1, port := st.port + [Null])
  }

  predicate Init(st: State) {
    st.running && st.unposted == 0 && st.port == [] && forall w <- st.workers :: st.workers[w] == Waiting
  }

  ghost predicate Next(st: State, st': State) {
    exists l :: Enabled(st, l) && st' == Apply(st, l)
  }

  ghost predicate Execution(run: seq<State>) {
    && run != [] && Init(run[0])
    && forall i | 0 <= i < |run| - 1 :: Next(run[i], run[i + 1])
  }

  function Nulls(port: seq<Item>): nat {
    if port == [] then 0 else (if port[0] == Null then 1 else 0) + Nulls(port[1..])
  }

  function In(st: State, pc: Pc): set<WorkerId> {
    set w <- st.workers | st.workers[w] == pc
  }

  /** Workers that no token has reached yet. */
  function Unserved(st: State): set<WorkerId> {
    set w <- st.workers | st.workers[w].Waiting? || st.workers[w].Handling?
  }

  ghost predicate Inv(st: State) {
    if st.running
    then st.unposted == 0 && Nulls(st.port) == 0 && Unserved(st) == st.workers.Keys
    else |Unserved(st)| == Nulls(st.port) + st.unposted
  }

  lemma {:induction false} NullsSnoc(port: seq<Item>, item: Item)
    ensures Nulls(port + [item]) == Nulls(port) + if item == Null then 1 else 0
  {
    if port == [] {
    } else {
      assert (port + [item])[1..] == port[1..] + [item];
      NullsSnoc(port[1..], item);
    }
  }

  lemma {:induction false} NullIsIn(port: seq<Item>)
    ensures Nulls(port) > 0 ==> Null in port
  {
    if port == [] {
    } else {
      NullIsIn(port[1..]);
    }
  }

  lemma InvStep(st: State, l: Label)
    requires Inv(st) && Enabled(st, l)
    ensures Inv(Apply(st, l))
  {
    var st' := Apply(st, l);
    match l {
      case Arrive => NullsSnoc(st.port, Io); assert Unserved(st') == Unserved(st);
      case PostNull => NullsSnoc(st.port, Null); assert Unserved(st') == Unserved(st);
      case Dequeue(w) =>
        assert Unserved(st') == if st.port[0] == Null then Unserved(st) - {w} else Unserved(st);
      case Examine(w) =>
        assert w in st.workers.Keys && w !in Unserved(st);
        assert Unserved(st') == Unserved(st);
      case Return(w) => assert Unserved(st') == Unserved(st);
      case ClearRunning => assert Unserved(st') == Unserved(st);
    }
  }

  lemma {:induction false} ExecutionInv(run: seq<State>, i: nat)
    requires Execution(run) && i < |run|
    ensures Inv(run[i])
  {
    hide Apply, Enabled;
    if i == 0 {
    } else {
      ExecutionInv(run, i - 1);
      assert Next(run[i - 1], run[i]);
      var l :| Enabled(run[i - 1], l) && run[i] == Apply(run[i - 1], l);
      InvStep(run[i - 1], l);
    }
  }

  /** In every run, once running_ is cleared: the null completions queued and still to be
    * posted are exactly as many as the workers not yet reached by one. So no worker waits
    * in vain, and after the last exit none is left over. Before that, none exists. */
  lemma TokensMatchWorkers(run: seq<State>, i: nat, w: WorkerId)
    requires Execution(run) && i < |run|
    ensures var st := run[i];
      && (st.running ==> Nulls(st.port) == 0 && In(st, GotNull) == In(st, Exited) == {})
      && (!st.running ==> |In(st, Waiting) + In(st, Handling)| == Nulls(st.port) + st.unposted)
      && (!st.running && Is(st, w, Waiting) ==> Nulls(st.port) + st.unposted > 0)
      && (!st.running && In(st, Exited) == st.workers.Keys ==> Nulls(st.port) == 0 && st.unposted == 0)
  {
    var st := run[i];
    ExecutionInv(run, i);
    assert Unserved(st) == In(st, Waiting) + In(st, Handling);
    if st.running {
      forall v <- st.workers ensures v in Unserved(st) {
        assert v in st.workers.Keys;
      }
    } else if In(st, Exited) == st.workers.Keys {
      forall v <- st.workers ensures v !in Unserved(st) {
        assert v in st.workers.Keys;
      }
    } else if Is(st, w, Waiting) {
      assert w in Unserved(st);
    }
  }

  /** IoCompletionPort::Stop's joins return: once it has begun, every worker that has not
    * exited can go on, or Stop has a token to post; and with the last token posted, a waiting
    * worker never finds the port empty. */
  lemma SomeoneCanStep(run: seq<State>, i: nat, w: WorkerId)
    requires Execution(run) && i < |run| && !run[i].running
    requires w in run[i].workers && run[i].workers[w] != Exited
    ensures var st := run[i];
      Enabled(st, Dequeue(w)) || Enabled(st, Examine(w)) || Enabled(st, Return(w)) || Enabled(st, PostNull)
    ensures run[i].workers[w] == Waiting && run[i].unposted == 0 ==> Null in run[i].port
  {
    TokensMatchWorkers(run, i, w);
    if run[i].workers[w] == Waiting && run[i].unposted == 0 {
      NullIsIn(run[i].port);
    }
  }
}
