/** PacketRouter::HandleLogin joins the two protocols: a routed CS_LOGIN starts a load or is
  * refused, and the load's callback posts the acknowledgement on the same session. */
module LoginServer {
  import opened PacketDefs
  import opened Framing
  import opened UserEvents
  import SM = SessionModel
  import RP = RecvProtocol
  import EL = EventLoad
  import JQ = JobQueueProtocol

  type SessionId = RP.SessionId
  type JobId = JQ.JobId
  type UserId = EL.UserId

  /** The PostSend calls for SC_LOGIN_ACK, with 0 or with 1. */
  datatype Ack = Refused(s: SessionId) | Granted(s: SessionId, job: JobId)

  datatype State = State(recv: RP.State, load: EL.State,
                         owner: seq<SessionId>, // per job, the session that logged in
                         acks: seq<Ack>)

  /** `user` names the CUser that HandleLogin creates, if the step routes a login. */
  datatype Label = Net(n: RP.Label, user: UserId) | Db(d: EL.Label)

  datatype Routing = Nothing | Routes(s: SessionId, p: Packet)

  /** The packet that a receive step hands to PacketRouter::Route. */
  function Routed(st: RP.State, l: RP.Label): Routing
    requires RP.Enabled(st, l)
  {
    if !l.Turn? then Nothing
    else
      var (s, offset) := (st.workers[l.w].s, st.workers[l.w].offset);
      match ReadHead(st.sessions[s].accum[offset..])
      case Full(p, _) => Routes(s, p)
      case _ => Nothing
  }

  predicate Refuses(r: Routing) {
    r.Routes? && r.p.opcode == CS_LOGIN && !SM.IsLoad(r.p)
  }

  predicate Loads(r: Routing) {
    r.Routes? && SM.IsLoad(r.p)
  }

  function StartOf(r: Routing, user: UserId): EL.Label
    requires Loads(r)
  {
    EL.Start(SM.LoginUid(r.p), user, map[])
  }

  predicate Enabled(st: State, l: Label) {
    match l
    case Net(n, user) =>
      && RP.Enabled(st.recv, n)
      && (Loads(Routed(st.recv, n)) ==>
            user !in st.load.containers && EL.Enabled(st.load, StartOf(Routed(st.recv, n), user)))
    case Db(d) =>
      && EL.Enabled(st.load, d) && !d.Start?
      && (Calls(d) ==> st.load.q.ready != [] && st.load.q.ready[0] < |st.owner|)
  }

  /** The main thread finishes a callback: on_loaded posts the acknowledgement. */
  predicate Calls(d: EL.Label) {
    d == EL.Inner(JQ.Call)
  }

  function Apply(st: State, l: Label): State
    requires Enabled(st, l)
  {
    match l
    case Net(n, user) =>
      var r := Routed(st.recv, n);
      var st' := st.(recv := RP.Apply(st.recv, n));
      if Loads(r) then
        st'.(load := EL.Apply(st.load, StartOf(r, user)), owner := st.owner + [r.s])
      else if Refuses(r) then
        st'.(acks := st.acks + [Refused(r.s)])
      else st'
    case Db(d) =>
      var st' := st.(load := EL.Apply(st.load, d));
      if Calls(d) then
        var j := st.load.q.ready[0];
        st'.(acks := st.acks + [Granted(st.owner[j], j)])
      else st'
  }

  ghost predicate Init(st: State) {
    RP.Init(st.recv) && EL.Init(st.load) && st.load.containers == map[] && st.owner == [] && st.acks == []
  }

  ghost predicate Next(st: State, st': State) {
    exists l :: Enabled(st, l) && st' == Apply(st, l)
  }

  ghost predicate Execution(run: seq<State>) {
    && run != [] && Init(run[0])
    && forall i | 0 <= i < |run| - 1 :: Next(run[i], run[i + 1])
  }

  // ----- Counting logins and acknowledgements of one session -----

  function Logins(ps: seq<Packet>): nat {
    if ps == [] then 0
    else Logins(ps[..|ps| - 1]) + if ps[|ps| - 1].opcode == CS_LOGIN then 1 else 0
  }

  function RefusedAcks(acks: seq<Ack>, s: SessionId): nat {
    if acks == [] then 0
    else RefusedAcks(acks[..|acks| - 1], s) + if acks[|acks| - 1] == Refused(s) then 1 else 0
  }

  function GrantedAcks(acks: seq<Ack>, s: SessionId): nat {
    if acks == [] then 0
    else
      var last := acks[|acks| - 1];
      GrantedAcks(acks[..|acks| - 1], s) + if last.Granted? && last.s == s then 1 else 0
  }

  /** The loads of a session whose callback has not run. */
  function Open(st: State, s: SessionId): set<JobId> {
    set j | 0 <= j < |st.owner| && st.owner[j] == s && j !in st.load.q.called
  }

  /** The uids asked for on behalf of a session, in order. */
  function Asked(owner: seq<SessionId>, loads: seq<EL.Load>, s: SessionId): seq<nat>
    requires |owner| == |loads|
  {
    if owner == [] then []
    else
      var n := |owner| - 1;
      var before := Asked(owner[..n], loads[..n], s);
      if owner[n] == s then before + [loads[n].uid] else before
  }

  function RoutedOf(st: RP.State, s: SessionId): seq<Packet> {
    if s in st.sessions then st.sessions[s].routed else []
  }

  // ----- Invariant -----

  ghost predicate Balanced(st: State, s: SessionId)
    requires |st.owner| == |st.load.loads|
  {
    && Logins(RoutedOf(st.recv, s)) == RefusedAcks(st.acks, s) + GrantedAcks(st.acks, s) + |Open(st, s)|
    && Asked(st.owner, st.load.loads, s) == SM.Loads(RoutedOf(st.recv, s))
  }

  /** Every login has a user of its own, new and empty. */
  ghost predicate OwnUsers(st: EL.State) {
    && (forall j, k | 0 <= j < k < |st.loads| :: st.loads[j].user != st.loads[k].user)
    && (forall u <- st.initial :: st.initial[u] == map[])
  }

  ghost predicate AcksCalled(st: State) {
    forall a <- st.acks | a.Granted? :: a.job in st.load.q.called && a.job < |st.owner| && st.owner[a.job] == a.s
  }

  ghost predicate Inv(st: State) {
    && RP.Inv(st.recv) && EL.Inv(st.load) && |st.owner| == |st.load.loads|
    && (forall s :: Balanced(st, s))
    && OwnUsers(st.load) && AcksCalled(st)
  }

  // ----- What each half contributes to a step -----

  lemma RecvEffect(st: RP.State, l: RP.Label, s: SessionId)
    requires RP.Enabled(st, l)
    ensures var r := Routed(st, l);
      RoutedOf(RP.Apply(st, l), s) == if r.Routes? && r.s == s then RoutedOf(st, s) + [r.p] else RoutedOf(st, s)
  {
    hide ReadHead, Parse;
  }

  lemma LoadEffect(st: EL.State, l: EL.Label)
    requires EL.Enabled(st, l)
    ensures var st' := EL.Apply(st, l);
      && st'.loads == (if l.Start? then st.loads + [EL.Load(l.uid, l.user, |st.versions| - 1)] else st.loads)
      && st'.q.called == (if Calls(l) then st.q.called + [st.q.ready[0]] else st.q.called)
      && (Calls(l) ==> st.q.ready != [])
      && (if l.Start? && l.user !in st.containers then st'.initial == st.initial[l.user := l.events]
          else st'.initial == st.initial)
  {
    if l.Start? {
      EL.QueueEffect(st.q, JQ.Push(true));
    } else if l.Inner? {
      EL.QueueEffect(st.q, l.l);
    }
  }

  lemma CountSnoc(ps: seq<Packet>, p: Packet, acks: seq<Ack>, a: Ack, s: SessionId)
    ensures Logins(ps + [p]) == Logins(ps) + if p.opcode == CS_LOGIN then 1 else 0
    ensures RefusedAcks(acks + [a], s) == RefusedAcks(acks, s) + if a == Refused(s) then 1 else 0
    ensures GrantedAcks(acks + [a], s) == GrantedAcks(acks, s) + if a.Granted? && a.s == s then 1 else 0
  {
    assert (ps + [p])[..|ps|] == ps;
    assert (acks + [a])[..|acks|] == acks;
  }

  lemma AskedSnoc(owner: seq<SessionId>, loads: seq<EL.Load>, o: SessionId, load: EL.Load, s: SessionId)
    requires |owner| == |loads|
    ensures Asked(owner + [o], loads + [load], s) ==
            if o == s then Asked(owner, loads, s) + [load.uid] else Asked(owner, loads, s)
  {
    assert (owner + [o])[..|owner|] == owner && (loads + [load])[..|loads|] == loads;
  }

  /** What main-thread jobs are not: unfinished, or called before. */
  lemma FrontIsOpen(st: EL.State)
    requires EL.Inv(st)
    ensures forall j <- st.q.called :: j < |st.loads|
    ensures st.q.ready != [] ==> st.q.ready[0] < |st.loads| && st.q.ready[0] !in st.q.called
  {
    hide EL.CellsQueried, EL.ContainersLoaded;
    EL.KnownJobs(st.q);
    assert st.q.ready != [] ==> st.q.ready[0] in st.q.ready;
    if st.q.ready != [] && st.q.ready[0] in st.q.called {
      var c :| 0 <= c < |st.q.called| && st.q.called[c] == st.q.ready[0];
      JQ.CalledIsOver(st.q, st.q.ready[0], c);
    }
  }

  lemma OpenAfterLogin(st: State, st': State, o: SessionId, s: SessionId)
    requires st'.owner == st.owner + [o] && st'.load.q.called == st.load.q.called
    requires forall j <- st.load.q.called :: j < |st.owner|
    ensures |Open(st', s)| == |Open(st, s)| + if o == s then 1 else 0
  {
    assert Open(st', s) == if o == s then Open(st, s) + {|st.owner|} else Open(st, s);
  }

  lemma LoginBalanced(st: State, l: Label, s: SessionId)
    requires Inv(st) && Enabled(st, l) && l.Net? && Loads(Routed(st.recv, l.n))
    ensures |Apply(st, l).owner| == |Apply(st, l).load.loads|
    ensures Balanced(Apply(st, l), s)
  {
    hide RP.Inv, RP.Enabled, RP.Apply, EL.Enabled, EL.Apply, Routed, RoutedOf, Logins, RefusedAcks, GrantedAcks, Asked;
    var r, st' := Routed(st.recv, l.n), Apply(st, l);
    FrontIsOpen(st.load);
    hide EL.Inv;
    assert Balanced(st, s);
    RecvEffect(st.recv, l.n, s);
    LoadEffect(st.load, StartOf(r, l.user));
    var ps := RoutedOf(st.recv, s);
    CountSnoc(ps, r.p, [], Refused(s), s);
    SM.LoadsSnoc(ps, r.p);
    AskedSnoc(st.owner, st.load.loads, r.s, st'.load.loads[|st.owner|], s);
    OpenAfterLogin(st, st', r.s, s);
  }

  lemma OtherBalanced(st: State, l: Label, s: SessionId)
    requires Inv(st) && Enabled(st, l) && l.Net? && !Loads(Routed(st.recv, l.n))
    ensures Balanced(Apply(st, l), s)
  {
    hide RP.Inv, RP.Enabled, RP.Apply, EL.Inv, Routed, RoutedOf, Logins, RefusedAcks, GrantedAcks, Asked;
    var r, st' := Routed(st.recv, l.n), Apply(st, l);
    assert Balanced(st, s);
    RecvEffect(st.recv, l.n, s);
    assert Open(st', s) == Open(st, s);
    if r.Routes? {
      var ps := RoutedOf(st.recv, s);
      CountSnoc(ps, r.p, st.acks, Refused(r.s), s);
      SM.LoadsSnoc(ps, r.p);
    }
  }

  lemma LoadBalanced(st: State, l: Label, s: SessionId)
    requires Inv(st) && Enabled(st, l) && l.Db?
    ensures |Apply(st, l).owner| == |Apply(st, l).load.loads|
    ensures Balanced(Apply(st, l), s)
  {
    hide RP.Inv, EL.Enabled, EL.Apply, RoutedOf, Logins, RefusedAcks, GrantedAcks, Asked;
    var st' := Apply(st, l);
    FrontIsOpen(st.load);
    hide EL.Inv;
    assert Balanced(st, s);
    LoadEffect(st.load, l.d);
    if Calls(l.d) {
      var j := st.load.q.ready[0];
      CountSnoc([], SM.LOGIN_OK, st.acks, Granted(st.owner[j], j), s);
      assert Open(st', s) == Open(st, s) - {j};
    } else {
      assert Open(st', s) == Open(st, s);
    }
  }

  lemma OwnersStep(st: State, l: Label)
    requires Enabled(st, l) && |st.owner| == |st.load.loads|
    ensures |Apply(st, l).owner| == |Apply(st, l).load.loads|
  {
    hide RP.Enabled, RP.Apply, EL.Enabled, EL.Apply, Routed;
    match l {
      case Db(d) => LoadEffect(st.load, d);
      case Net(n, user) =>
        if Loads(Routed(st.recv, n)) {
          LoadEffect(st.load, StartOf(Routed(st.recv, n), user));
        }
    }
  }

  lemma UsersKnown(st: EL.State)
    requires EL.Inv(st)
    ensures forall k | 0 <= k < |st.loads| :: st.loads[k].user in st.containers
    ensures st.initial.Keys == st.containers.Keys
  {
    hide EL.CellsQueried, EL.ContainersLoaded, JQ.Inv;
    forall k | 0 <= k < |st.loads| ensures st.loads[k].user in st.containers {
      assert st.loads[k] in st.loads;
    }
  }

  lemma UsersStep(st: EL.State, l: EL.Label)
    requires EL.Inv(st) && EL.Enabled(st, l) && OwnUsers(st)
    requires l.Start? ==> l.user !in st.containers && l.events == map[]
    ensures OwnUsers(EL.Apply(st, l))
  {
    hide EL.Enabled, EL.Apply;
    UsersKnown(st);
    hide EL.Inv;
    LoadEffect(st, l);
  }

  lemma OwnUsersStep(st: State, l: Label)
    requires Inv(st) && Enabled(st, l)
    ensures OwnUsers(Apply(st, l).load)
  {
    hide RP.Inv, RP.Enabled, RP.Apply, EL.Inv, EL.Enabled, EL.Apply, Routed, Balanced, OwnUsers;
    match l {
      case Db(d) => UsersStep(st.load, d);
      case Net(n, user) =>
        if Loads(Routed(st.recv, n)) {
          UsersStep(st.load, StartOf(Routed(st.recv, n), user));
        }
    }
  }

  lemma AcksStep(st: State, l: Label)
    requires AcksCalled(st) && Enabled(st, l)
    ensures AcksCalled(Apply(st, l))
  {
    hide RP.Enabled, RP.Apply, EL.Enabled, EL.Apply, Routed;
    match l {
      case Db(d) => LoadEffect(st.load, d);
      case Net(n, user) =>
        if Loads(Routed(st.recv, n)) {
          LoadEffect(st.load, StartOf(Routed(st.recv, n), user));
        }
    }
  }

  lemma InvStep(st: State, l: Label)
    requires Inv(st) && Enabled(st, l)
    ensures Inv(Apply(st, l))
  {
    hide RP.Inv, RP.Enabled, RP.Apply, EL.Inv, EL.Enabled, EL.Apply, Routed, Balanced, OwnUsers, AcksCalled;
    OwnersStep(st, l);
    OwnUsersStep(st, l);
    AcksStep(st, l);
    match l {
      case Db(d) => EL.InvStep(st.load, d);
      case Net(n, user) =>
        RP.InvStep(st.recv, n);
        if Loads(Routed(st.recv, n)) {
          EL.InvStep(st.load, StartOf(Routed(st.recv, n), user));
        }
    }
    forall s
      ensures Balanced(Apply(st, l), s)
    {
      if l.Db? {
        LoadBalanced(st, l, s);
      } else if Loads(Routed(st.recv, l.n)) {
        LoginBalanced(st, l, s);
      } else {
        OtherBalanced(st, l, s);
      }
    }
  }

  lemma RecvInit(st: RP.State)
    requires RP.Init(st)
    ensures RP.Inv(st) && st.sessions == map[]
  {
  }

  lemma InitInv(st: State)
    requires Init(st)
    ensures Inv(st)
  {
    EL.InitInv(st.load);
    RecvInit(st.recv);
    hide RP.Inv, RP.Init, EL.Inv, JQ.Init;
    forall s ensures Balanced(st, s) {
      assert Open(st, s) == {};
    }
  }

  lemma {:induction false} ExecutionInv(run: seq<State>, i: nat)
    requires Execution(run) && i < |run|
    ensures Inv(run[i])
  {
    hide Inv, Init, Enabled, Apply;
    if i == 0 {
      InitInv(run[0]);
    } else {
      ExecutionInv(run, i - 1);
      assert Next(run[i - 1], run[i]);
      var l :| Enabled(run[i - 1], l) && run[i] == Apply(run[i - 1], l);
      InvStep(run[i - 1], l);
    }
  }

  // ----- Main results, for every state of every run -----

  /** Conservation, from bytes to acknowledgements: for each session, the CS_LOGIN packets
    * routed are as many as the refusals and grants posted on it and its loads still under
    * way; and the loads are for the uids of its accepted logins, in order. For a session
    * that waits for data, the packets routed are those of its whole byte stream. */
  lemma LoginConservation(run: seq<State>, i: nat, s: SessionId)
    requires Execution(run) && i < |run| && s in run[i].recv.sessions
    ensures var st := run[i]; var ses := st.recv.sessions[s];
      && |st.owner| == |st.load.loads|
      && Logins(ses.routed) == RefusedAcks(st.acks, s) + GrantedAcks(st.acks, s) + |Open(st, s)|
      && Asked(st.owner, st.load.loads, s) == SM.Loads(ses.routed)
      && (s in st.recv.armed ==> ses.routed == Parse(ses.stream).packets)
  {
    ExecutionInv(run, i);
    var st := run[i];
    assert Balanced(st, s);
    hide EL.Inv;
    if s in st.recv.armed {
      assert RP.At(st.recv, s, RP.Kernel);
      assert st.recv.sessions[s].routed + [] == st.recv.sessions[s].routed;
    }
  }

  /** A load under way is in exactly one place: queued, with a worker, completed or ready. */
  lemma OpenLoadIsSomewhere(run: seq<State>, i: nat, s: SessionId, j: JobId)
    requires Execution(run) && i < |run| && j in Open(run[i], s)
    ensures exists p :: JQ.At(run[i].load.q, j, p) && !p.Called? && !p.Retired? &&
              forall q | JQ.At(run[i].load.q, j, q) :: q == p
  {
    ExecutionInv(run, i);
    var q := run[i].load.q;
    hide RP.Inv, EL.CellsQueried, EL.ContainersLoaded;
    assert JQ.Lives(q, j);
    var p :| JQ.At(q, j, p);
    assert p.Retired? ==> j in q.retired;
    assert p.Called? ==> j in q.called;
  }

  /** A login is granted on its own session, and only after the CUser that it created holds
    * exactly the rows that the table held for its uid. */
  lemma GrantedAfterLoad(run: seq<State>, i: nat, s: SessionId, j: JobId)
    requires Execution(run) && i < |run| && Granted(s, j) in run[i].acks
    ensures var st := run[i];
      && j < |st.owner| && st.owner[j] == s && j < |st.load.loads| && j < |st.load.cells|
      && st.load.loads[j].user in st.load.containers
      && st.load.containers[st.load.loads[j].user] == Overlay(map[], st.load.cells[j])
      && EL.Queried(st.load.loads[j], st.load.cells[j], st.load.versions)
  {
    ExecutionInv(run, i);
    hide RP.Inv;
    EL.LoadedAloneInv(run[i].load, j);
  }
}
