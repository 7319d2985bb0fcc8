/** RecvProtocol and SendProtocol on the same sessions: closed_ is one flag, and the entry in
  * the completion port's map goes away only when a worker handles a failed completion. */
module SessionLifetime {
  import opened Framing
  import opened PacketDefs
  import RP = RecvProtocol
  import SP = SendProtocol

  type SessionId = RP.SessionId
  type WorkerId = RP.WorkerId

  datatype State = State(recv: RP.State, sends: map<SessionId, SP.State>)

  datatype Label = Recv(l: RP.Label) | Send(s: SessionId, k: SP.Label)

  /** A completion of a session that is not mapped is dropped; Close is the send side's. */
  predicate Enabled(st: State, l: Label) {
    match l
    case Recv(l) => RP.Enabled(st.recv, l) && !l.Close? && !l.Unmap?
    case Send(s, k) =>
      && s in st.recv.sessions && s in st.sends && SP.Enabled(st.sends[s], k)
      && (k.SendComplete? ==> st.recv.sessions[s].mapped)
      && (k.Drop? ==> !st.recv.sessions[s].mapped)
  }

  /** The send side sees that the receive side has closed the session. */
  function Follow(side: SP.State, closed: bool): SP.State {
    if closed then SP.Apply(side, SP.Close) else side
  }

  /** The receive side sees what a step of the send side did to closed_ and to the map. */
  function After(ses: RP.Session, closed: bool, k: SP.Label): RP.Session {
    ses.(closed := closed, mapped := ses.mapped && !k.CloseOnFailure?)
  }

  function Apply(st: State, l: Label): State
    requires Enabled(st, l)
  {
    match l
    case Recv(l) =>
      var recv := RP.Apply(st.recv, l);
      State(recv, map s <- recv.sessions ::
        Follow(if s in st.sends then st.sends[s] else SP.INIT, recv.sessions[s].closed))
    case Send(s, k) =>
      var side := SP.Apply(st.sends[s], k);
      State(RP.Update(st.recv, s, After(st.recv.sessions[s], side.side.closed, k)), st.sends[s := side])
  }

  predicate Init(st: State) {
    RP.Init(st.recv) && st.sends == map[]
  }

  ghost predicate Next(st: State, st': State) {
    exists l :: Enabled(st, l) && st' == Apply(st, l)
  }

  ghost predicate Execution(run: seq<State>) {
    && run != [] && Init(run[0])
    && forall i | 0 <= i < |run| - 1 :: Next(run[i], run[i + 1])
  }

  // ----- Invariant -----

  predicate Agree(st: State) {
    && st.sends.Keys == st.recv.sessions.Keys
    && forall s <- st.sends :: st.sends[s].side.closed == st.recv.sessions[s].closed
  }

  ghost predicate Sends(st: State) {
    forall s <- st.sends :: SP.Inv(st.sends[s])
  }

  /** Only closed sessions are unmapped. */
  predicate Mapped(st: State) {
    forall s <- st.recv.sessions :: !st.recv.sessions[s].mapped ==> st.recv.sessions[s].closed
  }

  ghost predicate Inv(st: State) {
    RP.Inv(st.recv) && Agree(st) && Sends(st) && Mapped(st)
  }

  lemma FlagsStep(st: RP.State, l: RP.Label, s: SessionId)
    requires RP.Enabled(st, l) && !l.Unmap? && s in st.sessions && l != RP.Accept(s)
    ensures s in RP.Apply(st, l).sessions
    ensures var ses, ses' := st.sessions[s], RP.Apply(st, l).sessions[s];
      && (ses.closed ==> ses'.closed)
      && (!ses.mapped ==> !ses'.mapped)
      && (!ses'.mapped ==> !ses.mapped || ses'.closed)
  {
    hide ReadHead;
  }

  lemma SessionsStep(st: RP.State, l: RP.Label, s: SessionId)
    requires RP.Enabled(st, l) && s in RP.Apply(st, l).sessions
    ensures s in st.sessions || (l == RP.Accept(s) && RP.Apply(st, l).sessions[s] == RP.NEW_SESSION)
  {
    hide ReadHead;
  }

  lemma FlagStep(st: State, l: RP.Label, s: SessionId)
    requires Agree(st) && Mapped(st) && Enabled(st, Recv(l)) && s in RP.Apply(st.recv, l).sessions
    ensures var st' := Apply(st, Recv(l));
      && s in st'.sends && st'.sends[s].side.closed == st'.recv.sessions[s].closed
      && (!st'.recv.sessions[s].mapped ==> st'.recv.sessions[s].closed)
  {
    SessionsStep(st.recv, l, s);
    if s in st.recv.sessions {
      assert s in st.sends.Keys;
      FlagsStep(st.recv, l, s);
    }
    hide RP.Apply, RP.Enabled;
  }

  lemma CloseGrows(side: SP.State, k: SP.Label)
    requires SP.Enabled(side, k)
    ensures side.side.closed ==> SP.Apply(side, k).side.closed
    ensures k.CloseOnFailure? ==> SP.Apply(side, k).side.closed
  {
  }

  lemma FlagsAgreeStep(st: State, l: Label)
    requires Agree(st) && Mapped(st) && Enabled(st, l)
    ensures Agree(Apply(st, l)) && Mapped(Apply(st, l))
  {
    match l {
      case Recv(l) =>
        forall s <- RP.Apply(st.recv, l).sessions
          ensures var st' := Apply(st, Recv(l));
            && s in st'.sends && st'.sends[s].side.closed == st'.recv.sessions[s].closed
            && (!st'.recv.sessions[s].mapped ==> st'.recv.sessions[s].closed)
        {
          FlagStep(st, l, s);
        }
      case Send(s, k) => CloseGrows(st.sends[s], k);
    }
    hide RP.Apply, RP.Enabled, SP.Apply, SP.Enabled;
  }

  lemma FollowInv(side: SP.State, closed: bool)
    requires SP.Inv(side)
    ensures SP.Inv(Follow(side, closed))
  {
    SP.InvStep(side, SP.Close);
    hide SP.Inv;
  }

  lemma SendsStep(st: State, l: Label)
    requires Sends(st) && Enabled(st, l)
    ensures Sends(Apply(st, l))
  {
    hide RP.Apply, RP.Enabled, SP.Inv, SP.Enabled;
    match l {
      case Recv(l) =>
        SP.InitInv();
        var recv := RP.Apply(st.recv, l);
        forall s <- recv.sessions ensures SP.Inv(Apply(st, Recv(l)).sends[s]) {
          FollowInv(if s in st.sends then st.sends[s] else SP.INIT, recv.sessions[s].closed);
        }
      case Send(s, k) =>
        SP.InvStep(st.sends[s], k);
        hide SP.Apply;
    }
  }

  /** To the receive side a step of the send side is a Close, an Unmap, or nothing. */
  lemma SendIsRecvSteps(st: RP.State, s: SessionId, closed: bool, k: SP.Label)
    requires RP.Inv(st) && s in st.sessions && (st.sessions[s].closed ==> closed)
    ensures RP.Inv(RP.Update(st, s, After(st.sessions[s], closed, k)))
  {
    hide RP.Inv;
    var st' := RP.Update(st, s, After(st.sessions[s], closed, k));
    var a := if closed then RP.Apply(st, RP.Close(s)) else st;
    assert a == RP.Update(st, s, st.sessions[s].(closed := closed));
    RP.InvStep(st, RP.Close(s));
    if k.CloseOnFailure? {
      RP.InvStep(a, RP.Unmap(s));
      assert st' == RP.Apply(a, RP.Unmap(s));
    } else {
      assert st' == a;
    }
  }

  lemma InvStep(st: State, l: Label)
    requires Inv(st) && Enabled(st, l)
    ensures Inv(Apply(st, l))
  {
    FlagsAgreeStep(st, l);
    SendsStep(st, l);
    hide RP.Inv, Sends, Mapped, RP.Apply, RP.Enabled, SP.Enabled, SP.Apply;
    match l {
      case Recv(l) => RP.InvStep(st.recv, l);
      case Send(s, k) =>
        CloseGrows(st.sends[s], k);
        SendIsRecvSteps(st.recv, s, SP.Apply(st.sends[s], k).side.closed, k);
    }
  }

  lemma InitInv(st: State)
    requires Init(st)
    ensures Inv(st)
  {
  }

  lemma {:induction false} ExecutionInv(run: seq<State>, i: nat)
    requires Execution(run) && i < |run|
    ensures Inv(run[i])
  {
    hide Inv, Init, Enabled, Apply;
    if i == 0 {
      InitInv(run[0]);
    } else {
      ExecutionInv(run, i - 1);
      assert Next(run[i - 1], run[i]);
      var l :| Enabled(run[i - 1], l) && run[i] == Apply(run[i - 1], l);
      InvStep(run[i - 1], l);
    }
  }

  // ----- Which closed sessions are forgotten -----

  /** Handling it closes and unmaps the session. */
  predicate Fails(c: RP.Completion) {
    !c.ok || c.n == 0
  }

  predicate RecvMayUnmap(st: RP.State, s: SessionId) {
    || s in st.armed
    || (exists c <- st.port :: c.s == s && Fails(c))
    || (exists w <- st.workers :: FailedAt(st.workers[w], s))
  }

  predicate FailedAt(pc: RP.Pc, s: SessionId) {
    pc.Dispatching? && pc.c.s == s && Fails(pc.c)
  }

  predicate SendMayUnmap(side: SP.State) {
    side.wire != [] || side.failed > 0
  }

  /** An operation of the session is outstanding, or has failed and is not yet handled. */
  predicate MayUnmap(st: State, s: SessionId) {
    RecvMayUnmap(st.recv, s) || (s in st.sends && SendMayUnmap(st.sends[s]))
  }

  /** The step completes an operation of the session successfully. */
  predicate Delivers(l: Label, s: SessionId) {
    (l.Recv? && l.l.Deliver? && l.l.s == s) || (l.Send? && l.k.Deliver? && l.s == s)
  }

  predicate IsClosed(st: State, s: SessionId) {
    s in st.recv.sessions && st.recv.sessions[s].closed && s in st.sends && st.sends[s].side.closed
  }

  predicate IsMapped(st: State, s: SessionId) {
    s in st.recv.sessions && st.recv.sessions[s].mapped
  }

  lemma ClosedStep(st: State, l: Label, s: SessionId)
    requires Agree(st) && Mapped(st) && IsClosed(st, s) && Enabled(st, l)
    ensures IsClosed(Apply(st, l), s)
  {
    FlagsAgreeStep(st, l);
    match l {
      case Recv(l) => FlagsStep(st.recv, l, s);
      case Send(s', k) => if s == s' { CloseGrows(st.sends[s], k); }
    }
    hide RP.Apply, RP.Enabled, SP.Apply, SP.Enabled;
  }

  /** A closed session begins no operation. */
  lemma RecvNotAgain(st: RP.State, l: RP.Label, s: SessionId)
    requires RP.Enabled(st, l) && s in st.sessions && st.sessions[s].closed && !l.Unmap?
    requires !RecvMayUnmap(st, s)
    ensures !RecvMayUnmap(RP.Apply(st, l), s)
    ensures s in RP.Apply(st, l).sessions && RP.Apply(st, l).sessions[s].mapped == st.sessions[s].mapped
  {
    hide ReadHead;
  }

  lemma SendNotAgain(side: SP.State, k: SP.Label)
    requires SP.Enabled(side, k) && side.side.closed && !SendMayUnmap(side)
    ensures !SendMayUnmap(SP.Apply(side, k)) && !k.CloseOnFailure?
  {
  }

  lemma ForgottenStep(st: State, l: Label, s: SessionId)
    requires IsClosed(st, s) && Enabled(st, l) && !MayUnmap(st, s)
    ensures !MayUnmap(Apply(st, l), s) && IsMapped(Apply(st, l), s) == IsMapped(st, s)
  {
    match l {
      case Recv(l) => RecvNotAgain(st.recv, l, s);
      case Send(s', k) => if s == s' { SendNotAgain(st.sends[s], k); }
    }
    hide RP.Apply, RP.Enabled, SP.Apply, SP.Enabled;
  }

  /** Unless it succeeds, an operation goes on to fail, and its handling unmaps. */
  lemma RecvFailsOn(st: RP.State, l: RP.Label, s: SessionId)
    requires RP.Enabled(st, l) && s in st.sessions && RecvMayUnmap(st, s)
    requires !(l.Deliver? && l.s == s)
    ensures s in RP.Apply(st, l).sessions
    ensures RecvMayUnmap(RP.Apply(st, l), s) || !RP.Apply(st, l).sessions[s].mapped
  {
    hide ReadHead;
    var st' := RP.Apply(st, l);
    if s in st.armed {
      if l.Finish? && l.s == s {
        assert st'.port[|st.port|] in st'.port;
      }
    } else if c :| c in st.port && c.s == s && Fails(c) {
      if l.Dequeue? {
        assert st.port == [st.port[0]] + st.port[1..];
        assert c == st.port[0] ==> FailedAt(st'.workers[l.w], s);
        assert c in st.port[1..] ==> c in st'.port;
      } else {
        assert c in st'.port;
      }
    } else {
      var w :| w in st.workers && FailedAt(st.workers[w], s);
      if l != RP.Dispatch(w) {
        assert st'.workers[w] == st.workers[w];
      }
    }
  }

  lemma SendFailsOn(side: SP.State, k: SP.Label)
    requires SP.Enabled(side, k) && SendMayUnmap(side) && !k.Deliver?
    ensures SendMayUnmap(SP.Apply(side, k)) || k.CloseOnFailure?
  {
  }

  lemma UnmappedStep(st: State, l: Label, s: SessionId)
    requires IsClosed(st, s) && Enabled(st, l) && !Delivers(l, s)
    requires MayUnmap(st, s) || !IsMapped(st, s)
    ensures MayUnmap(Apply(st, l), s) || !IsMapped(Apply(st, l), s)
  {
    match l {
      case Recv(l) =>
        FlagsStep(st.recv, l, s);
        if RecvMayUnmap(st.recv, s) {
          RecvFailsOn(st.recv, l, s);
        }
      case Send(s', k) =>
        if s == s' && SendMayUnmap(st.sends[s]) {
          SendFailsOn(st.sends[s], k);
        }
    }
    hide RP.Apply, RP.Enabled, SP.Apply, SP.Enabled;
  }

  lemma {:induction false} ForgottenForever(run: seq<State>, i: nat, k: nat, s: SessionId)
    requires Execution(run) && i <= k < |run| && IsClosed(run[i], s) && !MayUnmap(run[i], s)
    ensures IsClosed(run[k], s) && !MayUnmap(run[k], s) && IsMapped(run[k], s) == IsMapped(run[i], s)
  {
    hide Enabled, Apply, IsClosed, IsMapped, MayUnmap, Init;
    if k == i {
    } else {
      ForgottenForever(run, i, k - 1, s);
      ExecutionInv(run, k - 1);
      assert Next(run[k - 1], run[k - 1 + 1]);
      var l :| Enabled(run[k - 1], l) && run[k] == Apply(run[k - 1], l);
      ForgottenStep(run[k - 1], l, s);
      ClosedStep(run[k - 1], l, s);
    }
  }

  /** A step that does not complete an operation of the session successfully. */
  ghost predicate Quiet(st: State, st': State, s: SessionId) {
    exists l :: Enabled(st, l) && st' == Apply(st, l) && !Delivers(l, s)
  }

  lemma {:induction false} FailsOn(run: seq<State>, i: nat, k: nat, s: SessionId)
    requires Execution(run) && i <= k < |run| && IsClosed(run[i], s)
    requires MayUnmap(run[i], s) || !IsMapped(run[i], s)
    requires forall m | i <= m < k :: Quiet(run[m], run[m + 1], s)
    ensures IsClosed(run[k], s) && (MayUnmap(run[k], s) || !IsMapped(run[k], s))
  {
    hide Enabled, Apply, Delivers, IsClosed, IsMapped, MayUnmap, Execution;
    if k == i {
    } else {
      FailsOn(run, i, k - 1, s);
      ExecutionInv(run, k - 1);
      assert Quiet(run[k - 1], run[k - 1 + 1], s);
      var l :| Enabled(run[k - 1], l) && run[k] == Apply(run[k - 1], l) && !Delivers(l, s);
      UnmappedStep(run[k - 1], l, s);
      ClosedStep(run[k - 1], l, s);
    }
  }

  // ----- Main results -----

  /** A closed session that is still mapped, once none of its operations is left: it has been
    * unmapped if one was outstanding, or had failed unhandled, at the moment considered, as
    * the kernel fails the operations of a closed socket; and if none was, it never is. */
  lemma ClosedSessionUnmapped(run: seq<State>, i: nat, k: nat, s: SessionId)
    requires Execution(run) && i <= k < |run| && IsClosed(run[i], s) && IsMapped(run[i], s)
    requires forall m | i <= m < k :: Quiet(run[m], run[m + 1], s)
    requires !MayUnmap(run[k], s)
    ensures !IsMapped(run[k], s) <==> MayUnmap(run[i], s)
  {
    hide Execution, Quiet, IsClosed, IsMapped, MayUnmap;
    if MayUnmap(run[i], s) {
      FailsOn(run, i, k, s);
    } else {
      ForgottenForever(run, i, k, s);
    }
  }

  /** While a worker parses for the session, nothing else of its receive side is left. */
  lemma TokenHeld(st: RP.State, w: WorkerId, s: SessionId, offset: nat)
    requires RP.Inv(st) && w in st.workers && st.workers[w] == RP.Parsing(s, offset)
    ensures !RecvMayUnmap(st, s)
  {
    hide RP.Sound, RP.InOrder;
    assert RP.At(st, s, RP.Worker(w));
    assert !RP.At(st, s, RP.Kernel);
    forall c <- st.port ensures c.s != s {
      var k :| 0 <= k < |st.port| && st.port[k] == c;
      assert !RP.At(st, s, RP.Port(k));
    }
    forall v <- st.workers | v != w ensures !FailedAt(st.workers[v], s) {
      assert !RP.At(st, s, RP.Worker(v));
    }
  }

  lemma BadTurnEffect(st: RP.State, w: WorkerId, s: SessionId, offset: nat)
    requires RP.Enabled(st, RP.Turn(w)) && st.workers[w] == RP.Parsing(s, offset)
    requires ReadHead(st.sessions[s].accum[offset..]) == Bad
    ensures var st' := RP.Apply(st, RP.Turn(w));
      && s in st'.sessions && st'.sessions[s] == st.sessions[s].(bad := true, closed := true)
      && (!RecvMayUnmap(st, s) ==> !RecvMayUnmap(st', s))
  {
    hide ReadHead;
  }

  lemma BadTurn(st: State, w: WorkerId, s: SessionId, offset: nat)
    requires RP.Inv(st.recv) && RP.Enabled(st.recv, RP.Turn(w)) && st.recv.workers[w] == RP.Parsing(s, offset)
    requires s in st.sends && ReadHead(st.recv.sessions[s].accum[offset..]) == Bad
    ensures Enabled(st, Recv(RP.Turn(w)))
    ensures var st' := Apply(st, Recv(RP.Turn(w)));
      && IsClosed(st', s) && IsMapped(st', s) == IsMapped(st, s)
      && (MayUnmap(st', s) <==> SendMayUnmap(st.sends[s]))
  {
    hide ReadHead, RP.Inv;
    BadTurnEffect(st.recv, w, s, offset);
    TokenHeld(st.recv, w, s, offset);
    hide RP.Apply, RP.Enabled, RecvMayUnmap;
  }

  /** A session that is closed for a bad length stays in the completion port's map for ever,
    * unless a send of it was outstanding, or had failed unhandled, at that moment. */
  lemma BadLengthIsForgotten(run: seq<State>, i: nat, k: nat, w: WorkerId, s: SessionId, offset: nat)
    requires Execution(run) && i < k < |run| && Enabled(run[i], Recv(RP.Turn(w)))
    requires run[i].recv.workers[w] == RP.Parsing(s, offset) && run[i + 1] == Apply(run[i], Recv(RP.Turn(w)))
    requires ReadHead(run[i].recv.sessions[s].accum[offset..]) == Bad && IsMapped(run[i], s)
    ensures s in run[i].sends
    ensures !SendMayUnmap(run[i].sends[s]) ==> IsMapped(run[k], s)
    ensures (forall m | i < m < k :: Quiet(run[m], run[m + 1], s)) && !MayUnmap(run[k], s) ==>
              (!IsMapped(run[k], s) <==> SendMayUnmap(run[i].sends[s]))
  {
    ExecutionInv(run, i);
    assert s in run[i].sends.Keys;
    BadTurn(run[i], w, s, offset);
    hide Enabled, Apply, IsClosed, IsMapped, MayUnmap, SendMayUnmap, Quiet, Inv, Init;
    if !SendMayUnmap(run[i].sends[s]) {
      ForgottenForever(run, i + 1, k, s);
    }
    if (forall m | i < m < k :: Quiet(run[m], run[m + 1], s)) && !MayUnmap(run[k], s) {
      ClosedSessionUnmapped(run, i + 1, k, s);
    }
  }

  // ----- It happens -----

  const NO_SIZE: seq<Byte> := [0, 0, 0, 0]

  /** One worker, and one session that nobody sends on. */
  function Lone(ses: RP.Session, accepting: bool, armed: bool, port: seq<RP.Completion>, pc: RP.Pc): State {
    State(RP.State(map[0 := ses], if accepting then {0} else {}, if armed then {0} else {}, port, map[0 := pc]),
          map[0 := Follow(SP.INIT, ses.closed)])
  }

  /** Its token is with the worker, or nowhere. */
  function Alone(ses: RP.Session, pc: RP.Pc): State {
    Lone(ses, false, false, [], pc)
  }

  lemma LoneStep(st: State, l: RP.Label, st': State)
    requires Enabled(st, Recv(l)) && RP.Apply(st.recv, l) == st'.recv
    requires st'.recv.sessions.Keys == st'.sends.Keys == {0}
    requires (0 in st.sends ==> st.sends[0] == SP.INIT) && st'.sends[0] == Follow(SP.INIT, st'.recv.sessions[0].closed)
    ensures Next(st, st')
  {
    hide RP.Apply, RP.Enabled;
    assert Apply(st, Recv(l)).sends == st'.sends;
  }

  const FIRST := RP.NEW_SESSION
  const FILLED := FIRST.(stream := NO_SIZE, buffer := NO_SIZE)
  const FULL := FILLED.(accum := NO_SIZE)
  const DROPPED := FULL.(bad := true, closed := true)
  const RECEIVED := RP.Completion(0, 4, true)
  const NOBODY := State(RP.State(map[], {}, {}, [], map[0 := RP.Waiting]), map[])

  lemma Arrives()
    ensures Next(NOBODY, Lone(FIRST, true, false, [], RP.Waiting))
    ensures Next(Lone(FIRST, true, false, [], RP.Waiting), Lone(FIRST, false, true, [], RP.Waiting))
  {
    hide Next;
    LoneStep(NOBODY, RP.Accept(0), Lone(FIRST, true, false, [], RP.Waiting));
    LoneStep(Lone(FIRST, true, false, [], RP.Waiting), RP.FirstPost(0, true), Lone(FIRST, false, true, [], RP.Waiting));
  }

  lemma Receives()
    ensures Next(Lone(FIRST, false, true, [], RP.Waiting), Lone(FILLED, false, false, [RECEIVED], RP.Waiting))
  {
    hide Next;
    var st := Lone(FIRST, false, true, [], RP.Waiting);
    assert st.recv.armed - {0} == {} && RP.Overwrite([], NO_SIZE) == NO_SIZE;
    assert FIRST.stream + NO_SIZE == NO_SIZE && st.recv.port + [RECEIVED] == [RECEIVED];
    LoneStep(st, RP.Deliver(0, NO_SIZE), Lone(FILLED, false, false, [RECEIVED], RP.Waiting));
  }

  lemma Dispatches()
    ensures Next(Lone(FILLED, false, false, [RECEIVED], RP.Waiting), Alone(FILLED, RP.Dispatching(RECEIVED)))
    ensures Next(Alone(FILLED, RP.Dispatching(RECEIVED)), Alone(FILLED, RP.Appending(0, 4)))
  {
    hide Next;
    var st := Alone(FILLED, RP.Dispatching(RECEIVED));
    LoneStep(Lone(FILLED, false, false, [RECEIVED], RP.Waiting), RP.Dequeue(0), st);
    LoneStep(st, RP.Dispatch(0), Alone(FILLED, RP.Appending(0, 4)));
  }

  lemma Appends()
    ensures Next(Alone(FILLED, RP.Appending(0, 4)), Alone(FULL, RP.Parsing(0, 0)))
  {
    hide Next;
    assert FILLED.accum + FILLED.buffer[..4] == NO_SIZE;
    LoneStep(Alone(FILLED, RP.Appending(0, 4)), RP.Append(0), Alone(FULL, RP.Parsing(0, 0)));
  }

  lemma Drops()
    ensures Next(Alone(FULL, RP.Parsing(0, 0)), Alone(DROPPED, RP.Waiting))
  {
    hide Next;
    assert ReadHead(NO_SIZE[0..]) == Bad;
    LoneStep(Alone(FULL, RP.Parsing(0, 0)), RP.Turn(0), Alone(DROPPED, RP.Waiting));
  }

  lemma LoneForgotten()
    ensures var st := Alone(DROPPED, RP.Waiting);
      IsClosed(st, 0) && IsMapped(st, 0) && !MayUnmap(st, 0)
  {
  }

  /** A header of size zero, with nothing being sent, leaves the session in the map. */
  lemma ForgottenExists()
    ensures exists run :: Execution(run) && var st := run[|run| - 1];
              IsClosed(st, 0) && IsMapped(st, 0) && !MayUnmap(st, 0)
  {
    Arrives();
    Receives();
    Dispatches();
    Appends();
    Drops();
    LoneForgotten();
    hide Next, Lone, Alone, IsClosed, IsMapped, MayUnmap;
    var run := [NOBODY,
                Lone(FIRST, true, false, [], RP.Waiting), Lone(FIRST, false, true, [], RP.Waiting),
                Lone(FILLED, false, false, [RECEIVED], RP.Waiting),
                Alone(FILLED, RP.Dispatching(RECEIVED)),
                Alone(FILLED, RP.Appending(0, 4)),
                Alone(FULL, RP.Parsing(0, 0)), Alone(DROPPED, RP.Waiting)];
    assert Execution(run);
  }
}
