/** The receive side of every session under any number of IOCP workers. recv_accum_ and
  * recv_ctx_.buffer have no lock: the steps below are the unprotected steps of
  * OnRecvComplete, and any interleaving of them is a run. */
module RecvProtocol {
  import opened PacketDefs
  import opened Framing

  type SessionId = nat
  type WorkerId = nat

  /** `stream` is every byte the network has written for this session, `bad` that a worker
    * met a bad length, `mapped` that sessions_ still has the entry. */
  datatype Session = Session(stream: seq<Byte>, buffer: seq<Byte>, accum: seq<Byte>,
                             routed: seq<Packet>, bad: bool, closed: bool, mapped: bool)

  datatype Completion = Completion(s: SessionId, n: nat, ok: bool)

  /** Where a worker is; all but Waiting are on behalf of one session. */
  datatype Pc =
    | Waiting
    | Dispatching(c: Completion)
    | Appending(s: SessionId, n: nat)
    | Parsing(s: SessionId, offset: nat)
    | Compacting(s: SessionId, offset: nat)
    | Posting(s: SessionId)

  datatype State = State(
    sessions: map<SessionId, Session>,
    accepting: set<SessionId>,  // accepted, first PostRecv not reached
    armed: set<SessionId>,      // a WSARecv is outstanding
    port: seq<Completion>,      // completed receives not yet dequeued
    workers: map<WorkerId, Pc>)

  datatype Label =
    | Accept(s: SessionId)
    | FirstPost(s: SessionId, ok: bool)
    | Deliver(s: SessionId, chunk: seq<Byte>)
    | Finish(s: SessionId, ok: bool) // end of stream, or failure
    | Close(s: SessionId)            // by any other thread
    | Unmap(s: SessionId)
    | Dequeue(w: WorkerId)
    | Dispatch(w: WorkerId)
    | Append(w: WorkerId)
    | Turn(w: WorkerId)
    | Compact(w: WorkerId)
    | Post(w: WorkerId, ok: bool)

  const NEW_SESSION := Session([], [], [], [], false, false, true)

  /** The session a worker is working for. */
  function SessionOf(pc: Pc): Option<SessionId> {
    match pc
    case Waiting => None
    case Dispatching(c) => Some(c.s)
    case Appending(s, _) => Some(s)
    case Parsing(s, _) => Some(s)
    case Compacting(s, _) => Some(s)
    case Posting(s) => Some(s)
  }

  predicate Runs(st: State, w: WorkerId) {
    w in st.workers && (st.workers[w].Waiting? || SessionOf(st.workers[w]).value in st.sessions)
  }

  predicate Enabled(st: State, l: Label) {
    match l
    case Accept(s) => s !in st.sessions
    case FirstPost(s, _) => s in st.accepting && s in st.sessions
    case Deliver(s, chunk) => s in st.armed && s in st.sessions && 0 < |chunk| <= MAX_PACKET_SIZE
    case Finish(s, _) => s in st.armed
    case Close(s) => s in st.sessions
    case Unmap(s) => s in st.sessions
    case Dequeue(w) => w in st.workers && st.workers[w].Waiting? && st.port != []
    case Dispatch(w) => Runs(st, w) && st.workers[w].Dispatching?
    case Append(w) =>
      Runs(st, w) && st.workers[w].Appending? && st.workers[w].n <= |st.sessions[st.workers[w].s].buffer|
    case Turn(w) =>
      Runs(st, w) && st.workers[w].Parsing? && st.workers[w].offset <= |st.sessions[st.workers[w].s].accum|
    case Compact(w) =>
      Runs(st, w) && st.workers[w].Compacting? && st.workers[w].offset <= |st.sessions[st.workers[w].s].accum|
    case Post(w, _) => Runs(st, w) && st.workers[w].Posting?
  }

  /** WSARecv writes the chunk over the start of recv_ctx_.buffer. */
  function Overwrite(buffer: seq<Byte>, chunk: seq<Byte>): seq<Byte> {
    if |buffer| <= |chunk| then chunk else chunk + buffer[|chunk|..]
  }

  /** PostRecv: the session is armed, or closed. */
  function PostRecv(st: State, s: SessionId, ok: bool): State
    requires s in st.sessions
  {
    if !st.sessions[s].closed && ok then st.(armed := st.armed + {s})
    else Update(st, s, st.sessions[s].(closed := true))
  }

  function Update(st: State, s: SessionId, ses: Session): State {
    st.(sessions := st.sessions[s := ses])
  }

  function Goto(st: State, w: WorkerId, pc: Pc): State {
    st.(workers := st.workers[w := pc])
  }

  function Apply(st: State, l: Label): State
    requires Enabled(st, l)
  {
    match l
    case Accept(s) => Update(st, s, NEW_SESSION).(accepting := st.accepting + {s})
    case FirstPost(s, ok) => PostRecv(st.(accepting := st.accepting - {s}), s, ok)
    case Deliver(s, chunk) =>
      var ses := st.sessions[s];
      Update(st, s, ses.(stream := ses.stream + chunk, buffer := Overwrite(ses.buffer, chunk)))
        .(armed := st.armed - {s}, port := st.port + [Completion(s, |chunk|, true)])
    case Finish(s, ok) => st.(armed := st.armed - {s}, port := st.port + [Completion(s, 0, ok)])
    case Close(s) => Update(st, s, st.sessions[s].(closed := true))
    case Unmap(s) => Update(st, s, st.sessions[s].(mapped := false))
    case Dequeue(w) => Goto(st, w, Dispatching(st.port[0])).(port := st.port[1..])
    case Dispatch(w) =>
      var c := st.workers[w].c;
      var ses := st.sessions[c.s];
      if !ses.mapped then Goto(st, w, Waiting)
      else if !c.ok || c.n == 0 then Goto(Update(st, c.s, ses.(closed := true, mapped := false)), w, Waiting)
      else Goto(st, w, Appending(c.s, c.n))
    case Append(w) =>
      var (s, n) := (st.workers[w].s, st.workers[w].n);
      var ses := st.sessions[s];
      Goto(Update(st, s, ses.(accum := ses.accum + ses.buffer[..n])), w, Parsing(s, 0))
    case Turn(w) =>
      var (s, offset) := (st.workers[w].s, st.workers[w].offset);
      var ses := st.sessions[s];
      (match ReadHead(ses.accum[offset..])
       case NeedMore => Goto(st, w, Compacting(s, offset))
       case Bad => Goto(Update(st, s, ses.(bad := true, closed := true)), w, Waiting)
       case Full(p, n) => Goto(Update(st, s, ses.(routed := ses.routed + [p])), w, Parsing(s, offset + n)))
    case Compact(w) =>
      var (s, offset) := (st.workers[w].s, st.workers[w].offset);
      var ses := st.sessions[s];
      Goto(Update(st, s, ses.(accum := ses.accum[offset..])), w, Posting(s))
    case Post(w, ok) => Goto(PostRecv(st, st.workers[w].s, ok), w, Waiting)
  }

  predicate Init(st: State) {
    && st.sessions == map[] && st.accepting == st.armed == {} && st.port == []
    && forall w <- st.workers :: st.workers[w].Waiting?
  }

  ghost predicate Next(st: State, st': State) {
    exists l :: Enabled(st, l) && st' == Apply(st, l)
  }

  ghost predicate Execution(run: seq<State>) {
    && run != [] && Init(run[0])
    && forall i | 0 <= i < |run| - 1 :: Next(run[i], run[i + 1])
  }

  // ----- The receive token -----

  /** The places where the right to touch a session's receive state can be. */
  datatype Place = AcceptThread | Kernel | Port(i: nat) | Worker(w: WorkerId)

  predicate At(st: State, s: SessionId, p: Place) {
    match p
    case AcceptThread => s in st.accepting
    case Kernel => s in st.armed
    case Port(i) => i < |st.port| && st.port[i].s == s
    case Worker(w) => w in st.workers && SessionOf(st.workers[w]) == Some(s)
  }

  /** No session's token is in two places. */
  ghost predicate Exclusive(st: State) {
    forall s, p, q :: At(st, s, p) && At(st, s, q) ==> p == q
  }

  /** How far the handling of the last chunk has come. */
  datatype Progress = Idle | Filled(n: nat) | Scanning(offset: nat) | Scanned(offset: nat)

  function ProgressAt(st: State, p: Place): Progress {
    match p
    case AcceptThread => Idle
    case Kernel => Idle
    case Port(i) => if i < |st.port| then Filled(st.port[i].n) else Idle
    case Worker(w) =>
      if w !in st.workers then Idle
      else match st.workers[w]
        case Waiting => Idle
        case Dispatching(c) => Filled(c.n)
        case Appending(_, n) => Filled(n)
        case Parsing(_, offset) => Scanning(offset)
        case Compacting(_, offset) => Scanned(offset)
        case Posting(_) => Idle
  }

  /** The received bytes parse to what was routed, followed by what `rest` parses to. */
  ghost predicate Continues(ses: Session, rest: seq<Byte>) {
    Parse(ses.stream) == Prepend(ses.routed, Parse(rest))
  }

  ghost predicate Sound(ses: Session, t: Progress) {
    match t
    case Idle => ReadHead(ses.accum) == NeedMore && Continues(ses, ses.accum)
    case Filled(n) =>
      && n <= |ses.buffer| && n <= MAX_PACKET_SIZE
      && ReadHead(ses.accum) == NeedMore && Continues(ses, ses.accum + ses.buffer[..n])
    case Scanning(offset) => offset <= |ses.accum| && Continues(ses, ses.accum[offset..])
    case Scanned(offset) =>
      offset <= |ses.accum| && ReadHead(ses.accum[offset..]) == NeedMore && Continues(ses, ses.accum[offset..])
  }

  /** Holds with or without a token: nothing is routed out of order, twice, or at or after
    * the first bad length. */
  ghost predicate InOrder(ses: Session) {
    && ses.routed <= Parse(ses.stream).packets
    && (ses.bad ==> Parse(ses.stream).bad && ses.routed == Parse(ses.stream).packets)
  }

  ghost predicate Inv(st: State) {
    && Exclusive(st)
    && (forall s, p | At(st, s, p) :: s in st.sessions)
    && (forall s, p | At(st, s, p) && s in st.sessions :: Sound(st.sessions[s], ProgressAt(st, p)))
    && (forall s <- st.sessions :: InOrder(st.sessions[s]))
  }

  // ----- Where a token came from -----

  function Before(st: State, l: Label, s: SessionId, p: Place): Place {
    match l
    case FirstPost(s', _) => if s == s' && p == Kernel then AcceptThread else p
    case Deliver(_, _) => if p == Port(|st.port|) then Kernel else p
    case Finish(_, _) => if p == Port(|st.port|) then Kernel else p
    case Dequeue(w) =>
      if p == Worker(w) then Port(0)
      else if p.Port? then Port(p.i + 1)
      else p
    case Post(w, _) =>
      if w in st.workers && SessionOf(st.workers[w]) == Some(s) && p == Kernel then Worker(w) else p
    case _ => p
  }

  lemma TokenMoves(st: State, l: Label, s: SessionId, p: Place)
    requires Enabled(st, l) && l != Accept(s) && At(Apply(st, l), s, p)
    ensures At(st, s, Before(st, l, s, p))
  {
  }

  lemma ExclusiveStep(st: State, l: Label)
    requires Inv(st) && Enabled(st, l)
    ensures Exclusive(Apply(st, l))
  {
    var st' := Apply(st, l);
    forall s, p, q | At(st', s, p) && At(st', s, q)
      ensures p == q
    {
      if l == Accept(s) {
        assert !At(st, s, p) || p == AcceptThread;
        assert !At(st, s, q) || q == AcceptThread;
      } else {
        TokenMoves(st, l, s, p);
        TokenMoves(st, l, s, q);
        assert Before(st, l, s, p) == Before(st, l, s, q);
      }
    }
  }

  // ----- What one step does to the holder's session -----

  lemma DeliverSound(ses: Session, chunk: seq<Byte>)
    requires Sound(ses, Idle) && InOrder(ses) && |chunk| <= MAX_PACKET_SIZE
    ensures var ses' := ses.(stream := ses.stream + chunk, buffer := Overwrite(ses.buffer, chunk));
      Sound(ses', Filled(|chunk|)) && InOrder(ses')
  {
    ParseResume(ses.stream, chunk);
    assert ses.routed + [] == ses.routed;
    assert Overwrite(ses.buffer, chunk)[..|chunk|] == chunk;
  }

  lemma AppendSound(ses: Session, n: nat)
    requires Sound(ses, Filled(n))
    ensures Sound(ses.(accum := ses.accum + ses.buffer[..n]), Scanning(0))
  {
    var all := ses.accum + ses.buffer[..n];
    assert all[0..] == all;
  }

  lemma TurnSound(ses: Session, offset: nat, p: Packet, n: nat)
    requires offset <= |ses.accum| && ReadHead(ses.accum[offset..]) == Full(p, n)
    requires Continues(ses, ses.accum[offset..]) && InOrder(ses)
    ensures var ses' := ses.(routed := ses.routed + [p]);
      Sound(ses', Scanning(offset + n)) && InOrder(ses')
  {
    hide ReadHead;
    var rest := ses.accum[offset..];
    assert rest[n..] == ses.accum[offset + n..];
    ConcatAssoc(ses.routed, [p], Parse(rest[n..]).packets);
    hide Parse;
    assert |Parse(ses.stream).packets| > |ses.routed|;
  }

  lemma BadSound(ses: Session, rest: seq<Byte>)
    requires ReadHead(rest) == Bad && Continues(ses, rest)
    ensures InOrder(ses.(bad := true, closed := true))
  {
    assert ses.routed + [] == ses.routed;
  }

  lemma NewSessionSound()
    ensures Sound(NEW_SESSION, Idle) && InOrder(NEW_SESSION)
  {
  }

  predicate SameData(a: Session, b: Session) {
    a.stream == b.stream && a.buffer == b.buffer && a.accum == b.accum && a.routed == b.routed && a.bad == b.bad
  }

  lemma SoundIgnoresFlags(a: Session, b: Session, t: Progress)
    requires SameData(a, b)
    ensures Sound(a, t) <==> Sound(b, t)
    ensures InOrder(a) <==> InOrder(b)
    ensures Sound(a, Idle) <==> Sound(a, Filled(0))
  {
    hide Parse, ReadHead;
    assert a.accum + a.buffer[..0] == a.accum;
  }

  /** The worker that takes this step, if it reads or writes receive data. */
  function DataWorker(l: Label): Option<WorkerId> {
    match l
    case Append(w) => Some(w)
    case Turn(w) => Some(w)
    case Compact(w) => Some(w)
    case _ => None
  }

  predicate Touches(st: State, l: Label, s: SessionId)
    requires Enabled(st, l)
  {
    match DataWorker(l)
    case Some(w) => SessionOf(st.workers[w]) == Some(s)
    case None => (l.Accept? || l.Deliver?) && l.s == s
  }

  lemma UntouchedData(st: State, l: Label, s: SessionId)
    requires Enabled(st, l) && s in st.sessions && !Touches(st, l, s)
    ensures s in Apply(st, l).sessions && SameData(st.sessions[s], Apply(st, l).sessions[s])
  {
    hide ReadHead;
  }

  lemma UntouchedWorker(st: State, l: Label, s: SessionId, w: WorkerId)
    requires Enabled(st, l) && s in st.sessions && !Touches(st, l, s)
    requires At(Apply(st, l), s, Worker(w))
    ensures ProgressAt(Apply(st, l), Worker(w)) == ProgressAt(st, Before(st, l, s, Worker(w)))
  {
    hide ReadHead;
  }

  lemma UntouchedProgress(st: State, l: Label, s: SessionId, p: Place)
    requires Enabled(st, l) && s in st.sessions && !Touches(st, l, s)
    requires At(Apply(st, l), s, p)
    ensures var before, after := ProgressAt(st, Before(st, l, s, p)), ProgressAt(Apply(st, l), p);
      after == before || (before == Idle && after == Filled(0))
  {
    hide ReadHead;
    if p.Worker? {
      UntouchedWorker(st, l, s, p.w);
    }
  }

  lemma UntouchedStep(st: State, l: Label, s: SessionId, p: Place)
    requires Inv(st) && Enabled(st, l) && s in st.sessions && !Touches(st, l, s)
    requires At(Apply(st, l), s, p)
    ensures s in Apply(st, l).sessions
    ensures Sound(Apply(st, l).sessions[s], ProgressAt(Apply(st, l), p))
  {
    assert l != Accept(s);
    hide Apply, At, ProgressAt, Before, Touches, Sound, ReadHead, InOrder, Enabled, Parse;
    var q := Before(st, l, s, p);
    TokenMoves(st, l, s, p);
    UntouchedData(st, l, s);
    UntouchedProgress(st, l, s, p);
    SoundIgnoresFlags(st.sessions[s], Apply(st, l).sessions[s], ProgressAt(st, q));
    SoundIgnoresFlags(Apply(st, l).sessions[s], Apply(st, l).sessions[s], Idle);
  }

  lemma WorkerStep(st: State, l: Label, s: SessionId)
    requires Inv(st) && Enabled(st, l) && DataWorker(l).Some? && Touches(st, l, s)
    ensures var st', w := Apply(st, l), DataWorker(l).value;
      && s in st'.sessions && InOrder(st'.sessions[s])
      && (SessionOf(st'.workers[w]) == Some(s) ==> Sound(st'.sessions[s], ProgressAt(st', Worker(w))))
  {
    hide Parse, ReadHead, Exclusive;
    var st', w := Apply(st, l), DataWorker(l).value;
    assert At(st, s, Worker(w));
    var ses := st.sessions[s];
    assert Sound(ses, ProgressAt(st, Worker(w))) && InOrder(ses);
    match l {
      case Append(_) => AppendSound(ses, st.workers[w].n);
      case Turn(_) =>
        var rest := ses.accum[st.workers[w].offset..];
        match ReadHead(rest) {
          case Bad => BadSound(ses, rest);
          case Full(p, n) => TurnSound(ses, st.workers[w].offset, p, n);
          case NeedMore =>
        }
      case Compact(_) =>
    }
  }

  lemma InOrderStep(st: State, l: Label, s: SessionId)
    requires Inv(st) && Enabled(st, l) && s in Apply(st, l).sessions
    ensures InOrder(Apply(st, l).sessions[s])
  {
    hide ReadHead, Parse;
    if l == Accept(s) {
      NewSessionSound();
    } else if l.Deliver? && l.s == s {
      assert At(st, s, Kernel);
      DeliverSound(st.sessions[s], l.chunk);
    } else if Touches(st, l, s) {
      WorkerStep(st, l, s);
    } else {
      UntouchedData(st, l, s);
      SoundIgnoresFlags(st.sessions[s], Apply(st, l).sessions[s], Idle);
    }
  }

  /** A step touches the receive data only of a session whose token it holds or moves, and
    * the token is in no second place. */
  lemma SoundStep(st: State, l: Label, s: SessionId, p: Place)
    requires Inv(st) && Enabled(st, l) && s in Apply(st, l).sessions
    requires At(Apply(st, l), s, p)
    ensures Sound(Apply(st, l).sessions[s], ProgressAt(Apply(st, l), p))
  {
    hide ReadHead, Parse, Continues, InOrder;
    if l == Accept(s) {
      assert !At(st, s, p);
      NewSessionSound();
    } else if Touches(st, l, s) {
      TokenMoves(st, l, s, p);
      if l.Deliver? {
        assert At(st, s, Kernel);
        DeliverSound(st.sessions[s], l.chunk);
      } else {
        WorkerStep(st, l, s);
        assert At(st, s, Worker(DataWorker(l).value));
      }
    } else {
      UntouchedStep(st, l, s, p);
    }
  }

  lemma InvStep(st: State, l: Label)
    requires Inv(st) && Enabled(st, l)
    ensures Inv(Apply(st, l))
  {
    var st' := Apply(st, l);
    ExclusiveStep(st, l);
    forall s, p | At(st', s, p)
      ensures s in st'.sessions && Sound(st'.sessions[s], ProgressAt(st', p))
    {
      if l != Accept(s) {
        TokenMoves(st, l, s, p);
      }
      SoundStep(st, l, s, p);
    }
    forall s <- st'.sessions
      ensures InOrder(st'.sessions[s])
    {
      InOrderStep(st, l, s);
    }
  }

  lemma {:induction false} ExecutionInv(run: seq<State>, i: nat)
    requires Execution(run) && i < |run|
    ensures Inv(run[i])
  {
    hide Sound, InOrder, Enabled, Apply;
    if i == 0 {
    } else {
      ExecutionInv(run, i - 1);
      assert Next(run[i - 1], run[i]);
      var l :| Enabled(run[i - 1], l) && run[i] == Apply(run[i - 1], l);
      InvStep(run[i - 1], l);
    }
  }

  // ----- Main results, for every state of every run -----

  /** A session has at most one of: a pending first receive, an outstanding WSARecv, a
    * completed receive, a worker in its receive code. */
  lemma OneReceiverPerSession(run: seq<State>, i: nat, s: SessionId, w: WorkerId, w': WorkerId)
    requires Execution(run) && i < |run|
    requires At(run[i], s, Worker(w))
    ensures s !in run[i].armed && s !in run[i].accepting
    ensures forall c <- run[i].port :: c.s != s
    ensures At(run[i], s, Worker(w')) ==> w == w'
  {
    var st := run[i];
    ExecutionInv(run, i);
    assert !At(st, s, Kernel) && !At(st, s, AcceptThread);
    forall k | 0 <= k < |st.port|
      ensures st.port[k].s != s
    {
      assert !At(st, s, Port(k));
    }
  }

  /** The packets routed for a session are, in order, the first packets of the sequential
    * parse of what it received; all of them once it waits for more, and then its buffer is
    * the parse's leftover; none at or after a bad length. */
  lemma RoutedIsSequentialParse(run: seq<State>, i: nat, s: SessionId)
    requires Execution(run) && i < |run| && s in run[i].sessions
    ensures var ses, r := run[i].sessions[s], Parse(run[i].sessions[s].stream);
      && ses.routed <= r.packets
      && (s in run[i].armed ==> r == Parsed(ses.routed, ses.accum, false) && |ses.accum| < MAX_PACKET_SIZE)
      && (ses.bad ==> r.bad && ses.routed == r.packets)
  {
    ExecutionInv(run, i);
    var ses := run[i].sessions[s];
    if s in run[i].armed {
      assert At(run[i], s, Kernel);
      assert ses.routed + [] == ses.routed;
    }
  }

  /** The buffer of a session, wherever its token is. */
  predicate Bounded(st: State) {
    forall s <- st.sessions :: |st.sessions[s].accum| < 2 * MAX_PACKET_SIZE
  }

  lemma AppendBound(st: State, w: WorkerId)
    requires Inv(st) && Enabled(st, Append(w))
    ensures var ses := st.sessions[st.workers[w].s]; |ses.accum| + st.workers[w].n < 2 * MAX_PACKET_SIZE
  {
    var s := st.workers[w].s;
    assert At(st, s, Worker(w));
    assert Sound(st.sessions[s], ProgressAt(st, Worker(w)));
  }

  lemma BoundedStep(st: State, l: Label)
    requires Inv(st) && Bounded(st) && Enabled(st, l)
    ensures Bounded(Apply(st, l))
  {
    if l.Append? {
      AppendBound(st, l.w);
    }
    hide Inv, ReadHead;
  }

  lemma {:induction false} ExecutionBounded(run: seq<State>, i: nat)
    requires Execution(run) && i < |run|
    ensures Bounded(run[i])
  {
    hide Inv, Enabled, Apply;
    if i == 0 {
    } else {
      ExecutionBounded(run, i - 1);
      ExecutionInv(run, i - 1);
      assert Next(run[i - 1], run[i]);
      var l :| Enabled(run[i - 1], l) && run[i] == Apply(run[i - 1], l);
      BoundedStep(run[i - 1], l);
    }
  }

  /** No slice a worker takes leaves its buffer - the next step of a worker that appends,
    * parses or compacts is always possible - and no recv_accum_ ever outgrows the 8192
    * bytes reserved for it, nor will by the append that comes next. */
  lemma SlicesInBounds(run: seq<State>, i: nat, w: WorkerId, s: SessionId)
    requires Execution(run) && i < |run|
    ensures s in run[i].sessions ==> |run[i].sessions[s].accum| < 2 * MAX_PACKET_SIZE
    ensures w in run[i].workers ==>
              var st := run[i]; match st.workers[w]
              case Appending(s, n) => Enabled(st, Append(w)) && |st.sessions[s].accum| + n < 2 * MAX_PACKET_SIZE
              case Parsing(s, _) => Enabled(st, Turn(w))
              case Compacting(s, _) => Enabled(st, Compact(w))
              case _ => true
  {
    ExecutionInv(run, i);
    ExecutionBounded(run, i);
    if w in run[i].workers {
      match SessionOf(run[i].workers[w]) {
        case Some(s) => assert At(run[i], s, Worker(w));
        case None =>
      }
    }
  }
}
