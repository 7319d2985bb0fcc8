/** The send side of one session: any number of posting threads, the kernel, and the
  * workers that handle its completions. Each section under send_mutex_ is one step. */
module SendProtocol {
  import opened PacketDefs
  import opened Framing
  import opened SessionModel

  type Buffer = seq<Byte>

  datatype State = State(
    side: SendSide,
    posting: multiset<Buffer>, // past PostSend's closed_ check, before its lock
    wire: seq<Buffer>,         // outstanding WSASends, each on the bytes it was given
    completed: nat,            // successful sends whose OnSendComplete has not run
    failed: nat,               // failed sends whose Close has not run
    log: seq<Buffer>,          // every packet pushed, in order of the lock
    popped: seq<Buffer>,
    delivered: seq<Buffer>)    // what the kernel has sent, in order

  datatype Label =
    | Begin(b: Buffer)
    | Push(b: Buffer, ok: bool)
    | Deliver(k: nat)
    | Lose(k: nat)
    | SendComplete(ok: bool)
    | CloseOnFailure
    | Close
    | Drop // a late completion of a session that sessions_ no longer holds

  predicate Enabled(st: State, l: Label) {
    match l
    case Begin(_) => !st.side.closed
    case Push(b, _) => b in st.posting
    case Deliver(k) => k < |st.wire|
    case Lose(k) => k < |st.wire|
    case SendComplete(_) => st.completed > 0
    case CloseOnFailure => st.failed > 0
    case Close => true
    case Drop => st.side.closed && st.completed > 0
  }

  /** TryFlushSendQueue_NoLock on the side, with the kernel's view of it. */
  function Flushed(st: State, ok: bool): State {
    st.(side := TryFlush(st.side, ok),
        wire := if Sends(st.side) && ok then st.wire + [st.side.queue[0]] else st.wire)
  }

  function Without<T>(s: seq<T>, k: nat): seq<T>
    requires k < |s|
  {
    s[..k] + s[k + 1..]
  }

  function Apply(st: State, l: Label): State
    requires Enabled(st, l)
  {
    match l
    case Begin(b) => st.(posting := st.posting + multiset{b})
    case Push(b, ok) =>
      Flushed(st.(posting := st.posting - multiset{b}, side := Pushed(st.side, b), log := st.log + [b]), ok)
    case Deliver(k) =>
      st.(wire := Without(st.wire, k), completed := st.completed + 1, delivered := st.delivered + [st.wire[k]])
    case Lose(k) => st.(wire := Without(st.wire, k), failed := st.failed + 1)
    case SendComplete(ok) =>
      Flushed(st.(completed := st.completed - 1, side := Popped(st.side),
                  popped := if st.side.queue == [] then st.popped else st.popped + [st.side.queue[0]]), ok)
    case CloseOnFailure => st.(failed := st.failed - 1, side := st.side.(closed := true))
    case Close => st.(side := st.side.(closed := true))
    case Drop => st.(completed := st.completed - 1)
  }

  const INIT := State(SendSide([], false, false), multiset{}, [], 0, 0, [], [], [])

  ghost predicate Next(st: State, st': State) {
    exists l :: Enabled(st, l) && st' == Apply(st, l)
  }

  ghost predicate Execution(run: seq<State>) {
    && run != [] && run[0] == INIT
    && forall i | 0 <= i < |run| - 1 :: Next(run[i], run[i + 1])
  }

  /** Sends begun and not yet handled. */
  function Open(st: State): nat {
    |st.wire| + st.completed + st.failed
  }

  ghost predicate Inv(st: State) {
    && Open(st) <= 1
    && (Open(st) == 1 ==> st.side.inFlight && st.side.queue != [])
    && (!st.side.closed ==> (st.side.inFlight <==> Open(st) == 1))
    && (!st.side.closed ==> (st.side.inFlight <==> st.side.queue != []))
    && (st.wire != [] ==> st.side.queue != [] && st.wire[0] == st.side.queue[0])
    && st.log == st.popped + st.side.queue
    && (st.completed == 1 ==> st.delivered == st.popped + [st.side.queue[0]])
    && (st.completed == 0 && (!st.side.closed || Open(st) == 1) ==> st.delivered == st.popped)
    && st.popped <= st.delivered <= st.log
  }

  lemma InvStep(st: State, l: Label)
    requires Inv(st) && Enabled(st, l)
    ensures Inv(Apply(st, l))
  {
    var q := st.side.queue;
    if q != [] {
      assert q == [q[0]] + q[1..];
      assert st.popped + q == (st.popped + [q[0]]) + q[1..];
    }
    if l.Push? {
      assert (st.popped + q) + [l.b] == st.popped + (q + [l.b]);
    }
  }

  lemma InitInv()
    ensures Inv(INIT)
  {
    assert INIT.log == INIT.popped + INIT.side.queue;
  }

  lemma {:induction false} ExecutionInv(run: seq<State>, i: nat)
    requires Execution(run) && i < |run|
    ensures Inv(run[i])
  {
    hide Inv, Apply, Enabled;
    if i == 0 {
      InitInv();
    } else {
      ExecutionInv(run, i - 1);
      assert Next(run[i - 1], run[i]);
      var l :| Enabled(run[i - 1], l) && run[i] == Apply(run[i - 1], l);
      InvStep(run[i - 1], l);
    }
  }

  /** In every run: at most one WSASend is outstanding, on the unaltered front of the queue;
    * the packets pushed are those popped followed by the queue, and the kernel sends them
    * in that order, each once. An open session with a packet queued has a send under way
    * whose handling will take it further, so no packet is stranded. */
  lemma SendsInOrder(run: seq<State>, i: nat)
    requires Execution(run) && i < |run|
    ensures var st := run[i];
      && |st.wire| <= 1
      && (|st.wire| == 1 ==> st.side.queue != [] && st.wire[0] == st.side.queue[0])
      && st.log == st.popped + st.side.queue
      && st.popped <= st.delivered <= st.log
      && (!st.side.closed ==> (st.side.inFlight <==> st.side.queue != []))
      && (!st.side.closed && st.side.queue != [] ==> |st.wire| + st.completed + st.failed == 1)
      && (st.completed > 0 ==> st.side.queue != [])
  {
    ExecutionInv(run, i);
  }

  lemma {:induction false} ConcatFrames(buffers: seq<Buffer>, ps: seq<Packet>)
    requires |buffers| == |ps| && forall k | 0 <= k < |ps| :: buffers[k] == Frame(ps[k])
    ensures Concat(buffers) == FrameAll(ps)
    decreases |ps|
  {
    if ps == [] {
    } else {
      ConcatFrames(buffers[1..], ps[1..]);
    }
  }

  /** The other end, parsing what it was sent, gets the posted packets, whole and in the
    * order in which they were pushed, up to the first that exceeds a packet's maximal size;
    * it drops the connection exactly if that one was delivered. */
  lemma PeerParsesPosted(run: seq<State>, i: nat, ps: seq<Packet>)
    requires Execution(run) && i < |run|
    requires |ps| == |run[i].log| && forall k | 0 <= k < |ps| :: Postable(ps[k]) && run[i].log[k] == Frame(ps[k])
    ensures var n, r := |run[i].delivered|, Parse(Concat(run[i].delivered));
      && n <= |ps| && r.packets == Deliverable(ps[..n])
      && (r.bad <==> exists p <- ps[..n] :: !Fits(p))
      && (!r.bad ==> r.packets == ps[..n] && r.rest == [])
  {
    SendsInOrder(run, i);
    var sent := run[i].delivered;
    ConcatFrames(sent, ps[..|sent|]);
    ParseOfPosted(ps[..|sent|]);
    DeliverableIsAll(ps[..|sent|]);
  }

  // ----- Session.PostSend and Session.OnSendComplete take these steps -----

  /** The locked section of PostSend: the same send side, and the kernel is given the front
    * packet exactly if the method made its socket call and that was accepted. */
  lemma PostRefines(st: State, io: Io, s: Sess, p: Packet)
    requires st.side == s.send && Frame(p) in st.posting && !s.send.closed
    ensures Enabled(st, Push(Frame(p), io(s.ioCalls)))
    ensures var t, st' := Post(io, s, p), Apply(st, Push(Frame(p), io(s.ioCalls)));
      && st'.side == t.send && st'.log == st.log + [Frame(p)]
      && st'.wire == if t.ioCalls > s.ioCalls && io(s.ioCalls) then st.wire + [t.send.queue[0]] else st.wire
  {
    hide Frame;
  }

  /** The same for OnSendComplete. */
  lemma SendDoneRefines(st: State, io: Io, s: Sess)
    requires st.side == s.send && st.completed > 0
    ensures Enabled(st, SendComplete(io(s.ioCalls)))
    ensures var t, st' := SendDone(io, s), Apply(st, SendComplete(io(s.ioCalls)));
      && st'.side == t.send && st'.completed == st.completed - 1
      && st'.wire == if t.ioCalls > s.ioCalls && io(s.ioCalls) then st.wire + [t.send.queue[0]] else st.wire
  {
  }

  /** Neither leaves an open session with a packet queued and nothing in flight. */
  lemma NothingStranded(io: Io, s: Sess, p: Packet)
    requires !s.send.closed ==> (s.send.inFlight <==> s.send.queue != [])
    ensures var t := Post(io, s, p); !t.send.closed ==> t.send.inFlight && t.send.queue != []
    ensures var t := SendDone(io, s); !t.send.closed ==> (t.send.inFlight <==> t.send.queue != [])
  {
    hide Frame;
  }
}
