/** What one session answers, as functions on values: the locked sections of the send
  * side, and the routing of one packet. The outcome of a socket call is an argument. */
module SessionModel {
  import opened PacketDefs
  import opened Framing

  // ----- Send side: the state guarded by send_mutex_ -----

  datatype SendSide = SendSide(queue: seq<seq<Byte>>, inFlight: bool, closed: bool)

  /** TryFlushSendQueue_NoLock gets as far as WSASend on the front buffer. */
  predicate Sends(s: SendSide) {
    !s.inFlight && s.queue != [] && !s.closed
  }

  function TryFlush(s: SendSide, ok: bool): SendSide {
    if !Sends(s) then s
    else if ok then s.(inFlight := true)
    else s.(closed := true)
  }

  /** The state in which PostSend's locked section calls TryFlushSendQueue_NoLock. */
  function Pushed(s: SendSide, packet: seq<Byte>): SendSide {
    s.(queue := s.queue + [packet])
  }

  /** The state in which OnSendComplete calls TryFlushSendQueue_NoLock. */
  function Popped(s: SendSide): SendSide {
    s.(queue := if s.queue == [] then [] else s.queue[1..], inFlight := false)
  }

  // ----- One session as its own thread sees it -----

  /** `io` says which socket calls succeed; `ioCalls` counts those made so far. */
  datatype Sess = Sess(send: SendSide, uid: nat, bound: bool, ioCalls: nat)

  type Io = nat -> bool

  function Flush(io: Io, s: Sess): Sess {
    if Sends(s.send)
    then s.(send := TryFlush(s.send, io(s.ioCalls)), ioCalls := s.ioCalls + 1)
    else s
  }

  function Post(io: Io, s: Sess, p: Packet): Sess {
    if s.send.closed then s else Flush(io, s.(send := Pushed(s.send, Frame(p))))
  }

  function SendDone(io: Io, s: Sess): Sess {
    Flush(io, s.(send := Popped(s.send)))
  }

  const LOGIN_FAILED := Packet(SC_LOGIN_ACK, [0])
  const LOGIN_OK := Packet(SC_LOGIN_ACK, [1])

  /** HandleLogin accepts the request. */
  predicate IsLoad(p: Packet) {
    p.opcode == CS_LOGIN && |p.payload| >= CS_LOGIN_SIZE
  }

  function LoginUid(p: Packet): nat
    requires IsLoad(p)
  {
    LittleEndian(p.payload[..CS_LOGIN_SIZE])
  }

  /** The packet that Route posts before it returns, if any. */
  function Reply(p: Packet, bound: bool): Option<Packet> {
    if p.opcode == CS_LOGIN then
      if |p.payload| < CS_LOGIN_SIZE then Some(LOGIN_FAILED) else None
    else if p.opcode == CS_EVENT_INFO_REQ then
      Some(if bound then Packet(SC_EVENT_INFO_ACK, [1]) else Packet(SC_ERROR, [0]))
    else None
  }

  function RouteOne(io: Io, s: Sess, p: Packet): Sess {
    if IsLoad(p) then s.(uid := LoginUid(p), bound := true)
    else match Reply(p, s.bound)
      case Some(q) => Post(io, s, q)
      case None => s
  }

  function RouteAll(io: Io, s: Sess, ps: seq<Packet>): Sess {
    if ps == [] then s
    else RouteOne(io, RouteAll(io, s, ps[..|ps| - 1]), ps[|ps| - 1])
  }

  /** The uids that a run of packets asks the database for, in order. */
  function Loads(ps: seq<Packet>): seq<nat> {
    if ps == [] then []
    else
      var p := ps[|ps| - 1];
      var before := Loads(ps[..|ps| - 1]);
      if IsLoad(p) then before + [LoginUid(p)] else before
  }

  /** What handling a received chunk leaves behind: the session, its buffer, and the uids
    * to load. After a bad length nothing is compacted and no receive is posted. */
  datatype Received = Received(s: Sess, accum: seq<Byte>, loads: seq<nat>)

  function Receive(io: Io, s: Sess, accum: seq<Byte>, chunk: seq<Byte>): Received {
    var all := accum + chunk;
    var r := Parse(all);
    var t := RouteAll(io, s, r.packets);
    if r.bad then Received(Shut(t), all, Loads(r.packets))
    else Received(RecvPosted(io, t), r.rest, Loads(r.packets))
  }

  function Shut(s: Sess): Sess {
    s.(send := s.send.(closed := true))
  }

  /** PostRecv: an open session calls WSARecv, and closes if that fails. */
  function RecvPosted(io: Io, s: Sess): Sess {
    if s.send.closed then s
    else s.(send := s.send.(closed := !io(s.ioCalls)), ioCalls := s.ioCalls + 1)
  }

  // ----- What these functions say, field by field and byte by byte -----

  /** TryFlushSendQueue_NoLock calls WSASend exactly if nothing is in flight, something is
    * queued and the session is open; then the send is in flight, or the session closed. */
  lemma FlushExactly(io: Io, s: Sess)
    ensures var t := Flush(io, s);
      var tries := !s.send.inFlight && s.send.queue != [] && !s.send.closed;
      && t.send.queue == s.send.queue && t.uid == s.uid && t.bound == s.bound
      && t.ioCalls == s.ioCalls + (if tries then 1 else 0)
      && t.send.inFlight == (s.send.inFlight || (tries && io(s.ioCalls)))
      && t.send.closed == (s.send.closed || (tries && !io(s.ioCalls)))
  {
  }

  /** PostSend of an open session queues the frame and sends it if nothing is in flight. */
  lemma PostExactly(io: Io, s: Sess, p: Packet)
    ensures var t := Post(io, s, p);
      if s.send.closed then t == s
      else
        && t.send.queue == s.send.queue + [Frame(p)] && t.uid == s.uid && t.bound == s.bound
        && t.ioCalls == s.ioCalls + (if s.send.inFlight then 0 else 1)
        && t.send.inFlight == (s.send.inFlight || io(s.ioCalls))
        && t.send.closed == (!s.send.inFlight && !io(s.ioCalls))
  {
  }

  /** OnSendComplete takes the front packet away and sends the next one, if there is one. */
  lemma SendDoneExactly(io: Io, s: Sess)
    ensures var t := SendDone(io, s);
      var tries := |s.send.queue| > 1 && !s.send.closed;
      && t.send.queue == (if s.send.queue == [] then [] else s.send.queue[1..])
      && t.uid == s.uid && t.bound == s.bound
      && t.ioCalls == s.ioCalls + (if tries then 1 else 0)
      && t.send.inFlight == (tries && io(s.ioCalls))
      && t.send.closed == (s.send.closed || (tries && !io(s.ioCalls)))
  {
  }

  lemma LittleEndianHalf(b: seq<Byte>)
    requires |b| == 4
    ensures var b': seq<int> := b;
      LittleEndian(b) == b'[0] + 0x100 * b'[1] + 0x1_0000 * b'[2] + 0x100_0000 * b'[3]
  {
    assert LittleEndian(b) == b[0] + 256 * LittleEndian(b[1..]);
    assert LittleEndian(b[1..]) == b[1] + 256 * LittleEndian(b[1..][1..]);
    assert LittleEndian(b[1..][1..]) == b[2] + 256 * LittleEndian(b[1..][1..][1..]);
    assert LittleEndian(b[1..][1..][1..]) == b[3] + 256 * LittleEndian(b[1..][1..][1..][1..]);
  }

  /** A login is accepted if it has eight bytes, little-endian, of uid. */
  lemma LoadExactly(p: Packet)
    ensures IsLoad(p) <==> p.opcode == 1001 && |p.payload| >= 8
    ensures IsLoad(p) ==>
              var b: seq<int> := p.payload;
              LoginUid(p) == b[0] + 0x100 * b[1] + 0x1_0000 * b[2] + 0x100_0000 * b[3] + 0x1_0000_0000 * b[4]
                             + 0x100_0000_0000 * b[5] + 0x1_0000_0000_0000 * b[6] + 0x100_0000_0000_0000 * b[7]
  {
    if IsLoad(p) {
      var b := p.payload[..8];
      LittleEndianHalf(b[4..]);
      assert b[1..][1..][1..][1..] == b[4..];
      assert LittleEndian(b) == b[0] + 256 * LittleEndian(b[1..]);
      assert LittleEndian(b[1..]) == b[1] + 256 * LittleEndian(b[1..][1..]);
      assert LittleEndian(b[1..][1..]) == b[2] + 256 * LittleEndian(b[1..][1..][1..]);
      assert LittleEndian(b[1..][1..][1..]) == b[3] + 256 * LittleEndian(b[4..]);
    }
  }

  /** The answers of PacketRouter, as the client receives them. */
  lemma AnswerFrames()
    ensures Frame(LOGIN_FAILED) == [5, 0, 0xEA, 0x03, 0]
    ensures Frame(LOGIN_OK) == [5, 0, 0xEA, 0x03, 1]
    ensures Frame(Packet(SC_EVENT_INFO_ACK, [1])) == [5, 0, 0xD2, 0x07, 1]
    ensures Frame(Packet(SC_ERROR, [0])) == [5, 0, 0x29, 0x23, 0]
  {
  }

  /** Routing one packet: a login of at least eight bytes binds the session to its uid and
    * answers nothing yet; every other packet leaves the binding, and an open session queues
    * the answer and sends it if nothing is in flight. */
  lemma RouteOneExactly(io: Io, s: Sess, p: Packet)
    ensures var t := RouteOne(io, s, p);
      if p.opcode == 1001 && |p.payload| >= 8 then
        t == s.(uid := LoginUid(p), bound := true)
      else if s.send.closed || (p.opcode != 1001 && p.opcode != 2001) then
        t == s
      else
        && t.uid == s.uid && t.bound == s.bound
        && t.send.queue == s.send.queue + [
             if p.opcode == 1001 then [5, 0, 0xEA, 0x03, 0]
             else if s.bound then [5, 0, 0xD2, 0x07, 1]
             else [5, 0, 0x29, 0x23, 0]]
        && t.ioCalls == s.ioCalls + (if s.send.inFlight then 0 else 1)
        && t.send.inFlight == (s.send.inFlight || io(s.ioCalls))
        && t.send.closed == (!s.send.inFlight && !io(s.ioCalls))
  {
    AnswerFrames();
    hide Frame;
  }

  /** A received chunk: the packets of the buffer and the chunk together are routed; a bad
    * length then closes the session, and otherwise an open one makes one receive call. */
  lemma ReceiveExactly(io: Io, s: Sess, accum: seq<Byte>, chunk: seq<Byte>)
    ensures var r := Parse(accum + chunk);
      var t, e := RouteAll(io, s, r.packets), Receive(io, s, accum, chunk);
      var arms := !r.bad && !t.send.closed;
      && e.loads == Loads(r.packets) && e.accum == (if r.bad then accum + chunk else r.rest)
      && e.s.send.queue == t.send.queue && e.s.send.inFlight == t.send.inFlight
      && e.s.uid == t.uid && e.s.bound == t.bound
      && e.s.ioCalls == t.ioCalls + (if arms then 1 else 0)
      && e.s.send.closed == !(arms && io(t.ioCalls))
  {
  }

  lemma RouteNothing(io: Io, s: Sess)
    ensures RouteAll(io, s, []) == s && Loads([]) == []
  {
  }

  lemma RouteAllSnoc(io: Io, s: Sess, ps: seq<Packet>, p: Packet)
    ensures RouteAll(io, s, ps + [p]) == RouteOne(io, RouteAll(io, s, ps), p)
  {
    assert (ps + [p])[..|ps|] == ps;
  }

  lemma LoadsSnoc(ps: seq<Packet>, p: Packet)
    ensures Loads(ps + [p]) == if IsLoad(p) then Loads(ps) + [LoginUid(p)] else Loads(ps)
  {
    assert (ps + [p])[..|ps|] == ps;
  }

  // ----- What routing does to the send queue -----

  /** The answer to one packet, framed. */
  function Answer(p: Packet, bound: bool): seq<seq<Byte>> {
    match Reply(p, bound)
    case Some(q) => [Frame(q)]
    case None => []
  }

  /** The immediate answers to a run of packets, framed, in request order. */
  function Replies(ps: seq<Packet>, bound: bool): seq<seq<Byte>> {
    if ps == [] then []
    else
      var n := |ps| - 1;
      Replies(ps[..n], bound) + Answer(ps[n], BoundAfter(ps[..n], bound))
  }

  /** A session has a user once one login was accepted. */
  predicate BoundAfter(ps: seq<Packet>, bound: bool) {
    bound || exists p <- ps :: IsLoad(p)
  }

  lemma RouteOneAnswers(io: Io, s: Sess, p: Packet)
    ensures var t := RouteOne(io, s, p);
      && t.bound == (s.bound || IsLoad(p))
      && t.send.queue == (if s.send.closed then s.send.queue else s.send.queue + Answer(p, s.bound))
      && (s.send.closed ==> t.send == s.send && t.ioCalls == s.ioCalls)
  {
    hide Frame;
  }

  /** Requests are answered in order, each once: an open session has queued every answer;
    * one that the send side closed has queued the answers up to the failed send. */
  lemma {:induction false} RoutingAnswersInOrder(io: Io, s: Sess, ps: seq<Packet>)
    ensures var t := RouteAll(io, s, ps);
      && t.bound == BoundAfter(ps, s.bound)
      && s.send.queue <= t.send.queue <= s.send.queue + Replies(ps, s.bound)
      && (!t.send.closed ==> !s.send.closed && t.send.queue == s.send.queue + Replies(ps, s.bound))
      && (s.send.closed ==> t == s.(uid := t.uid, bound := t.bound))
  {
    hide RouteOne, Answer, IsLoad;
    if ps == [] {
    } else {
      var n := |ps| - 1;
      RoutingAnswersInOrder(io, s, ps[..n]);
      assert ps == ps[..n] + [ps[n]];
      RouteOneAnswers(io, RouteAll(io, s, ps[..n]), ps[n]);
      ConcatAssoc(s.send.queue, Replies(ps[..n], s.bound), Answer(ps[n], BoundAfter(ps[..n], s.bound)));
    }
  }
}
