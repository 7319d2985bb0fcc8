/** The bodies that one thread runs: Session, PacketRouter, EventDbBridge and the parts of
  * AsyncDbJobQueue between two waits, on mutable objects. Each is proved to compute the
  * functions of SessionModel, Framing and UserEvents. */
module GameServer {
  import opened PacketDefs
  import opened Framing
  import opened SessionModel
  import opened UserEvents

  /** The worker's half of a load, and the main thread's half with the rows it was given. */
  datatype LoadJob = LoadJob(uid: nat, user: CUser, session: Session)
  datatype LoadDone = LoadDone(user: CUser, rows: seq<DbEventRow>, session: Session)

  /** The queue grew by one load per uid, each with its own new user, on behalf of `s`. */
  ghost predicate LoadsQueued(s: Session, uids: seq<nat>, before: seq<LoadJob>, after: seq<LoadJob>) {
    && |after| == |before| + |uids|
    && before <= after
    && (forall i | 0 <= i < |uids| ::
          var job := after[|before| + i];
          job.uid == uids[i] && job.user.uid == uids[i] && job.session == s)
    && (forall i, j | |before| <= i < j < |after| :: after[i].user != after[j].user)
  }

  /** Which jobs those are: the earlier ones first, then one per uid, in order. */
  lemma LoadsQueuedExactly(s: Session, uids: seq<nat>, before: seq<LoadJob>, after: seq<LoadJob>, i: nat)
    requires LoadsQueued(s, uids, before, after) && i < |after|
    ensures |after| == |before| + |uids|
    ensures if i < |before| then after[i] == before[i]
            else after[i] == LoadJob(uids[i - |before|], after[i].user, s) && after[i].user.uid == uids[i - |before|]
    ensures forall j | |before| <= j < |after| && |before| <= i && i != j :: after[i].user != after[j].user
  {
    if i >= |before| {
      assert after[|before| + (i - |before|)] == after[i];
    }
  }

  lemma LoadsQueuedNone(s: Session, before: seq<LoadJob>)
    ensures LoadsQueued(s, [], before, before)
  {
  }

  lemma LoadsQueuedSnoc(s: Session, uids: seq<nat>, before: seq<LoadJob>, after: seq<LoadJob>, job: LoadJob)
    requires LoadsQueued(s, uids, before, after)
    requires job.session == s && job.user.uid == job.uid
    requires forall i | |before| <= i < |after| :: after[i].user != job.user
    ensures LoadsQueued(s, uids + [job.uid], before, after + [job])
  {
    var uids', after' := uids + [job.uid], after + [job];
    forall i | 0 <= i < |uids'|
      ensures var j := after'[|before| + i]; j.uid == uids'[i] == j.user.uid && j.session == s
    {
      if i < |uids| {
        assert after'[|before| + i] == after[|before| + i] && uids'[i] == uids[i];
      }
    }
  }

  /** EventDbBridge::LoadUserEventsAsync. */
  method LoadUserEventsAsync(db: AsyncDbJobQueue, uid: nat, user: CUser?, session: Session)
    modifies db`jobQueue
    ensures db.jobQueue == old(db.jobQueue) + if user == null then [] else [LoadJob(uid, user, session)]
  {
    if user == null {
      return;
    }
    db.Enqueue(LoadJob(uid, user, session));
  }

  // What socket_ holds once the socket is closed.
  const INVALID_SOCKET: nat := 0xFFFF_FFFF_FFFF_FFFF

  class Session {
    const accepted: nat // the socket that the session was created for
    const io: Io
    const recvBuffer: array<Byte>

    var recvAccum: seq<Byte>
    var recvPosted: bool // a WSARecv is outstanding
    var sendQueue: seq<seq<Byte>>
    var sendInFlight: bool
    var closed: bool
    var uid: nat
    var user: CUser?
    var ioCalls: nat

    ghost function View(): Sess
      reads this
    {
      Sess(SendSide(sendQueue, sendInFlight, closed), uid, user != null, ioCalls)
    }

    /** While a receive is outstanding, no complete packet and no bad length is buffered. */
    ghost predicate Valid()
      reads this
    {
      && recvBuffer.Length == MAX_PACKET_SIZE
      && (recvPosted ==> ReadHead(recvAccum) == NeedMore)
    }

    constructor (socket: nat, io: Io)
      ensures Valid() && fresh(recvBuffer) && accepted == socket && this.io == io
      ensures recvAccum == [] && !recvPosted && user == null
      ensures View() == Sess(SendSide([], false, false), 0, false, 0)
    {
      accepted, this.io := socket, io;
      recvBuffer := new Byte[MAX_PACKET_SIZE](_ => 0);
      recvAccum, recvPosted := [], false;
      sendQueue, sendInFlight, closed := [], false, false;
      uid, user, ioCalls := 0, null, 0;
    }

    /** Close sets socket_ to INVALID_SOCKET when it sets closed_, and nothing else writes
      * either. */
    function GetSocket(): nat
      reads `closed
    {
      if closed then INVALID_SOCKET else accepted
    }

    method Close()
      modifies `closed
      ensures closed
    {
      closed := true;
    }

    /** WSARecv or WSASend: the environment decides whether the call is accepted. */
    method SocketCall() returns (ok: bool)
      modifies `ioCalls
      ensures ok == io(old(ioCalls)) && ioCalls == old(ioCalls) + 1
    {
      ok := io(ioCalls);
      ioCalls := ioCalls + 1;
    }

    method PostRecv() returns (ok: bool)
      requires Valid() && !recvPosted && ReadHead(recvAccum) == NeedMore
      modifies `closed, `ioCalls, `recvPosted
      ensures Valid() && ok == recvPosted == !closed
      ensures if old(closed) then ioCalls == old(ioCalls)
              else ioCalls == old(ioCalls) + 1 && ok == io(old(ioCalls))
      ensures View() == RecvPosted(io, old(View()))
    {
      if closed {
        return false;
      }
      ok := SocketCall();
      if !ok {
        Close();
        return false;
      }
      recvPosted := true;
    }

    method TryFlushSendQueueNoLock()
      modifies `sendInFlight, `closed, `ioCalls
      ensures if old(!sendInFlight && sendQueue != [] && !closed)
              then ioCalls == old(ioCalls) + 1 && sendInFlight == !closed == io(old(ioCalls))
              else ioCalls == old(ioCalls) && sendInFlight == old(sendInFlight) && closed == old(closed)
      ensures View() == Flush(io, old(View()))
    {
      if sendInFlight || sendQueue == [] || closed {
        return;
      }
      var ok := SocketCall();
      if !ok {
        Close();
        return;
      }
      sendInFlight := true;
    }

    method PostSend(p: Packet)
      requires Postable(p)
      modifies `sendQueue, `sendInFlight, `closed, `ioCalls
      ensures sendQueue == if old(closed) then old(sendQueue) else old(sendQueue) + [Frame(p)]
      ensures if old(!closed && !sendInFlight)
              then ioCalls == old(ioCalls) + 1 && sendInFlight == !closed == io(old(ioCalls))
              else ioCalls == old(ioCalls) && sendInFlight == old(sendInFlight) && closed == old(closed)
      ensures View() == Post(io, old(View()), p)
    {
      if closed {
        return;
      }
      var size := HEADER_SIZE + |p.payload|;
      var packet := U16Bytes(size % 0x1_0000) + U16Bytes(p.opcode) + p.payload;
      sendQueue := sendQueue + [packet];
      TryFlushSendQueueNoLock();
    }

    method OnSendComplete()
      modifies `sendQueue, `sendInFlight, `closed, `ioCalls
      ensures sendQueue == if old(sendQueue) == [] then [] else old(sendQueue)[1..]
      ensures if |old(sendQueue)| > 1 && !old(closed)
              then ioCalls == old(ioCalls) + 1 && sendInFlight == !closed == io(old(ioCalls))
              else ioCalls == old(ioCalls) && !sendInFlight && closed == old(closed)
      ensures View() == SendDone(io, old(View()))
    {
      if sendQueue != [] {
        sendQueue := sendQueue[1..];
      }
      sendInFlight := false;
      TryFlushSendQueueNoLock();
    }

    /** PacketRouter::Route with HandleLogin and HandleEventInfoRequest. */
    method Route(p: Packet, db: AsyncDbJobQueue)
      modifies `sendQueue, `sendInFlight, `closed, `ioCalls, `uid, `user, db`jobQueue
      ensures View() == RouteOne(io, old(View()), p)
      ensures IsLoad(p) ==> user != null && fresh(user) && user.uid == LoginUid(p) && user.events == map[]
      ensures IsLoad(p) ==> db.jobQueue == old(db.jobQueue) + [LoadJob(LoginUid(p), user, this)]
      ensures IsLoad(p) ==> forall job <- old(db.jobQueue) :: job.user != user
      ensures !IsLoad(p) ==> db.jobQueue == old(db.jobQueue) && user == old(user)
    {
      if p.opcode == CS_LOGIN {
        if |p.payload| < CS_LOGIN_SIZE {
          PostSend(LOGIN_FAILED);
          return;
        }
        uid := LittleEndian(p.payload[..CS_LOGIN_SIZE]);
        user := new CUser(uid);
        LoadUserEventsAsync(db, uid, user, this);
      } else if p.opcode == CS_EVENT_INFO_REQ {
        if user == null {
          PostSend(Packet(SC_ERROR, [0]));
          return;
        }
        PostSend(Packet(SC_EVENT_INFO_ACK, [1]));
      }
    }

    /** The offset loop and the compaction of OnRecvComplete. On a bad length the buffer
      * is left as it is. */
    method RouteBuffered(db: AsyncDbJobQueue) returns (bad: bool)
      modifies `recvAccum, `sendQueue, `sendInFlight, `closed, `ioCalls, `uid, `user, db`jobQueue
      ensures var r := Parse(old(recvAccum));
        && bad == r.bad && recvAccum == (if bad then old(recvAccum) else r.rest)
        && View() == RouteAll(io, old(View()), r.packets)
        && LoadsQueued(this, Loads(r.packets), old(db.jobQueue), db.jobQueue)
      ensures !bad ==> ReadHead(recvAccum) == NeedMore
      ensures forall i | |old(db.jobQueue)| <= i < |db.jobQueue| :: fresh(db.jobQueue[i].user)
    {
      hide ReadHead, RouteAll, RouteOne, Loads, IsLoad, LoginUid, Parse, ParsedUpTo, LoadsQueued;
      RouteNothing(io, View());
      LoadsQueuedNone(this, db.jobQueue);
      ghost var all := recvAccum;
      ghost var done: seq<Packet> := [];
      ParseStart(all);
      var offset := 0;
      while |recvAccum| - offset >= HEADER_SIZE
        invariant recvAccum == all && offset <= |all| && ParsedUpTo(all, offset, done)
        invariant View() == RouteAll(io, old(View()), done)
        invariant LoadsQueued(this, Loads(done), old(db.jobQueue), db.jobQueue)
        invariant forall i | |old(db.jobQueue)| <= i < |db.jobQueue| :: fresh(db.jobQueue[i].user)
        decreases |recvAccum| - offset
      {
        ghost var jobs := db.jobQueue;
        var size := U16At(recvAccum, offset);
        if size < HEADER_SIZE || size > MAX_PACKET_SIZE {
          ParseStop(all, offset, done);
          return true;
        }
        if |recvAccum| - offset < size {
          break;
        }
        var p := Packet(U16At(recvAccum, offset + 2), recvAccum[offset + HEADER_SIZE..offset + size]);
        ParseTurn(all, offset, done, p);
        RouteAllSnoc(io, old(View()), done, p);
        LoadsSnoc(done, p);
        Route(p, db);
        if IsLoad(p) {
          LoadsQueuedSnoc(this, Loads(done), old(db.jobQueue), jobs, LoadJob(LoginUid(p), user, this));
        }
        done := done + [p];
        offset := offset + size;
      }
      ParseStop(all, offset, done);
      if offset > 0 {
        recvAccum := recvAccum[offset..];
      }
      bad := false;
    }

    /** The first n bytes of recvBuffer have arrived. */
    method OnRecvComplete(n: nat, db: AsyncDbJobQueue)
      requires Valid() && !recvPosted && ReadHead(recvAccum) == NeedMore
      requires n <= recvBuffer.Length
      modifies this, db`jobQueue
      ensures Valid() && |old(recvAccum)| + n < 2 * MAX_PACKET_SIZE
      ensures recvPosted ==> |recvAccum| < MAX_PACKET_SIZE
      ensures n == 0 ==> recvAccum == old(recvAccum) && db.jobQueue == old(db.jobQueue) && !recvPosted
      ensures n == 0 ==> closed && View() == Shut(old(View()))
      ensures n > 0 ==>
        var e := Receive(io, old(View()), old(recvAccum), old(recvBuffer[..n]));
        && View() == e.s && recvAccum == e.accum && recvPosted == !closed
        && LoadsQueued(this, e.loads, old(db.jobQueue), db.jobQueue)
      ensures n > 0 ==>
        var r := Parse(old(recvAccum) + old(recvBuffer[..n]));
        && (r.bad ==> closed && recvAccum == old(recvAccum) + old(recvBuffer[..n]))
        && (!r.bad ==> recvAccum == r.rest)
        && LoadsQueued(this, Loads(r.packets), old(db.jobQueue), db.jobQueue)
      ensures n > 0 ==>
        var r := Parse(old(recvAccum) + old(recvBuffer[..n]));
        forall routed :: Feed(Inbox(routed, old(recvAccum), false), old(recvBuffer[..n]))
                         == Inbox(routed + r.packets, recvAccum, r.bad)
      ensures forall i | |old(db.jobQueue)| <= i < |db.jobQueue| :: fresh(db.jobQueue[i].user)
    {
      hide RouteAll, Loads, Parse, LoadsQueued;
      if n == 0 {
        Close();
        return;
      }
      recvAccum := recvAccum + recvBuffer[..n];
      var bad := RouteBuffered(db);
      if bad {
        Close();
        return;
      }
      var _ := PostRecv();
    }
  }

  // ----- What one ProcessCompletions does to one user and to one session -----

  ghost function Loaded(events: Events, user: CUser, batch: seq<LoadDone>): Events {
    if batch == [] then events
    else
      var n := |batch| - 1;
      var before := Loaded(events, user, batch[..n]);
      if batch[n].user == user then Overlay(before, batch[n].rows) else before
  }

  /** All rows that the batch has for the user, in order. */
  ghost function RowsFor(user: CUser, batch: seq<LoadDone>): seq<DbEventRow> {
    if batch == [] then []
    else
      var n := |batch| - 1;
      RowsFor(user, batch[..n]) + if batch[n].user == user then batch[n].rows else []
  }

  /** A user gets all of its own rows, and none of another's. */
  lemma {:induction false} LoadedIsOwnRows(events: Events, user: CUser, batch: seq<LoadDone>)
    ensures Loaded(events, user, batch) == Overlay(events, RowsFor(user, batch))
  {
    if batch == [] {
    } else {
      var n := |batch| - 1;
      LoadedIsOwnRows(events, user, batch[..n]);
      OverlayConcat(events, RowsFor(user, batch[..n]), if batch[n].user == user then batch[n].rows else []);
    }
  }

  ghost function Acked(s: Sess, session: Session, batch: seq<LoadDone>): Sess {
    if batch == [] then s
    else
      var n := |batch| - 1;
      var before := Acked(s, session, batch[..n]);
      if batch[n].session == session then Post(session.io, before, LOGIN_OK) else before
  }

  /** The acknowledgements that a batch posts on a session. */
  function AcksFor(session: Session, batch: seq<LoadDone>): set<int> {
    set i | 0 <= i < |batch| && batch[i].session == session
  }

  lemma AcksStep(session: Session, batch: seq<LoadDone>)
    requires batch != []
    ensures var n := |batch| - 1;
      |AcksFor(session, batch)| == |AcksFor(session, batch[..n])| + if batch[n].session == session then 1 else 0
  {
    var n := |batch| - 1;
    assert AcksFor(session, batch) == AcksFor(session, batch[..n]) + if batch[n].session == session then {n} else {};
  }

  lemma AckedStep(s: Sess, session: Session, batch: seq<LoadDone>)
    requires batch != []
    ensures var n := |batch| - 1; var before := Acked(s, session, batch[..n]);
      Acked(s, session, batch) == if batch[n].session == session then Post(session.io, before, LOGIN_OK) else before
  {
  }

  /** t is s with these buffers queued, up to the one at which it was closed, if it was. */
  predicate Queued(s: Sess, t: Sess, buffers: seq<seq<Byte>>) {
    && s.send.queue <= t.send.queue <= s.send.queue + buffers
    && (!t.send.closed ==> !s.send.closed && t.send.queue == s.send.queue + buffers)
    && (s.send.closed || buffers == [] ==> t == s)
    && t.uid == s.uid && t.bound == s.bound
  }

  lemma QueuedPost(s: Sess, t: Sess, buffers: seq<seq<Byte>>, io: Io)
    requires Queued(s, t, buffers)
    ensures Queued(s, Post(io, t, LOGIN_OK), buffers + [Frame(LOGIN_OK)])
  {
    PostExactly(io, t, LOGIN_OK);
    hide Post, Frame;
    ConcatAssoc(s.send.queue, buffers, [Frame(LOGIN_OK)]);
  }

  lemma QueuedNone(s: Sess)
    ensures Queued(s, s, [])
  {
  }

  lemma {:induction false} AckedQueued(s: Sess, session: Session, batch: seq<LoadDone>)
    ensures Queued(s, Acked(s, session, batch), seq(|AcksFor(session, batch)|, _ => Frame(LOGIN_OK)))
  {
    hide Queued, Post, Frame;
    if batch == [] {
      assert AcksFor(session, batch) == {};
      assert seq(|AcksFor(session, batch)|, _ => Frame(LOGIN_OK)) == [];
      QueuedNone(s);
    } else {
      var before := batch[..|batch| - 1];
      AckedQueued(s, session, before);
      AckedStep(s, session, batch);
      AcksStep(session, batch);
      var acks := seq(|AcksFor(session, before)|, _ => Frame(LOGIN_OK));
      QueuedPost(s, Acked(s, session, before), acks, session.io);
      assert acks + [Frame(LOGIN_OK)] == seq(|acks| + 1, _ => Frame(LOGIN_OK));
    }
  }

  /** A session gets one success acknowledgement for each of its own loads in the batch,
    * behind what it has queued, and none for another's; once it is closed, no further one. */
  lemma AckedOncePerLoad(s: Sess, session: Session, batch: seq<LoadDone>)
    ensures var t, loads := Acked(s, session, batch), set i | 0 <= i < |batch| && batch[i].session == session;
      var acks := seq(|loads|, _ => [5, 0, 0xEA, 0x03, 1]);
      && s.send.queue <= t.send.queue <= s.send.queue + acks
      && (!t.send.closed ==> !s.send.closed && t.send.queue == s.send.queue + acks)
      && (s.send.closed || acks == [] ==> t == s)
      && t.uid == s.uid && t.bound == s.bound
  {
    AckedQueued(s, session, batch);
    AnswerFrames();
    hide Frame, Acked;
    var loads := set i | 0 <= i < |batch| && batch[i].session == session;
    assert loads == AcksFor(session, batch);
    assert seq(|loads|, _ => Frame(LOGIN_OK)) == seq(|loads|, _ => [5, 0, 0xEA, 0x03, 1]);
  }

  function ResultOf(job: LoadJob, table: Table): LoadDone {
    LoadDone(job.user, Query(table, job.uid), job.session)
  }

  /** The completions of a run of jobs, in order. Query n finds the table `tables(n)`. */
  function Results(jobs: seq<LoadJob>, tables: nat -> Table, n: nat): seq<LoadDone> {
    if jobs == [] then [] else [ResultOf(jobs[0], tables(n))] + Results(jobs[1..], tables, n + 1)
  }

  /** Each job completes with its own user and session, and with the rows that the table
    * held for its own uid when its turn came. */
  lemma {:induction false} ResultsInOrder(jobs: seq<LoadJob>, tables: nat -> Table, n: nat, i: nat)
    requires i < |jobs|
    ensures |Results(jobs, tables, n)| == |jobs|
    ensures var r, table := Results(jobs, tables, n)[i], tables(n + i);
      && r.user == jobs[i].user && r.session == jobs[i].session
      && r.rows == if jobs[i].uid in table then table[jobs[i].uid] else []
  {
    if |jobs| == 1 {
      assert Results(jobs[1..], tables, n + 1) == [];
    } else if i == 0 {
      ResultsInOrder(jobs[1..], tables, n + 1, 0);
    } else {
      ResultsInOrder(jobs[1..], tables, n + 1, i - 1);
    }
  }

  /** The main-thread callback of LoadUserEventsAsync, with HandleLogin's on_loaded. */
  method RunCallback(fn: LoadDone)
    modifies fn.user`events
    modifies fn.session`sendQueue, fn.session`sendInFlight, fn.session`closed, fn.session`ioCalls
    ensures fn.user.events == Overlay(old(fn.user.events), fn.rows)
    ensures !old(fn.session.closed) ==> fn.session.sendQueue == old(fn.session.sendQueue) + [[5, 0, 0xEA, 0x03, 1]]
    ensures fn.session.View() == Post(fn.session.io, old(fn.session.View()), LOGIN_OK)
  {
    AnswerFrames();
    fn.user.InsertRows(fn.rows);
    fn.session.PostSend(LOGIN_OK);
  }

  class AsyncDbJobQueue {
    var running: bool
    var jobQueue: seq<LoadJob>
    var completionQueue: seq<LoadDone>

    constructor ()
      ensures !running && jobQueue == [] && completionQueue == []
    {
      running, jobQueue, completionQueue := false, [], [];
    }

    method Enqueue(job: LoadJob)
      modifies `jobQueue
      ensures jobQueue == old(jobQueue) + [job]
    {
      jobQueue := jobQueue + [job];
    }

    /** One worker alone, until its predicate finds the queue empty: it then waits, or
      * returns if the queue is being stopped. Others may change the table meanwhile. */
    method WorkerLoop(tables: nat -> Table) returns (returned: bool)
      modifies `jobQueue, `completionQueue
      ensures jobQueue == [] && returned == !running
      ensures completionQueue == old(completionQueue) + Results(old(jobQueue), tables, 0)
    {
      var n := 0;
      while jobQueue != []
        invariant completionQueue + Results(jobQueue, tables, n) ==
                  old(completionQueue) + Results(old(jobQueue), tables, 0)
        decreases |jobQueue|
      {
        var job := jobQueue[0];
        ghost var done, rest := completionQueue, Results(jobQueue[1..], tables, n + 1);
        jobQueue := jobQueue[1..];
        var rows := Query(tables(n), job.uid);
        completionQueue := completionQueue + [LoadDone(job.user, rows, job.session)];
        ConcatAssoc(done, [ResultOf(job, tables(n))], rest);
        n := n + 1;
      }
      returned := !running;
    }

    /** Main thread: swap the completion queue out and run what was in it, in order. */
    method ProcessCompletions()
      modifies `completionQueue
      modifies set d <- completionQueue :: d.user`events
      modifies set d <- completionQueue :: d.session`sendQueue
      modifies set d <- completionQueue :: d.session`sendInFlight
      modifies set d <- completionQueue :: d.session`closed
      modifies set d <- completionQueue :: d.session`ioCalls
      ensures completionQueue == []
      ensures forall d <- old(completionQueue) ::
                d.user.events == Loaded(old(d.user.events), d.user, old(completionQueue))
      ensures forall d <- old(completionQueue) ::
                d.session.View() == Acked(old(d.session.View()), d.session, old(completionQueue))
    {
      var ready := completionQueue;
      completionQueue := [];
      for k := 0 to |ready|
        invariant completionQueue == []
        invariant forall d <- ready ::
                    d.user.events == Loaded(old(d.user.events), d.user, ready[..k])
        invariant forall d <- ready ::
                    d.session.View() == Acked(old(d.session.View()), d.session, ready[..k])
      {
        var fn := ready[k];
        assert ready[..k + 1][..k] == ready[..k];
        RunCallback(fn);
      }
      assert ready[..|ready|] == ready;
    }
  }
}
