/** One turn of IoCompletionPort::WorkerLoop after a completion was dequeued. */
module IoCompletionPort {
  import opened PacketDefs
  import opened SessionModel
  import opened GameServer

  datatype IoType = Recv | Send

  datatype Completion = Completion(key: nat, n: nat, io: IoType, ok: bool)

  class Port {
    var sessions: map<nat, Session>

    constructor ()
      ensures sessions == map[]
    {
      sessions := map[];
    }

    /** `created` is the outcome of CreateIoCompletionPort. */
    method AssociateSocket(socket: nat, session: Session, created: bool) returns (ok: bool)
      modifies this
      ensures ok == created
      ensures sessions == if ok then old(sessions)[socket := session] else old(sessions)
    {
      if !created {
        return false;
      }
      sessions := sessions[socket := session];
      return true;
    }

    method RemoveSession(socket: nat)
      modifies this
      ensures sessions == old(sessions) - {socket}
    {
      sessions := sessions - {socket};
    }

    /** A completion of a session no longer mapped is ignored. A failure, or the end of the
      * stream, closes the session and unmaps it. Anything else goes to its handler. What a
      * session must satisfy for the next completion holds again afterwards: it has a receive
      * outstanding unless it was closed, or this completion ended it. */
    method Handle(c: Completion, db: AsyncDbJobQueue)
      requires c.key in sessions ==> sessions[c.key].Valid()
      requires c.key in sessions && c.io == Recv ==> sessions[c.key].recvPosted && c.n <= MAX_PACKET_SIZE
      modifies this, if c.key in sessions then {sessions[c.key]} else {}, db`jobQueue
      ensures c.key !in old(sessions) ==> sessions == old(sessions) && db.jobQueue == old(db.jobQueue)
      ensures c.key in old(sessions) ==>
        var s := old(sessions)[c.key];
        && s.Valid()
        && if !c.ok || (c.n == 0 && c.io == Recv) then
             && sessions == old(sessions) - {c.key} && db.jobQueue == old(db.jobQueue)
             && s.View() == Shut(old(s.View())) && s.recvAccum == old(s.recvAccum)
             && s.recvPosted == (old(s.recvPosted) && c.io == Send)
           else if c.io == Recv then
             var e := Receive(s.io, old(s.View()), old(s.recvAccum), old(s.recvBuffer[..c.n]));
             && sessions == old(sessions) && s.View() == e.s && s.recvAccum == e.accum
             && s.recvPosted == !s.closed
             && LoadsQueued(s, e.loads, old(db.jobQueue), db.jobQueue)
           else
             && sessions == old(sessions) && db.jobQueue == old(db.jobQueue)
             && s.View() == SendDone(s.io, old(s.View())) && s.recvAccum == old(s.recvAccum)
             && s.recvPosted == old(s.recvPosted)
    {
      if c.key !in sessions {
        return;
      }
      var session := sessions[c.key];
      if c.io == Recv {
        session.recvPosted := false; // the outstanding receive is the one that completed
      }
      if !c.ok || (c.n == 0 && c.io == Recv) {
        session.Close();
        RemoveSession(c.key);
        return;
      }
      if c.io == Recv {
        session.OnRecvComplete(c.n, db);
      } else {
        session.OnSendComplete();
      }
    }
  }
}
