/** NetworkServer: one turn of the accept loop, and Tick - database completions first, then
  * the time checks. */
module NetworkServer {
  import opened GameServer
  import opened IoCompletionPort
  import opened SessionModel
  import opened TickWindows
  import opened UserEvents

  function UsersOf(sessions: seq<Session>): set<CUser>
    reads sessions
  {
    set s <- sessions | s.user != null :: s.user
  }

  function OpenOf(sessions: seq<Session>): seq<Session>
    reads sessions
  {
    if sessions == [] then []
    else
      var s := sessions[|sessions| - 1];
      var before := OpenOf(sessions[..|sessions| - 1]);
      if s.closed then before else before + [s]
  }

  /** Erasing or passing the first of the sessions still to be seen. */
  lemma Tails<T>(now: seq<T>, i: nat, all: seq<T>, k: nat)
    requires i < |now| && k <= |all| && now[i..] == all[k..]
    ensures k < |all| && now[i] == all[k]
    ensures now[i + 1..] == all[k + 1..] && now[..i + 1] == now[..i] + [all[k]]
    ensures var erased := now[..i] + now[i + 1..]; erased[..i] == now[..i] && erased[i..] == now[i + 1..]
  {
    assert now[i] == now[i..][0] && all[k] == all[k..][0];
    assert now[i + 1..] == now[i..][1..] && all[k + 1..] == all[k..][1..];
  }

  /** The sessions that stay are the open ones. */
  lemma {:induction false} OpenExactly(all: seq<Session>, s: Session)
    ensures s in OpenOf(all) <==> s in all && !s.closed
    ensures s in OpenOf(all) && s.user != null ==> s.user in UsersOf(OpenOf(all))
  {
    if all == [] {
    } else {
      var n := |all| - 1;
      OpenExactly(all[..n], s);
      assert all == all[..n] + [all[n]];
    }
  }

  lemma OpenNone()
    ensures OpenOf([]) == [] && UsersOf([]) == {}
  {
  }

  lemma OpenSnoc(all: seq<Session>, k: nat)
    requires k < |all|
    ensures var before := OpenOf(all[..k]); var after := OpenOf(all[..k + 1]);
      if all[k].closed then after == before
      else
        && after == before + [all[k]]
        && UsersOf(after) == UsersOf(before) + if all[k].user == null then {} else {all[k].user}
  {
    assert all[..k + 1][..k] == all[..k];
  }

  class Server {
    var sessions: seq<Session>
    const iocp: Port

    constructor ()
      ensures sessions == [] && fresh(iocp) && iocp.sessions == map[]
    {
      sessions := [];
      iocp := new Port();
    }

    /** One turn of AcceptLoop: `socket` is what accept returned. A new session is known to
      * the completion port, has posted one receive and nothing else, and is closed if that
      * failed. */
    method Accept(socket: nat, io: Io, created: bool)
      modifies `sessions, iocp
      ensures socket == INVALID_SOCKET || !created ==>
                sessions == old(sessions) && iocp.sessions == old(iocp.sessions)
      ensures socket != INVALID_SOCKET && created ==>
                && |sessions| == |old(sessions)| + 1 && old(sessions) < sessions
                && var s := sessions[|old(sessions)|];
                && fresh(s) && s.Valid() && s.io == io && s.accepted == socket
                && iocp.sessions == old(iocp.sessions)[socket := s]
                && s.user == null && s.recvAccum == [] && s.recvPosted == !s.closed
                && s.View() == RecvPosted(io, Sess(SendSide([], false, false), 0, false, 0))
                && s.GetSocket() == (if io(0) then socket else INVALID_SOCKET)
    {
      if socket == INVALID_SOCKET {
        return;
      }
      var session := new Session(socket, io);
      var ok := iocp.AssociateSocket(socket, session, created);
      if !ok {
        session.Close();
        return;
      }
      sessions := sessions + [session];
      var _ := session.PostRecv();
    }

    /** Afterwards the closed sessions are gone and the others are in their old order. The
      * users of open sessions, and no others, have been checked at `now` - a user seen
      * twice as if once - after the completed loads were applied. The completion port keeps
      * the closed sessions: their sockets are asked for after Close has overwritten them. */
    method Tick(now: int, db: AsyncDbJobQueue)
      modifies `sessions, iocp, db`completionQueue
      modifies set d <- db.completionQueue :: d.user`events
      modifies set d <- db.completionQueue :: d.session`sendQueue
      modifies set d <- db.completionQueue :: d.session`sendInFlight
      modifies set d <- db.completionQueue :: d.session`closed
      modifies set d <- db.completionQueue :: d.session`ioCalls
      modifies set s <- sessions | s.user != null :: s.user`lastCheck
      ensures db.completionQueue == []
      ensures sessions == OpenOf(old(sessions))
      ensures iocp.sessions == old(iocp.sessions) - if |sessions| < |old(sessions)| then {INVALID_SOCKET} else {}
      ensures INVALID_SOCKET !in old(iocp.sessions) ==> iocp.sessions == old(iocp.sessions)
      ensures forall d <- old(db.completionQueue) ::
                d.user.events == Loaded(old(d.user.events), d.user, old(db.completionQueue))
      ensures forall d <- old(db.completionQueue) ::
                d.session.View() == Acked(old(d.session.View()), d.session, old(db.completionQueue))
      ensures forall s <- old(sessions) | s.user != null ::
                s.user.lastCheck ==
                if s.user in UsersOf(sessions) && now - old(s.user.lastCheck) >= 50_000_000 then now
                else old(s.user.lastCheck)
    {
      db.ProcessCompletions();
      CheckSessions(now);
    }

    /** One turn of the loop of Tick: erase the session, or check its user and go on. */
    method Visit(i: nat, now: int) returns (next: nat)
      requires i < |sessions|
      modifies `sessions, iocp
      modifies set s <- {sessions[i]} | s.user != null :: s.user`lastCheck
      ensures var was, s := old(sessions), old(sessions)[i];
        if s.closed then
          && next == i && sessions == was[..i] + was[i + 1..]
          && iocp.sessions == old(iocp.sessions) - {INVALID_SOCKET}
        else
          && next == i + 1 && sessions == was && iocp.sessions == old(iocp.sessions)
      ensures var s := old(sessions)[i];
        s.user != null ==>
          s.user.lastCheck ==
          if !s.closed && now - old(s.user.lastCheck) >= 50_000_000 then now else old(s.user.lastCheck)
    {
      var session := sessions[i];
      if session.closed {
        iocp.RemoveSession(session.GetSocket());
        sessions := sessions[..i] + sessions[i + 1..];
        return i;
      }
      if session.user != null {
        var _ := Check(now, session.user);
      }
      return i + 1;
    }

    /** The loop of Tick. */
    method CheckSessions(now: int)
      modifies `sessions, iocp
      modifies set s <- sessions | s.user != null :: s.user`lastCheck
      ensures sessions == OpenOf(old(sessions))
      ensures iocp.sessions == old(iocp.sessions) - if |sessions| < |old(sessions)| then {INVALID_SOCKET} else {}
      ensures forall s <- old(sessions) | s.user != null ::
                s.user.lastCheck ==
                if s.user in UsersOf(sessions) && now - old(s.user.lastCheck) >= 50_000_000 then now
                else old(s.user.lastCheck)
    {
      hide OpenOf, UsersOf;
      ghost var all, k := sessions, 0;
      ghost var open: seq<Session>, served: set<CUser> := [], {};
      OpenNone();
      var i := 0;
      while i < |sessions|
        invariant 0 <= i <= k <= |all| && i <= |sessions| && sessions[..i] == open && sessions[i..] == all[k..]
        invariant open == OpenOf(all[..k]) && served == UsersOf(open)
        invariant iocp.sessions == old(iocp.sessions) - if i < k then {INVALID_SOCKET} else {}
        invariant forall s <- all | s.user != null ::
                    s.user.lastCheck ==
                    if s.user in served && now - old(s.user.lastCheck) >= 50_000_000 then now
                    else old(s.user.lastCheck)
        decreases |all| - k
      {
        var session := sessions[i];
        Tails(sessions, i, all, k);
        OpenSnoc(all, k);
        i := Visit(i, now);
        k := k + 1;
        if !session.closed {
          open := open + [session];
          served := UsersOf(open);
        }
      }
      assert all[..|all|] == all;
    }
  }
}
