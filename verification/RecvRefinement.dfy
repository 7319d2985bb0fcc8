/** Session.OnRecvComplete takes the steps of RecvProtocol: what its contract says of one
  * chunk, one worker reaches by appending, turning, compacting and posting. */
module RecvRefinement {
  import opened PacketDefs
  import opened Framing
  import opened RecvProtocol
  import opened Steps

  lemma Takes(st: State, l: Label, mid: State, st': State, n: nat)
    requires Enabled(st, l) && mid == Apply(st, l) && Reaches(Next, mid, st', n)
    ensures Reaches(Next, st, st', n + 1)
  {
    hide Enabled, Apply;
    assert Next(st, mid);
  }

  predicate In(st: State, w: WorkerId, s: SessionId, pc: Pc) {
    s in st.sessions && w in st.workers && st.workers[w] == pc
  }

  lemma TurnStep(st: State, w: WorkerId, s: SessionId, offset: nat)
    requires In(st, w, s, Parsing(s, offset)) && offset <= |st.sessions[s].accum|
    ensures Enabled(st, Turn(w))
    ensures var st' := Apply(st, Turn(w)); var ses := st.sessions[s];
      match ReadHead(ses.accum[offset..])
      case NeedMore => In(st', w, s, Compacting(s, offset)) && st'.sessions[s] == ses && st'.armed == st.armed
      case Bad =>
        && In(st', w, s, Waiting) && st'.sessions[s] == ses.(bad := true, closed := true)
        && st'.armed == st.armed
      case Full(p, n) =>
        && In(st', w, s, Parsing(s, offset + n)) && st'.sessions[s] == ses.(routed := ses.routed + [p])
        && st'.armed == st.armed
  {
    hide ReadHead;
  }

  lemma EndStep(st: State, w: WorkerId, s: SessionId, offset: nat, ok: bool) returns (mid: State, st': State)
    requires In(st, w, s, Compacting(s, offset)) && offset <= |st.sessions[s].accum|
    ensures Enabled(st, Compact(w)) && mid == Apply(st, Compact(w))
    ensures Enabled(mid, Post(w, ok)) && st' == Apply(mid, Post(w, ok))
    ensures var ses := st.sessions[s];
      && In(st', w, s, Waiting)
      && st'.sessions[s] == ses.(accum := ses.accum[offset..], closed := ses.closed || !ok)
      && (s !in st.armed ==> (s in st'.armed <==> !st'.sessions[s].closed))
  {
    mid := Apply(st, Compact(w));
    st' := Apply(mid, Post(w, ok));
  }

  /** What the session is after the rest of its buffer has been parsed. */
  function Scanned(ses: Session, offset: nat, ok: bool): Session
    requires offset <= |ses.accum|
  {
    var r := Parse(ses.accum[offset..]);
    if r.bad then ses.(routed := ses.routed + r.packets, bad := true, closed := true)
    else ses.(routed := ses.routed + r.packets, accum := r.rest, closed := ses.closed || !ok)
  }

  lemma ScannedTurn(ses: Session, offset: nat, p: Packet, n: nat, ok: bool)
    requires offset <= |ses.accum| && ReadHead(ses.accum[offset..]) == Full(p, n)
    ensures Scanned(ses.(routed := ses.routed + [p]), offset + n, ok) == Scanned(ses, offset, ok)
  {
    hide ReadHead;
    var rest := ses.accum[offset..];
    assert rest[n..] == ses.accum[offset + n..];
    ConcatAssoc(ses.routed, [p], Parse(rest[n..]).packets);
  }

  lemma ScannedEnd(ses: Session, offset: nat, ok: bool)
    requires offset <= |ses.accum| && !ReadHead(ses.accum[offset..]).Full?
    ensures Scanned(ses, offset, ok) ==
            if ReadHead(ses.accum[offset..]).Bad? then ses.(bad := true, closed := true)
            else ses.(accum := ses.accum[offset..], closed := ses.closed || !ok)
  {
    hide ReadHead;
    assert ses.routed + [] == ses.routed;
  }

  /** The offset loop, the compaction and the next receive. */
  lemma {:induction false} ScanRefines(st: State, w: WorkerId, s: SessionId, offset: nat, ok: bool)
    returns (st': State, n: nat)
    requires In(st, w, s, Parsing(s, offset)) && offset <= |st.sessions[s].accum| && s !in st.armed
    requires !st.sessions[s].bad
    ensures Reaches(Next, st, st', n) && In(st', w, s, Waiting)
    ensures st'.sessions[s] == Scanned(st.sessions[s], offset, ok)
    ensures s in st'.armed <==> !st'.sessions[s].closed
    decreases |st.sessions[s].accum| - offset
  {
    hide Enabled, Apply, Scanned, Parse;
    TurnStep(st, w, s, offset);
    var ses, mid := st.sessions[s], Apply(st, Turn(w));
    match ReadHead(ses.accum[offset..]) {
      case Full(p, size) =>
        ScannedTurn(ses, offset, p, size, ok);
        st', n := ScanRefines(mid, w, s, offset + size, ok);
      case Bad =>
        ScannedEnd(ses, offset, ok);
        st', n := mid, 0;
      case NeedMore =>
        ScannedEnd(ses, offset, ok);
        var last, end := EndStep(mid, w, s, offset, ok);
        st', n := end, 2;
        Takes(last, Post(w, ok), end, end, 0);
        Takes(mid, Compact(w), last, end, 1);
    }
    Takes(st, Turn(w), mid, st', n);
    n := n + 1;
  }

  lemma AppendStep(st: State, w: WorkerId, s: SessionId, n: nat)
    requires In(st, w, s, Appending(s, n)) && n <= |st.sessions[s].buffer|
    ensures Enabled(st, Append(w))
    ensures var st' := Apply(st, Append(w)); var ses := st.sessions[s];
      && In(st', w, s, Parsing(s, 0)) && st'.sessions[s] == ses.(accum := ses.accum + ses.buffer[..n])
      && st'.armed == st.armed
  {
  }

  /** OnRecvComplete, by one worker while nobody closes the session, is a run of the
    * protocol. Of the chunk it makes what the fold that the method's contract speaks of
    * makes of it, and it leaves a receive outstanding exactly if the session is open. */
  lemma OnRecvCompleteRefines(st: State, w: WorkerId, s: SessionId, size: nat, ok: bool) returns (st': State, n: nat)
    requires In(st, w, s, Appending(s, size)) && size <= |st.sessions[s].buffer|
    requires s !in st.armed && !st.sessions[s].bad
    ensures Reaches(Next, st, st', n) && In(st', w, s, Waiting)
    ensures var ses, ses' := st.sessions[s], st'.sessions[s];
      && Feed(Inbox(ses.routed, ses.accum, false), ses.buffer[..size]) == Inbox(ses'.routed, ses'.accum, ses'.bad)
      && ses'.closed == (ses.closed || ses'.bad || !ok)
      && (s in st'.armed <==> !ses'.closed)
  {
    AppendStep(st, w, s, size);
    var mid := Apply(st, Append(w));
    hide Enabled, Apply;
    st', n := ScanRefines(mid, w, s, 0, ok);
    Takes(st, Append(w), mid, st', n);
    n := n + 1;
    hide Parse;
    var all := st.sessions[s].accum + st.sessions[s].buffer[..size];
    assert all[0..] == all;
  }
}
