/** Length-prefixed framing of the byte stream: the parser of Session::OnRecvComplete
  * and the printer of Session::PostSend, as pure functions. */
module Framing {
  import opened PacketDefs

  // ----- Parsing -----

  /** What the first bytes of a buffer amount to. */
  datatype Head = NeedMore | Bad | Full(packet: Packet, size: nat)

  function ReadHead(s: seq<Byte>): (h: Head)
    ensures h.Full? ==> HEADER_SIZE <= h.size <= |s| && h.size <= MAX_PACKET_SIZE
  {
    if |s| < HEADER_SIZE then NeedMore
    else
      var size := U16At(s, 0);
      if size < HEADER_SIZE || size > MAX_PACKET_SIZE then Bad
      else if |s| < size then NeedMore
      else Full(Packet(U16At(s, 2), s[HEADER_SIZE..size]), size)
  }

  /** `bad` says that parsing stopped at an invalid length; `rest` is what was not consumed. */
  datatype Parsed = Parsed(packets: seq<Packet>, rest: seq<Byte>, bad: bool)

  function Parse(s: seq<Byte>): Parsed
    decreases |s|
  {
    match ReadHead(s)
    case NeedMore => Parsed([], s, false)
    case Bad => Parsed([], s, true)
    case Full(p, n) => Prepend([p], Parse(s[n..]))
  }

  function Prepend(ps: seq<Packet>, r: Parsed): Parsed {
    r.(packets := ps + r.packets)
  }

  lemma ConcatAssoc<T>(a: seq<T>, b: seq<T>, c: seq<T>)
    ensures (a + b) + c == a + (b + c)
  {
  }

  /** A complete packet of the given size starts at the offset. */
  predicate PacketAt(s: seq<Byte>, offset: nat) {
    && |s| - offset >= HEADER_SIZE
    && HEADER_SIZE <= U16At(s, offset) <= MAX_PACKET_SIZE
    && |s| - offset >= U16At(s, offset)
  }

  predicate BadLengthAt(s: seq<Byte>, offset: nat) {
    && |s| - offset >= HEADER_SIZE
    && !(HEADER_SIZE <= U16At(s, offset) <= MAX_PACKET_SIZE)
  }

  lemma HeadAt(s: seq<Byte>, offset: nat)
    requires offset <= |s|
    ensures PacketAt(s, offset) ==>
              ReadHead(s[offset..]) ==
              Full(Packet(U16At(s, offset + 2), s[offset + HEADER_SIZE..offset + U16At(s, offset)]), U16At(s, offset))
    ensures !PacketAt(s, offset) ==> ReadHead(s[offset..]) == if BadLengthAt(s, offset) then Bad else NeedMore
  {
    if |s| - offset >= HEADER_SIZE {
      assert U16At(s[offset..], 0) == U16At(s, offset);
      assert U16At(s[offset..], 2) == U16At(s, offset + 2);
    }
  }

  /** What was routed so far and what starts at the offset make up the whole parse. */
  ghost predicate ParsedUpTo(s: seq<Byte>, offset: nat, done: seq<Packet>) {
    offset <= |s| && Parse(s) == Prepend(done, Parse(s[offset..]))
  }

  lemma ParseStart(s: seq<Byte>)
    ensures ParsedUpTo(s, 0, [])
  {
    assert s[0..] == s;
    assert [] + Parse(s).packets == Parse(s).packets;
  }

  /** One turn of the offset loop: the packet found at the offset goes to the end of what
    * was parsed before it. */
  lemma {:induction false} ParseTurn(s: seq<Byte>, offset: nat, done: seq<Packet>, p: Packet)
    requires PacketAt(s, offset)
    requires p == Packet(U16At(s, offset + 2), s[offset + HEADER_SIZE..offset + U16At(s, offset)])
    requires ParsedUpTo(s, offset, done)
    ensures ParsedUpTo(s, offset + U16At(s, offset), done + [p])
  {
    HeadAt(s, offset);
    hide ReadHead;
    var t, n := s[offset..], U16At(s, offset);
    assert t[n..] == s[offset + n..];
    ConcatAssoc(done, [p], Parse(t[n..]).packets);
  }

  /** The loop ends where no packet starts; a bad length is the reason or it is not. */
  lemma ParseStop(s: seq<Byte>, offset: nat, done: seq<Packet>)
    requires ParsedUpTo(s, offset, done) && !PacketAt(s, offset)
    ensures Parse(s) == Parsed(done, s[offset..], BadLengthAt(s, offset))
    ensures ReadHead(s[offset..]) == if BadLengthAt(s, offset) then Bad else NeedMore
  {
    HeadAt(s, offset);
    hide ReadHead;
    assert done + [] == done;
  }

  // ----- Printing -----

  /** The buffer built by PostSend. The size field is a uint16_t: it wraps. */
  function Frame(p: Packet): seq<Byte> {
    U16Bytes((HEADER_SIZE + |p.payload|) % 0x1_0000) + U16Bytes(p.opcode) + p.payload
  }

  function FrameAll(ps: seq<Packet>): seq<Byte> {
    if ps == [] then [] else Frame(ps[0]) + FrameAll(ps[1..])
  }

  /** PostSend's payload_size parameter is a uint16_t. */
  predicate Postable(p: Packet) {
    |p.payload| < 0x1_0000
  }

  predicate Fits(p: Packet) {
    HEADER_SIZE + |p.payload| <= MAX_PACKET_SIZE
  }

  /** The layout of a frame, byte by byte: both header fields little-endian, the low 16 bits
    * of the size first. */
  lemma FrameLayout(p: Packet)
    ensures var s: seq<int> := Frame(p);
      && |s| == 4 + |p.payload|
      && s[0] + 256 * s[1] == (4 + |p.payload|) % 65536
      && s[2] + 256 * s[3] == p.opcode
      && s[4..] == p.payload
  {
    assert Frame(p)[4..] == p.payload;
  }

  /** What the parser makes of a buffer, by its bytes. */
  lemma HeadLayout(s: seq<Byte>)
    ensures |s| < 4 ==> ReadHead(s) == NeedMore
    ensures |s| >= 4 ==>
              var b: seq<int> := s;
              var size := b[0] + 256 * b[1];
              ReadHead(s) ==
              if size < 4 || 4096 < size then Bad
              else if |s| < size then NeedMore
              else Full(Packet(b[2] + 256 * b[3], s[4..size]), size)
  {
  }

  // ----- The parser finds the one decomposition into frames -----

  lemma HeadOfFrame(p: Packet, t: seq<Byte>)
    requires Postable(p)
    ensures Fits(p) ==> ReadHead(Frame(p) + t) == Full(p, |Frame(p)|)
    ensures !Fits(p) ==> ReadHead(Frame(p) + t) == Bad
  {
    var s := Frame(p) + t;
    assert U16At(s, 0) == (HEADER_SIZE + |p.payload|) % 0x1_0000;
    assert U16At(s, 2) == p.opcode;
    if Fits(p) {
      assert s[HEADER_SIZE..HEADER_SIZE + |p.payload|] == p.payload;
    }
  }

  lemma FrameOfHead(s: seq<Byte>)
    requires ReadHead(s).Full?
    ensures Fits(ReadHead(s).packet) && Frame(ReadHead(s).packet) == s[..ReadHead(s).size]
  {
    var size := U16At(s, 0);
    assert U16Bytes(size) == s[..2];
    assert U16Bytes(U16At(s, 2)) == s[2..4];
    assert s[..size] == s[..2] + s[2..4] + s[4..size];
  }

  lemma FrameAllCons(p: Packet, ps: seq<Packet>)
    ensures FrameAll([p] + ps) == Frame(p) + FrameAll(ps)
  {
    assert ([p] + ps)[1..] == ps;
  }

  lemma FramesBack(p: Packet, r: Parsed, s: seq<Byte>, n: nat)
    requires n <= |s| && Frame(p) == s[..n] && FrameAll(r.packets) + r.rest == s[n..]
    ensures FrameAll([p] + r.packets) + r.rest == s
  {
    FrameAllCons(p, r.packets);
    hide Frame, FrameAll;
    ConcatAssoc(s[..n], FrameAll(r.packets), r.rest);
    assert s[..n] + s[n..] == s;
  }

  /** Soundness: what is parsed, framed again, gives back the consumed bytes. */
  lemma {:induction false} ParseSound(s: seq<Byte>)
    ensures forall p <- Parse(s).packets :: Fits(p)
    ensures FrameAll(Parse(s).packets) + Parse(s).rest == s
    ensures ReadHead(Parse(s).rest) == if Parse(s).bad then Bad else NeedMore
    decreases |s|
  {
    hide ReadHead, Frame, Fits;
    var h := ReadHead(s);
    if !h.Full? {
    } else {
      FrameOfHead(s);
      var r := Parse(s[h.size..]);
      ParseSound(s[h.size..]);
      assert Parse(s) == Prepend([h.packet], r);
      FramesBack(h.packet, r, s, h.size);
      hide Parse, FrameAll;
      forall p <- [h.packet] + r.packets
        ensures Fits(p)
      {
        assert p == h.packet || p in r.packets;
      }
    }
  }

  /** Completeness and uniqueness: any decomposition of a stream into frames and a tail
    * that does not start with a frame is the one the parser finds. */
  lemma {:induction false} ParseUnique(ps: seq<Packet>, rest: seq<Byte>)
    requires forall p <- ps :: Fits(p)
    requires !ReadHead(rest).Full?
    ensures Parse(FrameAll(ps) + rest) == Parsed(ps, rest, ReadHead(rest).Bad?)
    decreases |ps|
  {
    if ps == [] {
      assert FrameAll(ps) + rest == rest;
    } else {
      var t := FrameAll(ps[1..]) + rest;
      assert FrameAll(ps) + rest == Frame(ps[0]) + t;
      assert Fits(ps[0]);
      HeadOfFrame(ps[0], t);
      assert (Frame(ps[0]) + t)[|Frame(ps[0])|..] == t;
      ParseUnique(ps[1..], rest);
      assert [ps[0]] + ps[1..] == ps;
    }
  }

  /** The leftover of an open stream is shorter than one maximal packet. */
  lemma {:induction false} LeftoverBound(s: seq<Byte>)
    requires !Parse(s).bad
    ensures |Parse(s).rest| < MAX_PACKET_SIZE
  {
    ParseSound(s);
  }

  // ----- Chunking independence -----

  lemma HeadExtends(s: seq<Byte>, t: seq<Byte>)
    ensures !ReadHead(s).NeedMore? ==> ReadHead(s + t) == ReadHead(s)
  {
    if |s| >= HEADER_SIZE {
      var n := U16At(s, 0);
      assert U16At(s + t, 0) == n && U16At(s + t, 2) == U16At(s, 2);
      assert HEADER_SIZE <= n <= |s| ==> (s + t)[HEADER_SIZE..n] == s[HEADER_SIZE..n];
    }
  }

  /** Parsing may be suspended after any prefix and resumed from the leftover; once a
    * bad length is met, later bytes change neither the packets nor the verdict. */
  lemma {:induction false} ParseResume(s: seq<Byte>, t: seq<Byte>)
    ensures !Parse(s).bad ==> Parse(s + t) == Prepend(Parse(s).packets, Parse(Parse(s).rest + t))
    ensures Parse(s).bad ==> Parse(s + t) == Parsed(Parse(s).packets, Parse(s).rest + t, true)
    decreases |s|
  {
    HeadExtends(s, t);
    hide ReadHead;
    var h := ReadHead(s);
    if !h.Full? {
    } else {
      assert (s + t)[h.size..] == s[h.size..] + t;
      ParseResume(s[h.size..], t);
      var r := Parse(s[h.size..]);
      ConcatAssoc([h.packet], r.packets, Parse(r.rest + t).packets);
    }
  }

  /** The receiving end of one session between completions. */
  datatype Inbox = Inbox(routed: seq<Packet>, accum: seq<Byte>, bad: bool)

  const EMPTY_INBOX := Inbox([], [], false)

  /** One OnRecvComplete: append, route every complete packet, keep the leftover. A
    * session that met a bad length posts no further receive, so it is fed nothing; its
    * buffer is not compacted. */
  function Feed(b: Inbox, chunk: seq<Byte>): Inbox {
    if b.bad then b
    else
      var r := Parse(b.accum + chunk);
      Inbox(b.routed + r.packets, if r.bad then b.accum + chunk else r.rest, r.bad)
  }

  function FeedAll(b: Inbox, chunks: seq<seq<Byte>>): Inbox
    decreases |chunks|
  {
    if chunks == [] then b else FeedAll(Feed(b, chunks[0]), chunks[1..])
  }

  function Concat(chunks: seq<seq<Byte>>): seq<Byte> {
    if chunks == [] then [] else chunks[0] + Concat(chunks[1..])
  }

  /** The inbox holds what parsing the stream gives, after what was routed before. */
  predicate Agrees(before: seq<Packet>, b: Inbox, r: Parsed) {
    b.routed == before + r.packets && b.bad == r.bad && (!r.bad ==> b.accum == r.rest)
  }

  lemma {:induction false} FeedBadIsFinal(b: Inbox, chunks: seq<seq<Byte>>)
    requires b.bad
    ensures FeedAll(b, chunks) == b
  {
    if chunks == [] {
    } else {
      FeedBadIsFinal(b, chunks[1..]);
    }
  }

  lemma {:induction false} FeedAllResumes(b: Inbox, chunks: seq<seq<Byte>>)
    requires !b.bad && ReadHead(b.accum) == NeedMore
    ensures Agrees(b.routed, FeedAll(b, chunks), Parse(b.accum + Concat(chunks)))
    decreases |chunks|
  {
    if chunks == [] {
      assert b.accum + Concat(chunks) == b.accum;
    } else {
      var s, t := b.accum + chunks[0], Concat(chunks[1..]);
      ConcatAssoc(b.accum, chunks[0], t);
      var b' := Feed(b, chunks[0]);
      ParseResume(s, t);
      ConcatAssoc(b.routed, Parse(s).packets, Parse(Parse(s).rest + t).packets);
      ParseSound(s);
      if b'.bad {
        FeedBadIsFinal(b', chunks[1..]);
      } else {
        FeedAllResumes(b', chunks[1..]);
      }
    }
  }

  /** However the stream is cut, the same packets are routed, the same streams are
    * rejected, and an open session keeps the same leftover. */
  lemma ChunkingIndependence(chunks: seq<seq<Byte>>)
    ensures Agrees([], FeedAll(EMPTY_INBOX, chunks), Parse(Concat(chunks)))
  {
    FeedAllResumes(EMPTY_INBOX, chunks);
    assert EMPTY_INBOX.accum + Concat(chunks) == Concat(chunks);
  }

  // ----- Round trip -----

  /** The longest prefix of packets that a receiver accepts. */
  function Deliverable(ps: seq<Packet>): seq<Packet> {
    if ps == [] || !Fits(ps[0]) then [] else [ps[0]] + Deliverable(ps[1..])
  }

  /** A receiver routes exactly the packets before the first oversized one, and drops the
    * connection exactly when there is one - also where the size field wraps. */
  lemma {:induction false} ParseOfPosted(ps: seq<Packet>)
    requires forall p <- ps :: Postable(p)
    ensures Parse(FrameAll(ps)).packets == Deliverable(ps)
    ensures Parse(FrameAll(ps)).bad <==> exists p <- ps :: !Fits(p)
    ensures !Parse(FrameAll(ps)).bad ==> Parse(FrameAll(ps)).rest == []
  {
    if ps == [] {
    } else {
      var t := FrameAll(ps[1..]);
      HeadOfFrame(ps[0], t);
      assert (Frame(ps[0]) + t)[|Frame(ps[0])|..] == t;
      ParseOfPosted(ps[1..]);
      assert forall p <- ps :: p == ps[0] || p in ps[1..];
    }
  }

  lemma {:induction false} DeliverableIsAll(ps: seq<Packet>)
    ensures Deliverable(ps) == ps <==> forall p <- ps :: Fits(p)
  {
    if ps == [] {
    } else {
      DeliverableIsAll(ps[1..]);
      assert ps == [ps[0]] + ps[1..];
      if Fits(ps[0]) && Deliverable(ps) == ps {
        assert Deliverable(ps)[1..] == Deliverable(ps[1..]);
      }
    }
  }

  /** The round trip, in any chunking: the posted packets are routed, in order, with
    * nothing left over and no disconnect, exactly when each payload fits. */
  lemma RoundTrip(ps: seq<Packet>, chunks: seq<seq<Byte>>)
    requires forall p <- ps :: Postable(p)
    requires Concat(chunks) == FrameAll(ps)
    ensures FeedAll(EMPTY_INBOX, chunks) == Inbox(ps, [], false) <==> forall p <- ps :: |p.payload| <= 4092
  {
    ChunkingIndependence(chunks);
    ParseOfPosted(ps);
    DeliverableIsAll(ps);
    if (forall p <- ps :: Fits(p)) {
      assert !Parse(FrameAll(ps)).bad;
    }
  }

  /** Framing is uniquely decodable. */
  lemma {:induction false} FramingInjective(ps: seq<Packet>, qs: seq<Packet>)
    requires forall p <- ps + qs :: Fits(p)
    requires FrameAll(ps) == FrameAll(qs)
    ensures ps == qs
  {
    assert forall p <- ps :: p in ps + qs;
    assert forall q <- qs :: q in ps + qs;
    ParseUnique(ps, []);
    ParseUnique(qs, []);
    assert FrameAll(ps) + [] == FrameAll(qs) + [];
  }
}
