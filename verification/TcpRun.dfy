/**
  Two endpoints of src/tcp.c over a network that loses, duplicates, delays and
  reorders segments: a wire is the set of segments ever sent, and any of them
  may be delivered at any time, any number of times, or never.

  The last part of the module states what every run keeps: the bytes handed to
  the application, followed by those still in the receive ring, are a prefix of
  the bytes the peer numbered; what `net_tcp_send` counted has been accepted;
  and a FIN is taken only after every byte before it.
 */
module TcpRun {
  import opened Types
  import opened Tcp

  /** `net_tcp_send` in progress: `done` bytes counted, `chunk` bytes awaiting their ACK. */
  datatype SendCall = NoCall | Call(data: seq<Byte>, start: nat, done: nat, chunk: nat)

  /**
    A connection and its history: the bytes it numbered, whether it numbered a
    FIN, the bytes the application received, and whether it knows the peer's
    initial sequence number.
   */
  datatype Endpoint = Endpoint(
    conn: Conn,
    iss: U32,
    synced: bool,
    sent: seq<Byte>,
    fin: bool,
    delivered: seq<Byte>,
    call: SendCall)

  datatype System = System(a: Endpoint, b: Endpoint, wireA: set<Segment>, wireB: set<Segment>)

  datatype Action =
    | Deliver(s: Segment, now: nat)
    | Timer(now: nat)
    | StartSend(data: seq<Byte>)
    | SendChunk(now: nat)
    | ChunkAcked
    | SendReturn
    | Read(cap: nat)
    | Close(now: nat)
    | Abandon

  datatype Event = AtA(act: Action) | AtB(act: Action)

  datatype Effect = Effect(end: Endpoint, sent: seq<Segment>)

  function Received(x: Endpoint): seq<Byte> {
    x.delivered + x.conn.rx
  }

  /** Sequence numbers this endpoint has used: its SYN, its bytes, its FIN. */
  function SndOff(x: Endpoint): nat {
    if x.conn.state == Listen then 0 else 1 + |x.sent| + (if x.fin then 1 else 0)
  }

  /** Sequence numbers this endpoint has accepted from its peer. */
  function RcvOff(x: Endpoint): nat {
    if !x.synced then 0 else 1 + |Received(x)| + (if x.conn.peerFin then 1 else 0)
  }

  function OnSegment(x: Endpoint, s: Segment, now: nat): Effect {
    if !x.conn.inUse then
      Effect(x, [])
    else if x.conn.state == Listen then
      var o := PassiveOpen(x.conn, s, x.iss, now);
      Effect(x.(conn := o.conn, synced := x.synced || s.flags.syn), o.sent)
    else
      var o := Input(x.conn, s);
      var opens := !s.flags.rst && x.conn.state == SynSent && s.flags.syn && s.flags.ack;
      Effect(x.(conn := o.conn, synced := x.synced || opens), o.sent)
  }

  function OnTimer(x: Endpoint, now: nat): Effect {
    var o := Tick(x.conn, now);
    Effect(x.(conn := o.conn), o.sent)
  }

  function OnStartSend(x: Endpoint, data: seq<Byte>): Endpoint {
    if x.call.NoCall? && x.conn.inUse then x.(call := Call(data, |x.sent|, 0, 0)) else x
  }

  /** The next chunk of the call in progress, if it may be sent now. */
  function OnSendChunk(x: Endpoint, now: nat): Effect {
    if x.call.Call? && x.call.chunk == 0 && x.call.done < |x.call.data| && x.conn.state == Established then
      var data := Clip(x.call.data[x.call.done..]);
      if SndOff(x) + |data| < TWO31 then
        var o := Emit(x.conn, PSH_ACK, data, now);
        Effect(x.(conn := o.conn, sent := x.sent + data, call := x.call.(chunk := |data|)), o.sent)
      else
        Effect(x, [])
    else
      Effect(x, [])
  }

  function OnChunkAcked(x: Endpoint): Endpoint {
    if x.call.Call? && x.call.chunk > 0 && x.conn.retx.None? && x.conn.state != Done then
      x.(call := x.call.(done := x.call.done + x.call.chunk, chunk := 0))
    else
      x
  }

  /** What `net_tcp_send` returns when it stops in this state. */
  function Returns(x: Endpoint): int
    requires x.call.Call?
  {
    SendResult(x.call.data, x.call.done)
  }

  function OnRead(x: Endpoint, cap: nat): Endpoint {
    if x.call.NoCall? && x.conn.inUse then
      x.(conn := AfterRecv(x.conn, cap), delivered := x.delivered + Taken(x.conn, cap))
    else
      x
  }

  function OnClose(x: Endpoint, now: nat): Effect {
    if x.call.NoCall? && x.conn.inUse && x.conn.state == Established && SndOff(x) + 1 < TWO31 then
      var o := Emit(x.conn, FIN_ACK, [], now);
      Effect(x.(conn := o.conn.(state := FinWait), fin := true), o.sent)
    else
      Effect(x, [])
  }

  function Act(x: Endpoint, inbox: set<Segment>, act: Action): Effect {
    match act
    case Deliver(s, now) => if s in inbox then OnSegment(x, s, now) else Effect(x, [])
    case Timer(now) => OnTimer(x, now)
    case StartSend(data) => Effect(OnStartSend(x, data), [])
    case SendChunk(now) => OnSendChunk(x, now)
    case ChunkAcked => Effect(OnChunkAcked(x), [])
    case SendReturn => Effect(x.(call := NoCall), [])
    case Read(cap) => Effect(OnRead(x, cap), [])
    case Close(now) => OnClose(x, now)
    case Abandon => Effect(x.(conn := x.conn.(inUse := false)), [])
  }

  function Wire(w: set<Segment>, sent: seq<Segment>): set<Segment> {
    w + (set s | s in sent)
  }

  function Next(y: System, e: Event): System {
    match e
    case AtA(act) =>
      var f := Act(y.a, y.wireB, act);
      y.(a := f.end, wireA := Wire(y.wireA, f.sent))
    case AtB(act) =>
      var f := Act(y.b, y.wireA, act);
      y.(b := f.end, wireB := Wire(y.wireB, f.sent))
  }

  /** `a` has called connect, `b` listen; the initial sequence numbers are anything. */
  function Start(issA: U32, issB: U32, now: nat): System {
    var o := ActiveOpen(issA, now);
    System(Endpoint(o.conn, issA, false, [], false, [], NoCall),
           Endpoint(Listening, issB, false, [], false, [], NoCall),
           Wire({}, o.sent), {})
  }

  function Run(y: System, trace: seq<Event>): System {
    if trace == [] then y else Next(Run(y, trace[..|trace| - 1]), trace[|trace| - 1])
  }

  // ----- What every state keeps, for `x` as sender and `y` as its peer -----

  /** A segment of `x` carries what its sequence numbers name, and acknowledges no more than `x` has. */
  predicate SegmentOk(s: Segment, x: Endpoint, peerIss: U32) {
    var o := Off(s.seqno, x.iss);
    && !s.flags.rst
    && (s.flags.syn ==> o == 0 && s.payload == [] && !s.flags.fin)
    && (s.payload != [] ==>
         1 <= o && o - 1 + |s.payload| <= |x.sent| && s.payload == x.sent[o - 1..o - 1 + |s.payload|])
    && (s.flags.fin ==> x.fin && s.payload == [] && o == 1 + |x.sent|)
    && (s.flags.ack ==> x.synced && Off(s.ackno, peerIss) <= RcvOff(x))
  }

  predicate WireOk(w: set<Segment>, x: Endpoint, peerIss: U32) {
    forall s :: s in w ==> SegmentOk(s, x, peerIss)
  }

  predicate SenderOk(x: Endpoint, y: Endpoint) {
    && SndOff(x) < TWO31
    && (x.conn.state == Listen ==> !x.synced && x.sent == [] && !x.fin && x.conn.retx.None?)
    && (x.conn.state != Listen ==> x.conn.sndNxt == Add32(x.iss, SndOff(x)))
    && (x.conn.state == Established || x.conn.state == FinWait ==> x.synced && y.synced)
    && (x.conn.state == SynRcvd ==> x.synced)
    && (x.conn.state == SynSent ==> !x.synced)
    && (x.sent != [] || x.fin ==> y.synced)
    && (x.fin ==> x.conn.state == FinWait || x.conn.state == Done)
    && x.conn.state != Closed
  }

  /** The outstanding segment ends where the numbering stands; nothing outstanding means all was accepted. */
  predicate RetxOk(x: Endpoint, y: Endpoint, w: set<Segment>) {
    && (x.conn.state == Listen ==> w == {})
    && (x.conn.retx.Some? ==> x.conn.retx.value in w && x.conn.retxSeq == x.conn.sndNxt)
    && (x.conn.retx.None? && x.conn.state != Listen && x.conn.state != Done ==> RcvOff(y) == SndOff(x))
  }

  predicate ReceiverOk(y: Endpoint, x: Endpoint) {
    && |y.conn.rx| <= RXBUF
    && Received(y) <= x.sent
    && (y.conn.peerFin ==> x.fin && Received(y) == x.sent)
    && (y.synced ==> x.conn.state != Listen && y.conn.rcvNxt == Add32(x.iss, RcvOff(y)))
    && (!y.synced ==> Received(y) == [] && !y.conn.peerFin &&
                      (y.conn.state == Listen || y.conn.state == SynSent || y.conn.state == Done))
  }

  predicate CallOk(x: Endpoint, y: Endpoint) {
    x.call.Call? ==>
      var c := x.call;
      && c.done + c.chunk <= |c.data|
      && c.start + c.done + c.chunk == |x.sent|
      && x.sent[c.start..] == c.data[..c.done + c.chunk]
      && (c.done > 0 ==> c.start + c.done <= |Received(y)|)
  }

  predicate HalfOk(x: Endpoint, y: Endpoint, w: set<Segment>) {
    && SenderOk(x, y)
    && WireOk(w, x, y.iss)
    && RetxOk(x, y, w)
    && ReceiverOk(y, x)
    && CallOk(x, y)
  }

  predicate Ok(s: System) {
    HalfOk(s.a, s.b, s.wireA) && HalfOk(s.b, s.a, s.wireB)
  }

  // ----- Proofs -----

  /** What any step of `x` leaves of its history. */
  predicate Grows(x: Endpoint, x': Endpoint) {
    && x'.iss == x.iss
    && x.sent <= x'.sent
    && (x.fin ==> x'.fin && x'.sent == x.sent)
    && (x.synced ==> x'.synced)
    && (x.conn.state != Listen ==> x'.conn.state != Listen)
    && RcvOff(x) <= RcvOff(x')
    && |Received(x)| <= |Received(x')|
  }

  lemma SegmentOkGrows(s: Segment, x: Endpoint, x': Endpoint, peerIss: U32)
    requires SegmentOk(s, x, peerIss) && Grows(x, x')
    ensures SegmentOk(s, x', peerIss)
  {
    if s.payload != [] {
      var o := Off(s.seqno, x.iss);
      assert x'.sent[..|x.sent|] == x.sent;
      assert x.sent[o - 1..o - 1 + |s.payload|] == x'.sent[o - 1..o - 1 + |s.payload|];
    }
  }

  lemma WireOkGrows(w: set<Segment>, x: Endpoint, x': Endpoint, sent: seq<Segment>, peerIss: U32)
    requires WireOk(w, x, peerIss) && Grows(x, x')
    requires forall s :: s in sent ==> SegmentOk(s, x', peerIss)
    ensures WireOk(Wire(w, sent), x', peerIss)
  {
    forall s | s in Wire(w, sent) ensures SegmentOk(s, x', peerIss) {
      if s in w {
        SegmentOkGrows(s, x, x', peerIss);
      }
    }
  }

  /** A step of the peer `y` that only accepts more keeps `x`'s half, as sender. */
  lemma PeerGrows(x: Endpoint, y: Endpoint, y': Endpoint, w: set<Segment>)
    requires HalfOk(x, y, w) && Grows(y, y') && ReceiverOk(y', x)
    ensures HalfOk(x, y', w)
  {
    RcvOffBound(y', x);
    RcvOffBound(y, x);
  }

  lemma RcvOffBound(y: Endpoint, x: Endpoint)
    requires ReceiverOk(y, x)
    ensures RcvOff(y) <= SndOff(x)
  {
  }

  predicate BothOk(x: Endpoint, y: Endpoint, wx: set<Segment>, wy: set<Segment>) {
    HalfOk(x, y, wx) && HalfOk(y, x, wy)
  }

  /** A step of `x` that keeps its own half and what it has accepted keeps both halves. */
  lemma FromMine(x: Endpoint, x': Endpoint, y: Endpoint, wx: set<Segment>, wx': set<Segment>, wy: set<Segment>)
    requires BothOk(x, y, wx, wy) && Grows(x, x')
    requires SenderOk(x', y) && WireOk(wx', x', y.iss) && RetxOk(x', y, wx') && CallOk(x', y)
    requires ReceiverOk(x', y)
    requires x'.sent == x.sent || y.conn.peerFin == false
    ensures BothOk(x', y, wx', wy)
  {
    PeerGrows(y, x, x', wy);
  }

  /** `x'` numbers, has accepted and has delivered what `x` did. */
  predicate SameStream(x: Endpoint, x': Endpoint) {
    && x' == x.(conn := x'.conn, call := x'.call, delivered := x'.delivered)
    && x'.conn.sndNxt == x.conn.sndNxt && x'.conn.rcvNxt == x.conn.rcvNxt
    && x'.conn.peerFin == x.conn.peerFin && |x'.conn.rx| <= |x.conn.rx|
    && Received(x') == Received(x)
    && (x'.conn.state == Listen <==> x.conn.state == Listen)
  }

  lemma QuietOk(x: Endpoint, x': Endpoint, y: Endpoint, wx: set<Segment>, wy: set<Segment>)
    requires BothOk(x, y, wx, wy) && SameStream(x, x')
    requires SenderOk(x', y) && RetxOk(x', y, wx) && CallOk(x', y)
    requires x'.conn.state == x.conn.state || x.synced || x'.conn.state == Done
    ensures BothOk(x', y, wx, wy) && Grows(x, x')
  {
    assert ReceiverOk(x', y);
    WireOkGrows(wx, x, x', [], y.iss);
    assert Wire(wx, []) == wx;
    FromMine(x, x', y, wx, wx, wy);
  }

  /** The outstanding segment is cleared only by an ACK that reaches its end. */
  lemma AckClears(x: Endpoint, y: Endpoint, wx: set<Segment>, wy: set<Segment>, s: Segment)
    requires BothOk(x, y, wx, wy) && s in wy
    requires x.conn.retx.Some? && s.flags.ack && !SeqLt(s.ackno, x.conn.retxSeq)
    ensures RcvOff(y) == SndOff(x)
  {
    assert SegmentOk(s, y, x.iss);
    AddOff(s.ackno, x.iss);
    RcvOffBound(y, x);
    SeqLtIsOrder(x.iss, Off(s.ackno, x.iss), SndOff(x));
  }

  /** Processing the acknowledgement of a segment `s` of the peer. */
  lemma AckOk(x: Endpoint, y: Endpoint, wx: set<Segment>, wy: set<Segment>, s: Segment)
    requires BothOk(x, y, wx, wy) && s in wy && x.conn.state != Listen
    ensures BothOk(x.(conn := AfterAck(x.conn, s)), y, wx, wy)
    ensures Grows(x, x.(conn := AfterAck(x.conn, s)))
  {
    var x' := x.(conn := AfterAck(x.conn, s));
    AckKeeps(x, y, wx, wy, s);
    QuietOk(x, x', y, wx, wy);
  }

  lemma AckKeeps(x: Endpoint, y: Endpoint, wx: set<Segment>, wy: set<Segment>, s: Segment)
    requires BothOk(x, y, wx, wy) && s in wy && x.conn.state != Listen
    ensures var x' := x.(conn := AfterAck(x.conn, s));
            SameStream(x, x') && SenderOk(x', y) && RetxOk(x', y, wx) && CallOk(x', y)
  {
    var x' := x.(conn := AfterAck(x.conn, s));
    assert SegmentOk(s, y, x.iss);
    AckSender(x, y, s);
    if x.conn.retx.Some? && x'.conn.retx.None? {
      AckClears(x, y, wx, wy, s);
    }
  }

  lemma AckSender(x: Endpoint, y: Endpoint, s: Segment)
    requires SenderOk(x, y) && x.conn.state != Listen && (s.flags.ack ==> y.synced)
    ensures var x' := x.(conn := AfterAck(x.conn, s)); SenderOk(x', y) && SameStream(x, x')
  {
  }

  /** A bare ACK names no data and acknowledges what `x` has accepted. */
  lemma AckSegmentOk(x: Endpoint, y: Endpoint)
    requires SenderOk(x, y) && ReceiverOk(x, y) && x.synced && SenderOk(y, x)
    ensures SegmentOk(AckSegment(x.conn), x, y.iss)
  {
    RcvOffBound(x, y);
    OffOfAdd(y.iss, RcvOff(x));
  }

  /** In-order data extends what was received along the peer's own bytes. */
  lemma DataExtends(x: Endpoint, y: Endpoint, s: Segment)
    requires ReceiverOk(x, y) && SenderOk(y, x) && SegmentOk(s, y, x.iss)
    requires x.synced && s.payload != [] && s.seqno == x.conn.rcvNxt
    ensures !x.conn.peerFin && Received(x) + s.payload <= y.sent
  {
    RcvOffBound(x, y);
    OffOfAdd(y.iss, RcvOff(x));
    var r := |Received(x)|;
    assert y.sent[..r] == Received(x);
    if !x.conn.peerFin {
      assert y.sent[..r + |s.payload|] == y.sent[..r] + y.sent[r..r + |s.payload|];
    }
  }

  /** `x'` is `x` with `bytes` buffered and their numbers accepted. */
  lemma BytesTaken(x: Endpoint, x': Endpoint, y: Endpoint, bytes: seq<Byte>)
    requires ReceiverOk(x, y) && x.synced && !x.conn.peerFin && Received(x) + bytes <= y.sent
    requires x' == x.(conn := x.conn.(rx := x.conn.rx + bytes, rcvNxt := x'.conn.rcvNxt)) && |x'.conn.rx| <= RXBUF
    requires x'.conn.rcvNxt == Add32(y.iss, RcvOff(x) + |bytes|)
    ensures ReceiverOk(x', y) && Grows(x, x')
  {
    assert Received(x') == Received(x) + bytes;
    assert RcvOff(x') == RcvOff(x) + |bytes|;
  }

  lemma DataTaken(x: Endpoint, y: Endpoint, s: Segment)
    requires ReceiverOk(x, y) && SenderOk(y, x) && SegmentOk(s, y, x.iss)
    requires x.synced && s.payload != []
    ensures var x' := x.(conn := AfterData(x.conn, s).conn); ReceiverOk(x', y) && Grows(x, x')
  {
    var x' := x.(conn := AfterData(x.conn, s).conn);
    if s.seqno == x.conn.rcvNxt && |x.conn.rx| + |s.payload| <= RXBUF {
      DataExtends(x, y, s);
      AddMore(y.iss, RcvOff(x), |s.payload|);
      BytesTaken(x, x', y, s.payload);
    } else {
      assert x' == x;
    }
  }

  lemma DataOk(x: Endpoint, y: Endpoint, wx: set<Segment>, wy: set<Segment>, s: Segment)
    requires BothOk(x, y, wx, wy) && s in wy && x.conn.state != Listen && x.conn.state != SynSent
    ensures var o := AfterData(x.conn, s);
            BothOk(x.(conn := o.conn), y, Wire(wx, o.sent), wy) && Grows(x, x.(conn := o.conn))
  {
    var o := AfterData(x.conn, s);
    var x' := x.(conn := o.conn);
    assert SegmentOk(s, y, x.iss);
    if s.payload == [] {
      assert Wire(wx, []) == wx;
    } else {
      assert x.synced;
      DataTaken(x, y, s);
      DataSender(x, y, wx, s);
      AckSegmentOk(x', y);
      WireOkGrows(wx, x, x', o.sent, y.iss);
      FromMine(x, x', y, wx, Wire(wx, o.sent), wy);
    }
  }

  /** Taking data numbers nothing. */
  lemma DataSender(x: Endpoint, y: Endpoint, w: set<Segment>, s: Segment)
    requires SenderOk(x, y) && RetxOk(x, y, w) && CallOk(x, y) && x.conn.state != Listen
    ensures var o := AfterData(x.conn, s);
            var x' := x.(conn := o.conn);
            SenderOk(x', y) && RetxOk(x', y, Wire(w, o.sent)) && CallOk(x', y)
  {
  }

  lemma AddMore(iss: U32, n: nat, k: nat)
    ensures Add32(Add32(iss, n), k) == Add32(iss, n + k)
  {
  }

  /** A FIN is taken only when everything before it has been received. */
  lemma FinClosesStream(x: Endpoint, y: Endpoint, s: Segment)
    requires ReceiverOk(x, y) && SenderOk(y, x) && SegmentOk(s, y, x.iss)
    requires x.synced && s.flags.fin && Add32(s.seqno, |s.payload|) == x.conn.rcvNxt
    ensures y.fin && !x.conn.peerFin && Received(x) == y.sent
  {
    RcvOffBound(x, y);
    OffOfAdd(y.iss, RcvOff(x));
    assert s.payload == [];
    assert Add32(s.seqno, 0) == s.seqno;
    assert y.sent[..|Received(x)|] == Received(x);
  }

  predicate TakesFin(c: Conn, s: Segment) {
    s.flags.fin && Add32(s.seqno, |s.payload|) == c.rcvNxt
  }

  /** The receiver's part of taking a FIN. */
  lemma FinReceived(x: Endpoint, y: Endpoint, s: Segment)
    requires ReceiverOk(x, y) && SenderOk(y, x) && SegmentOk(s, y, x.iss)
    ensures var x' := x.(conn := AfterFin(x.conn, s).conn); ReceiverOk(x', y) && Grows(x, x')
  {
    var x' := x.(conn := AfterFin(x.conn, s).conn);
    assert Received(x') == Received(x);
    if TakesFin(x.conn, s) {
      FinClosesStream(x, y, s);
      AddMore(y.iss, RcvOff(x), 1);
    }
  }

  /** The sender's part: a FIN may end the connection, and numbers nothing. */
  lemma FinSender(x: Endpoint, y: Endpoint, w: set<Segment>, s: Segment)
    requires SenderOk(x, y) && RetxOk(x, y, w) && CallOk(x, y) && x.conn.state != Listen
    ensures var o := AfterFin(x.conn, s);
            var x' := x.(conn := o.conn);
            SenderOk(x', y) && RetxOk(x', y, Wire(w, o.sent)) && CallOk(x', y)
  {
  }

  /** What goes on the wire. */
  lemma FinWire(x: Endpoint, y: Endpoint, s: Segment)
    requires SenderOk(x, y) && SenderOk(y, x) && SegmentOk(s, y, x.iss)
    requires var x' := x.(conn := AfterFin(x.conn, s).conn); SenderOk(x', y) && ReceiverOk(x', y)
    ensures var o := AfterFin(x.conn, s);
            forall t :: t in o.sent ==> SegmentOk(t, x.(conn := o.conn), y.iss)
  {
    var x' := x.(conn := AfterFin(x.conn, s).conn);
    if TakesFin(x.conn, s) {
      AckSegmentOk(x', y);
    }
  }

  lemma FinOk(x: Endpoint, y: Endpoint, wx: set<Segment>, wy: set<Segment>, s: Segment)
    requires BothOk(x, y, wx, wy) && s in wy && x.conn.state != Listen && x.conn.state != SynSent
    ensures var o := AfterFin(x.conn, s);
            BothOk(x.(conn := o.conn), y, Wire(wx, o.sent), wy) && Grows(x, x.(conn := o.conn))
  {
    var o := AfterFin(x.conn, s);
    var x' := x.(conn := o.conn);
    assert SegmentOk(s, y, x.iss);
    FinReceived(x, y, s);
    FinSender(x, y, wx, s);
    FinWire(x, y, s);
    WireOkGrows(wx, x, x', o.sent, y.iss);
    FromMine(x, x', y, wx, Wire(wx, o.sent), wy);
  }

  /** The SYN-ACK that completes an active open. */
  lemma OpenOk(x: Endpoint, y: Endpoint, wx: set<Segment>, wy: set<Segment>, s: Segment)
    requires BothOk(x, y, wx, wy) && s in wy && x.conn.state == SynSent && s.flags.syn && s.flags.ack
    ensures var e := x.conn.(rcvNxt := Add32(s.seqno, 1), state := Established);
            BothOk(x.(conn := e, synced := true), y, Wire(wx, [AckSegment(e)]), wy) &&
            Grows(x, x.(conn := e, synced := true))
  {
    var e := x.conn.(rcvNxt := Add32(s.seqno, 1), state := Established);
    var x' := x.(conn := e, synced := true);
    SynNamesStart(x, y, wx, wy, s);
    assert Received(x') == Received(x) == [];
    assert ReceiverOk(x', y);
    assert SenderOk(x', y);
    AckSegmentOk(x', y);
    WireOkGrows(wx, x, x', [AckSegment(e)], y.iss);
    assert RetxOk(x', y, Wire(wx, [AckSegment(e)]));
    FromMine(x, x', y, wx, Wire(wx, [AckSegment(e)]), wy);
  }

  /** A SYN of the peer carries its initial number, and the peer has left Listen. */
  lemma SynNamesStart(x: Endpoint, y: Endpoint, wx: set<Segment>, wy: set<Segment>, s: Segment)
    requires BothOk(x, y, wx, wy) && s in wy && s.flags.syn
    ensures Add32(s.seqno, 1) == Add32(y.iss, 1)
    ensures y.conn.state != Listen && (s.flags.ack ==> y.synced)
  {
    assert SegmentOk(s, y, x.iss);
    AddOff(s.seqno, y.iss);
    AddMore(y.iss, 0, 1);
  }

  /** The SYN that a listening endpoint answers. */
  lemma PassiveOk(x: Endpoint, y: Endpoint, wx: set<Segment>, wy: set<Segment>, s: Segment, now: nat)
    requires BothOk(x, y, wx, wy) && s in wy && x.conn.state == Listen && x.conn.inUse && s.flags.syn
    ensures var o := PassiveOpen(x.conn, s, x.iss, now);
            BothOk(x.(conn := o.conn, synced := true), y, Wire(wx, o.sent), wy)
  {
    var o := PassiveOpen(x.conn, s, x.iss, now);
    var x' := x.(conn := o.conn, synced := true);
    SynNamesStart(x, y, wx, wy, s);
    assert Received(x') == Received(x) == [];
    assert Grows(x, x');
    assert ReceiverOk(x', y);
    assert SenderOk(x', y);
    OffOfAdd(y.iss, 1);
    assert o.sent[0].payload == [];
    assert SegmentOk(o.sent[0], x', y.iss);
    WireOkGrows(wx, x, x', o.sent, y.iss);
    assert RetxOk(x', y, Wire(wx, o.sent));
    FromMine(x, x', y, wx, Wire(wx, o.sent), wy);
  }

  /** A segment at an endpoint that already knows the peer's numbering. */
  lemma InputOk(x: Endpoint, y: Endpoint, wx: set<Segment>, wy: set<Segment>, s: Segment)
    requires BothOk(x, y, wx, wy) && s in wy && x.conn.state != Listen && x.conn.state != SynSent
    requires !s.flags.rst
    ensures var o := Input(x.conn, s); BothOk(x.(conn := o.conn), y, Wire(wx, o.sent), wy)
  {
    AckOk(x, y, wx, wy, s);
    var d := x.(conn := AfterAck(x.conn, s));
    DataOk(d, y, wx, wy, s);
    var o := AfterData(d.conn, s);
    FinOk(d.(conn := o.conn), y, Wire(wx, o.sent), wy, s);
    var p := AfterFin(o.conn, s);
    assert Wire(Wire(wx, o.sent), p.sent) == Wire(wx, o.sent + p.sent);
  }

  /** A segment at an endpoint that waits for its SYN to be answered. */
  lemma AnswerOk(x: Endpoint, y: Endpoint, wx: set<Segment>, wy: set<Segment>, s: Segment)
    requires BothOk(x, y, wx, wy) && s in wy && x.conn.state == SynSent && !s.flags.rst
    ensures var o := Input(x.conn, s);
            var opens := s.flags.syn && s.flags.ack;
            BothOk(x.(conn := o.conn, synced := x.synced || opens), y, Wire(wx, o.sent), wy)
  {
    AckOk(x, y, wx, wy, s);
    var d := x.(conn := AfterAck(x.conn, s));
    assert d.conn.state == SynSent;
    if s.flags.syn && s.flags.ack {
      OpenOk(d, y, wx, wy, s);
    } else {
      assert Wire(wx, []) == wx;
    }
  }

  lemma DeliverOk(x: Endpoint, y: Endpoint, wx: set<Segment>, wy: set<Segment>, s: Segment, now: nat)
    requires BothOk(x, y, wx, wy) && s in wy
    ensures var f := OnSegment(x, s, now); BothOk(f.end, y, Wire(wx, f.sent), wy)
  {
    assert Wire(wx, []) == wx;
    assert SegmentOk(s, y, x.iss);
    if x.conn.inUse {
      if x.conn.state == Listen {
        if s.flags.syn {
          PassiveOk(x, y, wx, wy, s, now);
        }
      } else if x.conn.state == SynSent {
        AnswerOk(x, y, wx, wy, s);
      } else {
        InputOk(x, y, wx, wy, s);
      }
    }
  }

  lemma TimerOk(x: Endpoint, y: Endpoint, wx: set<Segment>, wy: set<Segment>, now: nat)
    requires BothOk(x, y, wx, wy)
    ensures var f := OnTimer(x, now); BothOk(f.end, y, Wire(wx, f.sent), wy)
  {
    var f := OnTimer(x, now);
    TimerSender(x, y, wx, now);
    assert Wire(wx, f.sent) == wx;
    QuietOk(x, f.end, y, wx, wy);
  }

  lemma TimerSender(x: Endpoint, y: Endpoint, w: set<Segment>, now: nat)
    requires SenderOk(x, y) && RetxOk(x, y, w) && CallOk(x, y)
    ensures var f := OnTimer(x, now);
            && SameStream(x, f.end) && SenderOk(f.end, y) && RetxOk(f.end, y, w) && CallOk(f.end, y)
            && (f.end.conn.state == x.conn.state || f.end.conn.state == Done)
            && forall s :: s in f.sent ==> s in w
  {
  }

  /** A segment freshly numbered at the end of the stream. */
  lemma EmittedOk(x: Endpoint, x': Endpoint, y: Endpoint, flags: Flags, data: seq<Byte>)
    requires SenderOk(x, y) && ReceiverOk(x, y) && SenderOk(y, x) && Grows(x, x')
    requires x.conn.state == Established && !flags.rst && !flags.syn && |data| <= MSS
    requires x'.sent == x.sent + data && RcvOff(x') == RcvOff(x)
    requires flags.fin ==> data == [] && x'.fin
    ensures SegmentOk(EmittedSegment(x.conn, flags, data), x', y.iss)
  {
    var s := EmittedSegment(x.conn, flags, data);
    OffOfAdd(x.iss, SndOff(x));
    RcvOffBound(x, y);
    OffOfAdd(y.iss, RcvOff(x));
    assert s.payload == data;
    assert x'.sent[|x.sent|..|x.sent| + |data|] == data;
  }

  lemma SendChunkOk(x: Endpoint, y: Endpoint, wx: set<Segment>, wy: set<Segment>, now: nat)
    requires BothOk(x, y, wx, wy)
    ensures var f := OnSendChunk(x, now); BothOk(f.end, y, Wire(wx, f.sent), wy)
  {
    var f := OnSendChunk(x, now);
    var x' := f.end;
    assert Wire(wx, []) == wx;
    if f.sent != [] {
      var data := Clip(x.call.data[x.call.done..]);
      assert Clip(data) == data && |data| > 0;
      assert x'.sent == x.sent + data;
      AddMore(x.iss, SndOff(x), |data|);
      assert Grows(x, x') && Received(x') == Received(x);
      EmittedOk(x, x', y, PSH_ACK, data);
      assert SenderOk(x', y);
      WireOkGrows(wx, x, x', f.sent, y.iss);
      assert f.sent[0] in Wire(wx, f.sent);
      assert RetxOk(x', y, Wire(wx, f.sent));
      CallExtends(x, x', y, data);
      FromMine(x, x', y, wx, Wire(wx, f.sent), wy);
    }
  }

  lemma CallExtends(x: Endpoint, x': Endpoint, y: Endpoint, data: seq<Byte>)
    requires CallOk(x, y) && x.call.Call? && x.call.chunk == 0
    requires data <= x.call.data[x.call.done..]
    requires x'.sent == x.sent + data && x'.call == x.call.(chunk := |data|)
    ensures CallOk(x', y)
  {
    var c := x.call;
    assert x'.sent[c.start..] == x.sent[c.start..] + data;
    assert c.data[..c.done + |data|] == c.data[..c.done] + c.data[c.done..][..|data|];
  }

  /** Counting a chunk whose ACK has arrived: the peer has taken every numbered byte. */
  lemma ChunkAckedOk(x: Endpoint, y: Endpoint, wx: set<Segment>, wy: set<Segment>)
    requires BothOk(x, y, wx, wy)
    ensures BothOk(OnChunkAcked(x), y, wx, wy)
  {
    var x' := OnChunkAcked(x);
    if x' != x {
      assert |Received(y)| == |x.sent|;
      QuietOk(x, x', y, wx, wy);
    }
  }

  lemma ReadOk(x: Endpoint, y: Endpoint, wx: set<Segment>, wy: set<Segment>, cap: nat)
    requires BothOk(x, y, wx, wy)
    ensures BothOk(OnRead(x, cap), y, wx, wy)
  {
    var x' := OnRead(x, cap);
    assert x.conn.rx == Taken(x.conn, cap) + AfterRecv(x.conn, cap).rx;
    assert Received(x') == Received(x);
    assert SenderOk(x', y) && RetxOk(x', y, wx);
    QuietOk(x, x', y, wx, wy);
  }

  lemma CloseOk(x: Endpoint, y: Endpoint, wx: set<Segment>, wy: set<Segment>, now: nat)
    requires BothOk(x, y, wx, wy)
    ensures var f := OnClose(x, now); BothOk(f.end, y, Wire(wx, f.sent), wy)
  {
    var f := OnClose(x, now);
    var x' := f.end;
    assert Wire(wx, []) == wx;
    if f.sent != [] {
      AddMore(x.iss, SndOff(x), 1);
      assert x'.sent == x.sent + [];
      assert Grows(x, x') && Received(x') == Received(x);
      EmittedOk(x, x', y, FIN_ACK, []);
      assert SenderOk(x', y);
      WireOkGrows(wx, x, x', f.sent, y.iss);
      assert f.sent[0] in Wire(wx, f.sent);
      assert RetxOk(x', y, Wire(wx, f.sent));
      FromMine(x, x', y, wx, Wire(wx, f.sent), wy);
    }
  }

  /** A step that touches neither the stream nor the connection's numbers. */
  lemma IdleOk(x: Endpoint, x': Endpoint, y: Endpoint, wx: set<Segment>, wy: set<Segment>)
    requires BothOk(x, y, wx, wy) && CallOk(x', y)
    requires x' == x.(call := x'.call, conn := x.conn.(inUse := x'.conn.inUse))
    ensures BothOk(x', y, wx, wy)
  {
    QuietOk(x, x', y, wx, wy);
  }

  lemma IdleActOk(x: Endpoint, y: Endpoint, wx: set<Segment>, wy: set<Segment>, act: Action)
    requires BothOk(x, y, wx, wy) && (act.StartSend? || act.SendReturn? || act.Abandon?)
    ensures BothOk(Act(x, wy, act).end, y, wx, wy)
  {
    IdleOk(x, Act(x, wy, act).end, y, wx, wy);
  }

  lemma ActOk(x: Endpoint, y: Endpoint, wx: set<Segment>, wy: set<Segment>, act: Action)
    requires BothOk(x, y, wx, wy)
    ensures var f := Act(x, wy, act); BothOk(f.end, y, Wire(wx, f.sent), wy)
  {
    assert Wire(wx, []) == wx;
    match act
    case Deliver(s, now) => if s in wy { DeliverOk(x, y, wx, wy, s, now); }
    case Timer(now) => TimerOk(x, y, wx, wy, now);
    case SendChunk(now) => SendChunkOk(x, y, wx, wy, now);
    case ChunkAcked => ChunkAckedOk(x, y, wx, wy);
    case Read(cap) => ReadOk(x, y, wx, wy, cap);
    case Close(now) => CloseOk(x, y, wx, wy, now);
    case StartSend(data) => IdleActOk(x, y, wx, wy, act);
    case SendReturn => IdleActOk(x, y, wx, wy, act);
    case Abandon => IdleActOk(x, y, wx, wy, act);
  }

  lemma NextOk(s: System, e: Event)
    requires Ok(s)
    ensures Ok(Next(s, e))
  {
    match e
    case AtA(act) => ActOk(s.a, s.b, s.wireA, s.wireB, act);
    case AtB(act) => ActOk(s.b, s.a, s.wireB, s.wireA, act);
  }

  lemma StartOk(issA: U32, issB: U32, now: nat)
    ensures Ok(Start(issA, issB, now))
  {
    var s := Start(issA, issB, now);
    var syn := ActiveOpen(issA, now).sent[0];
    assert s.wireA == {syn};
    OffOfAdd(issA, 0);
    assert HalfOk(s.a, s.b, s.wireA);
    assert HalfOk(s.b, s.a, s.wireB);
  }

  lemma {:induction false} RunOk(issA: U32, issB: U32, now: nat, trace: seq<Event>)
    ensures Ok(Run(Start(issA, issB, now), trace))
  {
    if trace == [] {
      StartOk(issA, issB, now);
    } else {
      var n := |trace| - 1;
      RunOk(issA, issB, now, trace[..n]);
      NextOk(Run(Start(issA, issB, now), trace[..n]), trace[n]);
    }
  }

  // ----- The promises, over every run -----

  /** Delivered bytes and buffered bytes are a prefix of the bytes the peer numbered, both ways. */
  lemma InOrderPrefix(issA: U32, issB: U32, now: nat, trace: seq<Event>)
    ensures var s := Run(Start(issA, issB, now), trace);
            && s.a.delivered + s.a.conn.rx <= s.b.sent
            && s.b.delivered + s.b.conn.rx <= s.a.sent
  {
    RunOk(issA, issB, now, trace);
  }

  /**
    When `net_tcp_send` stops with a positive count, the peer has accepted exactly
    those bytes, at the position the stream had when the call began.
   */
  lemma SentIsAccepted(issA: U32, issB: U32, now: nat, trace: seq<Event>)
    ensures var s := Run(Start(issA, issB, now), trace);
            && (s.a.call.Call? && Returns(s.a) > 0 ==> Accepted(s.a.call, Returns(s.a), s.b))
            && (s.b.call.Call? && Returns(s.b) > 0 ==> Accepted(s.b.call, Returns(s.b), s.a))
  {
    RunOk(issA, issB, now, trace);
    var s := Run(Start(issA, issB, now), trace);
    if s.a.call.Call? && Returns(s.a) > 0 {
      AcceptedBy(s.a, s.b, s.wireA);
    }
    if s.b.call.Call? && Returns(s.b) > 0 {
      AcceptedBy(s.b, s.a, s.wireB);
    }
  }

  /**
    Over every run, what a send in progress would return: the bytes it numbered, less the chunk that awaits its ACK, and
    -1 exactly when there are none of a call that has data. All of the data is the whole length.
   */
  lemma SendReturns(issA: U32, issB: U32, now: nat, trace: seq<Event>)
    ensures var s := Run(Start(issA, issB, now), trace); CountsNumbered(s.a) && CountsNumbered(s.b)
  {
    RunOk(issA, issB, now, trace);
  }

  predicate CountsNumbered(x: Endpoint) {
    x.call.Call? ==>
      var counted := |x.sent| - x.call.start - x.call.chunk;
      && 0 <= counted <= |x.call.data|
      && (Returns(x) == -1 <==> |x.call.data| > 0 && counted == 0)
      && (Returns(x) != -1 ==> Returns(x) == counted)
      && (x.call.chunk == 0 && x.sent[x.call.start..] == x.call.data ==> Returns(x) == |x.call.data|)
  }

  predicate Accepted(c: SendCall, k: nat, peer: Endpoint)
    requires c.Call?
  {
    && k <= |c.data|
    && c.start + k <= |Received(peer)|
    && Received(peer)[c.start..c.start + k] == c.data[..k]
  }

  lemma AcceptedBy(x: Endpoint, y: Endpoint, w: set<Segment>)
    requires HalfOk(x, y, w) && x.call.Call? && x.call.done > 0
    ensures Accepted(x.call, x.call.done, y)
  {
    var c := x.call;
    var r := Received(y);
    assert x.sent[..|r|] == r;
    assert r[c.start..c.start + c.done] == x.sent[c.start..][..c.done];
    assert c.data[..c.done + c.chunk][..c.done] == c.data[..c.done];
  }

  /** What a receive that returns 0 is documented to mean: every byte of the peer was handed over, and its FIN taken. */
  predicate CleanEnd(x: Endpoint, y: Endpoint) {
    y.fin && RcvOff(x) == SndOff(y) && x.delivered == y.sent
  }

  /** Over every run and for every capacity, a receive that returns 0 is a clean end exactly under this condition. */
  lemma ZeroIsCleanEndIff(issA: U32, issB: U32, now: nat, trace: seq<Event>, cap: nat)
    ensures var s := Run(Start(issA, issB, now), trace);
            && (RecvResult(s.a.conn, cap) == 0 ==>
                  (CleanEnd(s.a, s.b) <==> s.a.conn.peerFin && (cap > 0 || s.a.conn.rx == [])))
            && (RecvResult(s.b.conn, cap) == 0 ==>
                  (CleanEnd(s.b, s.a) <==> s.b.conn.peerFin && (cap > 0 || s.b.conn.rx == [])))
  {
    RunOk(issA, issB, now, trace);
    var s := Run(Start(issA, issB, now), trace);
    ZeroIsCleanHere(s.a, s.b, cap);
    ZeroIsCleanHere(s.b, s.a, cap);
  }

  lemma ZeroIsCleanHere(x: Endpoint, y: Endpoint, cap: nat)
    requires ReceiverOk(x, y) && SenderOk(y, x)
    ensures RecvResult(x.conn, cap) == 0 ==> (CleanEnd(x, y) <==> x.conn.peerFin && (cap > 0 || x.conn.rx == []))
  {
    assert |Received(x)| == |x.delivered| + |x.conn.rx|;
    if x.conn.rx == [] {
      assert Received(x) == x.delivered;
    }
    if RcvOff(x) == SndOff(y) && y.fin {
      assert |Received(x)| <= |y.sent|;
    }
  }

  /** Over every run, a receive that returns a count hands over the peer's next bytes, in order. */
  lemma ReadIsNextBytes(issA: U32, issB: U32, now: nat, trace: seq<Event>, cap: nat)
    ensures var s := Run(Start(issA, issB, now), trace);
            && NextBytes(s.a, s.b, RecvResult(s.a.conn, cap), OnRead(s.a, cap))
            && NextBytes(s.b, s.a, RecvResult(s.b.conn, cap), OnRead(s.b, cap))
  {
    RunOk(issA, issB, now, trace);
    var s := Run(Start(issA, issB, now), trace);
    ReadHere(s.a, s.b, cap);
    ReadHere(s.b, s.a, cap);
  }

  /** With no send in progress, the application at `x` has `r` more of the bytes that `y` numbered. */
  predicate NextBytes(x: Endpoint, y: Endpoint, r: int, x': Endpoint) {
    x.call.NoCall? && r > 0 ==> |x.delivered| + r <= |y.sent| && x'.delivered == y.sent[..|x.delivered| + r]
  }

  lemma ReadHere(x: Endpoint, y: Endpoint, cap: nat)
    requires ReceiverOk(x, y)
    ensures NextBytes(x, y, RecvResult(x.conn, cap), OnRead(x, cap))
  {
    var r := RecvResult(x.conn, cap);
    if r > 0 {
      assert x.delivered + x.conn.rx == y.sent[..|Received(x)|];
      assert x.delivered + x.conn.rx[..r] == (x.delivered + x.conn.rx)[..|x.delivered| + r];
    }
  }

  function Ticks(n: nat): seq<Event> {
    if n == 0 then [] else Ticks(n - 1) + [AtB(Timer(400 * n))]
  }

  lemma OneTick(x: Endpoint, now: nat)
    requires x.conn.inUse && x.conn.retx.Some? && x.conn.retxTries < MAX_RETX && now == x.conn.retxAt + RTO_MS
    ensures OnTimer(x, now).end == x.(conn := x.conn.(retxTries := x.conn.retxTries + 1, retxAt := now))
  {
  }

  /** After `n` timeouts of an unanswered SYN-ACK. */
  lemma {:induction false} AfterTicks(y: System, n: nat)
    requires y.b.conn.inUse && y.b.conn.retx.Some? && y.b.conn.retxAt == 0 && y.b.conn.retxTries == 0
    requires n <= MAX_RETX
    ensures var s := Run(y, Ticks(n));
            s.b == y.b.(conn := y.b.conn.(retxTries := n, retxAt := 400 * n)) && s.a == y.a
  {
    if n > 0 {
      AfterTicks(y, n - 1);
      assert Ticks(n)[..|Ticks(n)| - 1] == Ticks(n - 1);
      OneTick(Run(y, Ticks(n - 1)).b, 400 * n);
    }
  }

  /** `net_tcp_recv` also returns 0 after giving up on the peer: there it is not a clean end. */
  lemma GivingUpReportsAnUncleanEnd(cap: nat)
    ensures var s := Run(Next(Start(0, 0, 0), AtB(Deliver(ActiveOpen(0, 0).sent[0], 0))), Ticks(7));
            RecvResult(s.b.conn, cap) == 0 && !CleanEnd(s.b, s.a)
  {
    var syn := ActiveOpen(0, 0).sent[0];
    var y := Next(Start(0, 0, 0), AtB(Deliver(syn, 0)));
    assert syn in Start(0, 0, 0).wireA;
    AfterTicks(y, 6);
    assert Ticks(7)[..|Ticks(7)| - 1] == Ticks(6);
  }

  // A run in which one byte and a FIN arrive and the application has read nothing.

  const SYN_SEG := Segment(0, 0, SYN, RXBUF, [])
  const SYN_ACK_SEG := Segment(0, 1, SYN_ACK, RXBUF, [])
  const BYTE_SEG := Segment(1, 1, PSH_ACK, RXBUF, [7])
  const FIN_SEG := Segment(2, 1, FIN_ACK, RXBUF, [])

  function OpenRun(): System {
    Next(Next(Start(0, 0, 0), AtB(Deliver(SYN_SEG, 0))), AtA(Deliver(SYN_ACK_SEG, 0)))
  }

  function ThenByte(y: System): System {
    Next(Next(Next(y, AtA(StartSend([7]))), AtA(SendChunk(0))), AtB(Deliver(BYTE_SEG, 0)))
  }

  function ThenFin(y: System): System {
    Next(Next(Next(y, AtA(SendReturn)), AtA(Close(0))), AtB(Deliver(FIN_SEG, 0)))
  }

  lemma OpenState()
    ensures var s := OpenRun();
            && s.a.conn == Conn(true, Established, 1, 1, 1, false, [], None, 1, 0, 0)
            && s.a.sent == [] && !s.a.fin && s.a.call == NoCall
            && s.b.conn == Conn(true, SynRcvd, 0, 1, 1, false, [], Some(SYN_ACK_SEG), 1, 0, 0) && s.b.delivered == []
  {
    var y := Start(0, 0, 0);
    assert SYN_SEG == ActiveOpen(0, 0).sent[0];
    assert SYN_SEG in y.wireA;
    var z := Next(y, AtB(Deliver(SYN_SEG, 0)));
    assert SYN_ACK_SEG == PassiveOpen(y.b.conn, SYN_SEG, 0, 0).sent[0];
    assert SYN_ACK_SEG in z.wireB;
  }

  lemma ByteLands(y: System)
    requires y.a.conn == Conn(true, Established, 1, 1, 1, false, [], None, 1, 0, 0)
    requires y.a.sent == [] && !y.a.fin && y.a.call == NoCall
    requires y.b.conn == Conn(true, SynRcvd, 0, 1, 1, false, [], Some(SYN_ACK_SEG), 1, 0, 0)
    ensures var s := ThenByte(y);
            && s.a.conn == Conn(true, Established, 1, 2, 1, false, [], Some(BYTE_SEG), 2, 0, 0)
            && s.a.sent == [7] && !s.a.fin
            && s.b == y.b.(conn := Conn(true, Established, 1, 1, 2, false, [7], None, 1, 0, 0))
  {
    var z := Next(y, AtA(StartSend([7])));
    assert Clip([7][0..]) == [7];
    assert BYTE_SEG == OnSendChunk(z.a, 0).sent[0];
    assert BYTE_SEG in Next(z, AtA(SendChunk(0))).wireA;
    ByteArrives(y.b);
  }

  lemma ByteArrives(x: Endpoint)
    requires x.conn == Conn(true, SynRcvd, 0, 1, 1, false, [], Some(SYN_ACK_SEG), 1, 0, 0)
    ensures OnSegment(x, BYTE_SEG, 0).end ==
            x.(conn := Conn(true, Established, 1, 1, 2, false, [7], None, 1, 0, 0))
  {
    assert AfterAck(x.conn, BYTE_SEG) == Conn(true, Established, 1, 1, 1, false, [], None, 1, 0, 0);
    assert [] + BYTE_SEG.payload == [7];
  }

  lemma FinArrives(x: Endpoint)
    requires x.conn == Conn(true, Established, 1, 1, 2, false, [7], None, 1, 0, 0)
    ensures OnSegment(x, FIN_SEG, 0).end == x.(conn := Conn(true, Established, 1, 1, 3, true, [7], None, 1, 0, 0))
  {
    assert AfterAck(x.conn, FIN_SEG) == x.conn;
    assert AfterData(x.conn, FIN_SEG) == Outcome(x.conn, []);
  }

  lemma FinLands(y: System)
    requires y.a.conn == Conn(true, Established, 1, 2, 1, false, [], Some(BYTE_SEG), 2, 0, 0)
    requires y.a.sent == [7] && !y.a.fin && y.b.conn == Conn(true, Established, 1, 1, 2, false, [7], None, 1, 0, 0)
    ensures var s := ThenFin(y);
            s.b == y.b.(conn := Conn(true, Established, 1, 1, 3, true, [7], None, 1, 0, 0)) && s.a.sent == [7]
  {
    var z := Next(y, AtA(SendReturn));
    assert FIN_SEG == OnClose(z.a, 0).sent[0];
    assert FIN_SEG in Next(z, AtA(Close(0))).wireA;
    FinArrives(y.b);
  }

  /** A receive with no room returns 0 while a byte waits, though the FIN was taken: not a clean end. */
  lemma NoRoomReportsAnUncleanEnd()
    ensures var s := ThenFin(ThenByte(OpenRun()));
            s.b.conn.peerFin && s.b.conn.rx == [7] && RecvResult(s.b.conn, 0) == 0 && !CleanEnd(s.b, s.a)
  {
    OpenState();
    ByteLands(OpenRun());
    FinLands(ThenByte(OpenRun()));
  }

  // ----- The promises are not empty: with nothing lost, the bytes arrive -----

  lemma ChunkLeaves(x: Endpoint, now: nat)
    requires x.conn.inUse && x.conn.state == Established && x.call.Call? && x.call.chunk == 0
    requires x.call.done < |x.call.data| && SndOff(x) + MSS < TWO31
    ensures var f := OnSendChunk(x, now);
            var data := Clip(x.call.data[x.call.done..]);
            && |f.sent| == 1 && f.sent[0].flags == PSH_ACK && f.sent[0].payload == data
            && f.sent[0].seqno == x.conn.sndNxt && |data| > 0
            && f.end.call == x.call.(chunk := |data|) && f.end.conn.retx.Some?
            && f.end.conn.retxSeq == Add32(x.conn.sndNxt, |data|)
            && f.end.conn.inUse && f.end.conn.state == Established
  {
    var data := Clip(x.call.data[x.call.done..]);
    assert Clip(data) == data;
  }

  lemma ChunkCounted(x: Endpoint, s: Segment, now: nat)
    requires x.conn.inUse && x.conn.state == Established && x.conn.retx.Some?
    requires s.flags == ACK && s.payload == [] && s.ackno == x.conn.retxSeq
    requires x.call.Call? && x.call.chunk > 0
    ensures OnChunkAcked(OnSegment(x, s, now).end).call == x.call.(done := x.call.done + x.call.chunk, chunk := 0)
  {
    AckReturns(x.conn, s);
  }

  /** With nothing outstanding, the peer expects the very number that comes next. */
  lemma InStep(x: Endpoint, y: Endpoint, w: set<Segment>)
    requires HalfOk(x, y, w) && x.conn.state == Established && x.conn.retx.None?
    ensures y.conn.rcvNxt == x.conn.sndNxt
  {
    assert y.conn.rcvNxt == Add32(x.iss, RcvOff(y));
  }

  lemma ChunkReceived(y: Endpoint, s: Segment, now: nat)
    requires y.conn.inUse && y.conn.state == Established && y.conn.rx == []
    requires s.flags == PSH_ACK && s.seqno == y.conn.rcvNxt && 0 < |s.payload| <= MSS
    ensures var f := OnSegment(y, s, now);
            && |f.sent| == 1 && f.sent[0].flags == ACK && f.sent[0].payload == [] &&
               f.sent[0].ackno == Add32(s.seqno, |s.payload|)
            && Received(f.end) == Received(y) + s.payload
  {
    ChunkArrives(y.conn, s);
  }

  /** The state of a call and its peer after each leg of an exchange in which nothing is lost. */
  datatype Exchange = Exchange(out: Effect, arrived: Effect, back: Effect)

  function Lossless(x: Endpoint, y: Endpoint, now: nat): Exchange
    requires |OnSendChunk(x, now).sent| == 1 && |OnSegment(y, OnSendChunk(x, now).sent[0], now).sent| == 1
  {
    var out := OnSendChunk(x, now);
    var arrived := OnSegment(y, out.sent[0], now);
    Exchange(out, arrived, OnSegment(out.end, arrived.sent[0], now))
  }

  /** One exchange in which nothing is lost: the chunk reaches the peer, its ACK comes back, and the call counts it. */
  lemma LosslessChunk(x: Endpoint, y: Endpoint, now: nat)
    requires y.conn.rcvNxt == x.conn.sndNxt && x.conn.inUse && x.conn.state == Established
    requires y.conn.inUse && y.conn.state == Established && y.conn.rx == []
    requires x.call.Call? && x.call.chunk == 0 && x.call.done < |x.call.data|
    requires SndOff(x) + MSS < TWO31
    ensures |OnSendChunk(x, now).sent| == 1 && |OnSegment(y, OnSendChunk(x, now).sent[0], now).sent| == 1
    ensures var e := Lossless(x, y, now);
            var k := e.out.end.call.chunk;
            && k > 0 && Received(e.arrived.end) == Received(y) + x.call.data[x.call.done..][..k]
            && OnChunkAcked(e.back.end).call == x.call.(done := x.call.done + k)
  {
    ChunkLeaves(x, now);
    var out := OnSendChunk(x, now);
    ChunkReceived(y, out.sent[0], now);
    ChunkCounted(out.end, OnSegment(y, out.sent[0], now).sent[0], now);
  }

  // ----- net_tcp_send, as the actions of its endpoint in a run -----

  /** An action of one endpoint; what is delivered is on the wire. */
  function Acted(x: Endpoint, act: Action): Endpoint {
    if act.Deliver? then OnSegment(x, act.s, act.now).end else Act(x, {}, act).end
  }

  function Played(x: Endpoint, acts: seq<Action>): Endpoint {
    if acts == [] then x else Acted(Played(x, acts[..|acts| - 1]), acts[|acts| - 1])
  }

  lemma {:induction false} PlayedThen(x: Endpoint, a: seq<Action>, b: seq<Action>)
    ensures Played(x, a + b) == Played(Played(x, a), b)
    decreases |b|
  {
    if b == [] {
      assert a + b == a;
    } else {
      assert (a + b)[..|a + b| - 1] == a + b[..|b| - 1];
      PlayedThen(x, a, b[..|b| - 1]);
    }
  }

  lemma PlayedOne(x: Endpoint, act: Action)
    ensures Played(x, [act]) == Acted(x, act)
  {
    assert [act][..0] == [];
  }

  /** The frames of a poll that are for this connection. */
  function Deliveries(arrivals: seq<Arrival>): seq<Action> {
    if arrivals == [] then []
    else (if arrivals[0].Matched? then [Deliver(arrivals[0].s, 0)] else []) + Deliveries(arrivals[1..])
  }

  function PollActs(p: Poll): seq<Action> {
    Deliveries(p.arrivals) + [Timer(p.now)]
  }

  /** The actions of the wait for a chunk's ACK. */
  function WaitActs(o: Outcome, polls: seq<Poll>, deadline: nat): seq<Action>
    requires Expires(polls, deadline)
    decreases polls
  {
    if o.conn.retx.None? then []
    else
      var o' := Polled(o, polls[0]);
      PollActs(polls[0]) +
      (if o'.conn.state == Done || polls[0].clock >= deadline then [] else WaitActs(o', polls[1..], deadline))
  }

  /** The actions of a send: each chunk, its wait, and the count. */
  function SendActs(o: Outcome, data: seq<Byte>, count: nat, turns: seq<Turn>): seq<Action>
    requires count <= |data| <= count + MSS * |turns| && TurnsOk(turns)
    decreases turns
  {
    if count == |data| || o.conn.state != Established then []
    else
      var w := TurnWait(o, data, count, turns[0]);
      TurnActs(o, data, count, turns[0]) +
      (if w.timedOut then [] else [ChunkAcked] + SendActs(w.end, data, count + |Clip(data[count..])|, turns[1..]))
  }

  /** The chunk after `count` bytes: how its wait ends, and its actions. */
  function TurnWait(o: Outcome, data: seq<Byte>, count: nat, t: Turn): Wait
    requires count <= |data| && Expires(t.polls, t.clock + SEND_WAIT)
  {
    AckWaited(Emitted(o, Clip(data[count..]), t.now), t.polls, t.clock + SEND_WAIT)
  }

  function TurnActs(o: Outcome, data: seq<Byte>, count: nat, t: Turn): seq<Action>
    requires count <= |data| && Expires(t.polls, t.clock + SEND_WAIT)
  {
    [SendChunk(t.now)] + WaitActs(Emitted(o, Clip(data[count..]), t.now), t.polls, t.clock + SEND_WAIT)
  }

  /** The connection changed, and nothing else but what it knows of the peer. */
  predicate OnlyConn(x: Endpoint, x': Endpoint, c: Conn) {
    x' == x.(conn := c, synced := x'.synced)
  }

  predicate Opened(c: Conn) {
    c.inUse && c.state != Listen
  }

  lemma InputOpened(c: Conn, s: Segment)
    requires Opened(c)
    ensures Opened(Input(c, s).conn)
  {
    InputKeepsSlot(c, s);
  }

  lemma {:induction false} ArrivalsPlayed(x: Endpoint, o: Outcome, arrivals: seq<Arrival>)
    requires x.conn == o.conn && Opened(o.conn)
    ensures var c := AllArrived(o, arrivals).conn; OnlyConn(x, Played(x, Deliveries(arrivals)), c) && Opened(c)
    decreases arrivals
  {
    if arrivals != [] {
      var a, rest := arrivals[0], arrivals[1..];
      var o1 := Arrived(o, a);
      if a.Matched? {
        InputOpened(o.conn, a.s);
        var x1 := OnSegment(x, a.s, 0).end;
        PlayedOne(x, Deliver(a.s, 0));
        PlayedThen(x, [Deliver(a.s, 0)], Deliveries(rest));
        ArrivalsPlayed(x1, o1, rest);
      } else {
        assert [] + Deliveries(rest) == Deliveries(rest);
        ArrivalsPlayed(x, o1, rest);
      }
    }
  }

  lemma PollPlayed(x: Endpoint, o: Outcome, p: Poll)
    requires x.conn == o.conn && Opened(o.conn)
    ensures var c := Polled(o, p).conn; OnlyConn(x, Played(x, PollActs(p)), c) && Opened(c)
  {
    ArrivalsPlayed(x, o, p.arrivals);
    PlayedThen(x, Deliveries(p.arrivals), [Timer(p.now)]);
    PlayedOne(Played(x, Deliveries(p.arrivals)), Timer(p.now));
  }

  lemma {:induction false} WaitPlayed(x: Endpoint, o: Outcome, polls: seq<Poll>, deadline: nat)
    requires x.conn == o.conn && Opened(o.conn) && Expires(polls, deadline)
    ensures var c := AckWaited(o, polls, deadline).end.conn;
            OnlyConn(x, Played(x, WaitActs(o, polls, deadline)), c) && Opened(c)
    decreases polls
  {
    if o.conn.retx.Some? {
      var o1, x1 := Polled(o, polls[0]), Played(x, PollActs(polls[0]));
      PollPlayed(x, o, polls[0]);
      WaitStep(x, o, polls, deadline, o1);
      if o1.conn.state != Done && polls[0].clock < deadline {
        WaitPlayed(x1, o1, polls[1..], deadline);
        ConnTwice(x, x1, Played(x1, WaitActs(o1, polls[1..], deadline)), o1.conn);
      }
    }
  }

  lemma ConnTwice(x: Endpoint, x1: Endpoint, x2: Endpoint, c: Conn)
    requires OnlyConn(x, x1, c) && OnlyConn(x1, x2, x2.conn)
    ensures OnlyConn(x, x2, x2.conn)
  {
  }

  lemma WaitStep(x: Endpoint, o: Outcome, polls: seq<Poll>, deadline: nat, o1: Outcome)
    requires Expires(polls, deadline) && o.conn.retx.Some? && o1 == Polled(o, polls[0])
    ensures var ends := o1.conn.state == Done || polls[0].clock >= deadline;
            && AckWaited(o, polls, deadline) == (if ends then Wait(o1, true) else AckWaited(o1, polls[1..], deadline))
            && Played(x, WaitActs(o, polls, deadline)) ==
               var x1 := Played(x, PollActs(polls[0]));
                 if ends then x1 else Played(x1, WaitActs(o1, polls[1..], deadline))
  {
    var here := PollActs(polls[0]);
    if o1.conn.state == Done || polls[0].clock >= deadline {
      assert here + [] == here;
    } else {
      PlayedThen(x, here, WaitActs(o1, polls[1..], deadline));
    }
  }

  /** A wait that does not fail ends with the chunk acknowledged. */
  lemma {:induction false} WaitAcked(o: Outcome, polls: seq<Poll>, deadline: nat)
    requires Expires(polls, deadline) && o.conn.state != Done
    ensures var w := AckWaited(o, polls, deadline);
            !w.timedOut ==> w.end.conn.retx.None? && w.end.conn.state != Done
    decreases polls
  {
    if o.conn.retx.Some? {
      var o1 := Polled(o, polls[0]);
      if o1.conn.state != Done && polls[0].clock < deadline {
        WaitAcked(o1, polls[1..], deadline);
      }
    }
  }

  /** A send in progress, after `count` bytes. */
  predicate InSend(x: Endpoint, o: Outcome, data: seq<Byte>, count: nat, start: nat) {
    && x.conn == o.conn && Opened(o.conn) && x.call == Call(data, start, count, 0) && count <= |data|
    && 1 + |x.sent| + 1 + (|data| - count) < TWO31
  }

  lemma ChunkSent(x: Endpoint, o: Outcome, data: seq<Byte>, count: nat, start: nat, now: nat)
    requires InSend(x, o, data, count, start) && o.conn.state == Established && count < |data|
    ensures ChunkOut(Acted(x, SendChunk(now)), Emitted(o, Clip(data[count..]), now), data, count, start,
                     |Clip(data[count..])|)
  {
  }

  /** `n` bytes were emitted after `count`, and await their ACK. */
  predicate ChunkOut(x: Endpoint, o: Outcome, data: seq<Byte>, count: nat, start: nat, n: nat) {
    && x.conn == o.conn && Opened(o.conn) && o.conn.state != Done && x.call == Call(data, start, count, n)
    && 0 < n && count + n <= |data| && 1 + |x.sent| + 1 + (|data| - count - n) < TWO31
  }

  lemma CountPlayed(x: Endpoint, o: Outcome, data: seq<Byte>, count: nat, start: nat, n: nat)
    requires x.conn == o.conn && Opened(o.conn) && o.conn.retx.None? && o.conn.state != Done
    requires x.call == Call(data, start, count, n) && 0 < n && count + n <= |data|
    requires 1 + |x.sent| + 1 + (|data| - count - n) < TWO31
    ensures InSend(Acted(x, ChunkAcked), o, data, count + n, start)
  {
  }

  /** After a turn: the wait failed, or the chunk is counted. */
  predicate TurnEnds(x: Endpoint, w: Wait, data: seq<Byte>, count: nat, start: nat, n: nat) {
    if w.timedOut then x.conn == w.end.conn && x.call == Call(data, start, count, n)
    else InSend(Acted(x, ChunkAcked), w.end, data, count + n, start)
  }

  /** The wait for a chunk of `n` bytes. */
  lemma WaitEnds(x: Endpoint, o: Outcome, polls: seq<Poll>, deadline: nat, data: seq<Byte>, count: nat, start: nat,
                 n: nat)
    requires ChunkOut(x, o, data, count, start, n) && Expires(polls, deadline)
    ensures TurnEnds(Played(x, WaitActs(o, polls, deadline)), AckWaited(o, polls, deadline), data, count, start, n)
  {
    var w, x' := AckWaited(o, polls, deadline), Played(x, WaitActs(o, polls, deadline));
    WaitPlayed(x, o, polls, deadline);
    WaitAcked(o, polls, deadline);
    if !w.timedOut {
      CountPlayed(x', w.end, data, count, start, n);
    }
  }

  lemma ActThenPlayed(x: Endpoint, act: Action, rest: seq<Action>)
    ensures Played(x, [act] + rest) == Played(Acted(x, act), rest)
  {
    PlayedOne(x, act);
    PlayedThen(x, [act], rest);
  }

  /** A chunk of `n` bytes, and its wait. */
  lemma ChunkPlayed(x: Endpoint, act: Action, o: Outcome, polls: seq<Poll>, deadline: nat, data: seq<Byte>, count: nat,
                    start: nat, n: nat)
    requires ChunkOut(Acted(x, act), o, data, count, start, n) && Expires(polls, deadline)
    ensures TurnEnds(Played(x, [act] + WaitActs(o, polls, deadline)), AckWaited(o, polls, deadline), data, count, start,
            n)
  {
    ActThenPlayed(x, act, WaitActs(o, polls, deadline));
    WaitEnds(Acted(x, act), o, polls, deadline, data, count, start, n);
  }

  /** The actions `here` of turn `t`, whose chunk leaves `o1` and whose wait ends in `w`. */
  lemma TurnPlayed(x: Endpoint, o: Outcome, data: seq<Byte>, count: nat, start: nat, t: Turn, o1: Outcome, w: Wait,
                   here: seq<Action>)
    requires InSend(x, o, data, count, start) && o.conn.state == Established && count < |data|
    requires Expires(t.polls, t.clock + SEND_WAIT) && o1 == Emitted(o, Clip(data[count..]), t.now)
    requires w == AckWaited(o1, t.polls, t.clock + SEND_WAIT)
    requires here == [SendChunk(t.now)] + WaitActs(o1, t.polls, t.clock + SEND_WAIT)
    ensures TurnEnds(Played(x, here), w, data, count, start, |Clip(data[count..])|)
  {
    ChunkSent(x, o, data, count, start, t.now);
    ChunkPlayed(x, SendChunk(t.now), o1, t.polls, t.clock + SEND_WAIT, data, count, start, |Clip(data[count..])|);
  }

  /** The call ends in the state, with the count and with the chunk that the actions leave. */
  lemma {:induction false} SendPlayed(x: Endpoint, o: Outcome, data: seq<Byte>, count: nat, start: nat,
                                      turns: seq<Turn>)
    requires InSend(x, o, data, count, start) && |data| <= count + MSS * |turns| && TurnsOk(turns)
    ensures SendEnds(Played(x, SendActs(o, data, count, turns)), Sending(o, data, count, turns), data, start)
    decreases turns
  {
    if count < |data| && o.conn.state == Established {
      var w, here := TurnWait(o, data, count, turns[0]), TurnActs(o, data, count, turns[0]);
      TurnPlayed(x, o, data, count, start, turns[0], Emitted(o, Clip(data[count..]), turns[0].now), w, here);
      SendStep(x, o, data, count, turns, w, here);
      if !w.timedOut {
        NextTurn(Acted(Played(x, here), ChunkAcked), w.end, data, count, start, turns);
      }
    }
  }

  lemma {:induction false} NextTurn(x: Endpoint, o: Outcome, data: seq<Byte>, count: nat, start: nat, turns: seq<Turn>)
    requires count < |data| <= count + MSS * |turns| && TurnsOk(turns)
    requires InSend(x, o, data, count + |Clip(data[count..])|, start)
    ensures var n, rest := |Clip(data[count..])|, turns[1..];
            SendEnds(Played(x, SendActs(o, data, count + n, rest)), Sending(o, data, count + n, rest), data, start)
    decreases turns, 0
  {
    SendPlayed(x, o, data, count + |Clip(data[count..])|, start, turns[1..]);
  }

  predicate SendEnds(x: Endpoint, e: Sent, data: seq<Byte>, start: nat) {
    x.conn == e.end.conn && x.call == Call(data, start, e.count, e.pending)
  }

  lemma SendStep(x: Endpoint, o: Outcome, data: seq<Byte>, count: nat, turns: seq<Turn>, w: Wait, here: seq<Action>)
    requires count < |data| <= count + MSS * |turns| && TurnsOk(turns) && o.conn.state == Established
    requires w == TurnWait(o, data, count, turns[0]) && here == TurnActs(o, data, count, turns[0])
    ensures var n, x2 := |Clip(data[count..])|, Played(x, here);
            && Sending(o, data, count, turns) ==
               (if w.timedOut then Sent(w.end, count, n) else Sending(w.end, data, count + n, turns[1..]))
            && Played(x, SendActs(o, data, count, turns)) ==
               if w.timedOut then x2 else Played(Acted(x2, ChunkAcked), SendActs(w.end, data, count + n, turns[1..]))
  {
    if w.timedOut {
      assert here + [] == here;
    } else {
      MoreTurns(x, here, w.end, data, count + |Clip(data[count..])|, turns[1..]);
    }
  }

  lemma MoreTurns(x: Endpoint, here: seq<Action>, o: Outcome, data: seq<Byte>, count: nat, turns: seq<Turn>)
    requires count <= |data| <= count + MSS * |turns| && TurnsOk(turns)
    ensures var rest := SendActs(o, data, count, turns);
            Played(x, here + ([ChunkAcked] + rest)) == Played(Acted(Played(x, here), ChunkAcked), rest)
  {
    var rest := SendActs(o, data, count, turns);
    PlayedThen(x, here, [ChunkAcked] + rest);
    PlayedThen(Played(x, here), [ChunkAcked], rest);
    PlayedOne(Played(x, here), ChunkAcked);
  }

  /** The actions of `a`, and those of `b`, in a trace. */
  function ActsOfA(trace: seq<Event>): seq<Action> {
    if trace == [] then []
    else
      var e := trace[|trace| - 1];
      ActsOfA(trace[..|trace| - 1]) + (if e.AtA? then [e.act] else [])
  }

  function ActsOfB(trace: seq<Event>): seq<Action> {
    if trace == [] then []
    else
      var e := trace[|trace| - 1];
      ActsOfB(trace[..|trace| - 1]) + (if e.AtB? then [e.act] else [])
  }

  /** What is delivered has been sent. */
  predicate Delivers(y: System, trace: seq<Event>) {
    trace == [] ||
    var before, e := trace[..|trace| - 1], trace[|trace| - 1];
    && Delivers(y, before)
    && (e.act.Deliver? ==> e.act.s in if e.AtA? then Run(y, before).wireB else Run(y, before).wireA)
  }

  /** In a run an endpoint is what its own actions make of it. */
  lemma {:induction false} RunPlays(y: System, trace: seq<Event>)
    requires Delivers(y, trace)
    ensures Run(y, trace).a == Played(y.a, ActsOfA(trace)) && Run(y, trace).b == Played(y.b, ActsOfB(trace))
  {
    if trace != [] {
      var before, e := trace[..|trace| - 1], trace[|trace| - 1];
      RunPlays(y, before);
      if e.AtA? {
        PlayedThen(y.a, ActsOfA(before), [e.act]);
        PlayedOne(Played(y.a, ActsOfA(before)), e.act);
        assert ActsOfB(before) + [] == ActsOfB(before);
      } else {
        PlayedThen(y.b, ActsOfB(before), [e.act]);
        PlayedOne(Played(y.b, ActsOfB(before)), e.act);
        assert ActsOfA(before) + [] == ActsOfA(before);
      }
    }
  }

  lemma {:induction false} RunThen(y: System, a: seq<Event>, b: seq<Event>)
    ensures Run(y, a + b) == Run(Run(y, a), b)
    decreases |b|
  {
    if b == [] {
      assert a + b == a;
    } else {
      assert (a + b)[..|a + b| - 1] == a + b[..|b| - 1];
      RunThen(y, a, b[..|b| - 1]);
    }
  }

  /** The actions of `net_tcp_send` on an endpoint. */
  function CallActs(x: Endpoint, data: seq<Byte>, turns: seq<Turn>): seq<Action>
    requires |data| <= MSS * |turns| && TurnsOk(turns)
  {
    [StartSend(data)] + SendActs(Outcome(x.conn, []), data, 0, turns)
  }

  /** An endpoint at which the application calls `net_tcp_send` with no other call in progress. */
  predicate MaySend(x: Endpoint, data: seq<Byte>, turns: seq<Turn>) {
    && x.call.NoCall? && x.conn.inUse && |data| <= MSS * |turns| && TurnsOk(turns)
    && 1 + |x.sent| + 1 + |data| < TWO31
  }

  lemma CallPlayed(x: Endpoint, data: seq<Byte>, turns: seq<Turn>)
    requires MaySend(x, data, turns)
    ensures SendEnds(Played(x, CallActs(x, data, turns)), Sending(Outcome(x.conn, []), data, 0, turns), data, |x.sent|)
  {
    var o, x1 := Outcome(x.conn, []), OnStartSend(x, data);
    PlayedOne(x, StartSend(data));
    PlayedThen(x, [StartSend(data)], SendActs(o, data, 0, turns));
    if x.conn.state != Listen {
      SendPlayed(x1, o, data, 0, |x.sent|, turns);
    }
  }

  /** The actions `acts` of endpoint `x` are a call of `net_tcp_send`. */
  predicate IsCall(x: Endpoint, acts: seq<Action>, data: seq<Byte>, turns: seq<Turn>) {
    MaySend(x, data, turns) && acts == CallActs(x, data, turns)
  }

  /** `x'` is `x` after the call, and its peer has accepted as many bytes as the call returns, in their place. */
  predicate CountsAccepted(x: Endpoint, x': Endpoint, peer: Endpoint, data: seq<Byte>, turns: seq<Turn>)
    requires MaySend(x, data, turns)
  {
    var e := Sending(Outcome(x.conn, []), data, 0, turns);
    var r := SendResult(data, e.count);
    x'.conn == e.end.conn && (r > 0 ==> Accepted(Call(data, |x.sent|, e.count, e.pending), r, peer))
  }

  /**
    In every run, whatever the peer and the network do during the call: when `net_tcp_send` returns a positive count,
    the peer has accepted that many bytes of the data, in their place in the stream.
   */
  lemma SendCountsAccepted(issA: U32, issB: U32, now: nat, trace: seq<Event>, during: seq<Event>, data: seq<Byte>,
                           turns: seq<Turn>)
    requires Delivers(Run(Start(issA, issB, now), trace), during)
    ensures var y := Run(Start(issA, issB, now), trace);
            var z := Run(y, during);
            && (IsCall(y.a, ActsOfA(during), data, turns) ==> CountsAccepted(y.a, z.a, z.b, data, turns))
            && (IsCall(y.b, ActsOfB(during), data, turns) ==> CountsAccepted(y.b, z.b, z.a, data, turns))
  {
    var y := Run(Start(issA, issB, now), trace);
    RunPlays(y, during);
    RunThen(Start(issA, issB, now), trace, during);
    SentIsAccepted(issA, issB, now, trace + during);
    if IsCall(y.a, ActsOfA(during), data, turns) {
      CallPlayed(y.a, data, turns);
    }
    if IsCall(y.b, ActsOfB(during), data, turns) {
      CallPlayed(y.b, data, turns);
    }
  }
}
