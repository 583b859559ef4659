/**
  One TCP connection of src/tcp.c: 32-bit wrapping sequence numbers, an
  in-order receive ring, one outstanding (retransmittable) segment, FIN close.

  `Conn` is the value of a connection, with the receive ring read as a queue.
  `TcpConn` is the object the kernel updates in place; every method is proved
  to act on `Value()` as the function of the same step on `Conn` does.
  `ip_send` is an atomic put-on-wire: a step returns the segments it sent.
 */
module Tcp {
  import opened Types

  const TWO32: nat := 0x1_0000_0000
  const TWO31: nat := 0x8000_0000
  const MSS: nat := 536
  const RXBUF: nat := 8192
  const RTO_MS: nat := 400
  const MAX_RETX: nat := 6

  type U32 = x: int | 0 <= x < 0x1_0000_0000

  datatype State = Closed | Listen | SynSent | SynRcvd | Established | FinWait | Done

  datatype Flags = Flags(fin: bool, syn: bool, rst: bool, psh: bool, ack: bool)

  datatype Segment = Segment(seqno: U32, ackno: U32, flags: Flags, window: nat, payload: seq<Byte>)

  datatype Conn = Conn(
    inUse: bool,
    state: State,
    sndUna: U32,
    sndNxt: U32,
    rcvNxt: U32,
    peerFin: bool,
    rx: seq<Byte>,
    retx: Option<Segment>,
    retxSeq: U32,
    retxAt: nat,
    retxTries: nat)

  /** What one step leaves behind: the connection and the segments put on the wire. */
  datatype Outcome = Outcome(conn: Conn, sent: seq<Segment>)

  const SYN := Flags(false, true, false, false, false)
  const SYN_ACK := Flags(false, true, false, false, true)
  const PSH_ACK := Flags(false, false, false, true, true)
  const FIN_ACK := Flags(true, false, false, false, true)
  const ACK := Flags(false, false, false, false, true)

  function Add32(a: U32, n: nat): U32 {
    (a + n) % TWO32
  }

  /** `(int32_t)(a - b) < 0`. */
  predicate SeqLt(a: U32, b: U32) {
    (a - b) % TWO32 >= TWO31
  }

  /** How far sequence number `s` lies past the initial number `iss`. */
  function Off(s: U32, iss: U32): nat {
    (s - iss) % TWO32
  }

  function Min(a: nat, b: nat): nat {
    if a < b then a else b
  }

  function Clip(data: seq<Byte>): seq<Byte> {
    data[..Min(|data|, MSS)]
  }

  function Consumed(flags: Flags, data: seq<Byte>): nat {
    |Clip(data)| + (if flags.syn || flags.fin then 1 else 0)
  }

  function EmittedSegment(c: Conn, flags: Flags, data: seq<Byte>): Segment {
    Segment(c.sndNxt, c.rcvNxt, flags, (RXBUF - |c.rx|) % 0x1_0000, Clip(data))
  }

  function Emit(c: Conn, flags: Flags, data: seq<Byte>, now: nat): Outcome {
    var s := EmittedSegment(c, flags, data);
    var n := Consumed(flags, data);
    Outcome(
      if n == 0 then c
      else c.(retx := Some(s), retxSeq := Add32(c.sndNxt, n), retxAt := now, retxTries := 0,
              sndNxt := Add32(c.sndNxt, n)),
      [s])
  }

  function AckSegment(c: Conn): Segment {
    EmittedSegment(c, ACK, [])
  }

  function AfterAck(c: Conn, s: Segment): Conn {
    var c1 := if s.flags.ack && c.retx.Some? && !SeqLt(s.ackno, c.retxSeq) then c.(retx := None) else c;
    var c2 := if s.flags.ack && SeqLt(c1.sndUna, s.ackno) then c1.(sndUna := s.ackno) else c1;
    if c2.state == SynRcvd && s.flags.ack && c2.retx.None? then c2.(state := Established) else c2
  }

  function AfterData(c: Conn, s: Segment): Outcome {
    if |s.payload| == 0 then
      Outcome(c, [])
    else if s.seqno == c.rcvNxt && |c.rx| + |s.payload| <= RXBUF then
      var d := c.(rx := c.rx + s.payload, rcvNxt := Add32(c.rcvNxt, |s.payload|));
      Outcome(d, [AckSegment(d)])
    else
      Outcome(c, [AckSegment(c)])
  }

  function AfterFin(c: Conn, s: Segment): Outcome {
    var taken := s.flags.fin && Add32(s.seqno, |s.payload|) == c.rcvNxt;
    var d := if taken then c.(rcvNxt := Add32(c.rcvNxt, 1), peerFin := true) else c;
    var out := if taken then [AckSegment(d)] else [];
    var closed := (taken && d.state == FinWait) || (d.state == FinWait && d.retx.None? && d.peerFin);
    Outcome(if closed then d.(state := Done) else d, out)
  }

  /** A segment that `tcp_find` matched to this connection. */
  function Input(c: Conn, s: Segment): Outcome {
    if s.flags.rst then
      Outcome(c.(state := Done, retx := None), [])
    else
      var d := AfterAck(c, s);
      if d.state == SynSent then
        if s.flags.syn && s.flags.ack then
          var e := d.(rcvNxt := Add32(s.seqno, 1), state := Established);
          Outcome(e, [AckSegment(e)])
        else
          Outcome(d, [])
      else
        var o := AfterData(d, s);
        var p := AfterFin(o.conn, s);
        Outcome(p.conn, o.sent + p.sent)
  }

  /** A segment that no connection matched, seen by a listening one. */
  function PassiveOpen(c: Conn, s: Segment, iss: U32, now: nat): Outcome {
    if s.flags.syn && c.inUse && c.state == Listen then
      Emit(c.(rcvNxt := Add32(s.seqno, 1), sndUna := iss, sndNxt := iss, state := SynRcvd), SYN_ACK, [], now)
    else
      Outcome(c, [])
  }

  function Tick(c: Conn, now: nat): Outcome {
    if !c.inUse || c.retx.None? || (now - c.retxAt) % 0x1_0000_0000_0000_0000 < RTO_MS then
      Outcome(c, [])
    else if c.retxTries >= MAX_RETX then
      Outcome(c.(state := Done, retx := None), [])
    else
      Outcome(c.(retxTries := c.retxTries + 1, retxAt := now), [c.retx.value])
  }

  const Blank := Conn(true, Closed, 0, 0, 0, false, [], None, 0, 0, 0)

  function ActiveOpen(iss: U32, now: nat): Outcome {
    Emit(Blank.(state := SynSent, sndUna := iss, sndNxt := iss), SYN, [], now)
  }

  const Listening := Blank.(state := Listen)

  /** A frame for this connection: a segment that `tcp_find` matched to it, or one that it saw as a listener. */
  datatype Arrival = Matched(s: Segment) | Unmatched(s: Segment, iss: U32, now: nat)

  /** One `net_poll`: the frames it takes in, the clock its timers see, and the clock when it returns. */
  datatype Poll = Poll(arrivals: seq<Arrival>, now: nat, clock: nat)

  function Arrived(o: Outcome, a: Arrival): Outcome {
    var more := match a
      case Matched(s) => Input(o.conn, s)
      case Unmatched(s, iss, now) => PassiveOpen(o.conn, s, iss, now);
    Outcome(more.conn, o.sent + more.sent)
  }

  function AllArrived(o: Outcome, arrivals: seq<Arrival>): Outcome
    decreases arrivals
  {
    if arrivals == [] then o else AllArrived(Arrived(o, arrivals[0]), arrivals[1..])
  }

  function Polled(o: Outcome, p: Poll): Outcome {
    var arrived := AllArrived(o, p.arrivals);
    var more := Tick(arrived.conn, p.now);
    Outcome(more.conn, arrived.sent + more.sent)
  }

  /** Something to return: buffered bytes, or a stream that is finished. */
  predicate Decided(c: Conn) {
    |c.rx| > 0 || c.peerFin || c.state == Done
  }

  /** The clock reaches the deadline at one of the polls. */
  predicate Expires(polls: seq<Poll>, deadline: nat) {
    polls != [] && polls[|polls| - 1].clock >= deadline
  }

  datatype Wait = Wait(end: Outcome, timedOut: bool)

  /** The wait of `net_tcp_recv`: it looks at the connection before each poll, and at the clock only after it. */
  function Waited(o: Outcome, polls: seq<Poll>, deadline: nat): Wait
    requires Expires(polls, deadline)
    decreases polls
  {
    if Decided(o.conn) then Wait(o, false)
    else if polls[0].clock >= deadline then Wait(Polled(o, polls[0]), true)
    else Waited(Polled(o, polls[0]), polls[1..], deadline)
  }

  lemma OneArrivedAfter(c: Conn, pre: seq<Segment>, sent: seq<Segment>, a: Arrival)
    ensures Arrived(Outcome(c, pre + sent), a) ==
            var o := Arrived(Outcome(c, sent), a); Outcome(o.conn, pre + o.sent)
  {
    var more := match a
      case Matched(s) => Input(c, s)
      case Unmatched(s, iss, now) => PassiveOpen(c, s, iss, now);
    assert pre + sent + more.sent == pre + (sent + more.sent);
  }

  lemma {:induction false} ArrivedAfter(c: Conn, pre: seq<Segment>, sent: seq<Segment>, arrivals: seq<Arrival>)
    ensures AllArrived(Outcome(c, pre + sent), arrivals) ==
            var o := AllArrived(Outcome(c, sent), arrivals); Outcome(o.conn, pre + o.sent)
    decreases arrivals
  {
    if arrivals != [] {
      var o := Arrived(Outcome(c, sent), arrivals[0]);
      OneArrivedAfter(c, pre, sent, arrivals[0]);
      ArrivedAfter(o.conn, pre, o.sent, arrivals[1..]);
    }
  }

  /** What was sent before a poll stays sent. */
  lemma PolledAfter(c: Conn, pre: seq<Segment>, p: Poll)
    ensures Polled(Outcome(c, pre), p) == var o := Polled(Outcome(c, []), p); Outcome(o.conn, pre + o.sent)
  {
    assert pre + [] == pre;
    ArrivedAfter(c, pre, [], p.arrivals);
  }

  lemma InputKeepsSlot(c: Conn, s: Segment)
    ensures Input(c, s).conn.inUse == c.inUse
  {
  }

  lemma {:induction false} ArrivalsKeepSlot(o: Outcome, arrivals: seq<Arrival>)
    ensures AllArrived(o, arrivals).conn.inUse == o.conn.inUse
    decreases arrivals
  {
    if arrivals != [] {
      assert Arrived(o, arrivals[0]).conn.inUse == o.conn.inUse by {
        match arrivals[0]
        case Matched(s) => InputKeepsSlot(o.conn, s);
        case Unmatched(s, iss, now) =>
      }
      ArrivalsKeepSlot(Arrived(o, arrivals[0]), arrivals[1..]);
    }
  }

  /** No frame and no timer frees the slot of a connection that is being read, and a wait ends decided or late. */
  lemma {:induction false} WaitEnds(o: Outcome, polls: seq<Poll>, deadline: nat)
    requires Expires(polls, deadline)
    ensures var w := Waited(o, polls, deadline); w.end.conn.inUse == o.conn.inUse && (w.timedOut || Decided(w.end.conn))
    decreases polls
  {
    if !Decided(o.conn) {
      ArrivalsKeepSlot(o, polls[0].arrivals);
      if polls[0].clock < deadline {
        WaitEnds(Polled(o, polls[0]), polls[1..], deadline);
      }
    }
  }

  /** The connection after the first `n` polls. */
  function After(o: Outcome, polls: seq<Poll>, n: nat): Outcome
    requires n <= |polls|
  {
    if n == 0 then o else Polled(After(o, polls, n - 1), polls[n - 1])
  }

  lemma {:induction false} AfterFirst(o: Outcome, polls: seq<Poll>, n: nat)
    requires n < |polls|
    ensures After(Polled(o, polls[0]), polls[1..], n) == After(o, polls, n + 1)
  {
    if n > 0 {
      AfterFirst(o, polls, n - 1);
    }
  }

  /** Poll `k` is the first one at whose end the clock has reached the deadline. */
  predicate FirstExpiry(polls: seq<Poll>, deadline: nat, k: nat) {
    k < |polls| && polls[k].clock >= deadline && forall j :: 0 <= j < k ==> polls[j].clock < deadline
  }

  /** Nothing is decided before poll `k`. */
  ghost predicate Undecided(o: Outcome, polls: seq<Poll>, k: nat)
    requires k < |polls|
  {
    forall j: nat {:trigger After(o, polls, j)} :: j <= k ==> !Decided(After(o, polls, j).conn)
  }

  lemma UndecidedStep(o: Outcome, polls: seq<Poll>, k: nat)
    requires 0 < k < |polls|
    ensures Undecided(o, polls, k) <==> !Decided(o.conn) && Undecided(Polled(o, polls[0]), polls[1..], k - 1)
  {
    var (o1, rest) := (Polled(o, polls[0]), polls[1..]);
    assert After(o, polls, 0) == o;
    forall j: nat | j < k ensures After(o1, rest, j) == After(o, polls, j + 1) {
      AfterFirst(o, polls, j);
    }
    if !Decided(o.conn) && Undecided(o1, rest, k - 1) {
      forall j: nat | j <= k ensures !Decided(After(o, polls, j).conn) {
        if j > 0 {
          assert After(o1, rest, j - 1) == After(o, polls, j);
        }
      }
    }
  }

  /**
    The wait times out exactly when nothing was decided before the poll at the deadline, whatever that poll brought.
   */
  lemma {:induction false} TimesOutIff(o: Outcome, polls: seq<Poll>, deadline: nat, k: nat)
    requires Expires(polls, deadline) && FirstExpiry(polls, deadline, k)
    ensures var w := Waited(o, polls, deadline);
            (w.timedOut <==> Undecided(o, polls, k)) && (w.timedOut ==> w.end == After(o, polls, k + 1))
    decreases polls
  {
    assert After(o, polls, 0) == o;
    if !Decided(o.conn) {
      if k == 0 {
        assert After(o, polls, 1) == Polled(After(o, polls, 0), polls[0]);
      } else {
        UndecidedStep(o, polls, k);
        AfterFirst(o, polls, k);
        TimesOutIff(Polled(o, polls[0]), polls[1..], deadline, k - 1);
      }
    }
  }

  /** A byte that arrives in the poll at the deadline is buffered, and the receive still times out. */
  lemma LateByteTimesOut(b: Byte, deadline: nat)
    ensures var c := Blank.(state := Established);
            var polls := [Poll([Matched(Segment(0, 0, ACK, RXBUF, [b]))], 0, deadline)];
            var w := Waited(Outcome(c, []), polls, deadline);
            w.timedOut && w.end.conn.rx == [b] && RecvResult(w.end.conn, 1) == 1
  {
    var c := Blank.(state := Established);
    var a := Matched(Segment(0, 0, ACK, RXBUF, [b]));
    assert Arrived(Outcome(c, []), a).conn.rx == [b];
    assert AllArrived(Outcome(c, []), [a]) == Arrived(Outcome(c, []), a);
  }

  /** The window of an ACK is the room in the ring: in-order data is taken if and only if it fits the window. */
  lemma WindowIsRoom(c: Conn, s: Segment)
    requires |c.rx| <= RXBUF && s.payload != [] && s.seqno == c.rcvNxt
    ensures AfterData(c, s).conn.rx == c.rx + s.payload <==> |s.payload| <= AckSegment(c).window
    ensures AfterData(c, s).conn.rx == c.rx <==> |s.payload| > AckSegment(c).window
  {
    assert |c.rx + s.payload| > |c.rx|;
  }

  // ----- Retransmission -----

  /** The timer at each of the given times. */
  function Ticked(o: Outcome, times: seq<nat>): Outcome
    decreases times
  {
    if times == [] then o
    else
      var more := Tick(o.conn, times[0]);
      Ticked(Outcome(more.conn, o.sent + more.sent), times[1..])
  }

  /** How often 400 ms have passed since the time before, starting at `last`. */
  function Expiries(times: seq<nat>, last: nat): nat {
    if times == [] then 0
    else if times[0] - last >= 400 then 1 + Expiries(times[1..], times[0])
    else Expiries(times[1..], last)
  }

  predicate InOrder(times: seq<nat>, last: nat) {
    times == [] || (last <= times[0] < 0x1_0000_0000_0000_0000 && InOrder(times[1..], times[0]))
  }

  function Copies(s: Segment, n: nat): seq<Segment> {
    seq(n, _ => s)
  }

  /**
    An unanswered segment: with every 400 ms it is sent again as it was, six times in all, and with the next 400 ms the
    connection is given up.
   */
  lemma {:induction false} Retransmits(c: Conn, s: Segment, times: seq<nat>, pre: seq<Segment>)
    requires c.inUse && c.retx == Some(s) && c.retxTries <= 6 && c.retxAt < 0x1_0000_0000_0000_0000
    requires InOrder(times, c.retxAt)
    ensures var n, left, o := Expiries(times, c.retxAt), 6 - c.retxTries, Ticked(Outcome(c, pre), times);
            && o.sent == pre + Copies(s, if n <= left then n else left)
            && (if n <= left then o.conn == c.(retxTries := c.retxTries + n, retxAt := o.conn.retxAt)
                else o.conn.state == Done && o.conn.retx.None?)
    decreases times
  {
    if times == [] {
      assert pre + Copies(s, 0) == pre;
    } else {
      var now, rest := times[0], times[1..];
      if now - c.retxAt < 400 {
        OrderedLater(rest, now, c.retxAt);
        assert pre + [] == pre;
        Retransmits(c, s, rest, pre);
      } else if c.retxTries < 6 {
        Retransmits(c.(retxTries := c.retxTries + 1, retxAt := now), s, rest, pre + [s]);
        CopiesMore(s, pre, Expiries(rest, now), 5 - c.retxTries);
      } else {
        assert pre + [] == pre && pre + Copies(s, 0) == pre;
        NoneOutstanding(c.(state := Done, retx := None), rest, pre);
      }
    }
  }

  lemma OrderedLater(times: seq<nat>, last: nat, before: nat)
    requires InOrder(times, last) && before <= last
    ensures InOrder(times, before)
  {
  }

  lemma CopiesMore(s: Segment, pre: seq<Segment>, n: nat, left: nat)
    ensures pre + [s] + Copies(s, if n <= left then n else left) ==
            pre + Copies(s, if n + 1 <= left + 1 then n + 1 else left + 1)
  {
  }

  lemma {:induction false} NoneOutstanding(c: Conn, times: seq<nat>, pre: seq<Segment>)
    requires c.retx.None?
    ensures Ticked(Outcome(c, pre), times) == Outcome(c, pre)
    decreases times
  {
    if times != [] {
      assert pre + [] == pre;
      NoneOutstanding(c, times[1..], pre);
    }
  }

  // ----- Sending -----

  /** One turn of `net_tcp_send`: the clock when the chunk is emitted, the clock its deadline counts from, its polls. */
  datatype Turn = Turn(now: nat, clock: nat, polls: seq<Poll>)

  /** `TCP_RTO_MS * (TCP_MAX_RETX + 2)`. */
  const SEND_WAIT: nat := 3200

  predicate TurnsOk(turns: seq<Turn>) {
    forall k :: 0 <= k < |turns| ==> Expires(turns[k].polls, turns[k].clock + SEND_WAIT)
  }

  /** The wait for a chunk's ACK: it fails when a poll ends the connection or reaches the deadline. */
  function AckWaited(o: Outcome, polls: seq<Poll>, deadline: nat): Wait
    requires Expires(polls, deadline)
    decreases polls
  {
    if o.conn.retx.None? then Wait(o, false)
    else
      var o' := Polled(o, polls[0]);
      if o'.conn.state == Done || polls[0].clock >= deadline then Wait(o', true)
      else AckWaited(o', polls[1..], deadline)
  }

  /** Where a send stops: `count` bytes counted, and `pending` bytes emitted after them and not counted. */
  datatype Sent = Sent(end: Outcome, count: nat, pending: nat)

  function Emitted(o: Outcome, data: seq<Byte>, now: nat): Outcome {
    var more := Emit(o.conn, PSH_ACK, data, now);
    Outcome(more.conn, o.sent + more.sent)
  }

  /** The loop of `net_tcp_send` after `count` bytes. */
  function Sending(o: Outcome, data: seq<Byte>, count: nat, turns: seq<Turn>): (s: Sent)
    requires count <= |data| <= count + MSS * |turns| && TurnsOk(turns)
    ensures count <= s.count && s.count + s.pending <= |data|
    decreases turns
  {
    if count == |data| || o.conn.state != Established then Sent(o, count, 0)
    else
      var chunk := Clip(data[count..]);
      var w := AckWaited(Emitted(o, chunk, turns[0].now), turns[0].polls, turns[0].clock + SEND_WAIT);
      if w.timedOut then Sent(w.end, count, |chunk|) else Sending(w.end, data, count + |chunk|, turns[1..])
  }

  /** Poll `k` is the first one that ends the connection or reaches the deadline. */
  ghost predicate FirstEnd(o: Outcome, polls: seq<Poll>, deadline: nat, k: nat) {
    && k < |polls| && EndsAt(o, polls, deadline, k)
    && forall j: nat {:trigger EndsAt(o, polls, deadline, j)} :: j < k ==> !EndsAt(o, polls, deadline, j)
  }

  predicate EndsAt(o: Outcome, polls: seq<Poll>, deadline: nat, j: nat)
    requires j < |polls|
  {
    After(o, polls, j + 1).conn.state == Done || polls[j].clock >= deadline
  }

  /** Nothing is acknowledged before poll `k`. */
  ghost predicate Unacked(o: Outcome, polls: seq<Poll>, k: nat)
    requires k < |polls|
  {
    forall j: nat {:trigger After(o, polls, j)} :: j <= k ==> After(o, polls, j).conn.retx.Some?
  }

  /** The wait for an ACK fails exactly when none has come before the poll that ends it, whatever that poll brought. */
  lemma {:induction false} AckFailsIff(o: Outcome, polls: seq<Poll>, deadline: nat, k: nat)
    requires Expires(polls, deadline) && FirstEnd(o, polls, deadline, k)
    ensures AckWaited(o, polls, deadline).timedOut <==> Unacked(o, polls, k)
    decreases polls
  {
    assert After(o, polls, 0) == o;
    if o.conn.retx.Some? {
      assert After(o, polls, 1) == Polled(After(o, polls, 0), polls[0]);
      assert EndsAt(o, polls, deadline, 0) <==> k == 0;
      if k > 0 {
        var o1, rest := Polled(o, polls[0]), polls[1..];
        EndsLater(o, polls, deadline, k);
        AckFailsIff(o1, rest, deadline, k - 1);
      }
    }
  }

  /** The same one poll later. */
  lemma EndsLater(o: Outcome, polls: seq<Poll>, deadline: nat, k: nat)
    requires FirstEnd(o, polls, deadline, k) && 0 < k
    ensures FirstEnd(Polled(o, polls[0]), polls[1..], deadline, k - 1)
    ensures o.conn.retx.Some? ==> (Unacked(o, polls, k) <==> Unacked(Polled(o, polls[0]), polls[1..], k - 1))
  {
    var o1, rest := Polled(o, polls[0]), polls[1..];
    forall j: nat | j < |rest| ensures After(o1, rest, j) == After(o, polls, j + 1) {
      AfterFirst(o, polls, j);
    }
    forall j: nat | j < k ensures EndsAt(o1, rest, deadline, j) <==> EndsAt(o, polls, deadline, j + 1) {
      AfterFirst(o, polls, j + 1);
    }
    assert After(o, polls, 0) == o;
    if o.conn.retx.Some? && Unacked(o1, rest, k - 1) {
      forall j: nat | j <= k ensures After(o, polls, j).conn.retx.Some? {
        assert j > 0 ==> After(o1, rest, j - 1) == After(o, polls, j);
      }
    }
  }

  /** The call counted everything, or the connection is not established, or the wait for its last chunk failed. */
  ghost predicate StopsRight(s: Sent, data: seq<Byte>, turns: seq<Turn>) {
    && (s.count < |data| ==> s.pending > 0 || s.end.conn.state != Established)
    && (s.pending > 0 ==> s.count < |data| && s.pending == Min(|data| - s.count, MSS) && FailedWait(s.end, turns))
  }

  /** A send stops short only when the connection is not established or the wait for a chunk failed. */
  lemma {:induction false} SendStops(o: Outcome, data: seq<Byte>, count: nat, turns: seq<Turn>)
    requires count <= |data| <= count + MSS * |turns| && TurnsOk(turns)
    ensures StopsRight(Sending(o, data, count, turns), data, turns)
    decreases turns
  {
    if count < |data| && o.conn.state == Established {
      var n, o1 := Min(|data| - count, MSS), Emitted(o, Clip(data[count..]), turns[0].now);
      var w := AckWaited(o1, turns[0].polls, turns[0].clock + SEND_WAIT);
      SendingStep(o, data, count, turns, w);
      if w.timedOut {
        StopsHere(o1, w.end, data, count, turns);
      } else {
        SendStops(w.end, data, count + n, turns[1..]);
        StopsLater(Sending(w.end, data, count + n, turns[1..]), data, turns);
      }
    }
  }

  lemma StopsHere(o: Outcome, end: Outcome, data: seq<Byte>, count: nat, turns: seq<Turn>)
    requires turns != [] && count < |data| && FailedTurn(end, turns[0], o)
    ensures StopsRight(Sent(end, count, Min(|data| - count, MSS)), data, turns)
  {
    assert HasFailed(end, turns[0]);
  }

  lemma StopsLater(s: Sent, data: seq<Byte>, turns: seq<Turn>)
    requires turns != [] && StopsRight(s, data, turns[1..])
    ensures StopsRight(s, data, turns)
  {
    LaterTurns(s.end, turns);
  }

  predicate FailedTurn(end: Outcome, t: Turn, o: Outcome) {
    Expires(t.polls, t.clock + SEND_WAIT) && AckWaited(o, t.polls, t.clock + SEND_WAIT) == Wait(end, true)
  }

  ghost predicate HasFailed(end: Outcome, t: Turn) {
    exists o :: FailedTurn(end, t, o)
  }

  /** The call ended in the wait of one of the turns. */
  ghost predicate FailedWait(end: Outcome, turns: seq<Turn>) {
    exists k :: 0 <= k < |turns| && HasFailed(end, turns[k])
  }

  lemma LaterTurns(end: Outcome, turns: seq<Turn>)
    requires turns != []
    ensures FailedWait(end, turns[1..]) ==> FailedWait(end, turns)
  {
    if FailedWait(end, turns[1..]) {
      var k :| 0 <= k < |turns[1..]| && HasFailed(end, turns[1..][k]);
      assert HasFailed(end, turns[k + 1]);
    }
  }

  lemma SendingStep(o: Outcome, data: seq<Byte>, count: nat, turns: seq<Turn>, w: Wait)
    requires count < |data| <= count + MSS * |turns| && TurnsOk(turns) && o.conn.state == Established
    requires w == AckWaited(Emitted(o, Clip(data[count..]), turns[0].now), turns[0].polls, turns[0].clock + SEND_WAIT)
    ensures Sending(o, data, count, turns) ==
            if w.timedOut then Sent(w.end, count, Min(|data| - count, MSS))
            else Sending(w.end, data, count + Min(|data| - count, MSS), turns[1..])
  {
  }

  /** What `net_tcp_send` returns after counting that many bytes. */
  function SendResult(data: seq<Byte>, count: nat): int {
    if count > 0 || data == [] then count else -1
  }

  /** What `net_tcp_recv` returns when its wait ends in this state: -1 on an unused slot or a timeout. */
  function RecvResult(c: Conn, cap: nat): int {
    if !c.inUse then -1
    else if |c.rx| > 0 then Min(|c.rx|, cap)
    else if c.peerFin || c.state == Done then 0
    else -1
  }

  /** What a receive returns says what there was: nothing yet, the end or no room, or as many bytes as fit. */
  lemma RecvMeans(c: Conn, cap: nat)
    requires c.inUse
    ensures RecvResult(c, cap) == -1 <==> c.rx == [] && !c.peerFin && c.state != Done
    ensures RecvResult(c, cap) == 0 <==> Decided(c) && (c.rx == [] || cap == 0)
    ensures c.rx != [] ==>
              && Taken(c, cap) + AfterRecv(c, cap).rx == c.rx && RecvResult(c, cap) == |Taken(c, cap)| <= cap
              && (AfterRecv(c, cap).rx == [] || |Taken(c, cap)| == cap)
  {
  }

  /** The bytes `net_tcp_recv` copies out, once something is buffered. */
  function Taken(c: Conn, cap: nat): seq<Byte> {
    c.rx[..Min(|c.rx|, cap)]
  }

  function AfterRecv(c: Conn, cap: nat): Conn {
    c.(rx := c.rx[Min(|c.rx|, cap)..])
  }

  /** The ring cells `buf[(head + i) % RXBUF]`, `i < len`, as a queue. */
  function Ring(buf: seq<Byte>, head: nat, len: nat): (q: seq<Byte>)
    requires |buf| == RXBUF
    ensures |q| == len
  {
    seq(len, i requires 0 <= i < len => buf[(head + i) % RXBUF])
  }

  class TcpConn {
    var inUse: bool
    var state: State
    var sndUna: U32
    var sndNxt: U32
    var rcvNxt: U32
    var peerFin: bool
    const rx: array<Byte>
    var rxHead: nat
    var rxLen: nat
    var retx: Option<Segment>
    var retxSeq: U32
    var retxAt: nat
    var retxTries: nat

    ghost predicate Valid() {
      rx.Length == RXBUF
    }

    ghost function Value(): Conn
      reads this, rx
      requires Valid()
    {
      Conn(inUse, state, sndUna, sndNxt, rcvNxt, peerFin, Ring(rx[..], rxHead, rxLen),
           retx, retxSeq, retxAt, retxTries)
    }

    /** A slot of the connection table that was never used. */
    constructor ()
      ensures Valid() && fresh(rx) && rxHead < RXBUF && Value() == Blank.(inUse := false)
    {
      inUse, state := false, Closed;
      sndUna, sndNxt, rcvNxt, peerFin := 0, 0, 0, false;
      rx := new Byte[RXBUF](_ => 0);
      rxHead, rxLen := 0, 0;
      retx, retxSeq, retxAt, retxTries := None, 0, 0, 0;
    }

    /** The memset of a slot that is taken again. */
    method Clear(opening: State)
      requires Valid()
      modifies this, rx
      ensures Valid() && rxHead < RXBUF && Value() == Blank.(state := opening)
    {
      inUse, state := true, opening;
      sndUna, sndNxt, rcvNxt, peerFin := 0, 0, 0, false;
      forall i | 0 <= i < rx.Length {
        rx[i] := 0;
      }
      rxHead, rxLen := 0, 0;
      retx, retxSeq, retxAt, retxTries := None, 0, 0, 0;
    }

    /** An active open in a free slot, and the SYN it puts on the wire. */
    method Connect(iss: U32, now: nat) returns (syn: Segment)
      requires Valid()
      modifies this, rx
      ensures Valid() && rxHead < RXBUF && rxLen <= RXBUF
      ensures Outcome(Value(), [syn]) == ActiveOpen(iss, now)
    {
      Clear(SynSent);
      sndUna, sndNxt := iss, iss;
      syn := EmitSegment(SYN, [], now);
    }

    method Listen()
      requires Valid()
      modifies this, rx
      ensures Valid() && rxHead < RXBUF && rxLen <= RXBUF && Value() == Listening
    {
      Clear(State.Listen);
    }

    method EmitSegment(flags: Flags, data: seq<Byte>, now: nat) returns (s: Segment)
      requires Valid() && rxLen <= RXBUF
      modifies this`retx, this`retxSeq, this`retxAt, this`retxTries, this`sndNxt
      ensures Outcome(Value(), [s]) == Emit(old(Value()), flags, data, now)
    {
      var len := |data|;
      if len > MSS {
        len := MSS;
      }
      s := Segment(sndNxt, rcvNxt, flags, (RXBUF - rxLen) % 0x1_0000, data[..len]);
      var consumed := len;
      if flags.syn || flags.fin {
        consumed := consumed + 1;
      }
      if consumed != 0 {
        retx := Some(s);
        retxSeq := Add32(sndNxt, consumed);
        retxAt := now;
        retxTries := 0;
        sndNxt := Add32(sndNxt, consumed);
      }
    }

    method BareAck() returns (s: Segment)
      requires Valid() && rxLen <= RXBUF
      ensures s == AckSegment(Value())
    {
      s := Segment(sndNxt, rcvNxt, ACK, (RXBUF - rxLen) % 0x1_0000, []);
    }

    /** Appends the payload cell by cell behind the buffered bytes. */
    method Append(payload: seq<Byte>)
      requires Valid() && rxHead < RXBUF && rxLen + |payload| <= RXBUF
      modifies this`rxLen, rx
      ensures Ring(rx[..], rxHead, rxLen) == old(Ring(rx[..], rxHead, rxLen)) + payload
    {
      ghost var before := Ring(rx[..], rxHead, rxLen);
      for i := 0 to |payload|
        invariant Ring(rx[..], rxHead, rxLen + i) == before + payload[..i]
      {
        ghost var was := rx[..];
        rx[(rxHead + rxLen + i) % RXBUF] := payload[i];
        RingSnoc(was, rxHead, rxLen + i, payload[i]);
        assert before + payload[..i] + [payload[i]] == before + payload[..i + 1];
      }
      rxLen := rxLen + |payload|;
      assert payload[..|payload|] == payload;
    }

    method Receive(s: Segment) returns (sent: seq<Segment>)
      requires Valid() && rxHead < RXBUF && rxLen <= RXBUF
      modifies this, rx
      ensures Valid() && rxHead < RXBUF && rxLen <= RXBUF
      ensures Outcome(Value(), sent) == Input(old(Value()), s)
    {
      sent := [];
      if s.flags.rst {
        state := Done;
        retx := None;
        return;
      }
      ReceiveAck(s);
      if state == SynSent {
        if s.flags.syn && s.flags.ack {
          rcvNxt := Add32(s.seqno, 1);
          state := Established;
          var a := BareAck();
          sent := [a];
        }
        return;
      }
      sent := ReceiveData(s);
      var more := ReceiveFin(s);
      sent := sent + more;
    }

    method ReceiveAck(s: Segment)
      requires Valid()
      modifies this`retx, this`sndUna, this`state
      ensures Value() == AfterAck(old(Value()), s)
    {
      if s.flags.ack && retx.Some? && !SeqLt(s.ackno, retxSeq) {
        retx := None;
      }
      if s.flags.ack && SeqLt(sndUna, s.ackno) {
        sndUna := s.ackno;
      }
      if state == SynRcvd && s.flags.ack && retx.None? {
        state := Established;
      }
    }

    method ReceiveData(s: Segment) returns (sent: seq<Segment>)
      requires Valid() && rxHead < RXBUF && rxLen <= RXBUF
      modifies this`rxLen, this`rcvNxt, rx
      ensures rxLen <= RXBUF
      ensures Outcome(Value(), sent) == AfterData(old(Value()), s)
    {
      sent := [];
      if |s.payload| != 0 && s.seqno == rcvNxt && rxLen + |s.payload| <= RXBUF {
        Append(s.payload);
        rcvNxt := Add32(rcvNxt, |s.payload|);
        var a := BareAck();
        sent := [a];
      } else if |s.payload| != 0 {
        var a := BareAck();
        sent := [a];
      }
    }

    method ReceiveFin(s: Segment) returns (sent: seq<Segment>)
      requires Valid() && rxLen <= RXBUF
      modifies this`rcvNxt, this`peerFin, this`state
      ensures Outcome(Value(), sent) == AfterFin(old(Value()), s)
    {
      sent := [];
      if s.flags.fin && Add32(s.seqno, |s.payload|) == rcvNxt {
        rcvNxt := Add32(rcvNxt, 1);
        peerFin := true;
        var a := BareAck();
        sent := [a];
        if state == FinWait {
          state := Done;
        }
      }
      if state == FinWait && retx.None? && peerFin {
        state := Done;
      }
    }

    /** A SYN that no connection matched. */
    method Accept(s: Segment, iss: U32, now: nat) returns (sent: seq<Segment>)
      requires Valid() && rxLen <= RXBUF
      modifies this
      ensures rxHead == old(rxHead) && rxLen == old(rxLen)
      ensures Outcome(Value(), sent) == PassiveOpen(old(Value()), s, iss, now)
    {
      sent := [];
      if s.flags.syn && inUse && state == State.Listen {
        rcvNxt := Add32(s.seqno, 1);
        sndUna, sndNxt := iss, iss;
        state := SynRcvd;
        var r := EmitSegment(SYN_ACK, [], now);
        sent := [r];
      }
    }

    method Pump(now: nat) returns (sent: seq<Segment>)
      requires Valid()
      modifies this`state, this`retx, this`retxTries, this`retxAt
      ensures Outcome(Value(), sent) == Tick(old(Value()), now)
    {
      sent := [];
      if !inUse || retx.None? {
        return;
      }
      if (now - retxAt) % 0x1_0000_0000_0000_0000 < RTO_MS {
        return;
      }
      if retxTries >= MAX_RETX {
        state := Done;
        retx := None;
        return;
      }
      retxTries := retxTries + 1;
      retxAt := now;
      sent := [retx.value];
    }

    /** net_poll, as far as this connection goes. */
    method TakePoll(p: Poll) returns (sent: seq<Segment>)
      requires Valid() && rxHead < RXBUF && rxLen <= RXBUF
      modifies this, rx
      ensures Valid() && rxHead < RXBUF && rxLen <= RXBUF
      ensures Outcome(Value(), sent) == Polled(Outcome(old(Value()), []), p)
    {
      sent := [];
      for i := 0 to |p.arrivals|
        invariant Valid() && rxHead < RXBUF && rxLen <= RXBUF
        invariant AllArrived(Outcome(Value(), sent), p.arrivals[i..]) ==
                  AllArrived(Outcome(old(Value()), []), p.arrivals)
      {
        var more := TakeIn(p.arrivals[i]);
        sent := sent + more;
        assert p.arrivals[i..][1..] == p.arrivals[i + 1..];
      }
      var more := Pump(p.now);
      sent := sent + more;
    }

    method TakeIn(a: Arrival) returns (sent: seq<Segment>)
      requires Valid() && rxHead < RXBUF && rxLen <= RXBUF
      modifies this, rx
      ensures Valid() && rxHead < RXBUF && rxLen <= RXBUF
      ensures forall pre :: Outcome(Value(), pre + sent) == Arrived(Outcome(old(Value()), pre), a)
    {
      match a
      case Matched(s) => sent := Receive(s);
      case Unmatched(s, iss, now) => sent := Accept(s, iss, now);
    }

    /** One poll after `pre` was sent. */
    method PollAfter(p: Poll, ghost pre: seq<Segment>) returns (more: seq<Segment>)
      requires Valid() && rxHead < RXBUF && rxLen <= RXBUF
      modifies this, rx
      ensures Valid() && rxHead < RXBUF && rxLen <= RXBUF
      ensures Outcome(Value(), pre + more) == Polled(Outcome(old(Value()), pre), p)
    {
      PolledAfter(Value(), pre, p);
      more := TakePoll(p);
    }

    /** The wait for the ACK of a chunk, after `pre` was sent. */
    method AwaitAck(polls: seq<Poll>, deadline: nat, ghost pre: seq<Segment>) returns (failed: bool, sent: seq<Segment>)
      requires Valid() && rxHead < RXBUF && rxLen <= RXBUF && Expires(polls, deadline)
      modifies this, rx
      ensures Valid() && rxHead < RXBUF && rxLen <= RXBUF
      ensures Wait(Outcome(Value(), pre + sent), failed) == AckWaited(Outcome(old(Value()), pre), polls, deadline)
    {
      sent := [];
      var i := 0;
      assert pre + [] == pre && polls[0..] == polls;
      while retx.Some?
        invariant Valid() && rxHead < RXBUF && rxLen <= RXBUF && i < |polls|
        invariant AckWaited(Outcome(Value(), pre + sent), polls[i..], deadline) ==
                  AckWaited(Outcome(old(Value()), pre), polls, deadline)
        decreases |polls| - i
      {
        var more := PollAfter(polls[i], pre + sent);
        assert pre + sent + more == pre + (sent + more);
        sent := sent + more;
        if state == Done || polls[i].clock >= deadline {
          return true, sent;
        }
        assert polls[i..][1..] == polls[i + 1..];
        i := i + 1;
      }
      failed := false;
    }

    /** net_tcp_send. */
    method Send(data: seq<Byte>, turns: seq<Turn>) returns (r: int, sent: seq<Segment>)
      requires Valid() && rxHead < RXBUF && rxLen <= RXBUF && |data| <= MSS * |turns| && TurnsOk(turns)
      modifies this, rx
      ensures Valid() && rxHead < RXBUF && rxLen <= RXBUF
      ensures !old(inUse) ==> r == -1 && sent == [] && Value() == old(Value())
      ensures old(inUse) ==>
                var s := Sending(Outcome(old(Value()), []), data, 0, turns);
                Outcome(Value(), sent) == s.end && r == SendResult(data, s.count)
    {
      sent := [];
      if !inUse {
        return -1, sent;
      }
      var count;
      count, sent := SendAll(data, turns);
      r := if count < |data| && count == 0 then -1 else count;
    }

    /** The loop over the chunks; it stops early when the connection is not established or a wait fails. */
    method SendAll(data: seq<Byte>, turns: seq<Turn>) returns (count: nat, sent: seq<Segment>)
      requires Valid() && rxHead < RXBUF && rxLen <= RXBUF && |data| <= MSS * |turns| && TurnsOk(turns)
      modifies this, rx
      ensures Valid() && rxHead < RXBUF && rxLen <= RXBUF
      ensures var s := Sending(Outcome(old(Value()), []), data, 0, turns);
              Outcome(Value(), sent) == s.end && count == s.count
    {
      sent, count := [], 0;
      var k := 0;
      assert turns[0..] == turns;
      while count < |data|
        invariant Valid() && rxHead < RXBUF && rxLen <= RXBUF
        invariant count <= |data| && k <= |turns| && |data| <= count + MSS * (|turns| - k)
        invariant Sending(Outcome(Value(), sent), data, count, turns[k..]) ==
                  Sending(Outcome(old(Value()), []), data, 0, turns)
        decreases |data| - count
      {
        if state != Established {
          return;
        }
        var failed, more := SendTurn(data, count, turns, k, sent);
        sent := sent + more;
        if failed {
          return;
        }
        count, k := count + Min(|data| - count, MSS), k + 1;
      }
    }

    /** Turn `k` of the loop. */
    method SendTurn(data: seq<Byte>, count: nat, turns: seq<Turn>, k: nat, ghost sent: seq<Segment>)
      returns (failed: bool, more: seq<Segment>)
      requires Valid() && rxHead < RXBUF && rxLen <= RXBUF && state == Established && k < |turns| && TurnsOk(turns)
      requires count < |data| <= count + MSS * (|turns| - k)
      modifies this, rx
      ensures Valid() && rxHead < RXBUF && rxLen <= RXBUF
      ensures Sending(Outcome(old(Value()), sent), data, count, turns[k..]) ==
              if failed then Sent(Outcome(Value(), sent + more), count, Min(|data| - count, MSS))
              else Sending(Outcome(Value(), sent + more), data, count + Min(|data| - count, MSS), turns[k + 1..])
    {
      failed, more := SendOne(data[count..], turns[k], sent);
      assert turns[k..][1..] == turns[k + 1..] && turns[k..][0] == turns[k];
      SendingStep(Outcome(old(Value()), sent), data, count, turns[k..], Wait(Outcome(Value(), sent + more), failed));
    }

    /** One chunk, emitted and waited for. */
    method SendOne(rest: seq<Byte>, t: Turn, ghost pre: seq<Segment>) returns (failed: bool, sent: seq<Segment>)
      requires Valid() && rxHead < RXBUF && rxLen <= RXBUF && Expires(t.polls, t.clock + SEND_WAIT)
      modifies this, rx
      ensures Valid() && rxHead < RXBUF && rxLen <= RXBUF
      ensures Wait(Outcome(Value(), pre + sent), failed) ==
              AckWaited(Emitted(Outcome(old(Value()), pre), Clip(rest), t.now), t.polls, t.clock + SEND_WAIT)
    {
      var s := EmitSegment(PSH_ACK, Clip(rest), t.now);
      ghost var o := Outcome(Value(), pre + [s]);
      assert o == Emitted(Outcome(old(Value()), pre), Clip(rest), t.now);
      var more;
      failed, more := AwaitAck(t.polls, t.clock + SEND_WAIT, pre + [s]);
      sent := [s] + more;
      assert pre + [s] + more == pre + sent;
    }

    /** The wait loop of net_tcp_recv. */
    method Await(polls: seq<Poll>, deadline: nat) returns (timedOut: bool, sent: seq<Segment>)
      requires Valid() && rxHead < RXBUF && rxLen <= RXBUF && Expires(polls, deadline)
      modifies this, rx
      ensures Valid() && rxHead < RXBUF && rxLen <= RXBUF
      ensures Wait(Outcome(Value(), sent), timedOut) == Waited(Outcome(old(Value()), []), polls, deadline)
    {
      sent := [];
      var i := 0;
      while rxLen == 0
        invariant Valid() && rxHead < RXBUF && rxLen <= RXBUF && i < |polls|
        invariant Waited(Outcome(Value(), sent), polls[i..], deadline) ==
                  Waited(Outcome(old(Value()), []), polls, deadline)
        decreases |polls| - i
      {
        if peerFin || state == Done {
          break;
        }
        PolledAfter(Value(), sent, polls[i]);
        var more := TakePoll(polls[i]);
        sent := sent + more;
        if polls[i].clock >= deadline {
          return true, sent;
        }
        assert polls[i..][1..] == polls[i + 1..];
        i := i + 1;
      }
      timedOut := false;
    }

    /** net_tcp_recv. */
    method Recv(cap: nat, polls: seq<Poll>, deadline: nat) returns (r: int, out: seq<Byte>, sent: seq<Segment>)
      requires Valid() && rxHead < RXBUF && rxLen <= RXBUF && Expires(polls, deadline)
      modifies this, rx
      ensures Valid() && rxHead < RXBUF && rxLen <= RXBUF
      ensures !old(inUse) ==> r == -1 && out == [] && sent == [] && Value() == old(Value())
      ensures old(inUse) ==>
                var w := Waited(Outcome(old(Value()), []), polls, deadline);
                && sent == w.end.sent
                && r == (if w.timedOut then -1 else RecvResult(w.end.conn, cap))
                && out == (if r > 0 then Taken(w.end.conn, cap) else [])
                && Value() == if r > 0 then AfterRecv(w.end.conn, cap) else w.end.conn
    {
      out, sent := [], [];
      if !inUse {
        return -1, out, sent;
      }
      WaitEnds(Outcome(Value(), []), polls, deadline);
      var timedOut;
      timedOut, sent := Await(polls, deadline);
      if timedOut {
        return -1, out, sent;
      }
      if rxLen == 0 {
        return 0, out, sent;
      }
      r := if rxLen < cap then rxLen else cap;
      out := CopyOut(cap);
    }

    /** The copy loop: the oldest bytes leave the ring in order. */
    method CopyOut(cap: nat) returns (out: seq<Byte>)
      requires Valid() && rxHead < RXBUF && rxLen <= RXBUF
      modifies this`rxHead, this`rxLen
      ensures rxHead < RXBUF && rxLen <= RXBUF
      ensures out == Taken(old(Value()), cap) && Value() == AfterRecv(old(Value()), cap)
    {
      var n := if rxLen < cap then rxLen else cap;
      ghost var q := Ring(rx[..], rxHead, rxLen);
      out := [];
      for i := 0 to n
        invariant out == q[..i]
      {
        assert q[i] == rx[(rxHead + i) % RXBUF];
        out := out + [rx[(rxHead + i) % RXBUF]];
      }
      RingDrop(rx[..], rxHead, rxLen, n);
      assert q == old(Value()).rx;
      rxHead := (rxHead + n) % RXBUF;
      rxLen := rxLen - n;
    }
  }

  lemma RingSnoc(buf: seq<Byte>, head: nat, len: nat, b: Byte)
    requires |buf| == RXBUF && len < RXBUF
    ensures Ring(buf[(head + len) % RXBUF := b], head, len + 1) == Ring(buf, head, len) + [b]
  {
    var after := buf[(head + len) % RXBUF := b];
    forall i | 0 <= i < len ensures Ring(after, head, len + 1)[i] == Ring(buf, head, len)[i] {
      assert (head + i) % RXBUF != (head + len) % RXBUF;
    }
  }

  lemma RingDrop(buf: seq<Byte>, head: nat, len: nat, n: nat)
    requires |buf| == RXBUF && n <= len
    ensures Ring(buf, (head + n) % RXBUF, len - n) == Ring(buf, head, len)[n..]
  {
    forall i | 0 <= i < len - n
      ensures Ring(buf, (head + n) % RXBUF, len - n)[i] == Ring(buf, head, len)[n..][i]
    {
      ModShift(head + n, i);
    }
  }

  lemma ModShift(a: nat, i: nat)
    ensures (a % RXBUF + i) % RXBUF == (a + i) % RXBUF
  {
  }

  /** The wrapped comparison is the true order of two stream offsets less than 2^31 apart. */
  lemma SeqLtIsOrder(iss: U32, a: nat, b: nat)
    requires a < TWO31 && b < TWO31
    ensures SeqLt(Add32(iss, a), Add32(iss, b)) <==> a < b
  {
  }

  lemma OffOfAdd(iss: U32, n: nat)
    requires n < TWO32
    ensures Off(Add32(iss, n), iss) == n
  {
  }

  lemma AddOff(s: U32, iss: U32)
    ensures Add32(iss, Off(s, iss)) == s
  {
  }

  /** An in-order data segment at an established connection with room: taken and acknowledged. */
  lemma ChunkArrives(c: Conn, s: Segment)
    requires c.state == Established && c.rx == [] && s.flags == PSH_ACK
    requires s.seqno == c.rcvNxt && 0 < |s.payload| <= RXBUF
    ensures var o := Input(c, s);
            && o.conn.rx == s.payload
            && |o.sent| == 1 && o.sent[0].flags == ACK && o.sent[0].payload == []
            && o.sent[0].ackno == Add32(c.rcvNxt, |s.payload|)
  {
    assert AfterData(AfterAck(c, s), s).conn.rx == s.payload;
  }

  /** The ACK that reaches the end of the outstanding segment clears it. */
  lemma AckReturns(c: Conn, s: Segment)
    requires c.state == Established && c.retx.Some? && s.flags == ACK && s.payload == []
    requires s.ackno == c.retxSeq
    ensures Input(c, s).conn.retx.None? && Input(c, s).conn.state == Established
  {
    assert !SeqLt(s.ackno, c.retxSeq);
  }
}
