/**
  The one-bit rings that the drivers share with their devices. A slot carries a
  bit that the producer flips on every lap; the consumer takes a slot when its
  bit is the one expected on the consumer's lap. No counters are exchanged.
 */
module OneBitRing {
  datatype Slot<T> = Slot(v: T, bit: bool)

  /** Slot `k` places after `head`. */
  function Pos(n: nat, head: nat, k: nat): int {
    if head + k < n then head + k else head + k - n
  }

  /** The bit that the consumer expects there. */
  predicate Expected(n: nat, head: nat, bit: bool, k: nat) {
    if head + k < n then bit else !bit
  }

  /** `k` places on there is entry `k` of the queue, or something left over from an earlier lap. */
  ghost predicate SlotOk<T>(slots: seq<Slot<T>>, head: nat, bit: bool, q: seq<T>, k: nat)
    requires head < |slots| && k < |slots|
  {
    var s := slots[Pos(|slots|, head, k)];
    if k < |q| then s == Slot(q[k], Expected(|slots|, head, bit, k)) else s.bit != Expected(|slots|, head, bit, k)
  }

  /** A consumer at `head` that expects `bit` has the queue `q` before it. */
  ghost predicate Holds<T>(slots: seq<Slot<T>>, head: nat, bit: bool, q: seq<T>) {
    && head < |slots| && |q| <= |slots|
    && forall k {:trigger SlotOk(slots, head, bit, q, k)} :: 0 <= k < |slots| ==> SlotOk(slots, head, bit, q, k)
  }

  /** The producer is as far ahead as the queue is long. */
  ghost predicate Behind<T>(slots: seq<Slot<T>>, head: nat, bit: bool, q: seq<T>, tail: nat, ahead: bool) {
    && Holds(slots, head, bit, q)
    && tail == Pos(|slots|, head, |q|) && (ahead <==> Expected(|slots|, head, bit, |q|))
  }

  /** The bit at the head says whether there is an entry, and then it is the oldest. */
  lemma HeadTells<T>(slots: seq<Slot<T>>, head: nat, bit: bool, q: seq<T>)
    requires Holds(slots, head, bit, q)
    ensures slots[head].bit == bit <==> q != []
    ensures q != [] ==> slots[head].v == q[0]
  {
    assert SlotOk(slots, head, bit, q, 0);
  }

  /** Taking the entry at the head. */
  lemma Consumed<T>(slots: seq<Slot<T>>, head: nat, bit: bool, q: seq<T>, tail: nat, ahead: bool)
    requires Behind(slots, head, bit, q, tail, ahead) && q != []
    ensures Behind(slots, Pos(|slots|, head, 1), Expected(|slots|, head, bit, 1), q[1..], tail, ahead)
  {
    var n := |slots|;
    var head', bit' := Pos(n, head, 1), Expected(n, head, bit, 1);
    forall k | 0 <= k < n ensures SlotOk(slots, head', bit', q[1..], k) {
      if k + 1 < n {
        assert SlotOk(slots, head, bit, q, k + 1);
      } else {
        assert SlotOk(slots, head, bit, q, 0);
      }
    }
  }

  /** Posting an entry at the tail. */
  lemma Produced<T>(slots: seq<Slot<T>>, head: nat, bit: bool, q: seq<T>, tail: nat, ahead: bool, v: T)
    requires Behind(slots, head, bit, q, tail, ahead) && |q| < |slots|
    ensures Behind(slots[tail := Slot(v, ahead)], head, bit, q + [v], Pos(|slots|, tail, 1),
            Expected(|slots|, tail, ahead, 1))
  {
    var slots' := slots[tail := Slot(v, ahead)];
    forall k | 0 <= k < |slots| ensures SlotOk(slots', head, bit, q + [v], k) {
      assert SlotOk(slots, head, bit, q, k);
    }
  }

  /** A zeroed ring, read by a consumer that expects ones, is empty. */
  lemma EmptyRing<T>(slots: seq<Slot<T>>)
    requires slots != [] && forall k :: 0 <= k < |slots| ==> !slots[k].bit
    ensures Behind(slots, 0, true, [], 0, true)
  {
    forall k | 0 <= k < |slots| ensures SlotOk(slots, 0, true, [], k) {
    }
  }
}

/** The TRB rings of src/xhci.c. */
module XhciRings {
  import opened OneBitRing

  const RING_TRBS: nat := 256
  /** Slots before the trailing LINK. */
  const DATA_TRBS: nat := 255

  /** A TRB without the cycle bit, which is the low bit of its control word. */
  datatype Trb = Trb(param: nat, status: nat, control: nat)

  /** What the driver keeps: the data slots, the LINK's cycle bit, and where it writes next. */
  datatype Ring = Ring(trb: seq<Slot<Trb>>, link: bool, enq: nat, cycle: bool)

  /** What the controller keeps: where it reads next, the LINK included, and the cycle bit it expects. */
  datatype Reader = Reader(deq: nat, cycle: bool)

  /** ring_push. */
  function Push(r: Ring, t: Trb): Ring
    requires r.enq < |r.trb| == DATA_TRBS
  {
    var trb := r.trb[r.enq := Slot(t, r.cycle)];
    if r.enq + 1 == RING_TRBS - 1 then Ring(trb, r.cycle, 0, !r.cycle) else Ring(trb, r.link, r.enq + 1, r.cycle)
  }

  /** The controller looks at its slot: a TRB, a jump over the LINK, or nothing new. */
  function Fetch(r: Ring, d: Reader): (Reader, seq<Trb>)
    requires |r.trb| == DATA_TRBS && d.deq <= DATA_TRBS
  {
    if d.deq == DATA_TRBS then (if r.link == d.cycle then (Reader(0, !d.cycle), []) else (d, []))
    else if r.trb[d.deq].bit == d.cycle then (Reader(d.deq + 1, d.cycle), [r.trb[d.deq].v])
    else (d, [])
  }

  /** Where the controller will read once it is past the LINK. */
  function Settled(d: Reader): Reader {
    if d.deq == DATA_TRBS then Reader(0, !d.cycle) else d
  }

  /** The TRBs pushed but not fetched are `q`; the LINK is armed exactly when the driver is a lap ahead. */
  ghost predicate Outstanding(r: Ring, d: Reader, q: seq<Trb>) {
    var e := Settled(d);
    && |r.trb| == DATA_TRBS && d.deq <= DATA_TRBS && r.enq < DATA_TRBS
    && Behind(r.trb, e.deq, e.cycle, q, r.enq, r.cycle)
    && (if d.deq == DATA_TRBS then r.link == d.cycle && |q| < DATA_TRBS
       else (r.link == d.cycle <==> d.deq + |q| >= DATA_TRBS))
  }

  /** A push keeps the ring in order unless it is the 255th outstanding TRB while the controller stands on the LINK. */
  lemma PushOk(r: Ring, d: Reader, q: seq<Trb>, t: Trb)
    requires Outstanding(r, d, q) && |q| < DATA_TRBS
    ensures Outstanding(Push(r, t), d, q + [t]) <==> !(d.deq == DATA_TRBS && |q| == DATA_TRBS - 1)
  {
    var e := Settled(d);
    Produced(r.trb, e.deq, e.cycle, q, r.enq, r.cycle, t);
  }

  /** That push arms the LINK for the next lap, and the controller, which waits for this one, is stuck. */
  lemma StuckOnLink(r: Ring, d: Reader, q: seq<Trb>, t: Trb)
    requires Outstanding(r, d, q) && d.deq == DATA_TRBS && |q| == DATA_TRBS - 1
    ensures Fetch(Push(r, t), d) == (d, [])
  {
    var e := Settled(d);
    assert r.enq == DATA_TRBS - 1;
  }

  /** What the controller fetches is the oldest TRB, and it finds one whenever there is one. */
  lemma FetchOk(r: Ring, d: Reader, q: seq<Trb>)
    requires Outstanding(r, d, q)
    ensures var (d', got) := Fetch(r, d);
            && got <= q && |got| <= 1 && Outstanding(r, d', q[|got|..])
            && (d.deq < DATA_TRBS ==> (got == [] <==> q == []))
            && (d.deq == DATA_TRBS ==> got == [] && d' == Settled(d))
  {
    var e := Settled(d);
    HeadTells(r.trb, e.deq, e.cycle, q);
    if d.deq < DATA_TRBS && q != [] {
      Consumed(r.trb, d.deq, d.cycle, q, r.enq, r.cycle);
    }
    assert q[0..] == q;
  }

  /** ring_init and ring_reset: an empty ring for a controller at its start. */
  lemma ResetOk(trb: seq<Slot<Trb>>)
    requires |trb| == DATA_TRBS && forall k :: 0 <= k < |trb| ==> !trb[k].bit
    ensures Outstanding(Ring(trb, false, 0, true), Reader(0, true), [])
  {
    EmptyRing(trb);
  }

  // ----- Runs -----

  datatype Step = Enqueue(t: Trb) | Look
  datatype State = State(ring: Ring, dev: Reader, pushed: seq<Trb>, fetched: seq<Trb>)

  ghost predicate Shape(s: State) {
    s.ring.enq < |s.ring.trb| == DATA_TRBS && s.dev.deq <= DATA_TRBS
  }

  /** What was fetched is what was pushed first, and the rest is still to come. */
  ghost predicate InOrder(s: State) {
    && Shape(s) && s.fetched <= s.pushed
    && Outstanding(s.ring, s.dev, s.pushed[|s.fetched|..])
  }

  /** One party acts. The driver pushes only while fewer than `cap` TRBs are outstanding. */
  ghost function Act(s: State, step: Step, cap: nat): (s': State)
    requires Shape(s)
    ensures Shape(s')
  {
    match step
    case Enqueue(t) =>
      if |s.pushed| - |s.fetched| < cap then s.(ring := Push(s.ring, t), pushed := s.pushed + [t]) else s
    case Look =>
      var (d, got) := Fetch(s.ring, s.dev);
      s.(dev := d, fetched := s.fetched + got)
  }

  ghost function Run(s: State, steps: seq<Step>, cap: nat): (s': State)
    requires Shape(s)
    ensures Shape(s')
    decreases |steps|
  {
    if steps == [] then s else Run(Act(s, steps[0], cap), steps[1..], cap)
  }

  lemma EnqueueOk(s: State, t: Trb, cap: nat)
    requires InOrder(s) && |s.pushed| - |s.fetched| < cap <= DATA_TRBS
    requires s.dev.deq == DATA_TRBS ==> |s.pushed| - |s.fetched| < DATA_TRBS - 1
    ensures InOrder(Act(s, Enqueue(t), cap))
  {
    var q := s.pushed[|s.fetched|..];
    PushOk(s.ring, s.dev, q, t);
    assert (s.pushed + [t])[|s.fetched|..] == q + [t];
  }

  lemma LookOk(s: State, cap: nat)
    requires InOrder(s)
    ensures InOrder(Act(s, Look, cap))
    ensures s.dev.deq < DATA_TRBS && s.fetched != s.pushed ==>
              |Act(s, Look, cap).fetched| == |s.fetched| + 1 && Act(s, Look, cap).dev.deq == s.dev.deq + 1
  {
    var q := s.pushed[|s.fetched|..];
    FetchOk(s.ring, s.dev, q);
    var (d, got) := Fetch(s.ring, s.dev);
    assert s.pushed == s.fetched + q;
    assert s.pushed[|s.fetched| + |got|..] == q[|got|..];
    assert s.fetched + got == s.pushed[..|s.fetched| + |got|];
  }

  /** With at most 254 outstanding, over any run and any number of laps, the controller sees what was pushed. */
  lemma {:induction false} FetchedInOrder(s: State, steps: seq<Step>, cap: nat)
    requires InOrder(s) && cap < DATA_TRBS
    ensures InOrder(Run(s, steps, cap))
    decreases |steps|
  {
    if steps != [] {
      match steps[0] {
        case Enqueue(t) =>
          if |s.pushed| - |s.fetched| < cap {
            EnqueueOk(s, t, cap);
          }
        case Look => LookOk(s, cap);
      }
      FetchedInOrder(Act(s, steps[0], cap), steps[1..], cap);
    }
  }

  /** The controller catches up: two looks fetch a TRB while there is one. */
  lemma CatchesUp(s: State, cap: nat)
    requires InOrder(s) && s.fetched != s.pushed
    ensures |s.fetched| < |Act(Act(s, Look, cap), Look, cap).fetched|
  {
    var q := s.pushed[|s.fetched|..];
    assert q != [];
    FetchOk(s.ring, s.dev, q);
    LookOk(s, cap);
    LookOk(Act(s, Look, cap), cap);
  }

  ghost function Pushes(n: nat): seq<Step> {
    seq(n, _ => Enqueue(Trb(0, 0, 0)))
  }

  ghost function Looks(n: nat): seq<Step> {
    seq(n, _ => Look)
  }

  lemma {:induction false} RunPushes(s: State, n: nat)
    requires InOrder(s) && |s.pushed| - |s.fetched| + n <= DATA_TRBS
    requires s.dev.deq == DATA_TRBS ==> |s.pushed| - |s.fetched| + n < DATA_TRBS
    ensures var s' := Run(s, Pushes(n), DATA_TRBS);
            InOrder(s') && |s'.pushed| == |s.pushed| + n && s'.fetched == s.fetched && s'.dev == s.dev
    decreases n
  {
    if n > 0 {
      assert Pushes(n)[1..] == Pushes(n - 1);
      EnqueueOk(s, Trb(0, 0, 0), DATA_TRBS);
      RunPushes(Act(s, Pushes(n)[0], DATA_TRBS), n - 1);
    }
  }

  lemma {:induction false} RunLooks(s: State, n: nat)
    requires InOrder(s) && |s.pushed| - |s.fetched| >= n && s.dev.deq + n <= DATA_TRBS
    ensures var s' := Run(s, Looks(n), DATA_TRBS);
            InOrder(s') && s'.pushed == s.pushed && |s'.fetched| == |s.fetched| + n && s'.dev.deq == s.dev.deq + n
    decreases n
  {
    if n > 0 {
      assert Looks(n)[1..] == Looks(n - 1);
      LookOk(s, DATA_TRBS);
      RunLooks(Act(s, Look, DATA_TRBS), n - 1);
    }
  }

  /** With `n` = 255 outstanding allowed, a run from a fresh ring ends with 255 TRBs that the controller never sees. */
  lemma StuckRun(s: State, n: nat)
    requires InOrder(s) && s.pushed == s.fetched == [] && s.dev == Reader(0, true) && n == DATA_TRBS
    ensures var s3 := Run(Run(Run(s, Pushes(n), n), Looks(n), n), Pushes(n - 1), n);
            var s4 := Act(s3, Enqueue(Trb(0, 0, 0)), n);
            |s4.pushed| == |s4.fetched| + n && Act(s4, Look, n) == s4
  {
    RunPushes(s, n);
    var s1 := Run(s, Pushes(n), n);
    RunLooks(s1, n);
    var s2 := Run(s1, Looks(n), n);
    RunPushes(s2, n - 1);
    var s3 := Run(s2, Pushes(n - 1), n);
    StuckOnLink(s3.ring, s3.dev, s3.pushed[|s3.fetched|..], Trb(0, 0, 0));
    assert s3.fetched + [] == s3.fetched;
  }

  /** The driver's side, in place. */
  class TrbRing {
    var trb: array<Slot<Trb>>
    var link: bool
    var enq: nat
    var cycle: bool

    ghost predicate Valid()
      reads this
    {
      trb.Length == DATA_TRBS && enq < DATA_TRBS
    }

    ghost function View(): Ring
      reads this, trb
    {
      Ring(trb[..], link, enq, cycle)
    }

    constructor ()
      ensures Valid() && fresh(trb) && Outstanding(View(), Reader(0, true), [])
    {
      trb := new Slot<Trb>[DATA_TRBS](_ => Slot(Trb(0, 0, 0), false));
      link, enq, cycle := false, 0, true;
      new;
      ResetOk(trb[..]);
    }

    method RingPush(t: Trb)
      requires Valid()
      modifies this`link, this`enq, this`cycle, trb
      ensures Valid() && View() == Push(old(View()), t)
    {
      trb[enq] := Slot(t, cycle);
      enq := enq + 1;
      if enq == RING_TRBS - 1 {
        link := cycle;
        enq := 0;
        cycle := !cycle;
      }
    }

    method RingReset()
      requires Valid()
      modifies this`link, this`enq, this`cycle, trb
      ensures Valid() && Outstanding(View(), Reader(0, true), [])
    {
      forall i | 0 <= i < trb.Length {
        trb[i] := Slot(Trb(0, 0, 0), false);
      }
      link, enq, cycle := false, 0, true;
      ResetOk(trb[..]);
    }
  }
}

/** The event ring of src/xhci.c, which the controller fills and next_event drains. */
module XhciEvents {
  import opened OneBitRing
  import opened XhciRings

  class EventRing {
    var trb: seq<Slot<Trb>>
    var deq: nat
    var cycle: bool
    /** The controller's side. */
    var tail: nat
    var ahead: bool
    /** Events posted and not consumed yet. */
    ghost var pending: seq<Trb>

    ghost predicate Valid()
      reads this
    {
      |trb| == RING_TRBS && Behind(trb, deq, cycle, pending, tail, ahead)
    }

    constructor ()
      ensures Valid() && pending == []
    {
      trb := seq(RING_TRBS, _ => Slot(Trb(0, 0, 0), false));
      deq, cycle, tail, ahead, pending := 0, true, 0, true, [];
      EmptyRing(seq(RING_TRBS, _ => Slot(Trb(0, 0, 0), false)));
    }

    /** The controller posts an event; it never overruns what the driver has acknowledged. */
    method Post(t: Trb)
      requires Valid() && |pending| < RING_TRBS
      modifies this
      ensures Valid() && pending == old(pending) + [t] && deq == old(deq) && cycle == old(cycle)
    {
      Produced(trb, deq, cycle, pending, tail, ahead, t);
      trb := trb[tail := Slot(t, ahead)];
      tail := tail + 1;
      if tail == RING_TRBS {
        tail, ahead := 0, !ahead;
      }
      pending := pending + [t];
    }

    method PostAll(ts: seq<Trb>)
      requires Valid() && |pending| + |ts| <= RING_TRBS
      modifies this
      ensures Valid() && pending == old(pending) + ts && deq == old(deq) && cycle == old(cycle)
    {
      for i := 0 to |ts|
        invariant Valid() && pending == old(pending) + ts[..i] && deq == old(deq) && cycle == old(cycle)
      {
        Post(ts[i]);
        assert ts[..i + 1] == ts[..i] + [ts[i]];
      }
      assert ts[..|ts|] == ts;
    }

    /** The event at the dequeue pointer is consumed. */
    method Take() returns (t: Trb)
      requires Valid() && pending != []
      modifies `deq, `cycle, `pending
      ensures Valid() && [t] + pending == old(pending)
    {
      HeadTells(trb, deq, cycle, pending);
      Consumed(trb, deq, cycle, pending, tail, ahead);
      t := trb[deq].v;
      deq := deq + 1;
      if deq == RING_TRBS {
        deq, cycle := 0, !cycle;
      }
      pending := pending[1..];
    }

    /**
      next_event. Between two looks at the ring the controller may post any events; `arrivals` lists them,
      up to the deadline. The event returned is the oldest one, and each is consumed once.
     */
    method NextEvent(arrivals: seq<seq<Trb>>) returns (got: bool, t: Trb, looks: nat)
      requires Valid() && forall a :: a in arrivals ==> |a| <= RING_TRBS
      modifies this
      ensures Valid() && looks <= |arrivals|
      ensures got ==> [t] + pending == old(pending) + Concat(arrivals[..looks])
      ensures got && looks > 0 ==> old(pending) + Concat(arrivals[..looks - 1]) == []
      ensures !got ==> pending == old(pending) + Concat(arrivals) == []
    {
      t, looks := Trb(0, 0, 0), 0;
      assert arrivals[..0] == [];
      while true
        invariant Valid() && looks <= |arrivals| && pending == old(pending) + Concat(arrivals[..looks])
        invariant looks > 0 ==> old(pending) + Concat(arrivals[..looks - 1]) == []
        decreases |arrivals| - looks
      {
        HeadTells(trb, deq, cycle, pending);
        if trb[deq].bit == cycle {
          t := Take();
          return true, t, looks;
        }
        if looks == |arrivals| {
          assert arrivals[..looks] == arrivals;
          return false, t, looks;
        }
        PostAll(arrivals[looks]);
        ConcatMore(arrivals, looks);
        looks := looks + 1;
      }
    }
  }

  function Concat(ss: seq<seq<Trb>>): seq<Trb> {
    if ss == [] then [] else Concat(ss[..|ss| - 1]) + ss[|ss| - 1]
  }

  lemma ConcatMore(ss: seq<seq<Trb>>, k: nat)
    requires k < |ss|
    ensures Concat(ss[..k + 1]) == Concat(ss[..k]) + ss[k]
  {
    assert ss[..k + 1][..k] == ss[..k];
  }
}

/** The submission and completion queues of src/nvme.c, one command in flight at a time. */
module NvmeQueues {
  import opened OneBitRing

  datatype Command = Command(cid: nat, body: nat)

  /**
    What wakes a sleeping waiter: the interrupts before the controller posts, of the controller or not, and the number
    of other interrupts before the one that reports the completion.
   */
  datatype Wakes = Wakes(early: seq<bool>, others: nat)

  datatype Mode = Polled(polls: nat) | ByIrq(wakes: Wakes)

  /** `(i + 1) % depth` for an index. */
  function Advance(i: nat, depth: nat): (j: nat)
    requires i < depth
    ensures j == Pos(depth, i, 1) && j < depth
  {
    assert i + 1 < depth ==> (i + 1) % depth == i + 1;
    (i + 1) % depth
  }

  class QueuePair {
    const depth: nat
    var sq: seq<Command>
    /** Completions: the status without its phase bit, and the phase bit. */
    var cq: seq<Slot<nat>>
    var sqTail: nat
    var cqHead: nat
    var cid: nat
    var phase: bool
    // What the interrupt handler reports.
    var done: bool
    var status: int
    var completions: nat
    // The controller's side.
    var sqHead: nat
    var cqTail: nat
    var ahead: bool
    ghost var pending: seq<nat>

    ghost predicate Valid()
      reads this
    {
      && |sq| == |cq| == depth && sqTail < depth && sqHead < depth && cid < 0x1_0000
      && Behind(cq, cqHead, phase, pending, cqTail, ahead)
    }

    /** Nothing in flight. */
    ghost predicate Idle()
      reads this
    {
      Valid() && pending == [] && sqHead == sqTail
    }

    constructor (depth: nat)
      requires depth > 0
      ensures Idle() && this.depth == depth && completions == 0
    {
      this.depth := depth;
      sq := seq(depth, _ => Command(0, 0));
      cq := seq(depth, _ => Slot(0, false));
      sqTail, cqHead, cid, phase, done, status, completions := 0, 0, 0, true, false, 0, 0;
      sqHead, cqTail, ahead, pending := 0, 0, true, [];
      EmptyRing(seq(depth, _ => Slot(0, false)));
    }

    /** The first half of submit: the command is numbered, queued and the doorbell rung. */
    method Enqueue(body: nat) returns (ghost cmd: Command)
      requires Idle()
      modifies this`sq, this`sqTail, this`cid
      ensures Valid() && cmd == Command(old(cid), body) && sq == old(sq)[sqHead := cmd]
      ensures sqTail == Advance(sqHead, depth)
      ensures cid == (old(cid) + 1) % 0x1_0000
    {
      cmd := Command(cid, body);
      sq := sq[sqTail := Command(cid, body)];
      cid := (cid + 1) % 0x1_0000;
      sqTail := Advance(sqTail, depth);
    }

    /** The controller takes the command at its head and posts what `exec` says of it. */
    method Execute(exec: Command -> nat)
      requires Valid() && |pending| < depth
      modifies this`cq, this`sqHead, this`cqTail, this`ahead, this`pending
      ensures Valid() && pending == old(pending) + [exec(old(sq[sqHead]))] && sqHead == Advance(old(sqHead), depth)
    {
      var v := exec(sq[sqHead]);
      Produced(cq, cqHead, phase, pending, cqTail, ahead, v);
      sqHead := Advance(sqHead, depth);
      cq := cq[cqTail := Slot(v, ahead)];
      cqTail := Advance(cqTail, depth);
      if cqTail == 0 {
        ahead := !ahead;
      }
      pending := pending + [v];
    }

    /** The tail of submit and the body of nvme_irq's loop: one completion is taken. */
    method TakeCompletion() returns (v: nat)
      requires Valid() && cq[cqHead].bit == phase
      modifies this`cqHead, this`phase, this`pending
      ensures Valid() && old(pending) == [v] + pending
    {
      HeadTells(cq, cqHead, phase, pending);
      Consumed(cq, cqHead, phase, pending, cqTail, ahead);
      v := cq[cqHead].v;
      cqHead := Advance(cqHead, depth);
      if cqHead == 0 {
        phase := !phase;
      }
      pending := pending[1..];
    }

    /** submit, polled. For however long the controller takes, no stale entry is taken for the completion. */
    method Submit(body: nat, polls: nat, exec: Command -> nat) returns (r: nat)
      requires Idle()
      modifies this
      ensures Idle() && r == exec(Command(old(cid), body)) % 0x400 && completions == old(completions)
      ensures cid == (old(cid) + 1) % 0x1_0000
    {
      ghost var cmd := Enqueue(body);
      var n := 0;
      HeadTells(cq, cqHead, phase, pending);
      while cq[cqHead].bit != phase
        invariant Valid() && n <= polls + 1 && completions == old(completions) && cid == (old(cid) + 1) % 0x1_0000
        invariant if n <= polls then pending == [] && sq[sqHead] == cmd && sqTail == Advance(sqHead, depth)
                  else pending == [exec(cmd)] && sqHead == sqTail
        decreases polls + 1 - n
      {
        if n == polls {
          Execute(exec);
        }
        n := n + 1;
        HeadTells(cq, cqHead, phase, pending);
      }
      HeadTells(cq, cqHead, phase, pending);
      var v := TakeCompletion();
      r := v % 0x400;
    }

    /** nvme_irq: every pending completion is taken once. */
    method Irq()
      requires Valid()
      modifies this`cqHead, this`phase, this`pending, this`done, this`status, this`completions
      ensures Valid() && pending == [] && completions == old(completions) + |old(pending)|
      ensures done == (old(done) || old(pending) != [])
      ensures status == if old(pending) == [] then old(status) else old(pending)[|old(pending)| - 1] % 0x400
    {
      ghost var was := pending;
      HeadTells(cq, cqHead, phase, pending);
      while cq[cqHead].bit == phase
        invariant Valid() && |pending| <= |was| && pending == was[|was| - |pending|..]
        invariant completions == old(completions) + |was| - |pending| && done == (old(done) || |pending| < |was|)
        invariant status == if |pending| == |was| then old(status) else was[|was| - |pending| - 1] % 0x400
        invariant cq[cqHead].bit == phase <==> pending != []
        decreases |pending|
      {
        var v := TakeCompletion();
        status := v % 0x400;
        completions := completions + 1;
        done := true;
        HeadTells(cq, cqHead, phase, pending);
      }
    }

    /** The command is queued and the controller has not seen it. */
    ghost predicate Waiting(cmd: Command)
      reads this
    {
      Valid() && pending == [] && sq[sqHead] == cmd && sqTail == Advance(sqHead, depth)
    }

    /** The controller has posted `v`, which nobody has taken. */
    ghost predicate Posted(v: nat)
      reads this
    {
      Valid() && pending == [v] && sqHead == sqTail
    }

    /**
      submit_io_irq: the waiter sleeps until the handler reports. Any number of interrupts, of the controller or of
      others, may wake it before the controller posts, and any number of others between that and the handler.
     */
    method SubmitIrq(body: nat, w: Wakes, exec: Command -> nat) returns (r: int)
      requires Idle()
      modifies this
      ensures Idle() && r == exec(Command(old(cid), body)) % 0x400 && completions == old(completions) + 1
      ensures cid == (old(cid) + 1) % 0x1_0000
    {
      ghost var cmd := Enqueue(body);
      done := false;
      status := -1;
      var n := 0;
      while !done
        invariant n <= |w.early| + w.others + 1 && cid == (old(cid) + 1) % 0x1_0000
        invariant n <= |w.early| ==> Waiting(cmd)
        invariant |w.early| < n <= |w.early| + w.others ==> Posted(exec(cmd))
        invariant n <= |w.early| + w.others ==> !done && completions == old(completions)
        invariant n > |w.early| + w.others ==>
                    Idle() && done && status == exec(cmd) % 0x400 && completions == old(completions) + 1
        decreases |w.early| + w.others + 1 - n
      {
        if n == |w.early| {
          Execute(exec);
        }
        if n < |w.early| {
          if w.early[n] {
            Irq();
          }
        } else if n == |w.early| + w.others {
          Irq();
        }
        n := n + 1;
      }
      r := status;
    }

    /** Any run of commands, polled or by interrupt: each gets its own status, over any number of laps. */
    method RunAll(bodies: seq<nat>, modes: seq<Mode>, exec: Command -> nat) returns (rs: seq<int>)
      requires Idle() && |bodies| == |modes|
      modifies this
      ensures Idle() && |rs| == |bodies|
      ensures forall i :: 0 <= i < |rs| ==> rs[i] == exec(Command((old(cid) + i) % 0x1_0000, bodies[i])) % 0x400
    {
      rs := [];
      for i := 0 to |bodies|
        invariant Idle() && |rs| == i && cid == (old(cid) + i) % 0x1_0000
        invariant forall j :: 0 <= j < i ==> rs[j] == exec(Command((old(cid) + j) % 0x1_0000, bodies[j])) % 0x400
      {
        var r: int;
        match modes[i] {
          case Polled(polls) => r := Submit(bodies[i], polls, exec);
          case ByIrq(wakes) => r := SubmitIrq(bodies[i], wakes, exec);
        }
        rs := rs + [r];
      }
    }
  }
}
