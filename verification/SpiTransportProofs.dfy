/** What every run of the SPI transport keeps: conservation, priority order and flow control. */
module SpiTransportProofs {
  import opened Basics
  import opened SpiTransport
  import F = Framing
  import P = FramingProofs

  /**
   What the driver does not record: per class what it let in, took out and handed up, and what should have been handed
   up (`rxAccepted`: the frame of every good buffer transferred on an open data path); every outgoing skb that came into
   its hands (written, or allocated blank for a transfer), and the ids of all receive buffers it allocated.
   */
  datatype Log = Log(
    accepted: seq<seq<TxSkb>>,
    sent: seq<seq<TxSkb>>,
    offered: multiset<TxSkb>,
    rxAccepted: seq<seq<RxSkb>>,
    delivered: seq<seq<RxSkb>>,
    received: multiset<nat>)

  datatype World = World(s: Spi, log: Log)

  datatype Event =
    | DoWrite(skb: TxSkb)
    | DoWork(transReady: bool, rxPending: bool, xferOk: bool, rx: RxSkb, blank: TxSkb)
    | DoRead
    | DoOpen

  predicate Shaped(w: World) {
    && w.s.Valid()
    && |w.log.accepted| == |w.log.sent| == |w.log.rxAccepted| == |w.log.delivered| == MAX_PRIORITY_QUEUES
  }

  predicate Enabled(e: Event) {
    e.DoWork? ==> |e.rx.data| == F.SPI_BUF_SIZE
  }

  // ---- What is expected of a receive buffer, byte by byte ----

  /** Interface 3 is urgent, interface 2 comes next, all others last. */
  function ClassOf(ifType: nat): (p: nat)
    ensures p < 3
  {
    if ifType == 3 then 0 else if ifType == 2 then 1 else 2
  }

  /** Header padding and payload as the header's two 16-bit little-endian fields give them. */
  function FrameLength(data: seq<byte>): nat
    requires |data| >= 12
  {
    data[6] as nat + 256 * data[7] as nat + data[4] as nat + 256 * data[5] as nat
  }

  predicate HoldsFrame(data: seq<byte>) {
    && |data| == 1600 && data[0] as nat % 16 < 5
    && data[4] as nat + 256 * data[5] as nat > 0 && 12 <= data[6] as nat + 256 * data[7] as nat <= 16
    && FrameLength(data) <= 1600
  }

  /** The skb handed up for a buffer: its id and the frame without what follows it. */
  function FrameOf(rx: RxSkb): RxSkb
    requires HoldsFrame(rx.data)
  {
    RxSkb(rx.id, rx.data[..FrameLength(rx.data)])
  }

  lemma AcceptedIsFrame(s: Spi, rx: RxSkb)
    requires |rx.data| == F.SPI_BUF_SIZE
    ensures Accepted(s, rx) == if s.dataPath && HoldsFrame(rx.data) then Some(FrameOf(rx)) else None
    ensures Lane(F.IfTypeOf(rx.data)) == ClassOf(rx.data[0] as nat % 16)
  {
  }

  function StepState(s: Spi, e: Event): (r: Spi)
    requires s.Valid() && Enabled(e)
    ensures r.Valid()
  {
    match e
    case DoWrite(skb) => Write(s, skb)
    case DoWork(transReady, rxPending, xferOk, rx, blank) => Work(s, transReady, rxPending, xferOk, rx, blank)
    case DoRead => Read(s)
    case DoOpen => Open(s)
  }

  function TxLog(s: Spi, log: Log, transReady: bool, blank: TxSkb): Log
    requires Shaped(World(s, log))
  {
    if Takes(s, transReady) then
      var p := FirstLane(s.txQ).value;
      log.(sent := log.sent[p := log.sent[p] + [s.txQ[p][0]]])
    else log.(offered := log.offered + multiset{blank})
  }

  function RxLog(s: Spi, log: Log, xferOk: bool, rx: RxSkb): Log
    requires Shaped(World(s, log)) && |rx.data| == F.SPI_BUF_SIZE
  {
    var received := log.received + multiset{rx.id};
    if xferOk && s.dataPath && HoldsFrame(rx.data) then
      var p := ClassOf(rx.data[0] as nat % 16);
      log.(received := received, rxAccepted := log.rxAccepted[p := log.rxAccepted[p] + [FrameOf(rx)]])
    else log.(received := received)
  }

  /** The log follows what callers and the bus bring in and what leaves the queues; frees are the driver's own. */
  function StepLog(s: Spi, log: Log, e: Event): Log
    requires Shaped(World(s, log)) && Enabled(e)
  {
    match e
    case DoWrite(skb) =>
      var p := ClassOf(skb.ifType);
      log.(offered := log.offered + multiset{skb},
           accepted := if Verdict(s, skb) == Ok then log.accepted[p := log.accepted[p] + [skb]] else log.accepted)
    case DoWork(transReady, rxPending, xferOk, rx, blank) =>
      if !Transfers(s, transReady, rxPending) then log
      else RxLog(s, TxLog(s, log, transReady, blank), xferOk, rx)
    case DoRead =>
      var p := FirstLane(s.rxQ);
      if s.dataPath && p.Some?
      then log.(delivered := log.delivered[p.value := log.delivered[p.value] + [s.rxQ[p.value][0]]]) else log
    case DoOpen => log
  }

  function Step(w: World, e: Event): (w': World)
    requires Shaped(w) && Enabled(e)
    ensures Shaped(w')
  {
    World(StepState(w.s, e), StepLog(w.s, w.log, e))
  }

  function Run(w: World, es: seq<Event>): (w': World)
    requires Shaped(w) && forall i :: 0 <= i < |es| ==> Enabled(es[i])
    ensures Shaped(w')
    decreases |es|
  {
    if es == [] then w else Run(Step(w, es[0]), es[1..])
  }

  function Init(): World {
    World(Spi([[], [], []], [[], [], []], 0, false, {}, multiset{}, multiset{}),
          Log([[], [], []], [[], [], []], multiset{}, [[], [], []], [[], [], []], multiset{}))
  }

  // ---- Conservation ----

  /** Per class, what was let in is what went out followed by what is queued. */
  ghost predicate Lanes<T(!new)>(accepted: seq<seq<T>>, out: seq<seq<T>>, q: seq<seq<T>>) {
    && |accepted| == |out| == |q| == MAX_PRIORITY_QUEUES
    && forall p :: 0 <= p < MAX_PRIORITY_QUEUES ==> accepted[p] == out[p] + q[p]
  }

  lemma LanesPush<T(!new)>(accepted: seq<seq<T>>, out: seq<seq<T>>, q: seq<seq<T>>, p: nat, x: T)
    requires Lanes(accepted, out, q) && p < MAX_PRIORITY_QUEUES
    ensures Lanes(accepted[p := accepted[p] + [x]], out, q[p := q[p] + [x]])
  {
    assert accepted[p] + [x] == out[p] + (q[p] + [x]);
  }

  lemma LanesPop<T(!new)>(accepted: seq<seq<T>>, out: seq<seq<T>>, q: seq<seq<T>>, p: nat)
    requires Lanes(accepted, out, q) && p < MAX_PRIORITY_QUEUES && q[p] != []
    ensures Lanes(accepted, out[p := out[p] + [q[p][0]]], q[p := q[p][1..]])
  {
    assert accepted[p] == (out[p] + [q[p][0]]) + q[p][1..];
  }

  function Queued(q: seq<seq<TxSkb>>): multiset<TxSkb>
    requires |q| == MAX_PRIORITY_QUEUES
  {
    multiset(q[0]) + multiset(q[1]) + multiset(q[2])
  }

  function IdsOf(q: seq<RxSkb>): multiset<nat> {
    if q == [] then multiset{} else IdsOf(q[..|q| - 1]) + multiset{q[|q| - 1].id}
  }

  function Ids(q: seq<seq<RxSkb>>): multiset<nat>
    requires |q| == MAX_PRIORITY_QUEUES
  {
    IdsOf(q[0]) + IdsOf(q[1]) + IdsOf(q[2])
  }

  ghost predicate TxOk(s: Spi, log: Log)
    requires Shaped(World(s, log))
  {
    log.offered == s.freed + Queued(s.txQ) && Lanes(log.accepted, log.sent, s.txQ)
  }

  ghost predicate RxOk(s: Spi, log: Log)
    requires Shaped(World(s, log))
  {
    log.received == s.rxFreed + Ids(log.rxAccepted) && Lanes(log.rxAccepted, log.delivered, s.rxQ)
  }

  /**
   Every outgoing skb is queued or was freed by the driver, once; every receive buffer was freed by the driver or let
   in, once, and those let in were handed up or are queued, in order.
   */
  ghost predicate Conserved(w: World)
    requires Shaped(w)
  {
    TxOk(w.s, w.log) && RxOk(w.s, w.log)
  }

  lemma PushQueued(q: seq<seq<TxSkb>>, p: nat, skb: TxSkb)
    requires |q| == MAX_PRIORITY_QUEUES && p < |q|
    ensures Queued(q[p := q[p] + [skb]]) == Queued(q) + multiset{skb}
  {
  }

  lemma PopQueued(q: seq<seq<TxSkb>>, p: nat)
    requires |q| == MAX_PRIORITY_QUEUES && p < |q| && q[p] != []
    ensures Queued(q) == Queued(q[p := q[p][1..]]) + multiset{q[p][0]}
  {
    assert q[p] == [q[p][0]] + q[p][1..];
  }

  lemma IdsPush(q: seq<RxSkb>, x: RxSkb)
    ensures IdsOf(q + [x]) == IdsOf(q) + multiset{x.id}
  {
    assert (q + [x])[..|q|] == q;
  }

  lemma Regroup(a: multiset<nat>, b: multiset<nat>, c: multiset<nat>, d: multiset<nat>)
    ensures (a + d) + b + c == a + b + c + d && a + (b + d) + c == a + b + c + d
  {
  }

  lemma PushIds(q: seq<seq<RxSkb>>, p: nat, x: RxSkb)
    requires |q| == MAX_PRIORITY_QUEUES && p < |q|
    ensures Ids(q[p := q[p] + [x]]) == Ids(q) + multiset{x.id}
  {
    IdsPush(q[p], x);
    var q' := q[p := q[p] + [x]];
    var d := multiset{x.id};
    assert IdsOf(q'[0]) == if p == 0 then IdsOf(q[0]) + d else IdsOf(q[0]);
    assert IdsOf(q'[1]) == if p == 1 then IdsOf(q[1]) + d else IdsOf(q[1]);
    assert IdsOf(q'[2]) == if p == 2 then IdsOf(q[2]) + d else IdsOf(q[2]);
    Regroup(IdsOf(q[0]), IdsOf(q[1]), IdsOf(q[2]), d);
  }

  lemma WriteConserves(w: World, skb: TxSkb)
    requires Shaped(w) && Conserved(w)
    ensures var w' := Step(w, DoWrite(skb)); Conserved(w')
  {
    if Verdict(w.s, skb) == Ok {
      PushQueued(w.s.txQ, Lane(skb.ifType), skb);
      LanesPush(w.log.accepted, w.log.sent, w.s.txQ, Lane(skb.ifType), skb);
    }
  }

  lemma TransferKeepsRx(s: Spi, log: Log, tx: TxSkb, xferOk: bool, rx: RxSkb)
    requires Shaped(World(s, log)) && |rx.data| == F.SPI_BUF_SIZE && RxOk(s, log)
    ensures var s' := Transfer(s, tx, xferOk, rx);
            Shaped(World(s', RxLog(s, log, xferOk, rx))) && RxOk(s', RxLog(s, log, xferOk, rx))
  {
    AcceptedIsFrame(s, rx);
    if xferOk && s.dataPath && HoldsFrame(rx.data) {
      var p := ClassOf(rx.data[0] as nat % 16);
      PushIds(log.rxAccepted, p, FrameOf(rx));
      LanesPush(log.rxAccepted, log.delivered, s.rxQ, p, FrameOf(rx));
    }
  }

  lemma TakeKeepsTx(s: Spi, log: Log)
    requires Shaped(World(s, log)) && TxOk(s, log) && FirstLane(s.txQ).Some?
    ensures var p := FirstLane(s.txQ).value;
            && Take(s).Valid() && log.offered == s.freed + multiset{s.txQ[p][0]} + Queued(Take(s).txQ)
            && Lanes(log.accepted, log.sent[p := log.sent[p] + [s.txQ[p][0]]], Take(s).txQ)
  {
    var p := FirstLane(s.txQ).value;
    PopQueued(s.txQ, p);
    LanesPop(log.accepted, log.sent, s.txQ, p);
  }

  /** A transfer frees the skb it sent and leaves the transmit side alone otherwise. */
  lemma TransferFrees(s: Spi, tx: TxSkb, xferOk: bool, rx: RxSkb)
    requires s.Valid() && |rx.data| == F.SPI_BUF_SIZE
    ensures var s' := Transfer(s, tx, xferOk, rx); s'.freed == s.freed + multiset{tx} && s'.txQ == s.txQ
  {
  }

  /** What one work item does to the transmit side of the log. */
  lemma WorkLogsTx(w: World, e: Event)
    requires Shaped(w) && e.DoWork? && Enabled(e) && Transfers(w.s, e.transReady, e.rxPending)
    ensures var log1 := TxLog(w.s, w.log, e.transReady, e.blank);
            var log' := Step(w, e).log;
            log'.offered == log1.offered && log'.accepted == log1.accepted && log'.sent == log1.sent
  {
  }

  lemma WorkKeepsTx(w: World, e: Event)
    requires Shaped(w) && e.DoWork? && Enabled(e) && TxOk(w.s, w.log)
    ensures TxOk(Step(w, e).s, Step(w, e).log)
  {
    if Transfers(w.s, e.transReady, e.rxPending) {
      WorkLogsTx(w, e);
      if Takes(w.s, e.transReady) {
        TakeKeepsTx(w.s, w.log);
        TransferFrees(Take(w.s), w.s.txQ[FirstLane(w.s.txQ).value][0], e.xferOk, e.rx);
      } else {
        TransferFrees(w.s, e.blank, e.xferOk, e.rx);
      }
    }
  }

  /** The dequeue touches nothing of the receive side. */
  lemma TakeKeepsRx(s: Spi, log: Log, blank: TxSkb, xferOk: bool, rx: RxSkb)
    requires Shaped(World(s, log)) && Takes(s, true) && |rx.data| == F.SPI_BUF_SIZE && RxOk(s, log)
    ensures var log1 := TxLog(s, log, true, blank);
            RxOk(Take(s), log1) && RxLog(Take(s), log1, xferOk, rx) == RxLog(s, log1, xferOk, rx)
  {
  }

  lemma WorkKeepsRx(w: World, e: Event)
    requires Shaped(w) && e.DoWork? && Enabled(e) && RxOk(w.s, w.log)
    ensures RxOk(Step(w, e).s, Step(w, e).log)
  {
    if Transfers(w.s, e.transReady, e.rxPending) {
      var log1 := TxLog(w.s, w.log, true, e.blank);
      if Takes(w.s, true) {
        TakeKeepsRx(w.s, w.log, e.blank, e.xferOk, e.rx);
        TransferKeepsRx(Take(w.s), log1, w.s.txQ[FirstLane(w.s.txQ).value][0], e.xferOk, e.rx);
      } else {
        TransferKeepsRx(w.s, log1, e.blank, e.xferOk, e.rx);
      }
    }
  }

  lemma ReadConserves(w: World)
    requires Shaped(w) && Conserved(w)
    ensures var w' := Step(w, DoRead); Conserved(w')
  {
    var lane := FirstLane(w.s.rxQ);
    if w.s.dataPath && lane.Some? {
      LanesPop(w.log.rxAccepted, w.log.delivered, w.s.rxQ, lane.value);
    }
  }

  lemma StepConserves(w: World, e: Event)
    requires Shaped(w) && Enabled(e) && Conserved(w)
    ensures Conserved(Step(w, e))
  {
    match e
    case DoWrite(skb) => WriteConserves(w, skb);
    case DoWork(_, _, _, _, _) =>
      WorkKeepsTx(w, e);
      WorkKeepsRx(w, e);
    case DoRead => ReadConserves(w);
    case DoOpen =>
  }

  /** On every run nothing is lost or duplicated, and each class is first in, first out. */
  lemma {:induction false} Conservation(w: World, es: seq<Event>)
    requires Shaped(w) && Conserved(w) && forall i :: 0 <= i < |es| ==> Enabled(es[i])
    ensures var w' := Run(w, es); Conserved(w')
    decreases |es|
  {
    if es != [] {
      StepConserves(w, es[0]);
      Conservation(Step(w, es[0]), es[1..]);
    }
  }

  lemma InitConserves()
    ensures Shaped(Init()) && Conserved(Init())
  {
    var w := Init();
    forall p | 0 <= p < MAX_PRIORITY_QUEUES
      ensures w.log.accepted[p] == w.log.sent[p] + w.s.txQ[p] && w.log.rxAccepted[p] == w.log.delivered[p] + w.s.rxQ[p]
    {
      assert w.log.accepted[p] == [] && w.log.sent[p] == [] && w.s.txQ[p] == [];
      assert w.log.rxAccepted[p] == [] && w.log.delivered[p] == [] && w.s.rxQ[p] == [];
    }
    assert Queued(w.s.txQ) == multiset{};
  }

  /** The buffers that transfers clocked in. */
  function Arrived(es: seq<Event>): set<RxSkb> {
    if es == [] then {}
    else Arrived(es[1..]) + (if es[0].DoWork? && es[0].xferOk then {es[0].rx} else {})
  }

  /** `x` is the frame at the start of one of the buffers, and of class `p`. */
  ghost predicate FrameFrom(x: RxSkb, p: nat, buffers: set<RxSkb>) {
    exists rx :: rx in buffers && HoldsFrame(rx.data) && x == FrameOf(rx) && p == ClassOf(rx.data[0] as nat % 16)
  }

  lemma FrameIsWhole(rx: RxSkb)
    requires HoldsFrame(rx.data)
    ensures F.WholeFrame(FrameOf(rx).data)
  {
  }

  lemma FrameFromIsWhole(x: RxSkb, p: nat, buffers: set<RxSkb>)
    requires FrameFrom(x, p, buffers)
    ensures F.WholeFrame(x.data)
  {
    var rx :| rx in buffers && HoldsFrame(rx.data) && x == FrameOf(rx);
    FrameIsWhole(rx);
  }

  ghost predicate AllFrames(w: World, buffers: set<RxSkb>)
    requires Shaped(w)
  {
    forall p, x :: 0 <= p < 3 && x in w.log.rxAccepted[p] ==> FrameFrom(x, p, buffers)
  }

  lemma StepFrames(w: World, e: Event, buffers: set<RxSkb>)
    requires Shaped(w) && Enabled(e) && AllFrames(w, buffers)
    ensures AllFrames(Step(w, e), buffers + (if e.DoWork? && e.xferOk then {e.rx} else {}))
  {
    var more := buffers + (if e.DoWork? && e.xferOk then {e.rx} else {});
    var w' := Step(w, e);
    forall p, x | 0 <= p < 3 && x in w'.log.rxAccepted[p] ensures FrameFrom(x, p, more) {
      if x in w.log.rxAccepted[p] {
        var rx :| rx in buffers && HoldsFrame(rx.data) && x == FrameOf(rx) && p == ClassOf(rx.data[0] as nat % 16);
        assert rx in more;
      } else {
        assert e.rx in more && x == FrameOf(e.rx);
      }
    }
  }

  lemma {:induction false} RunFrames(w: World, es: seq<Event>, buffers: set<RxSkb>)
    requires Shaped(w) && (forall i :: 0 <= i < |es| ==> Enabled(es[i])) && AllFrames(w, buffers)
    ensures AllFrames(Run(w, es), buffers + Arrived(es))
    decreases |es|
  {
    if es == [] {
      assert buffers + Arrived(es) == buffers;
    } else {
      var now := if es[0].DoWork? && es[0].xferOk then {es[0].rx} else {};
      StepFrames(w, es[0], buffers);
      RunFrames(Step(w, es[0]), es[1..], buffers + now);
      assert buffers + now + Arrived(es[1..]) == buffers + Arrived(es);
    }
  }

  lemma HeldWasLetIn(w: World, p: nat, x: RxSkb)
    requires Shaped(w) && Conserved(w) && p < 3 && (x in w.s.rxQ[p] || x in w.log.delivered[p])
    ensures x in w.log.rxAccepted[p]
  {
    assert w.log.rxAccepted[p] == w.log.delivered[p] + w.s.rxQ[p];
  }

  lemma HeldIsFrame(w: World, es: seq<Event>, p: nat, x: RxSkb)
    requires Shaped(w) && Conserved(w) && AllFrames(w, {}) && (forall i :: 0 <= i < |es| ==> Enabled(es[i])) && p < 3
    requires x in Run(w, es).s.rxQ[p] || x in Run(w, es).log.delivered[p]
    ensures FrameFrom(x, p, Arrived(es))
  {
    var w' := Run(w, es);
    Conservation(w, es);
    HeldWasLetIn(w', p, x);
    RunFrames(w, es, {});
    assert {} + Arrived(es) == Arrived(es);
  }

  /**
   On every run each skb that is queued for `read_packet` or was handed up is the frame at the start of a buffer that
   arrived, without what follows it, in its class.
   */
  lemma OnlyFramesComeUp(es: seq<Event>, p: nat, x: RxSkb)
    requires (forall i :: 0 <= i < |es| ==> Enabled(es[i])) && p < 3
    requires var w := Run(Init(), es); x in w.s.rxQ[p] || x in w.log.delivered[p]
    ensures FrameFrom(x, p, Arrived(es)) && F.WholeFrame(x.data)
  {
    var w := Init();
    InitConserves();
    assert AllFrames(w, {});
    HeldIsFrame(w, es, p, x);
    FrameFromIsWhole(x, p, Arrived(es));
  }

  lemma FrameIsHeld(rx: RxSkb, ifType: nat, ifNum: nat, payload: seq<byte>, on: bool, tail: seq<byte>)
    requires P.Sendable(ifType, ifNum, payload) && F.PadLen(|payload|) + |payload| + |tail| == 1600
    requires rx.data == F.Frame(ifType, ifNum, payload, on) + tail
    ensures HoldsFrame(rx.data) && FrameOf(rx) == RxSkb(rx.id, F.Frame(ifType, ifNum, payload, on))
    ensures rx.data[0] as nat % 16 == ifType
    ensures var frame := F.Frame(ifType, ifNum, payload, on);
            F.WholeFrame(frame) && F.Unwrapped(frame, on) == Some(F.Packet(ifType, ifNum, 0, payload))
  {
    var frame := F.Frame(ifType, ifNum, payload, on);
    P.RoundTrip(ifType, ifNum, payload, on, tail);
    P.FrameFields(ifType, ifNum, payload, on);
    assert rx.data[..|frame|] == frame;
    assert rx.data[0] == frame[0] && rx.data[4] == frame[4] && rx.data[5] == frame[5];
    assert rx.data[6] == frame[6] && rx.data[7] == frame[7];
  }

  lemma TransferLetsIn(s: Spi, tx: TxSkb, rx: RxSkb)
    requires s.Valid() && s.dataPath && HoldsFrame(rx.data)
    ensures var c := ClassOf(rx.data[0] as nat % 16);
            var s' := Transfer(s, tx, true, rx);
            s'.rxQ == s.rxQ[c := s.rxQ[c] + [FrameOf(rx)]] && s'.dataPath
  {
    AcceptedIsFrame(s, rx);
  }

  lemma WorkLetsIn(s: Spi, rx: RxSkb, blank: TxSkb)
    requires s.Valid() && s.dataPath && HoldsFrame(rx.data)
    ensures var c := ClassOf(rx.data[0] as nat % 16);
            var s' := Work(s, true, true, true, rx, blank);
            s'.rxQ == s.rxQ[c := s.rxQ[c] + [FrameOf(rx)]] && s'.dataPath
  {
    if Takes(s, true) {
      TransferLetsIn(Take(s), s.txQ[FirstLane(s.txQ).value][0], rx);
    } else {
      TransferLetsIn(s, blank, rx);
    }
  }

  lemma OneFrameIsNext(w: World, c: nat, x: RxSkb)
    requires Shaped(w) && w.s.dataPath && c < 3 && w.s.rxQ == [[], [], []][c := [] + [x]]
    ensures Step(w, DoRead).log.delivered[c] == w.log.delivered[c] + [x]
  {
    assert forall p :: 0 <= p < 3 && p != c ==> w.s.rxQ[p] == [];
    assert w.s.rxQ[c] == [x];
  }

  /** A frame that was built, in a transfer with anything after it, comes out of `read_packet` as it was sent. */
  lemma FrameComesUp(w: World, id: nat, ifType: nat, ifNum: nat, payload: seq<byte>, on: bool, tail: seq<byte>,
                     blank: TxSkb)
    requires Shaped(w) && w.s.dataPath && w.s.rxQ == [[], [], []] && P.Sendable(ifType, ifNum, payload)
    requires F.PadLen(|payload|) + |payload| + |tail| == 1600
    ensures var frame := F.Frame(ifType, ifNum, payload, on);
            var w1 := Step(w, DoWork(true, true, true, RxSkb(id, frame + tail), blank));
            var w2 := Step(w1, DoRead);
            && w2.log.delivered[ClassOf(ifType)] == w.log.delivered[ClassOf(ifType)] + [RxSkb(id, frame)]
            && F.WholeFrame(frame) && F.Unwrapped(frame, on) == Some(F.Packet(ifType, ifNum, 0, payload))
  {
    var rx := RxSkb(id, F.Frame(ifType, ifNum, payload, on) + tail);
    FrameIsHeld(rx, ifType, ifNum, payload, on, tail);
    WorkLetsIn(w.s, rx, blank);
    var w1 := Step(w, DoWork(true, true, true, rx, blank));
    OneFrameIsNext(w1, ClassOf(ifType), FrameOf(rx));
  }

  /** When `esp_spi_work` runs a transfer: the slave is ready and has something, or there is something to send. */
  lemma WorkWhen(s: Spi, transReady: bool, rxPending: bool, xferOk: bool, rx: RxSkb, blank: TxSkb)
    requires s.Valid() && |rx.data| == F.SPI_BUF_SIZE
    ensures var s' := Work(s, transReady, rxPending, xferOk, rx, blank);
            var busy := s.dataPath && exists p :: 0 <= p < 3 && s.txQ[p] != [];
            if !(transReady && (rxPending || busy)) then s' == s
            else if !busy then s'.freed == s.freed + multiset{blank} && s'.txQ == s.txQ
            else exists p :: 0 <= p < 3 && s.txQ[p] != [] && s'.freed == s.freed + multiset{s.txQ[p][0]}
                             && s'.txQ == s.txQ[p := s.txQ[p][1..]]
  {
  }

  /** A packet leaves only when every higher class is empty, and it is the oldest of its class. */
  lemma StrictPriority(w: World, e: Event, p: nat)
    requires Shaped(w) && Enabled(e) && p < MAX_PRIORITY_QUEUES && Step(w, e).log.sent[p] != w.log.sent[p]
    ensures forall i :: 0 <= i < p ==> w.s.txQ[i] == []
    ensures w.s.txQ[p] != [] && Step(w, e).log.sent[p] == w.log.sent[p] + [w.s.txQ[p][0]]
  {
    assert Takes(w.s, e.transReady) && FirstLane(w.s.txQ) == Some(p);
  }

  /** The same for `read_packet`: higher classes are handed over first, each class in order of arrival. */
  lemma ReadPriority(w: World, e: Event, p: nat)
    requires Shaped(w) && Enabled(e) && p < MAX_PRIORITY_QUEUES && Step(w, e).log.delivered[p] != w.log.delivered[p]
    ensures forall i :: 0 <= i < p ==> w.s.rxQ[i] == []
    ensures w.s.rxQ[p] != [] && Step(w, e).log.delivered[p] == w.log.delivered[p] + [w.s.rxQ[p][0]]
  {
    assert e.DoRead? && FirstLane(w.s.rxQ) == Some(p);
  }

  // ---- Flow control ----

  /** How many packets of a queue do not carry device `d` in `cb->priv`. */
  function Others(q: seq<TxSkb>, d: nat): (n: nat)
    ensures n <= |q|
  {
    if q == [] then 0 else Others(q[1..], d) + (if q[0].dev == Some(d) then 0 else 1)
  }

  lemma {:induction false} OthersPush(q: seq<TxSkb>, x: TxSkb, d: nat)
    ensures Others(q + [x], d) == Others(q, d) + (if x.dev == Some(d) then 0 else 1)
  {
    if q != [] {
      assert (q + [x])[1..] == q[1..] + [x];
      OthersPush(q[1..], x, d);
    }
  }

  lemma {:induction false} OthersFrom(q: seq<TxSkb>, k: nat, d: nat)
    requires k <= |q|
    ensures Others(q[k..], d) <= Others(q, d)
  {
    if k > 0 {
      assert q[1..][k - 1..] == q[k..];
      OthersFrom(q[1..], k - 1, d);
    }
  }

  lemma {:induction false} OwnExists(q: seq<TxSkb>, d: nat) returns (i: nat)
    requires Others(q, d) < |q|
    ensures i < |q| && q[i].dev == Some(d)
  {
    if q[0].dev == Some(d) {
      i := 0;
    } else {
      i := OwnExists(q[1..], d);
      i := i + 1;
    }
  }

  predicate CounterOk(s: Spi)
    requires s.Valid()
  {
    s.txPending <= |s.txQ[PRIO_Q_LOW]|
  }

  /** At most `m` LOW packets are not the device's own. */
  predicate Few(s: Spi, d: nat, m: nat)
    requires s.Valid()
  {
    Others(s.txQ[PRIO_Q_LOW], d) <= m
  }

  /** A stopped device has at least `20 - m` LOW packets of its own queued. */
  predicate FlowOk(s: Spi, d: nat, m: nat)
    requires s.Valid()
  {
    var low := s.txQ[PRIO_Q_LOW];
    d in s.paused ==> |low| - Others(low, d) >= TX_RESUME_THRESHOLD - m
  }

  lemma TakeFlows(s: Spi, d: nat, m: nat)
    requires s.Valid() && CounterOk(s) && FirstLane(s.txQ).Some?
    ensures CounterOk(Take(s)) && (Few(s, d, m) && FlowOk(s, d, m) ==> FlowOk(Take(s), d, m))
  {
  }

  lemma WriteFlows(s: Spi, skb: TxSkb, d: nat, m: nat)
    requires s.Valid() && CounterOk(s)
    ensures CounterOk(Write(s, skb))
    ensures Few(s, d, m) && FlowOk(s, d, m) ==> FlowOk(Write(s, skb), d, m)
  {
    OthersPush(s.txQ[PRIO_Q_LOW], skb, d);
  }

  lemma WorkFlows(s: Spi, e: Event, d: nat, m: nat)
    requires s.Valid() && CounterOk(s) && e.DoWork? && Enabled(e)
    ensures CounterOk(StepState(s, e)) && (Few(s, d, m) && FlowOk(s, d, m) ==> FlowOk(StepState(s, e), d, m))
  {
    if Takes(s, e.transReady) { TakeFlows(s, d, m); }
  }

  lemma StepFlows(w: World, e: Event, d: nat, m: nat)
    requires Shaped(w) && Enabled(e) && CounterOk(w.s)
    ensures CounterOk(Step(w, e).s)
    ensures Few(w.s, d, m) && FlowOk(w.s, d, m) ==> FlowOk(Step(w, e).s, d, m)
  {
    match e
    case DoWrite(skb) => WriteFlows(w.s, skb, d, m);
    case DoWork(_, _, _, _, _) => WorkFlows(w.s, e, d, m);
    case DoRead =>
    case DoOpen =>
  }

  /** In every state of the run at most `m` LOW packets are not the device's own. */
  predicate AlwaysFew(w: World, es: seq<Event>, d: nat, m: nat)
    requires Shaped(w) && forall i :: 0 <= i < |es| ==> Enabled(es[i])
    decreases |es|
  {
    Few(w.s, d, m) && (es == [] || AlwaysFew(Step(w, es[0]), es[1..], d, m))
  }

  /**
   On every run `tx_pending` is at most the LOW queue's length; and while at most `m` LOW packets are not the device's
   own, a stop leaves at least `20 - m` of its own queued.
   */
  lemma {:induction false} NoLostWakeup(w: World, es: seq<Event>, d: nat, m: nat)
    requires Shaped(w) && CounterOk(w.s) && forall i :: 0 <= i < |es| ==> Enabled(es[i])
    ensures var w' := Run(w, es);
      CounterOk(w'.s) && (FlowOk(w.s, d, m) && AlwaysFew(w, es, d, m) ==> Few(w'.s, d, m) && FlowOk(w'.s, d, m))
    decreases |es|
  {
    if es != [] {
      StepFlows(w, es[0], d, m);
      NoLostWakeup(Step(w, es[0]), es[1..], d, m);
    }
  }

  /** All LOW traffic carries the device in `cb->priv`. */
  predicate OwnTraffic(e: Event, d: nat) {
    e.DoWrite? && Lane(e.skb.ifType) == PRIO_Q_LOW ==> e.skb.dev == Some(d)
  }

  lemma StepKeepsFew(w: World, e: Event, d: nat, m: nat)
    requires Shaped(w) && Enabled(e) && Few(w.s, d, m) && OwnTraffic(e, d)
    ensures Few(Step(w, e).s, d, m)
  {
    if e.DoWrite? { OthersPush(w.s.txQ[PRIO_Q_LOW], e.skb, d); }
  }

  lemma {:induction false} OwnTrafficIsFew(w: World, es: seq<Event>, d: nat, m: nat)
    requires Shaped(w) && Few(w.s, d, m) && forall i :: 0 <= i < |es| ==> Enabled(es[i]) && OwnTraffic(es[i], d)
    ensures AlwaysFew(w, es, d, m)
    decreases |es|
  {
    if es != [] {
      StepKeepsFew(w, es[0], d, m);
      OwnTrafficIsFew(Step(w, es[0]), es[1..], d, m);
    }
  }

  lemma InitHolds(d: nat, m: nat)
    ensures var w := Init(); Shaped(w) && Conserved(w) && CounterOk(w.s) && Few(w.s, d, m) && FlowOk(w.s, d, m)
  {
    InitConserves();
  }

  /**
   On every run from `spi_init`, whatever is written, clocked in, read and reopened: conservation, and if all LOW
   traffic carries one device, a stop of that device leaves at least 20 LOW packets queued, all its own.
   */
  lemma EveryRunFromInit(es: seq<Event>, d: nat)
    requires forall i :: 0 <= i < |es| ==> Enabled(es[i])
    ensures var w := Run(Init(), es);
      && Conserved(w) && CounterOk(w.s)
      && ((forall i :: 0 <= i < |es| ==> OwnTraffic(es[i], d)) ==> Few(w.s, d, 0) && FlowOk(w.s, d, 0))
  {
    var w0 := Init();
    InitHolds(d, 0);
    Conservation(w0, es);
    NoLostWakeup(w0, es, d, 0);
    if forall i :: 0 <= i < |es| ==> OwnTraffic(es[i], d) { OwnTrafficIsFew(w0, es, d, 0); }
  }

  // ---- Draining: exactly when a stopped device is restarted ----

  /** The packets in the order in which they will be taken. */
  function Line(s: Spi): (l: seq<TxSkb>)
    requires s.Valid()
    ensures |l| == |s.txQ[0]| + |s.txQ[1]| + |s.txQ[2]|
  {
    s.txQ[0] + s.txQ[1] + s.txQ[2]
  }

  lemma TakeIsHead(s: Spi)
    requires s.Valid() && FirstLane(s.txQ).Some?
    ensures Take(s).Valid() && Line(s) != [] && Line(Take(s)) == Line(s)[1..]
    ensures Line(s)[0] == s.txQ[FirstLane(s.txQ).value][0]
  {
  }

  /** Take packets until none is left, with no new ones coming. */
  function Drain(s: Spi): (r: Spi)
    requires s.Valid()
    ensures r.Valid() && Line(r) == []
    decreases |Line(s)|
  {
    if FirstLane(s.txQ).None? then s
    else
      TakeIsHead(s);
      Drain(Take(s))
  }

  /** Draining restarts a stopped device exactly when one of its packets is taken after the counter
      has come below the threshold, that is, at position `txPending - 20` of the line or later. */
  lemma {:induction false} DrainRestarts(s: Spi, d: nat)
    requires s.Valid() && d in s.paused
    ensures d !in Drain(s).paused <==>
              exists i :: 0 <= i < |Line(s)| && i >= s.txPending - TX_RESUME_THRESHOLD && Line(s)[i].dev == Some(d)
    decreases |Line(s)|
  {
    if FirstLane(s.txQ).Some? {
      TakeIsHead(s);
      var s' := Take(s);
      assert Line(s) == [Line(s)[0]] + Line(s');
      if d in s'.paused {
        DrainRestarts(s', d);
        if d !in Drain(s).paused {
          var i :| 0 <= i < |Line(s')| && i >= s'.txPending - TX_RESUME_THRESHOLD && Line(s')[i].dev == Some(d);
          assert Line(s)[i + 1].dev == Some(d);
        } else {
          forall i | 0 <= i < |Line(s)| && i >= s.txPending - TX_RESUME_THRESHOLD
            ensures Line(s)[i].dev != Some(d)
          {
            if i > 0 { assert Line(s)[i] == Line(s')[i - 1]; }
          }
        }
      } else {
        DrainNeverStops(s', d);
        assert Line(s)[0].dev == Some(d);
      }
    }
  }

  lemma {:induction false} DrainNeverStops(s: Spi, d: nat)
    requires s.Valid() && d !in s.paused
    ensures d !in Drain(s).paused
    decreases |Line(s)|
  {
    if FirstLane(s.txQ).Some? {
      TakeIsHead(s);
      DrainNeverStops(Take(s), d);
    }
  }

  lemma LowEndsTheLine(s: Spi, i: nat)
    requires s.Valid() && i < |s.txQ[PRIO_Q_LOW]|
    ensures var at := |Line(s)| - |s.txQ[PRIO_Q_LOW]| + i; Line(s)[at] == s.txQ[PRIO_Q_LOW][i]
  {
  }

  /** With fewer than 20 LOW packets that are not the device's own, draining restarts it. */
  lemma DrainRestartsIfFew(s: Spi, d: nat, m: nat)
    requires s.Valid() && CounterOk(s) && Few(s, d, m) && FlowOk(s, d, m) && m < TX_RESUME_THRESHOLD
    ensures d !in Drain(s).paused
  {
    if d in s.paused {
      var low := s.txQ[PRIO_Q_LOW];
      var skip: nat := if |low| > TX_RESUME_THRESHOLD then |low| - TX_RESUME_THRESHOLD else 0;
      OthersFrom(low, skip, d);
      assert skip == 0 ==> low[skip..] == low;
      var i := OwnExists(low[skip..], d);
      LowEndsTheLine(s, skip + i);
      DrainRestarts(s, d);
    } else {
      DrainNeverStops(s, d);
    }
  }

  /** On every run from `spi_init` with fewer than 20 such packets at any time, no stop is for good. */
  lemma EveryStopIsUndone(es: seq<Event>, d: nat, m: nat)
    requires m < TX_RESUME_THRESHOLD && (forall i :: 0 <= i < |es| ==> Enabled(es[i])) && AlwaysFew(Init(), es, d, m)
    ensures d !in Drain(Run(Init(), es).s).paused
  {
    InitHolds(d, m);
    NoLostWakeup(Init(), es, d, m);
    DrainRestartsIfFew(Run(Init(), es).s, d, m);
  }

  /** Otherwise it can fail: a device stopped behind 20 packets that are not its own is never restarted by them. */
  lemma ForeignBacklogStrands(s: Spi, skb: TxSkb, d: nat)
    requires s.Valid() && s.dataPath && s.txPending >= TX_MAX_PENDING_COUNT
    requires skb.dev == Some(d) && 0 < skb.len <= F.SPI_BUF_SIZE - F.HEADER_SIZE
    requires forall i :: 0 <= i < |Line(s)| && i >= s.txPending - TX_RESUME_THRESHOLD ==> Line(s)[i].dev != Some(d)
    ensures Verdict(s, skb) == Ebusy && d in Drain(Write(s, skb)).paused && Line(Drain(Write(s, skb))) == []
  {
    var s1 := Write(s, skb);
    assert Line(s1) == Line(s);
    DrainRestarts(s1, d);
  }

  // ---- A run that strands a device ----

  /** Nothing but LOW packets queued, all counted, `own` of device 0 first and then others. */
  ghost predicate Backlog(s: Spi, own: nat)
    requires s.Valid()
  {
    && s.dataPath && s.txQ[0] == [] && s.txQ[1] == [] && s.txPending == |s.txQ[PRIO_Q_LOW]|
    && Others(s.txQ[PRIO_Q_LOW], 0) <= |s.txQ[PRIO_Q_LOW]| - Min(own, |s.txQ[PRIO_Q_LOW]|)
    && forall i :: own <= i < |s.txQ[PRIO_Q_LOW]| ==> s.txQ[PRIO_Q_LOW][i].dev != Some(0)
  }

  const OWN: nat := TX_MAX_PENDING_COUNT - TX_RESUME_THRESHOLD

  /** One more packet: of device 0 while fewer than 80 are queued, of `other` from then on. */
  lemma FillOne(s: Spi, other: Option<nat>) returns (skb: TxSkb)
    requires s.Valid() && Backlog(s, OWN) && s.txPending < TX_MAX_PENDING_COUNT && other != Some(0)
    ensures skb.dev in {Some(0), other} && Backlog(Write(s, skb), OWN) && Few(s, 0, TX_RESUME_THRESHOLD)
    ensures Write(s, skb).txPending == s.txPending + 1
  {
    skb := TxSkb(s.txPending, 0, if s.txPending < OWN then Some(0) else other, 64);
    OthersPush(s.txQ[PRIO_Q_LOW], skb, 0);
  }

  /** One more packet of device 0 on the full queue stops it for good. */
  lemma LastStraw(w: World) returns (es: seq<Event>)
    requires Shaped(w) && Backlog(w.s, OWN) && w.s.txPending == TX_MAX_PENDING_COUNT
    ensures es == [DoWrite(TxSkb(0, 0, Some(0), 64))] && Enabled(es[0])
    ensures AlwaysFew(w, es, 0, TX_RESUME_THRESHOLD)
    ensures var s := Run(w, es).s; 0 in Drain(s).paused && Line(Drain(s)) == []
  {
    var skb := TxSkb(0, 0, Some(0), 64);
    assert Line(w.s) == w.s.txQ[PRIO_Q_LOW];
    ForeignBacklogStrands(w.s, skb, 0);
    es := [DoWrite(skb)];
    var w' := Step(w, es[0]);
    assert Run(w, es) == Run(w', []) && AlwaysFew(w', [], 0, TX_RESUME_THRESHOLD);
  }

  lemma {:induction false} Strand(w: World, other: Option<nat>) returns (es: seq<Event>)
    requires Shaped(w) && Backlog(w.s, OWN) && w.s.txPending <= TX_MAX_PENDING_COUNT && other != Some(0)
    ensures |es| == TX_MAX_PENDING_COUNT - w.s.txPending + 1
    ensures forall i :: 0 <= i < |es| ==> Enabled(es[i]) && es[i].DoWrite? && es[i].skb.dev in {Some(0), other}
    ensures AlwaysFew(w, es, 0, TX_RESUME_THRESHOLD)
    ensures var s := Run(w, es).s; 0 in Drain(s).paused && Line(Drain(s)) == []
    decreases TX_MAX_PENDING_COUNT - w.s.txPending
  {
    if w.s.txPending == TX_MAX_PENDING_COUNT {
      es := LastStraw(w);
    } else {
      var skb := FillOne(w.s, other);
      var rest := Strand(Step(w, DoWrite(skb)), other);
      es := [DoWrite(skb)] + rest;
      assert es[1..] == rest;
    }
  }

  /**
   The bound of 20 is sharp, and one device is enough: 80 packets of it, 20 that carry no device or another one, and
   one more of its own, and it stays stopped after everything has drained.
   */
  lemma StrandedFromInit(other: Option<nat>) returns (es: seq<Event>)
    requires other != Some(0)
    ensures |es| == 102
    ensures forall i :: 0 <= i < |es| ==> Enabled(es[i]) && (es[i].DoWrite? ==> es[i].skb.dev in {Some(0), other})
    ensures AlwaysFew(Init(), es, 0, TX_RESUME_THRESHOLD)
    ensures var s := Run(Init(), es).s; 0 in Drain(s).paused && Line(Drain(s)) == []
  {
    var rest := Strand(Step(Init(), DoOpen), other);
    es := [DoOpen] + rest;
    assert es[1..] == rest;
  }
}
