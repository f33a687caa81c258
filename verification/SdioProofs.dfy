/** Credit safety over whole runs from any start, and what whole runs of reads make of the slave's output. */
module SdioProofs {
  import opened Basics
  import opened Sdio

  /** The token register when the slave has granted `granted` buffers; other bits are arbitrary. */
  function TokenReg(granted: nat, low: nat, high: nat): (reg: nat)
    requires low < TWO_16
    ensures Token(reg) == granted % ESP_TX_BUFFER_MAX
  {
    var reg := low + TWO_16 * (granted % ESP_TX_BUFFER_MAX + ESP_TX_BUFFER_MAX * high);
    assert reg / TWO_16 == granted % ESP_TX_BUFFER_MAX + ESP_TX_BUFFER_MAX * high;
    reg
  }

  // ---- Transmit credit ----

  /** The slave fills one buffer after the other, each with up to 2048 bytes. */
  function SlaveBuffers(len: nat): nat {
    if len == 0 then 0 else if len <= 2048 then 1 else 1 + SlaveBuffers(len - 2048)
  }

  /** The driver counts what the slave uses. */
  lemma {:induction false} BufNeededIsExact(len: nat)
    ensures BufNeeded(len) == SlaveBuffers(len)
  {
    if len > 2048 { BufNeededIsExact(len - 2048); }
  }

  /** Total buffers granted by the slave and filled in it, without wrap-around. */
  datatype World = World(c: Credit, granted: nat, sent: nat)

  /** One attempt to read the token register: the slave grants `more` buffers first. */
  datatype Attempt = Attempt(more: nat, readOk: bool, low: nat, high: nat)

  datatype Event =
    | Grant(more: nat)
    | Send(len: nat, attempts: seq<Attempt>, writeOk: bool)

  predicate Enabled(e: Event) {
    e.Send? ==> |e.attempts| == MAX_WRITE_RETRIES && forall i :: 0 <= i < |e.attempts| ==> e.attempts[i].low < TWO_16
  }

  function GrantedAfter(granted: nat, attempts: seq<Attempt>): (g: nat)
    ensures granted <= g
    decreases |attempts|
  {
    if attempts == [] then granted else GrantedAfter(granted + attempts[0].more, attempts[1..])
  }

  function Regs(granted: nat, attempts: seq<Attempt>): (r: seq<Option<nat>>)
    requires forall i :: 0 <= i < |attempts| ==> attempts[i].low < TWO_16
    ensures |r| == |attempts|
    decreases |attempts|
  {
    if attempts == [] then []
    else
      var a := attempts[0];
      var g := granted + a.more;
      [if a.readOk then Some(TokenReg(g, a.low, a.high)) else None] + Regs(g, attempts[1..])
  }

  function Step(w: World, e: Event): World
    requires w.c.Valid() && Enabled(e)
  {
    match e
    case Grant(more) => w.(granted := w.granted + more)
    case Send(len, attempts, writeOk) =>
      var regs := Regs(w.granted, attempts);
      World(Transmit(w.c, len, regs, writeOk), GrantedAfter(w.granted, attempts),
            if Written(w.c, len, regs, writeOk) then w.sent + SlaveBuffers(len) else w.sent)
  }

  /** The host never sent more than was granted, and its cache never promises more than is left. */
  ghost predicate Inv(w: World) {
    && w.c.txBufferCount == w.sent % ESP_TX_BUFFER_MAX
    && w.sent <= w.granted
    && w.c.bufAvailable <= w.granted - w.sent
  }

  /** A register read never shows more than the true credit, and shows it exactly below 4096. */
  lemma RefreshIsSafe(c: Credit, granted: nat, sent: nat, reg: nat)
    requires c.Valid() && c.txBufferCount == sent % ESP_TX_BUFFER_MAX && sent <= granted
    requires Token(reg) == granted % ESP_TX_BUFFER_MAX
    ensures Refresh(c, Some(reg)).bufAvailable == (granted - sent) % ESP_TX_BUFFER_MAX <= granted - sent
    ensures Refresh(c, Some(reg)).bufAvailable == granted - sent <==> granted - sent < ESP_TX_BUFFER_MAX
  {
    var m := ESP_TX_BUFFER_MAX;
    var k := granted / m - sent / m;
    assert granted - sent == k * m + (granted % m - sent % m);
    assert (granted % m + m - sent % m) % m == (granted - sent) % m by {
      ModShift(granted % m - sent % m, 1);
      ModShift(granted % m - sent % m, k);
    }
  }

  lemma ModShift(x: int, k: int)
    ensures (x + k * ESP_TX_BUFFER_MAX) % ESP_TX_BUFFER_MAX == x % ESP_TX_BUFFER_MAX
  {
  }

  lemma {:induction false} PollIsSafe(c: Credit, granted: nat, sent: nat, need: nat, attempts: seq<Attempt>)
    requires forall i :: 0 <= i < |attempts| ==> attempts[i].low < TWO_16
    requires c.Valid() && Inv(World(c, granted, sent))
    ensures var p := Poll(c, need, Regs(granted, attempts));
      && p.txBufferCount == c.txBufferCount
      && p.bufAvailable <= GrantedAfter(granted, attempts) - sent
    decreases |attempts|
  {
    if attempts != [] && c.bufAvailable < need {
      var a := attempts[0];
      var g := granted + a.more;
      var regs := Regs(granted, attempts);
      assert regs[1..] == Regs(g, attempts[1..]);
      if a.readOk { RefreshIsSafe(c, g, sent, regs[0].value); }
      PollIsSafe(Refresh(c, regs[0]), g, sent, need, attempts[1..]);
    }
  }

  lemma StepKeepsInv(w: World, e: Event)
    requires w.c.Valid() && Inv(w) && Enabled(e)
    ensures Step(w, e).c.Valid() && Inv(Step(w, e))
  {
    if e.Send? {
      PollIsSafe(w.c, w.granted, w.sent, BufNeeded(e.len), e.attempts);
      AddThenWrap(w.sent, BufNeeded(e.len));
      BufNeededIsExact(e.len);
    }
  }

  lemma AddThenWrap(sent: nat, need: nat)
    ensures (sent % ESP_TX_BUFFER_MAX + need) % ESP_TX_BUFFER_MAX == (sent + need) % ESP_TX_BUFFER_MAX
  {
  }

  function Run(w: World, es: seq<Event>): World
    requires w.c.Valid() && forall i :: 0 <= i < |es| ==> Enabled(es[i])
    decreases |es|
  {
    if es == [] then w else Run(Step(w, es[0]), es[1..])
  }

  /** On every run, buffers sent never exceed buffers granted, nor does the cache. */
  lemma {:induction false} CreditSafety(w: World, es: seq<Event>)
    requires w.c.Valid() && Inv(w) && forall i :: 0 <= i < |es| ==> Enabled(es[i])
    ensures Inv(Run(w, es))
    decreases |es|
  {
    if es != [] {
      StepKeepsInv(w, es[0]);
      CreditSafety(Step(w, es[0]), es[1..]);
    }
  }

  /** A packet is refused only for want of credit, provided the last register read worked and the
      credit is below 4096, where the 12-bit difference is exact. */
  lemma RefusalIsHonest(w: World, len: nat, attempts: seq<Attempt>)
    requires w.c.Valid() && Inv(w) && Enabled(Send(len, attempts, true))
    requires attempts[MAX_WRITE_RETRIES - 1].readOk
    requires GrantedAfter(w.granted, attempts) - w.sent < ESP_TX_BUFFER_MAX
    ensures !Written(w.c, len, Regs(w.granted, attempts), true) ==>
              GrantedAfter(w.granted, attempts) - w.sent < SlaveBuffers(len)
  {
    var need := BufNeeded(len);
    BufNeededIsExact(len);
    var g1 := w.granted + attempts[0].more;
    var g2 := g1 + attempts[1].more;
    var regs: seq<Option<nat>> := Regs(w.granted, attempts);
    assert attempts[1..][1..] == [];
    assert regs == [regs[0]] + Regs(g1, attempts[1..]);
    assert regs[1..] == Regs(g1, attempts[1..]);
    assert regs[1] == Some(TokenReg(g2, attempts[1].low, attempts[1].high));
    var c1 := Refresh(w.c, regs[0]);
    var rest := regs[1..];
    assert |rest[1..]| == 0 && rest[0] == regs[1];
    assert GrantedAfter(w.granted, attempts) == GrantedAfter(g1, attempts[1..]) == g2;
    RefreshIsSafe(c1, g2, w.sent, regs[1].value);
    assert Poll(c1, need, regs[1..]) ==
           if c1.bufAvailable >= need then c1 else Poll(Refresh(c1, regs[1]), need, rest[1..]);
  }

  // ---- Exactly when the host's count is safe ----

  predicate AllEnabled(es: seq<Event>) {
    forall i :: 0 <= i < |es| ==> Enabled(es[i])
  }

  /** The host has not sent more buffers than were granted, and never will. */
  ghost predicate SafeForever(w: World)
    requires w.c.Valid()
  {
    forall es :: AllEnabled(es) ==> var w' := Run(w, es); w'.sent <= w'.granted
  }

  /** How many buffers the host takes for sent beyond the true number, as far as 12 bits tell. */
  function Lag(w: World): (l: nat)
    ensures l < ESP_TX_BUFFER_MAX
  {
    (w.c.txBufferCount - w.sent) % ESP_TX_BUFFER_MAX
  }

  lemma LagCounts(w: World)
    requires w.c.Valid()
    ensures (w.sent + Lag(w)) % ESP_TX_BUFFER_MAX == w.c.txBufferCount
  {
  }

  /** The same host in a world where `lag` more buffers were sent. */
  function Ahead(w: World, lag: nat): World {
    w.(sent := w.sent + lag)
  }

  lemma {:induction false} RunAhead(w: World, lag: nat, es: seq<Event>)
    requires w.c.Valid() && AllEnabled(es)
    ensures Run(Ahead(w, lag), es) == Ahead(Run(w, es), lag)
    decreases |es|
  {
    if es != [] {
      assert Step(Ahead(w, lag), es[0]) == Ahead(Step(w, es[0]), lag);
      RunAhead(Step(w, es[0]), lag, es[1..]);
    }
  }

  /** With room for the lag every run is safe, and the cache promises no more than is left. */
  lemma RoomForLagIsEnough(w: World, es: seq<Event>)
    requires w.c.Valid() && AllEnabled(es) && Lag(w) + w.c.bufAvailable <= w.granted - w.sent
    ensures var w' := Run(w, es); w'.sent <= w'.granted && w'.c.bufAvailable <= w'.granted - w'.sent
  {
    LagCounts(w);
    CreditSafety(Ahead(w, Lag(w)), es);
    RunAhead(w, Lag(w), es);
  }

  /** A one-buffer packet whose register reads succeed while the slave grants nothing more. */
  function Packet(): Event {
    Send(1, [Attempt(0, true, 0, 0), Attempt(0, true, 0, 0)], true)
  }

  lemma PacketEnabled()
    ensures Enabled(Packet()) && BufNeeded(1) == SlaveBuffers(1) == 1
  {
  }

  lemma LagStays(count: nat, sent: nat)
    ensures ((count + 1) % ESP_TX_BUFFER_MAX - (sent + 1)) % ESP_TX_BUFFER_MAX == (count - sent) % ESP_TX_BUFFER_MAX
  {
  }

  lemma NoGrants(granted: nat)
    ensures Enabled(Packet()) && GrantedAfter(granted, Packet().attempts) == granted
  {
    assert Packet().attempts[1..][1..] == [];
  }

  /** Once polling ends with credit in the cache, a packet is sent from it. */
  lemma PacketGranted(w: World, polled: Credit)
    requires w.c.Valid() && polled.bufAvailable > 0 && Enabled(Packet())
    requires Poll(w.c, 1, Regs(w.granted, Packet().attempts)) == polled
    ensures Step(w, Packet()) ==
            World(Credit((w.c.txBufferCount + 1) % ESP_TX_BUFFER_MAX, polled.bufAvailable - 1), w.granted, w.sent + 1)
    ensures Lag(Step(w, Packet())) == Lag(w)
  {
    PacketEnabled();
    NoGrants(w.granted);
    LagStays(w.c.txBufferCount, w.sent);
  }

  /** While the cache lasts a packet is sent from it without a register read. */
  lemma PacketFromCache(w: World)
    requires w.c.Valid() && w.c.bufAvailable > 0
    ensures Enabled(Packet())
    ensures Step(w, Packet()) ==
            World(Credit((w.c.txBufferCount + 1) % ESP_TX_BUFFER_MAX, w.c.bufAvailable - 1), w.granted, w.sent + 1)
    ensures Lag(Step(w, Packet())) == Lag(w)
  {
    PacketEnabled();
    PacketGranted(w, w.c);
  }

  lemma ReadWithLag(w: World)
    requires w.c.Valid() && w.sent <= w.granted && w.granted - w.sent < Lag(w)
    ensures (w.granted % ESP_TX_BUFFER_MAX + ESP_TX_BUFFER_MAX - w.c.txBufferCount) % ESP_TX_BUFFER_MAX ==
            w.granted - w.sent - Lag(w) + ESP_TX_BUFFER_MAX
  {
    LagCounts(w);
  }

  /** With an empty cache the first register read decides whether one buffer is granted. */
  lemma PollReads(w: World)
    requires w.c.Valid() && w.c.bufAvailable == 0
    ensures Enabled(Packet()) && GrantedAfter(w.granted, Packet().attempts) == w.granted
    ensures var c1 := Refresh(w.c, Some(TokenReg(w.granted, 0, 0)));
            c1.bufAvailable > 0 ==> Poll(w.c, 1, Regs(w.granted, Packet().attempts)) == c1
  {
    var a := Packet().attempts;
    assert a[1..][1..] == [] && GrantedAfter(w.granted, a) == w.granted;
    var regs := Regs(w.granted, a);
    assert regs[0] == Some(TokenReg(w.granted, 0, 0));
  }

  lemma ReadPromises(w: World)
    requires w.c.Valid() && w.sent <= w.granted && w.granted - w.sent < Lag(w)
    ensures Refresh(w.c, Some(TokenReg(w.granted, 0, 0))) ==
            w.c.(bufAvailable := w.granted - w.sent - Lag(w) + ESP_TX_BUFFER_MAX)
  {
    ReadWithLag(w);
  }

  /** With an empty cache and less than the lag left, one register read promises more than is left. */
  lemma PacketAfterRead(w: World)
    requires w.c.Valid() && w.c.bufAvailable == 0 && w.sent <= w.granted && w.granted - w.sent < Lag(w)
    ensures Enabled(Packet())
    ensures Step(w, Packet()) ==
            World(Credit((w.c.txBufferCount + 1) % ESP_TX_BUFFER_MAX,
                         w.granted - w.sent - Lag(w) + ESP_TX_BUFFER_MAX - 1), w.granted, w.sent + 1)
    ensures Lag(Step(w, Packet())) == Lag(w)
  {
    var promised := w.granted - w.sent - Lag(w) + ESP_TX_BUFFER_MAX;
    ReadPromises(w);
    PollReads(w);
    PacketGranted(w, w.c.(bufAvailable := promised));
  }

  /** Without room for the lag, sending packet after packet overruns what the slave has granted. */
  lemma {:induction false} TooLittleRoomOverruns(w: World) returns (es: seq<Event>)
    requires w.c.Valid() && Lag(w) + w.c.bufAvailable > w.granted - w.sent
    ensures AllEnabled(es) && Run(w, es).sent > Run(w, es).granted
    decreases w.granted - w.sent
  {
    if w.sent > w.granted {
      es := [];
    } else {
      if w.c.bufAvailable == 0 { PacketAfterRead(w); } else { PacketFromCache(w); }
      var rest := TooLittleRoomOverruns(Step(w, Packet()));
      es := [Packet()] + rest;
      assert es[1..] == rest;
    }
  }

  /** Every later run is safe exactly when the true credit has room for the cache and the host's lag. */
  lemma SafeForeverIff(w: World)
    requires w.c.Valid()
    ensures SafeForever(w) <==> Lag(w) + w.c.bufAvailable <= w.granted - w.sent
  {
    if Lag(w) + w.c.bufAvailable <= w.granted - w.sent {
      forall es | AllEnabled(es) ensures Run(w, es).sent <= Run(w, es).granted { RoomForLagIsEnough(w, es); }
    } else {
      var es := TooLittleRoomOverruns(w);
    }
  }

  /** Probe and resume: the slave's token register is read, whatever was granted, sent and cached before. */
  function Restart(w: World, low: nat, high: nat): World
    requires low < TWO_16
  {
    w.(c := Restarted(w.c, TokenReg(w.granted, low, high)))
  }

  /**
   * After a probe or resume every run is safe exactly when the true credit has room for the stale cache and for what
   * the host assumes to be sent beyond the truth.  The cache is zero only at the first probe of a module load.
   */
  lemma RestartIsSafeIff(w: World, low: nat, high: nat)
    requires low < TWO_16
    ensures var base := BaseCount(w.granted % ESP_TX_BUFFER_MAX);
            SafeForever(Restart(w, low, high)) <==>
              (base - w.sent) % ESP_TX_BUFFER_MAX + w.c.bufAvailable <= w.granted - w.sent
  {
    SafeForeverIff(Restart(w, low, high));
  }

  /** With a token of ten or more: ten free buffers, and a cache of at most ten for credits below 4106. */
  lemma AssumedTen(w: World, low: nat, high: nat)
    requires low < TWO_16 && w.granted % ESP_TX_BUFFER_MAX >= ESP_MAX_BUF_CNT
    ensures var credit := w.granted - w.sent;
            SafeForever(Restart(w, low, high)) <==>
              credit >= ESP_MAX_BUF_CNT &&
              w.c.bufAvailable <= ESP_MAX_BUF_CNT + (credit - ESP_MAX_BUF_CNT) / ESP_TX_BUFFER_MAX * ESP_TX_BUFFER_MAX
  {
    RestartIsSafeIff(w, low, high);
    var m, rest := ESP_TX_BUFFER_MAX, w.granted - w.sent - ESP_MAX_BUF_CNT;
    TokenBase(w.granted, w.sent);
    assert rest == rest / m * m + rest % m;
  }

  lemma TokenBase(granted: nat, sent: nat)
    requires granted % ESP_TX_BUFFER_MAX >= ESP_MAX_BUF_CNT
    ensures (BaseCount(granted % ESP_TX_BUFFER_MAX) - sent) % ESP_TX_BUFFER_MAX ==
            (granted - sent - ESP_MAX_BUF_CNT) % ESP_TX_BUFFER_MAX
  {
    var m := ESP_TX_BUFFER_MAX;
    ModShift(granted % m - ESP_MAX_BUF_CNT - sent, granted / m);
    assert granted == granted / m * m + granted % m;
  }

  /** With every granted buffer used, a restart makes the next register read promise ten more. */
  lemma ResumeOverpromises(granted: nat, low: nat, high: nat)
    requires granted % ESP_TX_BUFFER_MAX >= ESP_MAX_BUF_CNT && low < TWO_16
    ensures var w := World(Credit(granted % ESP_TX_BUFFER_MAX, 0), granted, granted);
      && Inv(w)
      && Refresh(Restart(w, low, high).c, Some(TokenReg(granted, low, high))).bufAvailable == ESP_MAX_BUF_CNT
      && w.granted - w.sent == 0
  {
  }

  // ---- Receive length ----

  /** `produced` bytes put out by the slave in all, `consumed` of them read. */
  ghost predicate RxInv(rxByteCount: nat, produced: nat, consumed: nat) {
    rxByteCount == consumed % ESP_RX_BYTE_MAX && consumed <= produced
  }

  /** The length read from the slave is the whole backlog exactly while that is below 2^20, and
      reading it brings the counter level with the register it came from. */
  lemma ReceiveLengthIsExact(rxByteCount: nat, produced: nat, consumed: nat)
    requires RxInv(rxByteCount, produced, consumed)
    ensures var len := Backlog(produced % ESP_RX_BYTE_MAX, rxByteCount);
      && (len == produced - consumed <==> produced - consumed < ESP_RX_BYTE_MAX)
      && len <= produced - consumed
      && RxInv((rxByteCount + len) % ESP_RX_BYTE_MAX, produced, consumed + len)
      && (rxByteCount + len) % ESP_RX_BYTE_MAX == produced % ESP_RX_BYTE_MAX
  {
    var m := ESP_RX_BYTE_MAX;
    var k := produced / m - consumed / m;
    var len := Backlog(produced % m, rxByteCount);
    assert produced - consumed == k * m + (produced % m - consumed % m);
    if produced % m >= consumed % m {
      assert len == produced % m - consumed % m;
    } else {
      assert len == produced % m - consumed % m + m;
      assert k >= 1;
    }
  }

  /** The receive counter, and all bytes put out by the slave and read by the host. */
  datatype RxWorld = RxWorld(rxByteCount: nat, produced: nat, consumed: nat)

  /** The slave puts out bytes, or the host reads a packet; `high` are the register's bits above the counter. */
  datatype RxEvent = Produce(more: nat) | Read(high: nat, failAt: Option<nat>)

  /** `read_packet` consumes what its completed transfers carried. */
  function RxStep(w: RxWorld, e: RxEvent): (w': RxWorld)
    requires w.rxByteCount < ESP_RX_BYTE_MAX
    ensures w'.rxByteCount < ESP_RX_BYTE_MAX
  {
    match e
    case Produce(more) => w.(produced := w.produced + more)
    case Read(high, failAt) =>
      var len := Backlog(LenReg(w.produced, high), w.rxByteCount);
      if len == 0 then w
      else
        var n := Bytes(len, Completed(len, failAt));
        w.(rxByteCount := (w.rxByteCount + n) % ESP_RX_BYTE_MAX, consumed := w.consumed + n)
  }

  /** The length register: the low 20 bits count all bytes put out. */
  function LenReg(produced: nat, high: nat): (reg: nat)
    ensures reg % ESP_RX_BYTE_MAX == produced % ESP_RX_BYTE_MAX
  {
    produced % ESP_RX_BYTE_MAX + ESP_RX_BYTE_MAX * high
  }

  function RxRun(w: RxWorld, es: seq<RxEvent>): (w': RxWorld)
    requires w.rxByteCount < ESP_RX_BYTE_MAX
    ensures w'.rxByteCount < ESP_RX_BYTE_MAX
    decreases |es|
  {
    if es == [] then w else RxRun(RxStep(w, es[0]), es[1..])
  }

  lemma PartRead(w: RxWorld, n: nat)
    requires RxInv(w.rxByteCount, w.produced, w.consumed) && n <= w.produced - w.consumed
    ensures RxInv((w.rxByteCount + n) % ESP_RX_BYTE_MAX, w.produced, w.consumed + n)
  {
    CounterAdds(w.consumed, 0, n);
  }

  lemma RxStepKeeps(w: RxWorld, e: RxEvent)
    requires w.rxByteCount < ESP_RX_BYTE_MAX && RxInv(w.rxByteCount, w.produced, w.consumed)
    ensures var w' := RxStep(w, e); RxInv(w'.rxByteCount, w'.produced, w'.consumed)
  {
    if e.Read? {
      ReceiveLengthIsExact(w.rxByteCount, w.produced, w.consumed);
      var len := Backlog(LenReg(w.produced, e.high), w.rxByteCount);
      assert len == Backlog(w.produced % ESP_RX_BYTE_MAX, w.rxByteCount);
      if len > 0 { PartRead(w, Bytes(len, Completed(len, e.failAt))); }
    }
  }

  /** On every run of output and reads, failing ones included, the host never reads more than was put out. */
  lemma {:induction false} ReadsNeverOverrun(w: RxWorld, es: seq<RxEvent>)
    requires w.rxByteCount < ESP_RX_BYTE_MAX && RxInv(w.rxByteCount, w.produced, w.consumed)
    ensures var w' := RxRun(w, es); RxInv(w'.rxByteCount, w'.produced, w'.consumed)
    decreases |es|
  {
    if es != [] {
      RxStepKeeps(w, es[0]);
      ReadsNeverOverrun(RxStep(w, es[0]), es[1..]);
    }
  }

  /** After any such run, a read without a failure takes all that is there exactly if that is below 2^20. */
  lemma ReadCatchesUpIff(w: RxWorld, es: seq<RxEvent>, high: nat)
    requires w.rxByteCount < ESP_RX_BYTE_MAX && RxInv(w.rxByteCount, w.produced, w.consumed)
    ensures var w1 := RxRun(w, es);
            var w2 := RxStep(w1, Read(high, None));
            w2.consumed == w2.produced <==> w1.produced - w1.consumed < ESP_RX_BYTE_MAX
  {
    ReadsNeverOverrun(w, es);
    var w1 := RxRun(w, es);
    ReceiveLengthIsExact(w1.rxByteCount, w1.produced, w1.consumed);
    assert Backlog(LenReg(w1.produced, high), w1.rxByteCount) ==
           Backlog(w1.produced % ESP_RX_BYTE_MAX, w1.rxByteCount);
  }
}
