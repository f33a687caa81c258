/**
 The SPI transport (esp_spi.c): three priority classes each way and a pause/resume counter.
 `Write`, `Take` and `Accept` are single steps; in the driver the counter and the queues are
 separately atomic, so this is an assumption.
 */
module SpiTransport {
  import opened Basics
  import F = Framing

  const PRIO_Q_HIGH: nat := 0
  const PRIO_Q_MID: nat := 1
  const PRIO_Q_LOW: nat := 2
  const MAX_PRIORITY_QUEUES: nat := 3
  const TX_MAX_PENDING_COUNT: nat := 100
  const TX_RESUME_THRESHOLD: nat := TX_MAX_PENDING_COUNT / 5

  /** An outgoing skb: `dev` is the network device behind `cb->priv`, if any. */
  datatype TxSkb = TxSkb(id: nat, ifType: nat, dev: Option<nat>, len: nat)

  datatype RxSkb = RxSkb(id: nat, data: seq<byte>)

  datatype Ret = Ok | Einval | Eperm | Ebusy

  /**
   `spi_context`, `tx_pending`, `data_path`, the set of stopped network queues, and what `dev_kfree_skb` was called on:
   outgoing skbs, and received ones by their id.
   */
  datatype Spi = Spi(
    txQ: seq<seq<TxSkb>>,
    rxQ: seq<seq<RxSkb>>,
    txPending: nat,
    dataPath: bool,
    paused: set<nat>,
    freed: multiset<TxSkb>,
    rxFreed: multiset<nat>)
  {
    predicate Valid() { |txQ| == |rxQ| == MAX_PRIORITY_QUEUES }
  }

  function Lane(ifType: nat): (p: nat)
    ensures p < MAX_PRIORITY_QUEUES
  {
    if ifType == F.ESP_INTERNAL_IF then PRIO_Q_HIGH
    else if ifType == F.ESP_HCI_IF then PRIO_Q_MID
    else PRIO_Q_LOW
  }

  /** The highest class with something in it. */
  function FirstLane<T>(q: seq<seq<T>>): (p: Option<nat>)
    requires |q| == MAX_PRIORITY_QUEUES
    ensures p.Some? ==> p.value < |q| && q[p.value] != [] && forall i :: 0 <= i < p.value ==> q[i] == []
    ensures p.None? ==> forall i :: 0 <= i < |q| ==> q[i] == []
  {
    if q[PRIO_Q_HIGH] != [] then Some(PRIO_Q_HIGH)
    else if q[PRIO_Q_MID] != [] then Some(PRIO_Q_MID)
    else if q[PRIO_Q_LOW] != [] then Some(PRIO_Q_LOW)
    else None
  }

  /** `write_packet`: why an skb would be refused. */
  function Verdict(s: Spi, skb: TxSkb): Ret {
    if skb.len == 0 then Einval
    else if skb.len > F.SPI_BUF_SIZE - F.HEADER_SIZE then Eperm
    else if !s.dataPath then Eperm
    else if skb.dev.Some? && s.txPending >= TX_MAX_PENDING_COUNT then Ebusy
    else Ok
  }

  function Write(s: Spi, skb: TxSkb): (r: Spi)
    requires s.Valid()
    ensures r.Valid()
  {
    match Verdict(s, skb)
    case Ok =>
      var p := Lane(skb.ifType);
      s.(txQ := s.txQ[p := s.txQ[p] + [skb]], txPending := if p == PRIO_Q_LOW then s.txPending + 1 else s.txPending)
    case Ebusy => s.(paused := s.paused + {skb.dev.value}, freed := s.freed + multiset{skb})
    case _ => s.(freed := s.freed + multiset{skb})
  }

  /** The dequeue in `esp_spi_work`: any class decrements the counter, and may resume its device. */
  function Take(s: Spi): (r: Spi)
    requires s.Valid() && FirstLane(s.txQ).Some?
    ensures r.Valid()
  {
    var p := FirstLane(s.txQ).value;
    var skb := s.txQ[p][0];
    var pending := if s.txPending > 0 then s.txPending - 1 else 0;
    s.(txQ := s.txQ[p := s.txQ[p][1..]],
       txPending := pending,
       paused := if skb.dev.Some? && pending < TX_RESUME_THRESHOLD then s.paused - {skb.dev.value} else s.paused)
  }

  /** `process_rx_buf`: what is queued for `read_packet`, if anything. */
  function Accepted(s: Spi, rx: RxSkb): Option<RxSkb>
    requires |rx.data| == F.SPI_BUF_SIZE
  {
    var t := F.Trimmed(rx.data);
    if t.Some? && s.dataPath then Some(RxSkb(rx.id, t.value)) else None
  }

  function Accept(s: Spi, rx: RxSkb): (r: Spi)
    requires s.Valid() && |rx.data| == F.SPI_BUF_SIZE
    ensures r.Valid()
  {
    if Accepted(s, rx).None? then s
    else
      var p := Lane(F.IfTypeOf(rx.data));
      s.(rxQ := s.rxQ[p := s.rxQ[p] + [Accepted(s, rx).value]])
  }

  predicate Takes(s: Spi, transReady: bool)
    requires s.Valid()
  {
    transReady && s.dataPath && FirstLane(s.txQ).Some?
  }

  /** Does `esp_spi_work` run a transfer? */
  predicate Transfers(s: Spi, transReady: bool, rxPending: bool)
    requires s.Valid()
  {
    transReady && (rxPending || Takes(s, transReady))
  }

  /** The transfer of `tx`: the received buffer is queued or freed, `tx` is freed either way. */
  function Transfer(s: Spi, tx: TxSkb, xferOk: bool, rx: RxSkb): (r: Spi)
    requires s.Valid() && |rx.data| == F.SPI_BUF_SIZE
    ensures r.Valid()
  {
    var s1 := if xferOk && Accepted(s, rx).Some? then Accept(s, rx) else s.(rxFreed := s.rxFreed + multiset{rx.id});
    s1.(freed := s1.freed + multiset{tx})
  }

  /**
   `esp_spi_work`, given the two GPIO levels, the transfer's outcome, the buffer `rx` it clocks in and the `blank` one
   it sends when nothing is queued.
   */
  function Work(s: Spi, transReady: bool, rxPending: bool, xferOk: bool, rx: RxSkb, blank: TxSkb): (r: Spi)
    requires s.Valid() && |rx.data| == F.SPI_BUF_SIZE
    ensures r.Valid()
  {
    if Takes(s, transReady) then Transfer(Take(s), s.txQ[FirstLane(s.txQ).value][0], xferOk, rx)
    else if Transfers(s, transReady, rxPending) then Transfer(s, blank, xferOk, rx)
    else s
  }

  function Read(s: Spi): (r: Spi)
    requires s.Valid()
    ensures r.Valid()
  {
    var p := FirstLane(s.rxQ);
    if !s.dataPath || p.None? then s else s.(rxQ := s.rxQ[p.value := s.rxQ[p.value][1..]])
  }

  function Open(s: Spi): Spi {
    s.(txPending := 0, dataPath := true)
  }

  class SpiContext {
    var txQ: seq<seq<TxSkb>>
    var rxQ: seq<seq<RxSkb>>
    var txPending: nat
    var dataPath: bool
    var paused: set<nat>
    ghost var freed: multiset<TxSkb>
    ghost var rxFreed: multiset<nat>

    ghost function View(): Spi
      reads this
    {
      Spi(txQ, rxQ, txPending, dataPath, paused, freed, rxFreed)
    }

    constructor ()
      ensures View() == Spi([[], [], []], [[], [], []], 0, false, {}, multiset{}, multiset{})
    {
      txQ, rxQ, txPending, dataPath, paused := [[], [], []], [[], [], []], 0, false, {};
      freed, rxFreed := multiset{}, multiset{};
    }

    /** `dev_kfree_skb` on an outgoing skb. */
    ghost method FreeTx(skb: TxSkb)
      modifies `freed
      ensures freed == old(freed) + multiset{skb}
    {
      freed := freed + multiset{skb};
    }

    /** `dev_kfree_skb` on a received skb. */
    ghost method FreeRx(skb: RxSkb)
      modifies `rxFreed
      ensures rxFreed == old(rxFreed) + multiset{skb.id}
    {
      rxFreed := rxFreed + multiset{skb.id};
    }

    method WritePacket(skb: TxSkb) returns (ret: Ret)
      requires View().Valid()
      modifies this
      ensures ret == Verdict(old(View()), skb)
      ensures ret == Einval <==> skb.len == 0
      ensures ret == Eperm <==> skb.len > 1588 || (skb.len > 0 && !dataPath)
      ensures ret == Ebusy <==> 0 < skb.len <= 1588 && dataPath && skb.dev.Some? && old(txPending) >= 100
      ensures ret == Ok ==> freed == old(freed) && paused == old(paused)
      ensures ret == Ok ==> txPending == old(txPending) + (if skb.ifType in {2, 3} then 0 else 1)
      ensures ret == Ok ==> var p := if skb.ifType == 3 then 0 else if skb.ifType == 2 then 1 else 2;
                            txQ == old(txQ)[p := old(txQ)[p] + [skb]]
      ensures ret != Ok ==> txQ == old(txQ) && txPending == old(txPending) && freed == old(freed) + multiset{skb}
      ensures ret != Ok ==> paused == if ret == Ebusy then old(paused) + {skb.dev.value} else old(paused)
      ensures View() == Write(old(View()), skb) && View().Valid()
    {
      var maxPktSize := F.SPI_BUF_SIZE - F.HEADER_SIZE;
      if skb.len == 0 {
        FreeTx(skb);
        return Einval;
      }
      if skb.len > maxPktSize {
        FreeTx(skb);
        return Eperm;
      }
      if !dataPath {
        FreeTx(skb);
        return Eperm;
      }
      if skb.dev.Some? && txPending >= TX_MAX_PENDING_COUNT {
        if skb.dev.value !in paused { paused := paused + {skb.dev.value}; }
        FreeTx(skb);
        return Ebusy;
      }
      if skb.ifType == F.ESP_INTERNAL_IF {
        txQ := txQ[PRIO_Q_HIGH := txQ[PRIO_Q_HIGH] + [skb]];
      } else if skb.ifType == F.ESP_HCI_IF {
        txQ := txQ[PRIO_Q_MID := txQ[PRIO_Q_MID] + [skb]];
      } else {
        txQ := txQ[PRIO_Q_LOW := txQ[PRIO_Q_LOW] + [skb]];
        txPending := txPending + 1;
      }
      return Ok;
    }

    method ProcessRxBuf(rx: RxSkb) returns (ok: bool)
      requires View().Valid() && |rx.data| == F.SPI_BUF_SIZE
      modifies this
      ensures ok <==> Accepted(old(View()), rx).Some?
      ensures View() == Accept(old(View()), rx) && View().Valid()
      ensures ok ==> var n := rx.data[6] as nat + 256 * rx.data[7] as nat + rx.data[4] as nat + 256 * rx.data[5] as nat;
                     var t := rx.data[0] as nat % 16;
                     var p := if t == 3 then 0 else if t == 2 then 1 else 2;
                     n <= 1600 && rxQ == old(rxQ)[p := old(rxQ)[p] + [RxSkb(rx.id, rx.data[..n])]]
      ensures !ok ==> View() == old(View())
    {
      var skb := new F.SkBuff(rx.data);
      var fits := F.TrimRxBuf(skb);
      if !fits { return false; }
      if !dataPath { return false; }
      var queued := RxSkb(rx.id, skb.data);
      if F.IfTypeOf(rx.data) == F.ESP_INTERNAL_IF {
        rxQ := rxQ[PRIO_Q_HIGH := rxQ[PRIO_Q_HIGH] + [queued]];
      } else if F.IfTypeOf(rx.data) == F.ESP_HCI_IF {
        rxQ := rxQ[PRIO_Q_MID := rxQ[PRIO_Q_MID] + [queued]];
      } else {
        rxQ := rxQ[PRIO_Q_LOW := rxQ[PRIO_Q_LOW] + [queued]];
      }
      return true;
    }

    /** The dequeue at the start of `esp_spi_work`, with the counter and the resume. */
    method Dequeue() returns (txSkb: Option<TxSkb>)
      requires View().Valid()
      modifies this
      ensures View().Valid()
      ensures var s := old(View());
              if s.dataPath && FirstLane(s.txQ).Some?
              then View() == Take(s) && txSkb == Some(s.txQ[FirstLane(s.txQ).value][0])
              else View() == s && txSkb == None
      ensures txSkb.Some? ==> txPending == if old(txPending) > 0 then old(txPending) - 1 else 0
      ensures txSkb.Some? ==> var dev := txSkb.value.dev;
                              paused == if dev.Some? && txPending < 20 then old(paused) - {dev.value} else old(paused)
    {
      txSkb := None;
      if dataPath {
        var p := if txQ[PRIO_Q_HIGH] != [] then PRIO_Q_HIGH
                 else if txQ[PRIO_Q_MID] != [] then PRIO_Q_MID else PRIO_Q_LOW;
        if txQ[p] != [] {
          txSkb := Some(txQ[p][0]);
          txQ := txQ[p := txQ[p][1..]];
        }
        if txSkb.Some? {
          if txPending > 0 { txPending := txPending - 1; }
          if txSkb.value.dev.Some? && txPending < TX_RESUME_THRESHOLD {
            paused := paused - {txSkb.value.dev.value};
          }
        }
      }
    }

    method SpiWork(transReady: bool, rxPending: bool, xferOk: bool, rx: RxSkb, blank: TxSkb)
      requires View().Valid() && |rx.data| == F.SPI_BUF_SIZE
      modifies this
      ensures View() == Work(old(View()), transReady, rxPending, xferOk, rx, blank) && View().Valid()
    {
      if transReady {
        var txSkb := Dequeue();
        if rxPending || txSkb.Some? {
          if txSkb.None? { txSkb := Some(blank); }
          if !xferOk {
            FreeRx(rx);
            FreeTx(txSkb.value);
          } else {
            var kept := ProcessRxBuf(rx);
            if !kept { FreeRx(rx); }
            FreeTx(txSkb.value);
          }
        }
      }
    }

    method ReadPacket() returns (skb: Option<RxSkb>)
      requires View().Valid()
      modifies this
      ensures View() == Read(old(View())) && View().Valid()
      ensures skb.Some? ==> old(dataPath) && var p := FirstLane(old(rxQ));
                              p.Some? && skb.value == old(rxQ)[p.value][0]
      ensures skb.None? ==> View() == old(View())
    {
      if !dataPath { return None; }
      var p := if rxQ[PRIO_Q_HIGH] != [] then PRIO_Q_HIGH
               else if rxQ[PRIO_Q_MID] != [] then PRIO_Q_MID else PRIO_Q_LOW;
      if rxQ[p] == [] { return None; }
      skb := Some(rxQ[p][0]);
      rxQ := rxQ[p := rxQ[p][1..]];
    }

    method OpenDataPath()
      modifies this
      ensures View() == Open(old(View()))
      ensures txPending == 0 && dataPath && txQ == old(txQ) && rxQ == old(rxQ) && paused == old(paused)
    {
      txPending := 0;
      dataPath := true;
    }
  }
}
