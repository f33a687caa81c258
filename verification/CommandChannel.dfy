/**
 The esp-hosted command channel (esp_cmd.c): a fixed pool of command nodes that move between a
 free queue, a pending queue and the single in-flight slot `curCmd`.

 A `Channel` is what the driver stores.  Each function below is one critical section of the driver.
 A `World` adds what no field of the driver records: how far each caller has got with its node, an
 unbounded number for each checkout, the histories of queueing, dispatching and releasing, and the last response
 received since the last send.
 */
module CommandChannel {
  import opened Basics
  import opened Queues

  const ESP_NUM_OF_CMD_NODES: nat := 20
  const CMD_MAX: nat := 33

  /** `struct command_node`; an skb is present or not (`cmdSkb`) or named by a number (`respSkb`). */
  datatype Node = Node(cmdCode: nat, cmdSkb: bool, respSkb: Option<nat>, inCmdQueue: bool, cmdSeq: nat)

  /** The command part of `struct esp_adapter`; nodes are named by their index in the pool. */
  datatype Channel = Channel(
    pool: seq<Node>,
    freeQ: seq<nat>,
    pendingQ: seq<nat>,
    curCmd: Option<nat>,
    curSeq: nat,
    cmdResp: nat,
    seqCtr: nat)
  {
    predicate WellFormed() {
      && (forall i :: 0 <= i < |freeQ| ==> freeQ[i] < |pool|)
      && (forall i :: 0 <= i < |pendingQ| ==> pendingQ[i] < |pool|)
      && (curCmd.Some? ==> curCmd.value < |pool|)
    }

    /** Would `esp_cmd_work` reach the send? */
    predicate Dispatches()
      requires WellFormed()
    {
      && curCmd.None? && pendingQ != []
      && pool[pendingQ[0]].cmdSkb && pool[pendingQ[0]].cmdCode != 0
    }

    /** The test inside `esp_cmd_release_if_owner`. */
    predicate Owns(n: nat)
      requires n < |pool|
    {
      curCmd == Some(n) && curSeq == pool[n].cmdSeq
    }
  }

  // ---- Critical sections ----

  /** `get_free_cmd_node` with a successful skb allocation; an empty pool changes nothing. */
  function Checkout(c: Channel): Channel
    requires c.WellFormed()
  {
    if c.freeQ == [] then c
    else
      var n := c.freeQ[0];
      var seqNo := (c.seqCtr + 1) % TWO_32;
      c.(freeQ := c.freeQ[1..], seqCtr := seqNo,
         pool := c.pool[n := c.pool[n].(cmdSeq := seqNo, cmdSkb := true, inCmdQueue := true)])
  }

  /** `prepare_command_request` stamps the command code on its own node, outside any lock. */
  function SetCode(c: Channel, n: nat, code: nat): Channel
    requires n < |c.pool|
  {
    c.(pool := c.pool[n := c.pool[n].(cmdCode := code)])
  }

  function Queue(c: Channel, n: nat, high: bool): Channel {
    c.(pendingQ := if high then [n] + c.pendingQ else c.pendingQ + [n])
  }

  /** `esp_cmd_work`, including the branch the source calls impossible and the failing send. */
  function Work(c: Channel, sendOk: bool): Channel
    requires c.WellFormed()
  {
    if c.curCmd.Some? || c.pendingQ == [] then c
    else
      var n := c.pendingQ[0];
      var c1 := c.(pendingQ := c.pendingQ[1..], pool := c.pool[n := c.pool[n].(inCmdQueue := false)]);
      if !c.pool[n].cmdSkb || c.pool[n].cmdCode == 0 then Enfree(Reset(c1, n), n)
      else
        var c2 := c1.(pool := c1.pool[n := c1.pool[n].(cmdSkb := false)],
                      curSeq := c.pool[n].cmdSeq, cmdResp := 0);
        if sendOk then c2.(curCmd := Some(n)) else Enfree(Reset(c2, n), n)
  }

  /** `process_cmd_resp`: the response goes to whatever command is current, or is dropped. */
  function Response(c: Channel, skb: nat): Channel
    requires c.WellFormed()
  {
    if c.curCmd.None? then c
    else
      var n := c.curCmd.value;
      c.(pool := c.pool[n := c.pool[n].(respSkb := Some(skb))], cmdResp := c.pool[n].cmdCode)
  }

  /** `esp_cmd_release_if_owner`. */
  function Release(c: Channel, n: nat): Channel
    requires n < |c.pool|
  {
    if c.Owns(n) then c.(curCmd := None, cmdResp := 0) else c
  }

  /** `reset_cmd_node`: first half of `recycle_cmd_node`. It leaves `in_cmd_queue` as it was. */
  function Reset(c: Channel, n: nat): Channel
    requires n < |c.pool|
  {
    c.(pendingQ := if c.pool[n].inCmdQueue then Remove(c.pendingQ, n) else c.pendingQ,
       pool := c.pool[n := c.pool[n].(cmdCode := 0, cmdSkb := false, respSkb := None)])
  }

  /** The second half of `recycle_cmd_node`. */
  function Enfree(c: Channel, n: nat): Channel {
    c.(freeQ := c.freeQ + [n])
  }

  // ---- Runs ----

  /** How far the caller holding a node has got. */
  datatype Stage = Idle | CheckedOut | Prepared | Queued | Released | Scrubbed

  datatype Flight = Sent(token: nat) | Cleared(token: nat)

  /**
   `token[n]` numbers the latest checkout of node `n`, and `cmd_seq` is that number modulo 2^32; `code[n]` is the command
   its caller asked for.
   */
  datatype History = History(
    stage: seq<Stage>,
    token: seq<nat>,
    code: seq<nat>,
    issued: nat,
    curToken: nat,
    queued: seq<nat>,
    dispatched: seq<nat>,
    withdrawn: set<nat>,
    flights: seq<Flight>,
    lastResp: Option<nat>)

  datatype World = World(ch: Channel, h: History)

  /** One critical section of one caller, of the work queue or of the receive path. */
  datatype Event =
    | DoCheckout
    | DoSetCode(n: nat, code: nat)
    | DoQueue(n: nat, high: bool)
    | DoWork(sendOk: bool)
    | DoResponse(skb: nat)
    | DoRelease(n: nat)
    | DoReset(n: nat)
    | DoEnfree(n: nat)

  /** Node indices are in range and every node has a stage and a token. */
  predicate Shaped(w: World) {
    && w.ch.WellFormed()
    && |w.h.stage| == |w.h.token| == |w.h.code| == |w.ch.pool|
  }

  /** A caller takes its sections in the order of the source; the waiter may give up at any time. */
  predicate Enabled(w: World, e: Event)
    requires Shaped(w)
  {
    match e
    case DoCheckout => true
    case DoSetCode(n, code) => n < |w.ch.pool| && w.h.stage[n] == CheckedOut && 0 < code < CMD_MAX
    case DoQueue(n, _) => n < |w.ch.pool| && w.h.stage[n] == Prepared
    case DoWork(_) => true
    case DoResponse(_) => true
    case DoRelease(n) => n < |w.ch.pool| && w.h.stage[n] == Queued
    case DoReset(n) => n < |w.ch.pool| && w.h.stage[n] == Released
    case DoEnfree(n) => n < |w.ch.pool| && w.h.stage[n] == Scrubbed
  }

  function StepChannel(w: World, e: Event): Channel
    requires Shaped(w) && Enabled(w, e)
  {
    match e
    case DoCheckout => Checkout(w.ch)
    case DoSetCode(n, code) => SetCode(w.ch, n, code)
    case DoQueue(n, high) => Queue(w.ch, n, high)
    case DoWork(sendOk) => Work(w.ch, sendOk)
    case DoResponse(skb) => Response(w.ch, skb)
    case DoRelease(n) => Release(w.ch, n)
    case DoReset(n) => Reset(w.ch, n)
    case DoEnfree(n) => Enfree(w.ch, n)
  }

  function StepHistory(w: World, e: Event): History
    requires Shaped(w) && Enabled(w, e)
  {
    var h := w.h;
    match e
    case DoCheckout =>
      if w.ch.freeQ == [] then h
      else
        var n := w.ch.freeQ[0];
        h.(stage := h.stage[n := CheckedOut], token := h.token[n := h.issued + 1], issued := h.issued + 1)
    case DoSetCode(n, code) => h.(stage := h.stage[n := Prepared], code := h.code[n := code])
    case DoQueue(n, _) => h.(stage := h.stage[n := Queued], queued := h.queued + [h.token[n]])
    case DoWork(sendOk) =>
      if w.ch.Dispatches() && sendOk then
        var t := h.token[w.ch.pendingQ[0]];
        h.(curToken := t, dispatched := h.dispatched + [t], flights := h.flights + [Sent(t)], lastResp := None)
      else h
    case DoResponse(skb) => h.(lastResp := Some(skb))
    case DoRelease(n) =>
      h.(stage := h.stage[n := Released],
         flights := if w.ch.Owns(n) then h.flights + [Cleared(h.token[n])] else h.flights)
    case DoReset(n) =>
      h.(stage := h.stage[n := Scrubbed],
         withdrawn := if w.ch.pool[n].inCmdQueue then h.withdrawn + {h.token[n]} else h.withdrawn)
    case DoEnfree(n) => h.(stage := h.stage[n := Idle])
  }

  function Step(w: World, e: Event): World
    requires Shaped(w) && Enabled(w, e)
  {
    World(StepChannel(w, e), StepHistory(w, e))
  }

  /** The state after `alloc_esp_cmd_pool`. */
  function InitChannel(): Channel {
    Channel(seq(ESP_NUM_OF_CMD_NODES, _ => Node(0, false, None, false, 0)),
            seq(ESP_NUM_OF_CMD_NODES, i => i), [], None, 0, 0, 0)
  }

  function Init(): World {
    World(InitChannel(),
          History(seq(ESP_NUM_OF_CMD_NODES, _ => Idle), seq(ESP_NUM_OF_CMD_NODES, _ => 0),
                  seq(ESP_NUM_OF_CMD_NODES, _ => 0), 0, 0, [], [], {}, [], None))
  }
}
