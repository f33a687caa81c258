/** What every interleaving of the command channel's critical sections keeps. */
module CommandChannelProofs {
  import opened Basics
  import opened Queues
  import opened CommandChannel

  // ---- Invariant at lock granularity ----

  /** Each node is in the free queue, in the pending queue or in its caller's hands; never twice. */
  ghost predicate Partition(w: World)
    requires Shaped(w)
  {
    && NoDup(w.ch.freeQ) && NoDup(w.ch.pendingQ)
    && (forall n :: 0 <= n < |w.ch.pool| ==> (n in w.ch.freeQ <==> w.h.stage[n] == Idle))
    && (forall n :: 0 <= n < |w.ch.pool| && n in w.ch.pendingQ ==> w.h.stage[n] in {Queued, Released})
  }

  /** What the fields of a node say about its place. */
  predicate NodeOk(x: Node, stage: Stage, pending: bool, code: nat) {
    match stage
    case CheckedOut => x.cmdSkb && x.inCmdQueue
    case Prepared => x.cmdSkb && x.inCmdQueue && x.cmdCode == code != 0
    case Queued => x.cmdCode == code != 0 && (x.inCmdQueue <==> pending) && (x.inCmdQueue ==> x.cmdSkb)
    case Released => x.cmdCode == code != 0 && (x.inCmdQueue <==> pending) && (x.inCmdQueue ==> x.cmdSkb)
    case Scrubbed => x.cmdCode == 0 && !x.cmdSkb
    case Idle => x.cmdCode == 0 && !x.cmdSkb
  }

  ghost predicate Flags(w: World)
    requires Shaped(w)
  {
    forall n :: 0 <= n < |w.ch.pool| ==> NodeOk(w.ch.pool[n], w.h.stage[n], n in w.ch.pendingQ, w.h.code[n])
  }

  /** Checkout numbers are never reused and `cmd_seq` is their low 32 bits. */
  ghost predicate Tokens(w: World)
    requires Shaped(w)
  {
    && w.ch.seqCtr == w.h.issued % TWO_32
    && (forall n :: 0 <= n < |w.ch.pool| ==>
          w.h.token[n] <= w.h.issued && w.ch.pool[n].cmdSeq == w.h.token[n] % TWO_32)
    && (forall n, m :: 0 <= n < m < |w.ch.pool| && w.h.token[n] == w.h.token[m] ==> w.h.token[n] == 0)
    && (forall n :: 0 <= n < |w.ch.pool| && w.h.stage[n] != Idle ==> w.h.token[n] != 0)
  }

  /** The command in flight was sent under checkout `curToken`; its node is not queued or marked, its skb given up. */
  ghost predicate InFlight(w: World)
    requires Shaped(w)
  {
    w.ch.curCmd.Some? ==>
      var n := w.ch.curCmd.value;
      && w.ch.curSeq == w.h.curToken % TWO_32
      && 0 < w.h.curToken <= w.h.token[n]
      && (forall m :: 0 <= m < |w.ch.pool| && m != n ==> w.h.token[m] != w.h.curToken)
      && (w.h.token[n] == w.h.curToken ==>
            w.h.stage[n] !in {CheckedOut, Prepared} && n !in w.ch.pendingQ
            && !w.ch.pool[n].inCmdQueue && !w.ch.pool[n].cmdSkb)
  }

  ghost predicate Inv(w: World) {
    Shaped(w) && Partition(w) && Flags(w) && Tokens(w) && InFlight(w)
  }

  lemma InitInv()
    ensures Inv(Init())
  {
    var w := Init();
    forall n | 0 <= n < |w.ch.pool| ensures n in w.ch.freeQ { assert w.ch.freeQ[n] == n; }
  }

  /** A send that fails: the work queue then recycles a node that its waiter still holds. */
  predicate FailedSend(w: World, e: Event)
    requires Shaped(w)
  {
    e.DoWork? && !e.sendOk && w.ch.Dispatches()
  }

  lemma CheckoutPlaces(w: World)
    requires Inv(w) && w.ch.freeQ != []
    ensures var w' := Step(w, DoCheckout); Shaped(w') && Partition(w') && Flags(w')
  {
    var w' := Step(w, DoCheckout);
    var n := w.ch.freeQ[0];
    assert w.ch.freeQ == [n] + w'.ch.freeQ;
    assert n !in w'.ch.freeQ;
    assert w.h.stage[n] == Idle;
    assert n !in w.ch.pendingQ;
  }

  lemma CheckoutNumbers(w: World)
    requires Inv(w) && w.ch.freeQ != [] && Shaped(Step(w, DoCheckout))
    ensures var w' := Step(w, DoCheckout); Tokens(w') && InFlight(w')
  {
    assert w.ch.freeQ[0] in w.ch.freeQ;
  }

  lemma CheckoutKeeps(w: World)
    requires Inv(w)
    ensures Inv(Step(w, DoCheckout))
  {
    if w.ch.freeQ != [] {
      CheckoutPlaces(w);
      CheckoutNumbers(w);
    }
  }

  lemma QueueKeeps(w: World, n: nat, high: bool)
    requires Inv(w) && Enabled(w, DoQueue(n, high))
    ensures Inv(Step(w, DoQueue(n, high)))
  {
    var w' := Step(w, DoQueue(n, high));
    assert n !in w.ch.pendingQ;
    assert forall m :: m in w'.ch.pendingQ <==> m == n || m in w.ch.pendingQ;
  }

  /** The head of the pending queue always holds a command: the source's "never" branch is dead. */
  lemma PendingHeadIsSendable(w: World)
    requires Inv(w) && w.ch.pendingQ != []
    ensures w.ch.pool[w.ch.pendingQ[0]].cmdSkb && w.ch.pool[w.ch.pendingQ[0]].cmdCode != 0
    ensures w.ch.pool[w.ch.pendingQ[0]].inCmdQueue
  {
    assert w.ch.pendingQ[0] in w.ch.pendingQ;
  }

  lemma WorkKeeps(w: World, sendOk: bool)
    requires Inv(w) && !FailedSend(w, DoWork(sendOk))
    ensures Inv(Step(w, DoWork(sendOk)))
  {
    if w.ch.curCmd.None? && w.ch.pendingQ != [] {
      PendingHeadIsSendable(w);
      var w' := Step(w, DoWork(sendOk));
      var n := w.ch.pendingQ[0];
      assert w.ch.pendingQ == [n] + w'.ch.pendingQ;
      assert n !in w'.ch.pendingQ;
      assert w.h.stage[n] in {Queued, Released};
    }
  }

  lemma ResetPlaces(w: World, n: nat)
    requires Inv(w) && Enabled(w, DoReset(n))
    ensures var w' := Step(w, DoReset(n)); Shaped(w') && Partition(w') && Flags(w')
  {
    RemoveNoDup(w.ch.pendingQ, n);
    var w' := Step(w, DoReset(n));
    assert forall m :: m in w'.ch.pendingQ <==> m in w.ch.pendingQ && m != n;
  }

  lemma ResetNumbers(w: World, n: nat)
    requires Inv(w) && Enabled(w, DoReset(n)) && Shaped(Step(w, DoReset(n)))
    ensures var w' := Step(w, DoReset(n)); Tokens(w') && InFlight(w')
  {
  }

  lemma ResetKeeps(w: World, n: nat)
    requires Inv(w) && Enabled(w, DoReset(n))
    ensures Inv(Step(w, DoReset(n)))
  {
    ResetPlaces(w, n);
    ResetNumbers(w, n);
  }

  lemma SetCodeKeeps(w: World, n: nat, code: nat)
    requires Inv(w) && Enabled(w, DoSetCode(n, code))
    ensures Inv(Step(w, DoSetCode(n, code)))
  {
  }

  lemma ResponseKeeps(w: World, skb: nat)
    requires Inv(w)
    ensures Inv(Step(w, DoResponse(skb)))
  {
  }

  lemma ReleaseKeeps(w: World, n: nat)
    requires Inv(w) && Enabled(w, DoRelease(n))
    ensures Inv(Step(w, DoRelease(n)))
  {
  }

  lemma EnfreeKeeps(w: World, n: nat)
    requires Inv(w) && Enabled(w, DoEnfree(n))
    ensures Inv(Step(w, DoEnfree(n)))
  {
    assert n !in w.ch.freeQ;
  }

  /** The waiter of a failed send is left holding a node that is also free. */
  lemma FailedSendBreaks(w: World)
    requires Inv(w) && FailedSend(w, DoWork(false))
    ensures !Partition(Step(w, DoWork(false)))
  {
    var n := w.ch.pendingQ[0];
    assert n in w.ch.pendingQ;
    var w' := Step(w, DoWork(false));
    assert w'.ch.freeQ[|w'.ch.freeQ| - 1] == n;
    assert w'.h.stage[n] != Idle;
  }

  /** One critical section keeps the invariant exactly when it is not a failing send. */
  lemma StepKeepsInv(w: World, e: Event)
    requires Inv(w) && Enabled(w, e)
    ensures Inv(Step(w, e)) <==> !FailedSend(w, e)
  {
    match e
    case DoCheckout => CheckoutKeeps(w);
    case DoSetCode(n, code) => SetCodeKeeps(w, n, code);
    case DoQueue(n, high) => QueueKeeps(w, n, high);
    case DoWork(sendOk) =>
      if FailedSend(w, e) { FailedSendBreaks(w); } else { WorkKeeps(w, sendOk); }
    case DoResponse(skb) => ResponseKeeps(w, skb);
    case DoRelease(n) => ReleaseKeeps(w, n);
    case DoReset(n) => ResetKeeps(w, n);
    case DoEnfree(n) => EnfreeKeeps(w, n);
  }
}
