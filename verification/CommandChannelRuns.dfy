/** Whole runs of the command channel, interleaved at the granularity of its locks. */
module CommandChannelRuns {
  import opened Basics
  import opened Queues
  import opened CommandLedger
  import opened CommandChannel
  import opened CommandChannelProofs
  import opened CommandChannelHistory

  /** Callers keep their order and no send fails. */
  predicate Legal(w: World, es: seq<Event>)
    decreases |es|
  {
    es == [] || (
      && Shaped(w) && Enabled(w, es[0]) && !FailedSend(w, es[0])
      && Legal(Step(w, es[0]), es[1..]))
  }

  function Run(w: World, es: seq<Event>): World
    requires Legal(w, es)
    decreases |es|
  {
    if es == [] then w else Run(Step(w, es[0]), es[1..])
  }

  ghost predicate Good(w: World) {
    Inv(w) && Accounted(w) && FreshTokens(w) && FlightsOk(w)
  }

  lemma StepIsGood(w: World, e: Event)
    requires Good(w) && Enabled(w, e) && !FailedSend(w, e)
    ensures Good(Step(w, e))
    ensures Fifo(w) && DefaultPriority(e) ==> Fifo(Step(w, e))
  {
    StepKeepsInv(w, e);
    StepAccounts(w, e);
    StepKeepsFresh(w, e);
    StepFlies(w, e);
  }

  lemma {:induction false} RunIsGood(w: World, es: seq<Event>)
    requires Good(w) && Legal(w, es)
    ensures Good(Run(w, es))
    ensures Fifo(w) && (forall i :: 0 <= i < |es| ==> DefaultPriority(es[i])) ==> Fifo(Run(w, es))
    decreases |es|
  {
    if es != [] {
      StepIsGood(w, es[0]);
      RunIsGood(Step(w, es[0]), es[1..]);
    }
  }

  ghost predicate Reachable(w: World) {
    exists es :: Legal(Init(), es) && Run(Init(), es) == w
  }

  lemma ReachableIsGood(w: World)
    requires Reachable(w)
    ensures Good(w)
  {
    var es :| Legal(Init(), es) && Run(Init(), es) == w;
    InitInv();
    InitHistory();
    RunIsGood(Init(), es);
  }

  /**
   In every reachable state each node has one place, queues hold no node twice, a queued node is
   marked so and holds a sendable command, and a node sent under its present checkout is not marked.
   */
  lemma QueuePartition(w: World)
    requires Reachable(w)
    ensures Shaped(w) && NoDup(w.ch.freeQ) && NoDup(w.ch.pendingQ)
    ensures forall n :: 0 <= n < |w.ch.pool| ==> (n in w.ch.freeQ <==> w.h.stage[n] == Idle)
    ensures forall n :: 0 <= n < |w.ch.pool| && n in w.ch.pendingQ ==>
              n !in w.ch.freeQ && w.ch.pool[n].inCmdQueue && w.ch.pool[n].cmdSkb && w.ch.pool[n].cmdCode != 0
    ensures w.ch.curCmd.Some? ==>
              var n := w.ch.curCmd.value;
              w.h.token[n] == w.h.curToken ==> !w.ch.pool[n].inCmdQueue
  {
    ReachableIsGood(w);
  }

  /** The branch of `esp_cmd_work` that meets an unsendable command is never taken. */
  lemma NeverBranchIsDead(w: World)
    requires Reachable(w)
    ensures Shaped(w) && (w.ch.curCmd.None? && w.ch.pendingQ != [] ==> w.ch.Dispatches())
  {
    ReachableIsGood(w);
    if w.ch.pendingQ != [] { PendingHeadIsSendable(w); }
  }

  /** Whatever the priorities, nothing is sent twice, lost, or sent after its withdrawal. */
  lemma NothingLost(w: World)
    requires Reachable(w)
    ensures Shaped(w) && Ledger(w.h.queued, w.h.dispatched, Waiting(w), w.h.withdrawn)
  {
    ReachableIsGood(w);
  }

  /** The dispatch history is the queueing history with only the withdrawn commands removed. */
  lemma DispatchOrder(es: seq<Event>)
    requires Legal(Init(), es) && forall i :: 0 <= i < |es| ==> DefaultPriority(es[i])
    ensures var w := Run(Init(), es);
      Shaped(w) && w.h.dispatched + Waiting(w) == Without(w.h.queued, w.h.withdrawn)
  {
    InitInv();
    InitHistory();
    RunIsGood(Init(), es);
  }

  /**
   Single flight: sends and releases strictly alternate, and until the 32-bit counter has wrapped
   each release is made by the very checkout that was sent.
   */
  lemma SingleFlight(w: World)
    requires Reachable(w)
    ensures var f := w.h.flights;
      && (forall i :: 0 <= i < |f| ==> (f[i].Sent? <==> i % 2 == 0))
      && (w.h.issued < TWO_32 ==> forall i :: 0 <= i < |f| && i % 2 == 1 ==> f[i].token == f[i - 1].token)
  {
    ReachableIsGood(w);
    UnwrappedFlights(w.h.flights, w.h.issued);
  }

  lemma UnwrappedFlights(f: seq<Flight>, issued: nat)
    requires Alternate(f) && forall i :: 0 <= i < |f| ==> f[i].token <= issued
    ensures issued < TWO_32 ==> forall i :: 0 <= i < |f| && i % 2 == 1 ==> f[i].token == f[i - 1].token
  {
    if issued < TWO_32 {
      forall i | 0 <= i < |f| && i % 2 == 1 ensures f[i].token == f[i - 1].token {
        assert f[i].token % TWO_32 == f[i - 1].token % TWO_32;
        assert f[i - 1].token <= issued;
      }
    }
  }

  /** A command queued at high priority is the next one to be sent. */
  lemma HighPriorityIsNext(w: World, n: nat)
    requires Good(w) && Enabled(w, DoQueue(n, true)) && w.ch.curCmd.None?
    ensures var w1 := Step(w, DoQueue(n, true));
            && Enabled(w1, DoWork(true)) && Step(w1, DoWork(true)).ch.curCmd == Some(n)
            && Step(w1, DoWork(true)).h.dispatched == w.h.dispatched + [w.h.token[n]]
  {
    StepIsGood(w, DoQueue(n, true));
    PendingHeadIsSendable(Step(w, DoQueue(n, true)));
  }

  // ---- Who may clear the slot ----

  /** A release clears the slot exactly when the caller's number equals the sent one modulo 2^32. */
  lemma ReleaseClearsExactly(w: World, n: nat)
    requires Good(w) && n < |w.ch.pool|
    ensures w.ch.Owns(n) <==>
              w.ch.curCmd == Some(n) && w.h.token[n] % TWO_32 == w.h.curToken % TWO_32
    ensures w.h.issued < w.h.curToken + TWO_32 ==>
              (w.ch.Owns(n) <==> w.ch.curCmd.Some? && w.h.token[n] == w.h.curToken)
  {
    if w.ch.curCmd == Some(n) && w.h.issued < w.h.curToken + TWO_32 {
      SameResidue(w.h.curToken, w.h.token[n]);
    }
  }

  lemma SameResidue(a: nat, b: nat)
    requires a <= b < a + TWO_32
    ensures a % TWO_32 == b % TWO_32 <==> a == b
  {
  }

  /** A waiter whose command was never sent gives up without touching the command in flight. */
  lemma UnsentWaiterIsHarmless(w: World, n: nat)
    requires Good(w) && n < |w.ch.pool| && w.h.token[n] !in w.h.dispatched
    requires w.h.issued < w.h.curToken + TWO_32
    ensures Release(w.ch, n) == w.ch
  {
    ReleaseClearsExactly(w, n);
    if w.ch.curCmd.Some? { CurrentWasSent(w); }
  }

  lemma CurrentWasSent(w: World)
    requires Shaped(w) && FlightsOk(w) && w.ch.curCmd.Some?
    ensures w.h.curToken in w.h.dispatched
  {
    var last := |w.h.flights| - 1;
    assert w.h.dispatched[last / 2] == w.h.flights[last].token;
  }

  lemma WrapResidue(a: nat)
    ensures (a + TWO_32) % TWO_32 == a % TWO_32
  {
  }

  /**
   The bound above is needed: 2^32 checkouts after a node was sent, its new holder carries the same
   `cmd_seq` and its release clears a slot it never owned.
   */
  lemma WrappedCounterAliases(w: World, n: nat)
    requires Good(w) && n < |w.ch.pool| && w.ch.curCmd == Some(n)
    requires w.h.token[n] == w.h.curToken + TWO_32
    ensures w.h.token[n] != w.h.curToken && Release(w.ch, n).curCmd == None
  {
    WrapResidue(w.h.curToken);
    assert w.ch.Owns(n) by { ReleaseClearsExactly(w, n); }
  }

  // ---- The window between a release and its recycle ----

  /** Someone who will release the command in flight is still waiting for it. */
  predicate Attended(w: World)
    requires Shaped(w)
  {
    w.ch.curCmd.Some? ==>
      w.h.stage[w.ch.curCmd.value] == Queued && w.h.token[w.ch.curCmd.value] == w.h.curToken
  }

  /** The work queue sends a command whose waiter has already released and not yet recycled it. */
  predicate LateSend(w: World, e: Event)
    requires Shaped(w)
  {
    e == DoWork(true) && w.ch.Dispatches() && w.h.stage[w.ch.pendingQ[0]] == Released
  }

  /** The facts of the invariant that decide whether a step keeps the slot attended. */
  lemma AttendedKept(w: World, e: Event)
    requires Shaped(w) && Attended(w) && Enabled(w, e) && !FailedSend(w, e) && Shaped(Step(w, e))
    requires e.DoCheckout? && w.ch.freeQ != [] ==> w.h.stage[w.ch.freeQ[0]] == Idle
    requires e.DoWork? && w.ch.curCmd.None? && w.ch.pendingQ != [] ==>
               w.ch.Dispatches() && w.h.stage[w.ch.pendingQ[0]] in {Queued, Released}
    requires e.DoRelease? && w.ch.curCmd == Some(e.n) ==> w.ch.Owns(e.n)
    ensures Attended(Step(w, e)) <==> !LateSend(w, e)
  {
  }

  /** A critical section leaves the slot attended exactly when it is not a late send. */
  lemma AttendedStep(w: World, e: Event)
    requires Good(w) && Attended(w) && Enabled(w, e) && !FailedSend(w, e)
    ensures Good(Step(w, e)) && (Attended(Step(w, e)) <==> !LateSend(w, e))
  {
    StepIsGood(w, e);
    if w.ch.freeQ != [] { assert w.ch.freeQ[0] in w.ch.freeQ; }
    if w.ch.pendingQ != [] {
      PendingHeadIsSendable(w);
      assert w.ch.pendingQ[0] in w.ch.pendingQ;
    }
    AttendedKept(w, e);
  }

  predicate NoLateSend(w: World, es: seq<Event>)
    requires Legal(w, es)
    decreases |es|
  {
    es == [] || (!LateSend(w, es[0]) && NoLateSend(Step(w, es[0]), es[1..]))
  }

  /** Every state the run passes through is attended. */
  ghost predicate AlwaysAttended(w: World, es: seq<Event>)
    requires Legal(w, es)
    decreases |es|
  {
    Shaped(w) && Attended(w) && (es == [] || AlwaysAttended(Step(w, es[0]), es[1..]))
  }

  /** The slot is attended in every state of a run exactly when the run makes no late send. */
  lemma {:induction false} AttendedRun(w: World, es: seq<Event>)
    requires Good(w) && Attended(w) && Legal(w, es)
    ensures NoLateSend(w, es) <==> AlwaysAttended(w, es)
    decreases |es|
  {
    if es != [] {
      AttendedStep(w, es[0]);
      if !LateSend(w, es[0]) {
        AttendedRun(Step(w, es[0]), es[1..]);
      }
    }
  }

  /** The facts of the invariant that keep an abandoned slot as it is. */
  lemma OrphanKept(w: World, e: Event)
    requires Shaped(w) && !Attended(w) && Enabled(w, e) && Shaped(Step(w, e)) && w.h.curToken <= w.h.issued
    requires e.DoQueue? && w.ch.curCmd == Some(e.n) ==> w.h.token[e.n] != w.h.curToken
    requires e.DoRelease? ==> !w.ch.Owns(e.n)
    ensures var w' := Step(w, e);
      && !Attended(w')
      && w'.ch.curCmd == w.ch.curCmd && w'.h.curToken == w.h.curToken && w'.h.dispatched == w.h.dispatched
  {
  }

  lemma OrphanStep(w: World, e: Event)
    requires Good(w) && !Attended(w) && Enabled(w, e) && !FailedSend(w, e)
    requires Step(w, e).h.issued < w.h.curToken + TWO_32
    ensures var w' := Step(w, e);
      && Good(w') && !Attended(w')
      && w'.ch.curCmd == w.ch.curCmd && w'.h.curToken == w.h.curToken && w'.h.dispatched == w.h.dispatched
  {
    StepIsGood(w, e);
    if e.DoRelease? {
      ReleaseClearsExactly(w, e.n);
    }
    OrphanKept(w, e);
  }

  lemma {:induction false} IssuedGrows(w: World, es: seq<Event>)
    requires Legal(w, es)
    ensures w.h.issued <= Run(w, es).h.issued
    decreases |es|
  {
    if es != [] { IssuedGrows(Step(w, es[0]), es[1..]); }
  }

  /**
   After a late send the channel is stuck: the slot is never cleared and nothing is ever sent again,
   whatever callers, work queue and slave do, until 2^32 further checkouts wrap the counter.
   */
  lemma {:induction false} OrphanIsForever(w: World, es: seq<Event>)
    requires Good(w) && !Attended(w) && Legal(w, es)
    requires Run(w, es).h.issued < w.h.curToken + TWO_32
    ensures Run(w, es).ch.curCmd == w.ch.curCmd && Run(w, es).h.dispatched == w.h.dispatched
    decreases |es|
  {
    if es != [] {
      IssuedGrows(Step(w, es[0]), es[1..]);
      OrphanStep(w, es[0]);
      OrphanIsForever(Step(w, es[0]), es[1..]);
    }
  }

  // ---- Runs that exist ----

  /** One run after another is a run. */
  lemma {:induction false} Then(w: World, a: seq<Event>, b: seq<Event>)
    requires Legal(w, a) && Legal(Run(w, a), b)
    ensures Legal(w, a + b) && Run(w, a + b) == Run(Run(w, a), b)
    decreases |a|
  {
    if a == [] {
      assert a + b == b;
    } else {
      assert (a + b)[1..] == a[1..] + b;
      Then(Step(w, a[0]), a[1..], b);
    }
  }

  /** One more step in front of a run. */
  lemma Cons(w: World, e: Event, es: seq<Event>) returns (r: seq<Event>)
    requires Shaped(w) && Enabled(w, e) && !FailedSend(w, e) && Legal(Step(w, e), es)
    ensures r == [e] + es && Legal(w, r) && Run(w, r) == Run(Step(w, e), es)
  {
    r := [e] + es;
    assert r[1..] == es;
  }

  /** The free queue holds node `n` alone and nothing is pending. */
  ghost predicate Alone(w: World, n: nat) {
    && Good(w) && n < |w.ch.pool| && w.ch.freeQ == [n] && w.ch.pendingQ == []
    && w.h.stage[n] == Idle
  }

  lemma HoldOne(w: World, n: nat)
    requires Good(w) && |w.ch.freeQ| > 1 && w.ch.freeQ[|w.ch.freeQ| - 1] == n && w.ch.pendingQ == []
    ensures var w' := Step(w, DoCheckout);
      && Good(w') && w'.ch.freeQ == w.ch.freeQ[1..] && w'.ch.freeQ[|w'.ch.freeQ| - 1] == n
      && w'.ch.pendingQ == [] && w'.ch.curCmd == w.ch.curCmd
  {
    StepIsGood(w, DoCheckout);
  }

  /** Other callers check out every node but the last one. */
  lemma {:induction false} HoldOthers(w: World, n: nat) returns (es: seq<Event>)
    requires Good(w) && w.ch.freeQ != [] && w.ch.freeQ[|w.ch.freeQ| - 1] == n && w.ch.pendingQ == []
    requires w.ch.curCmd.None?
    ensures Legal(w, es) && Alone(Run(w, es), n) && Run(w, es).ch.curCmd.None?
    decreases |w.ch.freeQ|
  {
    if |w.ch.freeQ| == 1 {
      es := [];
      assert n in w.ch.freeQ;
    } else {
      HoldOne(w, n);
      var rest := HoldOthers(Step(w, DoCheckout), n);
      es := Cons(w, DoCheckout, rest);
    }
  }

  /** A command on node `n` from checkout to the pending queue. */
  lemma Submit(w: World, n: nat) returns (es: seq<Event>)
    requires Alone(w, n)
    ensures Legal(w, es) && Good(Run(w, es))
    ensures var w' := Run(w, es);
      && |w'.ch.pool| == |w.ch.pool| && w'.ch.freeQ == [] && w'.ch.pendingQ == [n]
      && w'.h.stage[n] == Queued && w'.h.token[n] == w'.h.issued == w.h.issued + 1
      && w'.ch.curCmd == w.ch.curCmd && w'.h.curToken == w.h.curToken && w'.h.dispatched == w.h.dispatched
  {
    var w1 := Step(w, DoCheckout);
    var w2 := Step(w1, DoSetCode(n, 13));
    var w3 := Step(w2, DoQueue(n, false));
    es := Cons(w2, DoQueue(n, false), []);
    es := Cons(w1, DoSetCode(n, 13), es);
    es := Cons(w, DoCheckout, es);
    RunIsGood(w, es);
  }

  /** A released command is recycled. */
  lemma Recycle(w: World, n: nat) returns (es: seq<Event>)
    requires Good(w) && n < |w.ch.pool| && w.h.stage[n] == Released && w.ch.freeQ == []
    requires w.ch.pendingQ == if w.ch.pool[n].inCmdQueue then [n] else []
    ensures Legal(w, es) && Alone(Run(w, es), n)
    ensures var w' := Run(w, es);
      && |w'.ch.pool| == |w.ch.pool| && w'.ch.curCmd == w.ch.curCmd && w'.h.curToken == w.h.curToken
      && w'.h.token == w.h.token && w'.h.issued == w.h.issued
  {
    assert Remove([n], n) == [];
    var w1 := Step(w, DoReset(n));
    es := Cons(w1, DoEnfree(n), []);
    es := Cons(w, DoReset(n), es);
    RunIsGood(w, es);
  }

  /** The work queue sends a released command. */
  lemma SendReleased(w: World, n: nat)
    requires Good(w) && n < |w.ch.pool| && w.ch.pendingQ == [n] && w.h.stage[n] == Released && w.ch.curCmd.None?
    ensures Enabled(w, DoWork(true)) && !FailedSend(w, DoWork(true)) && Good(Step(w, DoWork(true)))
    ensures var w' := Step(w, DoWork(true));
      && |w'.ch.pool| == |w.ch.pool| && w'.ch.freeQ == w.ch.freeQ && w'.ch.pendingQ == []
      && !w'.ch.pool[n].inCmdQueue && w'.h.stage == w.h.stage && w'.h.token == w.h.token
      && w'.h.issued == w.h.issued && w'.ch.curCmd == Some(n) && w'.h.curToken == w.h.token[n]
  {
    PendingHeadIsSendable(w);
    StepIsGood(w, DoWork(true));
  }

  /** The waiter gives up, the work queue sends its command all the same, and the waiter recycles the node. */
  lemma LateSendOf(w: World, n: nat) returns (es: seq<Event>)
    requires Alone(w, n) && w.ch.curCmd.None?
    ensures Legal(w, es) && Alone(Run(w, es), n)
    ensures var w' := Run(w, es); w'.ch.curCmd == Some(n) && w'.h.curToken == w'.h.token[n] == w'.h.issued
  {
    es := Submit(w, n);
    var w1 := Run(w, es);
    StepIsGood(w1, DoRelease(n));
    var w2 := Step(w1, DoRelease(n));
    SendReleased(w2, n);
    var tail := Recycle(Step(w2, DoWork(true)), n);
    tail := Cons(w2, DoWork(true), tail);
    tail := Cons(w1, DoRelease(n), tail);
    Then(w, es, tail);
    es := es + tail;
  }

  /** A failing send can come about: one command is submitted and its send fails. */
  lemma FailedSendRun() returns (es: seq<Event>)
    ensures Legal(Init(), es)
    ensures var w := Run(Init(), es);
      Good(w) && FailedSend(w, DoWork(false)) && !Partition(Step(w, DoWork(false)))
  {
    var n := ESP_NUM_OF_CMD_NODES - 1;
    InitInv();
    InitHistory();
    es := HoldOthers(Init(), n);
    var tail := Submit(Run(Init(), es), n);
    Then(Init(), es, tail);
    es := es + tail;
    PendingHeadIsSendable(Run(Init(), es));
    FailedSendBreaks(Run(Init(), es));
  }

  /** Such a run exists: it leaves the slot with a command whose node is free. */
  lemma LateSendRun() returns (es: seq<Event>)
    ensures Legal(Init(), es)
    ensures var w := Run(Init(), es);
      Good(w) && !Attended(w) && exists n :: w.ch.curCmd == Some(n) && n in w.ch.freeQ
  {
    var n := ESP_NUM_OF_CMD_NODES - 1;
    InitInv();
    InitHistory();
    es := HoldOthers(Init(), n);
    var tail := LateSendOf(Run(Init(), es), n);
    Then(Init(), es, tail);
    es := es + tail;
    assert n in Run(Init(), es).ch.freeQ;
  }

  /** Node `n`, abandoned in the slot, is used for `k` more commands whose waiters give up. */
  lemma {:induction false} Reuse(w: World, n: nat, k: nat) returns (es: seq<Event>)
    requires Alone(w, n) && w.ch.curCmd == Some(n) && w.h.curToken <= w.h.issued
    requires w.h.issued + k < w.h.curToken + TWO_32
    ensures Legal(w, es) && Alone(Run(w, es), n)
    ensures var w' := Run(w, es);
      w'.ch.curCmd == Some(n) && w'.h.curToken == w.h.curToken && w'.h.issued == w.h.issued + k
    decreases k
  {
    if k == 0 {
      es := [];
    } else {
      es := Submit(w, n);
      var w1 := Run(w, es);
      ReleaseClearsExactly(w1, n);
      StepIsGood(w1, DoRelease(n));
      var tail := Recycle(Step(w1, DoRelease(n)), n);
      tail := Cons(w1, DoRelease(n), tail);
      Then(w, es, tail);
      es := es + tail;
      var rest := Reuse(Run(w, es), n, k - 1);
      Then(w, es, rest);
      es := es + rest;
    }
  }

  /**
   The counter does alias: a run of 2^32 reuses ends with a waiter whose command was never sent, and whose release
   clears the slot of another checkout.
   */
  lemma AliasRun() returns (es: seq<Event>, n: nat)
    ensures Legal(Init(), es)
    ensures var w := Run(Init(), es);
      && Good(w) && n < |w.ch.pool| && Enabled(w, DoRelease(n))
      && w.h.token[n] == w.h.curToken + TWO_32 && w.h.token[n] !in w.h.dispatched
      && w.ch.curCmd == Some(n) && Step(w, DoRelease(n)).ch.curCmd == None
  {
    n := ESP_NUM_OF_CMD_NODES - 1;
    InitInv();
    InitHistory();
    es := HoldOthers(Init(), n);
    var late := LateSendOf(Run(Init(), es), n);
    Then(Init(), es, late);
    es := es + late;
    var reuse := Reuse(Run(Init(), es), n, TWO_32 - 1);
    Then(Init(), es, reuse);
    es := es + reuse;
    var w := Run(Init(), es);
    assert w.h.issued + 1 !in w.h.queued;
    var last := Submit(w, n);
    Then(Init(), es, last);
    es := es + last;
    WrappedCounterAliases(Run(Init(), es), n);
  }
}
