/** Histories of the command channel: who was sent, in which order, and who cleared the slot. */
module CommandChannelHistory {
  import opened Basics
  import opened Queues
  import opened CommandChannel
  import opened CommandChannelProofs
  import opened CommandLedger

  /** The checkouts waiting in queue `q`, in order. */
  function TokensOf(q: seq<nat>, token: seq<nat>): (r: seq<nat>)
    requires forall i :: 0 <= i < |q| ==> q[i] < |token|
    ensures |r| == |q| && forall i :: 0 <= i < |q| ==> r[i] == token[q[i]]
  {
    if q == [] then [] else [token[q[0]]] + TokensOf(q[1..], token)
  }

  lemma {:induction false} TokensOfRemove(q: seq<nat>, token: seq<nat>, n: nat)
    requires n < |token| && forall i :: 0 <= i < |q| ==> q[i] < |token|
    requires forall i :: 0 <= i < |q| && token[q[i]] == token[n] ==> q[i] == n
    ensures forall i :: 0 <= i < |Remove(q, n)| ==> 0 <= Remove(q, n)[i] < |token|
    ensures TokensOf(Remove(q, n), token) == Remove(TokensOf(q, token), token[n])
  {
    if q != [] {
      TokensOfRemove(q[1..], token, n);
      assert TokensOf(q, token)[1..] == TokensOf(q[1..], token);
      if q[0] != n {
        var r := Remove(q[1..], n);
        assert ([q[0]] + r)[1..] == r;
      }
    }
  }

  function Waiting(w: World): seq<nat>
    requires Shaped(w)
  {
    TokensOf(w.ch.pendingQ, w.h.token)
  }

  // ---- Every queued checkout is sent, waiting or withdrawn ----

  ghost predicate Accounted(w: World)
    requires Shaped(w)
  {
    Ledger(w.h.queued, w.h.dispatched, Waiting(w), w.h.withdrawn)
  }

  ghost predicate Fifo(w: World)
    requires Shaped(w)
  {
    Ordered(w.h.queued, w.h.dispatched, Waiting(w), w.h.withdrawn)
  }

  /** A caller that has not queued its node holds a number that no history mentions. */
  ghost predicate FreshTokens(w: World)
    requires Shaped(w)
  {
    && (forall t :: t in w.h.queued ==> t <= w.h.issued)
    && (forall n :: 0 <= n < |w.ch.pool| && w.h.stage[n] in {CheckedOut, Prepared} ==> w.h.token[n] !in w.h.queued)
  }

  predicate DefaultPriority(e: Event) {
    e.DoQueue? ==> !e.high
  }

  lemma InitHistory()
    ensures Accounted(Init()) && Fifo(Init()) && FreshTokens(Init()) && FlightsOk(Init())
  {
  }

  lemma PendingTokensDiffer(w: World, n: nat)
    requires Inv(w) && n < |w.ch.pool|
    ensures forall i :: 0 <= i < |w.ch.pendingQ| && w.h.token[w.ch.pendingQ[i]] == w.h.token[n] ==>
              w.ch.pendingQ[i] == n
  {
    forall i | 0 <= i < |w.ch.pendingQ| && w.h.token[w.ch.pendingQ[i]] == w.h.token[n]
      ensures w.ch.pendingQ[i] == n
    {
      assert w.ch.pendingQ[i] in w.ch.pendingQ;
      assert w.h.token[w.ch.pendingQ[i]] != 0;
    }
  }

  lemma TokensOfQueue(q: seq<nat>, token: seq<nat>, n: nat, high: bool)
    requires n < |token| && forall i :: 0 <= i < |q| ==> q[i] < |token|
    ensures TokensOf(if high then [n] + q else q + [n], token) ==
            if high then [token[n]] + TokensOf(q, token) else TokensOf(q, token) + [token[n]]
  {
    var q' := if high then [n] + q else q + [n];
    assert forall i :: 0 <= i < |q'| ==> q'[i] < |token|;
  }

  lemma QueueLine(w: World, n: nat, high: bool)
    requires Shaped(w) && Enabled(w, DoQueue(n, high))
    ensures var w' := Step(w, DoQueue(n, high));
            && Shaped(w')
            && Waiting(w') == if high then [w.h.token[n]] + Waiting(w) else Waiting(w) + [w.h.token[n]]
  {
    TokensOfQueue(w.ch.pendingQ, w.h.token, n, high);
  }

  lemma QueueAccounts(w: World, n: nat, high: bool)
    requires Shaped(w) && Enabled(w, DoQueue(n, high)) && Accounted(w) && FreshTokens(w)
    ensures Shaped(Step(w, DoQueue(n, high))) && Accounted(Step(w, DoQueue(n, high)))
    ensures Fifo(w) && !high ==> Fifo(Step(w, DoQueue(n, high)))
  {
    var queued, sent, line, gone := w.h.queued, w.h.dispatched, Waiting(w), w.h.withdrawn;
    var t := w.h.token[n];
    QueueLine(w, n, high);
    assert t !in queued;
    Append(queued, sent, line, gone, t, high);
    if Fifo(w) && !high { AppendInOrder(queued, sent, line, gone, t); }
  }

  lemma WorkAccounts(w: World)
    requires Shaped(w) && w.ch.Dispatches() && Accounted(w) && Shaped(Step(w, DoWork(true)))
    ensures Accounted(Step(w, DoWork(true)))
    ensures Fifo(w) ==> Fifo(Step(w, DoWork(true)))
  {
    var t, line' := w.h.token[w.ch.pendingQ[0]], Waiting(Step(w, DoWork(true)));
    assert Waiting(w) == [t] + line';
    Send(w.h.queued, w.h.dispatched, line', w.h.withdrawn, t);
  }

  lemma ResetAccounts(w: World, n: nat)
    requires Shaped(w) && Enabled(w, DoReset(n)) && Accounted(w)
    requires w.ch.pool[n].inCmdQueue && n in w.ch.pendingQ
    requires forall i :: 0 <= i < |w.ch.pendingQ| && w.h.token[w.ch.pendingQ[i]] == w.h.token[n] ==>
               w.ch.pendingQ[i] == n
    ensures Shaped(Step(w, DoReset(n))) && Accounted(Step(w, DoReset(n)))
    ensures Fifo(w) ==> Fifo(Step(w, DoReset(n)))
  {
    var t := w.h.token[n];
    TokensOfRemove(w.ch.pendingQ, w.h.token, n);
    var i :| 0 <= i < |w.ch.pendingQ| && w.ch.pendingQ[i] == n;
    assert Waiting(w)[i] == t;
    Withdraw(w.h.queued, w.h.dispatched, Waiting(w), w.h.withdrawn, t);
  }

  /** No other critical section moves the waiting line. */
  lemma LineStays(w: World, e: Event)
    requires Inv(w) && Enabled(w, e) && Shaped(Step(w, e))
    requires !e.DoQueue? && !(e.DoWork? && w.ch.Dispatches()) && !(e.DoReset? && w.ch.pool[e.n].inCmdQueue)
    ensures Waiting(Step(w, e)) == Waiting(w)
  {
    if e.DoCheckout? && w.ch.freeQ != [] {
      assert w.ch.freeQ[0] in w.ch.freeQ && w.ch.freeQ[0] !in w.ch.pendingQ;
    }
    if e.DoWork? && w.ch.pendingQ != [] { PendingHeadIsSendable(w); }
  }

  /** One critical section keeps the ledger, and keeps the order if it queues at default priority. */
  lemma StepAccounts(w: World, e: Event)
    requires Inv(w) && Accounted(w) && FreshTokens(w) && Enabled(w, e) && !FailedSend(w, e) && Shaped(Step(w, e))
    ensures Accounted(Step(w, e))
    ensures Fifo(w) && DefaultPriority(e) ==> Fifo(Step(w, e))
  {
    if e.DoQueue? {
      QueueAccounts(w, e.n, e.high);
    } else if e.DoWork? && w.ch.Dispatches() {
      WorkAccounts(w);
    } else if e.DoReset? && w.ch.pool[e.n].inCmdQueue {
      PendingTokensDiffer(w, e.n);
      ResetAccounts(w, e.n);
    } else {
      LineStays(w, e);
    }
  }

  lemma StepKeepsFresh(w: World, e: Event)
    requires Inv(w) && FreshTokens(w) && Enabled(w, e) && Shaped(Step(w, e))
    ensures FreshTokens(Step(w, e))
  {
    var w' := Step(w, e);
    if e.DoQueue? {
      assert forall s :: s in w'.h.queued <==> s == w.h.token[e.n] || s in w.h.queued;
    }
  }

  // ---- Single flight ----

  /** Sends and owner releases alternate, each release carrying its send's number modulo 2^32. */
  ghost predicate Alternate(f: seq<Flight>) {
    forall i :: 0 <= i < |f| ==>
      && (f[i].Sent? <==> i % 2 == 0)
      && (i % 2 == 1 ==> f[i].token % TWO_32 == f[i - 1].token % TWO_32)
  }

  ghost predicate FlightsOk(w: World)
    requires Shaped(w)
  {
    var f := w.h.flights;
    && Alternate(f)
    && (w.ch.curCmd.Some? <==> |f| % 2 == 1)
    && (w.ch.curCmd.Some? ==> f[|f| - 1] == Sent(w.h.curToken))
    && |w.h.dispatched| == (|f| + 1) / 2
    && (forall i :: 0 <= i < |f| && i % 2 == 0 ==> w.h.dispatched[i / 2] == f[i].token)
    && (forall i :: 0 <= i < |f| ==> f[i].token <= w.h.issued)
  }

  lemma SendFlies(w: World)
    requires Shaped(w) && w.ch.Dispatches() && FlightsOk(w)
    requires w.h.token[w.ch.pendingQ[0]] <= w.h.issued && Shaped(Step(w, DoWork(true)))
    ensures FlightsOk(Step(w, DoWork(true)))
  {
  }

  lemma AlternateAppend(f: seq<Flight>, t: nat)
    requires Alternate(f) && |f| % 2 == 1 && f[|f| - 1].token % TWO_32 == t % TWO_32
    ensures Alternate(f + [Cleared(t)])
  {
  }

  lemma ReleaseFlies(w: World, n: nat)
    requires Shaped(w) && Enabled(w, DoRelease(n)) && FlightsOk(w) && w.h.token[n] <= w.h.issued
    requires w.ch.Owns(n) ==> w.h.token[n] % TWO_32 == w.h.curToken % TWO_32
    ensures Shaped(Step(w, DoRelease(n))) && FlightsOk(Step(w, DoRelease(n)))
  {
    if w.ch.Owns(n) {
      AlternateAppend(w.h.flights, w.h.token[n]);
    }
  }

  /** One critical section keeps sends and releases alternating. */
  lemma StepFlies(w: World, e: Event)
    requires Inv(w) && FlightsOk(w) && Enabled(w, e) && !FailedSend(w, e) && Shaped(Step(w, e))
    ensures FlightsOk(Step(w, e))
  {
    if e.DoWork? {
      if w.ch.Dispatches() {
        SendFlies(w);
      } else if w.ch.pendingQ != [] {
        PendingHeadIsSendable(w);
      }
    } else if e.DoRelease? {
      ReleaseFlies(w, e.n);
    }
  }
}
