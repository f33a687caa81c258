/**
 The command channel when a waiter's release and recycle are one step.  The driver takes the lock
 separately for the two, so this is an assumption; CommandChannelRuns shows what happens without it.
 */
module CommandChannelAtomic {
  import opened Basics
  import opened Queues
  import opened CommandChannel
  import opened CommandChannelProofs

  datatype Call = Do(e: Event) | Retire(n: nat)

  predicate CallEnabled(w: World, c: Call)
    requires Shaped(w)
  {
    match c
    case Do(e) => !e.DoRelease? && !e.DoReset? && !e.DoEnfree? && Enabled(w, e) && !FailedSend(w, e)
    case Retire(n) => Enabled(w, DoRelease(n))
  }

  /** `esp_cmd_release_if_owner` and `recycle_cmd_node` without interruption. */
  function RetireStep(w: World, n: nat): World
    requires Inv(w) && Enabled(w, DoRelease(n))
  {
    ReleaseKeeps(w, n);
    var w1 := Step(w, DoRelease(n));
    ResetKeeps(w1, n);
    var w2 := Step(w1, DoReset(n));
    Step(w2, DoEnfree(n))
  }

  function CallStep(w: World, c: Call): World
    requires Inv(w) && CallEnabled(w, c)
  {
    match c
    case Do(e) => Step(w, e)
    case Retire(n) => RetireStep(w, n)
  }

  /** The slot holds a live command or is idle, and responses belong to the command in flight only. */
  ghost predicate Settled(w: World)
    requires Shaped(w)
  {
    && (forall n :: 0 <= n < |w.ch.pool| ==>
          && w.h.stage[n] !in {Released, Scrubbed}
          && (w.ch.curCmd != Some(n) ==> w.ch.pool[n].respSkb == None))
    && (w.ch.curCmd.None? ==> w.ch.cmdResp == 0)
    && (w.ch.curCmd.Some? ==>
          var n := w.ch.curCmd.value;
          && w.h.stage[n] == Queued && w.h.token[n] == w.h.curToken
          && n !in w.ch.freeQ && n !in w.ch.pendingQ
          && w.ch.pool[n].cmdSeq == w.ch.curSeq
          && w.h.code[n] != 0 && w.ch.pool[n].respSkb == w.h.lastResp
          && w.ch.cmdResp == if w.h.lastResp.Some? then w.h.code[n] else 0)
  }

  /** Sends and releases alternate, each release carrying its send's number. */
  ghost predicate ExactAlternate(f: seq<Flight>) {
    && (forall i :: 0 <= i < |f| ==> (f[i].Sent? <==> i % 2 == 0))
    && (forall i :: 0 <= i < |f| && i % 2 == 1 ==> f[i].token == f[i - 1].token)
  }

  /** Each release is made by the very checkout that was sent, with no bound on the run. */
  ghost predicate ExactFlights(w: World)
    requires Shaped(w)
  {
    var f := w.h.flights;
    && ExactAlternate(f)
    && (w.ch.curCmd.Some? <==> |f| % 2 == 1)
    && (w.ch.curCmd.Some? ==> f[|f| - 1].token == w.h.curToken)
  }

  /** What the three sections of a retirement add up to. */
  lemma RetireEffect(w: World, n: nat)
    requires Inv(w) && Enabled(w, DoRelease(n))
    ensures var w' := RetireStep(w, n);
      && w'.h.stage == w.h.stage[n := Idle] && w'.h.token == w.h.token && w'.h.code == w.h.code
      && w'.h.curToken == w.h.curToken && w'.h.lastResp == w.h.lastResp
      && w'.ch.pool == w.ch.pool[n := w.ch.pool[n].(cmdCode := 0, cmdSkb := false, respSkb := None)]
      && w'.ch.freeQ == w.ch.freeQ + [n]
      && w'.ch.pendingQ == (if w.ch.pool[n].inCmdQueue then Remove(w.ch.pendingQ, n) else w.ch.pendingQ)
      && w'.ch.curSeq == w.ch.curSeq
      && w'.ch.curCmd == (if w.ch.Owns(n) then None else w.ch.curCmd)
      && w'.ch.cmdResp == (if w.ch.Owns(n) then 0 else w.ch.cmdResp)
      && w'.h.flights == (if w.ch.Owns(n) then w.h.flights + [Cleared(w.h.token[n])] else w.h.flights)
  {
    ReleaseKeeps(w, n);
    ResetKeeps(Step(w, DoRelease(n)), n);
  }

  lemma RetireSettles(w: World, n: nat)
    requires Inv(w) && Settled(w) && Enabled(w, DoRelease(n)) && Shaped(RetireStep(w, n))
    ensures Settled(RetireStep(w, n))
  {
    RetireEffect(w, n);
    var w' := RetireStep(w, n);
    assert w.ch.curCmd == Some(n) ==> w.ch.Owns(n);
    assert forall m :: m in w'.ch.freeQ <==> m in w.ch.freeQ || m == n;
  }

  lemma ExactAppend(f: seq<Flight>, t: nat)
    requires ExactAlternate(f) && |f| % 2 == 1 && f[|f| - 1].token == t
    ensures ExactAlternate(f + [Cleared(t)])
  {
  }

  lemma RetireFlies(w: World, n: nat)
    requires Inv(w) && Settled(w) && ExactFlights(w) && Enabled(w, DoRelease(n)) && Shaped(RetireStep(w, n))
    ensures ExactFlights(RetireStep(w, n))
  {
    RetireEffect(w, n);
    if w.ch.Owns(n) {
      assert w.h.token[n] == w.h.curToken;
      ExactAppend(w.h.flights, w.h.token[n]);
    }
  }

  lemma DoSettles(w: World, e: Event)
    requires Inv(w) && Settled(w) && CallEnabled(w, Do(e))
    ensures Inv(Step(w, e)) && Settled(Step(w, e))
  {
    StepKeepsInv(w, e);
    if e.DoCheckout? && w.ch.freeQ != [] { assert w.ch.freeQ[0] in w.ch.freeQ; }
    if e.DoWork? && w.ch.pendingQ != [] {
      PendingHeadIsSendable(w);
      assert w.ch.pendingQ[0] in w.ch.pendingQ;
    }
  }

  lemma DoFlies(w: World, e: Event)
    requires Inv(w) && ExactFlights(w) && CallEnabled(w, Do(e)) && Shaped(Step(w, e))
    ensures ExactFlights(Step(w, e))
  {
    if e.DoWork? && w.ch.pendingQ != [] { PendingHeadIsSendable(w); }
  }

  predicate LegalCalls(w: World, cs: seq<Call>)
    requires Inv(w)
    decreases |cs|
  {
    cs == [] || (CallEnabled(w, cs[0]) && (CallKeepsInv(w, cs[0]); LegalCalls(CallStep(w, cs[0]), cs[1..])))
  }

  lemma CallKeepsInv(w: World, c: Call)
    requires Inv(w) && CallEnabled(w, c)
    ensures Inv(CallStep(w, c))
  {
    match c
    case Do(e) => StepKeepsInv(w, e);
    case Retire(n) =>
      ReleaseKeeps(w, n);
      ResetKeeps(Step(w, DoRelease(n)), n);
      EnfreeKeeps(Step(Step(w, DoRelease(n)), DoReset(n)), n);
  }

  function RunCalls(w: World, cs: seq<Call>): World
    requires Inv(w) && LegalCalls(w, cs)
    decreases |cs|
  {
    if cs == [] then w else CallKeepsInv(w, cs[0]); RunCalls(CallStep(w, cs[0]), cs[1..])
  }

  /**
   With release and recycle in one step every run, of any length, keeps the slot settled: a current
   command is neither free nor pending and carries the recorded `cmd_seq`; attached to it is the last
   response received since it was sent, if any, and then `cmd_resp` is the code its caller asked for
   and zero otherwise; no other node has a response.
   */
  lemma {:induction false} SettledForever(w: World, cs: seq<Call>)
    requires Inv(w) && Settled(w) && ExactFlights(w) && LegalCalls(w, cs)
    ensures var w' := RunCalls(w, cs); Inv(w') && Settled(w') && ExactFlights(w')
    decreases |cs|
  {
    if cs != [] {
      CallKeepsInv(w, cs[0]);
      match cs[0] {
        case Do(e) => DoSettles(w, e); DoFlies(w, e);
        case Retire(n) => RetireSettles(w, n); RetireFlies(w, n);
      }
      SettledForever(CallStep(w, cs[0]), cs[1..]);
    }
  }

  /** The same for every run from the initial pool. */
  lemma SettledFromInit(cs: seq<Call>)
    requires (InitInv(); LegalCalls(Init(), cs))
    ensures (InitInv(); var w := RunCalls(Init(), cs); Inv(w) && Settled(w) && ExactFlights(w))
  {
    InitInv();
    SettledForever(Init(), cs);
  }
}
