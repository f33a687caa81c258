/** Bookkeeping of checkout numbers: queued, then sent or withdrawn, with the rest still waiting. */
module CommandLedger {
  import opened Queues

  /** Every queued number is sent, waiting or withdrawn, and only one of the three. */
  ghost predicate Ledger(queued: seq<nat>, sent: seq<nat>, waiting: seq<nat>, withdrawn: set<nat>) {
    && NoDup(queued) && NoDup(sent) && NoDup(waiting)
    && (forall t :: t in queued <==> t in sent || t in waiting || t in withdrawn)
    && (forall t :: t in sent ==> t !in waiting && t !in withdrawn)
    && (forall t :: t in waiting ==> t !in withdrawn)
  }

  /** First in, first out: what was sent, then what waits, is the queueing order less withdrawals. */
  ghost predicate Ordered(queued: seq<nat>, sent: seq<nat>, waiting: seq<nat>, withdrawn: set<nat>) {
    Without(queued, withdrawn) == sent + waiting
  }

  lemma Append(queued: seq<nat>, sent: seq<nat>, waiting: seq<nat>, withdrawn: set<nat>, t: nat, high: bool)
    requires Ledger(queued, sent, waiting, withdrawn) && t !in queued
    ensures Ledger(queued + [t], sent, if high then [t] + waiting else waiting + [t], withdrawn)
  {
    var waiting' := if high then [t] + waiting else waiting + [t];
    assert forall s :: s in waiting' <==> s == t || s in waiting;
    assert forall s :: s in queued + [t] <==> s == t || s in queued;
  }

  lemma AppendInOrder(queued: seq<nat>, sent: seq<nat>, waiting: seq<nat>, withdrawn: set<nat>, t: nat)
    requires Ordered(queued, sent, waiting, withdrawn) && t !in withdrawn
    ensures Ordered(queued + [t], sent, waiting + [t], withdrawn)
  {
    WithoutConcat(queued, [t], withdrawn);
    assert Without([t], withdrawn) == [t];
    assert sent + waiting + [t] == sent + (waiting + [t]);
  }

  lemma Send(queued: seq<nat>, sent: seq<nat>, waiting: seq<nat>, withdrawn: set<nat>, t: nat)
    requires Ledger(queued, sent, [t] + waiting, withdrawn)
    ensures Ledger(queued, sent + [t], waiting, withdrawn)
    ensures Ordered(queued, sent, [t] + waiting, withdrawn) ==> Ordered(queued, sent + [t], waiting, withdrawn)
  {
    var line := [t] + waiting;
    assert line[0] == t && t in line;
    forall i | 0 <= i < |waiting| ensures waiting[i] != t { assert line[0] != line[i + 1]; }
    forall i, j | 0 <= i < j < |waiting| ensures waiting[i] != waiting[j] { assert line[i + 1] != line[j + 1]; }
    assert forall s :: s in [t] + waiting <==> s == t || s in waiting;
    assert forall s :: s in sent + [t] <==> s == t || s in sent;
    assert sent + ([t] + waiting) == sent + [t] + waiting;
  }

  lemma Withdraw(queued: seq<nat>, sent: seq<nat>, waiting: seq<nat>, withdrawn: set<nat>, t: nat)
    requires Ledger(queued, sent, waiting, withdrawn) && t in waiting
    ensures Ledger(queued, sent, Remove(waiting, t), withdrawn + {t})
    ensures Ordered(queued, sent, waiting, withdrawn) ==>
              Ordered(queued, sent, Remove(waiting, t), withdrawn + {t})
  {
    RemoveNoDup(waiting, t);
    WithoutOneMore(queued, withdrawn, t);
    RemoveConcat(sent, waiting, t);
  }
}
