/** The dump after a reset agrees with the full history of the boot before it. */
module WedgeTraceProofs {
  import opened Arithmetic
  import opened Basics
  import opened WedgeTrace

  /** The ring after any number of interrupts since initialisation. */
  function Recorded(ring: seq<Rec>, irqs: seq<Rec>): (r: seq<Rec>)
    requires |ring| == WT_NREC
    ensures |r| == WT_NREC
  {
    if irqs == [] then ring
    else
      var n := |irqs| - 1;
      Stored(Recorded(ring, irqs[..n]), n % TWO_32, irqs[n])
  }

  /** The slot of an index survives the wrap of the 32-bit counter. */
  lemma SlotAfterWrap(n: nat)
    ensures n % TWO_32 % WT_NREC == n % WT_NREC
  {
  }

  /** Indices less than a ring's size apart have different slots. */
  lemma SlotsDiffer(k: nat, n: nat, size: nat)
    requires k < n < k + size
    ensures k % size != n % size
  {
    if k % size == n % size {
      DivMod(k, size);
      DivMod(n, size);
      if n / size <= k / size {
        MulLe(n / size, k / size, size);
      } else {
        MulLe(k / size + 1, n / size, size);
      }
      assert false;
    }
  }

  lemma StoredHolds(ring: seq<Rec>, irqs: seq<Rec>, rec: Rec)
    requires Holds(ring, irqs)
    ensures Holds(Stored(ring, |irqs| % TWO_32, rec), irqs + [rec])
  {
    var n := |irqs|;
    var ring' := Stored(ring, n % TWO_32, rec);
    SlotAfterWrap(n);
    forall k: nat | n + 1 - WT_NREC <= k < n ensures ring'[k % WT_NREC] == irqs[k] {
      SlotsDiffer(k, n, WT_NREC);
    }
  }

  lemma {:induction false} RecordedHolds(ring: seq<Rec>, irqs: seq<Rec>)
    requires |ring| == WT_NREC
    ensures Holds(Recorded(ring, irqs), irqs)
  {
    if irqs == [] {
    } else {
      var n := |irqs| - 1;
      RecordedHolds(ring, irqs[..n]);
      StoredHolds(Recorded(ring, irqs[..n]), irqs[..n], irqs[n]);
      assert irqs[..n] + [irqs[n]] == irqs;
    }
  }

  /** An index counted back from a wrapped counter names the same record and the same slot. */
  lemma IndexAfterWrap(n: nat, back: nat)
    requires 0 < back <= n % TWO_32
    ensures (n - back) % WT_NREC == (n % TWO_32 - back) % WT_NREC
  {
    var k := n - back;
    assert k == n / TWO_32 * TWO_32 + (n % TWO_32 - back);
  }

  /** The newest `m` records of a history, numbered as the 32-bit counter numbers them. */
  function Newest(irqs: seq<Rec>, m: nat): (lines: seq<Line>)
    requires m <= |irqs| % TWO_32
    ensures |lines| == m
  {
    seq(m, j requires 0 <= j < m => Line(|irqs| % TWO_32 - m + j, irqs[|irqs| - m + j]))
  }

  lemma DumpIsNewest(ring: seq<Rec>, irqs: seq<Rec>)
    requires Holds(ring, irqs)
    ensures Dump(ring, |irqs| % TWO_32) == Newest(irqs, Min(|irqs| % TWO_32, WT_DUMP_RECS))
  {
    var nrec := |irqs| % TWO_32;
    var m := Min(nrec, WT_DUMP_RECS);
    forall j: nat | j < m ensures Dump(ring, nrec)[j] == Newest(irqs, m)[j] {
      IndexAfterWrap(|irqs|, m - j);
      assert ring[(|irqs| - m + j) % WT_NREC] == irqs[|irqs| - m + j];
    }
  }

  /**
   * Whatever the ring held before, the dump after any history is its newest records, oldest first: 32 of them, or as
   * many as the 32-bit counter admits.
   */
  lemma DumpMatchesHistory(ring: seq<Rec>, irqs: seq<Rec>)
    requires |ring| == WT_NREC
    ensures Dump(Recorded(ring, irqs), |irqs| % TWO_32) == Newest(irqs, Min(|irqs| % TWO_32, WT_DUMP_RECS))
  {
    RecordedHolds(ring, irqs);
    DumpIsNewest(Recorded(ring, irqs), irqs);
  }

  /** All of the last 32 records are shown unless the counter has just wrapped. */
  lemma DumpIsFullIff(ring: seq<Rec>, irqs: seq<Rec>)
    requires |ring| == WT_NREC
    ensures |Dump(Recorded(ring, irqs), |irqs| % TWO_32)| == Min(|irqs|, WT_DUMP_RECS)
            <==> |irqs| < TWO_32 || |irqs| % TWO_32 >= WT_DUMP_RECS
  {
    var nrec := |irqs| % TWO_32;
    assert |Dump(Recorded(ring, irqs), nrec)| == Min(nrec, WT_DUMP_RECS);
  }

  /** A reset in the middle of a record damages only the slot that is about to be reused: the dump is the same. */
  lemma TornRecordIsInvisible(ring: seq<Rec>, nrec: Word, torn: Rec)
    requires |ring| == WT_NREC
    ensures Dump(Stored(ring, nrec, torn), nrec) == Dump(ring, nrec)
  {
    var ring' := Stored(ring, nrec, torn);
    forall j: nat | j < Min(nrec, WT_DUMP_RECS) ensures Dump(ring', nrec)[j] == Dump(ring, nrec)[j] {
      SlotsDiffer(DumpFrom(nrec) + j, nrec, WT_NREC);
    }
  }

  lemma TickSlotAfterWrap(n: nat)
    ensures n % TWO_32 % WT_NTICK == n % WT_NTICK
  {
  }

  lemma TickStoredHolds(ring: seq<Tick>, ticks: seq<Tick>, tick: Tick)
    requires TicksHold(ring, ticks)
    ensures TicksHold(TickStored(ring, |ticks| % TWO_32, tick), ticks + [tick])
  {
    var n := |ticks|;
    TickSlotAfterWrap(n);
    var ring' := ring[n % WT_NTICK := tick];
    forall k: nat | n + 1 - WT_NTICK <= k < n ensures ring'[k % WT_NTICK] == ticks[k] {
      SlotsDiffer(k, n, WT_NTICK);
    }
    forall s: nat | n + 1 <= s < WT_NTICK ensures ring'[s] == ZERO_TICK {
      SlotsDiffer(n, s, WT_NTICK);
    }
  }

  lemma SlotOfTick(n: nat, s: nat)
    requires s < WT_NTICK <= n
    ensures var j := (s + WT_NTICK - n % WT_NTICK) % WT_NTICK;
            j < WT_NTICK && (n - WT_NTICK + j) % WT_NTICK == s
  {
  }

  /** From the fourth tick on the slots are the last four ticks, rotated by the tick counter. */
  lemma TicksShown(ring: seq<Tick>, ticks: seq<Tick>, s: nat)
    requires TicksHold(ring, ticks) && s < WT_NTICK <= |ticks|
    ensures ring[s] == ticks[|ticks| - WT_NTICK..][(s + WT_NTICK - |ticks| % WT_NTICK) % WT_NTICK]
  {
    SlotOfTick(|ticks|, s);
    var j := (s + WT_NTICK - |ticks| % WT_NTICK) % WT_NTICK;
    assert ring[(|ticks| - WT_NTICK + j) % WT_NTICK] == ticks[|ticks| - WT_NTICK + j];
  }
}
