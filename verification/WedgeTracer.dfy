/** The wedge tracer itself: what one boot records and what the next boot dumps. */
module WedgeTracer {
  import opened Basics
  import opened WedgeTrace
  import opened WedgeTraceProofs

  /** The carveout that survives a reset; `irqs` and `ticks` are what was recorded since the last initialisation. */
  class Tracer {
    var magic: Word
    var bootCount: Word
    var ringIdx: Word
    var tickCount: Word
    var ready: bool
    const tickRing: array<Tick>
    const ring: array<Rec>
    ghost var irqs: seq<Rec>
    ghost var ticks: seq<Tick>

    /** Sizes only: memory after a power-on holds anything. */
    ghost predicate Mapped() {
      ring.Length == WT_NREC && tickRing.Length == WT_NTICK
    }

    ghost predicate Valid()
      reads this, ring, tickRing
    {
      && Mapped() && magic == WT_MAGIC
      && ringIdx == |irqs| % TWO_32 && Holds(ring[..], irqs)
      && tickCount == |ticks| % TWO_32 && TicksHold(tickRing[..], ticks)
    }

    /** The carveout after power-on: any contents. */
    constructor (magic: Word, bootCount: Word, ringIdx: Word, tickCount: Word, recs: seq<Rec>, slots: seq<Tick>)
      requires |recs| == WT_NREC && |slots| == WT_NTICK
      ensures Mapped() && !ready && fresh(ring) && fresh(tickRing)
      ensures this.magic == magic && this.bootCount == bootCount
      ensures this.ringIdx == ringIdx && this.tickCount == tickCount
      ensures ring[..] == recs && tickRing[..] == slots
    {
      this.magic, this.bootCount, this.ringIdx, this.tickCount := magic, bootCount, ringIdx, tickCount;
      ring := new Rec[WT_NREC](k requires 0 <= k < |recs| => recs[k]);
      tickRing := new Tick[WT_NTICK](k requires 0 <= k < |slots| => slots[k]);
      ready := false;
      irqs, ticks := [], [];
    }

    /** `esp32p4_wedge_trace_irq_entry`. */
    method IrqEntry(rec: Rec)
      requires ready ==> Valid()
      modifies `ringIdx, `irqs, ring
      ensures ready ==> Valid() && irqs == old(irqs) + [rec]
      ensures ready ==> ring[..] == Stored(old(ring[..]), old(ringIdx), rec)
      ensures ready ==> ring[old(ringIdx) % 1024] == rec && ringIdx == (old(ringIdx) + 1) % 0x1_0000_0000
      ensures !ready ==> unchanged(this) && unchanged(ring)
    {
      if !ready { return; }
      var idx := ringIdx;
      StoredHolds(ring[..], irqs, rec);
      ring[idx % WT_NREC] := rec;
      ringIdx := (idx + 1) % TWO_32;
      irqs := irqs + [rec];
      assert ring[..] == Stored(old(ring[..]), idx, rec);
    }

    /** `esp32p4_wedge_trace_tick`. */
    method TickEntry(sample: seq<Word>)
      requires ready ==> Valid()
      modifies `tickCount, `ticks, tickRing
      ensures ready ==> Valid() && ticks == old(ticks) + [Tick(old(tickCount), sample)]
      ensures ready ==>
                && tickRing[old(tickCount) % 4] == Tick(old(tickCount), sample)
                && tickCount == (old(tickCount) + 1) % 0x1_0000_0000
      ensures !ready ==> unchanged(this) && unchanged(tickRing)
    {
      if !ready { return; }
      var cnt := tickCount;
      TickStoredHolds(tickRing[..], ticks, Tick(cnt, sample));
      tickRing[cnt % WT_NTICK] := Tick(cnt, sample);
      tickCount := (cnt + 1) % TWO_32;
      ticks := ticks + [Tick(cnt, sample)];
      assert tickRing[..] == TickStored(old(tickRing[..]), cnt, Tick(cnt, sample));
    }

    /** The first loop of `wt_dump_prev`: the tick slots, if any tick was counted. */
    method DumpTicks() returns (slots: seq<Tick>)
      requires Mapped()
      ensures slots == if tickCount == 0 then [] else tickRing[..]
    {
      slots := [];
      var s := 0;
      while s < WT_NTICK && tickCount != 0
        invariant 0 <= s <= WT_NTICK && slots == if tickCount == 0 then [] else tickRing[..s]
      {
        slots := slots + [tickRing[s]];
        s := s + 1;
      }
      assert tickRing[..WT_NTICK] == tickRing[..];
    }

    /** The second loop of `wt_dump_prev`: the newest interrupt records. */
    method DumpRecs() returns (lines: seq<Line>)
      requires Mapped()
      ensures lines == Dump(ring[..], ringIdx)
      ensures |lines| == if ringIdx > 32 then 32 else ringIdx
      ensures forall j {:trigger lines[j]} :: 0 <= j < |lines| ==>
                lines[j] == Line(ringIdx - |lines| + j, ring[(ringIdx - |lines| + j) % 1024])
    {
      var nrec := ringIdx;
      var first := if nrec > WT_DUMP_RECS then nrec - WT_DUMP_RECS else 0;
      var i: nat := first;
      lines := [];
      while i < nrec
        invariant first <= i <= nrec && lines == DumpLines(ring[..], first, i)
      {
        lines := lines + [Line(i, ring[i % WT_NREC])];
        i := i + 1;
      }
    }

    /**
     The next boot: the static `wt_ready` is false again.  Its initcall dumps what the magic vouches for, then starts
     afresh; `mapped` says whether the ioremap succeeds.
     */
    method Init(mapped: bool) returns (ok: bool, slots: seq<Tick>, lines: seq<Line>)
      requires Mapped()
      modifies this, tickRing
      ensures ok == ready == mapped
      ensures !mapped ==> lines == [] && slots == [] && unchanged(tickRing) && magic == old(magic)
      ensures !mapped ==> bootCount == old(bootCount) && ringIdx == old(ringIdx) && tickCount == old(tickCount)
      ensures !mapped ==> irqs == old(irqs) && ticks == old(ticks)
      ensures mapped ==> Valid() && irqs == [] && ticks == [] && bootCount == (old(bootCount) + 1) % TWO_32
      ensures mapped && old(Valid()) ==> lines == Newest(old(irqs), Min(|old(irqs)| % TWO_32, WT_DUMP_RECS))
      ensures mapped && old(magic) == WT_MAGIC ==> lines == Dump(old(ring[..]), old(ringIdx))
      ensures mapped && old(magic) == WT_MAGIC ==> slots == if old(tickCount) == 0 then [] else old(tickRing[..])
      ensures mapped && old(magic) != WT_MAGIC ==> lines == [] && slots == []
    {
      ready := false;
      slots, lines := [], [];
      if !mapped { return false, slots, lines; }
      if Valid() {
        DumpIsNewest(ring[..], irqs);
      }
      if magic == WT_MAGIC {
        slots := DumpTicks();
        lines := DumpRecs();
      }
      magic := WT_MAGIC;
      bootCount := (bootCount + 1) % TWO_32;
      ringIdx, tickCount := 0, 0;
      irqs, ticks := [], [];
      forall s | 0 <= s < tickRing.Length {
        tickRing[s] := ZERO_TICK;
      }
      ready := true;
      ok := true;
    }
  }
}
