/** The rings of the wedge tracer and the dump of the interrupt ring, as functions of their contents. */
module WedgeTrace {
  import opened Basics

  const WT_MAGIC: nat := 0x31525457
  const WT_NREC: nat := 1024
  const WT_NTICK: nat := 4
  const WT_DUMP_RECS: nat := 32

  datatype Rec = Rec(mcause: Word, mepc: Word, mintstatus: Word, mstatus: Word)

  /** One timer tick; `sample` stands for the jiffies, CLIC and SYSTIMER words read with it. */
  datatype Tick = Tick(tickCount: Word, sample: seq<Word>)

  /** One line of the dump: the printed index and the record. */
  datatype Line = Line(index: nat, rec: Rec)

  const ZERO_TICK := Tick(0, [])

  // ---- The interrupt ring ----

  /** The ring holds the newest 1024 records of `irqs`, each in its slot. */
  ghost predicate Holds(ring: seq<Rec>, irqs: seq<Rec>) {
    && |ring| == WT_NREC
    && forall k: nat :: |irqs| - WT_NREC <= k < |irqs| ==> ring[k % WT_NREC] == irqs[k]
  }

  /** The ring after one more interrupt, its counter being `idx`. */
  function Stored(ring: seq<Rec>, idx: Word, rec: Rec): (r: seq<Rec>)
    requires |ring| == WT_NREC
    ensures |r| == WT_NREC
  {
    ring[idx % WT_NREC := rec]
  }

  function DumpFrom(nrec: nat): (first: nat)
    ensures first <= nrec
  {
    if nrec > WT_DUMP_RECS then nrec - WT_DUMP_RECS else 0
  }

  /** The lines printed for the indices from `i` up to `n`. */
  function DumpLines(ring: seq<Rec>, i: nat, n: nat): (lines: seq<Line>)
    requires |ring| == WT_NREC && i <= n
    ensures |lines| == n - i
    ensures forall j :: 0 <= j < n - i ==> lines[j] == Line(i + j, ring[(i + j) % WT_NREC])
  {
    seq(n - i, j requires 0 <= j < n - i => Line(i + j, ring[(i + j) % WT_NREC]))
  }

  function Dump(ring: seq<Rec>, nrec: nat): seq<Line>
    requires |ring| == WT_NREC
  {
    DumpLines(ring, DumpFrom(nrec), nrec)
  }

  // ---- The tick ring ----

  /** Slot `s` holds the newest tick whose number is `s` modulo 4, or zeros if there was none. */
  ghost predicate TicksHold(ring: seq<Tick>, ticks: seq<Tick>) {
    && |ring| == WT_NTICK
    && (forall k: nat :: |ticks| - WT_NTICK <= k < |ticks| ==> ring[k % WT_NTICK] == ticks[k])
    && (forall s: nat :: |ticks| <= s < WT_NTICK ==> ring[s] == ZERO_TICK)
  }

  function TickStored(ring: seq<Tick>, cnt: Word, tick: Tick): (r: seq<Tick>)
    requires |ring| == WT_NTICK
    ensures |r| == WT_NTICK
  {
    ring[cnt % WT_NTICK := tick]
  }
}
