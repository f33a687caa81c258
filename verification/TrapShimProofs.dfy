/** Every return restores what its trap interrupted, over all well-nested runs of traps and returns. */
module TrapShimProofs {
  import opened Basics
  import opened TrapShim

  // ---- Runs ----

  /**
   What a trap interrupted, what the hardware latched into mcause beside MPP and MPIE, and whether a signal has been
   delivered since.
   */
  datatype Shadow = Shadow(before: Hart, latch: bv32, signalled: bool)

  /** `user` says whether the outermost level is a user task; `stack` shadows the saved frames. */
  datatype World = World(hart: Hart, stack: seq<Shadow>, user: bool) {
    predicate InUser() { user && hart.frames == [] }
  }

  datatype Event =
    | Trap(latch: bv32)
    | Return
    | SetIe(on: bool)
    | SetTp(tp: bv32)
    | Signal

  predicate Enabled(w: World, e: Event) {
    match e
    case Trap(_) => true
    case Return => w.hart.frames != [] && w.stack != []
    case SetIe(_) => true
    case SetTp(_) => w.InUser()
    case Signal =>
      w.hart.frames != [] && |w.stack| == |w.hart.frames| && w.hart.frames[|w.hart.frames| - 1].cause == EXC_SYSCALL
  }

  /** A signal delivered during a system call clears the saved cause; only user code changes tp. */
  function Step(w: World, e: Event): World
    requires Enabled(w, e)
  {
    var h := w.hart;
    match e
    case Trap(latch) => World(Entry(TakeTrap(h, latch)), w.stack + [Shadow(h, latch, false)], w.user)
    case Return => World(Mret(Exit(h)), w.stack[..|w.stack| - 1], w.user)
    case SetIe(on) => w.(hart := h.(mstatus := if on then Unmasked(h.mstatus) else Masked(h.mstatus)))
    case SetTp(tp) => w.(hart := h.(tp := tp))
    case Signal =>
      var n := |h.frames| - 1;
      w.(hart := h.(frames := h.frames[..n] + [h.frames[n].(cause := 0)]),
         stack := w.stack[..n] + [w.stack[n].(signalled := true)])
  }

  // ---- Bit fields ----

  lemma LatchFields(priv: bv32, mstatus: bv32, latch: bv32)
    requires priv < 4
    ensures var c := Latched(priv, mstatus, latch);
            Mpp(c) == priv && Mpie(c) == StatusIe(mstatus) && Int(c) == Int(latch) && Code(c) == Code(latch)
  {
  }

  lemma EntryFields(status: bv32, cause: bv32)
    requires Written(status) == status
    ensures var s := EntryStatus(status, cause);
            StatusMpp(s) == Mpp(cause) && StatusMpie(s) == Mpie(cause) && Written(s) == status
  {
  }

  lemma StoredInt(cause: bv32)
    ensures Int(StoredCause(cause)) == Int(cause)
  {
  }

  /** The rebuilt status: MPP and MPIE from bits 29 to 27 of the cause, everything else as it was. */
  lemma StatusBits(status: bv32, cause: bv32)
    requires status & 0x1880 == 0
    ensures var s := EntryStatus(status, cause);
            && (s >> 11) & 3 == (cause >> 28) & 3 && (s >> 7) & 1 == (cause >> 27) & 1
            && s & 0xFFFF_E77F == status
  {
  }

  /** The rebuilt cause: MPP and MPIE from the status, bits 30 and 23 to 16 zero, everything else as stored. */
  lemma CauseBits(status: bv32, cause: bv32)
    ensures var c := ExitCause(status, cause);
            && (c >> 28) & 3 == (status >> 11) & 3 && (c >> 27) & 1 == (status >> 7) & 1
            && c & 0x40FF_0000 == 0 && c & 0x8700_FFFF == cause & 0x8700_FFFF
  {
  }

  lemma LatchedLowBits(priv: bv32, mstatus: bv32, latch: bv32)
    requires priv < 4
    ensures Latched(priv, mstatus, latch) & 0x8000_0000 == latch & 0x8000_0000
    ensures Latched(priv, mstatus, latch) & 0xFFF == latch & 0xFFF
  {
  }

  /** The returned mcause takes MPP and MPIE from the saved status alone, whatever the stored cause became. */
  lemma ExitFields(status: bv32, cause: bv32)
    ensures var c := ExitCause(status, cause);
            && Mpp(c) == StatusMpp(status) && Mpie(c) == StatusMpie(status)
            && Mpil(c) == 0 && Minhv(c) == 0 && Int(c) == Int(cause)
  {
  }

  lemma IeRestored(mstatus: bv32)
    ensures StatusIe(mstatus) == 1 ==> Unmasked(Masked(mstatus)) == mstatus
    ensures StatusIe(mstatus) != 1 ==> Masked(Masked(mstatus)) == mstatus
  {
  }

  lemma IeAndWritten(mstatus: bv32)
    requires Written(mstatus) == mstatus
    ensures Written(Masked(mstatus)) == Masked(mstatus)
    ensures Written(Unmasked(mstatus)) == Unmasked(mstatus)
  {
  }

  // ---- The invariant ----

  ghost predicate Kernel(h: Hart, ktp: bv32) {
    h.tp == ktp && h.scratch == 0
  }

  ghost predicate Origin(h: Hart, ktp: bv32, user: bool) {
    if user then h.tp != ktp && h.scratch == ktp else Kernel(h, ktp)
  }

  /** A saved frame carries everything exit needs to rebuild the interrupted hart. */
  ghost predicate Saved(f: PtRegs, s: Shadow) {
    && StatusMpp(f.status) == s.before.priv && StatusMpie(f.status) == StatusIe(s.before.mstatus)
    && Written(f.status) == Masked(s.before.mstatus) && Int(f.cause) == Int(s.latch) && f.tp == s.before.tp
    && f.cause == if s.signalled then 0 else StoredCause(Latched(s.before.priv, s.before.mstatus, s.latch))
  }

  ghost predicate WellFormed(h: Hart) {
    Written(h.mstatus) == h.mstatus && h.priv < 4
  }

  ghost predicate Level(w: World, ktp: bv32, i: nat)
    requires i < |w.stack| == |w.hart.frames|
  {
    && Saved(w.hart.frames[i], w.stack[i]) && WellFormed(w.stack[i].before)
    && w.stack[i].before.frames == w.hart.frames[..i]
    && Origin(w.stack[i].before, ktp, w.user && i == 0)
  }

  ghost predicate Inv(w: World, ktp: bv32) {
    && ktp != 0 && |w.hart.frames| == |w.stack| && WellFormed(w.hart)
    && Origin(w.hart, ktp, w.InUser())
    && forall i: nat :: i < |w.stack| ==> Level(w, ktp, i)
  }

  lemma EntrySaves(h: Hart, latch: bv32)
    requires WellFormed(h)
    ensures var c := Latched(h.priv, h.mstatus, latch);
            Saved(PtRegs(EntryStatus(Masked(h.mstatus), c), StoredCause(c), h.tp), Shadow(h, latch, false))
  {
    var c := Latched(h.priv, h.mstatus, latch);
    LatchFields(h.priv, h.mstatus, latch);
    IeAndWritten(h.mstatus);
    EntryFields(Masked(h.mstatus), c);
    StoredInt(c);
  }

  lemma EntryState(h: Hart, latch: bv32, ktp: bv32, user: bool)
    requires WellFormed(h) && ktp != 0 && Origin(h, ktp, user)
    ensures var h' := Entry(TakeTrap(h, latch));
            && |h'.frames| == |h.frames| + 1 && h'.frames[..|h.frames|] == h.frames
            && Saved(h'.frames[|h.frames|], Shadow(h, latch, false))
            && Kernel(h', ktp) && WellFormed(h')
  {
    IeAndWritten(h.mstatus);
    EntrySaves(h, latch);
  }

  lemma TrapKeeps(w: World, latch: bv32, ktp: bv32)
    requires Inv(w, ktp)
    ensures Inv(Step(w, Trap(latch)), ktp)
  {
    var n := |w.stack|;
    var w' := Step(w, Trap(latch));
    EntryState(w.hart, latch, ktp, w.InUser());
    forall i: nat | i < |w'.stack| ensures Level(w', ktp, i) {
      if i < n {
        assert Level(w, ktp, i);
        assert w'.hart.frames[..i] == w.hart.frames[..i];
      }
    }
  }

  /** What `mret` leaves: the interrupted hart, apart from mcause. */
  ghost predicate Restored(h: Hart, s: Shadow) {
    && h == s.before.(mcause := h.mcause)
    && Mpp(h.mcause) == s.before.priv && Mpie(h.mcause) == StatusIe(s.before.mstatus)
    && Mpil(h.mcause) == 0 && Minhv(h.mcause) == 0 && Int(h.mcause) == Int(s.latch)
  }

  lemma ExitRestores(h: Hart, s: Shadow, ktp: bv32, user: bool)
    requires h.frames != [] && Kernel(h, ktp) && Saved(h.frames[|h.frames| - 1], s)
    requires s.before.frames == h.frames[..|h.frames| - 1] && Origin(s.before, ktp, user)
    ensures Restored(Mret(Exit(h)), s)
  {
    var f := h.frames[|h.frames| - 1];
    ExitFields(f.status, f.cause);
    IeRestored(s.before.mstatus);
  }

  lemma Unwound(w: World, h: Hart, ktp: bv32)
    requires Inv(w, ktp) && w.stack != []
    requires h == w.stack[|w.stack| - 1].before.(mcause := h.mcause)
    ensures Inv(World(h, w.stack[..|w.stack| - 1], w.user), ktp)
  {
    var n := |w.stack| - 1;
    var w' := World(h, w.stack[..n], w.user);
    assert Level(w, ktp, n);
    forall i: nat | i < n ensures Level(w', ktp, i) {
      assert Level(w, ktp, i);
      assert w'.hart.frames[..i] == w.hart.frames[..i];
    }
  }

  /** A return hands back exactly what the innermost open trap interrupted, and keeps the invariant. */
  lemma ReturnRestores(w: World, ktp: bv32)
    requires Inv(w, ktp) && Enabled(w, Return)
    ensures Restored(Step(w, Return).hart, w.stack[|w.stack| - 1])
    ensures Inv(Step(w, Return), ktp)
  {
    var n := |w.stack| - 1;
    assert Level(w, ktp, n);
    ExitRestores(w.hart, w.stack[n], ktp, w.user && n == 0);
    Unwound(w, Mret(Exit(w.hart)), ktp);
  }

  lemma SignalKeeps(w: World, ktp: bv32)
    requires Inv(w, ktp) && Enabled(w, Signal)
    ensures Inv(Step(w, Signal), ktp)
  {
    var n := |w.stack| - 1;
    var w' := Step(w, Signal);
    assert Int(0) == Int(EXC_SYSCALL);
    forall i: nat | i <= n ensures Level(w', ktp, i) {
      assert Level(w, ktp, i);
      assert w'.hart.frames[..i] == w.hart.frames[..i];
    }
  }

  lemma SetIeKeeps(w: World, on: bool, ktp: bv32)
    requires Inv(w, ktp)
    ensures Inv(Step(w, SetIe(on)), ktp)
  {
    var w' := Step(w, SetIe(on));
    assert WellFormed(w'.hart) by { IeAndWritten(w.hart.mstatus); }
    forall i: nat | i < |w'.stack| ensures Level(w', ktp, i) {
      assert Level(w, ktp, i);
    }
  }

  lemma SetTpKeeps(w: World, tp: bv32, ktp: bv32)
    requires Inv(w, ktp) && w.InUser() && tp != ktp
    ensures Inv(Step(w, SetTp(tp)), ktp)
  {
  }

  /** Every step keeps the invariant, as long as no user task takes the kernel's tp value as its own. */
  lemma StepKeepsInv(w: World, e: Event, ktp: bv32)
    requires Inv(w, ktp) && Enabled(w, e) && e != SetTp(ktp)
    ensures Inv(Step(w, e), ktp)
  {
    match e
    case Trap(latch) => TrapKeeps(w, latch, ktp);
    case Return => ReturnRestores(w, ktp);
    case Signal => SignalKeeps(w, ktp);
    case SetIe(on) => SetIeKeeps(w, on, ktp);
    case SetTp(tp) => SetTpKeeps(w, tp, ktp);
  }

  // ---- Whole runs ----

  predicate Legal(w: World, es: seq<Event>)
    decreases |es|
  {
    es == [] || (Enabled(w, es[0]) && Legal(Step(w, es[0]), es[1..]))
  }

  function Run(w: World, es: seq<Event>): World
    requires Legal(w, es)
    decreases |es|
  {
    if es == [] then w else Run(Step(w, es[0]), es[1..])
  }

  /** The run never closes one of the first `d + 1` open traps. */
  predicate StaysInside(w: World, es: seq<Event>, d: nat)
    requires Legal(w, es)
    decreases |es|
  {
    |w.stack| > d && (es == [] || StaysInside(Step(w, es[0]), es[1..], d))
  }

  lemma {:induction false} RunKeepsInv(w: World, es: seq<Event>, ktp: bv32)
    requires Inv(w, ktp) && Legal(w, es) && SetTp(ktp) !in es
    ensures Inv(Run(w, es), ktp)
    decreases |es|
  {
    if es != [] {
      StepKeepsInv(w, es[0], ktp);
      RunKeepsInv(Step(w, es[0]), es[1..], ktp);
    }
  }

  /** The same trap, whatever signals it has seen. */
  predicate SameTrap(a: Shadow, b: Shadow) {
    a.before == b.before && a.latch == b.latch
  }

  lemma {:induction false} NestedTrapsAreUndone(w: World, es: seq<Event>, d: nat)
    requires Legal(w, es) && StaysInside(w, es, d)
    ensures |Run(w, es).stack| > d && SameTrap(Run(w, es).stack[d], w.stack[d])
    decreases |es|
  {
    if es != [] {
      var w' := Step(w, es[0]);
      assert SameTrap(w'.stack[d], w.stack[d]);
      NestedTrapsAreUndone(w', es[1..], d);
    }
  }

  /**
   * A trap, anything nested inside it, and the matching return: the interrupted hart is back with its privilege,
   * interrupt enable, tp, SCRATCH and frames, and the returned mcause holds the interrupted MPP and MPIE, no MPIL, no
   * MINHV and the INT bit of the trap, even if the stored cause was replaced by 8 or 0 meanwhile.
   */
  lemma TrapAndReturn(w: World, latch: bv32, es: seq<Event>, ktp: bv32)
    requires Inv(w, ktp) && SetTp(ktp) !in es
    requires var w1 := Step(w, Trap(latch));
             Legal(w1, es) && StaysInside(w1, es, |w.stack|) && |Run(w1, es).stack| == |w.stack| + 1
    ensures var w2 := Run(Step(w, Trap(latch)), es);
            Enabled(w2, Return) && Restored(Step(w2, Return).hart, Shadow(w.hart, latch, false))
  {
    var n := |w.stack|;
    var w1 := Step(w, Trap(latch));
    var w2 := Run(w1, es);
    TrapKeeps(w, latch, ktp);
    RunKeepsInv(w1, es, ktp);
    NestedTrapsAreUndone(w1, es, n);
    ReturnRestores(w2, ktp);
  }

  lemma StartInv(h: Hart, user: bool, ktp: bv32)
    requires h.frames == [] && WellFormed(h) && ktp != 0 && Origin(h, ktp, user)
    ensures Inv(World(h, [], user), ktp)
  {
  }

  /** The same for the traps of every run from a kernel thread or a user task with no trap open. */
  lemma EveryTrapIsUndone(h: Hart, user: bool, ktp: bv32, before: seq<Event>, latch: bv32, nested: seq<Event>)
    requires h.frames == [] && WellFormed(h) && ktp != 0 && Origin(h, ktp, user)
    requires SetTp(ktp) !in before && SetTp(ktp) !in nested && Legal(World(h, [], user), before)
    requires var w := Run(World(h, [], user), before);
             var w1 := Step(w, Trap(latch));
             Legal(w1, nested) && StaysInside(w1, nested, |w.stack|) && |Run(w1, nested).stack| == |w.stack| + 1
    ensures var w := Run(World(h, [], user), before);
            var w2 := Run(Step(w, Trap(latch)), nested);
            Enabled(w2, Return) && Restored(Step(w2, Return).hart, Shadow(w.hart, latch, false))
  {
    StartInv(h, user, ktp);
    RunKeepsInv(World(h, [], user), before, ktp);
    TrapAndReturn(Run(World(h, [], user), before), latch, nested, ktp);
  }

  /** On every run the frame of a system call reads 8 until a signal clears it, whatever is nested inside it. */
  lemma EcallReadsAsSyscall(w: World, es: seq<Event>, ktp: bv32, i: nat)
    requires Inv(w, ktp) && Legal(w, es) && SetTp(ktp) !in es && i < |Run(w, es).stack|
    requires var l := Run(w, es).stack[i].latch; l & 0x8000_0000 == 0 && l & 0xFFF == 11
    ensures var w' := Run(w, es);
            i < |w'.hart.frames| && w'.hart.frames[i].cause == if w'.stack[i].signalled then 0 else 8
  {
    RunKeepsInv(w, es, ktp);
    var w' := Run(w, es);
    assert Level(w', ktp, i);
    var s := w'.stack[i];
    LatchedLowBits(s.before.priv, s.before.mstatus, s.latch);
    StoredBits(Latched(s.before.priv, s.before.mstatus, s.latch));
  }

  // ---- Where a trap came from ----

  /** The `regs->tp` test is right exactly when a trapping user task's tp is not the kernel's. */
  lemma OriginTestIsExact(h: Hart, latch: bv32, ktp: bv32, user: bool)
    requires ktp != 0 && if user then h.scratch == ktp else Kernel(h, ktp)
    ensures var h' := Entry(TakeTrap(h, latch));
            h'.tp == ktp && (UserMode(h'.frames[|h.frames|], h'.tp) == user <==> !(user && h.tp == ktp))
  {
  }

  /** Once a user task has trapped and returned with the kernel's tp as its own, its next trap runs on its tp. */
  lemma SharedTpLosesTheKernel(w: World, l0: bv32, l1: bv32, v: bv32, ktp: bv32)
    requires w.user && w.hart.frames == [] && w.stack == [] && ktp != 0
    requires w.hart.scratch == ktp && w.hart.tp == ktp
    ensures var es := [Trap(l0), Return, SetTp(v), Trap(l1)];
            Legal(w, es) && Run(w, es).hart.tp == v
  {
    var w1 := Step(w, Trap(l0));
    var w2 := Step(w1, Return);
    var w3 := Step(w2, SetTp(v));
    var w4 := Step(w3, Trap(l1));
    var e1, e2, e3, e4 := Trap(l0), Return, SetTp(v), Trap(l1);
    assert [e1, e2, e3, e4][1..] == [e2, e3, e4] && [e2, e3, e4][1..] == [e3, e4];
    assert [e3, e4][1..] == [e4] && [e4][1..] == [];
    assert Legal(w4, []) && Run(w4, []) == w4;
    assert Legal(w3, [e4]) && Run(w3, [e4]) == w4;
    assert Legal(w2, [e3, e4]) && Run(w2, [e3, e4]) == w4;
    assert Legal(w1, [e2, e3, e4]) && Run(w1, [e2, e3, e4]) == w4;
  }

  /** Why a signal clears the saved cause: all ones would return from the system call as from an interrupt. */
  lemma ClearedCauseIsNotAnInterrupt(status: bv32)
    ensures Int(ExitCause(status, 0)) == 0 && Int(ExitCause(status, 0xFFFF_FFFF)) == 1
  {
  }
}
