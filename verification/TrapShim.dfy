/**
 * The CLIC trap shim of entry.S: the hardware keeps the interrupted privilege and interrupt enable in mcause, Linux
 * expects them in the saved status, and CSR_SCRATCH and tp tell kernel traps from user traps.
 */
module TrapShim {
  import opened Basics

  // ---- Fields of the two registers ----

  const MPP_IN_STATUS: bv32 := 3 << 11
  const MPIE_IN_STATUS: bv32 := 1 << 7
  const MPIL: bv32 := 0x00FF_0000
  const EXC_SYSCALL: bv32 := 8
  const EXC_SYSCALL_M: bv32 := 11

  function Mpp(cause: bv32): bv32 { (cause >> 28) & 3 }
  function Mpie(cause: bv32): bv32 { (cause >> 27) & 1 }
  function Mpil(cause: bv32): bv32 { (cause >> 16) & 0xFF }
  function Minhv(cause: bv32): bv32 { (cause >> 30) & 1 }
  function Int(cause: bv32): bv32 { cause >> 31 }
  function Code(cause: bv32): bv32 { cause & 0xFFF }
  function StatusMpp(status: bv32): bv32 { (status >> 11) & 3 }
  function StatusMpie(status: bv32): bv32 { (status >> 7) & 1 }
  function StatusIe(status: bv32): bv32 { (status >> 3) & 1 }

  /** What a write leaves in mstatus: the hardware keeps MPP and MPIE at zero. */
  function Written(status: bv32): bv32 {
    status & 0xFFFF_E77F
  }

  // ---- The shim ----

  /** What entry saves as PT_STATUS. */
  function EntryStatus(status: bv32, cause: bv32): bv32 {
    status | ((cause >> 17) & MPP_IN_STATUS) | ((cause >> 20) & MPIE_IN_STATUS)
  }

  /** What entry leaves in PT_CAUSE: interrupts keep the raw value, a machine-mode ecall reads as a system call. */
  function StoredCause(cause: bv32): bv32 {
    if Int(cause) == 1 then cause
    else if Code(cause) == EXC_SYSCALL_M then EXC_SYSCALL
    else cause & !MPIL
  }

  /** The index into the exception table: the bare code, or none for an interrupt. */
  function Vector(cause: bv32): Option<bv32> {
    if Int(cause) == 1 then None else Some(Code(cause))
  }

  /** What exit writes to mcause: the saved cause without MINHV, MPP, MPIE and MPIL, and fresh MPP and MPIE. */
  function ExitCause(status: bv32, cause: bv32): bv32 {
    (cause & !((0xFF << 16) | (0xF << 27))) | (StatusMpp(status) << 28) | (StatusMpie(status) << 27)
  }

  // ---- One hart ----

  datatype PtRegs = PtRegs(status: bv32, cause: bv32, tp: bv32)

  /** The registers the shim uses, the current privilege and the saved frames, innermost last. */
  datatype Hart = Hart(mstatus: bv32, mcause: bv32, tp: bv32, scratch: bv32, priv: bv32, frames: seq<PtRegs>)

  /** Clears and sets the interrupt-enable bit MIE. */
  function Masked(mstatus: bv32): bv32 { mstatus & 0xFFFF_FFF7 }

  function Unmasked(mstatus: bv32): bv32 { mstatus | 8 }

  function Latched(priv: bv32, mstatus: bv32, latch: bv32): bv32 {
    (latch & !(7 << 27)) | (priv << 28) | (StatusIe(mstatus) << 27)
  }

  /** The hardware takes a trap: MPP and MPIE hold the interrupted state, `latch` supplies the other mcause bits. */
  function TakeTrap(h: Hart, latch: bv32): Hart {
    h.(mcause := Latched(h.priv, h.mstatus, latch), mstatus := Masked(h.mstatus), priv := 3)
  }

  /** `handle_exception` up to the dispatch. */
  function Entry(h: Hart): Hart {
    var kernelTp := if h.scratch == 0 then h.tp else h.scratch;
    h.(tp := kernelTp, scratch := 0,
       frames := h.frames + [PtRegs(EntryStatus(h.mstatus, h.mcause), StoredCause(h.mcause), h.tp)])
  }

  /** The test behind `user_mode` and the user branch of `ret_from_exception`. */
  predicate UserMode(regs: PtRegs, tp: bv32) {
    regs.tp != tp
  }

  /** `ret_from_exception` up to `mret`; MPP and MPIE of mstatus are hardwired to zero. */
  function Exit(h: Hart): Hart
    requires h.frames != []
  {
    var regs := h.frames[|h.frames| - 1];
    h.(scratch := if UserMode(regs, h.tp) then h.tp else h.scratch,
       mstatus := Written(regs.status),
       mcause := ExitCause(regs.status, regs.cause),
       tp := regs.tp,
       frames := h.frames[..|h.frames| - 1])
  }

  /** `mret` takes privilege and interrupt enable from mcause. */
  function Mret(h: Hart): Hart {
    h.(priv := Mpp(h.mcause), mstatus := if Mpie(h.mcause) == 1 then Unmasked(h.mstatus) else Masked(h.mstatus))
  }

  // ---- The assembly ----

  lemma InterruptBit(cause: bv32)
    ensures Int(cause) == 1 <==> cause & 0x8000_0000 != 0
  {
  }

  lemma CodeWithoutMpil(cause: bv32)
    ensures Code(cause & !MPIL) == Code(cause)
  {
  }

  /**
   What entry must store and where it must dispatch, bit by bit: an interrupt keeps its raw cause and has no vector; a
   machine-mode ecall (code 11) reads as 8 but takes vector 11; any other exception loses bits 23 to 16 only.
   */
  predicate Dispatched(cause: bv32, stored: bv32, vector: Option<bv32>) {
    if cause & 0x8000_0000 != 0 then stored == cause && vector == None
    else vector == Some(cause & 0xFFF) && stored == if cause & 0xFFF == 11 then 8 else cause & 0xFF00_FFFF
  }

  lemma StoredBits(cause: bv32)
    ensures Dispatched(cause, StoredCause(cause), Vector(cause))
  {
    InterruptBit(cause);
  }

  /** `sub` and `seqz`: did the trap come from the kernel? */
  method IsKernel(savedTp: bv32, tp: bv32) returns (kernel: bool)
    ensures kernel <==> savedTp == tp
  {
    var t0 := savedTp - tp;
    kernel := t0 == 0;
  }

  /** Rebuilds MPP and MPIE in the status about to be saved. */
  method ReconstructStatus(status: bv32, cause: bv32) returns (s1: bv32)
    ensures s1 == EntryStatus(status, cause)
  {
    s1 := status;
    var t0 := cause >> 17;
    t0 := t0 & MPP_IN_STATUS;
    s1 := s1 | t0;
    t0 := cause >> 20;
    t0 := t0 & MPIE_IN_STATUS;
    s1 := s1 | t0;
  }

  /** The branch on the interrupt bit, the substitution of the stored cause and the vector-table index. */
  method Classify(cause: bv32) returns (stored: bv32, vector: Option<bv32>)
    ensures stored == StoredCause(cause) && vector == Vector(cause) && Dispatched(cause, stored, vector)
  {
    StoredBits(cause);
    InterruptBit(cause);
    if cause & 0x8000_0000 != 0 {
      return cause, None;
    }
    CodeWithoutMpil(cause);
    var s4 := cause & !MPIL;
    var t0 := s4 & 0xFFF;
    stored := if t0 == EXC_SYSCALL_M then EXC_SYSCALL else s4;
    vector := Some(t0);
  }

  /** The frame that entry writes, given the registers it saves. */
  method SaveFrame(status: bv32, cause: bv32, savedTp: bv32) returns (regs: PtRegs, vector: Option<bv32>)
    ensures regs == PtRegs(EntryStatus(status, cause), StoredCause(cause), savedTp)
    ensures vector == Vector(cause) && Dispatched(cause, regs.cause, vector)
  {
    var s1 := ReconstructStatus(status, cause);
    var stored;
    stored, vector := Classify(cause);
    regs := PtRegs(s1, stored, savedTp);
  }

  /** The exit side: strips the stale fields and takes MPP and MPIE from the saved status. */
  method RebuildCause(status: bv32, cause: bv32) returns (a3: bv32)
    ensures a3 == ExitCause(status, cause)
  {
    a3 := cause & !((0xFF << 16) | (0xF << 27));
    var a5 := status >> 11;
    a5 := a5 & 3;
    a5 := a5 << 28;
    a3 := a3 | a5;
    a5 := status >> 7;
    a5 := a5 & 1;
    a5 := a5 << 27;
    a3 := a3 | a5;
  }

  class Core {
    var mstatus: bv32
    var mcause: bv32
    var tp: bv32
    var scratch: bv32
    var priv: bv32
    var frames: seq<PtRegs>

    function State(): Hart
      reads this
    {
      Hart(mstatus, mcause, tp, scratch, priv, frames)
    }

    /** Entry in program order; the result is the vector-table index, or none for an interrupt. */
    method HandleException() returns (vector: Option<bv32>)
      modifies this
      ensures State() == Entry(old(State()))
      ensures vector == Vector(old(mcause))
      ensures |frames| == |old(frames)| + 1 && Dispatched(old(mcause), frames[|old(frames)|].cause, vector)
    {
      tp, scratch := scratch, tp;
      if tp == 0 { tp := scratch; }
      vector := PushFrame();
      scratch := 0;
    }

    /** The saved registers become the innermost frame. */
    method PushFrame() returns (vector: Option<bv32>)
      modifies `frames
      ensures frames == old(frames) + [PtRegs(EntryStatus(mstatus, mcause), StoredCause(mcause), scratch)]
      ensures vector == Vector(mcause) && Dispatched(mcause, frames[|old(frames)|].cause, vector)
    {
      var regs;
      regs, vector := SaveFrame(mstatus, mcause, scratch);
      frames := frames + [regs];
    }

    /** Exit in program order. */
    method RetFromException()
      requires frames != []
      modifies this
      ensures State() == Exit(old(State()))
    {
      var regs := frames[|frames| - 1];
      frames := frames[..|frames| - 1];
      RestoreCsrs(regs);
      tp := regs.tp;
    }

    /** The CSR part of the exit: SCRATCH for a user task, then mstatus and mcause. */
    method RestoreCsrs(regs: PtRegs)
      modifies `scratch, `mstatus, `mcause
      ensures scratch == if UserMode(regs, tp) then tp else old(scratch)
      ensures mstatus == Written(regs.status) && mcause == ExitCause(regs.status, regs.cause)
    {
      var kernel := IsKernel(regs.tp, tp);
      if !kernel { scratch := tp; }
      mstatus := Written(regs.status);
      mcause := RebuildCause(regs.status, regs.cause);
    }
  }
}
