/** The boot shim's run: probe the kernel, copy kernel and DTB into PSRAM page by page, patch the DTB, jump. */
module BootShim {
  import opened Arithmetic
  import opened Basics
  import opened BootImage

  /** How `app_main` ends. */
  datatype Outcome = Restart | Boot(kernelSize: nat)

  /** The page-wise copy meets no page that cannot be mapped. */
  predicate AllMapped(bad: set<nat>, size: nat, page: nat) {
    forall off: nat :: off in bad && page > 0 && off % page == 0 ==> off >= size
  }

  lemma NextPage(bad: set<nat>, done: nat, n: nat, page: nat)
    requires page > 0 && done % page == 0 && done !in bad && n <= page && AllMapped(bad, done, page)
    ensures AllMapped(bad, done + n, page)
    ensures n == page ==> (done + n) % page == 0
  {
    forall off: nat | off in bad && off % page == 0 ensures off >= done + n {
      NextMultiple(done, off, page);
    }
    AddMultiple(done, 1, page);
  }

  /** The header checks: totalsize, or 0 where the source restarts. */
  method HeaderTotal(dtb: seq<byte>) returns (total: nat)
    requires |dtb| >= 8
    ensures total == if GoodHeader(dtb) then TotalSize(dtb) else 0
  {
    if dtb[0] != 0xd0 || dtb[1] != 0x0d || dtb[2] != 0xfe || dtb[3] != 0xed {
      assert DTB_MAGIC == [0xd0, 0x0d, 0xfe, 0xed];
      assert forall k :: 0 <= k < 4 ==> dtb[..4][k] == dtb[k];
      return 0;
    }
    assert dtb[..4] == DTB_MAGIC;
    total := ((dtb[4] as int * 256 + dtb[5]) * 256 + dtb[6]) * 256 + dtb[7];
    if total < 16 || total > |dtb| {
      total := 0;
    }
  }

  /** PSRAM with the DTB at its load address patched, if that is a DTB. */
  function WithPatchedDtb(mem: seq<byte>, dtbSize: nat, va: Word, size: Word): (r: seq<byte>)
    requires DTB_OFFSET + dtbSize <= |mem|
    ensures |r| == |mem|
  {
    var dtb := mem[DTB_OFFSET..DTB_OFFSET + dtbSize];
    if GoodHeader(dtb) then Overlay(mem, DTB_OFFSET, Patched(dtb, va, size)) else mem
  }

  /** Where the placeholder of the DTB in PSRAM is. */
  function Placeholder(mem: seq<byte>, total: nat): (r: Option<nat>)
    requires DTB_OFFSET + total <= |mem|
    ensures r.Some? ==> r.value + 8 <= total
  {
    FirstNeedle(mem[DTB_OFFSET..DTB_OFFSET + total], 0)
  }

  /** Replacing the placeholder where the DTB lies is patching the DTB. */
  lemma PatchInPlace(mem: seq<byte>, dtb: seq<byte>, va: Word, size: Word)
    requires DTB_OFFSET + |dtb| <= |mem| && dtb == mem[DTB_OFFSET..DTB_OFFSET + |dtb|] && GoodHeader(dtb)
    ensures Overlay(mem, DTB_OFFSET, Patched(dtb, va, size)) ==
            Replaced(mem, DTB_OFFSET, Placeholder(mem, TotalSize(dtb)), Cells(va) + Cells(size))
  {
    var first, data := Placeholder(mem, TotalSize(dtb)), Cells(va) + Cells(size);
    WindowPrefix(mem, DTB_OFFSET, |dtb|, TotalSize(dtb));
    assert Patched(dtb, va, size) == Replaced(dtb, 0, first, data);
    ReplacedInside(mem, DTB_OFFSET, dtb, first, data);
  }

  /** One turn of the copy loop: maps the page of offset `done` and takes what is still wanted of it. */
  method MapChunk(part: seq<byte>, done: nat, size: nat, page: nat, bad: set<nat>)
    returns (mapped: bool, chunk: seq<byte>)
    requires page > 0 && done < size <= |part| && done % page == 0 && AllMapped(bad, done, page)
    ensures !mapped ==> !AllMapped(bad, size, page)
    ensures mapped ==> 0 < |chunk| <= size - done && chunk == part[done..done + |chunk|]
    ensures mapped ==> AllMapped(bad, done + |chunk|, page)
    ensures mapped ==> (done + |chunk|) % page == 0 || done + |chunk| == size
  {
    var partOff := done - done % page;
    var intra := done - partOff;
    var n := Min(page - intra, size - done);
    if partOff in bad {
      return false, [];
    }
    var window := part[partOff..];
    NextPage(bad, done, n, page);
    return true, window[intra..intra + n];
  }

  class Psram {
    const mem: array<byte>

    constructor (size: nat)
      ensures fresh(mem) && mem.Length == size
    {
      mem := new byte[size](_ => 0);
    }

    method Memcpy(at: nat, data: seq<byte>)
      requires at + |data| <= mem.Length
      modifies mem
      ensures mem[..] == Overlay(old(mem[..]), at, data)
    {
      forall k | at <= k < at + |data| {
        mem[k] := data[k - at];
      }
    }

    /** `load_partition_mmap`; `bad` are the partition offsets whose page cannot be mapped. */
    method LoadPartition(part: seq<byte>, at: nat, size: nat, page: nat, bad: set<nat>) returns (ok: bool)
      requires page > 0 && size <= |part| && at + size <= mem.Length
      modifies mem
      ensures ok <==> AllMapped(bad, size, page)
      ensures ok ==> mem[..] == Overlay(old(mem[..]), at, part[..size])
      ensures !ok ==> mem[..at] == old(mem[..at]) && mem[at + size..] == old(mem[at + size..])
    {
      ghost var before := mem[..];
      assert Overlay(before, at, part[..0]) == before;
      var done := 0;
      while done < size
        invariant done <= size && (done % page == 0 || done == size)
        invariant AllMapped(bad, done, page)
        invariant mem[..] == Overlay(before, at, part[..done])
      {
        var mapped, chunk := MapChunk(part, done, size, page, bad);
        if !mapped {
          OverlayOutside(before, at, part[..done], size);
          return false;
        }
        OverlayGrow(before, at, part, done, chunk);
        Memcpy(at + done, chunk);
        done := done + |chunk|;
      }
      ok := true;
    }

    /** The search-and-replace loop, run on the DTB at its load address. */
    method ReplaceNeedle(total: nat, replace: seq<byte>) returns (patched: bool)
      requires 8 <= total && DTB_OFFSET + total <= mem.Length && |replace| == 8
      modifies mem
      ensures var first := Placeholder(old(mem[..]), total);
              patched == first.Some? && mem[..] == Replaced(old(mem[..]), DTB_OFFSET, first, replace)
    {
      ghost var dtb := mem[..][DTB_OFFSET..DTB_OFFSET + total];
      patched := false;
      var i := 0;
      while i + 8 <= total
        invariant i <= total && !patched && mem[..] == old(mem[..])
        invariant FirstNeedle(dtb, 0) == FirstNeedle(dtb, i)
      {
        WindowSlice(mem[..], DTB_OFFSET, total, i, i + 8);
        if mem[DTB_OFFSET + i..DTB_OFFSET + i + 8] == NEEDLE {
          Memcpy(DTB_OFFSET + i, replace);
          patched := true;
          return;
        }
        i := i + 1;
      }
    }

    /** The DTB step of `app_main`; false where the source restarts. */
    method PatchDtb(dtbSize: nat, va: Word, size: Word) returns (ok: bool)
      requires 8 <= dtbSize && DTB_OFFSET + dtbSize <= mem.Length
      modifies mem
      ensures ok == GoodHeader(old(mem[..])[DTB_OFFSET..DTB_OFFSET + dtbSize])
      ensures mem[..] == WithPatchedDtb(old(mem[..]), dtbSize, va, size)
    {
      ghost var before := mem[..];
      var dtb := mem[DTB_OFFSET..DTB_OFFSET + dtbSize];
      assert dtb == before[DTB_OFFSET..DTB_OFFSET + dtbSize];
      var total := HeaderTotal(dtb);
      if total == 0 {
        return false;
      }
      PatchInPlace(before, dtb, va, size);
      var patched := ReplaceNeedle(total, Cells(va) + Cells(size));
      return true;
    }
  }

  /** `probe_kernel_size`; `mapped` says whether the header page can be mapped. */
  method ProbeKernelSize(part: seq<byte>, mapped: bool) returns (size: nat)
    requires |part| >= PAGE
    ensures size == if mapped && IsImage(part) then ImageSize(part) else 0
    ensures size <= |part|
    ensures size > 0 <==> mapped && part[48..56] == [0x52, 0x49, 0x53, 0x43, 0x56, 0, 0, 0]
    ensures size > 0 ==> size == if 0 < SizeField(part) <= |part| then SizeField(part) else |part|
  {
    HeaderBytes(part);
    if !mapped {
      return 0;
    }
    var magic := LittleEndian(part[48..56]);
    size := 0;
    if magic == RISCV_IMAGE_MAGIC {
      var imageSize := LittleEndian(part[16..24]);
      if imageSize == 0 || imageSize > |part| {
        size := |part|;
      } else {
        size := imageSize;
      }
    }
  }

  /** PSRAM at the jump: the kernel written first, then the DTB over it. */
  function Loaded(m: seq<byte>, kern: seq<byte>, dtb: seq<byte>): (r: seq<byte>)
    requires |kern| <= |m| && DTB_OFFSET + |dtb| <= |m|
    ensures |r| == |m|
  {
    Overlay(Overlay(m, KERNEL_OFFSET, kern), DTB_OFFSET, dtb)
  }

  /** Writing the DTB twice leaves the second one. */
  lemma DtbReplaced(m: seq<byte>, kern: seq<byte>, dtb: seq<byte>, patched: seq<byte>)
    requires |kern| <= |m| && DTB_OFFSET + |dtb| <= |m| && |patched| == |dtb|
    ensures Loaded(m, kern, dtb)[DTB_OFFSET..DTB_OFFSET + |dtb|] == dtb
    ensures Overlay(Loaded(m, kern, dtb), DTB_OFFSET, patched) == Loaded(m, kern, patched)
  {
  }

  /** Both are in place and the rest of PSRAM is as before if the kernel ends below the DTB. */
  lemma NothingElseChanges(m: seq<byte>, kern: seq<byte>, dtb: seq<byte>)
    requires |kern| <= DTB_OFFSET && DTB_OFFSET + |dtb| <= |m|
    ensures var r := Loaded(m, kern, dtb);
            && r[..|kern|] == kern && r[|kern|..DTB_OFFSET] == m[|kern|..DTB_OFFSET]
            && r[DTB_OFFSET..DTB_OFFSET + |dtb|] == dtb && r[DTB_OFFSET + |dtb|..] == m[DTB_OFFSET + |dtb|..]
  {
    var m1 := Overlay(m, KERNEL_OFFSET, kern);
    OverlayRead(m1, DTB_OFFSET, dtb, 0, |kern|);
    OverlayRead(m1, DTB_OFFSET, dtb, |kern|, DTB_OFFSET);
    OverlayRead(m1, DTB_OFFSET, dtb, DTB_OFFSET + |dtb|, |m|);
  }

  /** The kernel survives the DTB steps exactly when it ends below the DTB or agrees with it where they overlap. */
  lemma KernelIntactIff(m: seq<byte>, kern: seq<byte>, dtb: seq<byte>)
    requires |kern| <= |m| && DTB_OFFSET + |dtb| <= |m|
    ensures Loaded(m, kern, dtb)[..|kern|] == kern <==>
            forall k :: 0 <= k < |dtb| && DTB_OFFSET + k < |kern| ==> kern[DTB_OFFSET + k] == dtb[k]
  {
    var r := Loaded(m, kern, dtb);
    if r[..|kern|] == kern {
      forall k | 0 <= k < |dtb| && DTB_OFFSET + k < |kern| ensures kern[DTB_OFFSET + k] == dtb[k] {
        assert r[..|kern|][DTB_OFFSET + k] == r[DTB_OFFSET + k];
      }
    }
  }

  /**
   * The memory work of `app_main`: if it reaches the jump, PSRAM holds the kernel of the probed size with the patched
   * DTB over it.
   */
  method AppMain(ram: Psram, kern: seq<byte>, dtb: seq<byte>, badKern: set<nat>, badDtb: set<nat>,
                 rootfsVa: Option<Word>, rootfsSize: Word) returns (out: Outcome)
    requires PAGE <= |kern| <= ram.mem.Length && 8 <= |dtb| && DTB_OFFSET + |dtb| <= ram.mem.Length
    modifies ram.mem
    ensures out.Boot? <==>
              && IsImage(kern) && AllMapped(badKern, ImageSize(kern), PAGE)
              && AllMapped(badDtb, |dtb|, PAGE) && rootfsVa.Some? && GoodHeader(dtb)
    ensures out.Boot? ==>
              && out.kernelSize == ImageSize(kern)
              && ram.mem[..] ==
                 Loaded(old(ram.mem[..]), kern[..out.kernelSize], Patched(dtb, rootfsVa.value, rootfsSize))
  {
    ghost var m0 := ram.mem[..];
    var size := ProbeKernelSize(kern, 0 !in badKern);
    assert AllMapped(badKern, ImageSize(kern), PAGE) ==> 0 !in badKern;
    if size == 0 { return Restart; }
    var ok := ram.LoadPartition(kern, KERNEL_OFFSET, size, PAGE, badKern);
    if !ok { return Restart; }
    ok := ram.LoadPartition(dtb, DTB_OFFSET, |dtb|, PAGE, badDtb);
    if !ok || rootfsVa.None? { return Restart; }
    assert dtb[..|dtb|] == dtb;
    DtbReplaced(m0, kern[..size], dtb, dtb);
    ok := ram.PatchDtb(|dtb|, rootfsVa.value, rootfsSize);
    if !ok { return Restart; }
    DtbReplaced(m0, kern[..size], dtb, Patched(dtb, rootfsVa.value, rootfsSize));
    out := Boot(size);
  }
}
