/** Byte-level vocabulary of the boot shim: overlays, byte order, the kernel header and the DTB placeholder. */
module BootImage {
  import opened Basics

  const KERNEL_OFFSET: nat := 0
  /** DTB_LOAD_PA - KERNEL_LOAD_PA. */
  const DTB_OFFSET: nat := 0x80_0000
  const PAGE: nat := 0x1_0000
  const RISCV_IMAGE_MAGIC: nat := 0x5643534952
  const DTB_MAGIC: seq<byte> := [0xd0, 0x0d, 0xfe, 0xed]
  const NEEDLE: seq<byte> := [0xde, 0xad, 0xbe, 0xef, 0xca, 0xfe, 0xfa, 0xde]

  // ---- Memory ----

  /** `mem` with `data` copied over it at `at`. */
  function Overlay(mem: seq<byte>, at: nat, data: seq<byte>): (r: seq<byte>)
    requires at + |data| <= |mem|
    ensures |r| == |mem|
    ensures forall k :: 0 <= k < |mem| ==> r[k] == if at <= k < at + |data| then data[k - at] else mem[k]
  {
    seq(|mem|, k requires 0 <= k < |mem| => if at <= k < at + |data| then data[k - at] else mem[k])
  }

  /** Copying the next chunk of a partition behind the first `done` bytes. */
  lemma OverlayGrow(mem: seq<byte>, at: nat, part: seq<byte>, done: nat, chunk: seq<byte>)
    requires done + |chunk| <= |part| && at + done + |chunk| <= |mem| && chunk == part[done..done + |chunk|]
    ensures Overlay(Overlay(mem, at, part[..done]), at + done, chunk) == Overlay(mem, at, part[..done + |chunk|])
  {
    assert part[..done] + chunk == part[..done + |chunk|];
  }

  /** Copying fewer than `size` bytes to `at` leaves everything outside those `size` bytes alone. */
  lemma OverlayOutside(mem: seq<byte>, at: nat, data: seq<byte>, size: nat)
    requires |data| <= size && at + size <= |mem|
    ensures Overlay(mem, at, data)[..at] == mem[..at] && Overlay(mem, at, data)[at + size..] == mem[at + size..]
  {
  }

  lemma OverlayRead(mem: seq<byte>, at: nat, data: seq<byte>, lo: nat, hi: nat)
    requires at + |data| <= |mem| && lo <= hi <= |mem|
    ensures hi <= at || at + |data| <= lo ==> Overlay(mem, at, data)[lo..hi] == mem[lo..hi]
    ensures Overlay(mem, at, data)[at..at + |data|] == data
  {
  }

  /** Part of a window is part of the memory under it. */
  lemma WindowSlice(mem: seq<byte>, at: nat, size: nat, lo: nat, hi: nat)
    requires at + size <= |mem| && lo <= hi <= size
    ensures mem[at..at + size][lo..hi] == mem[at + lo..at + hi]
  {
    var window := mem[at..at + size];
    assert forall k :: 0 <= k < hi - lo ==> window[lo..hi][k] == window[lo + k] == mem[at + lo + k];
  }

  lemma WindowPrefix(mem: seq<byte>, at: nat, size: nat, hi: nat)
    requires at + size <= |mem| && hi <= size
    ensures mem[at..at + size][..hi] == mem[at..at + hi]
  {
  }

  // ---- Byte order ----

  /** Little-endian value, as a `memcpy` into an integer reads it on this core. */
  function LittleEndian(s: seq<byte>): (v: nat) {
    if s == [] then 0 else s[0] + 256 * LittleEndian(s[1..])
  }

  /** Eight bytes in memory order: each weighs 256 times the one before it. */
  lemma EightBytes(s: seq<byte>)
    requires |s| == 8
    ensures LittleEndian(s) ==
            s[0] as int + 0x100 * s[1] as int + 0x1_0000 * s[2] as int + 0x100_0000 * s[3] as int
            + 0x1_0000_0000 * s[4] as int + 0x100_0000_0000 * s[5] as int + 0x1_0000_0000_0000 * s[6] as int
            + 0x100_0000_0000_0000 * s[7] as int
  {
    assert s == [s[0], s[1], s[2], s[3]] + s[4..] && s[4..] == [s[4], s[5], s[6], s[7]] + [];
    FourBytes(s[0], s[1], s[2], s[3], s[4..]);
    FourBytes(s[4], s[5], s[6], s[7], []);
  }

  lemma LittleEndianPush(b: byte, rest: seq<byte>)
    ensures LittleEndian([b] + rest) == b as int + 0x100 * LittleEndian(rest)
  {
    assert ([b] + rest)[1..] == rest;
  }

  lemma FourBytes(a: byte, b: byte, c: byte, d: byte, rest: seq<byte>)
    ensures LittleEndian([a, b, c, d] + rest) ==
            a as int + 0x100 * b as int + 0x1_0000 * c as int + 0x100_0000 * d as int
            + 0x1_0000_0000 * LittleEndian(rest)
  {
    LittleEndianPush(d, rest);
    LittleEndianPush(c, [d] + rest);
    LittleEndianPush(b, [c] + ([d] + rest));
    LittleEndianPush(a, [b] + ([c] + ([d] + rest)));
    assert [a, b, c, d] + rest == [a] + ([b] + ([c] + ([d] + rest)));
  }

  /** The value of four bytes, most significant first. */
  function BigEndian(a: byte, b: byte, c: byte, d: byte): (v: nat) {
    ((a as int * 256 + b) * 256 + c) * 256 + d
  }

  /** The four bytes of `v`, most significant first. */
  function Cells(v: Word): (s: seq<byte>)
    ensures |s| == 4
  {
    [v / 0x100_0000, v / 0x1_0000 % 256, v / 0x100 % 256, v % 256]
  }

  /** The cell that starts at `i`. */
  function CellAt(s: seq<byte>, i: nat): (v: nat)
    requires i + 4 <= |s|
  {
    BigEndian(s[i], s[i + 1], s[i + 2], s[i + 3])
  }

  lemma CellsDecode(v: Word)
    ensures CellAt(Cells(v), 0) == v
  {
    var b, c := v / 0x1_0000 % 256, v / 0x100 % 256;
    assert v / 0x1_0000 == v / 0x100_0000 * 256 + b;
    assert v / 0x100 == v / 0x1_0000 * 256 + c;
  }

  // ---- The kernel image header ----

  predicate IsImage(part: seq<byte>) {
    |part| >= PAGE && LittleEndian(part[48..56]) == RISCV_IMAGE_MAGIC
  }

  /** The header's image size, or the whole partition if the header gives none or too much. */
  function ImageSize(part: seq<byte>): (size: nat)
    requires |part| >= PAGE
    ensures 0 < size <= |part|
  {
    var size := LittleEndian(part[16..24]);
    if size == 0 || size > |part| then |part| else size
  }

  /** The header's size field, byte by byte. */
  function SizeField(part: seq<byte>): (n: nat)
    requires |part| >= 24
  {
    part[16] as int + 0x100 * part[17] as int + 0x1_0000 * part[18] as int + 0x100_0000 * part[19] as int
    + 0x1_0000_0000 * part[20] as int + 0x100_0000_0000 * part[21] as int + 0x1_0000_0000_0000 * part[22] as int
    + 0x100_0000_0000_0000 * part[23] as int
  }

  /** The magic is the text "RISCV" and three zeros, and the size is little-endian. */
  lemma HeaderBytes(part: seq<byte>)
    requires |part| >= PAGE
    ensures IsImage(part) <==> part[48..56] == [0x52, 0x49, 0x53, 0x43, 0x56, 0, 0, 0]
    ensures ImageSize(part) == if 0 < SizeField(part) <= |part| then SizeField(part) else |part|
  {
    EightBytes(part[48..56]);
    EightBytes(part[16..24]);
    MagicBytes(part[48..56]);
  }

  lemma MagicBytes(s: seq<byte>)
    requires |s| == 8
    ensures LittleEndian(s) == RISCV_IMAGE_MAGIC <==> s == [0x52, 0x49, 0x53, 0x43, 0x56, 0, 0, 0]
  {
    EightBytes(s);
  }

  // ---- The DTB placeholder ----

  function TotalSize(dtb: seq<byte>): nat
    requires |dtb| >= 8
  {
    CellAt(dtb, 4)
  }

  predicate GoodHeader(dtb: seq<byte>) {
    |dtb| >= 8 && dtb[..4] == DTB_MAGIC && 16 <= TotalSize(dtb) <= |dtb|
  }

  /** A DTB starts with d0 0d fe ed and its size, most significant byte first. */
  lemma DtbHeaderBytes(dtb: seq<byte>)
    requires |dtb| >= 8
    ensures GoodHeader(dtb) <==>
              && dtb[0] == 0xd0 && dtb[1] == 0x0d && dtb[2] == 0xfe && dtb[3] == 0xed
              && 16 <= dtb[4] as int * 0x100_0000 + dtb[5] as int * 0x1_0000 + dtb[6] as int * 0x100 + dtb[7] as int
                 <= |dtb|
  {
    assert dtb[..4] == [dtb[0], dtb[1], dtb[2], dtb[3]];
  }

  predicate NeedleAt(s: seq<byte>, i: nat) {
    i + 8 <= |s| && s[i..i + 8] == NEEDLE
  }

  /** The first placeholder at or after `i`. */
  function FirstNeedle(s: seq<byte>, i: nat): (r: Option<nat>)
    ensures r.Some? ==> i <= r.value && r.value + 8 <= |s|
    decreases |s| - i
  {
    if i + 8 > |s| then None else if NeedleAt(s, i) then Some(i) else FirstNeedle(s, i + 1)
  }

  lemma {:induction false} FirstNeedleIsFirst(s: seq<byte>, i: nat)
    ensures var r := FirstNeedle(s, i);
            && (r.Some? ==> NeedleAt(s, r.value))
            && (forall k: nat :: i <= k && (r.Some? ==> k < r.value) ==> !NeedleAt(s, k))
    decreases |s| - i
  {
    if i + 8 <= |s| && !NeedleAt(s, i) { FirstNeedleIsFirst(s, i + 1); }
  }

  /** `data` copied to `base + i`, if there is an `i`. */
  function Replaced(s: seq<byte>, base: nat, i: Option<nat>, data: seq<byte>): (r: seq<byte>)
    requires i.Some? ==> base + i.value + |data| <= |s|
    ensures |r| == |s|
  {
    if i.None? then s else Overlay(s, base + i.value, data)
  }

  /** Replacing inside a window is replacing in the memory under it. */
  lemma ReplacedInside(mem: seq<byte>, at: nat, window: seq<byte>, i: Option<nat>, data: seq<byte>)
    requires at + |window| <= |mem| && window == mem[at..at + |window|]
    requires i.Some? ==> i.value + |data| <= |window|
    ensures Overlay(mem, at, Replaced(window, 0, i, data)) == Replaced(mem, at, i, data)
  {
  }

  /** The DTB handed to Linux. */
  function Patched(dtb: seq<byte>, va: Word, size: Word): (r: seq<byte>)
    requires GoodHeader(dtb)
    ensures |r| == |dtb|
  {
    Replaced(dtb, 0, FirstNeedle(dtb[..TotalSize(dtb)], 0), Cells(va) + Cells(size))
  }

  lemma MagicIsNoNeedle(s: seq<byte>, i: nat)
    requires |s| >= 4 && s[..4] == DTB_MAGIC && NeedleAt(s, i)
    ensures i >= 4
  {
    assert s[0] == s[..4][0] && s[1] == s[..4][1] && s[2] == s[..4][2] && s[3] == s[..4][3];
    assert s[i] == s[i..i + 8][0];
  }

  /** `r` is `dtb` with the eight bytes at `i` replaced by two cells that decode to `va` and `size`. */
  ghost predicate PatchedAt(dtb: seq<byte>, r: seq<byte>, i: nat, va: Word, size: Word) {
    && i + 8 <= |dtb| == |r| && r[..i] == dtb[..i] && r[i + 8..] == dtb[i + 8..]
    && r[i] as int * 0x100_0000 + r[i + 1] as int * 0x1_0000 + r[i + 2] as int * 0x100 + r[i + 3] as int == va
    && r[i + 4] as int * 0x100_0000 + r[i + 5] as int * 0x1_0000 + r[i + 6] as int * 0x100 + r[i + 7] as int == size
  }

  lemma OverlayPatches(dtb: seq<byte>, i: nat, va: Word, size: Word)
    requires i + 8 <= |dtb|
    ensures PatchedAt(dtb, Overlay(dtb, i, Cells(va) + Cells(size)), i, va, size)
  {
    var r := Overlay(dtb, i, Cells(va) + Cells(size));
    OverlayRead(dtb, i, Cells(va) + Cells(size), 0, i);
    OverlayRead(dtb, i, Cells(va) + Cells(size), i + 8, |dtb|);
    CellsDecode(va);
    CellsDecode(size);
    assert CellAt(r, i) == CellAt(Cells(va), 0) && CellAt(r, i + 4) == CellAt(Cells(size), 0);
  }

  /** `i` is the first placeholder of `s`. */
  ghost predicate FirstAt(s: seq<byte>, i: nat) {
    NeedleAt(s, i) && forall k: nat :: k < i ==> !NeedleAt(s, k)
  }

  /**
   * Patching changes at most the eight bytes of the first placeholder below totalsize; they decode to the address and
   * size of the root file system, and the header's magic is never hit.
   */
  lemma PatchIsLocal(dtb: seq<byte>, va: Word, size: Word)
    requires GoodHeader(dtb)
    ensures var s := dtb[..TotalSize(dtb)];
            && ((forall i: nat :: !NeedleAt(s, i)) ==> Patched(dtb, va, size) == dtb)
            && (forall i: nat :: FirstAt(s, i) ==> i >= 4 && PatchedAt(dtb, Patched(dtb, va, size), i, va, size))
  {
    var s := dtb[..TotalSize(dtb)];
    FirstNeedleIsFirst(s, 0);
    forall i: nat | FirstAt(s, i) ensures i >= 4 && PatchedAt(dtb, Patched(dtb, va, size), i, va, size) {
      assert FirstNeedle(s, 0) == Some(i);
      assert s[..4] == dtb[..4];
      MagicIsNoNeedle(s, i);
      OverlayPatches(dtb, i, va, size);
    }
  }
}
