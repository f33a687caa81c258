/** The display blit (esp32p4_dsi_blit_fb): a tiled 90-degree rotation with a vertical shift. */
module Blit {
  import opened Arithmetic
  import opened Basics

  const BLIT_TILE: nat := 16
  const PANEL_VSHIFT: nat := 16

  /** Index of row `r`, column `c` in a buffer of `stride` pixels per row. */
  function At(r: nat, c: nat, stride: nat): nat { r * stride + c }

  lemma AtInjective(r: nat, c: nat, r': nat, c': nat, stride: nat)
    requires c < stride && c' < stride && At(r, c, stride) == At(r', c', stride)
    ensures r == r' && c == c'
  {
    DivModUnique(At(r, c, stride), stride, r, c);
    DivModUnique(At(r', c', stride), stride, r', c');
  }

  lemma AtBound(r: nat, c: nat, rows: nat, stride: nat)
    requires r < rows && c < stride
    ensures At(r, c, stride) < rows * stride
  {
    MulLe(r + 1, rows, stride);
    assert (r + 1) * stride == r * stride + stride;
  }

  /** What the panel geometry asks of the buffers; the panel is 720 by 720. */
  predicate Fits(src: seq<Pixel>, srcY: nat, stride: nat, W: nat, H: nat) {
    && W % BLIT_TILE == 0 && H % BLIT_TILE == 0 && H <= W <= stride
    && (srcY + H) * stride <= |src|
  }

  /** The source pixel that lands at row `r`, column `c` of the destination. */
  function SourceIndex(srcY: nat, stride: nat, W: nat, H: nat, r: nat, c: nat): nat
    requires r < W && H > 0
  {
    At(srcY + (c + PANEL_VSHIFT) % H, W - 1 - r, stride)
  }

  lemma SourceInRange(src: seq<Pixel>, srcY: nat, stride: nat, W: nat, H: nat, r: nat, c: nat)
    requires Fits(src, srcY, stride, W, H) && r < H
    ensures SourceIndex(srcY, stride, W, H, r, c) < |src|
  {
    AtBound(srcY + (c + PANEL_VSHIFT) % H, W - 1 - r, srcY + H, stride);
  }

  /** Destination cell (r, c) holds its source pixel. */
  ghost predicate Placed(dst: seq<Pixel>, src: seq<Pixel>, srcY: nat, stride: nat, W: nat, H: nat, r: nat, c: nat)
    requires r < W && H > 0
  {
    && At(r, c, W) < |dst| && SourceIndex(srcY, stride, W, H, r, c) < |src|
    && dst[At(r, c, W)] == src[SourceIndex(srcY, stride, W, H, r, c)]
  }

  /** In plain indices: columns become rows from the right, and the window's rows move on by 16, round the end. */
  lemma PlacedMeans(dst: seq<Pixel>, src: seq<Pixel>, srcY: nat, stride: nat, W: nat, H: nat, r: nat, c: nat)
    requires r < H && c < W && |dst| >= H * W && Fits(src, srcY, stride, W, H)
    ensures 0 <= r * W + c < |dst| && 0 <= (srcY + (c + 16) % H) * stride + (W - 1 - r) < |src|
    ensures Placed(dst, src, srcY, stride, W, H, r, c) <==>
              dst[r * W + c] == src[(srcY + (c + 16) % H) * stride + (W - 1 - r)]
  {
    AtBound(r, c, H, W);
    SourceInRange(src, srcY, stride, W, H, r, c);
    assert At(r, c, W) == r * W + c;
    assert SourceIndex(srcY, stride, W, H, r, c) == (srcY + (c + 16) % H) * stride + (W - 1 - r);
  }

  /** Cells finished when the loops stand at tile (br, bc), row r, column c. */
  predicate Finished(br: nat, bc: nat, r: nat, c: nat, r': nat, c': nat) {
    || r' < br
    || (br <= r' < br + BLIT_TILE && c' < bc)
    || (br <= r' < r && c' < bc + BLIT_TILE)
    || (r' == r && c' < c)
  }

  /** The innermost statement: one destination pixel is written and no other changes. */
  method PlotPixel(src: array<Pixel>, srcY: nat, stride: nat, W: nat, H: nat, dst: array<Pixel>, r: nat, c: nat)
    requires src != dst && Fits(src[..], srcY, stride, W, H) && dst.Length >= H * W && r < H && c < W
    modifies dst
    ensures Placed(dst[..], src[..], srcY, stride, W, H, r, c)
    ensures forall r', c' :: 0 <= r' < H && 0 <= c' < W && Placed(old(dst[..]), src[..], srcY, stride, W, H, r', c') ==>
              Placed(dst[..], src[..], srcY, stride, W, H, r', c')
    ensures forall k :: H * W <= k < dst.Length ==> dst[k] == old(dst[k])
  {
    AtBound(r, c, H, W);
    SourceInRange(src[..], srcY, stride, W, H, r, c);
    var dstRow := r * W;
    var srcColOff := W - 1 - r;
    var srcRow := (c + PANEL_VSHIFT) % H;
    assert srcY * stride + (srcRow * stride + srcColOff) == SourceIndex(srcY, stride, W, H, r, c);
    dst[dstRow + c] := src[srcY * stride + (srcRow * stride + srcColOff)];
    forall r', c' | 0 <= r' < H && 0 <= c' < W && Placed(old(dst[..]), src[..], srcY, stride, W, H, r', c')
      ensures Placed(dst[..], src[..], srcY, stride, W, H, r', c')
    {
      if At(r', c', W) == At(r, c, W) { AtInjective(r', c', r, c, W); }
    }
  }

  /** The two inner loops: one tile, leaving finished cells as they are. */
  method BlitTile(src: array<Pixel>, srcY: nat, stride: nat, W: nat, H: nat, dst: array<Pixel>, br: nat, bc: nat)
    requires src != dst && Fits(src[..], srcY, stride, W, H) && dst.Length >= H * W
    requires br + BLIT_TILE <= H && bc + BLIT_TILE <= W
    requires forall r', c' :: 0 <= r' < H && 0 <= c' < W && Finished(br, bc, br, 0, r', c') ==>
               Placed(dst[..], src[..], srcY, stride, W, H, r', c')
    modifies dst
    ensures forall r', c' :: 0 <= r' < H && 0 <= c' < W && Finished(br, bc + BLIT_TILE, br, 0, r', c') ==>
              Placed(dst[..], src[..], srcY, stride, W, H, r', c')
    ensures forall k :: H * W <= k < dst.Length ==> dst[k] == old(dst[k])
  {
    ghost var s := src[..];
    var r := br;
    while r < br + BLIT_TILE
      invariant br <= r <= br + BLIT_TILE && src[..] == s
      invariant forall r', c' :: 0 <= r' < H && 0 <= c' < W && Finished(br, bc, r, 0, r', c') ==>
                  Placed(dst[..], s, srcY, stride, W, H, r', c')
      invariant forall k :: H * W <= k < dst.Length ==> dst[k] == old(dst[k])
    {
      var c := bc;
      while c < bc + BLIT_TILE
        invariant bc <= c <= bc + BLIT_TILE && src[..] == s
        invariant forall r', c' :: 0 <= r' < H && 0 <= c' < W && Finished(br, bc, r, c, r', c') ==>
                    Placed(dst[..], s, srcY, stride, W, H, r', c')
        invariant forall k :: H * W <= k < dst.Length ==> dst[k] == old(dst[k])
      {
        PlotPixel(src, srcY, stride, W, H, dst, r, c);
        c := c + 1;
      }
      r := r + 1;
    }
  }

  lemma NextTile(x: nat, n: nat)
    requires x % BLIT_TILE == 0 && n % BLIT_TILE == 0 && x < n
    ensures x + BLIT_TILE <= n && (x + BLIT_TILE) % BLIT_TILE == 0
  {
  }

  /** The second loop: one band of tiles. */
  method BlitBand(src: array<Pixel>, srcY: nat, stride: nat, W: nat, H: nat, dst: array<Pixel>, br: nat)
    requires src != dst && Fits(src[..], srcY, stride, W, H) && dst.Length >= H * W && br + BLIT_TILE <= H
    requires forall r', c' :: 0 <= r' < br && 0 <= c' < W ==> Placed(dst[..], src[..], srcY, stride, W, H, r', c')
    modifies dst
    ensures forall r', c' :: 0 <= r' < br + BLIT_TILE && 0 <= c' < W ==>
              Placed(dst[..], src[..], srcY, stride, W, H, r', c')
    ensures forall k :: H * W <= k < dst.Length ==> dst[k] == old(dst[k])
  {
    ghost var s := src[..];
    var bc := 0;
    while bc < W
      invariant bc % BLIT_TILE == 0 && bc <= W && src[..] == s
      invariant forall r', c' :: 0 <= r' < H && 0 <= c' < W && Finished(br, bc, br, 0, r', c') ==>
                  Placed(dst[..], s, srcY, stride, W, H, r', c')
      invariant forall k :: H * W <= k < dst.Length ==> dst[k] == old(dst[k])
    {
      NextTile(bc, W);
      BlitTile(src, srcY, stride, W, H, dst, br, bc);
      bc := bc + BLIT_TILE;
    }
  }

  /** The four nested loops leave each destination pixel equal to its source pixel, in place. */
  method BlitFb(src: array<Pixel>, srcY: nat, stride: nat, W: nat, H: nat, dst: array<Pixel>)
    requires src != dst && Fits(src[..], srcY, stride, W, H) && dst.Length >= H * W
    modifies dst
    ensures forall r, c :: 0 <= r < H && 0 <= c < W ==> Placed(dst[..], src[..], srcY, stride, W, H, r, c)
    ensures forall k :: H * W <= k < dst.Length ==> dst[k] == old(dst[k])
  {
    ghost var s := src[..];
    var br := 0;
    while br < H
      invariant br % BLIT_TILE == 0 && br <= H && src[..] == s
      invariant forall r', c' :: 0 <= r' < br && 0 <= c' < W ==> Placed(dst[..], s, srcY, stride, W, H, r', c')
      invariant forall k :: H * W <= k < dst.Length ==> dst[k] == old(dst[k])
    {
      NextTile(br, H);
      BlitBand(src, srcY, stride, W, H, dst, br);
      br := br + BLIT_TILE;
    }
  }

  // ---- The map is a bijection exactly on square panels ----

  /** Row and column of the visible window that cell (r, c) shows. */
  function Shown(W: nat, H: nat, r: nat, c: nat): (nat, nat)
    requires r < W && H > 0
  {
    ((c + PANEL_VSHIFT) % H, W - 1 - r)
  }

  /** The cell that shows row `y`, column `x` of the window. */
  function CellFor(W: nat, H: nat, y: nat, x: nat): (nat, nat)
    requires x < W && H > 0
  {
    (W - 1 - x, (y + PANEL_VSHIFT * (H - 1)) % H)
  }

  lemma ModInverse(H: nat, c: nat)
    requires H > 0 && c < H
    ensures ((c + PANEL_VSHIFT) % H + PANEL_VSHIFT * (H - 1)) % H == c
    ensures ((c + PANEL_VSHIFT * (H - 1)) % H + PANEL_VSHIFT) % H == c
  {
    AddAfterMod(c + PANEL_VSHIFT, PANEL_VSHIFT * (H - 1), H);
    AddAfterMod(c + PANEL_VSHIFT * (H - 1), PANEL_VSHIFT, H);
    assert c + PANEL_VSHIFT + PANEL_VSHIFT * (H - 1) == c + PANEL_VSHIFT * H;
    AddMultiple(c, PANEL_VSHIFT, H);
    DivModUnique(c, H, 0, c);
  }

  /** On a square panel of any size, cells and window pixels determine each other. */
  lemma SquareIsBijection(n: nat, i: nat, j: nat)
    requires i < n && j < n
    ensures var (y, x) := Shown(n, n, i, j); y < n && x < n && CellFor(n, n, y, x) == (i, j)
    ensures var (r, c) := CellFor(n, n, i, j); r < n && c < n && Shown(n, n, r, c) == (i, j)
  {
    ModInverse(n, j);
    ModInverse(n, i);
  }

  /** On a panel wider than high two columns show the same row, so no blit could be undone. */
  lemma WideIsNotInjective(W: nat, H: nat)
    requires 0 < H < W
    ensures Shown(W, H, 0, 0) == Shown(W, H, 0, H)
  {
    AddMultiple(PANEL_VSHIFT, 1, H);
  }

  /** Nothing of the visible window is lost: each of its pixels can be read back from the panel. */
  lemma WindowRecovered(dst: seq<Pixel>, src: seq<Pixel>, srcY: nat, stride: nat, n: nat, y: nat, x: nat)
    requires Fits(src, srcY, stride, n, n) && y < n && x < n
    requires forall r, c :: 0 <= r < n && 0 <= c < n ==> Placed(dst, src, srcY, stride, n, n, r, c)
    ensures var (r, c) := CellFor(n, n, y, x);
      && At(r, c, n) < |dst| && At(srcY + y, x, stride) < |src|
      && dst[At(r, c, n)] == src[At(srcY + y, x, stride)]
  {
    var (r, c) := CellFor(n, n, y, x);
    SquareIsBijection(n, y, x);
    assert Placed(dst, src, srcY, stride, n, n, r, c);
  }
}
