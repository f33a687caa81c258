/** The sensor panel's shadow framebuffer and its clipped rectangle fill (fill_rect). */
module Screen {
  import opened Arithmetic
  import opened Basics

  function Rgb565(r: byte, g: byte, b: byte): Pixel {
    r / 8 * 8 * 256 + g / 4 * 4 * 8 + b / 8
  }

  /** Five bits of red, six of green and five of blue, each the channel's highest. */
  lemma Rgb565Fields(r: byte, g: byte, b: byte)
    ensures var p := Rgb565(r, g, b); p / 2048 == r / 8 && p / 32 % 64 == g / 4 && p % 32 == b / 8
  {
    var p := Rgb565(r, g, b);
    assert p == r / 8 * 2048 + (g / 4 * 32 + b / 8) && g / 4 * 32 + b / 8 < 2048;
    assert p / 32 == r / 8 * 64 + g / 4;
  }

  datatype Rect = Rect(x: int, y: int, w: int, h: int, colour: Pixel) {
    predicate Covers(px: int, py: int) {
      x <= px < x + w && y <= py < y + h
    }
  }

  /** Visible size and line length in pixels. */
  datatype Geometry = Geometry(w: nat, h: nat, stride: nat) {
    predicate Valid() { 0 < stride && w <= stride }

    function Column(k: nat): (c: nat)
      requires Valid()
      ensures c < stride
    {
      k % stride
    }

    function Row(k: nat): (r: nat)
      requires Valid()
      ensures r * stride + Column(k) == k
    {
      DivMod(k, stride);
      k / stride
    }

    /** Does buffer cell `k` show, and does the rectangle cover it? */
    predicate Paints(r: Rect, k: nat)
      requires Valid()
    {
      Column(k) < w && Row(k) < h && r.Covers(Column(k), Row(k))
    }
  }

  /** The buffer after filling one rectangle, clipped to the visible part. */
  function Fill(fb: seq<Pixel>, g: Geometry, r: Rect): (fb': seq<Pixel>)
    requires g.Valid()
    ensures |fb'| == |fb|
  {
    seq(|fb|, k requires 0 <= k < |fb| => if g.Paints(r, k) then r.colour else fb[k])
  }

  function FillAll(fb: seq<Pixel>, g: Geometry, rects: seq<Rect>): (fb': seq<Pixel>)
    requires g.Valid()
    ensures |fb'| == |fb|
  {
    if rects == [] then fb else Fill(FillAll(fb, g, rects[..|rects| - 1]), g, rects[|rects| - 1])
  }

  lemma FillAllPush(fb: seq<Pixel>, g: Geometry, rects: seq<Rect>, r: Rect)
    requires g.Valid()
    ensures FillAll(fb, g, rects + [r]) == Fill(FillAll(fb, g, rects), g, r)
  {
    assert (rects + [r])[..|rects|] == rects;
  }

  /** Cells that no rectangle covers keep their colour. */
  lemma {:induction false} FillAllFrame(fb: seq<Pixel>, g: Geometry, rects: seq<Rect>, k: nat)
    requires g.Valid() && k < |fb| && forall i :: 0 <= i < |rects| ==> !g.Paints(rects[i], k)
    ensures FillAll(fb, g, rects)[k] == fb[k]
  {
    if rects != [] { FillAllFrame(fb, g, rects[..|rects| - 1], k); }
  }

  /** Rectangles that agree on the visible cells fill alike. */
  lemma FillClip(fb: seq<Pixel>, g: Geometry, r: Rect, r': Rect)
    requires g.Valid() && r.colour == r'.colour
    requires forall px: nat, py: nat :: px < g.w && py < g.h ==> (r.Covers(px, py) <==> r'.Covers(px, py))
    ensures Fill(fb, g, r) == Fill(fb, g, r')
  {
    forall k | 0 <= k < |fb| ensures Fill(fb, g, r)[k] == Fill(fb, g, r')[k] {
      var px, py := g.Column(k), g.Row(k);
      assert px < g.w && py < g.h ==> (r.Covers(px, py) <==> r'.Covers(px, py));
    }
  }

  /** A rectangle of `n` rows and then the row below it make a rectangle of `n + 1` rows. */
  lemma FillGrow(fb: seq<Pixel>, g: Geometry, x: int, y: int, w: int, n: nat, c: Pixel)
    requires g.Valid()
    ensures Fill(Fill(fb, g, Rect(x, y, w, n, c)), g, Rect(x, y + n, w, 1, c)) == Fill(fb, g, Rect(x, y, w, n + 1, c))
  {
  }

  lemma FillNothing(fb: seq<Pixel>, g: Geometry, r: Rect)
    requires g.Valid()
    requires forall px: nat, py: nat :: px < g.w && py < g.h ==> !r.Covers(px, py)
    ensures Fill(fb, g, r) == fb
  {
    forall k | 0 <= k < |fb| ensures Fill(fb, g, r)[k] == fb[k] {
      var px, py := g.Column(k), g.Row(k);
      assert px < g.w && py < g.h ==> !r.Covers(px, py);
    }
  }

  lemma CellOf(px: nat, py: nat, g: Geometry)
    requires g.Valid() && px < g.w
    ensures g.Column(py * g.stride + px) == px && g.Row(py * g.stride + px) == py
  {
    DivModUnique(py * g.stride + px, g.stride, py, px);
  }

  /** Cell by cell: visible cells inside the rectangle take its colour, all others stay. */
  lemma FillMeans(fb: seq<Pixel>, g: Geometry, r: Rect, px: nat, py: nat)
    requires g.Valid() && px < g.stride && py * g.stride + px < |fb|
    ensures Fill(fb, g, r)[py * g.stride + px] ==
            if px < g.w && py < g.h && r.x <= px && px < r.x + r.w && r.y <= py && py < r.y + r.h
            then r.colour else fb[py * g.stride + px]
  {
    DivModUnique(py * g.stride + px, g.stride, py, px);
  }

  /** `log` lists the rectangles filled since the buffer held `base`. */
  class Framebuffer {
    const fb: array<Pixel>
    const g: Geometry
    ghost var base: seq<Pixel>
    ghost var log: seq<Rect>

    ghost predicate Valid() {
      g.Valid() && g.h * g.stride <= fb.Length
    }

    ghost predicate Shows()
      reads this, fb
    {
      Valid() && fb[..] == FillAll(base, g, log)
    }

    constructor (g: Geometry)
      requires g.Valid()
      ensures Valid() && fresh(fb) && this.g == g
    {
      this.g := g;
      fb := new Pixel[g.h * g.stride];
      base, log := [], [];
    }

    /** Starts the list afresh. */
    ghost method Begin()
      requires Valid()
      modifies `base, `log
      ensures Shows() && base == fb[..] && log == []
    {
      base, log := fb[..], [];
    }

    /** The inner loop of `fill_rect`: `w` cells of row `y` from column `x0`. */
    method FillRow(x0: nat, y: nat, w: nat, c: Pixel)
      requires Valid() && x0 + w <= g.w && y < g.h
      modifies fb
      ensures fb[..] == Fill(old(fb[..]), g, Rect(x0, y, w, 1, c))
    {
      MulLe(y + 1, g.h, g.stride);
      var row := y * g.stride + x0;
      var i := 0;
      while i < w
        invariant i <= w
        invariant fb[..] == Fill(old(fb[..]), g, Rect(x0, y, i, 1, c))
      {
        ghost var before := fb[..];
        CellOf(x0 + i, y, g);
        fb[row + i] := c;
        forall k | 0 <= k < fb.Length
          ensures fb[k] == if g.Paints(Rect(x0, y, i + 1, 1, c), k) then c else old(fb[..])[k]
        {
          assert before[k] == if g.Paints(Rect(x0, y, i, 1, c), k) then c else old(fb[..])[k];
        }
        i := i + 1;
      }
    }

    /** The outer loop of `fill_rect`, on a rectangle that is visible. */
    method FillRows(x: nat, y: nat, w: nat, h: nat, c: Pixel)
      requires Valid() && x + w <= g.w && y + h <= g.h
      modifies fb
      ensures fb[..] == Fill(old(fb[..]), g, Rect(x, y, w, h, c))
    {
      ghost var before := fb[..];
      FillNothing(before, g, Rect(x, y, w, 0, c));
      var row := y;
      while row < y + h
        invariant y <= row <= y + h
        invariant fb[..] == Fill(before, g, Rect(x, y, w, row - y, c))
      {
        FillRow(x, row, w, c);
        FillGrow(before, g, x, y, w, row - y, c);
        row := row + 1;
      }
    }

    /** `fill_rect`: clip to the visible part, then fill row by row. */
    method FillRect(x0: int, y0: int, w0: int, h0: int, c: Pixel)
      requires Valid()
      modifies fb
      ensures fb[..] == Fill(old(fb[..]), g, Rect(x0, y0, w0, h0, c))
    {
      var x, y, w, h := x0, y0, w0, h0;
      if x < 0 { w := w + x; x := 0; }
      if y < 0 { h := h + y; y := 0; }
      if x + w > g.w { w := g.w - x; }
      if y + h > g.h { h := g.h - y; }
      if w <= 0 || h <= 0 {
        FillNothing(fb[..], g, Rect(x0, y0, w0, h0, c));
        return;
      }
      FillClip(fb[..], g, Rect(x, y, w, h, c), Rect(x0, y0, w0, h0, c));
      FillRows(x, y, w, h, c);
    }

    /** `FillRect` as one more entry of the list. */
    method Draw(r: Rect)
      requires Shows()
      modifies fb, `log
      ensures Shows() && log == old(log) + [r]
    {
      FillRect(r.x, r.y, r.w, r.h, r.colour);
      FillAllPush(base, g, log, r);
      log := log + [r];
    }
  }
}
