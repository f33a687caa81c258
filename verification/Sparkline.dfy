/** The sensor panel's temperature history (hist_push) and its plot (draw_sparkline). */
module Sparkline {
  import opened Basics
  import opened Screen

  const SPARK_N: nat := 20
  const COL_SPARK: Pixel := Rgb565(255, 200, 90)
  const COL_SPARK_BG: Pixel := Rgb565(30, 35, 50)
  const COL_DIM: Pixel := Rgb565(90, 100, 130)

  /** C's integer division: the quotient rounded toward zero. */
  function TruncDiv(a: int, b: int): (q: int)
    requires b != 0
  {
    var m := Abs(a) / Abs(b);
    if (a < 0) == (b < 0) then m else -m
  }

  // ---- History ----

  /** The window after one more sample. */
  function Pushed(hist: seq<int>, v: int): (r: seq<int>)
    requires |hist| <= SPARK_N
    ensures 0 < |r| <= SPARK_N
  {
    if |hist| < SPARK_N then hist + [v] else hist[1..] + [v]
  }

  function Lowest(s: seq<int>): int
    requires s != []
  {
    if |s| == 1 then s[0] else Min(Lowest(s[..|s| - 1]), s[|s| - 1])
  }

  function Highest(s: seq<int>): int
    requires s != []
  {
    if |s| == 1 then s[0] else Max(Highest(s[..|s| - 1]), s[|s| - 1])
  }

  lemma {:induction false} ExtremesBracket(s: seq<int>, i: nat)
    requires i < |s|
    ensures Lowest(s) <= s[i] <= Highest(s)
  {
    if i < |s| - 1 { ExtremesBracket(s[..|s| - 1], i); }
  }

  lemma ExtremesPush(s: seq<int>, v: int)
    requires s != []
    ensures Lowest(s + [v]) == Min(Lowest(s), v) && Highest(s + [v]) == Max(Highest(s), v)
  {
    assert (s + [v])[..|s|] == s;
  }

  /** The two extremes, or twenty either side of their middle if they are closer than 40. */
  function Widened(lo: int, hi: int): (int, int) {
    if hi - lo < 40 then
      var mid := TruncDiv(hi + lo, 2);
      (mid - 20, mid + 20)
    else (lo, hi)
  }

  function Extents(s: seq<int>): (int, int)
    requires s != []
  {
    Widened(Lowest(s), Highest(s))
  }

  /** Does `hist_push` stay within `int` when it takes the extents of these samples? */
  predicate ExtentsInRange(s: seq<int>)
    requires s != []
  {
    var lo, hi := Lowest(s), Highest(s);
    IsInt(hi - lo) && (hi - lo < 40 ==> IsInt(hi + lo))
  }

  lemma MiddleIsInt(a: int)
    requires IsInt(a)
    ensures IsInt(TruncDiv(a, 2) - 20) && IsInt(TruncDiv(a, 2) + 20)
  {
  }

  class History {
    const tempHist: array<int>
    var n: nat
    var lo: int
    var hi: int

    ghost predicate Valid()
      reads this, tempHist
    {
      && tempHist.Length == SPARK_N && n <= SPARK_N
      && (n > 0 ==> (lo, hi) == Extents(tempHist[..n]))
    }

    ghost function Contents(): seq<int>
      reads this, tempHist
      requires Valid()
    {
      tempHist[..n]
    }

    constructor ()
      ensures Valid() && fresh(tempHist) && Contents() == []
    {
      tempHist := new int[SPARK_N](_ => 0);
      n, lo, hi := 0, 0, 0;
    }

    /** The ghost result says whether every value computed on the way is a C `int`. */
    method HistPush(v: int) returns (ghost inRange: bool)
      requires Valid()
      modifies this, tempHist
      ensures Valid() && Contents() == Pushed(old(Contents()), v)
      ensures inRange <==> ExtentsInRange(Contents())
    {
      if n < SPARK_N {
        tempHist[n] := v;
        n := n + 1;
      } else {
        var i := 1;
        while i < SPARK_N
          invariant 1 <= i <= SPARK_N && n == SPARK_N
          invariant forall k :: 0 <= k < i - 1 ==> tempHist[k] == old(tempHist[k + 1])
          invariant forall k :: i - 1 <= k < SPARK_N ==> tempHist[k] == old(tempHist[k])
        {
          tempHist[i - 1] := tempHist[i];
          i := i + 1;
        }
        tempHist[SPARK_N - 1] := v;
      }
      assert tempHist[..n] == Pushed(old(Contents()), v);
      inRange := RecomputeExtents();
    }

    /** The second half of `hist_push`: lowest and highest sample, widened if they are close. */
    method RecomputeExtents() returns (ghost inRange: bool)
      requires tempHist.Length == SPARK_N && 0 < n <= SPARK_N
      modifies `lo, `hi
      ensures (lo, hi) == Extents(tempHist[..n])
      ensures inRange <==> ExtentsInRange(tempHist[..n])
    {
      ghost var s := tempHist[..n];
      lo, hi := tempHist[0], tempHist[0];
      var i := 1;
      assert s[..1] == [s[0]];
      while i < n
        invariant 1 <= i <= n && lo == Lowest(s[..i]) && hi == Highest(s[..i])
      {
        assert s[..i + 1] == s[..i] + [tempHist[i]];
        ExtremesPush(s[..i], tempHist[i]);
        if tempHist[i] < lo { lo := tempHist[i]; }
        if tempHist[i] > hi { hi := tempHist[i]; }
        i := i + 1;
      }
      assert s[..n] == s;
      inRange := IsInt(hi - lo);
      if hi - lo < 40 {
        inRange := inRange && IsInt(hi + lo);
        if inRange { MiddleIsInt(hi + lo); }
        var mid := TruncDiv(hi + lo, 2);
        lo := mid - 20;
        hi := mid + 20;
        inRange := inRange && IsInt(lo) && IsInt(hi);
      }
    }
  }

  // ---- Plot ----

  datatype Point = Point(x: int, y: int)

  /** The rectangle of a plot with the samples and extents it shows. */
  datatype Plot = Plot(x0: int, y0: int, w: int, h: int, hist: seq<int>, lo: int, hi: int) {
    function X(i: int): int {
      x0 + TruncDiv(i * (w - 4), SPARK_N - 1) + 2
    }

    /** The top of the plot is the maximum, the bottom the minimum. */
    function Y(v: int): int {
      var range := if hi - lo < 1 then 1 else hi - lo;
      y0 + h - 4 - TruncDiv((v - lo) * (h - 8), range)
    }

    /** Are all values computed for the position of sample `i` C `int`s? */
    predicate SampleInRange(i: nat)
      requires i < |hist|
    {
      && IsInt(hi - lo) && IsInt(w - 4) && IsInt(i * (w - 4)) && IsInt(X(i) - 2) && IsInt(X(i))
      && IsInt(hist[i] - lo) && IsInt(h - 8) && IsInt((hist[i] - lo) * (h - 8))
      && IsInt(y0 + h) && IsInt(y0 + h - 4) && IsInt(Y(hist[i]))
    }

    function Points(): (pts: seq<Point>)
      ensures |pts| == |hist|
    {
      seq(|hist|, i requires 0 <= i < |hist| => Point(X(i), Y(hist[i])))
    }

    function Background(): seq<Rect> {
      [Rect(x0, y0, w, h, COL_SPARK_BG), Rect(x0, y0, 2, h, COL_DIM)]
    }
  }

  function Steps(dx: int, dy: int): (n: nat)
    ensures n >= 1 && n >= Abs(dx) && n >= Abs(dy) && (n == 1 || n == Abs(dx) || n == Abs(dy))
  {
    Max(Max(Abs(dx), Abs(dy)), 1)
  }

  /** One coordinate of the `s`-th interpolated point. */
  function Lerp(from: int, to: int, s: nat, steps: nat): int
    requires steps > 0
  {
    from + TruncDiv((to - from) * s, steps)
  }

  /** The 3-by-3 block at the `s`-th of the points joining `a` to `b`. */
  function Blob(a: Point, b: Point, s: nat): Rect {
    var steps := Steps(b.x - a.x, b.y - a.y);
    Rect(Lerp(a.x, b.x, s, steps) - 1, Lerp(a.y, b.y, s, steps) - 1, 3, 3, COL_SPARK)
  }

  /** The first `n` blocks of a segment. */
  function Blobs(a: Point, b: Point, n: nat): (r: seq<Rect>)
    ensures |r| == n && forall s :: 0 <= s < n ==> r[s] == Blob(a, b, s)
  {
    seq(n, s requires 0 <= s < n => Blob(a, b, s))
  }

  lemma BlobsPush(done: seq<Rect>, a: Point, b: Point, n: nat)
    ensures done + Blobs(a, b, n) + [Blob(a, b, n)] == done + Blobs(a, b, n + 1)
  {
    assert Blobs(a, b, n) + [Blob(a, b, n)] == Blobs(a, b, n + 1);
  }

  /** The line from one sample to the next; nothing is drawn from a point left of the screen. */
  function Segment(a: Point, b: Point): seq<Rect> {
    if a.x < 0 then [] else Blobs(a, b, Steps(b.x - a.x, b.y - a.y) + 1)
  }

  /** Where the line to sample `i` starts; before the first sample, at a point left of the screen. */
  function Start(pts: seq<Point>, i: nat): Point
    requires i <= |pts|
  {
    if i == 0 then Point(-1, -1) else pts[i - 1]
  }

  /** The segments that end at the first `n` samples. */
  function Segments(pts: seq<Point>, n: nat): seq<Rect>
    requires n <= |pts|
  {
    if n == 0 then [] else Segments(pts, n - 1) + Segment(Start(pts, n - 1), pts[n - 1])
  }

  /** All rectangles of `draw_sparkline`, in order; a single sample draws no line. */
  function SparkRects(p: Plot): seq<Rect> {
    p.Background() + Segments(p.Points(), |p.hist|)
  }

  /** How many interpolation steps a line takes: the longer of its two sides, at least one. */
  method StepCount(dx: int, dy: int) returns (steps: nat)
    ensures steps == Steps(dx, dy)
  {
    var adx := if dx < 0 then -dx else dx;
    var ady := if dy < 0 then -dy else dy;
    steps := if adx > ady then adx else ady;
    if steps < 1 { steps := 1; }
  }

  /** The short line between two samples. */
  method DrawSegment(f: Framebuffer, a: Point, b: Point)
    requires a.x >= 0 && f.Shows()
    modifies f.fb, f`log
    ensures f.Shows() && f.log == old(f.log) + Segment(a, b)
  {
    var steps := StepCount(b.x - a.x, b.y - a.y);
    var s: nat := 0;
    assert f.log == f.log + Blobs(a, b, 0);
    while s <= steps
      invariant s <= steps + 1 && f.Shows()
      invariant f.log == old(f.log) + Blobs(a, b, s)
    {
      BlobsPush(old(f.log), a, b, s);
      f.Draw(Blob(a, b, s));
      s := s + 1;
    }
  }

  /** `DrawSegment` behind its guard. */
  method DrawFrom(f: Framebuffer, a: Point, b: Point)
    requires f.Shows()
    modifies f.fb, f`log
    ensures f.Shows() && f.log == old(f.log) + Segment(a, b)
  {
    if a.x >= 0 {
      DrawSegment(f, a, b);
    }
  }

  lemma SegmentsPush(done: seq<Rect>, pts: seq<Point>, i: nat)
    requires i < |pts|
    ensures done + Segments(pts, i) + Segment(Start(pts, i), pts[i]) == done + Segments(pts, i + 1)
  {
  }

  /** `pts` holds the screen positions of the first `n` samples. */
  ghost predicate Tracks(p: Plot, pts: seq<Point>, n: nat)
    requires n <= |pts| == |p.hist|
  {
    n == 0 || (Tracks(p, pts, n - 1) && pts[n - 1] == Point(p.X(n - 1), p.Y(p.hist[n - 1])))
  }

  lemma {:induction false} TracksAt(p: Plot, pts: seq<Point>, n: nat, i: nat)
    requires i < n <= |pts| == |p.hist| && Tracks(p, pts, n)
    ensures pts[i] == Point(p.X(i), p.Y(p.hist[i]))
  {
    if i < n - 1 { TracksAt(p, pts, n - 1, i); }
  }

  lemma {:induction false} PointsTrack(p: Plot, n: nat)
    requires n <= |p.hist|
    ensures Tracks(p, p.Points(), n)
  {
    if n > 0 { PointsTrack(p, n - 1); }
  }

  /** The screen position of sample `i`, and whether its computation stays within `int`. */
  method Position(p: Plot, ghost pts: seq<Point>, i: nat) returns (c: Point, ghost inRange: bool)
    requires i < |p.hist| == |pts| && Tracks(p, pts, |pts|)
    ensures c == pts[i] && (inRange <==> p.SampleInRange(i))
  {
    TracksAt(p, pts, |pts|, i);
    var range := p.hi - p.lo;
    inRange := IsInt(range);
    if range < 1 { range := 1; }
    var across := i * (p.w - 4);
    inRange := inRange && IsInt(p.w - 4) && IsInt(across);
    var left := p.x0 + TruncDiv(across, SPARK_N - 1);
    var x := left + 2;
    inRange := inRange && IsInt(left) && IsInt(x);
    var rise := (p.hist[i] - p.lo) * (p.h - 8);
    inRange := inRange && IsInt(p.hist[i] - p.lo) && IsInt(p.h - 8) && IsInt(rise);
    var bottom := p.y0 + p.h - 4;
    var y := bottom - TruncDiv(rise, range);
    inRange := inRange && IsInt(p.y0 + p.h) && IsInt(bottom) && IsInt(y);
    c := Point(x, y);
  }

  /** The loop over the samples. */
  method DrawPlot(f: Framebuffer, p: Plot, ghost pts: seq<Point>)
    requires f.Shows() && |pts| == |p.hist| && Tracks(p, pts, |pts|)
    modifies f.fb, f`log
    ensures f.Shows() && f.log == old(f.log) + Segments(pts, |pts|)
  {
    ghost var done := f.log;
    assert done == done + Segments(pts, 0);
    var prev := Point(-1, -1);
    var i: nat := 0;
    while i < |p.hist|
      invariant i <= |pts| && prev == Start(pts, i)
      invariant f.Shows() && f.log == done + Segments(pts, i)
    {
      var c, inRange := Position(p, pts, i);
      SegmentsPush(done, pts, i);
      DrawFrom(f, prev, c);
      prev := c;
      i := i + 1;
    }
    assert i == |pts|;
  }

  lemma FewSamples(p: Plot)
    requires |p.hist| < 2
    ensures SparkRects(p) == p.Background()
  {
    if |p.hist| == 1 {
      assert Segments(p.Points(), 0) == [];
      assert Segment(Point(-1, -1), p.Points()[0]) == [];
    }
  }

  method DrawSparkline(f: Framebuffer, t: History, x0: int, y0: int, w: int, h: int)
    requires f.Valid() && t.Valid()
    modifies f.fb, f`base, f`log
    ensures f.fb[..] ==
            FillAll(old(f.fb[..]), f.g, SparkRects(Plot(x0, y0, w, h, old(t.Contents()), old(t.lo), old(t.hi))))
  {
    f.Begin();
    var p := Plot(x0, y0, w, h, t.tempHist[..t.n], t.lo, t.hi);
    f.Draw(Rect(x0, y0, w, h, COL_SPARK_BG));
    f.Draw(Rect(x0, y0, 2, h, COL_DIM));
    assert f.log == p.Background();
    if |p.hist| < 2 {
      FewSamples(p);
      return;
    }
    PointsTrack(p, |p.hist|);
    DrawPlot(f, p, p.Points());
  }
}
