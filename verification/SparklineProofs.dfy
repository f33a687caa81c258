/** What the sparkline shows, and that it never paints outside its rectangle. */
module SparklineProofs {
  import opened Arithmetic
  import opened Basics
  import opened Screen
  import opened Sparkline

  // ---- The window over any number of pushes ----

  function PushAll(vs: seq<int>): (hist: seq<int>)
    ensures |hist| <= SPARK_N && (vs != [] ==> hist != [])
  {
    if vs == [] then [] else Pushed(PushAll(vs[..|vs| - 1]), vs[|vs| - 1])
  }

  function Last(vs: seq<int>, n: nat): seq<int> {
    vs[|vs| - Min(|vs|, n)..]
  }

  lemma PushedLast(vs: seq<int>, v: int)
    ensures Pushed(Last(vs, SPARK_N), v) == Last(vs + [v], SPARK_N)
  {
    if |vs| < SPARK_N {
      assert Last(vs, SPARK_N) == vs;
    } else {
      assert Last(vs, SPARK_N)[1..] == vs[|vs| - SPARK_N + 1..];
    }
  }

  /** The history is the last twenty samples, oldest first. */
  lemma {:induction false} WindowIsSuffix(vs: seq<int>)
    ensures PushAll(vs) == Last(vs, SPARK_N)
  {
    if vs == [] {
    } else {
      var rest := vs[..|vs| - 1];
      WindowIsSuffix(rest);
      PushedLast(rest, vs[|vs| - 1]);
      assert rest + [vs[|vs| - 1]] == vs;
    }
  }

  ghost predicate Bracketed(hist: seq<int>, lo: int, hi: int) {
    forall i :: 0 <= i < |hist| ==> lo <= hist[i] <= hi
  }

  lemma HalfIsClose(a: int)
    ensures a - 1 <= 2 * TruncDiv(a, 2) <= a + 1
  {
  }

  /** The extents bracket every sample and are at least 40 apart, also after widening. */
  lemma ExtentsBracket(hist: seq<int>)
    requires hist != []
    ensures Bracketed(hist, Extents(hist).0, Extents(hist).1)
    ensures Extents(hist).1 - Extents(hist).0 >= 40
  {
    var l, h := Lowest(hist), Highest(hist);
    HalfIsClose(h + l);
    forall i | 0 <= i < |hist| ensures l <= hist[i] <= h {
      ExtremesBracket(hist, i);
    }
  }

  /** Apart by 40 or more, the extents are the extreme samples; otherwise 20 either side of their truncated middle. */
  lemma ExtentsExact(hist: seq<int>, l: int, h: int)
    requires l in hist && h in hist && Bracketed(hist, l, h)
    ensures h - l >= 40 ==> Extents(hist) == (l, h)
    ensures h - l < 40 ==>
              var (lo, hi) := Extents(hist);
              && hi - lo == 40
              && if l + h >= 0 then 0 <= l + h - 2 * (lo + 20) <= 1 else -1 <= l + h - 2 * (lo + 20) <= 0
  {
    var a, b := ExtremesAreSamples(hist);
    var i :| 0 <= i < |hist| && hist[i] == l;
    var j :| 0 <= j < |hist| && hist[j] == h;
    ExtremesBracket(hist, i);
    ExtremesBracket(hist, j);
  }

  // ---- Interpolation ----

  /** C's division: the remainder is smaller than the divisor and never has the other sign. */
  lemma TruncDivMeans(a: int, b: int)
    requires b != 0
    ensures var rem := a - TruncDiv(a, b) * b;
            Abs(rem) < Abs(b) && if a >= 0 then rem >= 0 else rem <= 0
  {
    DivMod(Abs(a), Abs(b));
    Negated(Abs(a) / Abs(b), Abs(b));
  }

  lemma Negated(q: int, b: int)
    ensures (-q) * b == q * (-b) == -(q * b) && (-q) * (-b) == q * b
  {
  }

  /** `a / n` is the one `k` with `k * n <= a < (k + 1) * n`. */
  lemma QuotientBounds(a: nat, n: nat, k: nat)
    requires n > 0
    ensures a <= k * n ==> a / n <= k
    ensures k * n <= a ==> k <= a / n
  {
    DivMod(a, n);
    if a <= k * n && a / n > k { MulLe(k + 1, a / n, n); }
    if k * n <= a && k > a / n { MulLe(a / n + 1, k, n); }
  }

  /** The truncated product is the magnitude's share with the sign of `d`. */
  lemma ShareOfMagnitude(d: int, s: nat, n: nat)
    requires n > 0
    ensures TruncDiv(d * s, n) == if d >= 0 then Abs(d) * s / n else -(Abs(d) * s / n)
  {
    assert d < 0 ==> d * s == -(Abs(d) * s);
    assert Abs(d * s) == Abs(d) * s;
    if d < 0 && s == 0 { assert d * s == 0; }
    if d < 0 && s > 0 { MulLe(1, s, Abs(d)); }
  }

  /** A share `s / n` of `d` lies between zero and `d`, whatever the signs. */
  lemma ShareWithin(d: int, s: nat, n: nat)
    requires n > 0 && s <= n
    ensures if d >= 0 then 0 <= TruncDiv(d * s, n) <= d else d <= TruncDiv(d * s, n) <= 0
  {
    ShareOfMagnitude(d, s, n);
    MulLe(s, n, Abs(d));
    QuotientBounds(Abs(d) * s, n, Abs(d));
    QuotientBounds(Abs(d) * s, n, 0);
  }

  lemma ShareEnds(m: nat, n: nat)
    requires n > 0
    ensures m * 0 / n == 0 && m * n / n == m
  {
    DivModUnique(m * n, n, m, 0);
  }

  lemma LerpEnds(from: int, to: int, steps: nat)
    requires steps > 0
    ensures Lerp(from, to, 0, steps) == from && Lerp(from, to, steps, steps) == to
  {
    ShareOfMagnitude(to - from, 0, steps);
    ShareOfMagnitude(to - from, steps, steps);
    ShareEnds(Abs(to - from), steps);
  }

  /** Adding at most the divisor moves a quotient by at most one. */
  lemma QuotientStep(p: nat, m: nat, n: nat)
    requires n > 0 && m <= n
    ensures p / n <= (p + m) / n <= p / n + 1
  {
    DivMod(p, n);
    QuotientBounds(p + m, n, p / n);
    QuotientBounds(p + m, n, p / n + 2);
    if p + m == (p / n + 2) * n { assert false; }
    if (p + m) / n == p / n + 2 { DivMod(p + m, n); }
  }

  /** Each coordinate is the exact share of the way, rounded towards the start. */
  lemma LerpMeans(from: int, to: int, s: nat, steps: nat)
    requires steps > 0
    ensures var short := (to - from) * s - (Lerp(from, to, s, steps) - from) * steps;
            Abs(short) < steps && if to >= from then short >= 0 else short <= 0
  {
    TruncDivMeans((to - from) * s, steps);
    MulSign(to - from, s);
  }

  lemma MulSign(d: int, s: nat)
    ensures if d >= 0 then d * s >= 0 else d * s <= 0
  {
  }

  lemma LerpStep(from: int, to: int, s: nat, steps: nat)
    requires steps > 0 && Abs(to - from) <= steps
    ensures Abs(Lerp(from, to, s + 1, steps) - Lerp(from, to, s, steps)) <= 1
  {
    var m := Abs(to - from);
    ShareOfMagnitude(to - from, s, steps);
    ShareOfMagnitude(to - from, s + 1, steps);
    assert m * (s + 1) == m * s + m;
    QuotientStep(m * s, m, steps);
  }

  lemma BlobEnds(a: Point, b: Point)
    ensures Blob(a, b, 0) == Rect(a.x - 1, a.y - 1, 3, 3, COL_SPARK)
    ensures Blob(a, b, Steps(b.x - a.x, b.y - a.y)) == Rect(b.x - 1, b.y - 1, 3, 3, COL_SPARK)
  {
    var steps := Steps(b.x - a.x, b.y - a.y);
    LerpEnds(a.x, b.x, steps);
    LerpEnds(a.y, b.y, steps);
  }

  lemma BlobStep(a: Point, b: Point, s: nat)
    ensures Abs(Blob(a, b, s + 1).x - Blob(a, b, s).x) <= 1 && Abs(Blob(a, b, s + 1).y - Blob(a, b, s).y) <= 1
  {
    var steps := Steps(b.x - a.x, b.y - a.y);
    LerpStep(a.x, b.x, s, steps);
    LerpStep(a.y, b.y, s, steps);
  }

  /**
   * The blocks of a segment start on one sample, end on the other, and each is at most one pixel away from the one
   * before it in either axis: the drawn line has no gaps.
   */
  lemma LineIsConnected(a: Point, b: Point, s: nat)
    requires a.x >= 0 && s + 1 < |Segment(a, b)|
    ensures var r := Segment(a, b);
            && (r[0].x, r[0].y) == (a.x - 1, a.y - 1)
            && (r[|r| - 1].x, r[|r| - 1].y) == (b.x - 1, b.y - 1)
            && Abs(r[s + 1].x - r[s].x) <= 1 && Abs(r[s + 1].y - r[s].y) <= 1
  {
    BlobEnds(a, b);
    BlobStep(a, b, s);
  }

  // ---- Where the samples are ----

  lemma ColumnShare(p: Plot, i: nat)
    requires p.w >= 4
    ensures var along := p.X(i) - p.x0 - 2; along * 19 <= i * (p.w - 4) < along * 19 + 19
  {
    MulSign(p.w - 4, i);
    TruncDivMeans(i * (p.w - 4), SPARK_N - 1);
  }

  lemma HeightShare(p: Plot, v: int)
    requires p.lo < p.hi && p.lo <= v && p.h >= 8
    ensures var up := p.y0 + p.h - 4 - p.Y(v); up * (p.hi - p.lo) <= (v - p.lo) * (p.h - 8) < (up + 1) * (p.hi - p.lo)
  {
    MulSign(v - p.lo, p.h - 8);
    TruncDivMeans((v - p.lo) * (p.h - 8), p.hi - p.lo);
    var up := p.y0 + p.h - 4 - p.Y(v);
    assert (up + 1) * (p.hi - p.lo) == up * (p.hi - p.lo) + (p.hi - p.lo);
  }

  /** Sample `i` is at `i` nineteenths of the width between the margins, rounded to the left. */
  lemma ColumnOf(p: Plot, i: nat)
    requires p.w >= 4 && i < |p.hist|
    ensures var along := p.Points()[i].x - p.x0 - 2; along * 19 <= i * (p.w - 4) < along * 19 + 19
  {
    ColumnShare(p, i);
  }

  /** Its height above the lower margin is its share of the range, rounded down. */
  lemma HeightOf(p: Plot, i: nat)
    requires p.lo < p.hi && p.h >= 8 && i < |p.hist| && p.lo <= p.hist[i]
    ensures var up := p.y0 + p.h - 4 - p.Points()[i].y;
            up * (p.hi - p.lo) <= (p.hist[i] - p.lo) * (p.h - 8) < (up + 1) * (p.hi - p.lo)
  {
    HeightShare(p, p.hist[i]);
  }

  /** A sample at the lower extent is on the lower margin, one at the upper extent on the upper margin. */
  lemma MarginsReached(p: Plot, i: nat)
    requires p.lo < p.hi && p.h >= 8 && i < |p.hist|
    ensures p.hist[i] == p.lo ==> p.Points()[i].y == p.y0 + p.h - 4
    ensures p.hist[i] == p.hi ==> p.Points()[i].y == p.y0 + 4
  {
    var range := p.hi - p.lo;
    ShareOfMagnitude(p.h - 8, 0, range);
    ShareOfMagnitude(p.h - 8, range, range);
    ShareEnds(p.h - 8, range);
    assert (p.hi - p.lo) * (p.h - 8) == (p.h - 8) * range;
  }

  /** No sample is drawn below a lower one. */
  lemma HigherIsHigher(p: Plot, i: nat, j: nat)
    requires p.lo < p.hi && p.h >= 8 && i < |p.hist| && j < |p.hist| && p.lo <= p.hist[i] <= p.hist[j]
    ensures p.Points()[j].y <= p.Points()[i].y
  {
    HeightShare(p, p.hist[i]);
    HeightShare(p, p.hist[j]);
    MulLe(p.hist[i] - p.lo, p.hist[j] - p.lo, p.h - 8);
    OrderKept(p.y0 + p.h - 4 - p.Y(p.hist[i]), p.y0 + p.h - 4 - p.Y(p.hist[j]), p.hi - p.lo);
  }

  lemma OrderKept(a: int, b: int, k: nat)
    requires a * k < (b + 1) * k
    ensures a <= b
  {
  }

  /** A line has one block more than its longer side has steps, each three pixels square. */
  lemma SegmentExact(a: Point, b: Point)
    ensures |Segment(a, b)| == if a.x < 0 then 0 else Max(Max(Abs(b.x - a.x), Abs(b.y - a.y)), 1) + 1
    ensures forall s :: 0 <= s < |Segment(a, b)| ==> BlockAt(a, b, s, |Segment(a, b)| - 1, Segment(a, b)[s])
  {
  }

  /** A 3-by-3 block around the `s`-th of `steps` points on the way from `a` to `b`. */
  predicate BlockAt(a: Point, b: Point, s: int, steps: int, r: Rect) {
    && 0 <= s <= steps != 0 && r.w == r.h == 3 && r.colour == COL_SPARK
    && r.x == Lerp(a.x, b.x, s, steps) - 1 && r.y == Lerp(a.y, b.y, s, steps) - 1
  }

  function Concat<T>(parts: seq<seq<T>>): seq<T> {
    if parts == [] then [] else Concat(parts[..|parts| - 1]) + parts[|parts| - 1]
  }

  lemma ConcatPush<T>(parts: seq<seq<T>>, n: nat)
    requires n < |parts|
    ensures Concat(parts[..n + 1]) == Concat(parts[..n]) + parts[n]
  {
    assert parts[..n + 1][..n] == parts[..n];
  }

  /** The lines from each of the points to the next. */
  function Lines(pts: seq<Point>): (lines: seq<seq<Rect>>)
    ensures |lines| == Max(|pts| - 1, 0)
  {
    seq(Max(|pts| - 1, 0), i requires 0 <= i < |pts| - 1 => Segment(pts[i], pts[i + 1]))
  }

  lemma NoLineYet(pts: seq<Point>)
    requires pts != []
    ensures Segments(pts, 1) == []
  {
    assert Segment(Start(pts, 0), pts[0]) == [] && Segments(pts, 0) == [];
  }

  lemma {:induction false} FirstLines(pts: seq<Point>, n: nat)
    requires 0 < n <= |pts|
    ensures Segments(pts, n) == Concat(Lines(pts)[..n - 1])
  {
    if n == 1 {
      NoLineYet(pts);
    } else {
      FirstLines(pts, n - 1);
      ConcatPush(Lines(pts), n - 2);
    }
  }

  lemma AllLines(pts: seq<Point>)
    ensures Segments(pts, |pts|) == Concat(Lines(pts))
  {
    if pts != [] {
      FirstLines(pts, |pts|);
      assert Lines(pts)[..|pts| - 1] == Lines(pts);
    }
  }

  /** First the background and the tick, then the lines between neighbouring samples, and nothing else. */
  lemma DrawnExactly(p: Plot)
    ensures SparkRects(p) ==
            [Rect(p.x0, p.y0, p.w, p.h, COL_SPARK_BG), Rect(p.x0, p.y0, 2, p.h, COL_DIM)] + Concat(Lines(p.Points()))
  {
    AllLines(p.Points());
  }

  // ---- The bound on what is painted ----

  /** A sample point from which a 3-by-3 block fits into the plot. */
  ghost predicate Fits(p: Plot, c: Point) {
    p.x0 + 1 <= c.x <= p.x0 + p.w - 2 && p.y0 + 1 <= c.y <= p.y0 + p.h - 2
  }

  ghost predicate Within(p: Plot, r: Rect) {
    forall x: int, y: int :: r.Covers(x, y) ==> p.x0 <= x < p.x0 + p.w && p.y0 <= y < p.y0 + p.h
  }

  /** A plot of the samples `hist_push` keeps, big enough for its own margins. */
  ghost predicate Shown(p: Plot) {
    |p.hist| <= SPARK_N && (p.hist != [] ==> p.lo < p.hi && Bracketed(p.hist, p.lo, p.hi))
  }

  lemma PointsFit(p: Plot, i: nat)
    requires Shown(p) && p.w >= 4 && p.h >= 6 && i < |p.hist|
    ensures Fits(p, p.Points()[i])
  {
    ShareWithin(p.w - 4, i, SPARK_N - 1);
    assert i * (p.w - 4) == (p.w - 4) * i;
    ShareWithin(p.h - 8, p.hist[i] - p.lo, p.hi - p.lo);
    assert (p.hist[i] - p.lo) * (p.h - 8) == (p.h - 8) * (p.hist[i] - p.lo);
  }

  lemma BlobFits(p: Plot, a: Point, b: Point, s: nat)
    requires Fits(p, a) && Fits(p, b) && s <= Steps(b.x - a.x, b.y - a.y)
    ensures Within(p, Blob(a, b, s))
  {
    var steps := Steps(b.x - a.x, b.y - a.y);
    ShareWithin(b.x - a.x, s, steps);
    ShareWithin(b.y - a.y, s, steps);
  }

  lemma SegmentFits(p: Plot, a: Point, b: Point)
    requires Fits(p, a) && Fits(p, b)
    ensures forall r :: r in Segment(a, b) ==> Within(p, r)
  {
    forall s: nat | s < |Segment(a, b)| ensures Within(p, Segment(a, b)[s]) {
      BlobFits(p, a, b, s);
    }
  }

  lemma {:induction false} SegmentsFit(p: Plot, pts: seq<Point>, n: nat)
    requires n <= |pts| && forall i :: 0 <= i < |pts| ==> Fits(p, pts[i])
    ensures forall r :: r in Segments(pts, n) ==> Within(p, r)
  {
    if n > 0 {
      SegmentsFit(p, pts, n - 1);
      if n > 1 {
        SegmentFits(p, pts[n - 2], pts[n - 1]);
      }
    }
  }

  /** No pixel of the plot is outside its rectangle. */
  lemma PlotStaysInside(p: Plot)
    requires Shown(p) && p.w >= 4 && p.h >= 6
    ensures forall r :: r in SparkRects(p) ==> Within(p, r)
  {
    forall i: nat | i < |p.hist| ensures Fits(p, p.Points()[i]) {
      PointsFit(p, i);
    }
    SegmentsFit(p, p.Points(), |p.hist|);
  }

  lemma {:induction false} FirstSegmentDrawn(pts: seq<Point>, n: nat, r: Rect)
    requires 2 <= n <= |pts| && r in Segment(pts[0], pts[1])
    ensures r in Segments(pts, n)
  {
    if n > 2 {
      FirstSegmentDrawn(pts, n - 1, r);
      assert Segments(pts, n) == Segments(pts, n - 1) + Segment(Start(pts, n - 1), pts[n - 1]);
    } else {
      assert Segments(pts, 2) == Segments(pts, 1) + Segment(pts[0], pts[1]);
    }
  }

  /** The width bound is sharp: a narrower plot of two samples paints to the right of its rectangle. */
  lemma NarrowPlotSpills(p: Plot)
    requires |p.hist| >= 2 && p.w < 4 && p.x0 >= -2
    ensures exists r :: r in SparkRects(p) && !Within(p, r)
  {
    var a, b := p.Points()[0], p.Points()[1];
    FirstColumn(p);
    BlobEnds(a, b);
    var r := Segment(a, b)[0];
    FirstSegmentDrawn(p.Points(), |p.hist|, r);
    BlobSpills(p, r);
  }

  lemma FirstColumn(p: Plot)
    requires p.hist != []
    ensures p.Points()[0].x == p.x0 + 2
  {
    ShareOfMagnitude(0, 0, SPARK_N - 1);
    assert 0 * (p.w - 4) == 0;
  }

  lemma BlobSpills(p: Plot, r: Rect)
    requires r.x == p.x0 + 1 && r.w == 3 && r.h == 3 && p.w < 4
    ensures !Within(p, r)
  {
    assert r.Covers(p.x0 + 3, r.y);
  }

  /** A plot as `draw_sparkline` finds it: the history's window and its extents, if it has any samples. */
  predicate OfHistory(p: Plot) {
    |p.hist| <= SPARK_N && (p.hist != [] ==> (p.lo, p.hi) == Extents(p.hist))
  }

  lemma HistoryIsShown(p: Plot)
    requires OfHistory(p)
    ensures Shown(p)
  {
    if p.hist != [] { ExtentsBracket(p.hist); }
  }

  /**
   * Drawing the sparkline of any history changes no framebuffer cell outside its rectangle: the extents, the
   * interpolation and the clipping together never paint elsewhere.
   */
  lemma SparklineKeepsTheRest(fb: seq<Pixel>, g: Geometry, p: Plot, k: nat)
    requires g.Valid() && k < |fb| && OfHistory(p) && p.w >= 4 && p.h >= 6
    requires !(p.x0 <= g.Column(k) < p.x0 + p.w && p.y0 <= g.Row(k) < p.y0 + p.h)
    ensures FillAll(fb, g, SparkRects(p))[k] == fb[k]
  {
    HistoryIsShown(p);
    PlotStaysInside(p);
    var rects := SparkRects(p);
    forall i | 0 <= i < |rects| ensures !g.Paints(rects[i], k) {
      assert rects[i] in rects;
    }
    FillAllFrame(fb, g, rects, k);
  }

  // ---- When the C arithmetic stays within int ----

  /** Samples of up to 2^30 - 1 in magnitude never take `hist_push` out of `int`. */
  lemma SmallSamplesInRange(s: seq<int>)
    requires s != [] && forall i :: 0 <= i < |s| ==> Abs(s[i]) < 0x4000_0000
    ensures ExtentsInRange(s)
  {
    var a, b := ExtremesAreSamples(s);
  }

  lemma {:induction false} ExtremesAreSamples(s: seq<int>) returns (a: nat, b: nat)
    requires s != []
    ensures a < |s| && b < |s| && s[a] == Lowest(s) && s[b] == Highest(s)
  {
    if |s| == 1 {
      a, b := 0, 0;
    } else {
      var last := |s| - 1;
      a, b := ExtremesAreSamples(s[..last]);
      if s[last] == Lowest(s) { a := last; }
      if s[last] == Highest(s) { b := last; }
    }
  }

  /** A plot of at most 32768 pixels each way, not far off the screen. */
  predicate Small(p: Plot) {
    4 <= p.w <= 0x8000 && 6 <= p.h <= 0x8000 && Abs(p.x0) <= 0x10_0000 && Abs(p.y0) <= 0x10_0000
  }

  /** For such a plot the position of a sample stays within `int` exactly if the range and its scaled height do. */
  lemma SampleInRangeIff(p: Plot, i: nat)
    requires Shown(p) && Small(p) && i < |p.hist|
    ensures p.SampleInRange(i) <==> IsInt(p.hi - p.lo) && IsInt((p.hist[i] - p.lo) * (p.h - 8))
  {
    PointsFit(p, i);
    assert p.Points()[i] == Point(p.X(i), p.Y(p.hist[i]));
    MulLe(i, SPARK_N, p.w - 4);
  }

  lemma ProductIsInt(d: int, s: nat)
    requires Abs(d) <= 0x8000 && s <= 0x8000
    ensures IsInt(d * s)
  {
    MulLe(Abs(d), 0x8000, s);
    MulLe(s, 0x8000, 0x8000);
    assert Abs(d * s) == Abs(d) * s;
  }

  /** And so do all steps of the lines between samples, and the corners of the blocks filled there. */
  lemma LineStaysInRange(p: Plot, a: Point, b: Point, s: nat)
    requires Small(p) && Fits(p, a) && Fits(p, b) && s <= Steps(b.x - a.x, b.y - a.y)
    ensures IsInt(b.x - a.x) && IsInt(b.y - a.y) && IsInt((b.x - a.x) * s) && IsInt((b.y - a.y) * s)
    ensures var r := Blob(a, b, s); IsInt(r.x) && IsInt(r.y) && IsInt(r.x + r.w) && IsInt(r.y + r.h)
  {
    ProductIsInt(b.x - a.x, s);
    ProductIsInt(b.y - a.y, s);
    BlobFits(p, a, b, s);
    var r := Blob(a, b, s);
    assert r.Covers(r.x, r.y);
  }
}
