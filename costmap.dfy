/**
 * The costmap generator (`costmap/src/lib.rs`): each batch of points becomes
 * a frame of height cells, and the generator keeps a ring window of the last
 * `window_length` frames.
 *
 * Points arrive already quantised to integer cell coordinates; heights are
 * reals (the float rounding of the quantisation is not modelled).  The
 * quadtree of a frame is a map from a cell's anchor to its record.
 */
module Costmap {
  import opened Wrappers

  /** A quantised point: its cell coordinates and its height. */
  datatype Point = Point(x: int, y: int, height: real)

  /** A cell position relative to the frame's lower corner. */
  datatype Anchor = Anchor(x: int, y: int)

  datatype HeightCell = HeightCell(totalHeight: real, count: nat)

  datatype Bounds = Bounds(minX: int, minY: int, maxX: int, maxY: int, minHeight: real, maxHeight: real)

  datatype CostmapFrame = CostmapFrame(
    cells: map<Anchor, HeightCell>,
    maxDensity: nat,
    maxHeight: real,
    minHeight: real,
    depth: nat)

  /** What one batch of points produces: no frame, a frame, or a panic of the generator. */
  datatype FrameOutcome = NoFrame | Panic | Frame(frame: CostmapFrame)

  /** `Costmap::is_global_point_safe`: no point is reported safe yet. */
  function IsGlobalPointSafe(x: real, y: real, z: real, radius: real): (r: bool)
    ensures !r
  {
    false
  }

  ghost predicate Encloses(b: Bounds, points: seq<Point>)
  {
    forall i :: 0 <= i < |points| ==>
      b.minX <= points[i].x <= b.maxX && b.minY <= points[i].y <= b.maxY &&
      b.minHeight <= points[i].height <= b.maxHeight
  }

  ghost predicate Attained(b: Bounds, points: seq<Point>)
  {
    (exists i :: 0 <= i < |points| && points[i].x == b.minX) &&
    (exists i :: 0 <= i < |points| && points[i].x == b.maxX) &&
    (exists i :: 0 <= i < |points| && points[i].y == b.minY) &&
    (exists i :: 0 <= i < |points| && points[i].y == b.maxY) &&
    (exists i :: 0 <= i < |points| && points[i].height == b.minHeight) &&
    (exists i :: 0 <= i < |points| && points[i].height == b.maxHeight)
  }

  /** One round of the bounding-box loop. */
  function Widen(b: Bounds, p: Point): Bounds
  {
    Bounds(
      if p.x < b.minX then p.x else b.minX,
      if p.y < b.minY then p.y else b.minY,
      if p.x < b.minX then b.maxX else if p.x > b.maxX then p.x else b.maxX,
      if p.y < b.minY then b.maxY else if p.y > b.maxY then p.y else b.maxY,
      if p.height < b.minHeight then p.height else b.minHeight,
      if p.height < b.minHeight then b.maxHeight else if p.height > b.maxHeight then p.height else b.maxHeight)
  }

  /** Widening a box around some points by one more point encloses them all. */
  lemma WidenEncloses(b: Bounds, points: seq<Point>, p: Point)
    requires points != [] && Encloses(b, points)
    ensures Encloses(Widen(b, p), points + [p])
  {
    var all := points + [p];
    assert b.minX <= points[0].x <= b.maxX && b.minY <= points[0].y <= b.maxY;
    assert b.minHeight <= points[0].height <= b.maxHeight;
    assert forall i :: 0 <= i < |points| ==> all[i] == points[i];
    assert all[|points|] == p;
  }

  /** Widening the box of some points by one more point gives the box of them all. */
  lemma WidenTight(b: Bounds, points: seq<Point>, p: Point)
    requires points != [] && Encloses(b, points) && Attained(b, points)
    ensures Encloses(Widen(b, p), points + [p]) && Attained(Widen(b, p), points + [p])
  {
    WidenEncloses(b, points, p);
    var all := points + [p];
    var w := Widen(b, p);
    var n := |points|;
    var i0 :| 0 <= i0 < n && points[i0].x == b.minX;
    var i1 :| 0 <= i1 < n && points[i1].x == b.maxX;
    var i2 :| 0 <= i2 < n && points[i2].y == b.minY;
    var i3 :| 0 <= i3 < n && points[i3].y == b.maxY;
    var i4 :| 0 <= i4 < n && points[i4].height == b.minHeight;
    var i5 :| 0 <= i5 < n && points[i5].height == b.maxHeight;
    assert all[n] == p;
    assert all[if w.minX == p.x then n else i0].x == w.minX;
    assert all[if w.maxX == p.x then n else i1].x == w.maxX;
    assert all[if w.minY == p.y then n else i2].y == w.minY;
    assert all[if w.maxY == p.y then n else i3].y == w.maxY;
    assert all[if w.minHeight == p.height then n else i4].height == w.minHeight;
    assert all[if w.maxHeight == p.height then n else i5].height == w.maxHeight;
  }

  /** The bounds after the loop has seen every point of a non-empty batch. */
  function Box(points: seq<Point>): Bounds
    requires points != []
    decreases |points|
  {
    var p := points[|points| - 1];
    if |points| == 1 then Bounds(p.x, p.y, p.x, p.y, p.height, p.height)
    else Widen(Box(points[..|points| - 1]), p)
  }

  /** The box is the tightest box around the points. */
  lemma {:induction false} BoxTight(points: seq<Point>)
    requires points != []
    ensures Encloses(Box(points), points) && Attained(Box(points), points)
    ensures var b := Box(points); b.minX <= b.maxX && b.minY <= b.maxY && b.minHeight <= b.maxHeight
    decreases |points|
  {
    var p := points[|points| - 1];
    if |points| == 1 {
      assert points[0] == p;
    } else {
      var init := points[..|points| - 1];
      BoxTight(init);
      assert init + [p] == points;
      WidenTight(Box(init), init, p);
    }
  }

  /** The box of one more point is the box so far, widened by that point. */
  lemma BoxStep(points: seq<Point>, k: nat)
    requires 1 <= k < |points|
    ensures Box(points[..k + 1]) == Widen(Box(points[..k]), points[k])
  {
    assert points[..k + 1][..k] == points[..k];
  }

  /** The first loop of the frame builder: the bounds of the batch, `None` for no points. */
  method BoundingBox(points: seq<Point>) returns (b: Option<Bounds>)
    ensures b.None? <==> points == []
    ensures b.Some? ==> b.value == Box(points)
  {
    if points == [] {
      return None;
    }
    var first := points[0];
    var minX, minY, minHeight := first.x, first.y, first.height;
    var maxX, maxY, maxHeight := first.x, first.y, first.height;
    var k := 1;
    while k < |points|
      invariant 1 <= k <= |points|
      invariant Bounds(minX, minY, maxX, maxY, minHeight, maxHeight) == Box(points[..k])
    {
      var p := points[k];
      if p.x < minX {
        minX := p.x;
      } else if p.x > maxX {
        maxX := p.x;
      }
      if p.y < minY {
        minY := p.y;
      } else if p.y > maxY {
        maxY := p.y;
      }
      if p.height < minHeight {
        minHeight := p.height;
      } else if p.height > maxHeight {
        maxHeight := p.height;
      }
      BoxStep(points, k);
      k := k + 1;
    }
    assert points[..k] == points;
    return Some(Bounds(minX, minY, maxX, maxY, minHeight, maxHeight));
  }

  function AnchorOf(p: Point, minX: int, minY: int): Anchor
  {
    Anchor(p.x - minX, p.y - minY)
  }

  /** How many of the points fall into the cell at `a`. */
  function CountAt(points: seq<Point>, minX: int, minY: int, a: Anchor): nat
    decreases |points|
  {
    if points == [] then 0
    else CountAt(points[..|points| - 1], minX, minY, a) +
         (if AnchorOf(points[|points| - 1], minX, minY) == a then 1 else 0)
  }

  /** The sum of the heights of the points that fall into the cell at `a`. */
  function HeightAt(points: seq<Point>, minX: int, minY: int, a: Anchor): real
    decreases |points|
  {
    if points == [] then 0.0
    else HeightAt(points[..|points| - 1], minX, minY, a) +
         (if AnchorOf(points[|points| - 1], minX, minY) == a then points[|points| - 1].height else 0.0)
  }

  /** A cell none of the points falls into holds no height. */
  lemma {:induction false} EmptyCellHasNoHeight(points: seq<Point>, minX: int, minY: int, a: Anchor)
    requires CountAt(points, minX, minY, a) == 0
    ensures HeightAt(points, minX, minY, a) == 0.0
    decreases |points|
  {
    if points != [] {
      EmptyCellHasNoHeight(points[..|points| - 1], minX, minY, a);
    }
  }

  /** A cell is counted exactly when one of the points falls into it. */
  lemma {:induction false} CountAtPositive(points: seq<Point>, minX: int, minY: int, a: Anchor)
    ensures CountAt(points, minX, minY, a) > 0 <==>
            exists i :: 0 <= i < |points| && AnchorOf(points[i], minX, minY) == a
    decreases |points|
  {
    if points != [] {
      var init := points[..|points| - 1];
      CountAtPositive(init, minX, minY, a);
      assert forall i :: 0 <= i < |init| ==> points[i] == init[i];
    }
  }

  /** One point of height `height` into the cell of `anchor`: its count and height sum grow. */
  function AddPoint(cells: map<Anchor, HeightCell>, anchor: Anchor, height: real): map<Anchor, HeightCell>
  {
    if anchor in cells then cells[anchor := HeightCell(cells[anchor].totalHeight + height, cells[anchor].count + 1)]
    else cells[anchor := HeightCell(height, 1)]
  }

  /** The cells the points fill, taken one after another. */
  function CellsOf(points: seq<Point>, minX: int, minY: int): map<Anchor, HeightCell>
    decreases |points|
  {
    if points == [] then map[]
    else
      var p := points[|points| - 1];
      AddPoint(CellsOf(points[..|points| - 1], minX, minY), AnchorOf(p, minX, minY), p.height)
  }

  /**
   * There is a cell exactly for each anchor some point falls into, holding
   * the number of those points and the sum of their heights.
   */
  lemma {:induction false} CellsOfContents(points: seq<Point>, minX: int, minY: int)
    ensures forall a :: a in CellsOf(points, minX, minY) <==> CountAt(points, minX, minY, a) > 0
    ensures forall a :: a in CellsOf(points, minX, minY) ==>
              CellsOf(points, minX, minY)[a] == HeightCell(HeightAt(points, minX, minY, a), CountAt(points, minX, minY, a))
    decreases |points|
  {
    if points != [] {
      var init := points[..|points| - 1];
      CellsOfContents(init, minX, minY);
      var anchor := AnchorOf(points[|points| - 1], minX, minY);
      if anchor !in CellsOf(init, minX, minY) {
        EmptyCellHasNoHeight(init, minX, minY, anchor);
      }
    }
  }

  /** The maximum cell count, `0` for no cells. */
  ghost predicate IsMaxDensity(cells: map<Anchor, HeightCell>, m: nat)
  {
    (forall a :: a in cells ==> cells[a].count <= m) &&
    (cells != map[] ==> exists a :: a in cells && cells[a].count == m) &&
    (cells == map[] ==> m == 0)
  }

  /** `AddPoint` as the loop body does it, keeping the maximum count up to date. */
  method AddToCell(cells0: map<Anchor, HeightCell>, maxDensity0: nat, anchor: Anchor, height: real)
    returns (cells: map<Anchor, HeightCell>, maxDensity: nat)
    requires IsMaxDensity(cells0, maxDensity0)
    ensures cells == AddPoint(cells0, anchor, height)
    ensures IsMaxDensity(cells, maxDensity) && maxDensity >= 1
  {
    if anchor in cells0 {
      var cell := cells0[anchor];
      var count := cell.count + 1;
      cells := cells0[anchor := HeightCell(cell.totalHeight + height, count)];
      maxDensity := if maxDensity0 < count then count else maxDensity0;
      if maxDensity0 < count {
        assert cells[anchor].count == maxDensity;
      } else {
        var w :| w in cells0 && cells0[w].count == maxDensity0;
        assert w in cells && cells[w].count == maxDensity;
      }
    } else {
      cells := cells0[anchor := HeightCell(height, 1)];
      maxDensity := if maxDensity0 < 1 then 1 else maxDensity0;
      if maxDensity0 < 1 {
        assert cells[anchor].count == maxDensity;
      } else {
        var w :| w in cells0 && cells0[w].count == maxDensity0;
        assert w in cells && cells[w].count == maxDensity;
      }
    }
  }

  /**
   * The second loop of the frame builder: one cell per occupied anchor with the
   * number of its points and the sum of their heights, and the largest count.
   */
  method CountCells(points: seq<Point>, minX: int, minY: int)
    returns (cells: map<Anchor, HeightCell>, maxDensity: nat)
    ensures cells == CellsOf(points, minX, minY)
    ensures forall a :: a in cells <==> CountAt(points, minX, minY, a) > 0
    ensures forall a :: a in cells ==>
              cells[a] == HeightCell(HeightAt(points, minX, minY, a), CountAt(points, minX, minY, a))
    ensures IsMaxDensity(cells, maxDensity)
    ensures points != [] ==> maxDensity >= 1
  {
    cells, maxDensity := map[], 0;
    var k := 0;
    while k < |points|
      invariant 0 <= k <= |points|
      invariant cells == CellsOf(points[..k], minX, minY)
      invariant IsMaxDensity(cells, maxDensity)
      invariant k > 0 ==> maxDensity >= 1
    {
      assert points[..k + 1][..k] == points[..k];
      cells, maxDensity := AddToCell(cells, maxDensity, AnchorOf(points[k], minX, minY), points[k].height);
      k := k + 1;
    }
    assert points[..k] == points;
    CellsOfContents(points, minX, minY);
  }

  /** `2^n`. */
  function Pow2(n: nat): (r: nat)
    ensures r >= 1 && IsPowerOfTwo(r)
  {
    if n == 0 then 1 else 2 * Pow2(n - 1)
  }

  predicate IsPowerOfTwo(n: nat)
  {
    n == 1 || (n >= 2 && n % 2 == 0 && IsPowerOfTwo(n / 2))
  }

  /** `usize::ilog2`: the exponent of the largest power of two not above `n`. */
  function Ilog2(n: nat): (r: nat)
    requires n >= 1
    ensures Pow2(r) <= n < Pow2(r + 1)
  {
    if n == 1 then 0 else 1 + Ilog2(n / 2)
  }

  /** Doubles `p` until it reaches `n`. */
  function PowerAtLeast(n: nat, p: nat): (r: nat)
    requires IsPowerOfTwo(p)
    requires p == 1 || p < 2 * n
    ensures IsPowerOfTwo(r) && n <= r && (r == 1 || r < 2 * n)
    decreases n - p
  {
    if p >= n then p else PowerAtLeast(n, 2 * p)
  }

  /** `u32::next_power_of_two`: the least power of two not below `n` (so `1` for `0`). */
  function NextPowerOfTwo(n: nat): (r: nat)
    ensures IsPowerOfTwo(r) && n <= r && (r == 1 || r < 2 * n)
  {
    PowerAtLeast(n, 1)
  }

  /** The quadtree depth of the source: `max_range.ilog2().next_power_of_two()`. */
  function SourceDepth(maxRange: nat): (d: nat)
    requires maxRange >= 1
    ensures IsPowerOfTwo(d) && Ilog2(maxRange) <= d
  {
    NextPowerOfTwo(Ilog2(maxRange))
  }

  /**
   * The source's depth does not always give a quadtree wide enough for the
   * anchors: with a range of 2 the depth is 1, a square 2 cells wide, while the
   * anchors run from 0 to 2.
   */
  lemma SourceDepthTooShallow()
    ensures SourceDepth(2) == 1 && Pow2(SourceDepth(2)) <= 2
  {
    assert Ilog2(2) == 1;
    assert PowerAtLeast(1, 1) == 1;
  }

  /** The least depth whose square, `2^depth` cells wide, holds every anchor up to `maxRange`. */
  function CoveringDepth(maxRange: nat): (d: nat)
    requires maxRange >= 1
    ensures maxRange < Pow2(d)
    ensures d == 0 || Pow2(d - 1) <= maxRange
  {
    Ilog2(maxRange) + 1
  }

  /** The greater of the horizontal and vertical extent of the box. */
  function MaxRange(b: Bounds): (r: int)
    ensures r >= b.maxX - b.minX && r >= b.maxY - b.minY
    ensures r == b.maxX - b.minX || r == b.maxY - b.minY
  {
    if b.maxX - b.minX >= b.maxY - b.minY then b.maxX - b.minX else b.maxY - b.minY
  }

  /**
   * The body of the points subscription: the frame for one batch.  A zero
   * resolution fails the assertion of `create_points_sub`; an empty batch gives
   * no frame; a batch whose points all share one cell makes `ilog2` panic.
   */
  method CreateFrame(resolution: real, points: seq<Point>) returns (r: FrameOutcome)
    ensures resolution == 0.0 ==> r == Panic
    ensures resolution != 0.0 && points == [] ==> r == NoFrame
    ensures resolution != 0.0 && points != [] ==>
              (r == Panic <==> forall i :: 0 <= i < |points| ==> points[i].x == points[0].x && points[i].y == points[0].y)
    ensures r.Frame? ==>
              points != [] &&
              var b := Box(points);
              var f := r.frame;
              (forall a :: a in f.cells <==> CountAt(points, b.minX, b.minY, a) > 0) &&
              (forall a :: a in f.cells ==>
                 a.x >= 0 && a.y >= 0 && f.cells[a] == HeightCell(HeightAt(points, b.minX, b.minY, a), CountAt(points, b.minX, b.minY, a))) &&
              IsMaxDensity(f.cells, f.maxDensity) && f.maxDensity >= 1 &&
              f.minHeight == b.minHeight && f.maxHeight == b.maxHeight &&
              MaxRange(b) >= 1 && f.depth == CoveringDepth(MaxRange(b))
  {
    if resolution == 0.0 {
      return Panic;
    }
    var box := BoundingBox(points);
    if box.None? {
      return NoFrame;
    }
    var b := box.value;
    BoxTight(points);
    var maxRange := MaxRange(b);
    if maxRange == 0 {
      assert forall i :: 0 <= i < |points| ==> points[i].x == points[0].x && points[i].y == points[0].y;
      return Panic;
    }
    var depth := CoveringDepth(maxRange);
    var cells, maxDensity := CountCells(points, b.minX, b.minY);
    forall a | a in cells ensures a.x >= 0 && a.y >= 0 {
      CountAtPositive(points, b.minX, b.minY, a);
    }
    r := Frame(CostmapFrame(cells, maxDensity, b.maxHeight, b.minHeight, depth));
  }

  /** The frames that fill the window before any batch arrives. */
  const EmptyFrame := CostmapFrame(map[], 0, 0.0, 0.0, 0)

  /** The number of cells over a run of frames: the published `point_count`. */
  function TotalCells(frames: seq<CostmapFrame>): nat
    decreases |frames|
  {
    if frames == [] then 0 else TotalCells(frames[..|frames| - 1]) + |frames[|frames| - 1].cells|
  }

  /** Replacing one frame changes the total by the difference of the two frames' sizes. */
  lemma {:induction false} TotalCellsReplace(frames: seq<CostmapFrame>, i: nat, f: CostmapFrame)
    requires i < |frames|
    ensures TotalCells(frames[i := f]) + |frames[i].cells| == TotalCells(frames) + |f.cells|
    decreases |frames|
  {
    var n := |frames| - 1;
    if i < n {
      assert frames[i := f][..n] == frames[..n][i := f];
      TotalCellsReplace(frames[..n], i, f);
    } else {
      assert frames[i := f][..n] == frames[..n];
    }
  }

  /** The ring window of `CostmapGenerator::run`. */
  class CostmapWindow {
    const windowLength: nat
    var frames: array<CostmapFrame>
    var frameIndex: nat

    ghost predicate Valid()
      reads this
    {
      frames.Length == windowLength &&
      (windowLength == 0 ==> frameIndex == 0) &&
      (windowLength > 0 ==> frameIndex < windowLength)
    }

    constructor (windowLength: nat)
      ensures Valid() && fresh(frames) && this.windowLength == windowLength
      ensures frameIndex == 0 && forall i :: 0 <= i < windowLength ==> frames[i] == EmptyFrame
    {
      this.windowLength := windowLength;
      frames := new CostmapFrame[windowLength](_ => EmptyFrame);
      frameIndex := 0;
    }

    /**
     * A frame arrives: it replaces the oldest one and the index moves on,
     * wrapping to 0.  `false` when the window is empty: indexing it panics.
     */
    method Receive(frame: CostmapFrame) returns (ok: bool)
      requires Valid()
      modifies frames, this`frameIndex
      ensures Valid()
      ensures ok <==> windowLength > 0
      ensures ok ==> frames[..] == old(frames[..])[old(frameIndex) := frame]
      ensures ok ==> frameIndex == if old(frameIndex) + 1 >= windowLength then 0 else old(frameIndex) + 1
      ensures !ok ==> frames[..] == old(frames[..]) && frameIndex == old(frameIndex)
    {
      if windowLength == 0 {
        return false;
      }
      frames[frameIndex] := frame;
      frameIndex := frameIndex + 1;
      if frameIndex >= windowLength {
        frameIndex := 0;
      }
      return true;
    }

    /** The `point_count` published with the window: the cells of all its frames. */
    method PointCount() returns (n: nat)
      ensures n == TotalCells(frames[..])
    {
      n := 0;
      var k := 0;
      while k < frames.Length
        invariant 0 <= k <= frames.Length
        invariant n == TotalCells(frames[..k])
      {
        assert frames[..k + 1][..k] == frames[..k];
        n := n + |frames[k].cells|;
        k := k + 1;
      }
      assert frames[..k] == frames[..];
    }
  }
}
