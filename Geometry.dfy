/**
 * The dimension arithmetic of `merge_images` (main.py:18-41), which the
 * batch preview repeats line for line (main.py:222-235).
 *
 * Images are reduced to their sizes: the pixels that PIL resizes and
 * pastes are not modelled. A decoded image has a positive width and
 * height; a scaled size truncates to zero for a thin enough image, and
 * `Resizable` says when that does not happen.
 *
 * The source computes `int(w * h / H)` with floating-point division. On
 * positive integers whose product stays below 2^53 that is exactly the
 * floor of the rational quotient, which is what `/` on `nat` gives here.
 */
module Geometry {

  type Pos = n: int | n > 0 witness 1

  /** Size of a decoded image. */
  datatype Dims = Dims(width: Pos, height: Pos)

  /** Size of a rescaled image or of the canvas. */
  datatype Extent = Extent(width: nat, height: nat)

  /** Paste position, in pixels from the canvas's top-left corner. */
  datatype Point = Point(x: nat, y: nat)

  /** `horizontal`: side by side, equal heights; `vertical`: stacked, equal widths. */
  datatype Direction = Horizontal | Vertical

  /** Everything `merge_images` decides about sizes and positions. */
  datatype Layout = Layout(canvas: Extent, first: Extent, second: Extent, secondAt: Point)

  function Min(a: int, b: int): int { if a <= b then a else b }

  /**
   * `r` is `len * target / along` rounded down: the length that keeps the
   * aspect ratio when the side of length `along` becomes `target`.
   */
  ghost predicate FloorScaled(r: nat, len: nat, along: Pos, target: nat)
  {
    r * along <= len * target < (r + 1) * along
  }

  /** `int(len * target / along)`, the truncated proportional length. */
  function Scale(len: Pos, along: Pos, target: nat): (r: nat)
    ensures FloorScaled(r, len, along, target)
    ensures target <= along ==> r <= len
    ensures target == along ==> r == len
  {
    var p: nat := len * target;
    var r: nat := p / along;
    FloorDivision(p, along, r);
    ScaleBounds(r, len, along, target);
    r
  }

  /** Euclidean division on a positive divisor is the floor quotient. */
  lemma FloorDivision(p: nat, d: Pos, q: nat)
    requires q == p / d
    ensures q * d <= p < (q + 1) * d
  {
    assert p == q * d + p % d;
  }

  lemma ScaleBounds(r: nat, len: nat, along: Pos, target: nat)
    requires FloorScaled(r, len, along, target)
    ensures target <= along ==> r <= len
    ensures target == along ==> r == len
  {
    if target <= along {
      FloorScaledMonotone(r, len, along, target);
    }
    if target == along {
      FloorScaledIdentity(r, len, along);
    }
  }

  /** At most one truncated length fits the proportion. */
  lemma FloorScaledUnique(r1: nat, r2: nat, len: nat, along: Pos, target: nat)
    requires FloorScaled(r1, len, along, target) && FloorScaled(r2, len, along, target)
    ensures r1 == r2
  {
    MulCancel(r1, r2 + 1, along);
    MulCancel(r2, r1 + 1, along);
  }

  lemma MulCancel(x: int, y: int, k: Pos)
    requires x * k < y * k
    ensures x < y
  {
    assert (y - x) * k == y * k - x * k;
  }

  /** The sizes and paste positions `merge_images` uses for images `a` and `b`. */
  function Merge(a: Dims, b: Dims, dir: Direction): (r: Layout)
    ensures dir == Horizontal ==>
      && r.canvas.height == Min(a.height, b.height)
      && r.first.height == r.canvas.height && r.second.height == r.canvas.height
      && FloorScaled(r.first.width, a.width, a.height, r.canvas.height)
      && FloorScaled(r.second.width, b.width, b.height, r.canvas.height)
      && r.canvas.width == r.first.width + r.second.width
      && r.secondAt == Point(r.first.width, 0)
    ensures dir == Vertical ==>
      && r.canvas.width == Min(a.width, b.width)
      && r.first.width == r.canvas.width && r.second.width == r.canvas.width
      && FloorScaled(r.first.height, a.height, a.width, r.canvas.width)
      && FloorScaled(r.second.height, b.height, b.width, r.canvas.width)
      && r.canvas.height == r.first.height + r.second.height
      && r.secondAt == Point(0, r.first.height)
  {
    match dir
    case Horizontal =>
      var h := Min(a.height, b.height);
      var w1 := Scale(a.width, a.height, h);
      var w2 := Scale(b.width, b.height, h);
      Layout(Extent(w1 + w2, h), Extent(w1, h), Extent(w2, h), Point(w1, 0))
    case Vertical =>
      var w := Min(a.width, b.width);
      var h1 := Scale(a.height, a.width, w);
      var h2 := Scale(b.height, b.width, w);
      Layout(Extent(w, h1 + h2), Extent(w, h1), Extent(w, h2), Point(0, h1))
  }

  /**
   * PIL's `resize` refuses a zero width or height, so a layout is only
   * realisable when both scaled images keep positive sides.
   */
  predicate Resizable(l: Layout)
  {
    l.first.width > 0 && l.first.height > 0 && l.second.width > 0 && l.second.height > 0
  }

  /** A truncated length is zero exactly when the exact proportional length is below one. */
  lemma FloorScaledZero(r: nat, len: nat, along: Pos, target: nat)
    requires FloorScaled(r, len, along, target)
    ensures r == 0 <==> len * target < along
  {
    if r > 0 {
      assert r * along == (r - 1) * along + along;
    }
  }

  /**
   * A merge is realisable exactly when neither image is so thin that its
   * scaled side truncates to zero: `w * h < H` for the height `H` and width
   * `w` of an image and the common height `h` (and dually when stacking).
   */
  lemma MergeResizable(a: Dims, b: Dims, dir: Direction)
    ensures dir == Horizontal ==>
      (Resizable(Merge(a, b, dir)) <==>
        var h := Min(a.height, b.height); a.width * h >= a.height && b.width * h >= b.height)
    ensures dir == Vertical ==>
      (Resizable(Merge(a, b, dir)) <==>
        var w := Min(a.width, b.width); a.height * w >= a.width && b.height * w >= b.width)
  {
    var r := Merge(a, b, dir);
    if dir == Horizontal {
      FloorScaledZero(r.first.width, a.width, a.height, r.canvas.height);
      FloorScaledZero(r.second.width, b.width, b.height, r.canvas.height);
    } else {
      FloorScaledZero(r.first.height, a.height, a.width, r.canvas.width);
      FloorScaledZero(r.second.height, b.height, b.width, r.canvas.width);
    }
  }

  /** A 1 x 1000 strip next to a 100 x 10 image would be scaled to width 0. */
  lemma ThinStripIsNotResizable()
    ensures Merge(Dims(1, 1000), Dims(100, 10), Horizontal).first.width == 0
    ensures !Resizable(Merge(Dims(1, 1000), Dims(100, 10), Horizontal))
  {
    MergeResizable(Dims(1, 1000), Dims(100, 10), Horizontal);
  }

  /** Merging never enlarges: each image shrinks or keeps its size along the matched side's neighbour. */
  lemma MergeNeverUpscales(a: Dims, b: Dims, dir: Direction)
    ensures var r := Merge(a, b, dir);
      && r.first.width <= a.width && r.first.height <= a.height
      && r.second.width <= b.width && r.second.height <= b.height
  {
    var r := Merge(a, b, dir);
    match dir
    case Horizontal =>
      FloorScaledMonotone(r.first.width, a.width, a.height, r.canvas.height);
      FloorScaledMonotone(r.second.width, b.width, b.height, r.canvas.height);
    case Vertical =>
      FloorScaledMonotone(r.first.height, a.height, a.width, r.canvas.width);
      FloorScaledMonotone(r.second.height, b.height, b.width, r.canvas.width);
  }

  lemma FloorScaledMonotone(r: nat, len: nat, along: Pos, target: nat)
    requires FloorScaled(r, len, along, target) && target <= along
    ensures r <= len
  {
    assert len * along - len * target == len * (along - target);
    MulCancel(r, len + 1, along);
  }

  /** The image whose matched side is the smaller one is pasted unscaled. */
  lemma MergeKeepsSmallerImage(a: Dims, b: Dims, dir: Direction)
    ensures var r := Merge(a, b, dir);
      && (dir == Horizontal && a.height <= b.height ==> r.first == Extent(a.width, a.height))
      && (dir == Horizontal && b.height <= a.height ==> r.second == Extent(b.width, b.height))
      && (dir == Vertical && a.width <= b.width ==> r.first == Extent(a.width, a.height))
      && (dir == Vertical && b.width <= a.width ==> r.second == Extent(b.width, b.height))
  {
    var r := Merge(a, b, dir);
    if dir == Horizontal {
      if a.height <= b.height { FloorScaledIdentity(r.first.width, a.width, a.height); }
      if b.height <= a.height { FloorScaledIdentity(r.second.width, b.width, b.height); }
    } else {
      if a.width <= b.width { FloorScaledIdentity(r.first.height, a.height, a.width); }
      if b.width <= a.width { FloorScaledIdentity(r.second.height, b.height, b.width); }
    }
  }

  lemma FloorScaledIdentity(r: nat, len: nat, along: Pos)
    requires FloorScaled(r, len, along, along)
    ensures r == len
  {
    FloorScaledUnique(r, len, len, along, along);
  }

  /** Two images of the same size `w x h` merge without rescaling into `2w x h` or `w x 2h`. */
  lemma MergeSameSize(d: Dims)
    ensures Merge(d, d, Horizontal) ==
      Layout(Extent(2 * d.width, d.height), Extent(d.width, d.height), Extent(d.width, d.height), Point(d.width, 0))
    ensures Merge(d, d, Vertical) ==
      Layout(Extent(d.width, 2 * d.height), Extent(d.width, d.height), Extent(d.width, d.height), Point(0, d.height))
  {
    MergeKeepsSmallerImage(d, d, Horizontal);
    MergeKeepsSmallerImage(d, d, Vertical);
  }

  function Transpose(d: Dims): Dims { Dims(d.height, d.width) }

  function TransposeLayout(l: Layout): Layout
  {
    Layout(Extent(l.canvas.height, l.canvas.width),
           Extent(l.first.height, l.first.width),
           Extent(l.second.height, l.second.width),
           Point(l.secondAt.y, l.secondAt.x))
  }

  /** The vertical merge is the horizontal merge with widths and heights exchanged. */
  lemma MergeDuality(a: Dims, b: Dims)
    ensures Merge(Transpose(a), Transpose(b), Vertical) == TransposeLayout(Merge(a, b, Horizontal))
  {
    var v := Merge(Transpose(a), Transpose(b), Vertical);
    var h := TransposeLayout(Merge(a, b, Horizontal));
    FloorScaledUnique(v.first.height, h.first.height, a.width, a.height, v.canvas.width);
    FloorScaledUnique(v.second.height, h.second.height, b.width, b.height, v.canvas.width);
  }
}
