/** The integer width/height/radius triple that game objects carry (`physics/Size.java`). */
module Physics {
  import JavaInt

  /** Half of `x` with Java's `x / 2`, which truncates toward zero. */
  function Half(x: int): (h: int)
    ensures 0 <= x ==> 0 <= 2 * h <= x < 2 * h + 2
    ensures x < 0 ==> 2 * h - 2 < x <= 2 * h <= 0
  {
    if x >= 0 then JavaInt.NonNegativeAgrees(x, 2); JavaInt.Div(x, 2)
    else JavaInt.NonNegativeAgrees(-x, 2); JavaInt.Div(x, 2)
  }

  function Max(a: int, b: int): (m: int) { if a > b then a else b }

  /** Truncating halving never reverses the order of two sides. */
  lemma HalfMonotone(x: int, y: int)
    requires x <= y
    ensures Half(x) <= Half(y)
  {
  }

  /**
   * The radius `set(width, height)` derives: half the larger side. Because
   * halving is monotone this is also the larger of the two halves, and it is
   * within one unit of half the larger side.
   */
  function DerivedRadius(width: int, height: int): (r: int)
    ensures r == Max(Half(width), Half(height))
    ensures 0 <= Max(width, height) ==> 0 <= Max(width, height) - 2 * r <= 1
    ensures Max(width, height) < 0 ==> 0 <= 2 * r - Max(width, height) <= 1
  {
    if width > height then
      HalfMonotone(height, width);
      Half(width)
    else
      HalfMonotone(width, height);
      Half(height)
  }

  class Size {
    var width: int
    var height: int
    var radius: int

    /** `Size()`: everything zero. */
    constructor ()
      ensures width == 0 && height == 0 && radius == 0
    {
      width, height, radius := 0, 0, 0;
    }

    /** `Size(int radius)`, by way of `set(radius)`. */
    constructor Uniform(radius: int)
      ensures width == radius && height == radius && this.radius == radius
    {
      new;
      SetUniform(radius);
    }

    /** `Size(int width, int height)`, by way of `set(width, height)`. */
    constructor Sides(width: int, height: int)
      ensures this.width == width && this.height == height
      ensures radius == DerivedRadius(width, height)
    {
      new;
      SetSides(width, height);
    }

    /** `Size(int width, int height, int radius)`, by way of `set(width, height, radius)`. */
    constructor All(width: int, height: int, radius: int)
      ensures this.width == width && this.height == height && this.radius == radius
    {
      new;
      SetAll(width, height, radius);
    }

    /** `set(int radius)`: a square whose sides equal its radius. */
    method SetUniform(r: int)
      modifies this
      ensures width == r && height == r && radius == r
    {
      width := r;
      height := r;
      radius := r;
    }

    /** `set(int width, int height)`: the radius is derived from the sides. */
    method SetSides(w: int, h: int)
      modifies this
      ensures width == w && height == h
      ensures radius == DerivedRadius(w, h)
    {
      width := w;
      height := h;
      radius := if w > h then JavaInt.Div(w, 2) else JavaInt.Div(h, 2);
    }

    /** `set(int width, int height, int radius)`: stored verbatim, nothing derived. */
    method SetAll(w: int, h: int, r: int)
      modifies this
      ensures width == w && height == h && radius == r
    {
      width := w;
      height := h;
      radius := r;
    }

    function Width(): (w: int) reads this { width }
    function Height(): (h: int) reads this { height }
    function Radius(): (r: int) reads this { radius }

    /** `setWidth`: the radius is not recomputed. */
    method SetWidth(w: int)
      modifies this
      ensures width == w && height == old(height) && radius == old(radius)
    {
      width := w;
    }

    /** `setHeight`: the radius is not recomputed. */
    method SetHeight(h: int)
      modifies this
      ensures height == h && width == old(width) && radius == old(radius)
    {
      height := h;
    }

    /** `setRadius`: the sides are left alone. */
    method SetRadius(r: int)
      modifies this
      ensures radius == r && width == old(width) && height == old(height)
    {
      radius := r;
    }
  }
}
