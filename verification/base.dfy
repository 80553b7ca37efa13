/** The ground: two copies of the base image side by side, scrolled left and
    leap-frogged to give an endless strip. */
module Ground {

  /** Pixels both tiles move left per call. */
  const Vel: int := 5

  /** The left edges of the two tiles. */
  datatype Tiles = Tiles(x1: int, x2: int)

  /** The two tiles lie exactly one tile width apart, in either order. */
  predicate Spaced(t: Tiles, width: int) {
    t.x2 - t.x1 == width || t.x1 - t.x2 == width
  }

  /** Neither tile has its right edge left of the window. */
  predicate OnScreen(t: Tiles, width: int) {
    t.x1 + width >= 0 && t.x2 + width >= 0
  }

  /** One scroll step: both tiles move left by Vel, and a tile whose right edge
      has gone past 0 is put immediately right of the other tile (the first tile
      is checked first, against the second tile's shifted position). */
  function Scrolled(t: Tiles, width: int): (r: Tiles)
    ensures Spaced(t, width) ==> Spaced(r, width)
    ensures width >= Vel && Spaced(t, width) && OnScreen(t, width) ==> OnScreen(r, width)
    ensures r.x1 == t.x1 - Vel || r.x1 == t.x2 - Vel + width
    ensures t.x1 - Vel + width >= 0 ==> r.x1 == t.x1 - Vel
    ensures t.x1 - Vel + width < 0 ==> r.x1 == t.x2 - Vel + width
    ensures r.x2 == t.x2 - Vel || r.x2 == r.x1 + width
    ensures t.x2 - Vel + width >= 0 ==> r.x2 == t.x2 - Vel
    ensures t.x2 - Vel + width < 0 ==> r.x2 == r.x1 + width
  {
    var x1 := t.x1 - Vel;
    var x2 := t.x2 - Vel;
    var x1' := if x1 + width < 0 then x2 + width else x1;
    var x2' := if x2 + width < 0 then x1' + width else x2;
    Tiles(x1', x2')
  }

  /** The tiles after n scroll steps. */
  function ScrolledN(t: Tiles, width: int, n: nat): Tiles {
    if n == 0 then t else Scrolled(ScrolledN(t, width, n - 1), width)
  }

  /** From the initial layout (0, width), after any number of steps the tiles are
      one width apart, and with a width of at least Vel both stay on screen. */
  lemma {:induction false} ScrollFromStart(width: int, n: nat)
    requires width > 0
    ensures Spaced(ScrolledN(Tiles(0, width), width, n), width)
    ensures width >= Vel ==> OnScreen(ScrolledN(Tiles(0, width), width, n), width)
  {
    if n > 0 {
      ScrollFromStart(width, n - 1);
    }
  }

  class Base {
    var y: int
    var x1: int
    var x2: int
    const width: int

    function Layout(): Tiles
      reads this
    {
      Tiles(x1, x2)
    }

    /** The tiles are one width apart, and stay on screen when the width allows it. */
    ghost predicate Valid()
      reads this
    {
      width > 0 && Spaced(Layout(), width) && (width >= Vel ==> OnScreen(Layout(), width))
    }

    /** The ground at height y0, with the tile image width given. */
    constructor (y0: int, width: int)
      requires width > 0
      ensures Valid()
      ensures y == y0 && this.width == width && Layout() == Tiles(0, width)
    {
      y := y0;
      this.width := width;
      x1 := 0;
      x2 := width;
    }

    method Move()
      requires Valid()
      modifies this
      ensures Valid()
      ensures Layout() == Scrolled(old(Layout()), width)
      ensures y == old(y)
    {
      x1 := x1 - Vel;
      x2 := x2 - Vel;
      if x1 + width < 0 {
        x1 := x2 + width;
      }
      if x2 + width < 0 {
        x2 := x1 + width;
      }
    }
  }
}
