/** A single pipe: a top and a bottom half around a gap whose height is drawn
    once, scrolling left at a fixed speed. */
module Obstacle {

  /** Height of the opening between the two halves. */
  const Gap: int := 200
  /** Declared speed of a pipe; Move does not use it. */
  const Vel: int := 5
  /** What Move actually subtracts from x on each call. */
  const Step: int := 4
  /** The gap height is drawn from [MinHeight, MaxHeight). */
  const MinHeight: int := 50
  const MaxHeight: int := 450

  /** The top-pipe and bottom-pipe positions for gap height h, where the
      top-pipe image is imgHeight tall. */
  function Edges(h: int, imgHeight: int): (e: (int, int))
    ensures e.0 + imgHeight == h
    ensures e.1 - (e.0 + imgHeight) == Gap
  {
    (h - imgHeight, h + Gap)
  }

  class Pipe {
    var x: int
    var passed: bool
    /** The gap height and the two halves' positions: fixed when the pipe is
        made (set_height is only called from the constructor). */
    const height: int
    const top: int
    const bottom: int
    /** Width and height of the pipe image. */
    const imgWidth: int
    const imgHeight: int

    /** The pipe's geometry: a gap height in range, and the two halves placed around it. */
    ghost predicate Valid() {
      MinHeight <= height < MaxHeight && (top, bottom) == Edges(height, imgHeight)
    }

    /** A new pipe at x0; h is the gap height drawn from [MinHeight, MaxHeight). */
    constructor (x0: int, h: int, imgWidth: int, imgHeight: int)
      requires MinHeight <= h < MaxHeight
      ensures Valid()
      ensures x == x0 && height == h && !passed
      ensures top == h - imgHeight && bottom == h + Gap
      ensures this.imgWidth == imgWidth && this.imgHeight == imgHeight
    {
      x := x0;
      this.imgWidth, this.imgHeight := imgWidth, imgHeight;
      passed := false;
      height := h;
      top, bottom := Edges(h, imgHeight).0, Edges(h, imgHeight).1;
    }

    /** Scroll left by Step; the passed flag does not change. */
    method Move()
      modifies this
      ensures x == old(x) - Step
      ensures passed == old(passed)
    {
      x := x - Step;
    }
  }
}
