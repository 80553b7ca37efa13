/** The bird: fixed-timestep vertical motion driven by a tick counter, the tilt
    that follows from it, and the sprite animation counter. */
module Kinematics {

  /** Highest nose-up tilt, in degrees. */
  const MaxRotation: int := 25
  /** Degrees the nose drops per tick while falling. */
  const RotVel: int := 20
  /** Ticks each sprite is shown for. */
  const AnimationTime: int := 5
  /** Velocity term set by a flap. */
  const JumpVel: int := -5
  /** Largest displacement per tick (terminal velocity). */
  const MaxDisplacement: real := 10.0
  /** Extra upward push added to every upward displacement. */
  const RiseBias: real := 2.0
  /** While the bird is less than this far below the height of its last flap it keeps its nose up. */
  const TiltMargin: real := 50.0
  /** Tilt below which the nose no longer drops. */
  const DiveLimit: int := -90
  /** Tilt at or below which the animation stalls on the wings-level sprite. */
  const StallTilt: int := -80

  /** The unclamped displacement v*t + 0.5*1.5*t^2 after t ticks. */
  function RawDisplacement(vel: int, t: nat): real {
    (vel * t) as real + 0.75 * (t * t) as real
  }

  /** The displacement applied in the tick that brings the counter to t:
      capped at 10 from above, and pushed 2 further up when it is upward. */
  function Displacement(vel: int, t: nat): (d: real)
    ensures d <= MaxDisplacement
    ensures RawDisplacement(vel, t) >= MaxDisplacement ==> d == MaxDisplacement
    ensures d < 0.0 <==> RawDisplacement(vel, t) < 0.0
    ensures d < 0.0 ==> d == RawDisplacement(vel, t) - RiseBias
    ensures vel >= 0 ==> d >= 0.0
  {
    var raw := RawDisplacement(vel, t);
    var capped := if raw >= MaxDisplacement then MaxDisplacement else raw;
    if capped < 0.0 then capped - RiseBias else capped
  }

  /** The same displacement in whole quarter pixels, computed with integers only. */
  function DisplacementQuarters(vel: int, t: nat): int {
    var raw := 4 * (vel * t) + 3 * (t * t);
    if raw >= 40 then 40 else if raw < 0 then raw - 8 else raw
  }

  /** Every displacement is an exact multiple of a quarter pixel, so exact
      arithmetic loses nothing against the source's floating point. */
  lemma DisplacementInQuarters(vel: int, t: nat)
    ensures 4.0 * Displacement(vel, t) == DisplacementQuarters(vel, t) as real
  {
    assert 4.0 * RawDisplacement(vel, t) == (4 * (vel * t) + 3 * (t * t)) as real;
  }

  /** After a flap, once the velocity term has been overtaken (from the third
      tick on), the displacement never decreases from one tick to the next. */
  lemma DisplacementStep(vel: int, t: nat)
    requires vel == 0 || vel == JumpVel
    requires t >= 3
    ensures Displacement(vel, t) <= Displacement(vel, t + 1)
  {
  }

  /** The tilt after a tick, given the tick's displacement d and the bird's new
      height y: nose snaps up while rising or still close to the flap height,
      otherwise it drops by RotVel until it has passed DiveLimit. */
  function NextTilt(tilt: int, d: real, y: real, height: real): (r: int)
    ensures r == tilt || r == MaxRotation || r == tilt - RotVel
    ensures tilt <= MaxRotation ==> r <= MaxRotation
    ensures tilt > DiveLimit - RotVel ==> r > DiveLimit - RotVel
    ensures r > tilt ==> r == MaxRotation && (d < 0.0 || y < height + TiltMargin)
    ensures (d < 0.0 || y < height + TiltMargin) && tilt < MaxRotation ==> r == MaxRotation
    ensures r < tilt <==> tilt > DiveLimit && d >= 0.0 && y >= height + TiltMargin
  {
    if d < 0.0 || y < height + TiltMargin then
      (if tilt < MaxRotation then MaxRotation else tilt)
    else
      (if tilt > DiveLimit then tilt - RotVel else tilt)
  }

  /** The motion state of a bird: vertical position, tilt, ticks since the last
      flap, the velocity term and the height of the last flap. */
  datatype Motion = Motion(y: real, tilt: int, tickCount: nat, vel: int, height: real)

  /** A new bird at height y. */
  function Start(y: int): Motion {
    Motion(y as real, 0, 0, 0, y as real)
  }

  /** A flap: restart the tick counter from the current height. */
  function Jumped(m: Motion): Motion {
    m.(vel := JumpVel, tickCount := 0, height := m.y)
  }

  /** One tick of motion. */
  function Moved(m: Motion): (n: Motion)
    ensures n.tickCount == m.tickCount + 1
    ensures n.vel == m.vel && n.height == m.height
    ensures n.y - m.y <= MaxDisplacement
    ensures m.vel >= 0 ==> n.y >= m.y
  {
    var t := m.tickCount + 1;
    var d := Displacement(m.vel, t);
    var y := m.y + d;
    Motion(y, NextTilt(m.tilt, d, y, m.height), t, m.vel, m.height)
  }

  /** The motion state after n ticks without a flap. */
  function MovedN(m: Motion, n: nat): Motion {
    if n == 0 then m else Moved(MovedN(m, n - 1))
  }

  /** Flapping twice in a row is the same as flapping once: there is no cooldown and no stacking. */
  lemma JumpIdempotent(m: Motion)
    ensures Jumped(Jumped(m)) == Jumped(m)
  {
  }

  /** A bird that has not flapped (velocity term 0 or more) never rises, over any number of ticks. */
  lemma {:induction false} NoFlapNeverRises(m: Motion, i: nat, j: nat)
    requires m.vel >= 0
    requires i <= j
    ensures MovedN(m, i).y <= MovedN(m, j).y
    ensures MovedN(m, j).vel == m.vel
  {
    if i < j {
      NoFlapNeverRises(m, i, j - 1);
    } else if j > 0 {
      NoFlapNeverRises(m, 0, j - 1);
    }
  }

  /** With no flap, the displacement is capped from the fourth tick on. */
  lemma TerminalVelocity(t: nat)
    requires t >= 4
    ensures Displacement(0, t) == MaxDisplacement
  {
    var k := t - 4;
    assert t * t == k * k + 8 * k + 16;
    assert RawDisplacement(0, t) >= 12.0;
  }

  /** From the start position with no flap, the bird reaches terminal velocity
      on the fourth tick and from then on falls exactly 10 pixels per tick. */
  lemma {:induction false} FreeFall(n: nat)
    requires n >= 3
    ensures MovedN(Start(350), n).y == 330.5 + 10.0 * n as real
    ensures MovedN(Start(350), n).tickCount == n && MovedN(Start(350), n).vel == 0
  {
    var s := Start(350);
    if n == 3 {
      assert MovedN(s, 1).y == 350.75 && MovedN(s, 1).tickCount == 1;
      assert MovedN(s, 2).y == 353.75 && MovedN(s, 2).tickCount == 2;
    } else {
      FreeFall(n - 1);
      TerminalVelocity(n);
    }
  }

  /** The nose-up bound and the lower bound of the tilt hold after any number of ticks. */
  lemma {:induction false} TiltBand(m: Motion, n: nat)
    requires DiveLimit - RotVel < m.tilt <= MaxRotation
    ensures DiveLimit - RotVel < MovedN(m, n).tilt <= MaxRotation
  {
    if n > 0 {
      TiltBand(m, n - 1);
    }
  }

  /** The tilt is not kept within [DiveLimit, MaxRotation]: a new bird that never
      flaps has tilt -95 after 12 ticks. */
  lemma TiltPassesDiveLimit()
    ensures MovedN(Start(350), 12).tilt == -95
    ensures MovedN(Start(350), 12).tilt < DiveLimit
  {
    var s := Start(350);
    assert MovedN(s, 1) == Motion(350.75, 25, 1, 0, 350.0);
    assert MovedN(s, 2) == Motion(353.75, 25, 2, 0, 350.0);
    assert MovedN(s, 3) == Motion(360.5, 25, 3, 0, 350.0);
    assert MovedN(s, 4) == Motion(370.5, 25, 4, 0, 350.0);
    assert MovedN(s, 5) == Motion(380.5, 25, 5, 0, 350.0);
    assert MovedN(s, 6) == Motion(390.5, 25, 6, 0, 350.0);
    assert MovedN(s, 7) == Motion(400.5, 5, 7, 0, 350.0);
    assert MovedN(s, 8) == Motion(410.5, -15, 8, 0, 350.0);
    assert MovedN(s, 9) == Motion(420.5, -35, 9, 0, 350.0);
    assert MovedN(s, 10) == Motion(430.5, -55, 10, 0, 350.0);
    assert MovedN(s, 11) == Motion(440.5, -75, 11, 0, 350.0);
  }

  /** The animation state: the tick counter and the index of the sprite shown (0, 1 or 2). */
  datatype Anim = Anim(imgCount: int, sprite: nat)

  /** One animation tick: the counter advances and picks the sprite in blocks of
      AnimationTime ticks, wrapping at 4*AnimationTime+1; a nose-down bird is
      frozen on sprite 1 with the counter at 2*AnimationTime. */
  function Animated(a: Anim, tilt: int): (b: Anim)
    ensures 0 <= a.imgCount <= 4 * AnimationTime ==> 0 <= b.imgCount <= 4 * AnimationTime
    ensures a.sprite <= 2 ==> b.sprite <= 2
    ensures tilt <= StallTilt ==> b == Anim(2 * AnimationTime, 1)
    ensures tilt > StallTilt && 0 <= a.imgCount < 4 * AnimationTime ==> b.imgCount == a.imgCount + 1
    ensures tilt > StallTilt && 0 <= a.imgCount < 4 * AnimationTime ==> b.sprite == WingBeat(a.imgCount)
    ensures tilt > StallTilt && a.imgCount == 4 * AnimationTime ==> b == Anim(0, 0)
  {
    var c := a.imgCount + 1;
    var next :=
      if c <= AnimationTime then Anim(c, 0)
      else if c <= AnimationTime * 2 then Anim(c, 1)
      else if c <= AnimationTime * 3 then Anim(c, 2)
      else if c <= AnimationTime * 4 then Anim(c, 1)
      else if c == AnimationTime * 4 + 1 then Anim(0, 0)
      else Anim(c, a.sprite);
    if tilt <= StallTilt then Anim(AnimationTime * 2, 1) else next
  }

  /** The animation state after n ticks at a constant tilt. */
  function AnimatedN(a: Anim, tilt: int, n: nat): Anim {
    if n == 0 then a else Animated(AnimatedN(a, tilt, n - 1), tilt)
  }

  /** The wing-beat pattern, independent of the counter logic: the sprite shown
      at position k of a 21-tick cycle goes 0, 1, 2, 1 in blocks of five, then 0. */
  function WingBeat(k: nat): nat {
    var block := k / AnimationTime;
    if block == 1 || block == 3 then 1 else if block == 2 then 2 else 0
  }

  /** The animation state c ticks into a cycle, for c in [0, 4*AnimationTime]:
      the counter is c and the sprite is the wing-beat position of the tick
      just taken. */
  function Cycle(c: nat): Anim {
    Anim(c, if c == 0 then 0 else WingBeat(c - 1))
  }

  /** One tick at a tilt above StallTilt moves one place along the cycle. */
  lemma CycleStep(tilt: int, c: nat)
    requires tilt > StallTilt && c <= 4 * AnimationTime
    ensures Animated(Cycle(c), tilt) == Cycle(if c == 4 * AnimationTime then 0 else c + 1)
  {
  }

  lemma ModStep(n: nat)
    ensures (n + 1) % 21 == if n % 21 == 20 then 0 else n % 21 + 1
  {
  }

  /** Starting from a fresh counter, at a tilt above StallTilt, after n ticks
      the animation is n mod 21 places along the cycle. */
  lemma {:induction false} AnimationCycle(tilt: int, n: nat)
    requires tilt > StallTilt
    ensures AnimatedN(Anim(0, 0), tilt, n) == Cycle(n % 21)
  {
    if n > 0 {
      AnimationCycle(tilt, n - 1);
      CycleStep(tilt, (n - 1) % 21);
      ModStep(n - 1);
    }
  }

  /** A bird in the game: its fixed horizontal position, its motion and its animation. */
  class Bird {
    var x: int
    var y: real
    var tilt: int
    var tickCount: nat
    var vel: int
    var height: real
    var imgCount: int
    var sprite: nat

    function State(): Motion
      reads this
    {
      Motion(y, tilt, tickCount, vel, height)
    }

    function Animation(): Anim
      reads this
    {
      Anim(imgCount, sprite)
    }

    /** The bird's invariant: a velocity term of 0 or JumpVel, tilt within (DiveLimit - RotVel, MaxRotation], the
        animation counter within [0, 4*AnimationTime] and a valid sprite index. */
    ghost predicate Valid()
      reads this
    {
      (vel == 0 || vel == JumpVel) &&
      DiveLimit - RotVel < tilt <= MaxRotation &&
      0 <= imgCount <= 4 * AnimationTime && sprite <= 2
    }

    constructor (x0: int, y0: int)
      ensures Valid()
      ensures x == x0 && State() == Start(y0) && Animation() == Anim(0, 0)
    {
      x, y, tilt, tickCount, vel, height := x0, y0 as real, 0, 0, 0, y0 as real;
      imgCount, sprite := 0, 0;
    }

    /** A flap. */
    method Jump()
      requires Valid()
      modifies this
      ensures Valid()
      ensures State() == Jumped(old(State()))
      ensures vel == JumpVel && tickCount == 0 && height == old(y)
      ensures x == old(x) && y == old(y) && tilt == old(tilt) && Animation() == old(Animation())
    {
      vel := JumpVel;
      tickCount := 0;
      height := y;
    }

    /** One tick of motion. */
    method Move()
      requires Valid()
      modifies this
      ensures Valid()
      ensures State() == Moved(old(State()))
      ensures tickCount == old(tickCount) + 1
      ensures y == old(y) + Displacement(old(vel), tickCount)
      ensures old(vel) >= 0 ==> y >= old(y)
      ensures x == old(x) && Animation() == old(Animation())
    {
      tickCount := tickCount + 1;
      var displacement := Displacement(vel, tickCount);
      y := y + displacement;
      if displacement < 0.0 || y < height + TiltMargin {
        if tilt < MaxRotation {
          tilt := MaxRotation;
        }
      } else {
        if tilt > DiveLimit {
          tilt := tilt - RotVel;
        }
      }
    }

    /** The sprite-selection part of drawing the bird (rotation and blitting are
        not modelled). */
    method Animate()
      requires Valid()
      modifies this
      ensures Valid()
      ensures Animation() == Animated(old(Animation()), tilt)
      ensures x == old(x) && State() == old(State())
    {
      imgCount := imgCount + 1;
      if imgCount <= AnimationTime {
        sprite := 0;
      } else if imgCount <= AnimationTime * 2 {
        sprite := 1;
      } else if imgCount <= AnimationTime * 3 {
        sprite := 2;
      } else if imgCount <= AnimationTime * 4 {
        sprite := 1;
      } else if imgCount == AnimationTime * 4 + 1 {
        sprite := 0;
        imgCount := 0;
      }
      if tilt <= StallTilt {
        sprite := 1;
        imgCount := AnimationTime * 2;
      }
    }
  }
}
