/** The game session: the state that the main loop keeps (bird, ground, pipe
    list, score, running flag), the handling of one batch of input events, and
    the per-frame update of bird, ground and pipes with scoring. */
module Session {
  import opened Screen
  import opened Kinematics
  import opened Obstacle
  import opened PipeList
  import Ground

  /** The input events the loop reacts to. Which button a mouse press lands in
      is decided by the window layer; both buttons do the same thing. */
  datatype Event =
    | Quit          // the window was closed
    | SpaceKey      // the space bar went down
    | ButtonClick   // a mouse press inside the reset or the restart button
    | Other         // any other event

  /** How one event changes the bird's motion. */
  function Respond(m: Motion, e: Event): Motion {
    match e
    case SpaceKey => Jumped(m)
    case ButtonClick => Start(BirdStartY)
    case _ => m
  }

  /** The bird's motion after a batch of events, handled in delivery order. */
  function AfterEvents(m: Motion, events: seq<Event>): Motion
    decreases |events|
  {
    if events == [] then m
    else Respond(AfterEvents(m, events[..|events| - 1]), events[|events| - 1])
  }

  /** Within one batch, flaps do not stack: without a button press the bird
      ends as after at most one flap; with one, it ends as a new bird, flapped
      at most once. */
  lemma {:induction false} EventsOutcome(m: Motion, events: seq<Event>)
    ensures ButtonClick !in events ==>
      AfterEvents(m, events) == if SpaceKey in events then Jumped(m) else m
    ensures ButtonClick in events ==>
      AfterEvents(m, events) == Start(BirdStartY) || AfterEvents(m, events) == Jumped(Start(BirdStartY))
    decreases |events|
  {
    if events != [] {
      var n := |events| - 1;
      var front := events[..n];
      assert events == front + [events[n]];
      EventsOutcome(m, front);
      if ButtonClick in front && events[n] == SpaceKey {
        JumpIdempotent(Start(BirdStartY));
      } else if ButtonClick !in front && SpaceKey in front {
        JumpIdempotent(m);
      }
    }
  }

  /** The x positions of a list of pipes. */
  ghost function Xs(ps: seq<Pipe>): (xs: seq<int>)
    reads Elems(ps)
    ensures |xs| == |ps|
    ensures forall i :: 0 <= i < |ps| ==> xs[i] == ps[i].x
    decreases |ps|
  {
    if ps == [] then []
    else
      assert Elems(ps[..|ps| - 1]) <= Elems(ps);
      Xs(ps[..|ps| - 1]) + [ps[|ps| - 1].x]
  }

  /** The passed flags of a list of pipes. */
  ghost function Flags(ps: seq<Pipe>): (fs: seq<bool>)
    reads Elems(ps)
    ensures |fs| == |ps|
    ensures forall i :: 0 <= i < |ps| ==> fs[i] == ps[i].passed
    decreases |ps|
  {
    if ps == [] then []
    else
      assert Elems(ps[..|ps| - 1]) <= Elems(ps);
      Flags(ps[..|ps| - 1]) + [ps[|ps| - 1].passed]
  }

  /** Among the first n pipes, some pipe not yet passed lies left of the bird. */
  predicate NewlyPassed(xs: seq<int>, flags: seq<bool>, birdX: int, n: nat)
    requires n <= |xs| == |flags|
  {
    n > 0 && (NewlyPassed(xs, flags, birdX, n - 1) || (!flags[n - 1] && xs[n - 1] < birdX))
  }

  /** NewlyPassed holds exactly when some entry before n is unpassed and left of the bird. */
  lemma {:induction false} NewlyPassedSome(xs: seq<int>, flags: seq<bool>, birdX: int, n: nat)
    requires n <= |xs| == |flags|
    ensures NewlyPassed(xs, flags, birdX, n) <==> exists i :: 0 <= i < n && !flags[i] && xs[i] < birdX
  {
    if n > 0 {
      NewlyPassedSome(xs, flags, birdX, n - 1);
    }
  }

  /** One more hit flag examined. */
  lemma HitsSnoc(hits: seq<bool>, i: int)
    requires 0 <= i < |hits|
    ensures (true in hits[..i + 1]) == ((true in hits[..i]) || hits[i])
  {
    assert hits[..i + 1] == hits[..i] + [hits[i]];
  }

  /** The part of the loop body that changes a pipe: mark it passed when it is
      not yet passed and lies left of the bird, then scroll it. */
  method Visit(pipe: Pipe, birdX: int) returns (newly: bool)
    modifies pipe
    ensures newly == (!old(pipe.passed) && old(pipe.x) < birdX)
    ensures pipe.passed == (old(pipe.passed) || old(pipe.x) < birdX)
    ensures pipe.x == old(pipe.x) - Step
  {
    newly := false;
    if !pipe.passed && pipe.x < birdX {
      pipe.passed := true;
      newly := true;
    }
    pipe.Move();
  }

  /** The loop over the pipes in the frame: note whether any pipe collides,
      collect the pipes that have left the window, mark newly passed pipes, and
      scroll every pipe. hits[i] is the collision oracle's answer for pipe i. */
  method ScanPipes(pipes: seq<Pipe>, birdX: int, width: int, hits: seq<bool>)
    returns (collided: bool, addPipe: bool, toRemove: seq<Pipe>)
    requires Distinct(pipes)
    requires |hits| == |pipes|
    requires forall k :: 0 <= k < |pipes| ==> pipes[k].imgWidth == width
    modifies Elems(pipes)
    ensures collided == (true in hits)
    ensures addPipe == NewlyPassed(old(Xs(pipes)), old(Flags(pipes)), birdX, |pipes|)
    ensures toRemove == Gone(pipes, old(Xs(pipes)), width)
    ensures forall k :: 0 <= k < |pipes| ==>
      pipes[k].x == old(pipes[k].x) - Step &&
      pipes[k].passed == (old(pipes[k].passed) || old(pipes[k].x) < birdX)
  {
    ghost var xs, flags := Xs(pipes), Flags(pipes);
    collided, addPipe, toRemove := false, false, [];
    var i := 0;
    while i < |pipes|
      invariant 0 <= i <= |pipes|
      invariant collided == (true in hits[..i])
      invariant addPipe == NewlyPassed(xs, flags, birdX, i)
      invariant toRemove == Select(pipes, xs, width, true, i)
      invariant forall k :: 0 <= k < |pipes| ==>
        pipes[k].x == (if k < i then old(pipes[k].x) - Step else old(pipes[k].x)) &&
        pipes[k].passed == (if k < i then old(pipes[k].passed) || old(pipes[k].x) < birdX
                            else old(pipes[k].passed))
    {
      var pipe := pipes[i];
      if hits[i] {
        collided := true;
      }
      if pipe.x + pipe.imgWidth < 0 {
        toRemove := toRemove + [pipe];
      }
      assert forall k :: 0 <= k < |pipes| && k != i ==> pipes[k] != pipe;
      var newly := Visit(pipe, birdX);
      addPipe := addPipe || newly;
      HitsSnoc(hits, i);
      i := i + 1;
    }
    assert hits[..i] == hits;
  }

  /** A pipe list the session can hold: no pipe twice, every pipe valid and
      built from the loaded pipe image. */
  ghost predicate PipesOk(ps: seq<Pipe>, assets: Assets) {
    Distinct(ps) &&
    forall p :: p in ps ==>
      p.Valid() && p.imgWidth == assets.pipeWidth && p.imgHeight == assets.pipeHeight
  }

  /** After the scan, appending the spawned pipes (none or one new pipe) and
      then dropping the pipes that had left the window gives the pipes that
      stay followed by the spawned ones, and the list stays one the session
      can hold. */
  lemma AfterRemoval(before: seq<Pipe>, xs: seq<int>, added: seq<Pipe>, assets: Assets)
    requires |xs| == |before|
    requires PipesOk(before, assets) && PipesOk(added, assets)
    requires forall p :: p in added ==> p !in before
    ensures Distinct(before + added)
    ensures Distinct(Gone(before, xs, assets.pipeWidth))
    ensures Elems(Gone(before, xs, assets.pipeWidth)) <= Elems(before + added)
    ensures Drop(before + added, Elems(Gone(before, xs, assets.pipeWidth)))
         == Kept(before, xs, assets.pipeWidth) + added
    ensures PipesOk(Kept(before, xs, assets.pipeWidth) + added, assets)
  {
    var w := assets.pipeWidth;
    var gone, kept := Gone(before, xs, w), Kept(before, xs, w);
    SelectDistinct(before, xs, w, true, |before|);
    SelectDistinct(before, xs, w, false, |before|);
    DropGone(before, xs, w);
    ElemsConcat(before, added);
    DropConcat(before, added, Elems(gone));
    DropAbsentAll(added, Elems(gone));
    forall i, j | 0 <= i < j < |before + added| ensures (before + added)[i] != (before + added)[j] {
      if i < |before| && j >= |before| {
        assert (before + added)[j] in added;
      }
    }
    forall p | p in kept + added
      ensures p.Valid() && p.imgWidth == assets.pipeWidth && p.imgHeight == assets.pipeHeight
    {
      if p in kept {
        assert p in Elems(kept);
      }
    }
    forall i, j | 0 <= i < j < |kept + added| ensures (kept + added)[i] != (kept + added)[j] {
      if i < |kept| && j >= |kept| {
        assert (kept + added)[i] in Elems(before);
        assert (kept + added)[j] in added;
      }
    }
  }

  /** The variables of the main loop. */
  class Game {
    const assets: Assets
    var bird: Bird
    var base: Ground.Base
    var pipes: seq<Pipe>
    var score: int
    var run: bool

    /** The session's invariant: valid parts, no pipe listed twice, every pipe
        built from the loaded pipe image. */
    ghost predicate Valid()
      reads this, bird, base
    {
      assets.Valid() && score >= 0 &&
      bird.Valid() && bird.x == BirdStartX &&
      base.Valid() && base.width == assets.baseWidth &&
      PipesOk(pipes, assets)
    }

    /** A new session; h is the gap height drawn for the first pipe. */
    constructor (assets: Assets, h: int)
      requires assets.Valid()
      requires MinHeight <= h < MaxHeight
      ensures Valid()
      ensures this.assets == assets && run && score == 0
      ensures bird.State() == Start(BirdStartY) && bird.Animation() == Anim(0, 0)
      ensures base.y == GroundLine && base.Layout() == Ground.Tiles(0, assets.baseWidth)
      ensures |pipes| == 1 && pipes[0].x == SpawnX && pipes[0].height == h && !pipes[0].passed
      ensures fresh(bird) && fresh(base) && fresh(pipes[0])
    {
      this.assets := assets;
      bird := new Bird(BirdStartX, BirdStartY);
      base := new Ground.Base(GroundLine, assets.baseWidth);
      var pipe := new Pipe(SpawnX, h, assets.pipeWidth, assets.pipeHeight);
      pipes := [pipe];
      score := 0;
      run := true;
    }

    /** The reset (and restart) button: a new bird and ground, no pipes, score 0.
        The running flag is left as it is. */
    method Reset()
      requires Valid()
      modifies this
      ensures Valid()
      ensures fresh(bird) && fresh(base)
      ensures bird.State() == Start(BirdStartY) && bird.Animation() == Anim(0, 0)
      ensures base.y == GroundLine && base.Layout() == Ground.Tiles(0, assets.baseWidth)
      ensures pipes == [] && score == 0 && run == old(run)
    {
      bird := new Bird(BirdStartX, BirdStartY);
      base := new Ground.Base(GroundLine, assets.baseWidth);
      pipes := [];
      score := 0;
    }

    /** Handle one batch of events in delivery order. */
    method HandleEvents(events: seq<Event>)
      requires Valid()
      modifies this, bird
      ensures Valid()
      ensures run == (old(run) && Quit !in events)
      ensures bird.State() == AfterEvents(old(bird.State()), events)
      ensures ButtonClick !in events ==>
        bird == old(bird) && base == old(base) && pipes == old(pipes) && score == old(score) &&
        bird.Animation() == old(bird.Animation())
      ensures ButtonClick in events ==>
        fresh(bird) && fresh(base) && pipes == [] && score == 0 &&
        bird.Animation() == Anim(0, 0) &&
        base.y == GroundLine && base.Layout() == Ground.Tiles(0, assets.baseWidth)
    {
      var i := 0;
      while i < |events|
        invariant 0 <= i <= |events|
        invariant Valid()
        invariant run == (old(run) && Quit !in events[..i])
        invariant bird.State() == AfterEvents(old(bird.State()), events[..i])
        invariant ButtonClick !in events[..i] ==>
          bird == old(bird) && base == old(base) && pipes == old(pipes) && score == old(score) &&
          bird.Animation() == old(bird.Animation())
        invariant ButtonClick in events[..i] ==>
          fresh(bird) && fresh(base) && pipes == [] && score == 0 &&
          bird.Animation() == Anim(0, 0) &&
          base.y == GroundLine && base.Layout() == Ground.Tiles(0, assets.baseWidth)
      {
        var event := events[i];
        assert events[..i + 1] == events[..i] + [event];
        match event {
          case Quit =>
            run := false;
          case SpaceKey =>
            bird.Jump();
          case ButtonClick =>
            Reset();
          case Other =>
        }
        i := i + 1;
      }
      assert events[..|events|] == events;
    }

    /** Remove the listed pipes one by one, each by its first occurrence. */
    method RemovePipes(toRemove: seq<Pipe>)
      requires Distinct(pipes) && Distinct(toRemove)
      requires Elems(toRemove) <= Elems(pipes)
      modifies this`pipes
      ensures pipes == Drop(old(pipes), Elems(toRemove))
    {
      ghost var start := pipes;
      DropNothing(pipes);
      assert Elems(toRemove[..0]) == {};
      var j := 0;
      while j < |toRemove|
        invariant 0 <= j <= |toRemove|
        invariant pipes == Drop(start, Elems(toRemove[..j]))
      {
        RemoveStep(start, toRemove, j);
        pipes := RemoveFirst(pipes, toRemove[j]);
        j := j + 1;
      }
      assert toRemove[..j] == toRemove;
    }

    /** The pipe part of a frame: scan the pipes, score and spawn once if any
        pipe was newly passed, then remove the pipes that had left the window.
        birdX is the bird's horizontal position, hits[i] the collision oracle's
        answer for pipe i, and h the gap height drawn for a spawned pipe. */
    method UpdatePipes(birdX: int, hits: seq<bool>, h: int) returns (collided: bool)
      requires PipesOk(pipes, assets)
      requires |hits| == |pipes|
      requires MinHeight <= h < MaxHeight
      modifies this`pipes, this`score, Elems(pipes)
      ensures PipesOk(pipes, assets) && score >= old(score)
      ensures collided == (true in hits)
      ensures forall k :: 0 <= k < |old(pipes)| ==>
        old(pipes)[k].x == old(pipes[k].x) - Step &&
        old(pipes)[k].passed == (old(pipes[k].passed) || old(pipes[k].x) < birdX)
      ensures
        var newly := NewlyPassed(old(Xs(pipes)), old(Flags(pipes)), birdX, |old(pipes)|);
        var kept := Kept(old(pipes), old(Xs(pipes)), assets.pipeWidth);
        score == old(score) + (if newly then 1 else 0) &&
        |pipes| == |kept| + (if newly then 1 else 0) && pipes[..|kept|] == kept &&
        (newly ==> fresh(pipes[|kept|]) && pipes[|kept|].x == SpawnX &&
                   !pipes[|kept|].passed && pipes[|kept|].height == h)
      ensures old(pipes) == [] ==> pipes == [] && score == old(score)
      ensures forall p :: p in pipes ==> p in old(pipes) || fresh(p)
    {
      ghost var before, xs := pipes, Xs(pipes);
      var addPipe, toRemove;
      collided, addPipe, toRemove := ScanPipes(pipes, birdX, assets.pipeWidth, hits);
      if addPipe {
        score := score + 1;
        var pipe := new Pipe(SpawnX, h, assets.pipeWidth, assets.pipeHeight);
        pipes := pipes + [pipe];
      }
      AfterRemoval(before, xs, pipes[|before|..], assets);
      assert pipes == before + pipes[|before|..];
      ghost var mid := pipes;
      ElemsConcat(before, mid[|before|..]);
      RemovePipes(toRemove);
      forall p | p in pipes ensures p in before || fresh(p) {
        assert p in Elems(mid);
      }
    }

    /** One frame of play after the events: move the bird and the ground,
        update the pipes, stop on a collision or on ground contact, and advance
        the bird's animation. hits[i] is the collision oracle's answer for pipe
        i; h is the gap height drawn for a pipe spawned in this frame. */
    method Frame(hits: seq<bool>, h: int)
      requires Valid()
      requires |hits| == |pipes|
      requires MinHeight <= h < MaxHeight
      modifies this, bird, base, Elems(pipes)
      ensures Valid()
      ensures bird == old(bird) && base == old(base)
      ensures bird.State() == Moved(old(bird.State()))
      ensures bird.Animation() == Animated(old(bird.Animation()), bird.tilt)
      ensures base.Layout() == Ground.Scrolled(old(base.Layout()), base.width)
      ensures base.y == old(base.y)
      ensures run == (old(run) && true !in hits && bird.y + assets.birdHeight as real < GroundLine as real)
      ensures score == old(score) || score == old(score) + 1
      ensures old(pipes) == [] ==> pipes == [] && score == old(score)
      ensures forall p :: p in pipes ==> p in old(pipes) || fresh(p)
    {
      bird.Move();
      base.Move();
      ghost var moved, anim, layout := bird.State(), bird.Animation(), base.Layout();
      var collided := UpdatePipes(bird.x, hits, h);
      assert bird.Valid() && bird.x == BirdStartX && bird.State() == moved && bird.Animation() == anim;
      assert base.Valid() && base.Layout() == layout && base.width == assets.baseWidth;
      EndFrame(collided);
    }

    /** The end of a frame: stop on a collision or on ground contact, then
        advance the bird's animation as drawing it does. */
    method EndFrame(collided: bool)
      requires bird.Valid()
      modifies this`run, bird
      ensures bird.Valid() && bird.x == old(bird.x) && bird.State() == old(bird.State())
      ensures bird.Animation() == Animated(old(bird.Animation()), bird.tilt)
      ensures run == (old(run) && !collided && bird.y + assets.birdHeight as real < GroundLine as real)
    {
      if collided {
        run := false;
      }
      if bird.y + assets.birdHeight as real >= GroundLine as real {
        run := false;
      }
      bird.Animate();
    }
  }

  /** A session from its start: one frame with the first pipe, then a press of
      the reset button. The button clears the pipe list, and since a pipe is
      only spawned when one is passed, the list stays empty and the score stays
      0 through any number of later frames. h0 and h are the gap heights the
      random draws give. */
  method PlayAfterReset(assets: Assets, h0: int, hit: bool, h: int, frames: nat) returns (g: Game)
    requires assets.Valid()
    requires MinHeight <= h0 < MaxHeight && MinHeight <= h < MaxHeight
    ensures g.Valid()
    ensures g.pipes == [] && g.score == 0
  {
    g := new Game(assets, h0);
    g.Frame([hit], h);
    g.HandleEvents([ButtonClick]);
    var i := 0;
    while i < frames
      invariant g.Valid()
      invariant fresh(g.bird) && fresh(g.base)
      invariant g.pipes == [] && g.score == 0
    {
      g.Frame([], h);
      i := i + 1;
    }
  }
}
