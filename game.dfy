/** One run of the game: the event batch, the per-frame update and the collision check. */
module Game {
  import opened Config
  import opened Geometry
  import opened Player
  import opened RockQueue
  import opened Obstacles

  datatype Key = Space | OtherKey
  /** The events a frame's poll can return that the play loop looks at. */
  datatype Event = Quit | KeyDown(key: Key) | OtherEvent

  /** A frame's events lead to an accepted jump when the wolf is grounded and SPACE was pressed. */
  predicate JumpAccepted(wasJumping: bool, events: seq<Event>) {
    !wasJumping && KeyDown(Space) in events
  }

  /** The wolf's velocity after a frame's events: the jump strength if a jump was accepted. */
  function JumpVelocity(wasJumping: bool, v: real, events: seq<Event>): real {
    if JumpAccepted(wasJumping, events) then JumpStrength else v
  }

  /**
   * The wolf after a frame's events: a SPACE press leaves it jumping, with the
   * jump strength as velocity when the jump was accepted; nothing else changes.
   */
  function AfterEvents(p: Pose, events: seq<Event>): Pose {
    p.(isJumping := p.isJumping || KeyDown(Space) in events,
       yVelocity := JumpVelocity(p.isJumping, p.yVelocity, events))
  }

  /** The box of a rock whose left edge is at x: rocks rest on the ground. */
  function RockBox(x: int): Rect {
    Rect(x, RockY, RockSize, RockSize)
  }

  /** Some rock at one of the positions overlaps the box. */
  predicate AnyHit(box: Rect, xs: seq<int>) {
    exists i :: 0 <= i < |xs| && Overlaps(box, RockBox(xs[i]))
  }

  /**
   * The collision loop: every rock is tested against the wolf's box, with no
   * early exit, and any overlap clears the active flag.
   */
  method CheckCollisions(active: bool, wolfBox: Rect, rocks: seq<Rock>) returns (stillActive: bool)
    ensures stillActive <==> active && !AnyHit(wolfBox, Xs(rocks))
  {
    stillActive := active;
    ghost var xs := Xs(rocks);
    for i := 0 to |rocks|
      invariant stillActive <==> active && forall j :: 0 <= j < i ==> !Overlaps(wolfBox, RockBox(xs[j]))
    {
      if Overlaps(wolfBox, rocks[i].Box()) {
        stillActive := false;
      }
    }
  }

  /** What the play loop carries from one frame to the next, as values. */
  datatype Snapshot = Snapshot(pose: Pose, rocks: seq<int>, lastRockX: int, score: int)

  /** How one frame of the play loop ends. */
  datatype Outcome =
    | Quitted(after: Snapshot)            // a quit event: the frame stops after the events
    | Played(after: Snapshot, hit: bool)  // the frame ran; a hit clears game_active
    | Crashed                             // `rocks[-1]` on an empty list

  /** The frame ran and no rock hit the wolf, so the loop goes on. */
  predicate Continues(r: Outcome) {
    r.Played? && !r.hit
  }

  /** The wolf's box when its top is at height y. */
  function WolfBoxAt(y: int): Rect {
    Rect(WolfX, y, WolfWidth, WolfHeight)
  }

  /**
   * One frame of the play loop on values: the events (score and jump), then,
   * unless one of them was a quit, the wolf's update, the rock frame and the
   * collision test against the wolf's new box.
   */
  function PlayFrame(s: Snapshot, events: seq<Event>, toPixel: real -> int): (r: Outcome)
    requires Animating(s.pose)
    ensures r.Quitted? <==> Quit in events
    ensures !r.Crashed? ==> Animating(r.after.pose)
    ensures r.Played? ==> (r.hit <==> AnyHit(WolfBoxAt(r.after.pose.y), r.after.rocks))
  {
    var p := AfterEvents(s.pose, events);
    var score := s.score + (if JumpAccepted(s.pose.isJumping, events) then ScorePerJump else 0);
    if Quit in events then Quitted(Snapshot(p, s.rocks, s.lastRockX, score))
    else match Frame(s.rocks, s.lastRockX)
      case EmptyQueue => Crashed
      case Spawned(xs, last) =>
        var q := Updated(p, toPixel);
        Played(Snapshot(q, xs, last, score), AnyHit(WolfBoxAt(q.y), xs))
  }

  /** A frame in the two parts the loop takes it in: the events, then the rest. */
  lemma PlayFrameIn(s: Snapshot, events: seq<Event>, toPixel: real -> int, mid: Snapshot, after: Snapshot, gameActive: bool)
    requires Animating(s.pose)
    requires mid == Snapshot(AfterEvents(s.pose, events), s.rocks, s.lastRockX,
      s.score + (if JumpAccepted(s.pose.isJumping, events) then ScorePerJump else 0))
    requires Quit in events ==> after == mid
    requires Quit !in events ==>
      Frame(mid.rocks, mid.lastRockX) == Spawned(after.rocks, after.lastRockX) &&
      after.pose == Updated(mid.pose, toPixel) && after.score == mid.score &&
      (gameActive <==> !AnyHit(WolfBoxAt(after.pose.y), after.rocks))
    ensures PlayFrame(s, events, toPixel) == if Quit in events then Quitted(after) else Played(after, !gameActive)
  {
  }

  /**
   * The play loop on values: the outcome after the first n batches, where a
   * frame that quits, hits or crashes ends the run and later batches are not
   * looked at.
   */
  function Run(s: Snapshot, batches: seq<seq<Event>>, toPixel: real -> int, n: nat): (r: Outcome)
    requires Animating(s.pose) && n <= |batches|
    ensures !r.Crashed? ==> Animating(r.after.pose)
    ensures r.Played? && n > 0 ==> (r.hit <==> AnyHit(WolfBoxAt(r.after.pose.y), r.after.rocks))
    decreases n, 0
  {
    if n == 0 then Played(s, false) else RunFrame(s, batches, toPixel, n - 1)
  }

  /** The outcome once batch i is handled: its frame, if the run is still going. */
  function RunFrame(s: Snapshot, batches: seq<seq<Event>>, toPixel: real -> int, i: nat): (r: Outcome)
    requires Animating(s.pose) && i < |batches|
    ensures !r.Crashed? ==> Animating(r.after.pose)
    ensures r.Played? ==> (r.hit <==> AnyHit(WolfBoxAt(r.after.pose.y), r.after.rocks))
    decreases i, 1
  {
    var prev := Run(s, batches, toPixel, i);
    if Continues(prev) then PlayFrame(prev.after, batches[i], toPixel) else prev
  }

  /**
   * One more frame of a run that went on through n batches, as the play loop
   * takes it: from the state the run stands in, to the state the frame leaves.
   */
  lemma RunStep(s: Snapshot, batches: seq<seq<Event>>, toPixel: real -> int, n: nat,
                before: Snapshot, running: bool, gameActive: bool, after: Snapshot)
    requires Animating(s.pose) && n < |batches|
    requires Run(s, batches, toPixel, n) == Played(before, false)
    requires PlayFrame(before, batches[n], toPixel) == if running then Played(after, !gameActive) else Quitted(after)
    ensures Continues(Run(s, batches, toPixel, n))
    ensures Run(s, batches, toPixel, n + 1) == if running then Played(after, !gameActive) else Quitted(after)
  {
    RunOneMore(s, batches, toPixel, n);
  }

  /** A run that went on through n batches takes its next frame from where it stands. */
  lemma RunOneMore(s: Snapshot, batches: seq<seq<Event>>, toPixel: real -> int, n: nat)
    requires Animating(s.pose) && n < |batches| && Continues(Run(s, batches, toPixel, n))
    ensures Run(s, batches, toPixel, n + 1) == PlayFrame(Run(s, batches, toPixel, n).after, batches[n], toPixel)
  {
    assert Run(s, batches, toPixel, n + 1) == RunFrame(s, batches, toPixel, n);
  }

  /** A quit leaves the rocks and the wolf's height where they were; the score counts an accepted jump. */
  lemma PlayFrameQuit(s: Snapshot, events: seq<Event>, toPixel: real -> int)
    requires Animating(s.pose) && Quit in events
    ensures var r := PlayFrame(s, events, toPixel);
      r.after.rocks == s.rocks && r.after.lastRockX == s.lastRockX && r.after.pose.y == s.pose.y &&
      r.after.pose.isJumping == (s.pose.isJumping || KeyDown(Space) in events)
  {
  }

  /** Every frame that does not crash raises the score by 10 exactly when a jump was accepted. */
  lemma PlayFrameScore(s: Snapshot, events: seq<Event>, toPixel: real -> int)
    requires Animating(s.pose)
    ensures var r := PlayFrame(s, events, toPixel);
      !r.Crashed? ==>
        r.after.score == s.score + (if JumpAccepted(s.pose.isJumping, events) then ScorePerJump else 0)
  {
  }

  /**
   * From well-spaced rocks a frame never crashes, and the rocks stay well
   * spaced; when the frame runs, they are exactly Frame of the old ones.
   */
  lemma PlayFrameKeepsWellSpaced(s: Snapshot, events: seq<Event>, toPixel: real -> int)
    requires Animating(s.pose) && WellSpaced(s.rocks, s.lastRockX)
    ensures var r := PlayFrame(s, events, toPixel);
      !r.Crashed? && WellSpaced(r.after.rocks, r.after.lastRockX) &&
      (r.Played? ==> Frame(s.rocks, s.lastRockX) == Spawned(r.after.rocks, r.after.lastRockX))
  {
    FramePreservesWellSpaced(s.rocks, s.lastRockX);
  }

  /** A run that goes on after n batches went on after every earlier one. */
  lemma {:induction false} ContinuesBefore(s: Snapshot, batches: seq<seq<Event>>, toPixel: real -> int, n: nat)
    requires Animating(s.pose) && n <= |batches| && Continues(Run(s, batches, toPixel, n))
    ensures forall k :: 0 <= k <= n ==> Continues(Run(s, batches, toPixel, k))
    decreases n
  {
    if n > 0 {
      assert Run(s, batches, toPixel, n) == RunFrame(s, batches, toPixel, n - 1);
      ContinuesBefore(s, batches, toPixel, n - 1);
    }
  }

  /** A run that goes on after n batches met no quit in them. */
  lemma {:induction false} ContinuesNoQuit(s: Snapshot, batches: seq<seq<Event>>, toPixel: real -> int, n: nat)
    requires Animating(s.pose) && n <= |batches| && Continues(Run(s, batches, toPixel, n))
    ensures forall k :: 0 <= k < n ==> Quit !in batches[k]
    decreases n
  {
    if n > 0 {
      assert Run(s, batches, toPixel, n) == RunFrame(s, batches, toPixel, n - 1);
      ContinuesNoQuit(s, batches, toPixel, n - 1);
    }
  }

  /** From well-spaced rocks, no run ever crashes, and the rocks stay well spaced. */
  lemma {:induction false} RunKeepsWellSpaced(s: Snapshot, batches: seq<seq<Event>>, toPixel: real -> int, n: nat)
    requires Animating(s.pose) && n <= |batches| && WellSpaced(s.rocks, s.lastRockX)
    ensures !Run(s, batches, toPixel, n).Crashed?
    ensures WellSpaced(Run(s, batches, toPixel, n).after.rocks, Run(s, batches, toPixel, n).after.lastRockX)
    decreases n
  {
    if n > 0 {
      RunKeepsWellSpaced(s, batches, toPixel, n - 1);
      var prev := Run(s, batches, toPixel, n - 1);
      assert Run(s, batches, toPixel, n) == RunFrame(s, batches, toPixel, n - 1);
      if Continues(prev) {
        PlayFrameKeepsWellSpaced(prev.after, batches[n - 1], toPixel);
      }
    }
  }

  /**
   * Where a run whose earlier frames all went on stops after n batches: a quit
   * in the last batch, or no quit in any of them.
   */
  lemma StopsAt(s: Snapshot, batches: seq<seq<Event>>, toPixel: real -> int, n: nat)
    requires Animating(s.pose) && n <= |batches|
    requires n > 0 ==> Continues(Run(s, batches, toPixel, n - 1))
    ensures Run(s, batches, toPixel, n).Quitted? ==> n > 0 && Quit in batches[n - 1]
    ensures !Run(s, batches, toPixel, n).Quitted? ==> forall k :: 0 <= k < n ==> Quit !in batches[k]
  {
    if n > 0 {
      RunOneMore(s, batches, toPixel, n - 1);
      if !Run(s, batches, toPixel, n).Quitted? {
        ContinuesNoQuit(s, batches, toPixel, n - 1);
      }
    }
  }

  /**
   * The rocks of a run whose earlier frames all went on are the value-level
   * frames of the starting rocks, one per frame that moved anything.
   */
  lemma {:induction false} RunFrames(s: Snapshot, batches: seq<seq<Event>>, toPixel: real -> int, n: nat)
    requires Animating(s.pose) && n <= |batches|
    requires n > 0 ==> Continues(Run(s, batches, toPixel, n - 1))
    requires !Run(s, batches, toPixel, n).Crashed?
    ensures var r := Run(s, batches, toPixel, n);
      Frames(s.rocks, s.lastRockX, if r.Quitted? && n > 0 then n - 1 else n) == Spawned(r.after.rocks, r.after.lastRockX)
    decreases n
  {
    if n > 0 {
      assert Run(s, batches, toPixel, n) == RunFrame(s, batches, toPixel, n - 1);
      if n > 1 {
        assert Run(s, batches, toPixel, n - 1) == RunFrame(s, batches, toPixel, n - 2);
      }
      RunFrames(s, batches, toPixel, n - 1);
      FramesOneMore(s.rocks, s.lastRockX, n - 1);
    }
  }


  /**
   * What the outcome of a run whose earlier frames all went on says about the
   * batches and the rocks: where it stopped, and which frames moved the rocks.
   */
  lemma RunEnds(s: Snapshot, batches: seq<seq<Event>>, toPixel: real -> int, n: nat,
                running: bool, gameActive: bool, now: Snapshot)
    requires Animating(s.pose) && n <= |batches| && WellSpaced(s.rocks, s.lastRockX)
    requires n > 0 ==> Continues(Run(s, batches, toPixel, n - 1))
    requires Run(s, batches, toPixel, n) == if running then Played(now, !gameActive) else Quitted(now)
    ensures !running ==> n > 0 && Quit in batches[n - 1]
    ensures running ==> forall k :: 0 <= k < n ==> Quit !in batches[k]
    ensures running && !gameActive ==> AnyHit(WolfBoxAt(now.pose.y), now.rocks)
    ensures running && n > 0 ==> (gameActive <==> !AnyHit(WolfBoxAt(now.pose.y), now.rocks))
    ensures Frames(s.rocks, s.lastRockX, if running then n else n - 1) == Spawned(now.rocks, now.lastRockX)
  {
    StopsAt(s, batches, toPixel, n);
    RunKeepsWellSpaced(s, batches, toPixel, n);
    RunFrames(s, batches, toPixel, n);
  }

  /**
   * The state the play loop keeps from one frame to the next. The loop's own
   * flags (`running`, `game_active`) are the results of Step.
   */
  class GameState {
    const wolf: Wolf
    var rocks: seq<Rock>
    var score: int
    var lastRockX: int
    /** The number of jumps accepted so far in this run. */
    ghost var acceptedJumps: nat

    ghost predicate Valid()
      reads this`rocks, this`lastRockX, this`score, this`acceptedJumps, wolf, rocks
    {
      wolf.Valid() &&
      WellSpaced(Xs(rocks), lastRockX) &&
      score == ScorePerJump * acceptedJumps
    }

    /** The loop's state as a value. */
    ghost function Now(): Snapshot
      reads this, wolf, rocks
    {
      Snapshot(wolf.State(), Xs(rocks), lastRockX, score)
    }

    /** The start of a run: a grounded wolf, one rock at the right edge, no score. */
    constructor (toPixel: real -> int)
      ensures Valid() && fresh(wolf)
      ensures wolf.toPixel == toPixel && wolf.y == WolfGroundY && !wolf.isJumping
      ensures Xs(rocks) == [ScreenWidth] && lastRockX == ScreenWidth
      ensures score == 0 && acceptedJumps == 0
    {
      wolf := new Wolf(toPixel);
      var first := new Rock(NewRockX(None));
      rocks := [first];
      score := 0;
      lastRockX := ScreenWidth;
      acceptedJumps := 0;
      new;
      StartWellSpaced();
    }

    /**
     * One frame of play: handle the frame's events (a quit stops the frame
     * before anything moves), then update the wolf and the rocks, prune, spawn,
     * and check every rock for a collision with the wolf. The results are the
     * loop's `running` and `game_active` flags after the frame.
     */
    method Step(events: seq<Event>) returns (running: bool, gameActive: bool)
      requires Valid()
      modifies this`rocks, this`lastRockX, this`score, this`acceptedJumps, wolf, rocks
      ensures Valid()
      ensures forall r :: r in rocks ==> r in old(rocks) || fresh(r)
      ensures running <==> Quit !in events
      ensures !running ==> !gameActive
      ensures PlayFrame(old(Now()), events, wolf.toPixel) ==
        if running then Played(Now(), !gameActive) else Quitted(Now())
    {
      ghost var s := Now();
      running := HandleEvents(events);
      ghost var mid := Now();
      if !running {
        PlayFrameIn(s, events, wolf.toPixel, mid, mid, false);
        return running, false;
      }
      gameActive := Advance();
      PlayFrameIn(s, events, wolf.toPixel, mid, Now(), gameActive);
    }

    /**
     * The play loop of one run: a frame per event batch while the game is
     * active. It stops on a quit (running false), on a collision (running
     * true, game_active false), or when the given batches run out. The rock
     * list after the loop is the one the value-level frames predict, counting
     * every frame that moved anything, and it is still well spaced, so
     * `rocks[-1]` never fails during a run.
     */
    method Play(batches: seq<seq<Event>>) returns (running: bool, gameActive: bool, frames: nat)
      requires Valid()
      modifies this`rocks, this`lastRockX, this`score, this`acceptedJumps, wolf, rocks
      ensures Valid()
      ensures frames <= |batches|
      ensures Run(old(Now()), batches, wolf.toPixel, frames) ==
        if running then Played(Now(), !gameActive) else Quitted(Now())
      ensures frames > 0 ==> Continues(Run(old(Now()), batches, wolf.toPixel, frames - 1))
      ensures gameActive ==> running && frames == |batches|
      ensures !running ==> frames > 0 && Quit in batches[frames - 1]
      ensures running ==> forall k :: 0 <= k < frames ==> Quit !in batches[k]
      ensures running && !gameActive ==> AnyHit(wolf.Box(), Xs(rocks))
      ensures running && frames > 0 ==> (gameActive <==> !AnyHit(wolf.Box(), Xs(rocks)))
      ensures Frames(old(Xs(rocks)), old(lastRockX), if running then frames else frames - 1) == Spawned(Xs(rocks), lastRockX)
    {
      ghost var s0 := Now();
      assert s0 == old(Now());
      running, gameActive := true, true;
      frames := 0;
      while gameActive && frames < |batches|
        invariant Tracks(s0, batches, frames, running, gameActive)
        invariant forall r :: r in rocks ==> r in old(rocks) || fresh(r)
        decreases |batches| - frames
      {
        assert forall i :: 0 <= i < |rocks| ==> rocks[i] in old(rocks) || fresh(rocks[i]);
        running, gameActive := StepRun(s0, batches, frames);
        frames := frames + 1;
      }
      ghost var now := Now();
      RunEnds(s0, batches, wolf.toPixel, frames, running, gameActive, now);
      assert wolf.Box() == WolfBoxAt(now.pose.y) && Xs(rocks) == now.rocks;
    }

    /**
     * The loop's state after n frames of the run that began at s0: the
     * objects hold the run's outcome, and every earlier frame let the run go on.
     */
    ghost predicate Tracks(s0: Snapshot, batches: seq<seq<Event>>, n: nat, running: bool, gameActive: bool)
      reads this, wolf, rocks
    {
      Valid() && Animating(s0.pose) && n <= |batches| && (gameActive ==> running) &&
      Run(s0, batches, wolf.toPixel, n) == (if running then Played(Now(), !gameActive) else Quitted(Now())) &&
      (n > 0 ==> Continues(Run(s0, batches, wolf.toPixel, n - 1)))
    }

    /** The loop's body on batch n: one more frame of the run that began at s0. */
    method StepRun(ghost s0: Snapshot, batches: seq<seq<Event>>, n: nat) returns (running: bool, gameActive: bool)
      requires Tracks(s0, batches, n, true, true) && n < |batches|
      modifies this`rocks, this`lastRockX, this`score, this`acceptedJumps, wolf, rocks
      ensures Tracks(s0, batches, n + 1, running, gameActive)
      ensures forall r :: r in rocks ==> r in old(rocks) || fresh(r)
    {
      ghost var before := Now();
      running, gameActive := Step(batches[n]);
      RunStep(s0, batches, wolf.toPixel, n, before, running, gameActive, Now());
    }

    /**
     * The frame's event batch: a quit ends the loop, and each SPACE press asks
     * the wolf to jump, scoring only when the jump is accepted. Since an
     * accepted jump leaves the wolf airborne, at most one press per batch scores.
     */
    method HandleEvents(events: seq<Event>) returns (running: bool)
      requires Valid()
      modifies this`score, this`acceptedJumps, wolf
      ensures Valid()
      ensures running == (Quit !in events)
      ensures wolf.isJumping == (old(wolf.isJumping) || KeyDown(Space) in events)
      ensures wolf.yVelocity == JumpVelocity(old(wolf.isJumping), old(wolf.yVelocity), events)
      ensures wolf.y == old(wolf.y)
      ensures wolf.animationTimer == old(wolf.animationTimer) && wolf.imageIndex == old(wolf.imageIndex)
      ensures acceptedJumps == old(acceptedJumps) + (if JumpAccepted(old(wolf.isJumping), events) then 1 else 0)
      ensures score == old(score) + (if JumpAccepted(old(wolf.isJumping), events) then ScorePerJump else 0)
    {
      ghost var wasJumping := wolf.isJumping;
      running := true;
      var i := 0;
      while i < |events|
        invariant 0 <= i <= |events|
        invariant wolf.Valid()
        invariant running == (Quit !in events[..i])
        invariant wolf.isJumping == (wasJumping || KeyDown(Space) in events[..i])
        invariant JumpAccepted(wasJumping, events[..i]) ==> wolf.yVelocity == JumpStrength
        invariant !JumpAccepted(wasJumping, events[..i]) ==> wolf.yVelocity == old(wolf.yVelocity)
        invariant acceptedJumps == old(acceptedJumps) + (if JumpAccepted(wasJumping, events[..i]) then 1 else 0)
        invariant score == ScorePerJump * acceptedJumps
        invariant wolf.y == old(wolf.y)
        invariant wolf.animationTimer == old(wolf.animationTimer) && wolf.imageIndex == old(wolf.imageIndex)
      {
        assert events[..i + 1] == events[..i] + [events[i]];
        match events[i] {
          case Quit =>
            running := false;
          case KeyDown(key) =>
            if key == Space {
              var accepted := wolf.Jump();
              if accepted {
                score := score + ScorePerJump;
                acceptedJumps := acceptedJumps + 1;
              }
            }
          case OtherEvent =>
        }
        i := i + 1;
      }
      assert events[..|events|] == events;
    }

    /**
     * The rest of a frame: the wolf's physics, every rock moved, the
     * off-screen ones dropped, a new rock spawned when the last has travelled
     * far enough, then the collision check, whose verdict is the result.
     */
    method Advance() returns (gameActive: bool)
      requires Valid()
      modifies this`rocks, this`lastRockX, wolf, rocks
      ensures Valid()
      ensures forall r :: r in rocks ==> r in old(rocks) || fresh(r)
      ensures Frame(old(Xs(rocks)), old(lastRockX)) == Spawned(Xs(rocks), lastRockX)
      ensures gameActive <==> !AnyHit(wolf.Box(), Xs(rocks))
      ensures wolf.State() == Updated(old(wolf.State()), wolf.toPixel)
    {
      ghost var xs0 := Xs(rocks);
      wolf.Update();
      // The wolf is not one of the rocks, so neither step disturbs the other.
      assert Xs(rocks) == xs0;
      assert forall i :: 0 <= i < |rocks| ==> rocks[i] as object != wolf;
      AdvanceRocks();
      gameActive := CheckCollisions(true, wolf.Box(), rocks);
    }

    /** The rock half of a frame: move every rock, prune, spawn. */
    method AdvanceRocks()
      requires WellSpaced(Xs(rocks), lastRockX)
      modifies this`rocks, this`lastRockX, rocks
      ensures WellSpaced(Xs(rocks), lastRockX)
      ensures forall r :: r in rocks ==> r in old(rocks) || fresh(r)
      ensures Frame(old(Xs(rocks)), old(lastRockX)) == Spawned(Xs(rocks), lastRockX)
    {
      ghost var xs0 := Xs(rocks);
      assert forall i, j :: 0 <= i < j < |rocks| ==> rocks[i] != rocks[j] by {
        WellSpacedIncreasing(xs0, lastRockX);
      }
      assert forall i :: 0 <= i < |rocks| ==> rocks[i] as object != this;
      UpdateRocks(rocks);
      Prune();
      FramePreservesWellSpaced(xs0, lastRockX);
      SpawnIfDue();
    }

    /** Drops the rocks that have left the screen, keeping the others in order. */
    method Prune()
      modifies this`rocks
      ensures Xs(rocks) == Kept(old(Xs(rocks)))
      ensures forall r :: r in rocks ==> r in old(rocks)
    {
      rocks := Pruned(rocks);
    }

    /**
     * The spawn step: when the last rock has travelled more than the spacing
     * from last_rock_x, append a rock there and read last_rock_x back from it.
     * The source reads `rocks[-1]`, which fails on an empty list.
     */
    method SpawnIfDue()
      requires |rocks| > 0
      modifies this`rocks, this`lastRockX
      ensures rocks == old(rocks) || (|rocks| > 0 && rocks[..|rocks| - 1] == old(rocks) && fresh(rocks[|rocks| - 1]))
      ensures Spawn(old(Xs(rocks)), old(lastRockX)) == Spawned(Xs(rocks), lastRockX)
    {
      ghost var xs0 := Xs(rocks);
      var before := rocks;
      if lastRockX - rocks[|rocks| - 1].x > RockSpacing {
        var rock := new Rock(NewRockX(Some(lastRockX)));
        rocks := rocks + [rock];
        lastRockX := rocks[|rocks| - 1].x;
        assert Xs(rocks) == xs0 + [lastRockX] by {
          XsAppend(before, [rock]);
        }
      }
    }
  }
}
