/** The wolf: jump physics, landing and the run-cycle animation. */
module Player {
  import opened Config
  import opened Geometry

  /**
   * One animation tick: the timer grows by the per-frame increment; once it
   * reaches 1 it restarts at 0 and the image index moves to the next of the
   * run-cycle images, wrapping after the last.
   */
  function Animated(timer: real, index: int): (next: (real, int))
    requires 0.0 <= timer < 1.0 && 0 <= index < WolfFrames
    ensures 0.0 <= next.0 < 1.0 && 0 <= next.1 < WolfFrames
    ensures next.0 == 0.0 <==> timer + WolfAnimationSpeed >= 1.0
    ensures next.0 != 0.0 ==> next.0 == timer + WolfAnimationSpeed && next.1 == index
    ensures next.0 == 0.0 ==> next.1 == if index == WolfFrames - 1 then 0 else index + 1
  {
    var t := timer + WolfAnimationSpeed;
    if t >= 1.0 then (0.0, (index + 1) % WolfFrames) else (t, index)
  }

  /**
   * One frame of the wolf's vertical motion, as (y, velocity, jumping): while
   * airborne, gravity is added to the velocity and the velocity to the position
   * (through `toPixel`, the float-to-integer step of a pygame Rect); reaching
   * the ground line clamps the wolf onto it and ends the jump. A grounded wolf
   * does not move.
   */
  function Physics(y: int, v: real, jumping: bool, toPixel: real -> int): (next: (int, real, bool))
    ensures !jumping ==> next == (y, v, false)
    ensures jumping && next.2 ==> next.1 == v + Gravity && next.0 == toPixel(y as real + next.1) && next.0 < WolfGroundY
    ensures jumping && !next.2 ==> next.0 == WolfGroundY && next.1 == 0.0
    ensures jumping ==> (next.2 <==> toPixel(y as real + v + Gravity) < WolfGroundY)
    ensures y <= WolfGroundY ==> next.0 <= WolfGroundY
    ensures (!jumping ==> y == WolfGroundY && v == 0.0) ==> (!next.2 ==> next.0 == WolfGroundY && next.1 == 0.0)
  {
    if jumping then
      var v' := v + Gravity;
      var y' := toPixel(y as real + v');
      if y' >= WolfGroundY then (WolfGroundY, 0.0, false) else (y', v', true)
    else (y, v, false)
  }

  /** What changes about the wolf from frame to frame: its height, velocity, jump flag and animation. */
  datatype Pose = Pose(y: int, yVelocity: real, isJumping: bool, animationTimer: real, imageIndex: int)

  /** The animation timer and image index are in range. */
  predicate Animating(p: Pose) {
    0.0 <= p.animationTimer < 1.0 && 0 <= p.imageIndex < WolfFrames
  }

  /** Wolf.update on a pose: one physics step, then one animation tick. */
  function Updated(p: Pose, toPixel: real -> int): (q: Pose)
    requires Animating(p)
    ensures Animating(q)
  {
    var (y, v, jumping) := Physics(p.y, p.yVelocity, p.isJumping, toPixel);
    var (timer, index) := Animated(p.animationTimer, p.imageIndex);
    Pose(y, v, jumping, timer, index)
  }

  class Wolf {
    /** rect.x, set once. */
    const x: int
    /** rect.y, an integer as in a pygame Rect. */
    var y: int
    var yVelocity: real
    var isJumping: bool
    var imageIndex: int
    var animationTimer: real
    /**
     * How pygame turns the float `rect.y + y_velocity` into the integer it
     * stores in rect.y; a library behaviour this model does not fix.
     */
    const toPixel: real -> int

    /** The wolf never sinks below the ground and rests there whenever it is not jumping. */
    ghost predicate Valid()
      reads this
    {
      x == WolfX &&
      y <= WolfGroundY &&
      (!isJumping ==> y == WolfGroundY && yVelocity == 0.0) &&
      0 <= imageIndex < WolfFrames &&
      0.0 <= animationTimer < 1.0
    }

    constructor (toPixel: real -> int)
      ensures Valid() && this.toPixel == toPixel
      ensures y == WolfGroundY && yVelocity == 0.0 && !isJumping
      ensures imageIndex == 0 && animationTimer == 0.0
    {
      this.x := WolfX;
      this.y := GroundHeight - WolfHeight;
      this.yVelocity := 0.0;
      this.isJumping := false;
      this.imageIndex := 0;
      this.animationTimer := 0.0;
      this.toPixel := toPixel;
    }

    function State(): Pose
      reads this
    {
      Pose(y, yVelocity, isJumping, animationTimer, imageIndex)
    }

    /** The wolf's bounding box (the scaled image's rect). */
    function Box(): (r: Rect)
      reads this
      ensures r.x == x && r.y == y && r.w == WolfWidth && r.h == WolfHeight
    {
      Rect(x, y, WolfWidth, WolfHeight)
    }

    /** A jump is accepted only from the ground, and then launches the wolf upward. */
    method Jump() returns (accepted: bool)
      requires Valid()
      modifies this`isJumping, this`yVelocity
      ensures Valid()
      ensures accepted == !old(isJumping)
      ensures isJumping
      ensures yVelocity == if accepted then JumpStrength else old(yVelocity)
    {
      if !isJumping {
        isJumping := true;
        yVelocity := JumpStrength;
        return true;
      }
      return false;
    }

    method Animate()
      requires Valid()
      modifies this`animationTimer, this`imageIndex
      ensures Valid()
      ensures (animationTimer, imageIndex) == Animated(old(animationTimer), old(imageIndex))
    {
      animationTimer := animationTimer + WolfAnimationSpeed;
      if animationTimer >= 1.0 {
        animationTimer := 0.0;
        imageIndex := (imageIndex + 1) % WolfFrames;
      }
    }

    /**
     * One frame of physics: while airborne, gravity is added to the velocity and
     * the velocity to the position; reaching the ground clamps the wolf onto it
     * and ends the jump. The animation advances in every frame.
     */
    method Update()
      requires Valid()
      modifies this
      ensures Valid()
      ensures (y, yVelocity, isJumping) == Physics(old(y), old(yVelocity), old(isJumping), toPixel)
      ensures (animationTimer, imageIndex) == Animated(old(animationTimer), old(imageIndex))
    {
      if isJumping {
        yVelocity := yVelocity + Gravity;
        y := toPixel(y as real + yVelocity);
        if y >= GroundHeight - WolfHeight {
          y := GroundHeight - WolfHeight;
          isJumping := false;
          yVelocity := 0.0;
        }
      }
      Animate();
    }
  }
}
