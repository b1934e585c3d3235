/**
 * The rock list seen through the rocks' x-positions: one frame moves every
 * rock, drops the ones past the left edge and may spawn one at the right edge.
 * The lemmas show the list is never empty when the spawn step reads its last
 * rock, and that consecutive rocks are always exactly SpawnGap apart.
 */
module RockQueue {
  import opened Config

  /** A rock has left the screen once its left edge is more than its width left of 0. */
  predicate OffScreen(x: int): (off: bool)
    ensures off <==> x + RockSize < 0
  {
    x < -RockSize
  }

  /**
   * The distance between consecutive rocks: the first multiple of the
   * obstacle speed that exceeds the rock spacing (72 * 7 = 504).
   */
  const SpawnGap: int := ObstacleSpeed * (RockSpacing / ObstacleSpeed + 1)

  /** Every rock moved left by the obstacle speed. */
  function Moved(xs: seq<int>): seq<int> {
    seq(|xs|, i requires 0 <= i < |xs| => xs[i] - ObstacleSpeed)
  }

  /** The rocks that are still on screen, in their original order. */
  function Kept(xs: seq<int>): (ys: seq<int>)
    ensures |ys| <= |xs|
    ensures |xs| > 0 && !OffScreen(xs[|xs| - 1]) ==> |ys| > 0 && ys[|ys| - 1] == xs[|xs| - 1]
  {
    if xs == [] then []
    else (if OffScreen(xs[0]) then [] else [xs[0]]) + Kept(xs[1..])
  }

  /** The rock list and last_rock_x after a spawn step, or the IndexError of `rocks[-1]` on an empty list. */
  datatype SpawnResult = Spawned(rocks: seq<int>, lastRockX: int) | EmptyQueue

  /**
   * The spawn step: when the last rock has travelled more than the spacing from
   * last_rock_x, a rock is appended there and last_rock_x is read back from it.
   */
  function Spawn(xs: seq<int>, lastRockX: int): (r: SpawnResult)
    ensures r.EmptyQueue? <==> xs == []
    ensures r.Spawned? ==> r.lastRockX == lastRockX
    ensures r.Spawned? ==>
      if lastRockX - xs[|xs| - 1] > RockSpacing then r.rocks == xs + [lastRockX] else r.rocks == xs
    ensures r.Spawned? ==> lastRockX - r.rocks[|r.rocks| - 1] <= RockSpacing
  {
    if xs == [] then EmptyQueue
    else if lastRockX - xs[|xs| - 1] > RockSpacing then
      var ys := xs + [lastRockX];
      Spawned(ys, ys[|ys| - 1])
    else Spawned(xs, lastRockX)
  }

  /** One frame of the rock list: move, prune, spawn. The spawn point is read back unchanged. */
  function Frame(xs: seq<int>, lastRockX: int): (r: SpawnResult)
    ensures r.Spawned? ==> r.lastRockX == lastRockX && |r.rocks| <= |xs| + 1
  {
    Spawn(Kept(Moved(xs)), lastRockX)
  }

  /**
   * A frame fails only when every rock has left the screen; otherwise every
   * rock afterwards is either an old one moved left and still on screen, or
   * the new one at last_rock_x.
   */
  lemma FrameRocks(xs: seq<int>, lastRockX: int)
    ensures Frame(xs, lastRockX).EmptyQueue? <==> forall i :: 0 <= i < |xs| ==> OffScreen(xs[i] - ObstacleSpeed)
    ensures Frame(xs, lastRockX).Spawned? ==> forall y :: y in Frame(xs, lastRockX).rocks ==>
      y == lastRockX || (y + ObstacleSpeed in xs && !OffScreen(y))
  {
    var m := Moved(xs);
    KeptMembers(m);
    assert forall y :: y in m ==> y + ObstacleSpeed in xs;
    if Kept(m) != [] {
      var y := Kept(m)[0];
      assert y in Kept(m);
      var j :| 0 <= j < |m| && m[j] == y;
      assert !OffScreen(xs[j] - ObstacleSpeed);
    } else {
      forall i | 0 <= i < |xs|
        ensures OffScreen(xs[i] - ObstacleSpeed)
      {
        assert m[i] in m;
      }
    }
  }

  /** Consecutive rocks are exactly SpawnGap apart. */
  ghost predicate Gapped(xs: seq<int>) {
    |xs| < 2 || (xs[1] - xs[0] == SpawnGap && Gapped(xs[1..]))
  }

  /**
   * The invariant of the rock list during play: last_rock_x is the right edge,
   * the list is non-empty, nothing in it is off screen, rocks are SpawnGap
   * apart, the last one is within the spacing of the spawn point and lies a
   * whole number of frames left of it.
   */
  ghost predicate WellSpaced(xs: seq<int>, lastRockX: int) {
    lastRockX == ScreenWidth &&
    |xs| > 0 &&
    !OffScreen(xs[0]) &&
    Gapped(xs) &&
    lastRockX - xs[|xs| - 1] <= RockSpacing &&
    xs[|xs| - 1] <= ScreenWidth &&
    (ScreenWidth - xs[|xs| - 1]) % ObstacleSpeed == 0
  }

  /** Pruning keeps exactly the on-screen rocks. */
  lemma {:induction false} KeptMembers(xs: seq<int>)
    ensures forall y :: y in Kept(xs) <==> y in xs && !OffScreen(y)
  {
    if xs != [] {
      KeptMembers(xs[1..]);
      assert xs == [xs[0]] + xs[1..];
    }
  }

  /** Pruning distributes over concatenation: it keeps relative order. */
  lemma {:induction false} KeptAppend(a: seq<int>, b: seq<int>)
    ensures Kept(a + b) == Kept(a) + Kept(b)
  {
    if a == [] {
      assert a + b == b;
    } else {
      assert (a + b)[1..] == a[1..] + b;
      KeptAppend(a[1..], b);
      assert Kept(a + b) == (if OffScreen(a[0]) then [] else [a[0]]) + Kept(a[1..] + b);
    }
  }

  /** A list with nothing off screen is kept whole. */
  lemma {:induction false} KeptAllOnScreen(xs: seq<int>)
    requires forall i :: 0 <= i < |xs| ==> !OffScreen(xs[i])
    ensures Kept(xs) == xs
  {
    if xs != [] {
      KeptAllOnScreen(xs[1..]);
    }
  }

  /** In a gapped list the rocks lie SpawnGap per position apart. */
  lemma {:induction false} GappedDistance(xs: seq<int>, i: int, j: int)
    requires Gapped(xs) && 0 <= i <= j < |xs|
    ensures xs[j] - xs[i] == (j - i) * SpawnGap
    decreases j
  {
    if 0 < j {
      GappedDistance(xs[1..], if i == 0 then 0 else i - 1, j - 1);
    }
  }

  /** Pruning a gapped list leaves it gapped: only a prefix can leave the screen. */
  lemma {:induction false} KeptGapped(xs: seq<int>)
    requires Gapped(xs)
    ensures Gapped(Kept(xs))
  {
    if xs != [] {
      if OffScreen(xs[0]) {
        KeptGapped(xs[1..]);
        assert Kept(xs) == Kept(xs[1..]);
      } else {
        forall i | 0 <= i < |xs|
          ensures !OffScreen(xs[i])
        {
          GappedDistance(xs, 0, i);
        }
        KeptAllOnScreen(xs);
      }
    }
  }

  /** x strictly increases along a well-spaced list. */
  lemma WellSpacedIncreasing(xs: seq<int>, lastRockX: int)
    requires WellSpaced(xs, lastRockX)
    ensures forall i, j :: 0 <= i < j < |xs| ==> xs[i] < xs[j]
  {
    forall i, j | 0 <= i < j < |xs|
      ensures xs[i] < xs[j]
    {
      GappedDistance(xs, i, j);
    }
  }

  /** The screen has room for at most two rocks that far apart. */
  lemma WellSpacedAtMostTwo(xs: seq<int>, lastRockX: int)
    requires WellSpaced(xs, lastRockX)
    ensures |xs| <= 2
  {
    if |xs| > 2 {
      GappedDistance(xs, 0, 2);
      GappedDistance(xs, 2, |xs| - 1);
      assert false;
    }
  }

  /** Moving shifts every rock alike, so the gaps survive. */
  lemma {:induction false} MovedGapped(xs: seq<int>)
    requires Gapped(xs)
    ensures Gapped(Moved(xs))
  {
    if |xs| >= 2 {
      MovedGapped(xs[1..]);
      assert Moved(xs)[1..] == Moved(xs[1..]);
    }
  }

  /** Pruning the moved list of a well-spaced one keeps its last rock and its gaps. */
  lemma MovedKept(xs: seq<int>, lastRockX: int)
    requires WellSpaced(xs, lastRockX)
    ensures var k := Kept(Moved(xs));
      |k| > 0 && k[|k| - 1] == xs[|xs| - 1] - ObstacleSpeed &&
      Gapped(k) && !OffScreen(k[0])
  {
    var m := Moved(xs);
    MovedGapped(xs);
    assert m[|m| - 1] == xs[|xs| - 1] - ObstacleSpeed;
    KeptGapped(m);
    var k := Kept(m);
    KeptMembers(m);
    assert k[0] in k;
  }

  /** Appending a rock SpawnGap after the last keeps a list gapped. */
  lemma {:induction false} AppendGapped(xs: seq<int>, x: int)
    requires Gapped(xs) && |xs| > 0 && x - xs[|xs| - 1] == SpawnGap
    ensures Gapped(xs + [x])
  {
    if |xs| >= 2 {
      AppendGapped(xs[1..], x);
      assert (xs + [x])[1..] == xs[1..] + [x];
    } else {
      assert (xs + [x])[1..] == [x];
    }
  }

  /**
   * One frame keeps a well-spaced list well-spaced: the spawn step finds a
   * non-empty list, so `rocks[-1]` is defined, and a new rock is placed exactly
   * SpawnGap after the previous last one.
   */
  lemma FramePreservesWellSpaced(xs: seq<int>, lastRockX: int)
    requires WellSpaced(xs, lastRockX)
    ensures Frame(xs, lastRockX).Spawned?
    ensures WellSpaced(Frame(xs, lastRockX).rocks, Frame(xs, lastRockX).lastRockX)
    ensures |Frame(xs, lastRockX).rocks| <= |xs| + 1
  {
    MovedKept(xs, lastRockX);
    var k := Kept(Moved(xs));
    var last := k[|k| - 1];
    assert ScreenWidth - last == ScreenWidth - xs[|xs| - 1] + ObstacleSpeed;
    assert (ScreenWidth - last) % ObstacleSpeed == 0;
    var r := Spawn(k, lastRockX);
    assert Frame(xs, lastRockX) == r;
    if lastRockX - last > RockSpacing {
      // A whole number of frames from the spawn point, just past the spacing.
      assert ScreenWidth - last == SpawnGap;
      assert r.rocks == k + [ScreenWidth];
      AppendGapped(k, ScreenWidth);
    } else {
      assert r.rocks == k;
    }
  }

  /** The rock list after n frames from the given one. */
  function Frames(xs: seq<int>, lastRockX: int, n: nat): SpawnResult
    decreases n
  {
    if n == 0 then Spawned(xs, lastRockX)
    else match Frame(xs, lastRockX)
      case EmptyQueue => EmptyQueue
      case Spawned(ys, last) => Frames(ys, last, n - 1)
  }

  /** One more frame on top of n frames is the frame of the list those n frames left. */
  lemma {:induction false} FramesOneMore(xs: seq<int>, lastRockX: int, n: nat)
    requires Frames(xs, lastRockX, n).Spawned?
    ensures Frames(xs, lastRockX, n + 1) ==
      Frame(Frames(xs, lastRockX, n).rocks, Frames(xs, lastRockX, n).lastRockX)
    decreases n
  {
    if n > 0 {
      match Frame(xs, lastRockX)
      case Spawned(ys, last) => FramesOneMore(ys, last, n - 1);
      case EmptyQueue =>
    }
  }

  /**
   * From any well-spaced list, such as the single rock a run starts with, no
   * number of frames ever reaches `rocks[-1]` on an empty list, and the list
   * stays well spaced.
   */
  lemma {:induction false} RunNeverEmpties(xs: seq<int>, lastRockX: int, n: nat)
    requires WellSpaced(xs, lastRockX)
    ensures Frames(xs, lastRockX, n).Spawned?
    ensures WellSpaced(Frames(xs, lastRockX, n).rocks, Frames(xs, lastRockX, n).lastRockX)
    decreases n
  {
    if n > 0 {
      FramePreservesWellSpaced(xs, lastRockX);
      var r := Frame(xs, lastRockX);
      RunNeverEmpties(r.rocks, r.lastRockX, n - 1);
    }
  }

  /** A fresh run's single rock at the right edge is well spaced. */
  lemma StartWellSpaced()
    ensures WellSpaced([ScreenWidth], ScreenWidth)
  {
  }

  /** Moving never brings an off-screen rock back: it stays off screen for good. */
  lemma OffScreenStaysOffScreen(xs: seq<int>, i: int)
    requires 0 <= i < |xs| && OffScreen(xs[i])
    ensures OffScreen(Moved(xs)[i]) && Moved(xs)[i] == xs[i] - ObstacleSpeed
  {
  }
}
