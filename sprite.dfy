/** Sprite-sheet animation: a list of key frames (rectangles in a texture
    atlas) and a playhead that moves one key frame on whenever a frame's
    worth of time has passed. */
module Sprite {

  /** A key frame: a rectangle of the sprite sheet (`glm::ivec4`). */
  datatype KeyFrame = KeyFrame(x: int, y: int, w: int, h: int)

  /** `SpriteSheetAnimation`: the key frames in play order. The animation is
      a value that the sheet copies when it starts playing it. */
  class SpriteSheetAnimation {
    var keyFrames: seq<KeyFrame>

    /** An empty animation, or one built from a list of key frames. */
    constructor(frames: seq<KeyFrame>)
      ensures keyFrames == frames
    {
      keyFrames := frames;
    }

    /** `pushKeyFrame`: appends one key frame at the end. */
    method PushKeyFrame(f: KeyFrame)
      modifies this
      ensures keyFrames == old(keyFrames) + [f]
    {
      keyFrames := keyFrames + [f];
    }
  }

  /** The part of a sheet's state that `update` changes: whether it is
      paused, the current key frame and the time since the last key frame. */
  datatype Playhead = Playhead(paused: bool, current: nat, elapsed: real)

  /** `update` as a function of the playhead, the loop flag, the frame time,
      the number of key frames and the time step. */
  function Tick(h: Playhead, looped: bool, frameTime: real, count: nat, dt: real): Playhead {
    if h.paused then h
    else if h.elapsed + dt < frameTime then h.(elapsed := h.elapsed + dt)
    else if h.current + 1 >= count then Playhead(!looped, 0, 0.0)
    else Playhead(false, h.current + 1, 0.0)
  }

  /** The key frame index is in range, or zero for an animation with no key
      frames. */
  predicate InRange(h: Playhead, count: nat) {
    h.current < count || h.current == 0
  }

  /** What one `update` does: nothing when paused; otherwise the elapsed time
      grows by dt and, while it stays below the frame time, nothing else
      changes; once it reaches the frame time it restarts from zero (the
      excess is dropped) and the frame moves on by exactly one, wrapping to
      the first frame at the end, where a non-looping animation pauses. */
  lemma TickSpec(h: Playhead, looped: bool, frameTime: real, count: nat, dt: real)
    requires InRange(h, count)
    ensures var r := Tick(h, looped, frameTime, count, dt);
      && (h.paused ==> r == h)
      && (!h.paused && h.elapsed + dt < frameTime ==> r == h.(elapsed := h.elapsed + dt))
      && (!h.paused && h.elapsed + dt >= frameTime ==>
            && r.elapsed == 0.0
            && (count > 0 ==> r.current == (h.current + 1) % count)
            && r.paused == (!looped && h.current + 1 >= count))
      && InRange(r, count)
  {
  }

  /** `update` never moves more than one key frame, however large dt is. */
  lemma TickAtMostOneFrame(h: Playhead, looped: bool, frameTime: real, count: nat, dt: real)
    requires InRange(h, count) && count > 0
    ensures var r := Tick(h, looped, frameTime, count, dt);
      r.current == h.current || r.current == (h.current + 1) % count
  {
  }

  /** A looping animation never pauses itself. */
  lemma LoopingNeverPauses(h: Playhead, frameTime: real, count: nat, dt: real)
    requires !h.paused
    ensures !Tick(h, true, frameTime, count, dt).paused
  {
  }

  /** Several updates in a row. */
  function Ticks(h: Playhead, looped: bool, frameTime: real, count: nat, dts: seq<real>): Playhead
    decreases |dts|
  {
    if |dts| == 0 then h
    else Ticks(Tick(h, looped, frameTime, count, dts[0]), looped, frameTime, count, dts[1..])
  }

  /** A non-looping animation playing from frame c, with updates that each
      reach the frame time, stops at frame 0 after exactly count - c updates
      and stays there. */
  lemma {:induction false} NonLoopingStops(h: Playhead, frameTime: real, count: nat, dts: seq<real>)
    requires !h.paused && h.current < count && h.elapsed >= 0.0
    requires |dts| >= count - h.current
    requires forall k :: 0 <= k < |dts| ==> dts[k] >= frameTime
    ensures Ticks(h, false, frameTime, count, dts) == Playhead(true, 0, 0.0)
    decreases count - h.current
  {
    var next := Tick(h, false, frameTime, count, dts[0]);
    if h.current + 1 >= count {
      StaysPaused(next, frameTime, count, dts[1..]);
    } else {
      NonLoopingStops(next, frameTime, count, dts[1..]);
    }
  }

  /** A paused playhead stays as it is. */
  lemma {:induction false} StaysPaused(h: Playhead, frameTime: real, count: nat, dts: seq<real>)
    requires h.paused
    ensures Ticks(h, false, frameTime, count, dts) == h
    decreases |dts|
  {
    if |dts| > 0 {
      StaysPaused(h, frameTime, count, dts[1..]);
    }
  }

  /** `AnimatedSpriteSheet`: the playhead, the loop flag, the frame time and
      the copy of the animation being played. */
  class AnimatedSpriteSheet {
    var paused: bool
    var looped: bool
    var current: nat
    var frameTime: real
    var elapsed: real
    var frames: seq<KeyFrame>

    ghost predicate Valid()
      reads this
    {
      InRange(Head(), |frames|)
    }

    function Head(): Playhead
      reads this
    {
      Playhead(paused, current, elapsed)
    }

    /** A fresh sheet plays the given animation from its first frame, looping,
        with no time elapsed. */
    constructor(frameTime: real, animation: SpriteSheetAnimation)
      ensures Valid()
      ensures !paused && looped && current == 0 && elapsed == 0.0
      ensures this.frameTime == frameTime && frames == animation.keyFrames
    {
      paused := false;
      looped := true;
      current := 0;
      this.frameTime := frameTime;
      elapsed := 0.0;
      frames := animation.keyFrames;
    }

    /** `update`. */
    method Update(dt: real)
      requires Valid()
      modifies this
      ensures Valid()
      ensures Head() == Tick(old(Head()), looped, frameTime, |frames|, dt)
      ensures looped == old(looped) && frameTime == old(frameTime) && frames == old(frames)
    {
      if paused {
        return;
      }
      elapsed := elapsed + dt;
      if elapsed >= frameTime {
        elapsed := 0.0;
        current := current + 1;
        if current >= |frames| {
          if !looped {
            paused := true;
          }
          current := 0;
        }
      }
    }

    /** `playAnimation`: copies the new animation's key frames and plays it
        from the start; the loop flag and the frame time are kept. */
    method PlayAnimation(animation: SpriteSheetAnimation)
      modifies this
      ensures Valid()
      ensures Head() == Playhead(false, 0, 0.0) && frames == animation.keyFrames
      ensures looped == old(looped) && frameTime == old(frameTime)
    {
      paused := false;
      current := 0;
      elapsed := 0.0;
      frames := animation.keyFrames;
    }

    /** `play(b)`: pauses exactly when b is false. */
    method Play(shouldPlay: bool)
      modifies this
      ensures paused == !shouldPlay
      ensures looped == old(looped) && current == old(current) && elapsed == old(elapsed)
      ensures frameTime == old(frameTime) && frames == old(frames)
    {
      paused := !shouldPlay;
    }

    /** `loop(b)`. */
    method Loop(shouldLoop: bool)
      modifies this
      ensures looped == shouldLoop
      ensures paused == old(paused) && current == old(current) && elapsed == old(elapsed)
      ensures frameTime == old(frameTime) && frames == old(frames)
    {
      looped := shouldLoop;
    }

    /** `getUniform`: the current key frame of a non-empty animation. */
    function GetUniform(): (f: KeyFrame)
      requires Valid() && |frames| > 0
      reads this
      ensures f in frames
    {
      frames[current]
    }
  }
}
