/**
 * Scene-object bookkeeping of the tsage engine: the attribute setters and
 * the dirty flag they raise, frame advance with wrap-around, the angle to
 * sprite-strip mapping of the object wrapper, the draw-order comparator,
 * the splice distance, the visage frame clamp and the action delay.
 *
 * The object flags are bits whose values live in a header that is not part
 * of this model; they are modelled as a set of named flags. The literal
 * bit 1 that `setPriority2` toggles is its own flag, `FixedPriority`.
 */
module SceneObjects {
  import opened CMath
  import opened Regions

  datatype ObjFlag = Panes | Zoomed | Flag8 | NoUpdates | FixedPriority

  datatype AnimateMode = AnimModeNone | AnimMode1 | AnimModeOther(code: int)

  /** The attributes the setters read and write. */
  datatype ObjState = ObjState(
    flags: set<ObjFlag>,
    position: Point,
    yDiff: int,
    percent: int,
    strip: int,
    frame: int,
    priority: int,
    visage: int)
  {
    /** What the object looks like on screen, apart from the flags. */
    function Drawn(): (Point, int, int, int, int, int, int) {
      (position, yDiff, percent, strip, frame, priority, visage)
    }
  }

  /** The dirty-flag discipline: a change to what is drawn leaves `Panes` raised. */
  predicate Flagged(before: ObjState, after: ObjState) {
    before.Drawn() != after.Drawn() ==> Panes in after.flags
  }

  /** Flags only ever gain `Panes`, apart from the flag a setter controls. */
  predicate FlagsKept(before: ObjState, after: ObjState, own: set<ObjFlag>) {
    after.flags - own - {Panes} == before.flags - own - {Panes}
  }

  /** `setPosition`: always redraws. */
  function WithPosition(s: ObjState, p: Point, yDiff: int): (r: ObjState)
    ensures r.position == p && r.yDiff == yDiff && Panes in r.flags
    ensures FlagsKept(s, r, {}) && Flagged(s, r)
    ensures r.(position := s.position, yDiff := s.yDiff, flags := s.flags) == s
  {
    s.(position := p, yDiff := yDiff, flags := s.flags + {Panes})
  }

  /** `setZoom`: redraws only when the percentage changes. */
  function WithZoom(s: ObjState, percent: int): (r: ObjState)
    ensures r.percent == percent && Flagged(s, r) && FlagsKept(s, r, {})
    ensures percent == s.percent ==> r == s
    ensures r.(percent := s.percent, flags := s.flags) == s
  {
    if percent != s.percent then s.(percent := percent, flags := s.flags + {Panes}) else s
  }

  /** `changeZoom`: -1 turns zooming off; any other value turns it on and sets the percentage. */
  function ChangeZoom(s: ObjState, percent: int): (r: ObjState)
    ensures percent == -1 ==> r == s.(flags := s.flags - {Zoomed})
    ensures percent != -1 ==> Zoomed in r.flags && r.percent == percent
    ensures Flagged(s, r) && FlagsKept(s, r, {Zoomed})
  {
    if percent == -1 then s.(flags := s.flags - {Zoomed})
    else WithZoom(s.(flags := s.flags + {Zoomed}), percent)
  }

  function WithStrip(s: ObjState, stripNum: int): (r: ObjState)
    ensures r.strip == stripNum && Flagged(s, r) && FlagsKept(s, r, {})
    ensures stripNum == s.strip ==> r == s
    ensures r.(strip := s.strip, flags := s.flags) == s
  {
    if stripNum != s.strip then s.(strip := stripNum, flags := s.flags + {Panes}) else s
  }

  /** `setStrip2`: -1 releases the strip; anything else pins it. */
  function WithStrip2(s: ObjState, stripNum: int): (r: ObjState)
    ensures stripNum == -1 ==> r == s.(flags := s.flags - {Flag8})
    ensures stripNum != -1 ==> Flag8 in r.flags && r.strip == stripNum
    ensures Flagged(s, r) && FlagsKept(s, r, {Flag8})
  {
    if stripNum == -1 then s.(flags := s.flags - {Flag8})
    else WithStrip(s.(flags := s.flags + {Flag8}), stripNum)
  }

  function WithFrame(s: ObjState, frameNum: int): (r: ObjState)
    ensures r.frame == frameNum && Flagged(s, r) && FlagsKept(s, r, {})
    ensures frameNum == s.frame ==> r == s
    ensures r.(frame := s.frame, flags := s.flags) == s
  {
    if frameNum != s.frame then s.(frame := frameNum, flags := s.flags + {Panes}) else s
  }

  /** `setFrame2`: -1 lets the animation run again; anything else fixes the frame. */
  function WithFrame2(s: ObjState, frameNum: int): (r: ObjState)
    ensures frameNum == -1 ==> r == s.(flags := s.flags - {NoUpdates})
    ensures frameNum != -1 ==> NoUpdates in r.flags && r.frame == frameNum
    ensures Flagged(s, r) && FlagsKept(s, r, {NoUpdates})
  {
    if frameNum != -1 then WithFrame(s.(flags := s.flags + {NoUpdates}), frameNum)
    else s.(flags := s.flags - {NoUpdates})
  }

  function WithPriority(s: ObjState, priority: int): (r: ObjState)
    ensures r.priority == priority && Flagged(s, r) && FlagsKept(s, r, {})
    ensures priority == s.priority ==> r == s
    ensures r.(priority := s.priority, flags := s.flags) == s
  {
    if priority != s.priority then s.(priority := priority, flags := s.flags + {Panes}) else s
  }

  /** `setPriority2`: -1 releases the priority; anything else fixes it. */
  function WithPriority2(s: ObjState, priority: int): (r: ObjState)
    ensures priority == -1 ==> r == s.(flags := s.flags - {FixedPriority})
    ensures priority != -1 ==> FixedPriority in r.flags && r.priority == priority
    ensures Flagged(s, r) && FlagsKept(s, r, {FixedPriority})
  {
    if priority == -1 then s.(flags := s.flags - {FixedPriority})
    else WithPriority(s.(flags := s.flags + {FixedPriority}), priority)
  }

  function WithVisage(s: ObjState, visage: int): (r: ObjState)
    ensures r.visage == visage && Flagged(s, r) && FlagsKept(s, r, {})
    ensures visage == s.visage ==> r == s
    ensures r.(visage := s.visage, flags := s.flags) == s
  {
    if visage != s.visage then s.(visage := visage, flags := s.flags + {Panes}) else s
  }

  /** Setting an attribute twice to the same value is the same as setting it once. */
  lemma SettersIdempotent(s: ObjState, v: int, p: Point)
    ensures WithPosition(WithPosition(s, p, v), p, v) == WithPosition(s, p, v)
    ensures WithZoom(WithZoom(s, v), v) == WithZoom(s, v)
    ensures ChangeZoom(ChangeZoom(s, v), v) == ChangeZoom(s, v)
    ensures WithStrip(WithStrip(s, v), v) == WithStrip(s, v)
    ensures WithStrip2(WithStrip2(s, v), v) == WithStrip2(s, v)
    ensures WithFrame(WithFrame(s, v), v) == WithFrame(s, v)
    ensures WithFrame2(WithFrame2(s, v), v) == WithFrame2(s, v)
    ensures WithPriority(WithPriority(s, v), v) == WithPriority(s, v)
    ensures WithPriority2(WithPriority2(s, v), v) == WithPriority2(s, v)
    ensures WithVisage(WithVisage(s, v), v) == WithVisage(s, v)
  {
  }

  /**
   * `getNewFrame`: the frame after stepping by `change`. Stepping forward
   * past the last frame restarts at frame 1 (frame 2 in animation mode 1);
   * stepping below frame 1 goes to the last frame.
   */
  function NextFrame(frame: int, change: int, frameCount: int, mode: AnimateMode): (f: int)
    ensures change > 0 && frame + change <= frameCount ==> f == frame + change
    ensures change <= 0 && frame + change >= 1 ==> f == frame + change
    ensures change > 0 && frame + change > frameCount ==> f == (if mode == AnimMode1 then 2 else 1)
    ensures change <= 0 && frame + change < 1 ==> f == frameCount
  {
    var frameNum := frame + change;
    if change > 0 then
      if frameNum > frameCount then (if mode == AnimMode1 then 2 else 1) else frameNum
    else if frameNum < 1 then frameCount
    else frameNum
  }

  /** A single step keeps the frame inside 1..frameCount (mode 1 needs two frames to restart at 2). */
  lemma NextFrameInRange(frame: int, change: int, frameCount: int, mode: AnimateMode)
    requires 1 <= frame <= frameCount && -frameCount < change < frameCount
    requires mode == AnimMode1 ==> frameCount >= 2
    ensures 1 <= NextFrame(frame, change, frameCount, mode) <= frameCount
  {
  }

  /** The frame after n single steps in one direction, outside animation mode 1. */
  function AdvanceFrames(frame: int, change: int, frameCount: int, n: nat): int
    decreases n
  {
    if n == 0 then frame
    else AdvanceFrames(NextFrame(frame, change, frameCount, AnimModeNone), change, frameCount, n - 1)
  }

  /** Forward animation cycles through the frames in order and wraps round to frame 1. */
  lemma {:induction false} ForwardFramesCycle(frame: int, frameCount: int, n: nat)
    requires 1 <= frame <= frameCount
    ensures AdvanceFrames(frame, 1, frameCount, n) == 1 + (frame - 1 + n) % frameCount
    decreases n
  {
    var x := frame - 1;
    if n == 0 {
      DivUnique(x, frameCount, 0, x);
    } else {
      var next := NextFrame(frame, 1, frameCount, AnimModeNone);
      assert next - 1 == (x + 1) % frameCount by {
        if x + 1 < frameCount {
          DivUnique(x + 1, frameCount, 0, x + 1);
        } else {
          DivUnique(x + 1, frameCount, 1, 0);
        }
      }
      ForwardFramesCycle(next, frameCount, n - 1);
      var later := AdvanceFrames(next, 1, frameCount, n - 1);
      assert AdvanceFrames(frame, 1, frameCount, n) == later;
      assert later - 1 == ((x + 1) % frameCount + (n - 1)) % frameCount;
      ModShift(x, 1, n, frameCount);
    }
  }

  /** Backward animation runs through the frames in reverse and wraps round to the last. */
  lemma {:induction false} BackwardFramesCycle(frame: int, frameCount: int, n: nat)
    requires 1 <= frame <= frameCount
    ensures AdvanceFrames(frame, -1, frameCount, n) == 1 + (frame - 1 - n) % frameCount
    decreases n
  {
    var x := frame - 1;
    if n == 0 {
      DivUnique(x, frameCount, 0, x);
    } else {
      var next := NextFrame(frame, -1, frameCount, AnimModeNone);
      assert next - 1 == (x - 1) % frameCount by {
        if x - 1 >= 0 {
          DivUnique(x - 1, frameCount, 0, x - 1);
        } else {
          DivUnique(x - 1, frameCount, -1, frameCount - 1);
        }
      }
      BackwardFramesCycle(next, frameCount, n - 1);
      var later := AdvanceFrames(next, -1, frameCount, n - 1);
      assert AdvanceFrames(frame, -1, frameCount, n) == later;
      assert later - 1 == ((x - 1) % frameCount + (0 - (n - 1))) % frameCount;
      ModShift(x, -1, 0 - n, frameCount);
    }
  }

  /**
   * `Visage::getFrame`: the position in the frame table read for frame
   * number frameNum, which is clamped to the frame count and made 0-based.
   */
  function FrameSlot(frameNum: int, numFrames: int): (slot: int)
    ensures 1 <= frameNum <= numFrames ==> slot == frameNum - 1
    ensures frameNum > numFrames >= 1 ==> slot == numFrames - 1
    ensures frameNum <= 0 && frameNum <= numFrames ==> slot == frameNum
  {
    var f := if frameNum > numFrames then numFrames else frameNum;
    if f > 0 then f - 1 else f
  }

  /** Any frame number from 0 up reads an existing slot of a non-empty table. */
  lemma FrameSlotInTable(frameNum: int, numFrames: int)
    requires frameNum >= 0 && numFrames >= 1
    ensures 0 <= FrameSlot(frameNum, numFrames) < numFrames
  {
  }

  /** The conditions `SceneObjectWrapper::dispatch` tests for a 4-frame visage, and their strips. */
  function Sectors4(angle: int): seq<bool> {
    [angle > 314 || angle < 45, 44 < angle < 135, 135 <= angle < 225, 225 <= angle < 315]
  }
  const Strips4: seq<int> := [4, 1, 3, 2]

  /** The same for an 8-frame visage. */
  function Sectors8(angle: int): seq<bool> {
    [angle > 330 || angle < 30, 30 <= angle < 70, 70 <= angle < 110, 110 <= angle < 150,
     150 <= angle < 210, 210 <= angle < 250, 250 <= angle < 290, 290 <= angle < 331]
  }
  const Strips8: seq<int> := [4, 7, 1, 5, 3, 6, 2, 8]

  /** The tests run in order and a later one that holds overrides an earlier one. */
  function ApplySectors(conds: seq<bool>, strips: seq<int>, strip: int): int
    requires |conds| == |strips|
    decreases |conds|
  {
    if conds == [] then strip
    else ApplySectors(conds[1..], strips[1..], if conds[0] then strips[0] else strip)
  }

  /** Exactly one condition holds. */
  predicate ExactlyOne(conds: seq<bool>) {
    && (exists i :: 0 <= i < |conds| && conds[i])
    && (forall i, j :: 0 <= i < j < |conds| && conds[i] ==> !conds[j])
  }

  lemma {:induction false} ApplyExactlyOne(conds: seq<bool>, strips: seq<int>, strip: int, k: nat)
    requires |conds| == |strips| && k < |conds| && conds[k]
    requires forall i :: 0 <= i < |conds| && i != k ==> !conds[i]
    ensures ApplySectors(conds, strips, strip) == strips[k]
    decreases |conds|
  {
    if k == 0 {
      ApplyNone(conds[1..], strips[1..], strips[0]);
    } else {
      ApplyExactlyOne(conds[1..], strips[1..], strip, k - 1);
    }
  }

  lemma {:induction false} ApplyNone(conds: seq<bool>, strips: seq<int>, strip: int)
    requires |conds| == |strips|
    requires forall i :: 0 <= i < |conds| ==> !conds[i]
    ensures ApplySectors(conds, strips, strip) == strip
    decreases |conds|
  {
    if conds != [] {
      ApplyNone(conds[1..], strips[1..], strip);
    }
  }

  /** The strip the wrapper chooses, before it is handed to `setStrip`. */
  function StripFor(angle: int, frameCount: int, strip: int): int {
    var s :=
      if frameCount == 4 then ApplySectors(Sectors4(angle), Strips4, strip)
      else if frameCount == 8 then ApplySectors(Sectors8(angle), Strips8, strip)
      else strip;
    if s > frameCount then frameCount else s
  }

  /**
   * Every angle falls in exactly one sector, so a 4-frame visage gets the
   * strip of that sector, one of 1..4.
   */
  lemma StripForFourFrames(angle: int, strip: int)
    ensures ExactlyOne(Sectors4(angle))
    ensures exists k :: 0 <= k < 4 && Sectors4(angle)[k] && StripFor(angle, 4, strip) == Strips4[k]
    ensures 1 <= StripFor(angle, 4, strip) <= 4
  {
    var c := Sectors4(angle);
    var k := if c[0] then 0 else if c[1] then 1 else if c[2] then 2 else 3;
    ApplyExactlyOne(c, Strips4, strip, k);
  }

  /** Likewise an 8-frame visage gets the strip of the one sector the angle is in, one of 1..8. */
  lemma StripForEightFrames(angle: int, strip: int)
    ensures ExactlyOne(Sectors8(angle))
    ensures exists k :: 0 <= k < 8 && Sectors8(angle)[k] && StripFor(angle, 8, strip) == Strips8[k]
    ensures 1 <= StripFor(angle, 8, strip) <= 8
  {
    var c := Sectors8(angle);
    var k := if c[0] then 0 else if c[1] then 1 else if c[2] then 2 else if c[3] then 3
             else if c[4] then 4 else if c[5] then 5 else if c[6] then 6 else 7;
    ApplyExactlyOne(c, Strips8, strip, k);
  }

  /** Other visages keep the current strip, capped at their frame count. */
  lemma StripForOtherVisages(angle: int, frameCount: int, strip: int)
    requires frameCount != 4 && frameCount != 8
    ensures StripFor(angle, frameCount, strip) == Min(strip, frameCount)
  {
  }

  /** The draw-order key: priority, then y position, then y offset. */
  datatype DrawKey = DrawKey(priority: int, y: int, yDiff: int)

  /** `SceneObjectLess`: x is drawn before y. */
  predicate DrawsBefore(x: DrawKey, y: DrawKey) {
    if y.priority > x.priority then true
    else if y.priority == x.priority && y.y > x.y then true
    else y.priority == x.priority && y.y == x.y && y.yDiff > x.yDiff
  }

  /** The comparator is the lexicographic order on (priority, y, yDiff). */
  lemma DrawsBeforeIsLexicographic(x: DrawKey, y: DrawKey)
    ensures DrawsBefore(x, y) <==>
      (x.priority < y.priority
       || (x.priority == y.priority && x.y < y.y)
       || (x.priority == y.priority && x.y == y.y && x.yDiff < y.yDiff))
  {
  }

  /** A strict total order on keys, as a sort needs: irreflexive, transitive, and trichotomous. */
  lemma DrawsBeforeStrictOrder(x: DrawKey, y: DrawKey, z: DrawKey)
    ensures !DrawsBefore(x, x)
    ensures DrawsBefore(x, y) && DrawsBefore(y, z) ==> DrawsBefore(x, z)
    ensures DrawsBefore(x, y) ==> !DrawsBefore(y, x)
    ensures DrawsBefore(x, y) || DrawsBefore(y, x) || x == y
  {
  }

  /**
   * `getSpliceArea`: half of the squared x distance plus the (unsquared) y
   * distance between two positions, rounded down.
   */
  function SpliceArea(p: Point, q: Point): (area: nat)
    ensures p == q ==> area == 0
    ensures area == 0 ==> Abs(p.x - q.x) <= 1 && Abs(p.y - q.y) <= 1
  {
    (Abs(p.x - q.x) * Abs(p.x - q.x) + Abs(p.y - q.y)) / 2
  }

  lemma SpliceAreaSymmetric(p: Point, q: Point)
    ensures SpliceArea(p, q) == SpliceArea(q, p)
  {
    assert Abs(p.x - q.x) == Abs(q.x - p.x) && Abs(p.y - q.y) == Abs(q.y - p.y);
  }

  /** `SceneObject`: the attributes above, as fields the setters update in place. */
  class SceneObject {
    var flags: set<ObjFlag>
    var position: Point
    var yDiff: int
    var percent: int
    var strip: int
    var frame: int
    var priority: int
    var visage: int
    var angle: int
    var frameChange: int
    var animateMode: AnimateMode
    var moveDiff: Point
    /** `_mover`: the mover moving this object, if any. */
    var mover: object?

    function State(): ObjState
      reads this
    {
      ObjState(flags, position, yDiff, percent, strip, frame, priority, visage)
    }

    /** The fields the setters never touch. */
    twostate predicate OthersUnchanged()
      reads this
    {
      && angle == old(angle) && frameChange == old(frameChange) && animateMode == old(animateMode)
      && moveDiff == old(moveDiff) && mover == old(mover)
    }

    method SetPosition(p: Point, yd: int)
      modifies this
      ensures State() == WithPosition(old(State()), p, yd) && OthersUnchanged()
    {
      position := p;
      yDiff := yd;
      flags := flags + {Panes};
    }

    /** `setZoom`; `false` when the stored percentage is negative and the source's assertion fails. */
    method SetZoom(newPercent: int) returns (ok: bool)
      modifies this
      ensures ok == (old(percent) >= 0)
      ensures ok ==> State() == WithZoom(old(State()), newPercent)
      ensures !ok ==> State() == old(State())
      ensures OthersUnchanged()
    {
      if percent < 0 {
        return false;
      }
      if newPercent != percent {
        percent := newPercent;
        flags := flags + {Panes};
      }
      return true;
    }

    method ChangeZoomTo(newPercent: int) returns (ok: bool)
      modifies this
      ensures newPercent == -1 ==> ok
      ensures ok == (newPercent == -1 || old(percent) >= 0)
      ensures ok ==> State() == ChangeZoom(old(State()), newPercent)
      ensures !ok ==> State() == old(State()).(flags := old(flags) + {Zoomed})
      ensures OthersUnchanged()
    {
      if newPercent == -1 {
        flags := flags - {Zoomed};
        return true;
      }
      flags := flags + {Zoomed};
      ok := SetZoom(newPercent);
    }

    method SetStrip(stripNum: int)
      modifies this
      ensures State() == WithStrip(old(State()), stripNum) && OthersUnchanged()
    {
      if stripNum != strip {
        strip := stripNum;
        flags := flags + {Panes};
      }
    }

    method SetStrip2(stripNum: int)
      modifies this
      ensures State() == WithStrip2(old(State()), stripNum) && OthersUnchanged()
    {
      if stripNum == -1 {
        flags := flags - {Flag8};
      } else {
        flags := flags + {Flag8};
        SetStrip(stripNum);
      }
    }

    method SetFrame(frameNum: int)
      modifies this
      ensures State() == WithFrame(old(State()), frameNum) && OthersUnchanged()
    {
      if frameNum != frame {
        frame := frameNum;
        flags := flags + {Panes};
      }
    }

    method SetFrame2(frameNum: int)
      modifies this
      ensures State() == WithFrame2(old(State()), frameNum) && OthersUnchanged()
    {
      if frameNum != -1 {
        flags := flags + {NoUpdates};
        SetFrame(frameNum);
      } else {
        flags := flags - {NoUpdates};
      }
    }

    method SetPriority(newPriority: int)
      modifies this
      ensures State() == WithPriority(old(State()), newPriority) && OthersUnchanged()
    {
      if newPriority != priority {
        priority := newPriority;
        flags := flags + {Panes};
      }
    }

    method SetPriority2(newPriority: int)
      modifies this
      ensures State() == WithPriority2(old(State()), newPriority) && OthersUnchanged()
    {
      if newPriority == -1 {
        flags := flags - {FixedPriority};
      } else {
        flags := flags + {FixedPriority};
        SetPriority(newPriority);
      }
    }

    method SetVisage(newVisage: int)
      modifies this
      ensures State() == WithVisage(old(State()), newVisage) && OthersUnchanged()
    {
      if newVisage != visage {
        visage := newVisage;
        flags := flags + {Panes};
      }
    }

    /** `getNewFrame`, given the frame count of the current visage strip. */
    function GetNewFrame(frameCount: int): (f: int)
      reads this
      ensures f == NextFrame(frame, frameChange, frameCount, animateMode)
    {
      NextFrame(frame, frameChange, frameCount, animateMode)
    }

    /** `SceneObjectWrapper::setSceneObject`: the wrapped object starts on strip 1 and is redrawn. */
    method AttachWrapper()
      modifies this
      ensures State() == old(State()).(strip := 1, flags := old(flags) + {Panes}) && OthersUnchanged()
    {
      strip := 1;
      flags := flags + {Panes};
    }

    /** `SceneObjectWrapper::dispatch`, given the frame count of the object's visage. */
    method WrapperDispatch(frameCount: int)
      modifies this
      ensures State() == WithStrip(old(State()), StripFor(old(angle), frameCount, old(strip)))
      ensures OthersUnchanged()
      ensures frameCount == 4 ==> 1 <= strip <= 4
      ensures frameCount == 8 ==> 1 <= strip <= 8
    {
      var s := strip;
      if frameCount == 4 {
        if angle > 314 || angle < 45 { s := 4; }
        if angle > 44 && angle < 135 { s := 1; }
        if angle >= 135 && angle < 225 { s := 3; }
        if angle >= 225 && angle < 315 { s := 2; }
      } else if frameCount == 8 {
        if angle > 330 || angle < 30 { s := 4; }
        if angle >= 30 && angle < 70 { s := 7; }
        if angle >= 70 && angle < 110 { s := 1; }
        if angle >= 110 && angle < 150 { s := 5; }
        if angle >= 150 && angle < 210 { s := 3; }
        if angle >= 210 && angle < 250 { s := 6; }
        if angle >= 250 && angle < 290 { s := 2; }
        if angle >= 290 && angle < 331 { s := 8; }
      }
      if s > frameCount {
        s := frameCount;
      }
      if frameCount == 4 {
        StripForFourFrames(angle, strip);
      } else if frameCount == 8 {
        StripForEightFrames(angle, strip);
      }
      assert s == StripFor(angle, frameCount, strip);
      SetStrip(s);
    }
  }

  /**
   * The delay countdown of `Action::dispatch` once the clock reads `now`:
   * the remaining delay, the new start frame, and whether the action is
   * signalled because the delay ran out.
   */
  function ActionTick(delay: int, startFrame: int, now: int): (r: (int, int, bool))
    ensures delay == 0 ==> r == (0, startFrame, false)
    ensures delay != 0 && now < startFrame ==> r == (delay, startFrame, false)
    ensures delay != 0 && now >= startFrame ==>
      r.1 == now && (r.2 <==> delay - (now - startFrame) <= 0) && r.0 == (if r.2 then 0 else delay - (now - startFrame))
  {
    if delay != 0 && now >= startFrame then
      var d := delay - (now - startFrame);
      if d <= 0 then (0, now, true) else (d, now, false)
    else (delay, startFrame, false)
  }

  /** Dispatching at each of the clock readings in turn; the number of signals raised. */
  function TickAll(delay: int, startFrame: int, times: seq<int>): (r: (int, int, nat))
    decreases |times|
  {
    if times == [] then (delay, startFrame, 0)
    else
      var (d, s, signalled) := ActionTick(delay, startFrame, times[0]);
      var (d2, s2, n) := TickAll(d, s, times[1..]);
      (d2, s2, n + (if signalled then 1 else 0))
  }

  /**
   * After `setDelay(numFrames)` at time t, dispatching with a clock that
   * does not run backwards signals the action exactly once, at the first
   * reading at least numFrames after t; until then the delay still left is
   * numFrames minus the time elapsed.
   */
  lemma {:induction false} DelayElapses(delay: int, startFrame: int, times: seq<int>)
    requires delay > 0
    requires forall i, j :: 0 <= i < j < |times| ==> times[i] <= times[j]
    requires forall i :: 0 <= i < |times| ==> times[i] >= startFrame
    ensures var (d, s, n) := TickAll(delay, startFrame, times);
      && (|times| > 0 && times[|times| - 1] - startFrame >= delay ==> n == 1 && d == 0)
      && (|times| == 0 || times[|times| - 1] - startFrame < delay ==>
            n == 0 && d == delay - (s - startFrame) && (|times| > 0 ==> s == times[|times| - 1]))
    decreases |times|
  {
    if times != [] {
      var (d, s, signalled) := ActionTick(delay, startFrame, times[0]);
      if signalled {
        TickIdle(times[1..], s);
      } else {
        DelayElapses(d, s, times[1..]);
      }
    }
  }

  /** Once the delay is zero, dispatching changes nothing and signals nothing. */
  lemma {:induction false} TickIdle(times: seq<int>, startFrame: int)
    ensures TickAll(0, startFrame, times) == (0, startFrame, 0)
    decreases |times|
  {
    if times != [] {
      TickIdle(times[1..], startFrame);
    }
  }

  /** `Action`: a countdown of frames before the action is signalled. */
  class Action {
    var delayFrames: int
    var startFrame: int

    /** `setDelay`: wait numFrames frames from now. */
    method SetDelay(numFrames: int, now: int)
      modifies this
      ensures delayFrames == numFrames && startFrame == now
    {
      delayFrames := numFrames;
      startFrame := now;
    }

    /** The countdown part of `dispatch`; `signalled` tells whether `signal` is called. */
    method Dispatch(now: int) returns (signalled: bool)
      modifies this
      ensures (delayFrames, startFrame, signalled) == ActionTick(old(delayFrames), old(startFrame), now)
    {
      signalled := false;
      if delayFrames != 0 {
        if now >= startFrame {
          delayFrames := delayFrames - (now - startFrame);
          startFrame := now;
          if delayFrames <= 0 {
            delayFrames := 0;
            signalled := true;
          }
        }
      }
    }
  }
}
