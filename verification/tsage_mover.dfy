/**
 * The line-stepping object mover of the tsage engine: `setup` measures the
 * move and picks the major axis, each `dispatch` spends part of the
 * major-axis budget and spreads the minor axis over the remaining steps,
 * and the move ends on the destination once the budget is spent. Also the
 * player mover's perpendicular line walk `findLinePoint`.
 */
module Movers {
  import opened CMath
  import opened Regions
  import opened SceneObjects

  /** What `setup` fixes for the whole move. */
  datatype MoveParams = MoveParams(dest: Point, moveDelta: Point, moveSign: Point)

  /** What each `dispatch` changes: the object's position, the budget, the carry, and whether the move ended. */
  datatype Progress = Progress(pos: Point, majorDiff: int, field1A: int, ended: bool)

  /** The major axis is x unless y is strictly longer. */
  predicate XMajor(m: MoveParams) {
    m.moveDelta.x >= m.moveDelta.y
  }

  /** What `setup` leaves and `dispatch` keeps: signs match the deltas and the budget never exceeds the major delta. */
  predicate Consistent(p: Progress, m: MoveParams) {
    && -1 <= m.moveSign.x <= 1 && -1 <= m.moveSign.y <= 1
    && m.moveDelta.x >= 0 && m.moveDelta.y >= 0
    && (m.moveDelta.x == 0 <==> m.moveSign.x == 0)
    && (m.moveDelta.y == 0 <==> m.moveSign.y == 0)
    && p.majorDiff <= Max(m.moveDelta.x, m.moveDelta.y)
    && p.field1A >= 0
  }

  /** The move `setup` plans from pos to dest. */
  function SetupParams(pos: Point, dest: Point): (m: MoveParams)
    ensures m.dest == dest
    ensures m.moveDelta == Point(Abs(dest.x - pos.x), Abs(dest.y - pos.y))
    ensures m.moveSign.x * m.moveDelta.x == dest.x - pos.x && m.moveSign.y * m.moveDelta.y == dest.y - pos.y
  {
    MoveParams(dest, Point(Abs(dest.x - pos.x), Abs(dest.y - pos.y)), Point(Sign(dest.x - pos.x), Sign(dest.y - pos.y)))
  }

  /** The budget: the longer delta, x on a tie. */
  function MajorOf(m: MoveParams): (d: int)
    ensures d == Max(m.moveDelta.x, m.moveDelta.y)
  {
    if m.moveDelta.x < m.moveDelta.y then m.moveDelta.y else m.moveDelta.x
  }

  /** Half the shorter delta. */
  function MinorOf(m: MoveParams): int {
    if m.moveDelta.x < m.moveDelta.y then m.moveDelta.x / 2 else m.moveDelta.y / 2
  }

  lemma SetupConsistent(pos: Point, dest: Point)
    ensures var m := SetupParams(pos, dest);
      && Consistent(Progress(pos, MajorOf(m), 0, pos == dest), m)
      && (MajorOf(m) == 0 <==> pos == dest)
  {
  }

  /**
   * The major-axis step: the object's step size scaled by its zoom
   * percentage with C++ truncation, and never less than one pixel.
   */
  function AxisAmount(sign: int, moveDiff: int, percent: int): (a: int)
    ensures sign != 0 ==> a != 0
    ensures sign == 0 ==> a == 0
  {
    var amount := CDiv(sign * moveDiff * percent, 100);
    if amount == 0 then sign else amount
  }

  /** With a non-negative step size and zoom, the step goes the way of the sign. */
  lemma AxisAmountSign(sign: int, moveDiff: int, percent: int)
    requires sign == -1 || sign == 1
    requires moveDiff >= 0 && percent >= 0
    ensures Sign(AxisAmount(sign, moveDiff, percent)) == sign
  {
    var mag := moveDiff * percent;
    assert mag >= 0;
    assert sign * moveDiff * percent == sign * mag;
    var amount := CDiv(sign * mag, 100);
    if amount != 0 {
      if sign == 1 {
        assert sign * mag >= 0;
      } else {
        assert sign * mag <= 0;
      }
    }
  }

  /**
   * The minor-axis step: the distance still to go on the minor axis spread
   * over the steps left (`change` of them), with the remainders carried in
   * `carry` until they make up a whole step.
   */
  function MinorStep(sign: int, remaining: int, change: int, carry: int): (r: (int, int))
    ensures carry >= 0 ==> r.1 >= 0
    ensures change > 0 && 0 <= carry < change ==> 0 <= r.1 < change
  {
    if change == 0 then (sign, carry)
    else
      var v := remaining / change;
      var c := carry + remaining % change;
      if c >= change then (sign * (v + 1), c - change) else (sign * v, c)
  }

  /** What `dontMove` tests: the budget is spent. */
  predicate Spent(p: Progress) {
    p.majorDiff <= 0
  }

  /** One `dispatch`. */
  function Advance(p: Progress, m: MoveParams, moveDiff: Point, percent: int): (r: Progress)
    requires Consistent(p, m)
  {
    if Spent(p) then p
    else if XMajor(m) then
      var xAmount := AxisAmount(m.moveSign.x, moveDiff.x, percent);
      var x := p.pos.x + xAmount;
      var (ySign, carry) := MinorStep(m.moveSign.y, Abs(m.dest.y - p.pos.y), p.majorDiff / Abs(xAmount), p.field1A);
      var majorDiff := p.majorDiff - Abs(xAmount);
      if majorDiff <= 0 then Progress(m.dest, majorDiff, carry, true)
      else Progress(Point(x, p.pos.y + ySign), majorDiff, carry, false)
    else
      var yAmount := AxisAmount(m.moveSign.y, moveDiff.y, percent);
      var y := p.pos.y + yAmount;
      var (xSign, carry) := MinorStep(m.moveSign.x, Abs(m.dest.x - p.pos.x), p.majorDiff / Abs(yAmount), p.field1A);
      var majorDiff := p.majorDiff - Abs(yAmount);
      if majorDiff <= 0 then Progress(m.dest, majorDiff, carry, true)
      else Progress(Point(p.pos.x + xSign, y), majorDiff, carry, false)
  }

  /**
   * A dispatch with budget left spends at least one unit of it, keeps the
   * move consistent, steps the major axis toward the destination, and
   * ends the move exactly when the budget is spent, on the destination.
   */
  lemma DispatchProgress(p: Progress, m: MoveParams, moveDiff: Point, percent: int)
    requires Consistent(p, m) && p.majorDiff > 0
    requires moveDiff.x >= 0 && moveDiff.y >= 0 && percent >= 0
    ensures var r := Advance(p, m, moveDiff, percent);
      && r.majorDiff < p.majorDiff
      && Consistent(r, m)
      && (r.ended <==> Spent(r))
      && (r.ended ==> r.pos == m.dest)
      && (!r.ended && XMajor(m) ==> Sign(r.pos.x - p.pos.x) == m.moveSign.x)
      && (!r.ended && !XMajor(m) ==> Sign(r.pos.y - p.pos.y) == m.moveSign.y)
  {
    if XMajor(m) {
      DispatchX(p, m, moveDiff, percent);
    } else {
      DispatchY(p, m, moveDiff, percent);
    }
  }

  lemma DispatchX(p: Progress, m: MoveParams, moveDiff: Point, percent: int)
    requires Consistent(p, m) && p.majorDiff > 0 && XMajor(m)
    requires moveDiff.x >= 0 && percent >= 0
    ensures var r := Advance(p, m, moveDiff, percent);
      && r.majorDiff < p.majorDiff
      && Consistent(r, m)
      && (r.ended <==> r.majorDiff <= 0)
      && (r.ended ==> r.pos == m.dest)
      && (!r.ended ==> Sign(r.pos.x - p.pos.x) == m.moveSign.x)
  {
    assert m.moveDelta.x > 0;
    var xAmount := AxisAmount(m.moveSign.x, moveDiff.x, percent);
    AxisAmountSign(m.moveSign.x, moveDiff.x, percent);
    var change := p.majorDiff / Abs(xAmount);
    var step := MinorStep(m.moveSign.y, Abs(m.dest.y - p.pos.y), change, p.field1A);
    var majorDiff := p.majorDiff - Abs(xAmount);
    assert Advance(p, m, moveDiff, percent) ==
      if majorDiff <= 0 then Progress(m.dest, majorDiff, step.1, true)
      else Progress(Point(p.pos.x + xAmount, p.pos.y + step.0), majorDiff, step.1, false);
  }

  lemma DispatchY(p: Progress, m: MoveParams, moveDiff: Point, percent: int)
    requires Consistent(p, m) && p.majorDiff > 0 && !XMajor(m)
    requires moveDiff.y >= 0 && percent >= 0
    ensures var r := Advance(p, m, moveDiff, percent);
      && r.majorDiff < p.majorDiff
      && Consistent(r, m)
      && (r.ended <==> r.majorDiff <= 0)
      && (r.ended ==> r.pos == m.dest)
      && (!r.ended ==> Sign(r.pos.y - p.pos.y) == m.moveSign.y)
  {
    assert m.moveDelta.y > 0;
    var yAmount := AxisAmount(m.moveSign.y, moveDiff.y, percent);
    AxisAmountSign(m.moveSign.y, moveDiff.y, percent);
    var change := p.majorDiff / Abs(yAmount);
    var step := MinorStep(m.moveSign.x, Abs(m.dest.x - p.pos.x), change, p.field1A);
    var majorDiff := p.majorDiff - Abs(yAmount);
    assert Advance(p, m, moveDiff, percent) ==
      if majorDiff <= 0 then Progress(m.dest, majorDiff, step.1, true)
      else Progress(Point(p.pos.x + step.0, p.pos.y + yAmount), majorDiff, step.1, false);
  }

  /** Dispatching up to n times, stopping once the move has ended. */
  function Run(p: Progress, m: MoveParams, moveDiff: Point, percent: int, n: nat): (r: Progress)
    requires Consistent(p, m)
    requires moveDiff.x >= 0 && moveDiff.y >= 0 && percent >= 0
    decreases n
  {
    if n == 0 || p.ended || p.majorDiff <= 0 then p
    else
      DispatchProgress(p, m, moveDiff, percent);
      Run(Advance(p, m, moveDiff, percent), m, moveDiff, percent, n - 1)
  }

  /**
   * `dontMove` eventually holds: a move with budget B ends within B
   * dispatches, and it ends on the destination.
   */
  lemma {:induction false} MoveEnds(p: Progress, m: MoveParams, moveDiff: Point, percent: int, n: nat)
    requires Consistent(p, m) && !p.ended && p.majorDiff > 0
    requires moveDiff.x >= 0 && moveDiff.y >= 0 && percent >= 0
    requires n >= p.majorDiff
    ensures Run(p, m, moveDiff, percent, n).ended && Spent(Run(p, m, moveDiff, percent, n))
    ensures Run(p, m, moveDiff, percent, n).pos == m.dest
    decreases n
  {
    var next := Advance(p, m, moveDiff, percent);
    DispatchProgress(p, m, moveDiff, percent);
    assert Run(p, m, moveDiff, percent, n) == Run(next, m, moveDiff, percent, n - 1);
    if !next.ended {
      MoveEnds(next, m, moveDiff, percent, n - 1);
    }
  }

  /** `ObjectMover`: moves one scene object toward a destination. */
  class ObjectMover {
    const obj: SceneObject
    var destPosition: Point
    var moveDelta: Point
    var moveSign: Point
    var minorDiff: int
    var majorDiff: int
    var field1A: int
    var ended: bool
    /** Whether an action waits for the end of the move (`_action` set). */
    const hasAction: bool

    constructor (so: SceneObject, withAction: bool)
      ensures obj == so && hasAction == withAction && !ended && majorDiff == 0 && field1A == 0
    {
      obj := so;
      hasAction := withAction;
      ended := false;
      majorDiff := 0;
      field1A := 0;
    }

    function Params(): MoveParams
      reads this
    {
      MoveParams(destPosition, moveDelta, moveSign)
    }

    function Current(): Progress
      reads this, obj
    {
      Progress(obj.position, majorDiff, field1A, ended)
    }

    /** `dontMove`: the budget is spent, so a further dispatch changes nothing. */
    predicate DontMove(): (b: bool)
      reads this, obj
      ensures b <==> Spent(Current())
      ensures b && Consistent(Current(), Params()) ==>
        forall moveDiff, percent :: Advance(Current(), Params(), moveDiff, percent) == Current()
    {
      majorDiff <= 0
    }

    /**
     * `setup`, given the angle the graphics manager computes toward the
     * destination (-1 for none) and, when the object has a wrapper, the
     * frame count of its visage: turns the object, lets the wrapper pick
     * the strip unless the strip is pinned, and plans the move; a move to
     * where the object already is ends at once, through `endMove`.
     */
    method Setup(destPos: Point, newAngle: int, hasWrapper: bool, frameCount: int) returns (signalled: bool)
      modifies this, obj
      ensures Params() == SetupParams(old(obj.position), destPos)
      ensures majorDiff == MajorOf(Params()) && minorDiff == MinorOf(Params()) && field1A == 0
      ensures ended == (old(obj.position) == destPos)
      ensures Consistent(Current(), Params())
      ensures obj.angle == (if newAngle != -1 then newAngle else old(obj.angle))
      ensures obj.position == old(obj.position)
      ensures signalled == (ended && hasAction)
      ensures obj.mover == if ended && old(obj.mover) == this then null else old(obj.mover)
    {
      if newAngle != -1 {
        obj.angle := newAngle;
      }
      if hasWrapper && Flag8 !in obj.flags {
        obj.WrapperDispatch(frameCount);
        assert obj.State().position == old(obj.position);
      }
      StartMove(destPos);
      signalled := false;
      if ended {
        signalled := EndMove();
      }
    }

    /**
     * `endMove`: the object stops naming this mover as its mover, and the
     * waiting action, if any, is signalled.
     */
    method EndMove() returns (signalled: bool)
      modifies obj
      ensures obj.mover == if old(obj.mover) == this then null else old(obj.mover)
      ensures signalled == hasAction
      ensures obj.State() == old(obj.State()) && obj.angle == old(obj.angle)
      ensures obj.moveDiff == old(obj.moveDiff) && obj.percent == old(obj.percent) && obj.yDiff == old(obj.yDiff)
    {
      if obj.mover == this {
        obj.mover := null;
      }
      signalled := hasAction;
    }

    /** The second half of `setup`: the move parameters from the object's position to `destPos`. */
    method StartMove(destPos: Point)
      modifies this
      ensures Params() == SetupParams(obj.position, destPos)
      ensures majorDiff == MajorOf(Params()) && minorDiff == MinorOf(Params()) && field1A == 0
      ensures ended == (obj.position == destPos)
      ensures Consistent(Current(), Params())
    {
      var diffX := destPos.x - obj.position.x;
      var diffY := destPos.y - obj.position.y;
      var xSign := Sign(diffX);
      var ySign := Sign(diffY);
      diffX := Abs(diffX);
      diffY := Abs(diffY);
      if diffX < diffY {
        minorDiff := diffX / 2;
        majorDiff := diffY;
      } else {
        minorDiff := diffY / 2;
        majorDiff := diffX;
      }
      destPosition := destPos;
      moveDelta := Point(diffX, diffY);
      moveSign := Point(xSign, ySign);
      field1A := 0;
      ended := diffX == 0 && diffY == 0;
      assert Params() == SetupParams(obj.position, destPos);
      SetupConsistent(obj.position, destPos);
    }

    /**
     * `dispatch`: one step of the move; the object is repositioned (and so
     * redrawn) unless the budget was already spent, and the step that spends
     * it ends the move on the destination through `endMove`.
     */
    method Dispatch() returns (signalled: bool)
      requires Consistent(Current(), Params()) && !ended
      modifies this, obj
      ensures Params() == old(Params()) && minorDiff == old(minorDiff)
      ensures Current() == Advance(old(Current()), Params(), old(obj.moveDiff), old(obj.percent))
      ensures !old(DontMove()) ==> obj.flags == old(obj.flags) + {Panes}
      ensures old(DontMove()) ==> obj.flags == old(obj.flags) && Current() == old(Current())
      ensures !old(DontMove()) && obj.moveDiff.x >= 0 && obj.moveDiff.y >= 0 && obj.percent >= 0 ==>
        (ended <==> DontMove()) && (ended ==> obj.position == destPosition)
      ensures obj.yDiff == old(obj.yDiff) && obj.percent == old(obj.percent) && obj.moveDiff == old(obj.moveDiff)
      ensures signalled == (ended && hasAction)
      ensures obj.mover == if ended && old(obj.mover) == this then null else old(obj.mover)
    {
      signalled := false;
      var currPos := obj.position;
      var yDiff := obj.yDiff;
      if majorDiff <= 0 {
        return;
      }
      if moveDelta.x >= moveDelta.y {
        var xAmount := AxisAmount(moveSign.x, obj.moveDiff.x, obj.percent);
        currPos := currPos.(x := currPos.x + xAmount);
        var (ySign, carry) := MinorStep(moveSign.y, Abs(destPosition.y - currPos.y), majorDiff / Abs(xAmount), field1A);
        field1A := carry;
        currPos := currPos.(y := currPos.y + ySign);
        majorDiff := majorDiff - Abs(xAmount);
      } else {
        var yAmount := AxisAmount(moveSign.y, obj.moveDiff.y, obj.percent);
        currPos := currPos.(y := currPos.y + yAmount);
        var (xSign, carry) := MinorStep(moveSign.x, Abs(destPosition.x - currPos.x), majorDiff / Abs(yAmount), field1A);
        field1A := carry;
        currPos := currPos.(x := currPos.x + xSign);
        majorDiff := majorDiff - Abs(yAmount);
      }
      obj.SetPosition(currPos, yDiff);
      if majorDiff <= 0 {
        obj.position := destPosition;
        ended := true;
        signalled := EndMove();
      }
    }
  }

  /**
   * The Bresenham walk `findLinePoint` makes: after n steps along the
   * major axis, the number of minor-axis steps taken and the error term.
   */
  function Walk(majorLen: int, minorLen: int, start: int, n: nat): (r: (nat, int))
    decreases n
  {
    if n == 0 then (0, start)
    else
      var w := Walk(majorLen, minorLen, start, n - 1);
      if w.1 + minorLen > majorLen then (w.0 + 1, w.1 + minorLen - majorLen) else (w.0, w.1 + minorLen)
  }

  /**
   * The walk stays within one step of the ideal line: after n major steps
   * it has taken k minor steps with k * major <= start + n * minor <= (k + 1) * major.
   */
  lemma {:induction false} WalkTracksLine(majorLen: int, minorLen: int, start: int, n: nat)
    requires 0 <= minorLen <= majorLen && 0 <= start <= majorLen
    ensures var (k, err) := Walk(majorLen, minorLen, start, n);
      && 0 <= err <= majorLen
      && k * majorLen + err == start + n * minorLen
      && k <= n
    decreases n
  {
    if n > 0 {
      WalkTracksLine(majorLen, minorLen, start, n - 1);
      var (k, err) := Walk(majorLen, minorLen, start, n - 1);
      assert (k + 1) * majorLen == k * majorLen + majorLen;
      assert n * minorLen == (n - 1) * minorLen + minorLen;
    }
  }

  /** One more step of the same length. */
  lemma MulNext(a: int, d: int)
    ensures (a + 1) * d == a * d + d
  {
  }

  /** The endpoint `findLinePoint` reaches after `steps` steps from objPos. */
  function LinePoint(objPos: Point, xDirection: int, yDirection: int, xDiff: int, yDiff: int, steps: nat): Point {
    if xDiff < yDiff then
      var (k, _) := Walk(yDiff, xDiff, Max(xDiff, yDiff) / 2, steps);
      Point(objPos.x + k * xDirection, objPos.y + steps * yDirection)
    else
      var (k, _) := Walk(xDiff, yDiff, Max(xDiff, yDiff) / 2, steps);
      Point(objPos.x + steps * xDirection, objPos.y + k * yDirection)
  }

  /**
   * `PlayerMover::findLinePoint`: from objPos, walks `length` pixels along
   * the line toward the point offset by the route's direction turned a
   * quarter turn (scaled 9/8 and 8/9), taking the opposite direction on
   * each axis.
   */
  method FindLinePoint(moveSrc: Point, moveDest: Point, objPos: Point, length: int) returns (outPos: Point)
    ensures var xp := objPos.x + CDiv((moveDest.y - moveSrc.y) * 9, 8);
      var yp := objPos.y - CDiv((moveDest.x - moveSrc.x) * 8, 9);
      outPos == LinePoint(objPos, -Sign(xp - objPos.x), -Sign(yp - objPos.y),
                          Abs(xp - objPos.x), Abs(yp - objPos.y), if length > 0 then length else 0)
  {
    var xp := objPos.x + CDiv((moveDest.y - moveSrc.y) * 9, 8);
    var yp := objPos.y - CDiv((moveDest.x - moveSrc.x) * 8, 9);
    var xDiff := xp - objPos.x;
    var yDiff := yp - objPos.y;
    var xDirection := if xDiff == 0 then 0 else if xDiff < 0 then 1 else -1;
    var yDirection := if yDiff == 0 then 0 else if yDiff < 0 then 1 else -1;
    xDiff := Abs(xDiff);
    yDiff := Abs(yDiff);
    outPos := WalkLine(objPos, xDirection, yDirection, xDiff, yDiff, length);
  }

  /** The loop of `findLinePoint`: `length` steps of the walk from objPos. */
  method WalkLine(objPos: Point, xDirection: int, yDirection: int, xDiff: nat, yDiff: nat, length: int)
    returns (outPos: Point)
    ensures outPos == LinePoint(objPos, xDirection, yDirection, xDiff, yDiff, if length > 0 then length else 0)
  {
    var majorChange := Max(xDiff, yDiff) / 2;
    var outX := objPos.x;
    var outY := objPos.y;
    var count := length;
    ghost var majorLen, minorLen := if xDiff < yDiff then yDiff else xDiff, if xDiff < yDiff then xDiff else yDiff;
    ghost var h := Max(xDiff, yDiff) / 2;
    ghost var steps: nat := 0;
    while count > 0
      invariant steps == (if length > 0 then length - count else 0)
      invariant count <= 0 ==> steps == (if length > 0 then length else 0)
      invariant majorChange == Walk(majorLen, minorLen, h, steps).1
      invariant Point(outX, outY) == LinePoint(objPos, xDirection, yDirection, xDiff, yDiff, steps)
    {
      LinePointNext(objPos, xDirection, yDirection, xDiff, yDiff, steps);
      if xDiff < yDiff {
        outY := outY + yDirection;
        majorChange := majorChange + xDiff;
        if majorChange > yDiff {
          majorChange := majorChange - yDiff;
          outX := outX + xDirection;
        }
      } else {
        outX := outX + xDirection;
        majorChange := majorChange + yDiff;
        if majorChange > xDiff {
          majorChange := majorChange - xDiff;
          outY := outY + yDirection;
        }
      }
      count := count - 1;
      steps := steps + 1;
    }
    outPos := Point(outX, outY);
  }

  /** One more step of the walk moves the point one pixel on the major axis and maybe one on the minor. */
  lemma LinePointNext(objPos: Point, xDirection: int, yDirection: int, xDiff: int, yDiff: int, steps: nat)
    ensures var p := LinePoint(objPos, xDirection, yDirection, xDiff, yDiff, steps);
      var q := LinePoint(objPos, xDirection, yDirection, xDiff, yDiff, steps + 1);
      var h := Max(xDiff, yDiff) / 2;
      && (xDiff < yDiff ==>
            var e := Walk(yDiff, xDiff, h, steps).1;
            q == Point(p.x + (if e + xDiff > yDiff then xDirection else 0), p.y + yDirection))
      && (!(xDiff < yDiff) ==>
            var e := Walk(xDiff, yDiff, h, steps).1;
            q == Point(p.x + xDirection, p.y + (if e + yDiff > xDiff then yDirection else 0)))
  {
    var h := Max(xDiff, yDiff) / 2;
    var k := if xDiff < yDiff then Walk(yDiff, xDiff, h, steps).0 else Walk(xDiff, yDiff, h, steps).0;
    MulNext(steps, xDirection);
    MulNext(steps, yDirection);
    MulNext(k, xDirection);
    MulNext(k, yDirection);
  }

  /**
   * The point `findLinePoint` returns lies `length` pixels along the major
   * axis of the walk and within one pixel of the ideal line on the other.
   */
  lemma LinePointNearLine(objPos: Point, xDirection: int, yDirection: int, xDiff: int, yDiff: int, steps: nat)
    requires xDiff >= 0 && yDiff >= 0
    ensures var p := LinePoint(objPos, xDirection, yDirection, xDiff, yDiff, steps);
      var h := Max(xDiff, yDiff) / 2;
      && (xDiff < yDiff ==>
            p.y == objPos.y + steps * yDirection
            && exists k: nat :: k <= steps && p.x == objPos.x + k * xDirection
                 && k * yDiff <= h + steps * xDiff <= (k + 1) * yDiff)
      && (!(xDiff < yDiff) ==>
            p.x == objPos.x + steps * xDirection
            && exists k: nat :: k <= steps && p.y == objPos.y + k * yDirection
                 && k * xDiff <= h + steps * yDiff <= (k + 1) * xDiff)
  {
    var h := Max(xDiff, yDiff) / 2;
    if xDiff < yDiff {
      WalkTracksLine(yDiff, xDiff, h, steps);
      var (k, err) := Walk(yDiff, xDiff, h, steps);
      assert (k + 1) * yDiff == k * yDiff + yDiff;
    } else {
      WalkTracksLine(xDiff, yDiff, h, steps);
      var (k, err) := Walk(xDiff, yDiff, h, steps);
      assert (k + 1) * xDiff == k * xDiff + xDiff;
    }
  }
}
