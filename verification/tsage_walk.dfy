/**
 * The scan-line edge list a walk region is decoded through.  Each polygon
 * edge that is not horizontal becomes a record that starts at the edge's
 * upper end and is advanced one row at a time by a Bresenham-style step;
 * the list is kept ordered by insertion.
 */
module WalkEdges {
  import opened CMath
  import opened Regions

  /** One edge: position, extents, Bresenham error term, x direction and rows left. */
  datatype RegionSupportRec = RegionSupportRec(
    yp: int, xp: int, xDiff: int, yDiff: int, halfDiff: int, xDirection: int, yDiff2: int)

  /** The record process2 builds for the edge from (x1, y1) to (x2, y2). */
  function NewEdge(x1: int, y1: int, x2: int, y2: int): (r: RegionSupportRec)
    ensures r.yp == Min(y1, y2) && r.yDiff == Abs(y2 - y1) && r.xDiff == Abs(x2 - x1)
    ensures r.yDiff2 == r.yDiff
    // the record starts at the upper end and steps toward the lower end
    ensures y1 >= y2 ==> r.xp == x2 && r.xp + r.xDirection * r.xDiff == x1
    ensures y1 < y2 ==> r.xp == x1 && r.xp + r.xDirection * r.xDiff == x2
    ensures ErrorBounded(r)
  {
    var xDiff := Abs(x2 - x1);
    var yDiff := Abs(y2 - y1);
    var xTemp := if y1 >= y2 then x1 - x2 else x2 - x1;
    RegionSupportRec(
      Min(y1, y2),
      if y1 >= y2 then x2 else x1,
      xDiff, yDiff,
      Max(xDiff, yDiff) / 2,
      if xTemp == 0 then 0 else if xTemp < 0 then -1 else 1,
      yDiff)
  }

  // ---------------------------------------------------------------------
  // RegionSupportRec::process

  /** The error term stays between 0 and the larger extent. */
  predicate ErrorBounded(r: RegionSupportRec) {
    0 <= r.halfDiff <= Max(r.xDiff, r.yDiff)
  }

  /**
   * How many pixels one row step moves x: for a steep edge one pixel when the
   * error overflows, for a shallow edge the least n >= 1 with
   * halfDiff + n * yDiff > xDiff.
   */
  function XSteps(r: RegionSupportRec): nat
    requires r.yDiff > 0
  {
    if r.xDiff < r.yDiff then (if r.halfDiff + r.xDiff > r.yDiff then 1 else 0)
    else if r.halfDiff > r.xDiff then 1
    else (r.xDiff - r.halfDiff) / r.yDiff + 1
  }

  /** The record one row further down. */
  function Step(r: RegionSupportRec): (s: RegionSupportRec)
    requires r.yDiff > 0
    ensures s.yp == r.yp && s.xDiff == r.xDiff && s.yDiff == r.yDiff && s.xDirection == r.xDirection
    ensures s.xp == r.xp + r.xDirection * XSteps(r) && s.yDiff2 == r.yDiff2 - 1
  {
    var n := XSteps(r);
    r.(xp := r.xp + r.xDirection * n,
       halfDiff := if r.xDiff < r.yDiff then r.halfDiff + r.xDiff - n * r.yDiff
                   else r.halfDiff + n * r.yDiff - r.xDiff,
       yDiff2 := r.yDiff2 - 1)
  }

  /**
   * One row step.  The inner loop of a shallow edge only ends because yDiff
   * is positive, which holds for every edge the loader keeps.
   */
  method Process(r: RegionSupportRec) returns (s: RegionSupportRec)
    requires r.yDiff > 0
    ensures s == Step(r)
  {
    s := r;
    if s.xDiff < s.yDiff {
      s := s.(halfDiff := s.halfDiff + s.xDiff);
      if s.halfDiff > s.yDiff {
        s := s.(halfDiff := s.halfDiff - s.yDiff, xp := s.xp + s.xDirection);
      }
    } else {
      ghost var n: nat := 1;
      s := s.(xp := s.xp + s.xDirection, halfDiff := s.halfDiff + s.yDiff);
      while s.halfDiff <= s.xDiff
        invariant n >= 1
        invariant s == r.(xp := r.xp + r.xDirection * n, halfDiff := r.halfDiff + n * r.yDiff)
        invariant n >= 2 ==> r.halfDiff + (n - 1) * r.yDiff <= r.xDiff
        decreases r.xDiff - s.halfDiff
      {
        s := s.(xp := s.xp + s.xDirection, halfDiff := s.halfDiff + s.yDiff);
        n := n + 1;
      }
      ShallowSteps(r, n);
      s := s.(halfDiff := s.halfDiff - s.xDiff);
    }
    s := s.(yDiff2 := s.yDiff2 - 1);
  }

  /** The do-while count is the closed form of XSteps. */
  lemma ShallowSteps(r: RegionSupportRec, n: nat)
    requires r.yDiff > 0 && r.xDiff >= r.yDiff && n >= 1
    requires r.halfDiff + n * r.yDiff > r.xDiff
    requires n >= 2 ==> r.halfDiff + (n - 1) * r.yDiff <= r.xDiff
    requires n == 1 || r.halfDiff <= r.xDiff
    ensures XSteps(r) == n
  {
    if r.halfDiff <= r.xDiff {
      var rem := r.xDiff - r.halfDiff - (n - 1) * r.yDiff;
      assert r.xDiff - r.halfDiff == (n - 1) * r.yDiff + rem;
      assert (n - 1) * r.yDiff + r.yDiff == n * r.yDiff;
      DivUnique(r.xDiff - r.halfDiff, r.yDiff, n - 1, rem);
    }
  }

  /** A row step keeps the Bresenham error in range. */
  lemma StepKeepsErrorBounded(r: RegionSupportRec)
    requires r.yDiff > 0 && r.xDiff >= 0 && ErrorBounded(r)
    ensures ErrorBounded(Step(r))
  {
    if r.xDiff >= r.yDiff && r.halfDiff <= r.xDiff {
      var q := (r.xDiff - r.halfDiff) / r.yDiff;
      DivBounds(r.xDiff - r.halfDiff, r.yDiff);
      assert (q + 1) * r.yDiff == q * r.yDiff + r.yDiff;
    }
  }

  /** The record t rows further down. */
  function Advance(r: RegionSupportRec, t: nat): (a: RegionSupportRec)
    requires r.yDiff > 0
    ensures a.xDiff == r.xDiff && a.yDiff == r.yDiff && a.xDirection == r.xDirection
    ensures a.yDiff2 == r.yDiff2 - t
  {
    if t == 0 then r else Step(Advance(r, t - 1))
  }

  /**
   * After t rows the edge has moved m pixels along x, and m * yDiff differs
   * from t * xDiff only by the change of the bounded error term: the traced
   * x stays on the ideal line rounded to whole pixels.
   */
  lemma {:induction false} AdvanceTracksLine(r: RegionSupportRec, t: nat) returns (m: nat)
    requires r.yDiff > 0 && r.xDiff >= 0 && ErrorBounded(r)
    ensures ErrorBounded(Advance(r, t))
    ensures Advance(r, t).xp == r.xp + r.xDirection * m
    ensures r.xDiff < r.yDiff ==> m * r.yDiff + Advance(r, t).halfDiff == r.halfDiff + t * r.xDiff
    ensures r.xDiff >= r.yDiff ==> Advance(r, t).halfDiff + t * r.xDiff == r.halfDiff + m * r.yDiff
  {
    if t == 0 {
      m := 0;
    } else {
      var m' := AdvanceTracksLine(r, t - 1);
      var a := Advance(r, t - 1);
      StepKeepsErrorBounded(a);
      var n := XSteps(a);
      m := m' + n;
      MulAdd(m', n, r.yDiff);
      MulAdd(t - 1, 1, r.xDiff);
      MulAdd(m', n, r.xDirection);
    }
  }

  lemma MulAdd(a: int, b: int, c: int)
    ensures (a + b) * c == a * c + b * c
    ensures c * (a + b) == c * a + c * b
  {
  }

  // ---------------------------------------------------------------------
  // Ordered insertion.

  /** `e` placed at position k of `s`. */
  function Insert(s: seq<RegionSupportRec>, k: nat, e: RegionSupportRec): seq<RegionSupportRec>
    requires k <= |s|
  {
    s[..k] + [e] + s[k..]
  }

  /** A list that agrees with `s` before k, holds e at k and is shifted after k is Insert(s, k, e). */
  lemma InsertAt(t: seq<RegionSupportRec>, s: seq<RegionSupportRec>, k: nat, e: RegionSupportRec)
    requires k <= |s| && |t| == |s| + 1
    requires forall i :: 0 <= i < k ==> t[i] == s[i]
    requires t[k] == e
    requires forall i :: k < i < |t| ==> t[i] == s[i - 1]
    ensures t == Insert(s, k, e)
  {
    var u := Insert(s, k, e);
    forall i | 0 <= i < |t|
      ensures t[i] == u[i]
    {
      if i < k { assert u[i] == s[i]; }
      else if i > k { assert u[i] == s[k..][i - k - 1]; }
    }
  }

  function Key(r: RegionSupportRec, byY: bool): int {
    if byY then r.yp else r.xp
  }

  predicate SortedOn(s: seq<RegionSupportRec>, byY: bool) {
    forall i, j :: 0 <= i < j < |s| ==> Key(s[i], byY) <= Key(s[j], byY)
  }

  /** Insertion adds exactly one element. */
  lemma InsertPermutes(s: seq<RegionSupportRec>, k: nat, e: RegionSupportRec)
    requires k <= |s|
    ensures multiset(Insert(s, k, e)) == multiset(s) + multiset{e}
    ensures |Insert(s, k, e)| == |s| + 1
  {
    assert s == s[..k] + s[k..];
  }

  /**
   * Inserting after the last element whose key is not greater, with only
   * greater keys after it, keeps a sorted list sorted.
   */
  lemma InsertKeepsSorted(s: seq<RegionSupportRec>, k: nat, e: RegionSupportRec, byY: bool)
    requires k <= |s| && SortedOn(s, byY)
    requires k == 0 || Key(s[k - 1], byY) <= Key(e, byY)
    requires forall i :: k <= i < |s| ==> Key(s[i], byY) > Key(e, byY)
    ensures SortedOn(Insert(s, k, e), byY)
  {
    var t := Insert(s, k, e);
    forall i, j | 0 <= i < j < |t|
      ensures Key(t[i], byY) <= Key(t[j], byY)
    {
      var si := if i < k then i else i - 1;
      var sj := if j <= k then j else j - 1;
      if i < k { assert t[i] == s[i]; }
      if i > k { assert t[i] == s[i - 1]; }
      if j < k { assert t[j] == s[j]; }
      if j > k { assert t[j] == s[j - 1]; }
    }
  }

  /**
   * Ordered insertion as process2 performs it: `e` goes after the last
   * element whose key is not greater than its own.
   */
  function InsertSorted(s: seq<RegionSupportRec>, e: RegionSupportRec, byY: bool): (r: seq<RegionSupportRec>)
    ensures |r| == |s| + 1
    decreases |s|
  {
    if |s| == 0 || Key(s[|s| - 1], byY) <= Key(e, byY) then s + [e]
    else InsertSorted(s[..|s| - 1], e, byY) + [s[|s| - 1]]
  }

  /** k is where ordered insertion of a value with key v goes. */
  predicate IsInsertPoint(s: seq<RegionSupportRec>, k: nat, v: int, byY: bool) {
    && k <= |s|
    && (k == 0 || Key(s[k - 1], byY) <= v)
    && (forall i :: k <= i < |s| ==> Key(s[i], byY) > v)
  }

  /** Inserting at the insertion point is ordered insertion. */
  lemma {:induction false} InsertAtInsertPoint(s: seq<RegionSupportRec>, k: nat, e: RegionSupportRec, byY: bool)
    requires IsInsertPoint(s, k, Key(e, byY), byY)
    ensures Insert(s, k, e) == InsertSorted(s, e, byY)
    decreases |s|
  {
    if |s| > 0 && Key(s[|s| - 1], byY) > Key(e, byY) {
      var init := s[..|s| - 1];
      assert IsInsertPoint(init, k, Key(e, byY), byY);
      InsertAtInsertPoint(init, k, e, byY);
      assert Insert(s, k, e) == Insert(init, k, e) + [s[|s| - 1]];
    } else if |s| > 0 {
      assert k == |s|;
    }
  }

  /** Ordered insertion does insert at an insertion point. */
  lemma {:induction false} InsertSortedAt(s: seq<RegionSupportRec>, e: RegionSupportRec, byY: bool) returns (k: nat)
    ensures IsInsertPoint(s, k, Key(e, byY), byY)
    ensures InsertSorted(s, e, byY) == Insert(s, k, e)
    decreases |s|
  {
    if |s| == 0 || Key(s[|s| - 1], byY) <= Key(e, byY) {
      k := |s|;
    } else {
      var init := s[..|s| - 1];
      k := InsertSortedAt(init, e, byY);
      assert Insert(s, k, e) == Insert(init, k, e) + [s[|s| - 1]];
    }
  }

  /** Ordered insertion keeps a sorted list sorted and adds exactly `e`. */
  lemma InsertSortedSpec(s: seq<RegionSupportRec>, e: RegionSupportRec, byY: bool)
    ensures multiset(InsertSorted(s, e, byY)) == multiset(s) + multiset{e}
    ensures SortedOn(s, byY) ==> SortedOn(InsertSorted(s, e, byY), byY)
  {
    var k := InsertSortedAt(s, e, byY);
    InsertPermutes(s, k, e);
    if SortedOn(s, byY) {
      InsertKeepsSorted(s, k, e, byY);
    }
  }

  /** The order the loader leaves a list of edges in: each inserted in turn by top y. */
  function LoadOrder(edges: seq<RegionSupportRec>): (r: seq<RegionSupportRec>)
    ensures |r| == |edges|
  {
    if |edges| == 0 then []
    else InsertSorted(LoadOrder(edges[..|edges| - 1]), edges[|edges| - 1], true)
  }

  /** The loaded list is sorted by top y and holds exactly the given edges. */
  lemma {:induction false} LoadOrderSpec(edges: seq<RegionSupportRec>)
    ensures SortedOn(LoadOrder(edges), true)
    ensures multiset(LoadOrder(edges)) == multiset(edges)
  {
    if |edges| > 0 {
      var init := edges[..|edges| - 1];
      LoadOrderSpec(init);
      InsertSortedSpec(LoadOrder(init), edges[|edges| - 1], true);
      assert edges == init + [edges[|edges| - 1]];
    }
  }

  /** The shared process list of the walk-region loader. */
  class WalkRegion {
    var processList: array<RegionSupportRec>

    constructor (size: nat)
      ensures fresh(processList) && processList.Length == size
    {
      processList := new RegionSupportRec[size](_ => RegionSupportRec(0, 0, 0, 0, 0, 0, 0));
    }

    /**
     * Inserts the edge (x1, y1)-(x2, y2) into the first dataIndex + 1 slots:
     * entries with a larger top y move up one slot.
     */
    method Process2(dataIndex: int, x1: int, y1: int, x2: int, y2: int)
      requires 0 <= dataIndex < processList.Length
      modifies processList
      ensures processList[..dataIndex + 1]
        == InsertSorted(old(processList[..dataIndex]), NewEdge(x1, y1, x2, y2), true)
      ensures processList[dataIndex + 1..] == old(processList[dataIndex + 1..])
    {
      var xDiff := Abs(x2 - x1);
      var yDiff := Abs(y2 - y1);
      var halfDiff := Max(xDiff, yDiff) / 2;
      var yMax := Min(y1, y2);
      ghost var before := processList[..];
      var index := ShiftAbove(dataIndex, yMax);
      var xTemp := if y1 >= y2 then x1 - x2 else x2 - x1;
      processList[index] := RegionSupportRec(
        yMax,
        if y1 >= y2 then x2 else x1,
        xDiff, yDiff, halfDiff,
        if xTemp == 0 then 0 else if xTemp < 0 then -1 else 1,
        yDiff);
      assert processList[..dataIndex + 1] == InsertSorted(before[..dataIndex], NewEdge(x1, y1, x2, y2), true) by {
        InsertAt(processList[..dataIndex + 1], before[..dataIndex], index, NewEdge(x1, y1, x2, y2));
        InsertAtInsertPoint(before[..dataIndex], index, NewEdge(x1, y1, x2, y2), true);
      }
    }

    /**
     * The loop of `process2`: the entries among the first dataIndex whose
     * top y is above yMax move up one slot, leaving a gap at index.
     */
    method ShiftAbove(dataIndex: int, yMax: int) returns (index: int)
      requires 0 <= dataIndex < processList.Length
      modifies processList
      ensures 0 <= index <= dataIndex
      ensures IsInsertPoint(old(processList[..dataIndex]), index, yMax, true)
      ensures forall i :: 0 <= i < index ==> processList[i] == old(processList[i])
      ensures forall i :: index < i <= dataIndex ==> processList[i] == old(processList[i - 1])
      ensures forall i :: dataIndex < i < processList.Length ==> processList[i] == old(processList[i])
    {
      ghost var before := processList[..];
      index := dataIndex;
      while index > 0 && processList[index - 1].yp > yMax
        invariant 0 <= index <= dataIndex
        invariant forall i :: 0 <= i <= index ==> processList[i] == before[i]
        invariant forall i :: index < i <= dataIndex ==> processList[i] == before[i - 1]
        invariant forall i :: dataIndex < i < processList.Length ==> processList[i] == before[i]
        invariant forall i :: index <= i < dataIndex ==> before[i].yp > yMax
      {
        processList[index] := processList[index - 1];
        index := index - 1;
      }
    }

    /**
     * Moves the entry at idx1 down, swapping past larger x, but not below
     * idx2: the entry ends after the last entry whose x is not greater.
     */
    method Process5(idx1: int, idx2: int) returns (ghost at: nat)
      requires 0 <= idx2 && 0 <= idx1 < processList.Length
      modifies processList
      ensures idx1 <= idx2 ==> at == idx1
      ensures idx2 <= idx1 ==> idx2 <= at <= idx1
      ensures processList[..idx1 + 1] == Insert(old(processList[..idx1]), at, old(processList[idx1]))
      ensures processList[idx1 + 1..] == old(processList[idx1 + 1..])
      ensures at <= idx2 || old(processList[at - 1]).xp <= old(processList[idx1]).xp
      ensures forall i :: at <= i < idx1 ==> old(processList[i]).xp > old(processList[idx1]).xp
    {
      ghost var before := processList[..];
      ghost var e := processList[idx1];
      var index := idx1;
      while index > idx2 && processList[index - 1].xp > processList[index].xp
        invariant 0 <= index <= idx1
        invariant idx2 <= idx1 ==> idx2 <= index
        invariant idx1 <= idx2 ==> index == idx1
        invariant processList[index] == e
        invariant forall i :: 0 <= i < index ==> processList[i] == before[i]
        invariant forall i :: index < i <= idx1 ==> processList[i] == before[i - 1]
        invariant forall i :: idx1 < i < processList.Length ==> processList[i] == before[i]
        invariant forall i :: index <= i < idx1 ==> before[i].xp > e.xp
      {
        processList[index], processList[index - 1] := processList[index - 1], processList[index];
        index := index - 1;
      }
      at := index;
      InsertAt(processList[..idx1 + 1], before[..idx1], at, e);
    }

    /**
     * Decodes a polygon, given as its corner points, into the process list:
     * one record per non-horizontal edge, ordered by top y, and the largest
     * y of any corner. An empty corner list and an edge that finds the list
     * full are reported instead of read or written out of bounds.
     */
    method LoadProcessList(points: seq<Point>) returns (status: LoadStatus, dataIndex: int, regionHeight: int)
      modifies processList
      ensures status == NoCorners <==> |points| == 0
      ensures status == ListOverrun <==> |points| >= 1 && |Edges(points, |points|)| > processList.Length
      ensures status == ListOverrun ==> dataIndex == processList.Length
      ensures status == Decoded ==>
        && dataIndex == |Edges(points, |points|)|
        && processList[..dataIndex] == LoadOrder(Edges(points, |points|))
        && regionHeight == MaxY(points, |points|)
    {
      if |points| == 0 {
        return NoCorners, 0, 0;
      }
      dataIndex := 0;
      var x1 := points[|points| - 1].x;
      var y1 := points[|points| - 1].y;
      regionHeight := y1;
      for idx := 0 to |points|
        invariant dataIndex == |Edges(points, idx)| <= processList.Length
        invariant processList[..dataIndex] == LoadOrder(Edges(points, idx))
        invariant Point(x1, y1) == Prev(points, idx)
        invariant regionHeight == MaxY(points, idx)
      {
        var xp := points[idx].x;
        var yp := points[idx].y;
        var full;
        dataIndex, full := AddCorner(points, idx, dataIndex, x1, y1);
        if full {
          EdgesShorter(points, idx + 1, |points|);
          return ListOverrun, dataIndex, regionHeight;
        }
        assert MaxY(points, idx + 1) == Max(regionHeight, yp) by {
          EdgesStep(points, idx);
        }
        if yp > regionHeight {
          regionHeight := yp;
        }
        x1 := xp;
        y1 := yp;
      }
      status := Decoded;
    }

    /**
     * One turn of the loop of `loadProcessList`: the edge ending at corner
     * idx, unless horizontal. `full` reports an edge that has no slot left.
     */
    method AddCorner(points: seq<Point>, idx: nat, dataIndex: int, x1: int, y1: int) returns (count: int, full: bool)
      requires |points| >= 1 && idx < |points| && Point(x1, y1) == Prev(points, idx)
      requires dataIndex == |Edges(points, idx)| <= processList.Length
      requires processList[..dataIndex] == LoadOrder(Edges(points, idx))
      modifies processList
      ensures full <==> |Edges(points, idx + 1)| > processList.Length
      ensures full ==> count == dataIndex && processList[..] == old(processList[..])
      ensures !full ==> count == |Edges(points, idx + 1)| <= processList.Length
      ensures !full ==> processList[..count] == LoadOrder(Edges(points, idx + 1))
    {
      var xp := points[idx].x;
      var yp := points[idx].y;
      EdgesStep(points, idx);
      count, full := dataIndex, false;
      if yp != y1 {
        if dataIndex == processList.Length {
          return dataIndex, true;
        }
        Process2(dataIndex, x1, y1, xp, yp);
        count := dataIndex + 1;
      }
    }
  }

  /** What `loadProcessList` reports besides the list itself. */
  datatype LoadStatus = Decoded | NoCorners | ListOverrun

  /**
   * The slots `loadProcessList` writes as written: one per non-horizontal
   * edge, counting from 0, whatever the size of the list.
   */
  function SourceSlots(points: seq<Point>): (slots: seq<int>)
    requires |points| >= 1
    ensures |slots| == |Edges(points, |points|)|
    ensures forall k :: 0 <= k < |slots| ==> slots[k] == k
  {
    seq(|Edges(points, |points|)|, k => k)
  }

  /** A triangle has two non-horizontal edges, so with a one-slot list the second goes to slot 1, past its end. */
  lemma LoadWritesPastList()
    ensures var triangle := [Point(0, 0), Point(0, 1), Point(1, 0)];
      && |SourceSlots(triangle)| == 2 && SourceSlots(triangle)[1] == 1
      && |Edges(triangle, |triangle|)| > 1
  {
    var triangle := [Point(0, 0), Point(0, 1), Point(1, 0)];
    assert Edges(triangle, 1) == [];
    assert |Edges(triangle, 2)| == 1;
    assert |Edges(triangle, 3)| == 2;
  }

  /** One more corner adds its edge unless the edge is horizontal. */
  lemma EdgesStep(points: seq<Point>, idx: nat)
    requires |points| >= 1 && idx < |points|
    ensures var p, q := Prev(points, idx), points[idx];
      && (p.y == q.y ==> Edges(points, idx + 1) == Edges(points, idx))
      && (p.y != q.y ==> Edges(points, idx + 1) == Edges(points, idx) + [NewEdge(p.x, p.y, q.x, q.y)])
    ensures var p, q := Prev(points, idx), points[idx];
      p.y != q.y ==>
        LoadOrder(Edges(points, idx + 1))
          == InsertSorted(LoadOrder(Edges(points, idx)), NewEdge(p.x, p.y, q.x, q.y), true)
    ensures |Edges(points, idx + 1)| <= |Edges(points, |points|)|
    ensures MaxY(points, idx + 1) == Max(MaxY(points, idx), points[idx].y)
  {
    EdgesShorter(points, idx + 1, |points|);
    assert Edges(points, idx) + [] == Edges(points, idx);
    var p, q := Prev(points, idx), points[idx];
    if p.y != q.y {
      var e := Edges(points, idx + 1);
      assert e[..|e| - 1] == Edges(points, idx);
    }
  }

  /** The corner before corner i, the last one wrapping round to the first. */
  function Prev(points: seq<Point>, i: nat): Point
    requires |points| >= 1 && i <= |points|
  {
    if i == 0 then points[|points| - 1] else points[i - 1]
  }

  /** The non-horizontal edges ending at the first n corners, in corner order. */
  function Edges(points: seq<Point>, n: nat): seq<RegionSupportRec>
    requires |points| >= 1 && n <= |points|
  {
    if n == 0 then []
    else
      var p, q := Prev(points, n - 1), points[n - 1];
      Edges(points, n - 1) + (if p.y != q.y then [NewEdge(p.x, p.y, q.x, q.y)] else [])
  }

  lemma {:induction false} EdgesShorter(points: seq<Point>, m: nat, n: nat)
    requires |points| >= 1 && m <= n <= |points|
    ensures |Edges(points, m)| <= |Edges(points, n)|
    decreases n - m
  {
    if m < n {
      EdgesShorter(points, m + 1, n);
    }
  }

  /** The largest y among the last corner and the first n corners. */
  function MaxY(points: seq<Point>, n: nat): int
    requires |points| >= 1 && n <= |points|
  {
    if n == 0 then points[|points| - 1].y else Max(MaxY(points, n - 1), points[n - 1].y)
  }

  lemma {:induction false} MaxYBound(points: seq<Point>, n: nat)
    requires |points| >= 1 && n <= |points|
    ensures forall i :: 0 <= i < n ==> points[i].y <= MaxY(points, n)
    ensures points[|points| - 1].y <= MaxY(points, n)
  {
    if n > 0 {
      MaxYBound(points, n - 1);
    }
  }

  /** Every edge kept by the loader has a positive height, so Process terminates on it. */
  lemma EdgesHavePositiveHeight(points: seq<Point>, n: nat, k: nat)
    requires |points| >= 1 && n <= |points| && k < |Edges(points, n)|
    ensures Edges(points, n)[k].yDiff > 0 && ErrorBounded(Edges(points, n)[k])
  {
    if k < |Edges(points, n - 1)| {
      EdgesHavePositiveHeight(points, n - 1, k);
    }
  }
}
