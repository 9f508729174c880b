/**
 * Regions of the tsage scene engine: a bounding rectangle plus, per row, a
 * list of half-open horizontal slices [xs, xe).  A region whose size field
 * is 22 stores one row that stands for every row of its bounds; size 14
 * means "no slices".
 */
module Regions {
  import opened CMath

  datatype Point = Point(x: int, y: int)

  /** A rectangle with exclusive right and bottom edges (Common::Rect). */
  datatype Rect = Rect(left: int, top: int, right: int, bottom: int) {
    predicate IsValidRect() {
      left <= right && top <= bottom
    }

    predicate Contains(p: Point) {
      left <= p.x < right && top <= p.y < bottom
    }
  }

  datatype LineSlice = LineSlice(xs: int, xe: int)

  type LineSliceSet = seq<LineSlice>

  /** Region size codes found in the resource header. */
  const SizeNoSlices: int := 14
  const SizeSingleRow: int := 22

  /** Some slice of `line` holds x (slices are half-open). */
  predicate InSlices(x: int, line: LineSliceSet) {
    exists k :: 0 <= k < |line| && line[k].xs <= x < line[k].xe
  }

  /** Slices that are non-empty, in increasing order and pairwise disjoint. */
  predicate WellFormed(line: LineSliceSet) {
    && NonEmptySlices(line)
    && (forall k :: 0 <= k < |line| - 1 ==> line[k].xe <= line[k + 1].xs)
  }

  predicate NonEmptySlices(line: LineSliceSet) {
    forall k :: 0 <= k < |line| ==> line[k].xs < line[k].xe
  }

  /** The overlap test of the merge loop: neither slice ends before the other starts. */
  predicate Overlap(a: LineSlice, b: LineSlice) {
    !(a.xe <= b.xs) && !(b.xe <= a.xs)
  }

  /** `s` lies inside one slice of `line`. */
  predicate InsideOneOf(s: LineSlice, line: LineSliceSet) {
    exists k :: 0 <= k < |line| && line[k].xs <= s.xs && s.xe <= line[k].xe
  }

  // ---------------------------------------------------------------------
  // Region::mergeSlices, as written: on an overlap it advances the input
  // whose current slice starts later.

  /** What the merge loop still emits from indexes i and j on. */
  function MergeFrom(set1: LineSliceSet, set2: LineSliceSet, i: nat, j: nat): LineSliceSet
    requires i <= |set1| && j <= |set2|
    decreases |set1| - i + |set2| - j
  {
    if i == |set1| || j == |set2| then []
    else if set1[i].xe <= set2[j].xs then MergeFrom(set1, set2, i + 1, j)
    else if set2[j].xe <= set1[i].xs then MergeFrom(set1, set2, i, j + 1)
    else
      var set1Flag := set1[i].xs >= set2[j].xs;
      var start := if set1Flag then set1[i].xs else set2[j].xs;
      [LineSlice(start, Min(set1[i].xe, set2[j].xe))]
        + (if set1Flag then MergeFrom(set1, set2, i + 1, j) else MergeFrom(set1, set2, i, j + 1))
  }

  method MergeSlices(set1: LineSliceSet, set2: LineSliceSet) returns (result: LineSliceSet)
    ensures result == MergeFrom(set1, set2, 0, 0)
    ensures |result| <= |set1| + |set2|
  {
    result := [];
    var set1Index, set2Index := 0, 0;
    while set1Index < |set1| && set2Index < |set2|
      invariant set1Index <= |set1| && set2Index <= |set2|
      invariant result + MergeFrom(set1, set2, set1Index, set2Index) == MergeFrom(set1, set2, 0, 0)
      decreases |set1| - set1Index + |set2| - set2Index
    {
      ghost var rest := MergeFrom(set1, set2, set1Index, set2Index);
      if set1[set1Index].xe <= set2[set2Index].xs {
        set1Index := set1Index + 1;
      } else if set2[set2Index].xe <= set1[set1Index].xs {
        set2Index := set2Index + 1;
      } else {
        var set1Flag := set1[set1Index].xs >= set2[set2Index].xs;
        var slice := if set1Flag then set1[set1Index] else set2[set2Index];
        var emitted := LineSlice(slice.xs, Min(set1[set1Index].xe, set2[set2Index].xe));
        if set1Flag {
          set1Index := set1Index + 1;
        } else {
          set2Index := set2Index + 1;
        }
        assert rest == [emitted] + MergeFrom(set1, set2, set1Index, set2Index);
        result := result + [emitted];
      }
    }
    MergeFromLength(set1, set2, 0, 0);
  }

  lemma {:induction false} MergeFromLength(set1: LineSliceSet, set2: LineSliceSet, i: nat, j: nat)
    requires i <= |set1| && j <= |set2|
    ensures |MergeFrom(set1, set2, i, j)| <= |set1| - i + |set2| - j
    decreases |set1| - i + |set2| - j
  {
    if i < |set1| && j < |set2| {
      MergeFromLength(set1, set2, i + 1, j);
      MergeFromLength(set1, set2, i, j + 1);
    }
  }

  /** Each emitted slice comes from one overlapping pair of input slices. */
  lemma {:induction false} MergeSource(set1: LineSliceSet, set2: LineSliceSet, i: nat, j: nat, k: nat)
    returns (a: nat, b: nat)
    requires i <= |set1| && j <= |set2|
    requires k < |MergeFrom(set1, set2, i, j)|
    ensures i <= a < |set1| && j <= b < |set2| && Overlap(set1[a], set2[b])
    ensures MergeFrom(set1, set2, i, j)[k]
      == LineSlice(Max(set1[a].xs, set2[b].xs), Min(set1[a].xe, set2[b].xe))
    decreases |set1| - i + |set2| - j
  {
    if set1[i].xe <= set2[j].xs {
      a, b := MergeSource(set1, set2, i + 1, j, k);
    } else if set2[j].xe <= set1[i].xs {
      a, b := MergeSource(set1, set2, i, j + 1, k);
    } else if k == 0 {
      a, b := i, j;
    } else if set1[i].xs >= set2[j].xs {
      a, b := MergeSource(set1, set2, i + 1, j, k - 1);
    } else {
      a, b := MergeSource(set1, set2, i, j + 1, k - 1);
    }
  }

  /**
   * Soundness of mergeSlices: every emitted slice is non-empty and lies
   * inside one slice of each input.
   */
  lemma MergeSound(set1: LineSliceSet, set2: LineSliceSet, k: nat)
    requires NonEmptySlices(set1) && NonEmptySlices(set2)
    requires k < |MergeFrom(set1, set2, 0, 0)|
    ensures var s := MergeFrom(set1, set2, 0, 0)[k];
      s.xs < s.xe && InsideOneOf(s, set1) && InsideOneOf(s, set2)
  {
    var a, b := MergeSource(set1, set2, 0, 0, k);
  }

  /**
   * The merge is not complete: a slice of set1 that overlaps the same slice
   * of set2 as an earlier one is skipped, because the loop moves past the
   * later-starting slice of set2.
   */
  lemma MergeMissesOverlap()
    ensures var set1 := [LineSlice(0, 4), LineSlice(6, 8)];
      var set2 := [LineSlice(2, 10)];
      && WellFormed(set1) && WellFormed(set2)
      && MergeFrom(set1, set2, 0, 0) == [LineSlice(2, 4)]
      && InSlices(7, set1) && InSlices(7, set2)
      && !InSlices(7, MergeFrom(set1, set2, 0, 0))
  {
    var set1 := [LineSlice(0, 4), LineSlice(6, 8)];
    var set2 := [LineSlice(2, 10)];
    assert MergeFrom(set1, set2, 1, 1) == [];
    assert MergeFrom(set1, set2, 0, 0) == [LineSlice(2, 4)] + MergeFrom(set1, set2, 0, 1);
    assert set1[1].xs <= 7 < set1[1].xe;
    assert set2[0].xs <= 7 < set2[0].xe;
  }

  // ---------------------------------------------------------------------
  // Corrected intersection: on an overlap, advance the input whose current
  // slice ends first, so no later overlap with the other slice is lost.

  function IntersectFrom(set1: LineSliceSet, set2: LineSliceSet, i: nat, j: nat): LineSliceSet
    requires i <= |set1| && j <= |set2|
    decreases |set1| - i + |set2| - j
  {
    if i == |set1| || j == |set2| then []
    else if set1[i].xe <= set2[j].xs then IntersectFrom(set1, set2, i + 1, j)
    else if set2[j].xe <= set1[i].xs then IntersectFrom(set1, set2, i, j + 1)
    else
      [LineSlice(Max(set1[i].xs, set2[j].xs), Min(set1[i].xe, set2[j].xe))]
        + (if set1[i].xe <= set2[j].xe then IntersectFrom(set1, set2, i + 1, j)
           else IntersectFrom(set1, set2, i, j + 1))
  }

  function IntersectSlices(set1: LineSliceSet, set2: LineSliceSet): LineSliceSet {
    IntersectFrom(set1, set2, 0, 0)
  }

  /** In a well-formed slice list every later slice starts after an earlier one ends. */
  lemma WellFormedOrdered(line: LineSliceSet, a: nat, b: nat)
    requires WellFormed(line) && a < b < |line|
    ensures line[a].xe <= line[b].xs
    decreases b - a
  {
    if b > a + 1 {
      WellFormedOrdered(line, a, b - 1);
    }
  }

  lemma InSlicesSuffix(x: int, line: LineSliceSet, i: nat)
    requires i < |line|
    ensures InSlices(x, line[i..]) <==> (line[i].xs <= x < line[i].xe) || InSlices(x, line[i + 1..])
  {
    if InSlices(x, line[i..]) {
      var k :| 0 <= k < |line[i..]| && line[i..][k].xs <= x < line[i..][k].xe;
      if k > 0 {
        assert line[i + 1..][k - 1] == line[i..][k];
      }
    }
    if InSlices(x, line[i + 1..]) {
      var k :| 0 <= k < |line[i + 1..]| && line[i + 1..][k].xs <= x < line[i + 1..][k].xe;
      assert line[i..][k + 1] == line[i + 1..][k];
    }
    if line[i].xs <= x < line[i].xe {
      assert line[i..][0] == line[i];
    }
  }

  /** A point left of slice i of a well-formed list is in none of slices i.. . */
  lemma BeforeSuffix(x: int, line: LineSliceSet, i: nat)
    requires WellFormed(line) && i < |line| && x < line[i].xe
    ensures InSlices(x, line[i + 1..]) ==> false
  {
    if InSlices(x, line[i + 1..]) {
      var k :| 0 <= k < |line[i + 1..]| && line[i + 1..][k].xs <= x < line[i + 1..][k].xe;
      WellFormedOrdered(line, i, i + 1 + k);
    }
  }

  lemma BeforeAll(x: int, line: LineSliceSet, i: nat)
    requires WellFormed(line) && i < |line| && x < line[i].xs
    ensures !InSlices(x, line[i..])
  {
    InSlicesSuffix(x, line, i);
    if InSlices(x, line[i + 1..]) {
      BeforeSuffix(x, line, i);
    }
  }

  /**
   * The corrected intersection holds exactly the points that lie in both
   * inputs, when both inputs are well formed.
   */
  lemma {:induction false} IntersectExact(set1: LineSliceSet, set2: LineSliceSet, i: nat, j: nat, x: int)
    requires WellFormed(set1) && WellFormed(set2)
    requires i <= |set1| && j <= |set2|
    ensures InSlices(x, IntersectFrom(set1, set2, i, j)) <==> InSlices(x, set1[i..]) && InSlices(x, set2[j..])
    decreases |set1| - i + |set2| - j
  {
    if i == |set1| || j == |set2| {
      assert set1[i..] == [] || set2[j..] == [];
    } else {
      var a, b := set1[i], set2[j];
      InSlicesSuffix(x, set1, i);
      InSlicesSuffix(x, set2, j);
      if a.xe <= b.xs {
        IntersectExact(set1, set2, i + 1, j, x);
        if a.xs <= x < a.xe { BeforeAll(x, set2, j); }
      } else if b.xe <= a.xs {
        IntersectExact(set1, set2, i, j + 1, x);
        if b.xs <= x < b.xe { BeforeAll(x, set1, i); }
      } else {
        var head := LineSlice(Max(a.xs, b.xs), Min(a.xe, b.xe));
        var rest := if a.xe <= b.xe then IntersectFrom(set1, set2, i + 1, j)
                    else IntersectFrom(set1, set2, i, j + 1);
        assert IntersectFrom(set1, set2, i, j) == [head] + rest;
        HeadOrRest(x, head, rest);
        if a.xe <= b.xe {
          IntersectExact(set1, set2, i + 1, j, x);
          if a.xs <= x < a.xe && InSlices(x, set2[j + 1..]) { BeforeSuffix(x, set2, j); }
        } else {
          IntersectExact(set1, set2, i, j + 1, x);
          if b.xs <= x < b.xe && InSlices(x, set1[i + 1..]) { BeforeSuffix(x, set1, i); }
        }
      }
    }
  }

  lemma HeadOrRest(x: int, head: LineSlice, rest: LineSliceSet)
    ensures InSlices(x, [head] + rest) <==> (head.xs <= x < head.xe) || InSlices(x, rest)
  {
    var whole := [head] + rest;
    if InSlices(x, rest) {
      var k :| 0 <= k < |rest| && rest[k].xs <= x < rest[k].xe;
      assert whole[k + 1] == rest[k];
    }
    if InSlices(x, whole) {
      var k :| 0 <= k < |whole| && whole[k].xs <= x < whole[k].xe;
      if k > 0 { assert rest[k - 1] == whole[k]; }
    }
    if head.xs <= x < head.xe { assert whole[0] == head; }
  }

  lemma IntersectSlicesExact(set1: LineSliceSet, set2: LineSliceSet, x: int)
    requires WellFormed(set1) && WellFormed(set2)
    ensures InSlices(x, IntersectSlices(set1, set2)) <==> InSlices(x, set1) && InSlices(x, set2)
  {
    IntersectExact(set1, set2, 0, 0, x);
    assert set1[0..] == set1 && set2[0..] == set2;
  }

  // ---------------------------------------------------------------------
  // Region::uniteLine's inner step: fold one slice into a row.

  /** The overlap-or-touch test of uniteLine. */
  predicate Touches(src: LineSlice, dest: LineSlice) {
    || (src.xs >= dest.xs && src.xs <= dest.xe)
    || (src.xe >= dest.xs && src.xe <= dest.xe)
    || (src.xs < dest.xs && src.xe > dest.xe)
  }

  /** The first slice of `dest` that `src` touches, or |dest| when it touches none. */
  function FirstTouch(dest: LineSliceSet, src: LineSlice): (k: nat)
    ensures k <= |dest|
    ensures forall j | 0 <= j < k :: !Touches(src, dest[j])
    ensures k < |dest| ==> Touches(src, dest[k])
  {
    if |dest| == 0 then 0
    else if Touches(src, dest[0]) then 0
    else 1 + FirstTouch(dest[1..], src)
  }

  /** The slice a touched slice becomes: from the smaller start to the larger end. */
  function Widen(src: LineSlice, d: LineSlice): LineSlice {
    LineSlice(Min(src.xs, d.xs), Max(src.xe, d.xe))
  }

  /** What folding `src` into the row `dest` gives: the first touched slice widened, or `src` appended. */
  function Unite(dest: LineSliceSet, src: LineSlice): LineSliceSet {
    var k := FirstTouch(dest, src);
    if k < |dest| then dest[k := Widen(src, dest[k])] else dest + [src]
  }

  /**
   * Widens the first slice that the new slice touches, or appends the new
   * slice when it touches none.
   */
  method AddSlice(dest: LineSliceSet, src: LineSlice) returns (r: LineSliceSet)
    ensures r == Unite(dest, src)
    ensures (forall k | 0 <= k < |dest| :: !Touches(src, dest[k])) <==> r == dest + [src]
    ensures var k := FirstTouch(dest, src);
      k < |dest| ==> |r| == |dest| && r == dest[k := Widen(src, dest[k])]
    ensures |r| >= 1 && |r| >= |dest|
    ensures forall x :: InSlices(x, r) <==> InSlices(x, dest) || src.xs <= x < src.xe
    ensures |r| > 0 && |dest| > 0 ==> r[0].xs <= dest[0].xs
    ensures |dest| > 0 && |r| == |dest| ==> r[|r| - 1].xe >= dest[|dest| - 1].xe
  {
    var destIndex := 0;
    while destIndex < |dest|
      invariant 0 <= destIndex <= |dest|
      invariant forall k :: 0 <= k < destIndex ==> !Touches(src, dest[k])
    {
      var d := dest[destIndex];
      if Touches(src, d) {
        assert FirstTouch(dest, src) == destIndex;
        r := dest[destIndex := Widen(src, d)];
        forall x
          ensures InSlices(x, r) <==> InSlices(x, dest) || src.xs <= x < src.xe
        {
          WidenExact(x, src, d);
          ReplaceSlice(x, dest, destIndex, Widen(src, d));
        }
        return;
      }
      destIndex := destIndex + 1;
    }
    assert FirstTouch(dest, src) == |dest|;
    r := dest + [src];
    forall x
      ensures InSlices(x, r) <==> InSlices(x, dest) || src.xs <= x < src.xe
    {
      HeadOrRestRev(x, dest, src);
    }
  }

  /** Widening a touched slice to (min start, max end) adds exactly the new slice. */
  lemma WidenExact(x: int, src: LineSlice, d: LineSlice)
    requires Touches(src, d)
    ensures Widen(src, d).xs <= x < Widen(src, d).xe <==> (d.xs <= x < d.xe) || (src.xs <= x < src.xe)
  {
  }

  /** Replacing slice i: the row then holds what the other slices and `s` hold. */
  lemma ReplaceSlice(x: int, line: LineSliceSet, i: nat, s: LineSlice)
    requires i < |line|
    ensures InSlices(x, line[i := s]) <==> InSlicesExcept(x, line, i) || (s.xs <= x < s.xe)
    ensures InSlices(x, line) <==> InSlicesExcept(x, line, i) || (line[i].xs <= x < line[i].xe)
  {
    var r := line[i := s];
    if InSlices(x, r) {
      var k :| 0 <= k < |r| && r[k].xs <= x < r[k].xe;
      if k != i { assert line[k] == r[k]; }
    }
    if InSlicesExcept(x, line, i) {
      var k :| 0 <= k < |line| && k != i && line[k].xs <= x < line[k].xe;
      assert r[k] == line[k];
    }
    if s.xs <= x < s.xe { assert r[i] == s; }
  }

  predicate InSlicesExcept(x: int, line: LineSliceSet, i: nat) {
    exists k :: 0 <= k < |line| && k != i && line[k].xs <= x < line[k].xe
  }

  lemma HeadOrRestRev(x: int, dest: LineSliceSet, src: LineSlice)
    ensures InSlices(x, dest + [src]) <==> InSlices(x, dest) || src.xs <= x < src.xe
  {
    var r := dest + [src];
    if InSlices(x, r) {
      var k :| 0 <= k < |r| && r[k].xs <= x < r[k].xe;
      if k < |dest| { assert dest[k] == r[k]; }
    }
    if InSlices(x, dest) {
      var k :| 0 <= k < |dest| && dest[k].xs <= x < dest[k].xe;
      assert r[k] == dest[k];
    }
    if src.xs <= x < src.xe { assert r[|dest|] == src; }
  }

  /** The slices of `sliceSet` folded into `dest` one after the other. */
  function UniteAll(dest: LineSliceSet, sliceSet: LineSliceSet): LineSliceSet
    decreases |sliceSet|
  {
    if |sliceSet| == 0 then dest
    else Unite(UniteAll(dest, sliceSet[..|sliceSet| - 1]), sliceSet[|sliceSet| - 1])
  }

  /** uniteLine's merge loop: folds every slice of `sliceSet` into `dest`. */
  method UniteSlices(dest: LineSliceSet, sliceSet: LineSliceSet) returns (r: LineSliceSet)
    requires |sliceSet| > 0
    ensures r == UniteAll(dest, sliceSet)
    ensures |dest| <= |r| <= |dest| + |sliceSet|
    ensures |sliceSet| == 1 && (exists k | 0 <= k < |dest| :: Touches(sliceSet[0], dest[k])) ==> |r| == |dest|
    ensures |r| > 0
    ensures forall x :: InSlices(x, r) <==> InSlices(x, dest) || InSlices(x, sliceSet)
  {
    r := dest;
    for srcIndex := 0 to |sliceSet|
      invariant r == UniteAll(dest, sliceSet[..srcIndex])
      invariant |dest| <= |r| <= |dest| + srcIndex
      invariant srcIndex > 0 ==> |r| > 0
      invariant forall x :: InSlices(x, r) <==> InSlices(x, dest) || InSlices(x, sliceSet[..srcIndex])
    {
      assert sliceSet[..srcIndex + 1][..srcIndex] == sliceSet[..srcIndex];
      r := AddSlice(r, sliceSet[srcIndex]);
      forall x
        ensures InSlices(x, sliceSet[..srcIndex + 1])
          <==> InSlices(x, sliceSet[..srcIndex]) || sliceSet[srcIndex].xs <= x < sliceSet[srcIndex].xe
      {
        assert sliceSet[..srcIndex + 1] == sliceSet[..srcIndex] + [sliceSet[srcIndex]];
        HeadOrRestRev(x, sliceSet[..srcIndex], sliceSet[srcIndex]);
      }
    }
    assert sliceSet[..|sliceSet|] == sliceSet;
  }

  // ---------------------------------------------------------------------
  // The region itself.

  /** Row y of a row list whose first row is `top`; rows outside the list are empty. */
  function RowOf(rows: seq<LineSliceSet>, top: int, y: int): LineSliceSet {
    if top <= y < top + |rows| then rows[y - top] else []
  }

  class Region {
    var bounds: Rect
    var regionSize: int
    var regionId: int
    var ySlices: seq<LineSliceSet>

    /** Every row lookup that a point inside the bounds can make is in range. */
    ghost predicate Valid()
      reads this
    {
      && (regionSize == SizeSingleRow ==> |ySlices| >= 1)
      && (regionSize != SizeSingleRow && |ySlices| > 0 ==> bounds.bottom - bounds.top <= |ySlices|)
    }

    /** One row per line of the bounds, as uniteLine maintains. */
    ghost predicate RowPerLine()
      reads this
    {
      |ySlices| == 0 || |ySlices| == bounds.bottom - bounds.top
    }

    /**
     * A region as decoded from its resource: id, size code, bounds and the
     * rows the size code calls for (none for size 14, one for size 22,
     * otherwise one per line of the bounds), each with fewer than 100 slices.
     */
    constructor (rlbNum: int, size: int, rect: Rect, rows: seq<LineSliceSet>)
      requires size == SizeNoSlices ==> rows == []
      requires size == SizeSingleRow ==> |rows| == 1
      requires size != SizeNoSlices && size != SizeSingleRow ==> |rows| == Max(0, rect.bottom - rect.top)
      requires forall y :: 0 <= y < |rows| ==> |rows[y]| < 100
      ensures Valid()
      ensures regionId == rlbNum && regionSize == size && bounds == rect && ySlices == rows
    {
      regionId := rlbNum;
      bounds := rect;
      regionSize := size;
      ySlices := rows;
    }

    /** The row that line yp reads: row 0 for single-row regions. */
    function RowIndex(yp: int): int
      reads this
    {
      if regionSize == SizeSingleRow then 0 else yp - bounds.top
    }

    function LineSlices(yp: int): (line: LineSliceSet)
      reads this
      requires 0 <= RowIndex(yp) < |ySlices|
      ensures regionSize == SizeSingleRow ==> line == ySlices[0]
      ensures regionSize != SizeSingleRow ==> line == RowOf(ySlices, bounds.top, yp)
    {
      ySlices[RowIndex(yp)]
    }

    /** The region covers pt: inside the bounds, has rows, and x is in a slice of pt's row. */
    ghost predicate Covers(pt: Point)
      reads this
      requires Valid()
    {
      bounds.Contains(pt) && |ySlices| > 0 && InSlices(pt.x, LineSlices(pt.y))
    }

    method Contains(pt: Point) returns (b: bool)
      requires Valid()
      ensures b == Covers(pt)
    {
      if !bounds.Contains(pt) || |ySlices| == 0 {
        return false;
      }
      var line := LineSlices(pt.y);
      var idx := 0;
      while idx < |line|
        invariant 0 <= idx <= |line|
        invariant forall k :: 0 <= k < idx ==> !(line[k].xs <= pt.x < line[k].xe)
      {
        if pt.x >= line[idx].xs && pt.x < line[idx].xe {
          return true;
        }
        idx := idx + 1;
      }
      return false;
    }

    /**
     * `empty()`: only an invalid rectangle with size code 14 counts as
     * empty, and an empty region covers no point at all.
     */
    predicate Empty(): (e: bool)
      reads this
      ensures e ==> regionSize == SizeNoSlices
      ensures e ==> forall pt :: !bounds.Contains(pt)
      ensures e && Valid() ==> forall pt :: !Covers(pt)
    {
      !bounds.IsValidRect() && regionSize == SizeNoSlices
    }

    /** Zeroes bounds, id and size; the rows are left as they were. */
    method Clear()
      requires Valid()
      modifies this
      ensures bounds == Rect(0, 0, 0, 0) && regionId == 0 && regionSize == 0
      ensures ySlices == old(ySlices)
      ensures Valid() && !Empty()
      ensures forall pt :: !Covers(pt)
    {
      bounds := Rect(0, 0, 0, 0);
      regionId := 0;
      regionSize := 0;
    }

    method SetRect(xs: int, ys: int, xe: int, ye: int)
      modifies this
      ensures regionId == old(regionId)
      ensures !(ys < ye && xs < xe) ==>
        regionSize == SizeNoSlices && bounds == Rect(0, 0, 0, 0) && ySlices == []
      ensures ys < ye && xs < xe ==>
        regionSize == SizeSingleRow && bounds == Rect(xs, ys, xe, ye) && ySlices == [[LineSlice(xs, xe)]]
      ensures Valid() && RowPerLine() == (|ySlices| == 0 || ye - ys == 1)
      ensures !Empty()
      ensures forall pt :: Covers(pt) <==> Rect(xs, ys, xe, ye).Contains(pt)
    {
      var validRect := ys < ye && xs < xe;
      ySlices := [];
      if !validRect {
        regionSize := SizeNoSlices;
        bounds := Rect(0, 0, 0, 0);
      } else {
        regionSize := SizeSingleRow;
        bounds := Rect(xs, ys, xe, ye);
        ySlices := ySlices + [[LineSlice(xs, xe)]];
      }
      forall pt
        ensures Covers(pt) <==> Rect(xs, ys, xe, ye).Contains(pt)
      {
        if validRect && bounds.Contains(pt) {
          assert LineSlices(pt.y)[0] == LineSlice(xs, xe);
        }
      }
    }

    /**
     * The parts of `sliceSet` that line yp of the region also covers; nothing
     * outside the vertical bounds.  This uses the corrected intersection.
     */
    function SectPoints(yp: int, sliceSet: LineSliceSet): (r: LineSliceSet)
      reads this
      requires Valid()
      requires bounds.top <= yp < bounds.bottom ==> |ySlices| > 0
      ensures !(bounds.top <= yp < bounds.bottom) ==> r == []
    {
      if yp < bounds.top || yp >= bounds.bottom then []
      else IntersectSlices(sliceSet, LineSlices(yp))
    }

    /** With well-formed rows, SectPoints keeps exactly the points the region covers. */
    lemma SectPointsExact(yp: int, sliceSet: LineSliceSet, x: int)
      requires Valid()
      requires bounds.top <= yp < bounds.bottom ==> |ySlices| > 0 && WellFormed(LineSlices(yp))
      requires WellFormed(sliceSet)
      ensures InSlices(x, SectPoints(yp, sliceSet)) <==> InSlices(x, sliceSet) && bounds.top <= yp < bounds.bottom && InSlices(x, LineSlices(yp))
    {
      if bounds.top <= yp < bounds.bottom {
        IntersectSlicesExact(sliceSet, LineSlices(yp), x);
      }
    }

    /** sectPoints as written, on top of the as-written mergeSlices. */
    method SectPointsAsWritten(yp: int, sliceSet: LineSliceSet) returns (r: LineSliceSet)
      requires Valid()
      requires bounds.top <= yp < bounds.bottom ==> |ySlices| > 0
      ensures !(bounds.top <= yp < bounds.bottom) ==> r == []
      ensures bounds.top <= yp < bounds.bottom ==> r == MergeFrom(sliceSet, LineSlices(yp), 0, 0)
    {
      if yp < bounds.top || yp >= bounds.bottom {
        return [];
      }
      r := MergeSlices(sliceSet, LineSlices(yp));
    }

    /**
     * The first half of uniteLine: grows the bounds and the row list, one
     * empty row at a time, until line yp is inside.  No line's slices change.
     */
    method GrowRows(yp: int, sliceSet: LineSliceSet)
      requires |sliceSet| > 0
      requires RowPerLine()
      modifies this
      ensures regionSize == old(regionSize) && regionId == old(regionId)
      ensures bounds.top <= yp < bounds.bottom && |ySlices| == bounds.bottom - bounds.top
      ensures bounds.top == (if old(|ySlices|) == 0 then yp else Min(old(bounds.top), yp))
      ensures bounds.bottom == (if old(|ySlices|) == 0 then yp + 1 else Max(old(bounds.bottom), yp + 1))
      ensures bounds.left == (if old(|ySlices|) == 0 then sliceSet[0].xs else old(bounds.left))
      ensures bounds.right == (if old(|ySlices|) == 0 then sliceSet[|sliceSet| - 1].xe else old(bounds.right))
      ensures forall y :: RowOf(ySlices, bounds.top, y) == RowOf(old(ySlices), old(bounds.top), y)
    {
      var wasEmpty := |ySlices| == 0;
      if wasEmpty {
        bounds := Rect(sliceSet[0].xs, yp, sliceSet[|sliceSet| - 1].xe, yp + 1);
        ySlices := ySlices + [[]];
      }
      ghost var top0 := bounds.top;
      ghost var bottom0 := bounds.bottom;
      while yp < bounds.top
        invariant |ySlices| == bounds.bottom - bounds.top
        invariant yp < top0 ==> yp <= bounds.top <= top0
        invariant yp >= top0 ==> bounds.top == top0
        invariant bounds.bottom == bottom0
        invariant bounds.left == (if wasEmpty then sliceSet[0].xs else old(bounds.left))
        invariant bounds.right == (if wasEmpty then sliceSet[|sliceSet| - 1].xe else old(bounds.right))
        invariant regionSize == old(regionSize) && regionId == old(regionId)
        invariant forall y :: RowOf(ySlices, bounds.top, y) == RowOf(old(ySlices), old(bounds.top), y)
      {
        ghost var before := ySlices;
        ySlices := [[]] + ySlices;
        bounds := bounds.(top := bounds.top - 1);
        forall y
          ensures RowOf(ySlices, bounds.top, y) == RowOf(before, bounds.top + 1, y)
        {
          if bounds.top + 1 <= y < bounds.top + 1 + |before| {
            assert ySlices[y - bounds.top] == before[y - bounds.top - 1];
          }
        }
      }
      while yp >= bounds.bottom
        invariant |ySlices| == bounds.bottom - bounds.top
        invariant bounds.top <= yp
        invariant bounds.top == (if wasEmpty then yp else Min(old(bounds.top), yp))
        invariant yp >= bottom0 ==> bottom0 <= bounds.bottom <= yp + 1
        invariant yp < bottom0 ==> bounds.bottom == bottom0
        invariant regionSize == old(regionSize) && regionId == old(regionId)
        invariant bounds.left == (if wasEmpty then sliceSet[0].xs else old(bounds.left))
        invariant bounds.right == (if wasEmpty then sliceSet[|sliceSet| - 1].xe else old(bounds.right))
        invariant forall y :: RowOf(ySlices, bounds.top, y) == RowOf(old(ySlices), old(bounds.top), y)
      {
        ghost var before := ySlices;
        ySlices := ySlices + [[]];
        bounds := bounds.(bottom := bounds.bottom + 1);
        forall y
          ensures RowOf(ySlices, bounds.top, y) == RowOf(before, bounds.top, y)
        {
          if bounds.top <= y < bounds.top + |before| {
            assert ySlices[y - bounds.top] == before[y - bounds.top];
          }
        }
      }
    }

    /**
     * Adds the slices of `sliceSet` to line yp, growing the bounds and the
     * row list first.  Line yp then covers what it covered before plus every
     * slice of `sliceSet`; every other line is unchanged.
     */
    method UniteLine(yp: int, sliceSet: LineSliceSet)
      requires |sliceSet| > 0
      requires Valid() && RowPerLine()
      modifies this
      ensures Valid() && RowPerLine()
      ensures regionSize == old(regionSize) && regionId == old(regionId)
      ensures bounds.top <= yp < bounds.bottom && |ySlices| == bounds.bottom - bounds.top
      ensures bounds.top == (if old(|ySlices|) == 0 then yp else Min(old(bounds.top), yp))
      ensures bounds.bottom == (if old(|ySlices|) == 0 then yp + 1 else Max(old(bounds.bottom), yp + 1))
      ensures forall y :: y != yp ==> RowOf(ySlices, bounds.top, y) == RowOf(old(ySlices), old(bounds.top), y)
      ensures forall x :: (InSlices(x, RowOf(ySlices, bounds.top, yp))
        <==> InSlices(x, RowOf(old(ySlices), old(bounds.top), yp)) || InSlices(x, sliceSet))
      ensures RowOf(ySlices, bounds.top, yp) == UniteAll(RowOf(old(ySlices), old(bounds.top), yp), sliceSet)
      ensures var row0 := RowOf(old(ySlices), old(bounds.top), yp);
        |sliceSet| == 1 && (exists k | 0 <= k < |row0| :: Touches(sliceSet[0], row0[k])) ==>
          |RowOf(ySlices, bounds.top, yp)| == |row0|
      ensures var row := RowOf(ySlices, bounds.top, yp);
        && |row| > 0
        && bounds.left == Min(if old(|ySlices|) == 0 then sliceSet[0].xs else old(bounds.left), row[0].xs)
        && bounds.right == Max(if old(|ySlices|) == 0 then sliceSet[|sliceSet| - 1].xe else old(bounds.right), row[|row| - 1].xe)
    {
      GrowRows(yp, sliceSet);
      var rowIndex := yp - bounds.top;
      var destSet := UniteSlices(ySlices[rowIndex], sliceSet);
      ghost var beforeRow := ySlices;
      ySlices := ySlices[rowIndex := destSet];
      forall y | y != yp
        ensures RowOf(ySlices, bounds.top, y) == RowOf(beforeRow, bounds.top, y)
      {
        if bounds.top <= y < bounds.top + |ySlices| {
          assert ySlices[y - bounds.top] == beforeRow[y - bounds.top];
        }
      }
      assert RowOf(ySlices, bounds.top, yp) == destSet;
      if destSet[0].xs < bounds.left {
        bounds := bounds.(left := destSet[0].xs);
      }
      if destSet[|destSet| - 1].xe > bounds.right {
        bounds := bounds.(right := destSet[|destSet| - 1].xe);
      }
    }

    /** Adds the rectangle line by line: afterwards each line also covers the rectangle's span. */
    method UniteRect(rect: Rect)
      requires Valid() && RowPerLine()
      modifies this
      ensures Valid() && RowPerLine()
      ensures regionSize == old(regionSize) && regionId == old(regionId)
      ensures forall y, x :: (InSlices(x, RowOf(ySlices, bounds.top, y))
        <==> InSlices(x, RowOf(old(ySlices), old(bounds.top), y)) || rect.Contains(Point(x, y)))
    {
      var yp := rect.top;
      while yp < rect.bottom
        invariant Valid() && RowPerLine()
        invariant regionSize == old(regionSize) && regionId == old(regionId)
        invariant yp == rect.top || rect.top < yp <= rect.bottom
        invariant forall y, x :: (InSlices(x, RowOf(ySlices, bounds.top, y))
          <==> InSlices(x, RowOf(old(ySlices), old(bounds.top), y)) || (rect.top <= y < yp && rect.left <= x < rect.right))
      {
        var sliceSet := [LineSlice(rect.left, rect.right)];
        ghost var rows, top := ySlices, bounds.top;
        UniteLine(yp, sliceSet);
        forall y, x
          ensures InSlices(x, RowOf(ySlices, bounds.top, y))
            <==> InSlices(x, RowOf(rows, top, y)) || (y == yp && rect.left <= x < rect.right)
        {
          HeadOrRest(x, sliceSet[0], []);
          assert [sliceSet[0]] + [] == sliceSet;
          assert !InSlices(x, []);
        }
        yp := yp + 1;
      }
    }
  }
}
