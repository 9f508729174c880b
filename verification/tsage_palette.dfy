/**
 * The tsage scene palette: 256 packed colour entries, the palette resource
 * decoder, the nearest-colour search, the fade arithmetic, and the
 * palette-rotation modifier with its delay and duration countdowns.
 * The calls that hand colours to the screen are not modelled; the model
 * computes the entries and indices that would be handed over.
 */
module Palette {
  import opened CMath
  import opened Wrappers

  type Byte = x: int | 0 <= x < 256

  const PaletteSize := 256

  /**
   * A palette entry as the engine stores it: red in the low byte, green in
   * the next, blue in the third. The three fields do not overlap, so the
   * engine's `r | (g << 8) | (b << 16)` is this sum.
   */
  function Pack(r: Byte, g: Byte, b: Byte): (v: nat)
    ensures v < 0x100_0000
  {
    r + g * 0x100 + b * 0x1_0000
  }

  function Red(v: nat): Byte { v % 0x100 }
  function Green(v: nat): Byte { (v / 0x100) % 0x100 }
  function Blue(v: nat): Byte { (v / 0x1_0000) % 0x100 }

  /** The channels read back from a packed entry are the ones packed. */
  lemma {:induction false} UnpackPack(r: Byte, g: Byte, b: Byte)
    ensures Red(Pack(r, g, b)) == r
    ensures Green(Pack(r, g, b)) == g
    ensures Blue(Pack(r, g, b)) == b
  {
    var v := Pack(r, g, b);
    DivUnique(v, 0x100, g + b * 0x100, r);
    DivUnique(g + b * 0x100, 0x100, b, g);
    DivUnique(v, 0x1_0000, b, r + g * 0x100);
    DivUnique(b, 0x100, 0, b);
  }

  /** Every 24-bit entry is the packing of its own channels. */
  lemma {:induction false} PackUnpack(v: nat)
    requires v < 0x100_0000
    ensures Pack(Red(v), Green(v), Blue(v)) == v
  {
    var q := v / 0x100;
    assert v == q * 0x100 + Red(v);
    assert q == (q / 0x100) * 0x100 + Green(v);
    DivUnique(v, 0x1_0000, q / 0x100, Red(v) + Green(v) * 0x100);
    assert q / 0x100 < 0x100;
    DivUnique(q / 0x100, 0x100, 0, q / 0x100);
  }

  /** The default gradient: entry i is the grey (i, i, i). */
  function Grey(i: Byte): (v: nat)
    ensures Red(v) == i && Green(v) == i && Blue(v) == i
  {
    UnpackPack(i, i, i);
    Pack(i, i, i)
  }

  /** A little-endian 16-bit word. */
  function LE16(lo: Byte, hi: Byte): (w: nat)
    ensures w < 0x1_0000
    ensures w % 0x100 == lo && w / 0x100 == hi
  {
    DivUnique(lo + hi * 0x100, 0x100, hi, lo);
    lo + hi * 0x100
  }

  /** Offset of the first colour triple in a palette resource. */
  const HeaderSize := 6

  /** What a palette resource claims: the first entry and the number of entries. */
  function PalStart(data: seq<Byte>): nat
    requires |data| >= 4
  {
    LE16(data[0], data[1])
  }

  function PalSize(data: seq<Byte>): nat
    requires |data| >= 4
  {
    LE16(data[2], data[3])
  }

  /** The entries encoded by `count` RGB triples after the header. */
  function DecodeEntries(data: seq<Byte>, count: nat): (entries: seq<nat>)
    requires count == 0 || |data| >= HeaderSize + 3 * count
    ensures |entries| == count
  {
    seq(count, i requires 0 <= i < count =>
      Pack(data[HeaderSize + 3 * i], data[HeaderSize + 3 * i + 1], data[HeaderSize + 3 * i + 2]))
  }

  /** Decoded entry i carries the i-th triple of the resource. */
  lemma DecodeReadsTriple(data: seq<Byte>, count: nat, i: nat)
    requires |data| >= HeaderSize + 3 * count && i < count
    ensures Red(DecodeEntries(data, count)[i]) == data[HeaderSize + 3 * i]
    ensures Green(DecodeEntries(data, count)[i]) == data[HeaderSize + 3 * i + 1]
    ensures Blue(DecodeEntries(data, count)[i]) == data[HeaderSize + 3 * i + 2]
  {
    var k := HeaderSize + 3 * i;
    assert k + 2 < |data| by {
      assert 3 * i + 3 <= 3 * count;
    }
    assert DecodeEntries(data, count)[i] == Pack(data[k], data[k + 1], data[k + 2]);
    UnpackPack(data[k], data[k + 1], data[k + 2]);
  }

  /**
   * A resource the decoder cannot read within bounds: shorter than its
   * header, shorter than its triples, or naming entries past the 256 of
   * the table. The size check comes first, so an over-large size is not an
   * overrun but an aborted load.
   */
  predicate Overruns(data: seq<Byte>) {
    || |data| < 4
    || (&& PalSize(data) <= PaletteSize
        && (|| PalStart(data) + PalSize(data) > PaletteSize
            || (PalSize(data) > 0 && |data| < HeaderSize + 3 * PalSize(data))))
  }

  /** The table entries the decoding loop writes, as written, in the order it writes them. */
  function SourceWrites(data: seq<Byte>): (written: seq<int>)
    requires |data| >= 4 && PalSize(data) <= PaletteSize
    ensures |written| == PalSize(data)
    ensures forall k :: 0 <= k < |written| ==> written[k] == PalStart(data) + k
  {
    seq(PalSize(data), k => PalStart(data) + k)
  }

  /**
   * A resource whose two entries start at entry 255: the loop as written
   * stores the second at entry 256, one past the table; the model reports
   * an overrun instead.
   */
  lemma LoadWritesPastTable()
    ensures var data: seq<Byte> := [0xFF, 0, 2, 0, 0, 0, 1, 2, 3, 4, 5, 6];
      && PalSize(data) <= PaletteSize
      && SourceWrites(data)[1] == PaletteSize
      && Overruns(data)
  {
    var data: seq<Byte> := [0xFF, 0, 2, 0, 0, 0, 1, 2, 3, 4, 5, 6];
    assert PalStart(data) == 255 && PalSize(data) == 2;
  }

  datatype LoadOutcome =
    | Missing   // no such resource: `loadPalette` returns false
    | Loaded    // entries replaced: returns true
    | Aborted   // more than 256 entries: the source's assertion fails
    | Overrun   // the source would read past the resource or write past the table

  /** Squared RGB distance between entry v and the colour (r, g, b). */
  function Distance(v: nat, r: int, g: int, b: int): (d: nat)
    ensures d == 0 <==> Red(v) == r && Green(v) == g && Blue(v) == b
  {
    Abs(Red(v) - r) * Abs(Red(v) - r) + Abs(Green(v) - g) * Abs(Green(v) - g)
      + Abs(Blue(v) - b) * Abs(Blue(v) - b)
  }

  /** `CLIP(percent, 0, 100)`. */
  function ClipPercent(percent: int): (p: int)
    ensures 0 <= p <= 100
    ensures 0 <= percent <= 100 ==> p == percent
  {
    if percent < 0 then 0 else if percent > 100 then 100 else percent
  }

  /**
   * One faded channel, `src - ((src - adjust) * (100 - percent)) / 100` with
   * the C++ truncating division: it lies between the two colours, so it
   * always fits a byte; 100% keeps the source and 0% gives the target.
   */
  function FadeChannel(src: Byte, adjust: Byte, percent: int): (c: Byte)
    requires 0 <= percent <= 100
    ensures Min(src, adjust) <= c <= Max(src, adjust)
    ensures percent == 100 ==> c == src
    ensures percent == 0 ==> c == adjust
  {
    FadeBetween(src - adjust, 100 - percent);
    src - CDiv((src - adjust) * (100 - percent), 100)
  }

  lemma {:induction false} FadeBetween(d: int, m: int)
    requires 0 <= m <= 100
    ensures var q := CDiv(d * m, 100);
      && (d >= 0 ==> 0 <= q <= d)
      && (d < 0 ==> d <= q <= 0)
      && (m == 100 ==> q == d)
  {
    if d >= 0 {
      ScaleDown(d, m);
      assert CDiv(d * m, 100) == (d * m) / 100;
    } else {
      ScaleDown(-d, m);
      assert d * m == -((-d) * m);
      assert CDiv(d * m, 100) == -(((-d) * m) / 100);
    }
  }

  /** A percentage of a non-negative amount, rounded down, stays within it. */
  lemma {:induction false} ScaleDown(e: nat, m: int)
    requires 0 <= m <= 100
    ensures 0 <= (e * m) / 100 <= e
    ensures m == 100 ==> (e * m) / 100 == e
  {
    var p := e * m;
    assert 0 <= p <= e * 100 by {
      MulSub(100, m, e);
    }
    DivBounds(p, 100);
    if m == 100 {
      DivUnique(p, 100, e, 0);
    }
  }

  /** Which byte of the adjustment data channel k of entry i is faded toward. */
  function AdjustIndex(i: nat, k: nat, fullAdjust: bool): nat {
    if fullAdjust then 3 * i + k else k
  }

  predicate AdjustDataFits(adjustData: seq<Byte>, fullAdjust: bool) {
    |adjustData| >= (if fullAdjust then 3 * PaletteSize else 3)
  }

  /** Entry v faded toward the target colour of entry i. */
  function FadeEntry(v: nat, i: nat, adjustData: seq<Byte>, fullAdjust: bool, percent: int): nat
    requires i < PaletteSize && AdjustDataFits(adjustData, fullAdjust) && 0 <= percent <= 100
  {
    Pack(FadeChannel(Red(v), adjustData[AdjustIndex(i, 0, fullAdjust)], percent),
         FadeChannel(Green(v), adjustData[AdjustIndex(i, 1, fullAdjust)], percent),
         FadeChannel(Blue(v), adjustData[AdjustIndex(i, 2, fullAdjust)], percent))
  }

  /** At 100% an entry is kept as it is; at 0% it takes the target colour. */
  lemma FadeEndpoints(v: nat, i: nat, adjustData: seq<Byte>, fullAdjust: bool, p: int)
    requires i < PaletteSize && AdjustDataFits(adjustData, fullAdjust) && 0 <= p <= 100
    ensures p == 100 && v < 0x100_0000 ==> FadeEntry(v, i, adjustData, fullAdjust, p) == v
    ensures p == 0 ==> forall k :: 0 <= k < 3 ==>
      Channel(FadeEntry(v, i, adjustData, fullAdjust, p), k) == adjustData[AdjustIndex(i, k, fullAdjust)]
  {
    UnpackPack(FadeChannel(Red(v), adjustData[AdjustIndex(i, 0, fullAdjust)], p),
               FadeChannel(Green(v), adjustData[AdjustIndex(i, 1, fullAdjust)], p),
               FadeChannel(Blue(v), adjustData[AdjustIndex(i, 2, fullAdjust)], p));
    if p == 100 && v < 0x100_0000 {
      PackUnpack(v);
    }
  }

  /** The colour state of one rotation step: index, mode, countdown, and whether it was removed. */
  datatype Rotation = Rotation(index: int, mode: int, duration: int, removed: bool)

  /**
   * `decDuration`: a zero duration never runs out; otherwise it counts down
   * and the rotation is removed when it reaches zero. Returns the new
   * duration and whether the rotation carries on.
   */
  function DecDuration(duration: int): (r: (int, bool))
    ensures duration == 0 ==> r == (0, true)
    ensures duration != 0 ==> r.0 == duration - 1 && (r.1 <==> duration != 1)
  {
    if duration != 0 then (duration - 1, duration - 1 != 0) else (duration, true)
  }

  /** The rotation modes. */
  const ModeDown := -1
  const ModeCycle := 1
  const ModePingUp := 2
  const ModePingDown := 3

  /** One step of the rotation index once the delay has expired (the `switch` of `signal`). */
  function Rotate(rot: Rotation, start: int, end: int): (r: Rotation)
    requires !rot.removed
  {
    match rot.mode
    case -1 =>
      if rot.index - 1 < start then
        var (d, keep) := DecDuration(rot.duration);
        Rotation(if keep then end - 1 else rot.index - 1, rot.mode, d, !keep)
      else Rotation(rot.index - 1, rot.mode, rot.duration, false)
    case 1 =>
      if rot.index + 1 >= end then
        var (d, keep) := DecDuration(rot.duration);
        Rotation(if keep then start else rot.index + 1, rot.mode, d, !keep)
      else Rotation(rot.index + 1, rot.mode, rot.duration, false)
    case 2 =>
      if rot.index + 1 >= end then
        var (d, keep) := DecDuration(rot.duration);
        if keep then Rotation(end - 2, ModePingDown, d, false) else Rotation(rot.index + 1, rot.mode, d, true)
      else Rotation(rot.index + 1, rot.mode, rot.duration, false)
    case 3 =>
      if rot.index - 1 < start then
        var (d, keep) := DecDuration(rot.duration);
        if keep then Rotation(start + 1, ModePingUp, d, false) else Rotation(rot.index - 1, rot.mode, d, true)
      else Rotation(rot.index - 1, rot.mode, rot.duration, false)
    case _ => rot
  }

  /**
   * The range a live rotation keeps its index in: one entry at least, two
   * for the ping-pong modes, and the index within [start, end].
   */
  predicate InRange(rot: Rotation, start: int, end: int) {
    && start < end
    && start <= rot.index <= end
    && (rot.mode == ModePingUp || rot.mode == ModePingDown ==> end - start >= 2)
  }

  /**
   * A step of a live rotation stays in range and, unless it removed the
   * rotation, leaves the index on an entry of the range, so that the
   * palette slice it hands over is never empty.
   */
  lemma StepStaysInRange(rot: Rotation, start: int, end: int)
    requires !rot.removed && InRange(rot, start, end)
    requires rot.mode != ModeDown && rot.mode != ModePingDown ==> rot.index < end
    ensures var r := Rotate(rot, start, end);
      !r.removed ==> InRange(r, start, end) && start <= r.index < end
  {
  }

  /** A zero duration is unlimited: no step ever removes the rotation. */
  lemma UnlimitedNeverRemoved(rot: Rotation, start: int, end: int)
    requires !rot.removed && rot.duration == 0
    ensures !Rotate(rot, start, end).removed && Rotate(rot, start, end).duration == 0
  {
  }

  /**
   * A positive duration counts the wraps: each wrap lowers it by one and the
   * wrap that brings it to zero removes the rotation; other steps leave it.
   */
  lemma DurationCountsWraps(rot: Rotation, start: int, end: int)
    requires !rot.removed && rot.duration > 0
    requires rot.mode in {ModeDown, ModeCycle, ModePingUp, ModePingDown}
    ensures var r := Rotate(rot, start, end);
      var wrapped := if rot.mode == ModeCycle || rot.mode == ModePingUp then rot.index + 1 >= end
                     else rot.index - 1 < start;
      && (wrapped ==> r.duration == rot.duration - 1 && (r.removed <==> rot.duration == 1))
      && (!wrapped ==> r.duration == rot.duration && !r.removed)
  {
  }

  /** The ping-pong modes turn round at either end of the range. */
  lemma PingPongTurns(rot: Rotation, start: int, end: int)
    requires !rot.removed && rot.duration == 0
    ensures rot.mode == ModePingUp && rot.index == end - 1 ==>
      Rotate(rot, start, end) == Rotation(end - 2, ModePingDown, 0, false)
    ensures rot.mode == ModePingDown && rot.index == start ==>
      Rotate(rot, start, end) == Rotation(start + 1, ModePingUp, 0, false)
  {
  }

  /** n steps of an unlimited rotation. */
  function RotateN(rot: Rotation, start: int, end: int, n: nat): (r: Rotation)
    requires !rot.removed && rot.duration == 0
    ensures !r.removed && r.duration == 0
    decreases n
  {
    if n == 0 then rot
    else
      UnlimitedNeverRemoved(rot, start, end);
      RotateN(Rotate(rot, start, end), start, end, n - 1)
  }

  /** An unlimited cycling rotation visits the range in order and wraps round. */
  lemma {:induction false} CycleVisitsInOrder(rot: Rotation, start: int, end: int, n: nat)
    requires !rot.removed && rot.duration == 0 && rot.mode == ModeCycle
    requires start <= rot.index < end
    ensures RotateN(rot, start, end, n).index == start + (rot.index - start + n) % (end - start)
    ensures RotateN(rot, start, end, n).mode == ModeCycle
    decreases n
  {
    var len, x := end - start, rot.index - start;
    if n == 0 {
      DivUnique(x, len, 0, x);
    } else {
      var next := Rotate(rot, start, end);
      CycleStep(rot, start, end);
      CycleVisitsInOrder(next, start, end, n - 1);
      var later := RotateN(next, start, end, n - 1);
      assert RotateN(rot, start, end, n) == later;
      assert later.index - start == ((x + 1) % len + (n - 1)) % len;
      ModShift(x, 1, n, len);
    }
  }

  lemma CycleStep(rot: Rotation, start: int, end: int)
    requires !rot.removed && rot.duration == 0 && rot.mode == ModeCycle
    requires start <= rot.index < end
    ensures var next := Rotate(rot, start, end);
      && next == Rotation(next.index, ModeCycle, 0, false)
      && next.index - start == (rot.index - start + 1) % (end - start)
  {
    var len, x := end - start, rot.index - start;
    if x + 1 < len {
      DivUnique(x + 1, len, 0, x + 1);
    } else {
      DivUnique(x + 1, len, 1, 0);
    }
  }

  /** An unlimited downward rotation visits the range in reverse and wraps round. */
  lemma {:induction false} DownVisitsInReverse(rot: Rotation, start: int, end: int, n: nat)
    requires !rot.removed && rot.duration == 0 && rot.mode == ModeDown
    requires start <= rot.index < end
    ensures RotateN(rot, start, end, n).index == start + (rot.index - start - n) % (end - start)
    ensures RotateN(rot, start, end, n).mode == ModeDown
    decreases n
  {
    var len, x := end - start, rot.index - start;
    if n == 0 {
      DivUnique(x, len, 0, x);
    } else {
      var next := Rotate(rot, start, end);
      DownStep(rot, start, end);
      DownVisitsInReverse(next, start, end, n - 1);
      ModShift(x, -1, 0 - n, len);
      assert RotateN(rot, start, end, n) == RotateN(next, start, end, n - 1);
    }
  }

  lemma DownStep(rot: Rotation, start: int, end: int)
    requires !rot.removed && rot.duration == 0 && rot.mode == ModeDown
    requires start <= rot.index < end
    ensures var next := Rotate(rot, start, end);
      && next == Rotation(next.index, ModeDown, 0, false)
      && next.index - start == (rot.index - start - 1) % (end - start)
  {
    var len, x := end - start, rot.index - start;
    if x - 1 >= 0 {
      DivUnique(x - 1, len, 0, x - 1);
    } else {
      DivUnique(x - 1, len, -1, len - 1);
    }
  }

  /** The delay countdown once the clock reads `now`: it only runs while the clock moves forward. */
  function CountDown(delayCtr: int, lastFrame: int, now: int): (r: (int, int))
    ensures delayCtr == 0 ==> r == (0, lastFrame)
    ensures delayCtr > 0 ==> 0 <= r.0 <= delayCtr
    ensures delayCtr > 0 && now >= lastFrame ==>
      r.1 == now && (r.0 == 0 <==> now - lastFrame >= delayCtr)
  {
    if delayCtr != 0 && now >= lastFrame then (Max(0, delayCtr - (now - lastFrame)), now)
    else (delayCtr, lastFrame)
  }

  /** One `setPalette(&_palette[from], dest, count)` call: `count` saved entries from `from` on go to screen entries from `dest` on. */
  datatype PaletteCall = PaletteCall(from: int, dest: int, count: int)

  /**
   * The two calls at the end of `signal` as written: the tail of the range
   * from the current index goes to `start`, and then the head of the range,
   * when not empty, goes to `start` as well.
   */
  function SignalCallsAsWritten(start: int, end: int, curr: int): seq<PaletteCall>
  {
    [PaletteCall(curr, start, end - curr)] + (if curr != start then [PaletteCall(start, start, curr - start)] else [])
  }

  /**
   * The calls that show the range rotated to begin at the current index:
   * the head of the range goes after the tail, at `start + (end - curr)`.
   */
  function SignalCalls(start: int, end: int, curr: int): seq<PaletteCall>
  {
    [PaletteCall(curr, start, end - curr)] + (if curr != start then [PaletteCall(start, start + (end - curr), curr - start)] else [])
  }

  /** The saved entry screen entry d shows after the calls: the last call that covers d decides; None when none does. */
  function Shown(calls: seq<PaletteCall>, pal: seq<nat>, d: int): Option<nat>
    decreases |calls|
  {
    if |calls| == 0 then None
    else
      var c := calls[|calls| - 1];
      if c.dest <= d < c.dest + c.count then
        if 0 <= c.from + (d - c.dest) < |pal| then Some(pal[c.from + (d - c.dest)]) else None
      else Shown(calls[..|calls| - 1], pal, d)
  }

  /** The corrected calls show every entry of the range rotated by the current index. */
  lemma SignalShowsRotation(start: int, end: int, curr: int, pal: seq<nat>, j: int)
    requires 0 <= start <= curr < end <= |pal| && 0 <= j < end - start
    ensures Shown(SignalCalls(start, end, curr), pal, start + j) == Some(pal[start + (curr - start + j) % (end - start)])
  {
    var calls := SignalCalls(start, end, curr);
    var n := end - start;
    if j < end - curr {
      DivUnique(curr - start + j, n, 0, curr - start + j);
      if curr != start {
        assert calls[..1] == [calls[0]];
      }
    } else {
      DivUnique(curr - start + j, n, 1, curr - start + j - n);
    }
  }

  /**
   * With the range 0..3 at index 1, the calls as written leave screen
   * entry 0 with saved entry 0 instead of 1, and never set entry 3; the
   * corrected calls show 1, 2, 3, 0.
   */
  lemma SignalOverwritesHead()
    ensures var pal: seq<nat> := [10, 11, 12, 13];
      && Shown(SignalCallsAsWritten(0, 4, 1), pal, 0) == Some(10)
      && Shown(SignalCallsAsWritten(0, 4, 1), pal, 3) == None
      && Shown(SignalCalls(0, 4, 1), pal, 0) == Some(11)
      && Shown(SignalCalls(0, 4, 1), pal, 3) == Some(10)
  {
    var pal: seq<nat> := [10, 11, 12, 13];
    var w := SignalCallsAsWritten(0, 4, 1);
    assert w == [PaletteCall(1, 0, 3), PaletteCall(0, 0, 1)];
    assert w[..1] == [PaletteCall(1, 0, 3)];
    assert [PaletteCall(1, 0, 3)][..0] == [];
    var c := SignalCalls(0, 4, 1);
    assert c == [PaletteCall(1, 0, 3), PaletteCall(0, 3, 1)];
    assert c[..1] == [PaletteCall(1, 0, 3)];
  }

  /**
   * The call `remove` makes to put the range back as saved, as written:
   * the saved entries from 0 on go to the range.
   */
  function RestoreCallAsWritten(start: int, end: int): PaletteCall {
    PaletteCall(0, start, end - start)
  }

  /** The restoring call that puts each entry of the range back from the same saved entry. */
  function RestoreCall(start: int, end: int): PaletteCall {
    PaletteCall(start, start, end - start)
  }

  /** After the corrected restoring call, every entry of the range shows its own saved colour. */
  lemma RestoreShowsSaved(start: int, end: int, pal: seq<nat>, j: int)
    requires 0 <= start <= end <= |pal| && 0 <= j < end - start
    ensures Shown([RestoreCall(start, end)], pal, start + j) == Some(pal[start + j])
  {
  }

  /**
   * With the range 2..3, the restoring call as written shows saved entries
   * 0 and 1 there; the corrected call shows 2 and 3.
   */
  lemma RestoreShowsLowEntries()
    ensures var pal: seq<nat> := [10, 11, 12, 13];
      && Shown([RestoreCallAsWritten(2, 4)], pal, 2) == Some(10)
      && Shown([RestoreCallAsWritten(2, 4)], pal, 3) == Some(11)
      && Shown([RestoreCall(2, 4)], pal, 2) == Some(12)
      && Shown([RestoreCall(2, 4)], pal, 3) == Some(13)
  {
  }

  /** `PaletteRotation`: a modifier that rotates a range of a saved copy of the palette. */
  class PaletteRotation {
    var currIndex: int
    var start: int
    var end: int
    var rotationMode: int
    var duration: int
    var delayFrames: int
    var delayCtr: int
    var frameNumber: int
    var disabled: bool
    var removed: bool
    var saved: seq<nat>
    /** Whether an action waits for the rotation to run out (`_action` set). */
    var hasAction: bool

    function State(): Rotation
      reads this
    {
      Rotation(currIndex, rotationMode, duration, removed)
    }

    /** A fresh modifier: enabled, no delay, the clock read now. */
    constructor (now: int)
      ensures !disabled && !removed && delayFrames == 0 && delayCtr == 0 && frameNumber == now
    {
      disabled := false;
      removed := false;
      delayFrames := 0;
      delayCtr := 0;
      frameNumber := now;
    }

    /**
     * `set`: copies the palette, stores the range with an exclusive end and
     * starts the downward modes past the end, the others at the start.
     */
    method Set(palette: seq<nat>, startIndex: int, endIndex: int, mode: int, dur: int, action: bool)
      modifies this
      ensures duration == dur && !disabled && saved == palette && hasAction == action
      ensures start == startIndex && end == endIndex + 1 && rotationMode == mode
      ensures currIndex == (if mode == ModeDown || mode == ModePingDown then end else start)
      ensures delayFrames == old(delayFrames) && delayCtr == old(delayCtr)
      ensures frameNumber == old(frameNumber) && removed == old(removed)
      ensures startIndex <= endIndex && (mode == ModePingUp || mode == ModePingDown ==> startIndex < endIndex) ==>
        InRange(State(), start, end)
    {
      duration := dur;
      disabled := false;
      hasAction := action;
      saved := palette;
      start := startIndex;
      end := endIndex + 1;
      rotationMode := mode;
      if mode == ModeDown || mode == ModePingDown {
        currIndex := end;
      } else {
        currIndex := start;
      }
    }

    /** `setDelay`: rotate every `amount` frames, starting with a full wait. */
    method SetDelay(amount: int)
      modifies this
      ensures delayFrames == amount && delayCtr == amount
      ensures State() == old(State()) && frameNumber == old(frameNumber)
      ensures start == old(start) && end == old(end) && disabled == old(disabled) && saved == old(saved)
      ensures hasAction == old(hasAction)
    {
      delayFrames := amount;
      delayCtr := amount;
    }

    /**
     * `decDuration`: counts down a limited duration and removes the rotation
     * when it reaches zero; what `remove` shows and signals is reported by
     * `Signal`.
     */
    method DecDurationStep() returns (keep: bool)
      requires !removed
      modifies this
      ensures (duration, keep) == DecDuration(old(duration))
      ensures removed == !keep
      ensures currIndex == old(currIndex) && rotationMode == old(rotationMode)
      ensures delayCtr == old(delayCtr) && frameNumber == old(frameNumber) && delayFrames == old(delayFrames)
      ensures start == old(start) && end == old(end) && disabled == old(disabled) && saved == old(saved)
      ensures hasAction == old(hasAction)
    {
      if duration != 0 {
        duration := duration - 1;
        if duration == 0 {
          removed := true;
          return false;
        }
      }
      return true;
    }

    /**
     * `signal`, with the clock reading `now`: runs the delay countdown and,
     * once it has expired and the modifier is enabled, steps the rotation.
     * `shown` tells whether the rotated range is handed to the screen, and
     * `calls` are the `setPalette` calls that do it, with the head of the
     * range placed after its tail. A rotation that runs out is removed:
     * its one call puts the range back as saved, and `signalled` tells
     * that the waiting action is signalled.
     */
    method Signal(now: int) returns (shown: bool, calls: seq<PaletteCall>, signalled: bool)
      requires !removed
      modifies this
      ensures var (ctr, frame) := CountDown(old(delayCtr), old(frameNumber), now);
        && frameNumber == frame
        && (ctr != 0 ==> delayCtr == ctr && State() == old(State()) && !shown)
        && (ctr == 0 ==> delayCtr == delayFrames)
        && (ctr == 0 && disabled ==> State() == old(State()) && !shown)
        && (ctr == 0 && !disabled ==> State() == Rotate(old(State()), start, end) && shown == !removed)
      ensures start == old(start) && end == old(end) && delayFrames == old(delayFrames)
      ensures disabled == old(disabled) && saved == old(saved)
      ensures hasAction == old(hasAction)
      ensures calls == if shown then SignalCalls(start, end, currIndex) else if removed then [RestoreCall(start, end)] else []
      ensures signalled == (removed && hasAction)
    {
      calls, signalled := [], false;
      if delayCtr != 0 {
        if now >= frameNumber {
          delayCtr := delayCtr - (now - frameNumber);
          frameNumber := now;
          if delayCtr < 0 {
            delayCtr := 0;
          }
        }
      }
      if delayCtr != 0 {
        return false, [], false;
      }
      delayCtr := delayFrames;
      if disabled {
        return false, [], false;
      }
      shown := RotateStep();
      if shown {
        calls := SignalCalls(start, end, currIndex);
      } else {
        calls, signalled := [RestoreCall(start, end)], hasAction;
      }
    }

    /** The rotation half of `signal`: the index moves one step in the current mode. */
    method RotateStep() returns (flag: bool)
      requires !removed
      modifies this
      ensures State() == Rotate(old(State()), start, end) && flag == !removed
      ensures start == old(start) && end == old(end) && delayFrames == old(delayFrames)
      ensures disabled == old(disabled) && saved == old(saved) && hasAction == old(hasAction)
      ensures delayCtr == old(delayCtr) && frameNumber == old(frameNumber)
    {
      flag := true;
      if rotationMode == ModeDown {
        currIndex := currIndex - 1;
        if currIndex < start {
          flag := DecDurationStep();
          if flag {
            currIndex := end - 1;
          }
        }
      } else if rotationMode == ModeCycle {
        currIndex := currIndex + 1;
        if currIndex >= end {
          flag := DecDurationStep();
          if flag {
            currIndex := start;
          }
        }
      } else if rotationMode == ModePingUp {
        currIndex := currIndex + 1;
        if currIndex >= end {
          flag := DecDurationStep();
          if flag {
            currIndex := end - 2;
            rotationMode := ModePingDown;
          }
        }
      } else if rotationMode == ModePingDown {
        currIndex := currIndex - 1;
        if currIndex < start {
          flag := DecDurationStep();
          if flag {
            currIndex := start + 1;
            rotationMode := ModePingUp;
          }
        }
      }
      return flag;
    }
  }

  /** `ScenePalette`: the 256 packed entries and the modifiers listening to it. */
  class ScenePalette {
    var entries: array<nat>
    var listeners: seq<PaletteRotation>

    ghost predicate Valid()
      reads this
    {
      entries.Length == PaletteSize
    }

    /** The default palette is the grey gradient, entry i being (i, i, i). */
    constructor ()
      ensures Valid() && fresh(entries) && listeners == []
      ensures forall i :: 0 <= i < PaletteSize ==> entries[i] == Grey(i)
    {
      var grey := new nat[PaletteSize];
      var idx := 0;
      while idx < PaletteSize
        invariant 0 <= idx <= PaletteSize
        invariant forall i :: 0 <= i < idx ==> grey[i] == Grey(i)
      {
        grey[idx] := Grey(idx);
        idx := idx + 1;
      }
      entries := grey;
      listeners := [];
    }

    /**
     * `loadPalette`: a resource holds the first entry, the entry count and,
     * from offset 6, one RGB triple per entry; the entries it names are
     * replaced and the rest kept. A resource the loop would read or write
     * out of bounds is reported as an overrun and changes nothing.
     */
    method LoadPalette(data: Option<seq<Byte>>) returns (outcome: LoadOutcome)
      requires Valid()
      modifies entries
      ensures data.None? <==> outcome == Missing
      ensures outcome == Overrun <==> data.Some? && Overruns(data.value)
      ensures outcome == Aborted <==> data.Some? && |data.value| >= 4 && PalSize(data.value) > PaletteSize
      ensures outcome != Loaded ==> entries[..] == old(entries[..])
      ensures outcome == Loaded ==>
        var first, count := PalStart(data.value), PalSize(data.value);
        entries[..] == old(entries[..first]) + DecodeEntries(data.value, count) + old(entries[first + count..])
    {
      if data.None? {
        return Missing;
      }
      var bytes := data.value;
      if |bytes| < 4 {
        return Overrun;
      }
      var palStart := LE16(bytes[0], bytes[1]);
      var palSize := LE16(bytes[2], bytes[3]);
      if palSize > PaletteSize {
        return Aborted;
      }
      if palStart + palSize > PaletteSize || (palSize > 0 && |bytes| < HeaderSize + 3 * palSize) {
        return Overrun;
      }
      ghost var decoded := DecodeEntries(bytes, palSize);
      ghost var expected := old(entries[..palStart]) + decoded + old(entries[palStart + palSize..]);
      var i := 0;
      while i < palSize
        invariant 0 <= i <= palSize
        invariant forall k :: 0 <= k < palStart ==> entries[k] == old(entries[k])
        invariant forall k :: 0 <= k < i ==> entries[palStart + k] == decoded[k]
        invariant forall k :: palStart + i <= k < PaletteSize ==> entries[k] == old(entries[k])
      {
        entries[palStart + i] := Pack(bytes[HeaderSize + 3 * i], bytes[HeaderSize + 3 * i + 1], bytes[HeaderSize + 3 * i + 2]);
        assert entries[palStart + i] == decoded[i];
        i := i + 1;
      }
      assert |expected| == PaletteSize;
      forall k | 0 <= k < PaletteSize
        ensures entries[k] == expected[k]
      {
        if k < palStart {
        } else if k < palStart + palSize {
          assert expected[k] == decoded[k - palStart];
        } else {
          assert expected[k] == old(entries[k]);
        }
      }
      assert entries[..] == expected;
      return Loaded;
    }

    /**
     * `indexOf`: the entry nearest (r, g, b) by squared RGB distance among
     * those no farther than `threshold`, the last of equals; 255 (the -1 the
     * search starts from, as a byte) when none qualifies.
     */
    method IndexOf(r: nat, g: nat, b: nat, threshold: int) returns (index: Byte)
      requires Valid()
      ensures (forall i :: 0 <= i < PaletteSize ==> Distance(entries[i], r, g, b) > threshold) ==> index == 255
      ensures (exists i :: 0 <= i < PaletteSize && Distance(entries[i], r, g, b) <= threshold) ==>
        && Distance(entries[index], r, g, b) <= threshold
        && (forall i :: 0 <= i < PaletteSize ==> Distance(entries[i], r, g, b) >= Distance(entries[index], r, g, b))
        && (forall i :: index < i < PaletteSize ==> Distance(entries[i], r, g, b) > Distance(entries[index], r, g, b))
    {
      var palIndex := -1;
      var best := threshold;
      var i := 0;
      while i < PaletteSize
        invariant 0 <= i <= PaletteSize
        invariant -1 <= palIndex < i
        invariant palIndex == -1 ==>
          best == threshold && forall j :: 0 <= j < i ==> Distance(entries[j], r, g, b) > threshold
        invariant palIndex >= 0 ==>
          && best == Distance(entries[palIndex], r, g, b) <= threshold
          && (forall j :: 0 <= j < i ==> Distance(entries[j], r, g, b) >= best)
          && (forall j :: palIndex < j < i ==> Distance(entries[j], r, g, b) > best)
      {
        var d := Distance(entries[i], r, g, b);
        if d <= best {
          best := d;
          palIndex := i;
        }
        i := i + 1;
      }
      if palIndex == -1 {
        return 255;
      }
      return palIndex;
    }

    /**
     * `fade`: every entry moved from its colour toward the target colour by
     * the clipped percentage (100 keeps the palette, 0 gives the target);
     * the target is one colour, or one per entry when `fullAdjust` is set.
     */
    method Fade(adjustData: seq<Byte>, fullAdjust: bool, percent: int) returns (faded: seq<nat>)
      requires Valid() && AdjustDataFits(adjustData, fullAdjust)
      ensures |faded| == PaletteSize
      ensures forall i :: 0 <= i < PaletteSize ==>
        faded[i] == FadeEntry(entries[i], i, adjustData, fullAdjust, ClipPercent(percent))
      ensures ClipPercent(percent) == 100 ==>
        forall i :: 0 <= i < PaletteSize && entries[i] < 0x100_0000 ==> faded[i] == entries[i]
      ensures ClipPercent(percent) == 0 ==>
        forall i, k :: 0 <= i < PaletteSize && 0 <= k < 3 ==>
          Channel(faded[i], k) == adjustData[AdjustIndex(i, k, fullAdjust)]
    {
      var p := ClipPercent(percent);
      faded := [];
      var palIndex := 0;
      while palIndex < PaletteSize
        invariant 0 <= palIndex <= PaletteSize
        invariant |faded| == palIndex
        invariant forall i :: 0 <= i < palIndex ==> faded[i] == FadeEntry(entries[i], i, adjustData, fullAdjust, p)
      {
        var src := entries[palIndex];
        var base := if fullAdjust then 3 * palIndex else 0;
        var red := FadeChannel(Red(src), adjustData[base], p);
        var green := FadeChannel(Green(src), adjustData[base + 1], p);
        var blue := FadeChannel(Blue(src), adjustData[base + 2], p);
        assert base == AdjustIndex(palIndex, 0, fullAdjust);
        assert Pack(red, green, blue) == FadeEntry(src, palIndex, adjustData, fullAdjust, p);
        faded := faded + [Pack(red, green, blue)];
        palIndex := palIndex + 1;
      }
      forall i | 0 <= i < PaletteSize
        ensures p == 100 && entries[i] < 0x100_0000 ==> faded[i] == entries[i]
        ensures p == 0 ==> forall k :: 0 <= k < 3 ==> Channel(faded[i], k) == adjustData[AdjustIndex(i, k, fullAdjust)]
      {
        FadeEndpoints(entries[i], i, adjustData, fullAdjust, p);
      }
    }

    /**
     * `addRotation`: a new rotation over [start, end], its duration doubled
     * for the ping-pong modes (one count per sweep each way), added to the
     * listeners.
     */
    method AddRotation(startIndex: int, endIndex: int, mode: int, dur: int, now: int, action: bool) returns (rot: PaletteRotation)
      requires Valid()
      modifies this
      ensures fresh(rot) && listeners == old(listeners) + [rot]
      ensures entries == old(entries)
      ensures rot.duration == (if mode == ModePingUp || mode == ModePingDown then 2 * dur else dur)
      ensures rot.start == startIndex && rot.end == endIndex + 1 && rot.rotationMode == mode
      ensures rot.currIndex == (if mode == ModeDown || mode == ModePingDown then rot.end else rot.start)
      ensures rot.saved == entries[..] && !rot.disabled && !rot.removed && rot.hasAction == action
      ensures rot.delayFrames == 0 && rot.delayCtr == 0 && rot.frameNumber == now
    {
      rot := new PaletteRotation(now);
      var d := dur;
      if mode == ModePingUp || mode == ModePingDown {
        d := d * 2;
      }
      rot.Set(entries[..], startIndex, endIndex, mode, d, action);
      listeners := listeners + [rot];
    }
  }

  /** Channel k (0 red, 1 green, 2 blue) of a packed entry. */
  function Channel(v: nat, k: nat): Byte
    requires k < 3
  {
    if k == 0 then Red(v) else if k == 1 then Green(v) else Blue(v)
  }
}
