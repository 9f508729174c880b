/**
 * The text pager of the Eye of the Beholder / Lands of Lore text displayer
 * (`TextDisplayer_Eob`). Text is read one character ahead through a
 * three-slot control buffer, with `%d` and `%s` spliced in from the
 * arguments; control codes move the cursor or change colours; every other
 * character goes to the pending line, which `printLine` prints up to the
 * last space that fits and then shifts down to the front of its buffer.
 *
 * Font metrics, the window geometry and the "more" button reserve are a
 * `Layout`; the text the screen is asked to print is logged in `printed`.
 */
module EobText {
  import opened Decimal

  const Nul: char := '\0'
  const Space: char := ' '

  /** `_currentLine` holds 85 characters. */
  const LineCapacity := 85

  /** The contents of a C string: no NUL inside. */
  predicate CString(s: seq<char>) {
    Nul !in s
  }

  /** `strlen`: the number of characters before the first NUL. */
  function CLen(s: seq<char>): (n: nat)
    ensures n <= |s|
    ensures CString(s[..n])
    ensures n < |s| ==> s[n] == Nul
    ensures CString(s) ==> n == |s|
  {
    if |s| == 0 || s[0] == Nul then 0
    else
      var n := 1 + CLen(s[1..]);
      assert s[..n] == [s[0]] + s[1..][..n - 1];
      n
  }

  /** `tolower` on ASCII letters. */
  function ToLower(c: char): (l: char)
    ensures 'A' <= c <= 'Z' ==> l as int == c as int + 32
    ensures !('A' <= c <= 'Z') ==> l == c
  {
    if 'A' <= c <= 'Z' then (c as int + 32) as char else c
  }

  /** A decimal number never holds a NUL, so it can be spliced in as a C string. */
  lemma {:induction false} FormatIntIsCString(n: int)
    ensures CString(FormatInt(n))
  {
    var s := FormatInt(n);
    forall i | 0 <= i < |s|
      ensures s[i] != Nul
    {
      if i > 0 {
        assert s[i] == s[1..][i - 1];
      }
    }
  }

  // ---------------------------------------------------------------------
  // Widths of text

  /** `getTextWidth`: the sum of the glyph widths. */
  function TextWidth(glyph: char -> nat, s: seq<char>): nat {
    if s == [] then 0 else TextWidth(glyph, s[..|s| - 1]) + glyph(s[|s| - 1])
  }

  /** One more character adds its glyph's width. */
  lemma {:induction false} TextWidthStep(glyph: char -> nat, x: seq<char>, k: nat)
    requires k < |x|
    ensures TextWidth(glyph, x[..k + 1]) == TextWidth(glyph, x[..k]) + glyph(x[k])
  {
    assert x[..k + 1][..k] == x[..k];
  }

  /** A longer prefix is never narrower. */
  lemma {:induction false} TextWidthMonotone(glyph: char -> nat, x: seq<char>, i: nat, j: nat)
    requires i <= j <= |x|
    ensures TextWidth(glyph, x[..i]) <= TextWidth(glyph, x[..j])
    decreases j - i
  {
    if i < j {
      TextWidthStep(glyph, x, j - 1);
      TextWidthMonotone(glyph, x, i, j - 1);
    }
  }

  /** With every glyph at least m wide, n characters are at least n * m wide. */
  lemma {:induction false} TextWidthAtLeast(glyph: char -> nat, s: seq<char>, m: nat)
    requires forall c :: glyph(c) >= m
    ensures |s| * m <= TextWidth(glyph, s)
    decreases |s|
  {
    if s != [] {
      TextWidthAtLeast(glyph, s[..|s| - 1], m);
      assert |s| * m == (|s| - 1) * m + m;
    }
  }

  // ---------------------------------------------------------------------
  // Where a long line is cut

  /**
   * The last index k in [1, hi) where x holds a space and the k characters
   * before it fit in w pixels; 0 when there is none.
   */
  function LastSpaceFit(glyph: char -> nat, x: seq<char>, w: int, hi: nat): (k: nat)
    requires hi <= |x|
    ensures k == 0 || 1 <= k < hi
    ensures k > 0 ==> x[k] == Space
    decreases hi
  {
    if hi <= 1 then 0
    else if x[hi - 1] == Space && TextWidth(glyph, x[..hi - 1]) <= w then hi - 1
    else LastSpaceFit(glyph, x, w, hi - 1)
  }

  /** The prefix in front of the space found fits. */
  lemma {:induction false} LastSpaceFitFits(glyph: char -> nat, x: seq<char>, w: int, hi: nat)
    requires hi <= |x|
    ensures LastSpaceFit(glyph, x, w, hi) > 0 ==> TextWidth(glyph, x[..LastSpaceFit(glyph, x, w, hi)]) <= w
    decreases hi
  {
    if hi > 1 && !(x[hi - 1] == Space && TextWidth(glyph, x[..hi - 1]) <= w) {
      LastSpaceFitFits(glyph, x, w, hi - 1);
    }
  }

  /** No later space in [1, hi) has a prefix that fits. */
  lemma {:induction false} LastSpaceFitIsLast(glyph: char -> nat, x: seq<char>, w: int, hi: nat, j: nat)
    requires hi <= |x| && LastSpaceFit(glyph, x, w, hi) < j < hi
    ensures !(x[j] == Space && TextWidth(glyph, x[..j]) <= w)
    decreases hi
  {
    if j < hi - 1 {
      LastSpaceFitIsLast(glyph, x, w, hi - 1, j);
    }
  }

  /** The longest prefix length k in [1, hi) that fits in w pixels; 0 when there is none. */
  function LastFit(glyph: char -> nat, x: seq<char>, w: int, hi: nat): (k: nat)
    requires hi <= |x|
    ensures k == 0 || 1 <= k < hi
    decreases hi
  {
    if hi <= 1 then 0
    else if TextWidth(glyph, x[..hi - 1]) <= w then hi - 1
    else LastFit(glyph, x, w, hi - 1)
  }

  /** The prefix found fits. */
  lemma {:induction false} LastFitFits(glyph: char -> nat, x: seq<char>, w: int, hi: nat)
    requires hi <= |x|
    ensures LastFit(glyph, x, w, hi) > 0 ==> TextWidth(glyph, x[..LastFit(glyph, x, w, hi)]) <= w
    decreases hi
  {
    if hi > 1 && TextWidth(glyph, x[..hi - 1]) > w {
      LastFitFits(glyph, x, w, hi - 1);
    }
  }

  /** Every longer prefix in [1, hi) is too wide. */
  lemma {:induction false} LastFitIsLongest(glyph: char -> nat, x: seq<char>, w: int, hi: nat, j: nat)
    requires hi <= |x| && LastFit(glyph, x, w, hi) < j < hi
    ensures TextWidth(glyph, x[..j]) > w
    decreases hi
  {
    if j < hi - 1 {
      LastFitIsLongest(glyph, x, w, hi - 1, j);
    }
  }

  /** When the first character fits, the hard cut keeps at least one character. */
  lemma {:induction false} LastFitKeepsOne(glyph: char -> nat, x: seq<char>, w: int, hi: nat)
    requires 2 <= hi <= |x| && glyph(x[0]) <= w
    ensures LastFit(glyph, x, w, hi) >= 1
    decreases hi
  {
    if hi > 2 && TextWidth(glyph, x[..hi - 1]) > w {
      LastFitKeepsOne(glyph, x, w, hi - 1);
    } else {
      TextWidthStep(glyph, x, 0);
      assert x[..0] == [];
    }
  }

  // ---------------------------------------------------------------------
  // Spaces dropped at cuts

  /** The characters other than spaces, in order. */
  function NonSpace(s: seq<char>): seq<char> {
    if s == [] then [] else (if s[0] == Space then [] else [s[0]]) + NonSpace(s[1..])
  }

  lemma {:induction false} NonSpaceConcat(a: seq<char>, b: seq<char>)
    ensures NonSpace(a + b) == NonSpace(a) + NonSpace(b)
    decreases |a|
  {
    if a != [] {
      assert (a + b)[0] == a[0];
      assert (a + b)[1..] == a[1..] + b;
      var h := if a[0] == Space then [] else [a[0]];
      assert NonSpace(a + b) == h + NonSpace(a[1..] + b);
      NonSpaceConcat(a[1..], b);
      assert NonSpace(a) == h + NonSpace(a[1..]);
    } else {
      assert a + b == b;
    }
  }

  /**
   * Cutting x at s, dropping spaces from s up to t and keeping the rest
   * loses no character other than a space.
   */
  lemma {:induction false} NonSpaceCut(x: seq<char>, s: nat, t: nat)
    requires s <= t <= |x|
    requires forall i :: s <= i < t ==> x[i] == Space
    ensures NonSpace(x) == NonSpace(x[..s]) + NonSpace(x[t..])
  {
    var mid := x[s..t];
    assert x == x[..s] + (mid + x[t..]);
    NonSpaceConcat(x[..s], mid + x[t..]);
    NonSpaceConcat(mid, x[t..]);
    NoSpaceLeft(mid);
  }

  lemma {:induction false} NoSpaceLeft(s: seq<char>)
    requires forall i :: 0 <= i < |s| ==> s[i] == Space
    ensures NonSpace(s) == []
    decreases |s|
  {
    if s != [] {
      NoSpaceLeft(s[1..]);
    }
  }

  // ---------------------------------------------------------------------
  // Tab stops

  /**
   * Control code 9 on a cell index dv held in 16 bits: `((dv + 8) & 0xfff8) - 1`
   * stored back in 16 bits, written out with the mask as arithmetic. It is
   * the last cell of dv's group of eight, or all ones past the last group.
   */
  function TabCell(dv: int): (t: int)
    requires 0 <= dv < 0x1_0000
    ensures 0 <= t < 0x1_0000
    ensures dv < 0xfff8 ==> t == dv - dv % 8 + 7 && dv <= t < dv + 8
    ensures dv >= 0xfff8 ==> t == 0xffff
  {
    var masked := (dv + 8) % 0x1_0000 - (dv + 8) % 8;
    (masked - 1) % 0x1_0000
  }

  // ---------------------------------------------------------------------
  // The displayer

  /** One `_textDimData` entry: colours and the text cursor of a screen area. */
  datatype TextDim = TextDim(color1: int, color2: int, line: int, column: int)

  /** A `printText` call: the line and column the text starts at, and the text. */
  datatype Printed = Printed(column: int, line: int, text: seq<char>)

  /** The text of a run of `printText` calls. */
  function Texts(log: seq<Printed>): seq<char> {
    if log == [] then [] else log[0].text + Texts(log[1..])
  }

  lemma {:induction false} TextsConcat(a: seq<Printed>, b: seq<Printed>)
    ensures Texts(a + b) == Texts(a) + Texts(b)
    decreases |a|
  {
    if a != [] {
      assert (a + b)[0] == a[0];
      assert (a + b)[1..] == a[1..] + b;
      assert Texts(a + b) == a[0].text + Texts(a[1..] + b);
      TextsConcat(a[1..], b);
    } else {
      assert a + b == b;
    }
  }

  /**
   * The metrics `printLine` and `displayText` work with: glyph widths
   * (`getCharWidth`), the window width in pixels (`sd->w << 3`), the number
   * of text lines that fit, the width of a character cell, the width kept
   * free for the "more" button, and the narrowest glyph.
   */
  datatype Layout = Layout(glyph: char -> nat, windowWidth: int, lines: int, cellWidth: int,
                           reserve: int, minGlyph: nat)

  /**
   * What the displayer relies on: the window holds a line, every glyph
   * fits beside the button reserve, and a line of glyphs fits the 85-char
   * buffer.
   */
  predicate LayoutOk(L: Layout) {
    && L.lines >= 1 && L.cellWidth >= 1 && L.reserve >= 0 && L.minGlyph >= 1
    && L.windowWidth < (LineCapacity - 1) * L.minGlyph
    && (forall c :: L.minGlyph <= L.glyph(c) && L.glyph(c) + L.reserve <= L.windowWidth)
  }

  /** A `printText` call that stays inside the window. */
  predicate OnScreen(L: Layout, e: Printed) {
    0 <= e.column && e.column + TextWidth(L.glyph, e.text) <= L.windowWidth && 0 <= e.line < L.lines
  }

  /** A line that fits in the window has room for one more character in the buffer. */
  lemma {:induction false} BufferRoom(L: Layout, s: seq<char>)
    requires LayoutOk(L) && TextWidth(L.glyph, s) <= L.windowWidth
    ensures |s| < LineCapacity - 1
  {
    TextWidthAtLeast(L.glyph, s, L.minGlyph);
  }

  /** One step of the backward scan: the answers for hi = n1 + 1 from those for n1. */
  lemma ScanStep(glyph: char -> nat, x: seq<char>, w: int, n1: nat)
    requires 1 <= n1 < |x|
    ensures LastFit(glyph, x, w, n1 + 1) == if TextWidth(glyph, x[..n1]) <= w then n1 else LastFit(glyph, x, w, n1)
    ensures LastSpaceFit(glyph, x, w, n1 + 1) ==
              if x[n1] == Space && TextWidth(glyph, x[..n1]) <= w then n1 else LastSpaceFit(glyph, x, w, n1)
  {
  }

  /** What the backward scan over x knows with n1 still to go. */
  ghost predicate Backward(glyph: char -> nat, x: seq<char>, w: int, n1: int, n2: nat, lw: int) {
    && -1 <= n1 < |x| && (|x| > 0 ==> n1 >= 0)
    && lw == TextWidth(glyph, x[..n1 + 1])
    && (n2 == 0 ==> LastFit(glyph, x, w, |x|) == LastFit(glyph, x, w, n1 + 1))
    && (n2 != 0 ==> n1 < n2 && n2 == LastFit(glyph, x, w, |x|) && TextWidth(glyph, x[..n2]) <= w)
    && LastSpaceFit(glyph, x, w, |x|) == LastSpaceFit(glyph, x, w, n1 + 1)
  }

  /**
   * The backward loop of `printLine` over the n characters of line, whose
   * width is lw0: n1 stops at the last space that fits in w (0 when there
   * is none, -1 on an empty line), n2 is the longest prefix that fits, and
   * lw the width in front of n1.
   */
  method ScanBack(glyph: char -> nat, line: array<char>, n: nat, lw0: int, w: int)
    returns (n1: int, n2: nat, lw: int)
    requires n <= line.Length && lw0 == TextWidth(glyph, line[..n])
    ensures n1 == (if n == 0 then -1 else LastSpaceFit(glyph, line[..n], w, n))
    ensures n2 == LastFit(glyph, line[..n], w, n)
    ensures n1 > 0 ==> lw == TextWidth(glyph, line[..n1])
    ensures n1 <= 0 ==> lw == TextWidth(glyph, line[..n1 + 1])
  {
    ghost var x := line[..n];
    lw := lw0;
    n2 := 0;
    n1 := n - 1;
    assert x[..n1 + 1] == x;
    while n1 > 0
      invariant Backward(glyph, x, w, n1, n2, lw)
    {
      var found;
      n2, lw, found := ScanBackStep(glyph, line, x, w, n1, n2, lw);
      if found {
        assert x[..n1] == line[..n1];
        return;
      }
      n1 := n1 - 1;
    }
    assert LastSpaceFit(glyph, x, w, n1 + 1) == 0 && LastFit(glyph, x, w, n1 + 1) == 0;
    assert x[..n1 + 1] == line[..n1 + 1];
  }

  /**
   * One turn of the backward loop of `printLine`, at character n1: found
   * when it is a space in front of which the line fits.
   */
  method ScanBackStep(glyph: char -> nat, line: array<char>, ghost x: seq<char>, w: int, n1: int, n2: nat, lw: int)
    returns (n2': nat, lw': int, found: bool)
    requires |x| <= line.Length && x == line[..|x|]
    requires n1 > 0 && Backward(glyph, x, w, n1, n2, lw)
    ensures lw' == TextWidth(glyph, x[..n1])
    ensures found ==> n2' == LastFit(glyph, x, w, |x|) && n1 == LastSpaceFit(glyph, x, w, |x|)
    ensures !found ==> Backward(glyph, x, w, n1 - 1, n2', lw')
  {
    var c := line[n1];
    assert c == x[n1];
    lw' := lw - glyph(c);
    assert lw' == TextWidth(glyph, x[..n1]) by {
      TextWidthStep(glyph, x, n1);
    }
    ScanStep(glyph, x, w, n1);
    n2' := n2;
    if n2 == 0 && lw' <= w {
      n2' := n1;
    }
    if n2' != 0 {
      assert lw' <= w by {
        TextWidthMonotone(glyph, x, n1, n2');
      }
    }
    found := n2' != 0 && c == Space;
  }

  /**
   * The column control code 9 moves the cursor to from column: the cell
   * index is taken in 16 bits, moved to the last cell of its group of
   * eight, and wrapped to 0 when it is not below the 16-bit count of cells
   * that fit in the window.
   */
  function TabStop(column: nat, cellWidth: nat, windowWidth: int): (c: nat)
    requires cellWidth >= 1
    ensures var dv := (column / cellWidth) % 0x1_0000;
      c == 0 || (dv < 0xfff8 && c == cellWidth * (dv - dv % 8 + 7) && dv - dv % 8 + 7 < (windowWidth / cellWidth) % 0x1_0000)
  {
    var perLine := (windowWidth / cellWidth) % 0x1_0000;
    var t := TabCell((column / cellWidth) % 0x1_0000);
    if t >= perLine then 0 else cellWidth * t
  }

  /** With `charsPerLine` cells to a line, the tab stop lies inside the window. */
  lemma TabStopInWindow(column: nat, cellWidth: nat, windowWidth: int)
    requires cellWidth >= 1 && windowWidth >= 1
    ensures TabStop(column, cellWidth, windowWidth) < windowWidth
  {
    var q := windowWidth / cellWidth;
    var t := TabCell((column / cellWidth) % 0x1_0000);
    if t < q % 0x1_0000 {
      assert TabStop(column, cellWidth, windowWidth) == cellWidth * t;
      DivFloor(windowWidth, cellWidth);
      ModBelow(q);
      MulStep(cellWidth, t, q);
    }
  }

  lemma MulStep(a: nat, b: int, c: int)
    requires b < c
    ensures a * b + a <= a * c
  {
    assert a * (b + 1) == a * b + a;
    assert a * (b + 1) <= a * c;
  }

  lemma DivFloor(x: int, d: int)
    requires d >= 1
    ensures d * (x / d) <= x
    ensures x >= 0 ==> x / d >= 0
  {
    assert x == d * (x / d) + x % d;
  }

  lemma ModBelow(q: int)
    requires q >= 0
    ensures q % 0x1_0000 <= q
  {
  }

  /** The log grew from log to now, and everything added is inside the window. */
  predicate Extends(L: Layout, log: seq<Printed>, now: seq<Printed>) {
    && |now| >= |log| && now[..|log|] == log
    && forall i :: |log| <= i < |now| ==> OnScreen(L, now[i])
  }

  lemma ExtendsTrans(L: Layout, a: seq<Printed>, b: seq<Printed>, c: seq<Printed>)
    requires Extends(L, a, b) && Extends(L, b, c)
    ensures Extends(L, a, c)
  {
    assert c[..|b|][..|a|] == c[..|a|];
  }

  /** The control codes `displayText` acts on; every other character is text. */
  predicate IsControl(c: char) {
    c as int in {1, 2, 6, 9, 12, 13, 19, 24, 25, 27, 29}
  }

  /** Text without control codes, format characters or NUL. */
  predicate Plain(s: seq<char>) {
    forall i :: 0 <= i < |s| ==> s[i] != Nul && s[i] != '%' && !IsControl(s[i])
  }

  /**
   * Bookkeeping of `displayText`: when a run b is printed after a and the
   * pending line moves from line0 to line1 while x is added, the text
   * printed since a began keeps accounting for everything added.
   */
  lemma {:induction false} KeptStep(a: seq<Printed>, b: seq<Printed>, line0: seq<char>, line1: seq<char>,
                                    y: seq<char>, x: seq<char>)
    requires NonSpace(Texts(a)) + NonSpace(line0) == y
    requires NonSpace(Texts(b)) + NonSpace(line1) == NonSpace(line0) + x
    ensures NonSpace(Texts(a + b)) + NonSpace(line1) == y + x
  {
    TextsConcat(a, b);
    NonSpaceConcat(Texts(a), Texts(b));
    Regroup(NonSpace(Texts(a)), NonSpace(Texts(b)), NonSpace(line0), NonSpace(line1), y, x);
  }

  lemma Regroup(ta: seq<char>, tb: seq<char>, l0: seq<char>, l1: seq<char>, y: seq<char>, x: seq<char>)
    requires ta + l0 == y && tb + l1 == l0 + x
    ensures ta + tb + l1 == y + x
  {
    assert ta + tb + l1 == ta + (tb + l1);
    assert ta + (l0 + x) == ta + l0 + x;
  }

  /** The run printed so far and the pending line hold the non-space characters of s. */
  predicate Accounts(run: seq<Printed>, line: seq<char>, s: seq<char>) {
    CString(line) && NonSpace(Texts(run)) + NonSpace(line) == NonSpace(s)
  }

  /** One character of `displayText`, as seen from the start of the call. */
  lemma {:induction false} AccountStep(p0: nat, mid: seq<Printed>, now: seq<Printed>, line0: seq<char>, line1: seq<char>,
                                       s: seq<char>, x: seq<char>)
    requires p0 <= |mid| <= |now| && now[..|mid|] == mid
    requires Accounts(mid[p0..], line0, s)
    requires CString(line1) && NonSpace(Texts(now[|mid|..])) + NonSpace(line1) == NonSpace(line0) + NonSpace(x)
    ensures Accounts(now[p0..], line1, s + x)
  {
    assert now[p0..] == mid[p0..] + now[|mid|..];
    KeptStep(mid[p0..], now[|mid|..], line0, line1, NonSpace(s), NonSpace(x));
    NonSpaceConcat(s, x);
  }

  /** The in-place shift of `printLine`: the len characters from s move to the front. */
  method ShiftDown(line: array<char>, s: nat, len: nat)
    requires s + len < line.Length
    modifies line
    ensures line[..len] == old(line[s..s + len]) && line[len] == Nul
  {
    var i := 0;
    while i < len
      invariant 0 <= i <= len
      invariant line[..i] == old(line[s..s + i])
      invariant line[i..] == old(line[i..])
    {
      line[i] := line[s + i];
      i := i + 1;
    }
    line[len] := Nul;
  }

  /**
   * Where the rest of a line cut at s starts: one space at the cut is
   * skipped, and one more if another follows.
   */
  function SkipSpaces(x: seq<char>, s: nat): (t: nat)
    requires s <= |x|
    ensures s <= t <= |x| && t - s <= 2
  {
    var t := if s < |x| && x[s] == Space then s + 1 else s;
    if t < |x| && x[t] == Space then t + 1 else t
  }

  /** Only spaces are skipped, and at most two, stopping early only before a non-space. */
  lemma SkipSpacesSkipsSpaces(x: seq<char>, s: nat)
    requires s <= |x|
    ensures forall i :: s <= i < SkipSpaces(x, s) ==> x[i] == Space
    ensures var t := SkipSpaces(x, s); t < s + 2 && t < |x| ==> x[t] != Space
  {
  }

  /**
   * The tail of `printLine` on a line of n characters ending in a NUL: the
   * spaces at the cut s are skipped and the rest of the line (up to its
   * NUL) is moved to the front. Returns where the rest started and its
   * length.
   */
  method DropCut(line: array<char>, n: nat, s: nat, ghost x: seq<char>) returns (t: nat, len: nat)
    requires n < line.Length && line[n] == Nul && s <= n && x == line[..n]
    modifies line
    ensures t == SkipSpaces(x, s)
    ensures len == CLen(x[t..]) && len <= n - t
    ensures line[..len] == x[t..t + len] && line[len] == Nul
  {
    t := s;
    if line[t] == Space {
      t := t + 1;
    }
    if line[t] == Space {
      t := t + 1;
    }
    assert t == SkipSpaces(x, s);
    assert line[t..n] == x[t..];
    len := CLen(line[t..n]);
    assert line[t..t + len] == x[t..t + len];
    ShiftDown(line, t, len);
  }

  /**
   * On a line without NUL, what `DropCut` keeps is all of the line after
   * the skipped spaces, and only spaces are lost at the cut.
   */
  lemma {:induction false} DropCutKeepsText(x: seq<char>, s: nat, y: seq<char>)
    requires s <= |x|
    requires var t := SkipSpaces(x, s); y == x[t..t + CLen(x[t..])]
    ensures CString(x) ==> |y| == |x| - SkipSpaces(x, s) && CString(y)
    ensures CString(x) ==> NonSpace(x) == NonSpace(x[..s]) + NonSpace(y)
  {
    if CString(x) {
      var t := SkipSpaces(x, s);
      assert y == x[t..];
      SkipSpacesSkipsSpaces(x, s);
      NonSpaceCut(x, s, t);
    }
  }

  class TextDisplayer {
    /** `_ctrl`: slot 1 is the lookahead; slots 0 and 2 are always NUL here. */
    const ctrl: array<char>
    /** `_currentLine`: the pending line, NUL-terminated. */
    const currentLine: array<char>
    /** `_textDimData`, one entry per screen area. */
    const dims: array<TextDim>
    var curDim: nat

    /** `_tempString1`: whether it is set, and the string it refers to. */
    var has1: bool
    var str1: seq<char>
    /** `_tempString2`: the substitution being read. */
    var has2: bool
    var str2: seq<char>

    var numCharsLeft: nat
    var lineWidth: int
    var lineCount: int
    var allowPageBreak: bool
    var printFlag: bool
    var numCharsPrinted: int
    var waitButtonSpace: int
    /** Every `printText` call so far. */
    var printed: seq<Printed>

    ghost predicate Valid()
      reads this, ctrl, currentLine, dims
    {
      && ctrl.Length == 3 && currentLine.Length == LineCapacity && ctrl != currentLine
      && ctrl[0] == Nul && ctrl[2] == Nul
      && CString(str1) && CString(str2)
      && numCharsLeft < LineCapacity && currentLine[numCharsLeft] == Nul
      && curDim < dims.Length && dims[curDim].column >= 0 && dims[curDim].line >= 0
    }

    /** `_lineWidth` is the width of the pending line. */
    ghost predicate Measured(glyph: char -> nat)
      reads this, currentLine
    {
      numCharsLeft < currentLine.Length && lineWidth == TextWidth(glyph, currentLine[..numCharsLeft])
    }

    /** The characters `readNextPara` has still to deliver: the substitution, then the text. */
    ghost function Pending(): seq<char>
      reads this
    {
      (if has2 then str2 else []) + (if has1 then str1 else [])
    }

    /** The characters `parseCommand` has still to return: the lookahead, then the pending ones. */
    ghost function Look(): seq<char>
      requires ctrl.Length == 3
      reads this, ctrl
    {
      (if ctrl[1] != Nul then [ctrl[1]] else []) + Pending()
    }

    /** Characters of the main text not yet returned: what bounds `displayText`'s loop. */
    ghost function MainLeft(): nat
      requires ctrl.Length == 3
      reads this, ctrl
    {
      (if has1 then |str1| else 0) + (if ctrl[1] != Nul && !has2 then 1 else 0)
    }

    /** The displayer for a table of screen areas, starting on the first. */
    constructor (table: seq<TextDim>)
      requires |table| > 0 && forall i :: 0 <= i < |table| ==> table[i].column >= 0 && table[i].line >= 0
      ensures Valid() && Measured(_ => 0) && numCharsLeft == 0
      ensures dims[..] == table && curDim == 0 && lineCount == 0 && allowPageBreak && printed == []
    {
      var d := new TextDim[|table|](i requires 0 <= i < |table| => table[i]);
      ctrl := new char[3](_ => Nul);
      currentLine := new char[LineCapacity](_ => Nul);
      dims := d;
      curDim := 0;
      has1, str1 := false, [];
      has2, str2 := false, [];
      numCharsLeft, lineWidth, lineCount := 0, 0, 0;
      allowPageBreak, printFlag := true, false;
      numCharsPrinted, waitButtonSpace := 0, 0;
      printed := [];
    }

    /** `readNextPara`: takes the next pending character into the lookahead, NUL at the end. */
    method ReadNextPara()
      requires Valid()
      modifies this`str1, this`has1, this`str2, this`has2, ctrl
      ensures Valid()
      ensures old(Pending()) == [] ==> ctrl[1] == Nul && Pending() == []
      ensures old(Pending()) != [] ==> ctrl[1] == old(Pending())[0] && Pending() == old(Pending())[1..]
      ensures MainLeft() <= old(MainLeft()) && (!old(has2) ==> !has2)
    {
      var d := Nul;
      if has2 {
        if str2 != [] {
          d := str2[0];
          str2 := str2[1..];
        } else {
          has2 := false;
          d := ctrl[0];
        }
      }
      if d == Nul && has1 {
        if str1 != [] {
          d := str1[0];
          str1 := str1[1..];
        } else {
          has1 := false;
        }
      }
      ctrl[1] := d;
      ctrl[2] := Nul;
    }

    /**
     * `parseCommand`: returns the lookahead and moves on by one character,
     * refilling the lookahead whenever it is empty.
     */
    method ParseCommand() returns (res: char)
      requires Valid()
      modifies this`str1, this`has1, this`str2, this`has2, ctrl
      ensures Valid()
      ensures old(Look()) == [] ==> res == Nul && Look() == []
      ensures old(Look()) != [] ==> res == old(Look())[0] != Nul && Look() == old(Look())[1..]
      ensures ctrl[1] == Nul ==> Pending() == []
      ensures Upcoming(res) == old(Look())
      ensures MainLeft() <= old(MainLeft()) && (!old(has2) ==> !has2)
    {
      ghost var look := Look();
      if ctrl[1] == Nul {
        ReadNextPara();
      }
      assert Look() == look;
      res := ctrl[1];
      ghost var rest := Pending();
      assert look == (if res != Nul then [res] else []) + rest;
      ctrl[1] := ctrl[2];
      ctrl[2] := Nul;
      if ctrl[1] == Nul {
        ReadNextPara();
      }
      assert Look() == rest;
    }

    /**
     * The `%d`/`%s` branch of `displayText`: the format letter waiting in
     * the lookahead is dropped and reading goes on with arg, then with the
     * rest of the text.
     */
    method Substitute(arg: seq<char>)
      requires Valid() && CString(arg) && !has2 && ctrl[1] != Nul
      modifies this`str1, this`has1, this`str2, this`has2, ctrl
      ensures Valid()
      ensures Look() == arg + old(Look())[1..]
      ensures MainLeft() < old(MainLeft())
    {
      has2, str2 := true, arg;
      ctrl[0] := ctrl[2];
      ctrl[2] := Nul;
      ctrl[1] := Nul;
    }

    /** `resetDimTextPositions`: the cursor of area dim goes home. */
    method ResetDimTextPositions(dim: nat)
      requires Valid() && dim < dims.Length
      modifies dims
      ensures Valid()
      ensures dims[dim] == old(dims[dim]).(column := 0, line := 0)
      ensures forall i :: 0 <= i < dims.Length && i != dim ==> dims[i] == old(dims[i])
    {
      dims[dim] := dims[dim].(column := 0, line := 0);
    }

    /** `setPageBreakFlag`: page breaks are allowed and the page's line count restarts. */
    method SetPageBreakFlag()
      modifies this`allowPageBreak, this`lineCount
      ensures allowPageBreak && lineCount == 0
    {
      allowPageBreak := true;
      lineCount := 0;
    }

    /** `clearCurDim` without the fill: the line count and the current area's cursor restart. */
    method ClearCurDim()
      requires Valid()
      modifies this`lineCount, dims
      ensures Valid() && lineCount == 0
      ensures dims[curDim] == old(dims[curDim]).(column := 0, line := 0)
      ensures forall i :: 0 <= i < dims.Length && i != curDim ==> dims[i] == old(dims[i])
    {
      lineCount := 0;
      dims[curDim] := dims[curDim].(column := 0, line := 0);
    }

    /**
     * `textPageBreak` once the player has dismissed the "more" button: the
     * wait itself is input handling; what is left is `clearCurDim`.
     */
    method TextPageBreak()
      requires Valid()
      modifies this`lineCount, dims
      ensures Valid() && lineCount == 0
      ensures dims[curDim] == old(dims[curDim]).(column := 0, line := 0)
      ensures forall i :: 0 <= i < dims.Length && i != curDim ==> dims[i] == old(dims[i])
    {
      ClearCurDim();
    }

    /**
     * The scrolling loop at the top of `printLine`: while the cursor is
     * below the window, the window scrolls up one line (and, once a page
     * is full, waits for the player and starts a new page).
     */
    method Scroll(L: Layout)
      requires Valid() && L.lines >= 1
      modifies this`lineCount, this`numCharsPrinted, dims
      ensures Valid() && dims[curDim].line < L.lines
      ensures dims[curDim].column == old(dims[curDim].column) || dims[curDim].column == 0
      ensures dims[curDim].color1 == old(dims[curDim].color1) && dims[curDim].color2 == old(dims[curDim].color2)
      ensures forall i :: 0 <= i < dims.Length && i != curDim ==> dims[i] == old(dims[i])
    {
      while dims[curDim].line >= L.lines
        invariant Valid()
        invariant dims[curDim].column == old(dims[curDim].column) || dims[curDim].column == 0
        invariant dims[curDim].color1 == old(dims[curDim].color1) && dims[curDim].color2 == old(dims[curDim].color2)
        invariant forall i :: 0 <= i < dims.Length && i != curDim ==> dims[i] == old(dims[i])
        decreases dims[curDim].line
      {
        if L.lines - waitButtonSpace <= lineCount && allowPageBreak {
          lineCount := 0;
          TextPageBreak();
          numCharsPrinted := 0;
        }
        if dims[curDim].line != 0 {
          dims[curDim] := dims[curDim].(line := dims[curDim].line - 1);
        }
      }
    }

    /**
     * The backward scan of `printLine` for an over-wide line: the cut goes
     * after the last space whose prefix fits in w; with no such space the
     * line is pushed whole to the next line once, and cut hard at the
     * longest prefix that fits otherwise.
     */
    method Cut(glyph: char -> nat, w: int) returns (s: int, lw: int, flag: bool)
      requires Valid() && Measured(glyph)
      ensures var x := currentLine[..numCharsLeft];
        var k := LastSpaceFit(glyph, x, w, |x|);
        && (k > 0 ==> s == k && lw == TextWidth(glyph, x[..k]) && !flag)
        && (k == 0 && |x| >= 1 && dims[curDim].column != 0 && !printFlag ==>
              s == 0 && lw == 0 && flag)
        && (k == 0 && |x| >= 1 && !(dims[curDim].column != 0 && !printFlag) ==>
              s == LastFit(glyph, x, w, |x|) && lw == TextWidth(glyph, x[..1]) && flag == printFlag)
        && (|x| == 0 ==> s == 0 && lw == 0 && flag == printFlag)
      ensures 0 <= s <= numCharsLeft && lw >= 0
      ensures s > 0 ==> TextWidth(glyph, currentLine[..s]) <= w
    {
      var n1, n2;
      n1, n2, lw := ScanBack(glyph, currentLine, numCharsLeft, lineWidth, w);
      assert currentLine[..numCharsLeft][..n1 + 1] == currentLine[..n1 + 1];
      if n1 > 0 {
        assert currentLine[..numCharsLeft][..n1] == currentLine[..n1];
      }
      LastSpaceFitFits(glyph, currentLine[..numCharsLeft], w, numCharsLeft);
      LastFitFits(glyph, currentLine[..numCharsLeft], w, numCharsLeft);
      ghost var k2 := LastFit(glyph, currentLine[..numCharsLeft], w, numCharsLeft);
      assert k2 > 0 ==> currentLine[..numCharsLeft][..k2] == currentLine[..k2];
      s, flag := numCharsLeft, printFlag;
      if n1 > 0 {
        s, flag := n1, false;
      } else if n1 == 0 {
        if dims[curDim].column != 0 && !flag {
          s, lw := 0, 0;
          flag := true;
        } else {
          s := n2;
        }
      }
    }


    /**
     * Where `printLine` ends the printed part: the whole line when it fits
     * beside the cursor, otherwise where `Cut` says, in the width left of
     * the window after the cursor and, on the last line of a page, the
     * "more" button. Returns the cut, the width the cursor then moves by,
     * and the new `_printFlag`.
     */
    method ChooseCut(L: Layout) returns (s: nat, lw: int, flag: bool)
      requires Valid() && LayoutOk(L) && Measured(L.glyph) && dims[curDim].column < L.windowWidth
      ensures dims[curDim].column + lineWidth <= L.windowWidth ==>
                s == numCharsLeft && lw == lineWidth && flag == printFlag
      ensures s <= numCharsLeft && lw >= 0 && (numCharsLeft == 0 ==> lw == 0)
      ensures dims[curDim].column + TextWidth(L.glyph, currentLine[..s]) <= L.windowWidth
      ensures s == 0 && numCharsLeft > 0 ==> dims[curDim].column != 0
    {
      var column := dims[curDim].column;
      var n := numCharsLeft;
      ghost var x := currentLine[..n];
      var w := L.windowWidth;
      lw, flag := lineWidth, printFlag;
      if lw + column <= w {
        assert currentLine[..n] == x;
        return n, lw, flag;
      }
      if L.lines - 1 <= lineCount && allowPageBreak {
        w := w - L.reserve;
      }
      w := w - column;
      var k;
      k, lw, flag := Cut(L.glyph, w);
      s := k;
      if column == 0 && n >= 2 {
        LastFitKeepsOne(L.glyph, x, w, n);
      }
    }

    /**
     * The printing half of one pass of `printLine`: scroll, choose the cut
     * s, print the line up to it (up to its first NUL) at the cursor, and
     * move the cursor on.
     */
    method PrintHead(L: Layout) returns (s: nat)
      requires Valid() && LayoutOk(L) && Measured(L.glyph) && dims[curDim].column < L.windowWidth
      modifies this`lineCount, this`numCharsPrinted, this`printFlag, this`printed, dims
      ensures Valid() && Measured(L.glyph)
      ensures s <= numCharsLeft && dims[curDim].line < L.lines
      ensures dims[curDim].color1 == old(dims[curDim].color1) && dims[curDim].color2 == old(dims[curDim].color2)
      ensures forall i :: 0 <= i < dims.Length && i != curDim ==> dims[i] == old(dims[i])
      ensures |printed| == |old(printed)| + 1 && printed[..|old(printed)|] == old(printed)
      ensures OnScreen(L, printed[|old(printed)|])
      ensures printed[|old(printed)|].text == currentLine[..CLen(currentLine[..s])]
      ensures s == 0 && numCharsLeft > 0 ==> old(dims[curDim].column) != 0
      ensures numCharsLeft == 0 ==> dims[curDim].column < L.windowWidth
    {
      Scroll(L);
      var lw, flag;
      s, lw, flag := ChooseCut(L);
      printFlag := flag;
      Emit(L, s, lw);
    }

    /**
     * `printText` of the first s characters (up to the first NUL) at the
     * cursor, which then moves on by lw.
     */
    method Emit(L: Layout, s: nat, lw: int)
      requires Valid() && LayoutOk(L) && s <= numCharsLeft && lw >= 0
      requires dims[curDim].line < L.lines
      requires dims[curDim].column + TextWidth(L.glyph, currentLine[..s]) <= L.windowWidth
      modifies this`numCharsPrinted, this`printed, dims
      ensures Valid()
      ensures dims[curDim] == old(dims[curDim]).(column := old(dims[curDim].column) + lw)
      ensures forall i :: 0 <= i < dims.Length && i != curDim ==> dims[i] == old(dims[i])
      ensures |printed| == |old(printed)| + 1 && printed[..|old(printed)|] == old(printed)
      ensures OnScreen(L, printed[|old(printed)|])
      ensures printed[|old(printed)|].text == currentLine[..CLen(currentLine[..s])]
    {
      var column := dims[curDim].column;
      var shown := CLen(currentLine[..s]);
      ghost var seg := currentLine[..s];
      TextWidthMonotone(L.glyph, seg, shown, s);
      assert seg[..shown] == currentLine[..shown];
      assert seg[..s] == seg;
      var e := Printed(column, dims[curDim].line, currentLine[..shown]);
      assert OnScreen(L, e);
      printed := printed + [e];
      dims[curDim] := dims[curDim].(column := column + lw);
      numCharsPrinted := numCharsPrinted + shown;
    }

    /**
     * The keeping half of one pass of `printLine`: the line cut at s loses
     * the spaces at the cut, and the rest becomes the pending line.
     */
    method KeepRest(glyph: char -> nat, s: nat)
      requires Valid() && s <= numCharsLeft
      modifies this`numCharsLeft, this`lineWidth, currentLine
      ensures Valid() && Measured(glyph)
      ensures numCharsLeft <= old(numCharsLeft) - s
      ensures var x := old(currentLine[..numCharsLeft]);
        CString(x) ==> && CString(currentLine[..numCharsLeft])
                       && NonSpace(x) == NonSpace(x[..s]) + NonSpace(currentLine[..numCharsLeft])
      ensures var x, t := old(currentLine[..numCharsLeft]), SkipSpaces(old(currentLine[..numCharsLeft]), s);
        && currentLine[..numCharsLeft] == x[t..t + CLen(x[t..])]
        && currentLine[numCharsLeft] == Nul
        && (CString(x) ==> currentLine[..numCharsLeft] == x[t..])
    {
      ghost var x := currentLine[..numCharsLeft];
      var t, len := DropCut(currentLine, numCharsLeft, s, x);
      DropCutKeepsText(x, s, currentLine[..len]);
      numCharsLeft := len;
      lineWidth := TextWidth(glyph, currentLine[..len]);
    }

    /**
     * One pass of `printLine`, up to its early return: the printing half,
     * then the keeping half.
     */
    method PrintPass(L: Layout)
      requires Valid() && LayoutOk(L) && Measured(L.glyph) && dims[curDim].column < L.windowWidth
      modifies this`lineCount, this`numCharsPrinted, this`printFlag, this`printed, this`numCharsLeft, this`lineWidth,
               currentLine, dims
      ensures Valid() && Measured(L.glyph)
      ensures dims[curDim].line < L.lines
      ensures dims[curDim].color1 == old(dims[curDim].color1) && dims[curDim].color2 == old(dims[curDim].color2)
      ensures forall i :: 0 <= i < dims.Length && i != curDim ==> dims[i] == old(dims[i])
      ensures |printed| == |old(printed)| + 1 && printed[..|old(printed)|] == old(printed)
      ensures OnScreen(L, printed[|old(printed)|])
      ensures CString(old(currentLine[..numCharsLeft])) ==>
                && CString(currentLine[..numCharsLeft])
                && NonSpace(old(currentLine[..numCharsLeft]))
                   == NonSpace(printed[|old(printed)|].text) + NonSpace(currentLine[..numCharsLeft])
      ensures || numCharsLeft < old(numCharsLeft)
              || (numCharsLeft == 0 && dims[curDim].column < L.windowWidth)
              || (numCharsLeft == old(numCharsLeft) && old(dims[curDim].column) != 0)
    {
      ghost var x := currentLine[..numCharsLeft];
      var s := PrintHead(L);
      assert CString(x) ==> x[..s] == currentLine[..s] && printed[|printed| - 1].text == x[..s];
      KeepRest(L.glyph, s);
    }

    /**
     * `printLine`: prints the pending line, wrapping onto as many screen
     * lines as it needs, and leaves the buffer empty.
     */
    method PrintLine(L: Layout)
      requires Valid() && LayoutOk(L) && Measured(L.glyph) && dims[curDim].column < L.windowWidth
      modifies this`lineCount, this`numCharsPrinted, this`printFlag, this`printed, this`numCharsLeft, this`lineWidth,
               currentLine, dims
      ensures Valid() && Measured(L.glyph)
      ensures numCharsLeft == 0 && dims[curDim].column < L.windowWidth && dims[curDim].line < L.lines
      ensures dims[curDim].color1 == old(dims[curDim].color1) && dims[curDim].color2 == old(dims[curDim].color2)
      ensures forall i :: 0 <= i < dims.Length && i != curDim ==> dims[i] == old(dims[i])
      ensures |printed| > |old(printed)| && printed[..|old(printed)|] == old(printed)
      ensures forall i :: |old(printed)| <= i < |printed| ==> OnScreen(L, printed[i])
      ensures CString(old(currentLine[..numCharsLeft])) ==>
                NonSpace(Texts(printed[|old(printed)|..])) == NonSpace(old(currentLine[..numCharsLeft]))
      decreases numCharsLeft, if dims[curDim].column != 0 then 1 else 0
    {
      ghost var log := printed;
      ghost var x := currentLine[..numCharsLeft];
      PrintPass(L);
      ghost var e := printed[|log|];
      ghost var y := currentLine[..numCharsLeft];
      if numCharsLeft == 0 && dims[curDim].column < L.windowWidth {
        assert printed[|log|..] == [e];
        assert Texts([e]) == e.text + Texts([]);
        assert y == [] && NonSpace(y) == [];
        assert e.text + [] == e.text;
        return;
      }
      dims[curDim] := dims[curDim].(column := 0, line := dims[curDim].line + 1);
      lineCount := lineCount + 1;
      ghost var log1 := printed;
      PrintLine(L);
      ghost var r := printed[|log1|..];
      assert printed == log + [e] + r;
      assert printed[|log|..] == [e] + r;
      assert ([e] + r)[1..] == r;
      if CString(x) {
        NonSpaceConcat(e.text, Texts(r));
      }
    }

    /** What `displayText` keeps true between characters. */
    ghost predicate Ready(L: Layout)
      reads this, ctrl, currentLine, dims
    {
      && Valid() && LayoutOk(L) && Measured(L.glyph) && dims[curDim].column < L.windowWidth
      && (numCharsLeft > 0 ==> dims[curDim].column + lineWidth <= L.windowWidth)
    }

    /** `printLine` as `displayText` calls it: the result is ready for the next character. */
    method Flush(L: Layout)
      requires Valid() && LayoutOk(L) && Measured(L.glyph) && dims[curDim].column < L.windowWidth
      modifies this`lineCount, this`numCharsPrinted, this`printFlag, this`printed, this`numCharsLeft, this`lineWidth,
               currentLine, dims
      ensures Ready(L) && Extends(L, old(printed), printed) && dims[curDim].line < L.lines
      ensures numCharsLeft == 0
      ensures CString(old(currentLine[..numCharsLeft])) ==>
                NonSpace(Texts(printed[|old(printed)|..])) == NonSpace(old(currentLine[..numCharsLeft]))
      ensures dims[curDim].color1 == old(dims[curDim].color1) && dims[curDim].color2 == old(dims[curDim].color2)
      ensures forall i :: 0 <= i < dims.Length && i != curDim ==> dims[i] == old(dims[i])
    {
      PrintLine(L);
    }

    /** Control code 1: the line is printed and, once the player has answered, a new page starts. */
    method PageBreakCode(L: Layout)
      requires Ready(L)
      modifies this`lineCount, this`numCharsPrinted, this`printFlag, this`printed, this`numCharsLeft, this`lineWidth,
               currentLine, dims
      ensures Ready(L) && Extends(L, old(printed), printed)
      ensures numCharsLeft == 0
      ensures CString(old(currentLine[..numCharsLeft])) ==>
                NonSpace(Texts(printed[|old(printed)|..])) == NonSpace(old(currentLine[..numCharsLeft]))
      ensures dims[curDim].column == 0 && dims[curDim].line == 0 && lineCount == 0 && numCharsPrinted == 0
    {
      Flush(L);
      TextPageBreak();
      numCharsPrinted := 0;
    }

    /**
     * Control codes 2 and 6: the line is printed and the next character
     * becomes the background (2) or foreground (6) colour.
     */
    method ColorCode(L: Layout, background: bool)
      requires Ready(L)
      modifies this`lineCount, this`numCharsPrinted, this`printFlag, this`printed, this`numCharsLeft, this`lineWidth,
               currentLine, dims, this`str1, this`has1, this`str2, this`has2, ctrl
      ensures Ready(L) && Extends(L, old(printed), printed)
      ensures numCharsLeft == 0
      ensures CString(old(currentLine[..numCharsLeft])) ==>
                NonSpace(Texts(printed[|old(printed)|..])) == NonSpace(old(currentLine[..numCharsLeft]))
      ensures old(Look()) != [] ==> Look() == old(Look())[1..]
      ensures old(Look()) == [] ==> Look() == []
      ensures var code := if old(Look()) == [] then 0 else old(Look())[0] as int;
        if background then dims[curDim].color2 == code else dims[curDim].color1 == code
      ensures MainLeft() <= old(MainLeft()) && (!old(has2) ==> !has2)
    {
      Flush(L);
      ReadColor(background);
    }

    /** `_textDimData[sdx].color2` (or `color1`) `= parseCommand()`. */
    method ReadColor(background: bool)
      requires Valid()
      modifies this`str1, this`has1, this`str2, this`has2, ctrl, dims
      ensures Valid()
      ensures var code := if old(Look()) == [] then 0 else old(Look())[0] as int;
        dims[curDim] == if background then old(dims[curDim]).(color2 := code) else old(dims[curDim]).(color1 := code)
      ensures forall i :: 0 <= i < dims.Length && i != curDim ==> dims[i] == old(dims[i])
      ensures old(Look()) != [] ==> Look() == old(Look())[1..]
      ensures old(Look()) == [] ==> Look() == []
      ensures MainLeft() <= old(MainLeft()) && (!old(has2) ==> !has2)
    {
      var c := ParseCommand();
      if background {
        dims[curDim] := dims[curDim].(color2 := c as int);
      } else {
        dims[curDim] := dims[curDim].(color1 := c as int);
      }
    }

    /** Control code 9: the line is printed and the cursor moves on to the next tab stop. */
    method TabCode(L: Layout) returns (ghost from: nat)
      requires Ready(L)
      modifies this`lineCount, this`numCharsPrinted, this`printFlag, this`printed, this`numCharsLeft, this`lineWidth,
               currentLine, dims
      ensures Ready(L) && Extends(L, old(printed), printed)
      ensures numCharsLeft == 0
      ensures CString(old(currentLine[..numCharsLeft])) ==>
                NonSpace(Texts(printed[|old(printed)|..])) == NonSpace(old(currentLine[..numCharsLeft]))
      ensures from < L.windowWidth
      ensures dims[curDim].column == TabStop(from, L.cellWidth, L.windowWidth)
    {
      Flush(L);
      from := dims[curDim].column;
      var perLine := (L.windowWidth / L.cellWidth) % 0x1_0000;
      var dv := (dims[curDim].column / L.cellWidth) % 0x1_0000;
      dv := TabCell(dv);
      if dv >= perLine {
        dv := 0;
      }
      TabStopInWindow(from, L.cellWidth, L.windowWidth);
      dims[curDim] := dims[curDim].(column := L.cellWidth * dv);
    }

    /** Control code 13: the line is printed and the cursor goes to the start of the next line. */
    method NewLineCode(L: Layout) returns (ghost from: int)
      requires Ready(L)
      modifies this`lineCount, this`numCharsPrinted, this`printFlag, this`printed, this`numCharsLeft, this`lineWidth,
               currentLine, dims
      ensures Ready(L) && Extends(L, old(printed), printed)
      ensures numCharsLeft == 0
      ensures CString(old(currentLine[..numCharsLeft])) ==>
                NonSpace(Texts(printed[|old(printed)|..])) == NonSpace(old(currentLine[..numCharsLeft]))
      ensures 0 <= from < L.lines && dims[curDim].column == 0 && dims[curDim].line == from + 1
    {
      Flush(L);
      from := dims[curDim].line;
      lineCount := lineCount + 1;
      dims[curDim] := dims[curDim].(column := 0, line := dims[curDim].line + 1);
    }

    /** `_currentLine[_numCharsLeft++] = c`, with the glyph's width added to `_lineWidth`. */
    method Push(glyph: char -> nat, c: char)
      requires Valid() && Measured(glyph) && numCharsLeft < LineCapacity - 1
      modifies this`numCharsLeft, this`lineWidth, currentLine
      ensures Valid() && Measured(glyph)
      ensures currentLine[..numCharsLeft] == old(currentLine[..numCharsLeft]) + [c]
    {
      ghost var x := currentLine[..numCharsLeft];
      lineWidth := lineWidth + glyph(c);
      currentLine[numCharsLeft] := c;
      numCharsLeft := numCharsLeft + 1;
      currentLine[numCharsLeft] := Nul;
      ghost var y := currentLine[..numCharsLeft];
      assert y == x + [c] && y[..|x|] == x;
      TextWidthStep(glyph, y, |x|);
    }

    /**
     * Any other character: it is appended to the pending line, and the
     * line is printed once it no longer fits beside the cursor.
     */
    method AppendChar(L: Layout, c: char)
      requires Ready(L)
      modifies this`lineCount, this`numCharsPrinted, this`printFlag, this`printed, this`numCharsLeft, this`lineWidth,
               currentLine, dims
      ensures Ready(L) && Extends(L, old(printed), printed)
      ensures CString(old(currentLine[..numCharsLeft])) && c != Nul ==>
                CString(currentLine[..numCharsLeft]) &&
                NonSpace(Texts(printed[|old(printed)|..])) + NonSpace(currentLine[..numCharsLeft])
                  == NonSpace(old(currentLine[..numCharsLeft])) + NonSpace([c])
    {
      ghost var log := printed;
      ghost var x := currentLine[..numCharsLeft];
      BufferRoom(L, x);
      Push(L.glyph, c);
      NonSpaceConcat(x, [c]);
      if dims[curDim].column + lineWidth > L.windowWidth {
        Flush(L);
      } else {
        assert printed[|log|..] == [];
      }
    }

    /** One character of `displayText`'s switch, by its control code. */
    method HandleChar(L: Layout, c: char)
      requires Ready(L)
      modifies this`lineCount, this`numCharsPrinted, this`printFlag, this`printed, this`numCharsLeft, this`lineWidth,
               currentLine, dims,
               this`str1, this`has1, this`str2, this`has2, ctrl
      ensures Ready(L) && Extends(L, old(printed), printed)
      ensures CString(old(currentLine[..numCharsLeft])) && c != Nul ==>
                CString(currentLine[..numCharsLeft]) &&
                NonSpace(Texts(printed[|old(printed)|..])) + NonSpace(currentLine[..numCharsLeft])
                  == NonSpace(old(currentLine[..numCharsLeft])) + (if IsControl(c) then [] else NonSpace([c]))
      ensures c as int != 2 && c as int != 6 ==>
                Look() == old(Look()) && MainLeft() == old(MainLeft()) && has2 == old(has2)
      ensures MainLeft() <= old(MainLeft()) && |Look()| <= |old(Look())| && (!old(has2) ==> !has2)
    {
      ghost var log := printed;
      var code := c as int;
      if code == 1 {
        PageBreakCode(L);
      } else if code == 2 || code == 6 {
        ColorCode(L, code == 2);
      } else if code == 9 {
        ghost var from := TabCode(L);
      } else if code == 13 {
        ghost var from := NewLineCode(L);
      } else if IsControl(c) {
        assert printed[|log|..] == [];
      } else {
        AppendChar(L, c);
      }
    }

    /**
     * The `%` branch of `displayText`'s loop on the character c: a `%d` or
     * `%s` switches reading to its argument and reads the next character;
     * any other letter after `%` stops the loop.
     */
    method Format(c: char, k: nat, intArg: nat -> int, strArg: nat -> seq<char>)
      returns (c': char, k': nat, stop: bool)
      requires Valid() && c != Nul && forall i :: CString(strArg(i))
      modifies this`str1, this`has1, this`str2, this`has2, ctrl
      ensures Valid()
      ensures stop <==> !old(has2) && c == '%' && ToLower(old(ctrl[1])) != 'd' && ToLower(old(ctrl[1])) != 's'
      ensures !(!old(has2) && c == '%') ==> c' == c && k' == k && Look() == old(Look()) && has2 == old(has2)
      ensures !old(has2) && c == '%' && !stop ==> MainLeft() < old(MainLeft()) && (c' == Nul ==> Look() == [])
      ensures MainLeft() <= old(MainLeft())
    {
      c', k', stop := c, k, false;
      var a := ToLower(ctrl[1]);
      if !has2 && c == '%' {
        if a == 'd' {
          FormatIntIsCString(intArg(k));
          Substitute(FormatInt(intArg(k)));
        } else if a == 's' {
          Substitute(strArg(k));
        } else {
          stop := true;
          return;
        }
        k' := k + 1;
        c' := ParseCommand();
      }
    }

    /** The switch of `displayText`'s loop on c, then the next character. */
    method Advance(L: Layout, c: char) returns (next: char)
      requires Ready(L)
      modifies this`lineCount, this`numCharsPrinted, this`printFlag, this`printed, this`numCharsLeft, this`lineWidth,
               currentLine, dims,
               this`str1, this`has1, this`str2, this`has2, ctrl
      ensures Ready(L) && Extends(L, old(printed), printed)
      ensures next == Nul ==> Look() == []
      ensures MainLeft() <= old(MainLeft()) && |Look()| + (if next != Nul then 1 else 0) <= |old(Look())|
      ensures c != Nul && !IsControl(c) ==>
                (!old(has2) ==> !has2) && Upcoming(next) == old(Look())
      ensures c != Nul && !IsControl(c) && CString(old(currentLine[..numCharsLeft])) ==>
                CString(currentLine[..numCharsLeft]) &&
                NonSpace(Texts(printed[|old(printed)|..])) + NonSpace(currentLine[..numCharsLeft])
                  == NonSpace(old(currentLine[..numCharsLeft])) + NonSpace([c])
    {
      HandleChar(L, c);
      ghost var look := Look();
      next := ParseCommand();
      assert |Upcoming(next)| == |look| == |Look()| + (if next != Nul then 1 else 0);
    }

    /** The characters still to be handled when c has been read. */
    ghost function Upcoming(c: char): seq<char>
      requires ctrl.Length == 3
      reads this, ctrl
    {
      (if c != Nul then [c] else []) + Look()
    }

    /**
     * What holds between turns of `displayText`'s loop on the lookahead c,
     * for a call that began with the log log on str: when str is plain
     * text, appended is what has been handled and it is all accounted for.
     */
    ghost predicate Displaying(L: Layout, str: seq<char>, log: seq<Printed>, appended: seq<char>, c: char)
      reads this, ctrl, currentLine, dims
    {
      && Ready(L) && Extends(L, log, printed)
      && (c == Nul ==> Look() == [])
      && (Plain(str) ==>
            && !has2 && appended + Upcoming(c) == str
            && Accounts(printed[|log|..], currentLine[..numCharsLeft], appended))
    }

    /** One turn of `displayText`'s loop. */
    method Turn(L: Layout, str: seq<char>, c: char, k: nat, intArg: nat -> int, strArg: nat -> seq<char>,
                ghost log: seq<Printed>, ghost appended: seq<char>)
      returns (next: char, k': nat, stop: bool, ghost appended': seq<char>)
      requires Displaying(L, str, log, appended, c) && c != Nul && forall i :: CString(strArg(i))
      modifies this`lineCount, this`numCharsPrinted, this`printFlag, this`printed, this`numCharsLeft, this`lineWidth,
               currentLine, dims,
               this`str1, this`has1, this`str2, this`has2, ctrl
      ensures !stop ==> Displaying(L, str, log, appended', next)
      ensures !stop ==> MainLeft() < old(MainLeft()) ||
                        (MainLeft() == old(MainLeft()) && |Look()| + (if next != Nul then 1 else 0) <= |old(Look())|)
      ensures stop ==> Ready(L) && Extends(L, log, printed) && !Plain(str)
    {
      ghost var look0 := Look();
      ghost var plain := Plain(str);
      if plain {
        assert Upcoming(c) == [c] + look0;
        assert str[|appended|] == c;
      }
      ghost var mid := printed;
      ghost var line0 := currentLine[..numCharsLeft];
      var c2;
      c2, k', stop := Format(c, k, intArg, strArg);
      appended' := appended + [c];
      next := c2;
      if stop {
        return;
      }
      next := Advance(L, c2);
      ExtendsTrans(L, log, mid, printed);
      if plain {
        assert Upcoming(next) == look0;
        assert appended' + Upcoming(next) == appended + ([c] + look0);
        AccountStep(|log|, mid, printed, line0, currentLine[..numCharsLeft], appended, [c]);
      }
    }

    /** The reset at the start of `displayText`: nothing pending, str to be read. */
    method Reset(L: Layout, str: seq<char>)
      requires Valid() && LayoutOk(L) && dims[curDim].column < L.windowWidth && CString(str)
      modifies this`printFlag, this`lineWidth, this`numCharsLeft, this`numCharsPrinted,
               this`str1, this`has1, this`str2, this`has2, ctrl, currentLine
      ensures Ready(L) && numCharsLeft == 0 && numCharsPrinted == 0 && !printFlag
      ensures !has2 && Look() == str
    {
      ctrl[0] := Nul;
      ctrl[1] := Nul;
      ctrl[2] := Nul;
      currentLine[0] := Nul;
      printFlag := false;
      lineWidth, numCharsLeft, numCharsPrinted := 0, 0, 0;
      has1, str1 := true, str;
      has2, str2 := false, [];
      assert Valid();
      assert currentLine[..numCharsLeft] == [];
    }

    /** The start of `displayText`: the state is reset and the first character of str is read. */
    method Begin(L: Layout, str: seq<char>) returns (c: char)
      requires Valid() && LayoutOk(L) && dims[curDim].column < L.windowWidth && CString(str)
      modifies this`printFlag, this`lineWidth, this`numCharsLeft, this`numCharsPrinted,
               this`str1, this`has1, this`str2, this`has2, ctrl, currentLine
      ensures Displaying(L, str, printed, [], c)
      ensures numCharsPrinted == 0 && !printFlag
    {
      Reset(L, str);
      c := ParseCommand();
      assert Ready(L) by {
        assert numCharsLeft == 0 && lineWidth == 0;
        assert currentLine[..numCharsLeft] == [];
      }
      assert Upcoming(c) == str;
      assert printed[|printed|..] == [] && Extends(L, printed, printed);
      assert Accounts(printed[|printed|..], currentLine[..numCharsLeft], []) by {
        assert currentLine[..numCharsLeft] == [];
        assert Accounts([], [], []);
      }
    }

    /** The end of `displayText`: a pending line is printed. */
    method Finish(L: Layout, str: seq<char>, ghost log: seq<Printed>)
      requires Ready(L) && Extends(L, log, printed)
      requires Plain(str) ==> Accounts(printed[|log|..], currentLine[..numCharsLeft], str)
      modifies this`lineCount, this`numCharsPrinted, this`printFlag, this`printed, this`numCharsLeft, this`lineWidth,
               currentLine, dims
      ensures Valid() && Measured(L.glyph) && numCharsLeft == 0 && dims[curDim].column < L.windowWidth
      ensures Extends(L, log, printed)
      ensures Plain(str) ==> NonSpace(Texts(printed[|log|..])) == NonSpace(str)
    {
      ghost var mid := printed;
      ghost var line0 := currentLine[..numCharsLeft];
      if numCharsLeft != 0 {
        Flush(L);
        ExtendsTrans(L, log, mid, printed);
        if Plain(str) {
          AccountStep(|log|, mid, printed, line0, [], str, []);
          assert str + [] == str;
        }
      } else if Plain(str) {
        assert NonSpace(line0) == [];
      }
    }

    /**
     * `displayText`: str is read through `parseCommand`, `%d` and `%s`
     * take the next argument, control codes act on the cursor and the
     * colours, and the other characters are laid out line by line.
     * Printed text stays inside the window, and text without control codes
     * or format characters is printed whole, spaces at the cuts aside.
     */
    method DisplayText(L: Layout, str: seq<char>, intArg: nat -> int, strArg: nat -> seq<char>)
      requires Valid() && LayoutOk(L) && dims[curDim].column < L.windowWidth
      requires CString(str) && forall i :: CString(strArg(i))
      modifies this, ctrl, currentLine, dims
      ensures Valid() && Measured(L.glyph) && numCharsLeft == 0 && dims[curDim].column < L.windowWidth
      ensures Extends(L, old(printed), printed)
      ensures Plain(str) ==> NonSpace(Texts(printed[|old(printed)|..])) == NonSpace(str)
    {
      ghost var log := printed;
      var c := Begin(L, str);
      var k := 0;
      ghost var appended: seq<char> := [];
      var stop := false;
      while c != Nul && !stop
        invariant !stop ==> Displaying(L, str, log, appended, c)
        invariant stop ==> Ready(L) && Extends(L, log, printed) && !Plain(str)
        decreases if stop then 0 else 1, MainLeft(), |Look()| + (if c != Nul then 1 else 0)
      {
        c, k, stop, appended := Turn(L, str, c, k, intArg, strArg, log, appended);
      }
      assert Plain(str) ==> appended == str;
      Finish(L, str, log);
    }
  }
}
