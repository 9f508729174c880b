# Scene logic, text pager and theme loader, modelled in Dafny

This project models three pieces of sequential logic from the ScummVM code base and proves properties of them.

- **tsage scene core** (`engines/tsage/core.cpp`):
  - regions as a bounding rectangle plus per-row half-open slices: containment, building from a rectangle, intersecting slice lists, uniting a row (`tsage_region.dfy`);
  - the walk-region scan-line edge list, kept ordered by insertion and advanced by a Bresenham step (`tsage_walk.dfy`);
  - walk, scene and priority region lookups (`tsage_lookup.dfy`);
  - the scene palette: resource decode, nearest colour, fade arithmetic and the palette-rotation state machine (`tsage_palette.dfy`);
  - scene-object setters and their dirty flag, frame wrap-around, the angle-to-strip wrapper, the draw-order comparator, the splice distance, the visage frame clamp and the action delay (`tsage_objects.dfy`);
  - the line-stepping object mover and the player mover's `findLinePoint` (`tsage_mover.dfy`).
- **Eye of the Beholder text pager** (`engines/kyra/text_eob.cpp`, `eob_text.dfy`): the one-character lookahead reader with `%d`/`%s` substitution, the control codes for newline, tab and colour, and `printLine`'s cut at the last space that fits followed by the in-place shift of the rest.
- **GUI theme layout loader** (`gui/theme-config.cpp`, `theme_config.dfy`): splitting a widget line into fields at parenthesis depth zero, the `.x2`/`.y2`, `self`, `prev` and `parent` aliases, the section key dispatch, and the fixed order in which resolution sections are read.

Shared pieces:
- `cmath.dfy`: C++ integer operations (truncating division, `ABS`, `MIN`, `MAX`, sign).
- `decimal.dfy`: `%d` formatting and its inverse.
- `wrappers.dfy`: `Option`.

Code that changes state in place is modelled as classes with `modifies` frames:
- `Region`, `WalkRegion`, `PaletteRotation`, `ScenePalette`, `SceneObject`, `Action`, `ObjectMover`;
- `TextDisplayer`, whose line buffer and control buffer are arrays;
- `Theme`.

Each method is proved against a function that specifies it, and the properties are proved about those functions as lemmas. Three text-pager methods are the exception: `TextDisplayer.Scroll`, `TextDisplayer.PrintLine` and `TextDisplayer.DisplayText` state properties directly. These are the cursor line inside the window, the window bound, and the account of the non-space characters printed; they are not stated as equality with a function.

Inputs the model takes as parameters:
- font metrics (`Layout`);
- the theme expression evaluator (`eval`);
- the overlay size;
- clocks;
- fetched resources.

## Model

| member | source | states |
|---|---|---|
| Regions.MergeSlices | engines/tsage/core.cpp:2660-2686 | mergeSlices' two-index walk, as written: the result is the specification MergeFrom from (0, 0) and has at most \|set1\| + \|set2\| slices |
| Regions.MergeFromLength | engines/tsage/core.cpp:2665-2683 | every turn of the walk advances one index and emits at most one slice, so the output is no longer than what is left of both inputs |
| Regions.MergeSource | engines/tsage/core.cpp:2670-2681 | each emitted slice starts where the later of an overlapping pair starts and ends at the smaller end of that pair |
| Regions.MergeSound | engines/tsage/core.cpp:2660-2686 | soundness of mergeSlices: every emitted slice is non-empty and lies inside one slice of each input |
| Regions.MergeMissesOverlap | engines/tsage/core.cpp:2672-2680 | mergeSlices as written is incomplete: for [(0,4),(6,8)] and [(2,10)] it emits only (2,4) and misses (6,8) |
| Regions.IntersectSlicesExact | engines/tsage/core.cpp:2652-2686 | the corrected intersection holds exactly the points lying in both well-formed inputs (both directions) |
| Regions.IntersectExact | engines/tsage/core.cpp:2665-2683 | the same, for the suffixes from indexes i and j: the induction behind IntersectSlicesExact |
| Regions.WellFormedOrdered | engines/tsage/core.cpp:2667-2670 | in a well-formed slice list a later slice starts no earlier than an earlier one ends: the ordering the walk relies on |
| Regions.FirstTouch | engines/tsage/core.cpp:2736-2748 | the index where uniteLine's inner loop stops: no earlier slice touches the new one, and the slice there (if any) does |
| Regions.AddSlice | engines/tsage/core.cpp:2735-2752 | one source slice folded into a row: it is appended exactly when it touches no slice of the row; otherwise the row keeps its length and only the first touched slice changes, widened to (min start, max end); either way the row covers exactly its old points plus the slice |
| Regions.WidenExact | engines/tsage/core.cpp:2737-2742 | widening a touched slice to (min start, max end) adds exactly the new slice's points, given the touch test |
| Regions.UniteSlices | engines/tsage/core.cpp:2729-2751 | the merge loop of uniteLine folds the source slices into the row one at a time, in order, by that widen-or-append rule; the row grows by at most one slice per source slice and not at all for a single touching slice, and covers exactly the union of what it covered and the given slices |
| Regions.Region.constructor | engines/tsage/core.cpp:2560-2590 | the decoded region keeps id, size code, bounds and rows (none for size 14, one for size 22, otherwise one per line), and is Valid |
| Regions.Region.LineSlices | engines/tsage/core.cpp:2648-2650 | getLineSlices reads row 0 for a single-row region (size 22) and the row of line yp otherwise |
| Regions.Region.Contains | engines/tsage/core.cpp:2596-2611 | contains is true exactly when pt is inside the bounds, rows exist and x lies in one half-open slice of pt's row |
| Regions.Region.Empty | engines/tsage/core.cpp:2616-2618 | `empty()` holds only with size code 14, and an empty region's bounds contain no point, so it covers none |
| Regions.Region.Clear | engines/tsage/core.cpp:2620-2624 | bounds, id and size become zero, the rows stay, and the cleared region covers no point and is not `empty()` |
| Regions.Region.SetRect | engines/tsage/core.cpp:2630-2646 | an invalid rectangle gives size 14 with zero bounds and no rows; a valid one gives size 22 and one row; either way the region covers exactly the rectangle's points |
| Regions.Region.SectPoints | engines/tsage/core.cpp:2652-2658 | nothing outside the vertical bounds; inside, the corrected intersection of the slices with line yp |
| Regions.Region.SectPointsExact | engines/tsage/core.cpp:2652-2658 | with well-formed rows, sectPoints keeps exactly the points of the slices that the region covers on line yp |
| Regions.Region.SectPointsAsWritten | engines/tsage/core.cpp:2652-2658 | sectPoints as written: nothing outside the vertical bounds, otherwise mergeSlices of the slices and line yp |
| Regions.Region.GrowRows | engines/tsage/core.cpp:2716-2727 | the bounds grow one empty row at a time until line yp is inside; the new top and bottom are the min/max with yp; no line's slices change |
| Regions.Region.UniteLine | engines/tsage/core.cpp:2713-2760 | line yp becomes the widen-or-append fold of the given slices into its old row (a single touching slice leaves the row length alone), so it covers its old points plus every given slice; every other line is unchanged, and the bounds include line yp |
| Regions.Region.UniteRect | engines/tsage/core.cpp:2762-2768 | afterwards every line covers exactly its old points plus the rectangle's points on that line, and the row layout stays one row per line |
| WalkEdges.NewEdge | engines/tsage/core.cpp:2947-2967 | the record process2 builds: top y is the smaller y, extents are the absolute deltas, x starts at the upper end and x + direction × xDiff reaches the other end, rows left equal yDiff, and the error term starts in range |
| WalkEdges.Step | engines/tsage/core.cpp:2864-2879 | one row step keeps extents and direction, moves x by direction × XSteps pixels and lowers the rows left by one |
| WalkEdges.Process | engines/tsage/core.cpp:2864-2879 | RegionSupportRec::process, with its do-while loop, computes exactly Step |
| WalkEdges.ShallowSteps | engines/tsage/core.cpp:2872-2876 | the do-while count of a shallow edge is the least n >= 1 with halfDiff + n × yDiff > xDiff |
| WalkEdges.StepKeepsErrorBounded | engines/tsage/core.cpp:2864-2879 | a row step keeps the Bresenham error term between 0 and the larger extent |
| WalkEdges.Advance | engines/tsage/core.cpp:2864-2879 | t row steps keep extents and direction and lower the rows left by t |
| WalkEdges.AdvanceTracksLine | engines/tsage/core.cpp:2864-2879 | after t rows the edge has moved m pixels and m × yDiff differs from t × xDiff only by the change of the bounded error term: x stays on the ideal line rounded to whole pixels |
| WalkEdges.InsertAt | engines/tsage/core.cpp:2953-2957 | a list equal to s before k, holding e at k and shifted by one after k is s with e inserted at k |
| WalkEdges.InsertPermutes | engines/tsage/core.cpp:2953-2957 | insertion adds exactly one element (multiset) |
| WalkEdges.InsertKeepsSorted | engines/tsage/core.cpp:2953-2957 | inserting after the last key not greater keeps a sorted list sorted |
| WalkEdges.InsertSorted | engines/tsage/core.cpp:2953-2957 | ordered insertion lengthens the list by one |
| WalkEdges.InsertAtInsertPoint | engines/tsage/core.cpp:2953-2957 | inserting at an insertion point is ordered insertion |
| WalkEdges.InsertSortedAt | engines/tsage/core.cpp:2953-2957 | ordered insertion does insert at an insertion point |
| WalkEdges.InsertSortedSpec | engines/tsage/core.cpp:2947-2967 | process2's insertion is a permutation of the old list plus the new edge and keeps a list sorted by top y sorted |
| WalkEdges.LoadOrder | engines/tsage/core.cpp:2900-2930 | the loaded list has one entry per edge |
| WalkEdges.LoadOrderSpec | engines/tsage/core.cpp:2900-2930 | the loaded list is sorted by top y and is a permutation of the non-horizontal edges |
| WalkEdges.WalkRegion.constructor | engines/tsage/core.cpp:2862 | the static process list, fresh and of the given size; PROCESS_LIST_SIZE is defined in a header that is not part of this model, so the size is a parameter |
| WalkEdges.WalkRegion.Process2 | engines/tsage/core.cpp:2947-2967 | the first dataIndex + 1 slots become the old first dataIndex slots with the new edge inserted by top y; later slots are unchanged |
| WalkEdges.WalkRegion.ShiftAbove | engines/tsage/core.cpp:2953-2956 | the loop of process2: entries with a larger top y move up one slot, the gap is at the insertion point, everything else is unchanged |
| WalkEdges.WalkRegion.Process5 | engines/tsage/core.cpp:2985-2990 | the entry at idx1 moves down by swaps, not below idx2, and ends after the last entry whose x is not greater; the others keep their order |
| WalkEdges.WalkRegion.LoadProcessList | engines/tsage/core.cpp:2900-2930 | no corners is reported rather than reading corner -1; more non-horizontal edges than slots is reported exactly when it happens, with the list full; otherwise dataIndex counts the non-horizontal edges, the list holds them in load order (so sorted by top y and a permutation), and regionHeight is the largest corner y |
| WalkEdges.WalkRegion.AddCorner | engines/tsage/core.cpp:2906-2927 | one loop turn adds the edge ending at corner idx unless it is horizontal, keeping the list in load order; it reports a full list, changing nothing, exactly when that edge has no slot |
| WalkEdges.LoadWritesPastList | engines/tsage/core.cpp:2906-2921 | as written, a triangle has two non-horizontal edges, so a one-slot list gets its second record written to slot 1, past its end |
| WalkEdges.EdgesStep | engines/tsage/core.cpp:2906-2927 | one more corner adds its edge exactly when it is not horizontal, and the running maximum y takes the corner's y into account |
| WalkEdges.EdgesShorter | engines/tsage/core.cpp:2906-2927 | the edge count never falls as corners are read, so the list never outgrows its final size |
| WalkEdges.MaxYBound | engines/tsage/core.cpp:2902-2924 | regionHeight is at least every corner y read so far and the last corner's y |
| WalkEdges.EdgesHavePositiveHeight | engines/tsage/core.cpp:2910-2920 | every kept edge has yDiff > 0 and an error term in range, so process's shallow-edge loop ends on it |
| Lookup.WalkIndexOf | engines/tsage/core.cpp:3115-3122 | the 1-based index of the first region not in the exclusion list that contains pt, and -1 exactly when no such region exists |
| Lookup.SceneIndexOf | engines/tsage/core.cpp:2789-2796 | the id of the first region containing pt, 0 when none does |
| Lookup.ClampPriority | engines/tsage/core.cpp:3149-3150 | priorities above 255 become 255, the others are kept |
| Lookup.FindPriority | engines/tsage/core.cpp:3144-3167 | the placeholder exactly for an empty list; otherwise the first region with the smallest id above the clamped priority and below 9998; failure (the assertion) exactly when no id qualifies |
| Palette.Pack | engines/tsage/core.cpp:1154-1155 | a packed entry fits 24 bits |
| Palette.UnpackPack | engines/tsage/core.cpp:1176-1177 | the channels read back from a packed entry (`& 0xff`, `>> 8`, `>> 16`) are the ones packed |
| Palette.PackUnpack | engines/tsage/core.cpp:1217-1219 | every 24-bit entry is the packing of its own channels |
| Palette.Grey | engines/tsage/core.cpp:1152-1158 | default entry i has all three channels equal to i |
| Palette.LE16 | engines/tsage/core.cpp:1169-1170 | a little-endian 16-bit word: below 0x10000, low byte first |
| Palette.DecodeEntries | engines/tsage/core.cpp:1172-1177 | the decoder yields one entry per triple |
| Palette.DecodeReadsTriple | engines/tsage/core.cpp:1173-1177 | decoded entry i carries the i-th RGB triple after the 6-byte header |
| Palette.LoadWritesPastTable | engines/tsage/core.cpp:1171-1178 | as written, a resource with first entry 255 and two entries passes the size assertion and writes its second entry to index 256, past the 256-entry table |
| Palette.Distance | engines/tsage/core.cpp:1217-1225 | the squared RGB distance is zero exactly when the colours are equal |
| Palette.ClipPercent | engines/tsage/core.cpp:1263 | the percentage is clipped into 0..100, values inside are kept |
| Palette.FadeChannel | engines/tsage/core.cpp:1270 | a faded channel (C++ truncating division) lies between source and target, so it fits a byte; 100% keeps the source and 0% gives the target |
| Palette.FadeBetween | engines/tsage/core.cpp:1270 | the truncated quotient of d × (100 - percent) / 100 lies between 0 and d, on d's side |
| Palette.ScaleDown | engines/tsage/core.cpp:1270 | a percentage of a non-negative amount stays within it |
| Palette.FadeEndpoints | engines/tsage/core.cpp:1265-1275 | at 100% an entry is unchanged; at 0% each channel is the target byte for that entry |
| Palette.DecDuration | engines/tsage/core.cpp:1136-1144 | a zero duration never runs out; otherwise it is lowered by one and the rotation carries on unless it reached zero |
| Palette.StepStaysInRange | engines/tsage/core.cpp:1047-1082 | a step of a live rotation keeps its index in [start, end) unless it removed the rotation |
| Palette.UnlimitedNeverRemoved | engines/tsage/core.cpp:1136-1144 | with duration 0 no step removes the rotation |
| Palette.DurationCountsWraps | engines/tsage/core.cpp:1047-1082 | a positive duration drops by one exactly at a wrap, and the wrap that brings it to zero removes the rotation |
| Palette.PingPongTurns | engines/tsage/core.cpp:1063-1081 | modes 2 and 3 swap at the ends, continuing from end - 2 and start + 1 |
| Palette.RotateN | engines/tsage/core.cpp:1047-1082 | repeated steps of an unlimited rotation never remove it |
| Palette.CycleVisitsInOrder | engines/tsage/core.cpp:1056-1062 | mode 1 visits start + (i - start + n) mod (end - start) after n steps: it cycles through [start, end) |
| Palette.CycleStep | engines/tsage/core.cpp:1056-1062 | one mode-1 step moves to the next index, wrapping to start |
| Palette.DownVisitsInReverse | engines/tsage/core.cpp:1049-1055 | mode -1 visits the range in reverse and wraps down to end - 1 |
| Palette.DownStep | engines/tsage/core.cpp:1049-1055 | one mode -1 step moves to the previous index, wrapping to end - 1 |
| Palette.CountDown | engines/tsage/core.cpp:1030-1040 | the delay counter only runs while the clock moves forward, never below zero, and expires exactly when the elapsed frames reach it |
| Palette.PaletteRotation.constructor | engines/tsage/core.cpp:1006-1011 | enabled, no delay, clock read now |
| Palette.PaletteRotation.Set | engines/tsage/core.cpp:1107-1128 | copies the palette, remembers whether an action waits, stores end + 1, starts modes -1 and 3 at the exclusive end and the others at start, and the rotation is in range |
| Palette.PaletteRotation.SetDelay | engines/tsage/core.cpp:1146-1148 | both delay fields become the amount; nothing else changes |
| Palette.PaletteRotation.DecDurationStep | engines/tsage/core.cpp:1136-1144 | decDuration on the object: duration and result follow DecDuration and the object is marked removed when it returns false (what `remove` shows and signals is stated by Signal) |
| Palette.PaletteRotation.Signal | engines/tsage/core.cpp:1029-1093 | runs the delay countdown; while it is running nothing moves; on expiry the counter reloads and, when enabled, the state takes one Rotate step, the range being shown unless the rotation was removed, by the two setPalette calls with the head placed after the tail; a rotation that runs out makes the one call of `remove` that puts the range back as saved, and its waiting action is signalled |
| Palette.RestoreShowsSaved | engines/tsage/core.cpp:1095-1097 | after the corrected restoring call of `remove`, every entry of the range shows its own saved colour |
| Palette.RestoreShowsLowEntries | engines/tsage/core.cpp:1097 | as written, `remove` restores range 2..3 from saved entries 0 and 1; the corrected call restores 2 and 3 |
| Palette.SignalShowsRotation | engines/tsage/core.cpp:1084-1091 | with the head of the range placed after its tail, every screen entry start + j of the range shows saved entry start + (curr - start + j) mod (end - start): the range rotated to begin at the current index |
| Palette.SignalOverwritesHead | engines/tsage/core.cpp:1087-1090 | as written, range 0..3 at index 1 leaves screen entry 0 showing saved entry 0 and never sets entry 3; the corrected calls show 1, 2, 3, 0 |
| Palette.PaletteRotation.RotateStep | engines/tsage/core.cpp:1047-1084 | the switch of signal: the state becomes Rotate of the old state and the flag is false exactly when the rotation was removed |
| Palette.ScenePalette.constructor | engines/tsage/core.cpp:1152-1158 | the grey gradient, no listeners |
| Palette.ScenePalette.LoadPalette | engines/tsage/core.cpp:1164-1182 | no resource gives false and no change; more than 256 entries is the assertion failure; a header or triples that would be read past the resource, or entries that would be written past the table, is reported as an overrun exactly when it happens; otherwise exactly entries first..first+count-1 are replaced by the decoded triples |
| Palette.ScenePalette.IndexOf | engines/tsage/core.cpp:1214-1233 | 255 when no entry is within the threshold; otherwise an entry of minimal distance within it, the last of equals |
| Palette.ScenePalette.Fade | engines/tsage/core.cpp:1259-1280 | every entry faded toward its target by the clipped percentage: 100 keeps the palette, 0 gives the target colours |
| Palette.ScenePalette.AddRotation | engines/tsage/core.cpp:1282-1291 | a fresh rotation, its duration doubled for modes 2 and 3, set up as `set` does (with the action) and appended to the listeners |
| SceneObjects.WithPosition | engines/tsage/core.cpp:1660-1664 | setPosition stores position and yDiff, always raises the redraw flag, and changes nothing else |
| SceneObjects.WithZoom | engines/tsage/core.cpp:1666-1672 | setZoom stores the percentage and raises the redraw flag only when it changes; the same value changes nothing |
| SceneObjects.ChangeZoom | engines/tsage/core.cpp:1674-1681 | -1 clears the zoomed flag only; any other value sets it and the percentage |
| SceneObjects.WithStrip | engines/tsage/core.cpp:1683-1688 | setStrip stores the strip and redraws only on a change |
| SceneObjects.WithStrip2 | engines/tsage/core.cpp:1690-1697 | -1 releases the pinned strip; anything else pins it and sets the strip |
| SceneObjects.WithFrame | engines/tsage/core.cpp:1699-1704 | setFrame stores the frame and redraws only on a change |
| SceneObjects.WithFrame2 | engines/tsage/core.cpp:1706-1713 | -1 lets the animation run again; anything else fixes the frame and sets it |
| SceneObjects.WithPriority | engines/tsage/core.cpp:1715-1720 | setPriority stores the priority and redraws only on a change |
| SceneObjects.WithPriority2 | engines/tsage/core.cpp:1722-1729 | -1 clears flag bit 1; anything else sets it and the priority |
| SceneObjects.WithVisage | engines/tsage/core.cpp:1731-1736 | setVisage stores the visage and redraws only on a change |
| SceneObjects.SettersIdempotent | engines/tsage/core.cpp:1660-1736 | every setter applied twice with the same value equals one application |
| SceneObjects.NextFrame | engines/tsage/core.cpp:1617-1631 | getNewFrame steps by the change; forward past the last frame restarts at 1 (2 in animation mode 1); below frame 1 goes to the last frame |
| SceneObjects.NextFrameInRange | engines/tsage/core.cpp:1617-1631 | from a frame in 1..count a single step stays in 1..count |
| SceneObjects.ForwardFramesCycle | engines/tsage/core.cpp:1617-1631 | n forward steps land on 1 + (frame - 1 + n) mod count: frames cycle in order |
| SceneObjects.BackwardFramesCycle | engines/tsage/core.cpp:1617-1631 | n backward steps land on 1 + (frame - 1 - n) mod count |
| SceneObjects.FrameSlot | engines/tsage/core.cpp:2482-2490 | Visage::getFrame clamps the frame number to the count and makes a positive one 0-based |
| SceneObjects.FrameSlotInTable | engines/tsage/core.cpp:2482-2490 | any frame number from 0 up reads an existing slot of a non-empty frame table |
| SceneObjects.ApplyExactlyOne | engines/tsage/core.cpp:1555-1582 | when exactly one of the sequential tests holds, the strip is that test's strip |
| SceneObjects.ApplyNone | engines/tsage/core.cpp:1555-1582 | when no test holds, the strip is kept |
| SceneObjects.StripForFourFrames | engines/tsage/core.cpp:1555-1564 | every angle falls in exactly one sector of a 4-frame visage, whose strip (1..4) is chosen |
| SceneObjects.StripForEightFrames | engines/tsage/core.cpp:1565-1582 | every angle falls in exactly one sector of an 8-frame visage, whose strip (1..8) is chosen |
| SceneObjects.StripForOtherVisages | engines/tsage/core.cpp:1584-1585 | other visages keep the strip, capped at their frame count |
| SceneObjects.DrawsBeforeIsLexicographic | engines/tsage/core.cpp:2351-2363 | SceneObjectLess is the lexicographic order on (priority, y, yDiff) |
| SceneObjects.DrawsBeforeStrictOrder | engines/tsage/core.cpp:2351-2366 | it is irreflexive, transitive, asymmetric and total on distinct keys, as the sort needs |
| SceneObjects.SpliceArea | engines/tsage/core.cpp:1916-1921 | the splice area is 0 for equal positions and only when the positions are within one pixel on each axis |
| SceneObjects.SpliceAreaSymmetric | engines/tsage/core.cpp:1916-1921 | the splice area does not depend on the order of the two objects |
| SceneObjects.SceneObject.SetPosition | engines/tsage/core.cpp:1660-1664 | the object's state becomes WithPosition of the old state; other fields are unchanged |
| SceneObjects.SceneObject.SetZoom | engines/tsage/core.cpp:1666-1672 | fails (the assertion) exactly when the stored percentage is negative; otherwise the state becomes WithZoom |
| SceneObjects.SceneObject.ChangeZoomTo | engines/tsage/core.cpp:1674-1681 | the state becomes ChangeZoom of the old one; setZoom's assertion can only fail for a value other than -1, after the zoomed flag is set |
| SceneObjects.SceneObject.SetStrip | engines/tsage/core.cpp:1683-1688 | the state becomes WithStrip of the old one |
| SceneObjects.SceneObject.SetStrip2 | engines/tsage/core.cpp:1690-1697 | the state becomes WithStrip2 of the old one |
| SceneObjects.SceneObject.SetFrame | engines/tsage/core.cpp:1699-1704 | the state becomes WithFrame of the old one |
| SceneObjects.SceneObject.SetFrame2 | engines/tsage/core.cpp:1706-1713 | the state becomes WithFrame2 of the old one |
| SceneObjects.SceneObject.SetPriority | engines/tsage/core.cpp:1715-1720 | the state becomes WithPriority of the old one |
| SceneObjects.SceneObject.SetPriority2 | engines/tsage/core.cpp:1722-1729 | the state becomes WithPriority2 of the old one |
| SceneObjects.SceneObject.SetVisage | engines/tsage/core.cpp:1731-1736 | the state becomes WithVisage of the old one |
| SceneObjects.SceneObject.GetNewFrame | engines/tsage/core.cpp:1617-1631 | the object's next frame is NextFrame of its frame, change and animation mode |
| SceneObjects.SceneObject.AttachWrapper | engines/tsage/core.cpp:1538-1542 | the wrapped object is on strip 1 with the redraw flag raised |
| SceneObjects.SceneObject.WrapperDispatch | engines/tsage/core.cpp:1549-1587 | the strip becomes the sector strip of the angle, capped at the frame count, through setStrip; 1..4 for 4-frame and 1..8 for 8-frame visages |
| SceneObjects.ActionTick | engines/tsage/core.cpp:219-230 | no delay: nothing happens; a clock behind the start frame: nothing happens; otherwise the delay drops by the elapsed frames and the action is signalled exactly when it reaches zero, which is then stored |
| SceneObjects.DelayElapses | engines/tsage/core.cpp:216-248 | after setDelay(n) and dispatches with a clock that does not run backwards, the action is signalled exactly once, at the first reading n or more frames on |
| SceneObjects.TickIdle | engines/tsage/core.cpp:219-230 | with no delay, dispatching changes nothing and signals nothing |
| SceneObjects.Action.SetDelay | engines/tsage/core.cpp:244-247 | stores the delay and the current frame |
| SceneObjects.Action.Dispatch | engines/tsage/core.cpp:216-231 | the countdown part of dispatch follows ActionTick (the sub-action's dispatch is left out) |
| Movers.SetupParams | engines/tsage/core.cpp:357-376 | the plan stores the destination, the absolute deltas, and signs such that sign × delta is the signed difference on each axis |
| Movers.MajorOf | engines/tsage/core.cpp:366-372 | the budget is the larger delta (x on a tie) |
| Movers.SetupConsistent | engines/tsage/core.cpp:351-382 | the state setup leaves is consistent: signs in {-1, 0, 1} matching the deltas, the budget no larger than the major delta, and ended exactly for a zero move |
| Movers.AxisAmount | engines/tsage/core.cpp:285-287 | the major-axis step is never zero when the sign is not, and zero when it is |
| Movers.AxisAmountSign | engines/tsage/core.cpp:285-287 | with a non-negative step size and zoom, the truncated step goes the way of the sign |
| Movers.MinorStep | engines/tsage/core.cpp:290-304 | the carried remainder stays non-negative and below the divisor |
| Movers.DispatchProgress | engines/tsage/core.cpp:276-349 | a dispatch with budget left lowers it by at least one, stays consistent, moves the major axis toward the destination, and ends exactly when the budget is spent (`dontMove`), on the destination |
| Movers.DispatchX | engines/tsage/core.cpp:284-308 | the x-major branch of dispatch does so |
| Movers.DispatchY | engines/tsage/core.cpp:310-334 | the y-major branch of dispatch does so |
| Movers.MoveEnds | engines/tsage/core.cpp:276-386 | `dontMove` eventually holds: a move with budget B has ended, with its budget spent, within B dispatches, on the destination |
| Movers.ObjectMover.constructor | engines/tsage/core.cpp:351-382 | a mover for the given object, with no budget, remembering whether an action waits for the end of the move |
| Movers.ObjectMover.EndMove | engines/tsage/core.cpp:388-394 | endMove: the object's mover is cleared when it names this mover, nothing else about the object changes, and the waiting action, if any, is signalled |
| Movers.ObjectMover.Setup | engines/tsage/core.cpp:351-382 | turns the object, lets the wrapper choose the strip unless it is pinned, and leaves the plan SetupParams, the budget MajorOf, the carry 0 and the move ended exactly when already at the destination; a move that ends so goes through endMove (the object's mover cleared, the action signalled) |
| Movers.ObjectMover.StartMove | engines/tsage/core.cpp:357-381 | the second half of setup: the plan, budget and minor half-delta from the object's position |
| Movers.ObjectMover.DontMove | engines/tsage/core.cpp:384-386 | `dontMove` holds exactly when the budget is spent, and then a further dispatch changes nothing |
| Movers.ObjectMover.Dispatch | engines/tsage/core.cpp:276-349 | the progress becomes Advance of the old progress; when `dontMove` held nothing changes; otherwise the object is repositioned (redraw flag raised) and the move has ended exactly when `dontMove` now holds, on the destination; the step that ends it goes through endMove (the object's mover cleared, the action signalled) |
| Movers.WalkTracksLine | engines/tsage/core.cpp:762-777 | after n major steps the walk has taken k <= n minor steps with k × major + err = start + n × minor and 0 <= err <= major |
| Movers.FindLinePoint | engines/tsage/core.cpp:745-782 | the offset point uses C++ truncating division by 8 and 9, directions are opposite to the offsets' signs, and the result is LinePoint after max(length, 0) steps |
| Movers.WalkLine | engines/tsage/core.cpp:759-779 | the loop of findLinePoint ends on LinePoint after max(length, 0) steps |
| Movers.LinePointNext | engines/tsage/core.cpp:762-776 | one more step moves one pixel along the major axis and one along the minor axis exactly when the error overflows |
| Movers.LinePointNearLine | engines/tsage/core.cpp:745-782 | the returned point is `length` pixels along the major axis and within one pixel of the ideal line on the other |
| EobText.CLen | engines/kyra/text_eob.cpp:425 | `strlen`: the characters before the first NUL, all of them for a C string |
| EobText.ToLower | engines/kyra/text_eob.cpp:124 | `tolower` maps ASCII capitals to small letters and leaves everything else |
| EobText.FormatIntIsCString | engines/kyra/text_eob.cpp:127-128 | a `%d` rendering never holds a NUL, so it can be read as the substitution string |
| EobText.TextWidthStep | engines/kyra/text_eob.cpp:356 | one more character adds its glyph's width to the line width |
| EobText.TextWidthMonotone | engines/kyra/text_eob.cpp:353-368 | a longer prefix is never narrower, so the first fitting prefix met going backwards is the longest |
| EobText.TextWidthAtLeast | engines/kyra/text_eob.cpp:224-229 | n characters are at least n times the narrowest glyph wide |
| EobText.LastSpaceFit | engines/kyra/text_eob.cpp:343-368 | the cut found by the backward scan is 0 or an index in [1, hi) holding a space |
| EobText.LastSpaceFitFits | engines/kyra/text_eob.cpp:343-368 | the text in front of that space fits in the width left |
| EobText.LastSpaceFitIsLast | engines/kyra/text_eob.cpp:353-368 | no later space has a prefix that fits: the cut is after the last space that fits |
| EobText.LastFit | engines/kyra/text_eob.cpp:358-359 | the hard cut n2 is 0 or an index in [1, hi) |
| EobText.LastFitFits | engines/kyra/text_eob.cpp:358-359 | the prefix up to the hard cut fits |
| EobText.LastFitIsLongest | engines/kyra/text_eob.cpp:353-368 | every longer prefix is too wide |
| EobText.LastFitKeepsOne | engines/kyra/text_eob.cpp:370-377 | when the first character fits, the hard cut keeps at least one character, so printLine makes progress |
| EobText.NonSpaceConcat | engines/kyra/text_eob.cpp:381-431 | dropping spaces distributes over concatenation |
| EobText.NonSpaceCut | engines/kyra/text_eob.cpp:419-428 | cutting a line and dropping only spaces at the cut loses no other character |
| EobText.NoSpaceLeft | engines/kyra/text_eob.cpp:419-423 | a run of spaces has no other character |
| EobText.TabCell | engines/kyra/text_eob.cpp:176-177 | `((dv + 8) & 0xfff8) - 1` in 16 bits is the last cell of dv's group of eight, or 0xffff past the last group |
| EobText.TextsConcat | engines/kyra/text_eob.cpp:409-411 | the text of two runs of printText calls is the concatenation of their texts |
| EobText.BufferRoom | engines/kyra/text_eob.cpp:224-229 | a line that fits the window leaves room for another character in the 85-character buffer |
| EobText.ScanStep | engines/kyra/text_eob.cpp:353-368 | one step of the backward scan: the answers for n1 + 1 characters from those for n1 |
| EobText.ScanBack | engines/kyra/text_eob.cpp:350-368 | the backward loop: n1 stops at the last space that fits (0 when none, -1 on an empty line), n2 is the longest prefix that fits, and lw is the width in front of n1 |
| EobText.ScanBackStep | engines/kyra/text_eob.cpp:354-367 | one turn of the loop: found exactly when a fitting prefix was seen and this character is a space, which is then the last space that fits |
| EobText.TabStop | engines/kyra/text_eob.cpp:174-181 | code 9 moves the cursor to 0 or to the last cell of its group of eight, which lies below the 16-bit `charsPerLine` |
| EobText.TabStopInWindow | engines/kyra/text_eob.cpp:174-181 | the tab stop lies inside the window |
| EobText.ExtendsTrans | engines/kyra/text_eob.cpp:409-411 | printed logs that grow inside the window compose |
| EobText.KeptStep | engines/kyra/text_eob.cpp:223-232 | the text printed plus the pending line keep accounting for every character added, step after step |
| EobText.AccountStep | engines/kyra/text_eob.cpp:123-233 | one character of displayText keeps that account from the start of the call |
| EobText.ShiftDown | engines/kyra/text_eob.cpp:425-428 | the in-place shift moves the len characters from s to the front and NUL-terminates them |
| EobText.SkipSpaces | engines/kyra/text_eob.cpp:419-423 | the rest starts at most two characters after the cut |
| EobText.SkipSpacesSkipsSpaces | engines/kyra/text_eob.cpp:419-423 | only spaces are skipped, one at the cut and one more if another follows |
| EobText.DropCut | engines/kyra/text_eob.cpp:419-430 | the tail of printLine: spaces at the cut skipped, the rest up to its NUL moved to the front, and its length returned |
| EobText.DropCutKeepsText | engines/kyra/text_eob.cpp:419-430 | on a C string the rest is everything after the skipped spaces, and only spaces are lost at the cut |
| EobText.TextDisplayer.constructor | engines/kyra/text_eob.cpp:36-57 | a displayer on the first of the given areas, nothing pending, no lines counted, page breaks allowed, nothing printed |
| EobText.TextDisplayer.ReadNextPara | engines/kyra/text_eob.cpp:255-276 | the next pending character (substitution first, then the text) goes into the lookahead, NUL once both are exhausted; an exhausted substitution is dropped |
| EobText.TextDisplayer.ParseCommand | engines/kyra/text_eob.cpp:241-253 | returns the lookahead and moves on by exactly one character of what is still to read, refilling when empty; NUL only at the end |
| EobText.TextDisplayer.Substitute | engines/kyra/text_eob.cpp:122-139 | the `%d`/`%s` branch: the format letter is dropped and reading continues with the argument, then the rest of the text |
| EobText.TextDisplayer.ResetDimTextPositions | engines/kyra/text_eob.cpp:77-80 | the area's cursor goes to (0, 0); nothing else changes |
| EobText.TextDisplayer.SetPageBreakFlag | engines/kyra/text_eob.cpp:87-90 | page breaks are allowed and the line count is 0 |
| EobText.TextDisplayer.ClearCurDim | engines/kyra/text_eob.cpp:498-508 | the line count and the current area's cursor become 0; the other areas are unchanged |
| EobText.TextDisplayer.TextPageBreak | engines/kyra/text_eob.cpp:510-635 | after the wait, the page restarts as clearCurDim leaves it |
| EobText.TextDisplayer.Scroll | engines/kyra/text_eob.cpp:287-303 | the scroll loop ends with the cursor line inside the window, colours kept, other areas unchanged |
| EobText.TextDisplayer.Cut | engines/kyra/text_eob.cpp:343-378 | the cut for an over-wide line: after the last space that fits; with none, pushed whole to the next line once (printFlag), else cut hard at the longest fitting prefix |
| EobText.TextDisplayer.ChooseCut | engines/kyra/text_eob.cpp:305-378 | the whole line when it fits beside the cursor; otherwise Cut in the width left after the cursor and the "more" reserve; the printed part always fits |
| EobText.TextDisplayer.PrintHead | engines/kyra/text_eob.cpp:287-417 | scroll, cut, print exactly the text up to the cut at the cursor (inside the window) and move the cursor on |
| EobText.TextDisplayer.Emit | engines/kyra/text_eob.cpp:381-417 | one printText call of the text up to the cut, inside the window, and the cursor moves by lw |
| EobText.TextDisplayer.KeepRest | engines/kyra/text_eob.cpp:419-431 | the pending line becomes the old line from the cut, after up to two skipped spaces, up to its NUL (for a C string, the whole rest), NUL-terminated and with its width; only spaces at the cut are lost |
| EobText.TextDisplayer.PrintPass | engines/kyra/text_eob.cpp:278-433 | one pass prints one call inside the window; the printed text plus the new pending line hold the old line's characters, spaces at the cut aside; and the line shrinks, empties, or is pushed once from a non-zero column |
| EobText.TextDisplayer.PrintLine | engines/kyra/text_eob.cpp:278-441 | printLine, with its recursion, terminates, prints only inside the window, leaves nothing pending, and prints every non-space character of the line |
| EobText.TextDisplayer.Flush | engines/kyra/text_eob.cpp:237-238 | printLine as displayText calls it leaves the displayer ready for the next character |
| EobText.TextDisplayer.PageBreakCode | engines/kyra/text_eob.cpp:158-162 | code 1: the line is printed and a new page starts with the cursor home and the counters cleared |
| EobText.TextDisplayer.ColorCode | engines/kyra/text_eob.cpp:164-172 | codes 2 and 6: the line is printed and the next character becomes the background or foreground colour |
| EobText.TextDisplayer.ReadColor | engines/kyra/text_eob.cpp:164-172 | the colour is the character parseCommand returns (0 at the end) |
| EobText.TextDisplayer.TabCode | engines/kyra/text_eob.cpp:174-181 | code 9: the line is printed and the cursor moves to TabStop of its column |
| EobText.TextDisplayer.NewLineCode | engines/kyra/text_eob.cpp:188-196 | code 13: the line is printed and the cursor goes to column 0 of the next line |
| EobText.TextDisplayer.Push | engines/kyra/text_eob.cpp:224-226 | the character is appended to the pending line and its width to the line width |
| EobText.TextDisplayer.AppendChar | engines/kyra/text_eob.cpp:223-229 | any other character is appended, and the line printed once it no longer fits; nothing but spaces at cuts is lost |
| EobText.TextDisplayer.HandleChar | engines/kyra/text_eob.cpp:155-230 | the switch on the control code keeps the displayer ready and accounts for every text character |
| EobText.TextDisplayer.Format | engines/kyra/text_eob.cpp:124-139 | stops exactly on `%` followed by a letter other than d or s (either case) outside a substitution; a `%d`/`%s` consumes text and reads the next character |
| EobText.TextDisplayer.Advance | engines/kyra/text_eob.cpp:155-232 | the switch then the next character: what is left to read never grows |
| EobText.TextDisplayer.Turn | engines/kyra/text_eob.cpp:123-233 | one turn of the loop keeps the loop invariant and makes progress, or stops on a bad format letter |
| EobText.TextDisplayer.Reset | engines/kyra/text_eob.cpp:99-110 | nothing pending, counters and flag cleared, str the text to read |
| EobText.TextDisplayer.Begin | engines/kyra/text_eob.cpp:99-112 | the reset and the first parseCommand establish the loop invariant |
| EobText.TextDisplayer.Finish | engines/kyra/text_eob.cpp:237-238 | a pending line is printed at the end, so all of plain text is printed |
| EobText.TextDisplayer.DisplayText | engines/kyra/text_eob.cpp:96-239 | displayText terminates, prints only inside the window, leaves nothing pending, and prints every non-space character of text without control codes or `%` |
| ThemeConfig.NamedStep | gui/theme-config.cpp:271-279 | proof helper: a key is one of the first k coordinate names of a widget exactly when it is one of the first k - 1 or the k-th |
| ThemeConfig.NamedMono | gui/theme-config.cpp:271-279 | proof helper: a name among the first k coordinates stays among the first m for every m >= k |
| ThemeConfig.DotInjective | gui/theme-config.cpp:274-275 | `base + "." + p` determines p: two coordinate names of one widget are equal only for equal postfixes |
| ThemeConfig.DotNe | gui/theme-config.cpp:274-275 | proof helper: different postfixes give different variable names |
| ThemeConfig.DotsDistinct | gui/theme-config.cpp:381-382 | the six names `alias.<p>` of one widget are pairwise distinct whenever the postfixes are |
| ThemeConfig.CornersDistinct | gui/theme-config.cpp:375 | the four field postfixes are the first four of the six alias postfixes, and the six are pairwise distinct |
| ThemeConfig.Cuts | gui/theme-config.cpp:281-286 | the field separators found in the first i characters are strictly increasing positions below i |
| ThemeConfig.CutsExact | gui/theme-config.cpp:281-286 | a position is a separator exactly when it holds whitespace at parenthesis depth zero |
| ThemeConfig.DepthNonNegative | gui/theme-config.cpp:287-296 | while no `)` has been extra, the depth never goes below zero |
| ThemeConfig.LineCheck | gui/theme-config.cpp:281-301 | the outcome of the character loop and the missing-`)` check: an extra `)`, a fifth field or an unclosed `(` is an error |
| ThemeConfig.ScanErrorNone | gui/theme-config.cpp:281-297 | the character loop meets no error on a prefix exactly when no `)` there is extra and it has at most four separators |
| ThemeConfig.ScanErrorSticks | gui/theme-config.cpp:290-294 | the first error the loop meets is final: later characters do not change it, as error() does not return |
| ThemeConfig.LineCheckNone | gui/theme-config.cpp:281-301 | a value is accepted exactly when its parentheses balance and it has at most three separators (four fields) |
| ThemeConfig.SelfAliases | gui/theme-config.cpp:270-279 | `self.<p>` names `<prefix+name>.<p>` and that variable is undefined, for each of x, y, w, h; every other variable and alias is kept |
| ThemeConfig.Fields | gui/theme-config.cpp:281-286 | the fields before the last set exactly the coordinates `<base>.x`, `.y`, ... in order and nothing else; aliases and definitions are kept |
| ThemeConfig.FieldsStep | gui/theme-config.cpp:282-285 | proof helper: one more separator evaluates the text between the last separator and it, on the state so far, and stores it as the next coordinate |
| ThemeConfig.CornerSums | gui/theme-config.cpp:311-317 | `.x2` is `.x + .w` and `.y2` is `.y + .h`; every other variable is kept |
| ThemeConfig.SpecialAliases | gui/theme-config.cpp:374-386 | `alias.<p>` names `target.<p>` for the first k of x, y, w, h, x2, y2; variables, definitions and other aliases are kept |
| ThemeConfig.Separators | gui/theme-config.cpp:281-286 | the separators of a whole value, strictly increasing and inside it |
| ThemeConfig.LineEffectPlain | gui/theme-config.cpp:303-307 | a one-field value is evaluated and stored under the bare name; the `self.` aliases are set and the four coordinates stay undefined |
| ThemeConfig.LineEffectRect | gui/theme-config.cpp:311-317 | after a four-field line, `.x2 = .x + .w` and `.y2 = .y + .h` hold for the widget |
| ThemeConfig.LastFieldFrame | gui/theme-config.cpp:303-320 | the last field changes only the bare name and the widget's six coordinates, and only the `prev.` aliases |
| ThemeConfig.LastFieldWidget | gui/theme-config.cpp:308-320 | after several fields, the coordinates after the last one are untouched and `prev.<p>` names this widget's six coordinates |
| ThemeConfig.LineEffectWidget | gui/theme-config.cpp:262-321 | a multi-field line makes `prev.<p>` and `self.<p>` name this widget's coordinates, and coordinates it does not give stay undefined |
| ThemeConfig.LineEffectFrame | gui/theme-config.cpp:262-321 | a line changes no definition and no section alias, only the bare name and its widget's coordinates, and only the `self.` and `prev.` aliases |
| ThemeConfig.TooManyFieldsAt | gui/theme-config.cpp:281-286 | the loop reports too many fields on a prefix exactly when it meets a fifth field there before any other error |
| ThemeConfig.OverrunIsTooManyFields | gui/theme-config.cpp:283-303 | the values for which the source indexes `postfixes[4]`, past its end, are exactly those the model rejects as having too many fields |
| ThemeConfig.FlatDepth | gui/theme-config.cpp:287-296 | without parentheses the depth is zero throughout |
| ThemeConfig.FlatBalanced | gui/theme-config.cpp:287-301 | a value without parentheses passes both parenthesis checks |
| ThemeConfig.CutsWordSpace | gui/theme-config.cpp:282-286 | without parentheses, a word character followed by a space adds exactly one separator |
| ThemeConfig.FiveFieldsShape | gui/theme-config.cpp:281-297 | a flat value of five one-character words has four separators and balances |
| ThemeConfig.FiveFieldsReadPastPostfixes | gui/theme-config.cpp:283-303 | `1 2 3 4 5` makes the source index `postfixes[4]`; the model rejects it as too many fields |
| ThemeConfig.IndexOf | gui/theme-config.cpp:360 | strchr: the first occurrence of c, or the end when there is none |
| ThemeConfig.LastIndexOf | gui/theme-config.cpp:354 | strrchr: the last occurrence of c, or -1 when there is none |
| ThemeConfig.IndexOfAt | gui/theme-config.cpp:360 | an occurrence with none before it is the one strchr finds |
| ThemeConfig.LastIndexOfAt | gui/theme-config.cpp:354 | an occurrence with none after it is the one strrchr finds |
| ThemeConfig.UseSection | gui/theme-config.cpp:360 | the section of useWithPrefix is the space-free text before the first space |
| ThemeConfig.UsePrefix | gui/theme-config.cpp:361 | the prefix of useWithPrefix is the space-free text after the last space |
| ThemeConfig.SplitUse | gui/theme-config.cpp:352-361 | useWithPrefix fails exactly when its value has no space |
| ThemeConfig.SplitUseRoundTrip | gui/theme-config.cpp:352-361 | `n + " " + pref` with space-free words splits back into n and pref |
| ThemeConfig.SkipDefsKeepsDefs | gui/theme-config.cpp:339-349 | a section read with skipDefs, and every section it uses in turn, stores no definition |
| ThemeConfig.DefsStored | gui/theme-config.cpp:339-367 | a section read from the top stores exactly its own `def_` entries under its name and the prefixed key, the last of a key winning; the sections it uses add none |
| ThemeConfig.UseGuardAdmitsMissing | gui/theme-config.cpp:344-349 | for `[XxY]` with `use=Missing` the guard as written passes although the target is missing; the model fails with an undefined use |
| ThemeConfig.SectionNamesDistinct | gui/theme-config.cpp:407-419 | the four section names differ for every width and height, so no section is read twice |
| ThemeConfig.SectionNamesRoundTrip | gui/theme-config.cpp:411-419 | the width and the height read back from the `%dxY` and `Xx%d` names |
| ThemeConfig.ApplyAllFrom | gui/theme-config.cpp:407-421 | proof helper: reading sections from the k-th on reads the k-th if present, then the rest on the state it left, stopping at the first error |
| ThemeConfig.NoSectionsNoChange | gui/theme-config.cpp:407-421 | a configuration with none of the sections leaves the state unchanged |
| ThemeConfig.Theme.SetSpecialAlias | gui/theme-config.cpp:374-386 | the evaluator state becomes SpecialAliases of the old one for all six postfixes |
| ThemeConfig.Theme.ProcessSingleLine | gui/theme-config.cpp:262-321 | the error is exactly LineCheck of the value; an accepted value leaves the state LineEffect describes |
| ThemeConfig.Theme.StoreLast | gui/theme-config.cpp:303-320 | the last field, the edges and the `prev` alias leave the state LastField describes |
| ThemeConfig.Theme.ScanChar | gui/theme-config.cpp:282-296 | one character of the loop: the error is exactly the loop's first error so far, and without one the loop state is kept |
| ThemeConfig.Theme.StoreFields | gui/theme-config.cpp:281-301 | the loop and its checks: the error is LineCheck; without one, the start and the field count match the separators, fewer than four, and the fields are stored as Fields |
| ThemeConfig.Theme.ProcessResSection | gui/theme-config.cpp:324-372 | reading a section ends in the state Apply gives, or fails with the error Apply gives |
| ThemeConfig.Theme.ProcessEntry | gui/theme-config.cpp:330-370 | one entry: reading on from the next entry on the new state is reading from this one, or this entry fails as Apply says; a `use` of a missing section fails |
| ThemeConfig.Theme.ProcessIfPresent | gui/theme-config.cpp:408-409 | a present section is read, an absent one is skipped |
| ThemeConfig.Theme.LoadTheme | gui/theme-config.cpp:400-422 | after an optional reset, the four sections are read in order where present, stopping at the first error |
| ThemeConfig.Theme.IsThemeLoadingRequired | gui/theme-config.cpp:388-398 | loading is required exactly when the size differs from the remembered one, and the new size is remembered |
| Decimal.FormatIntRoundTrip | gui/theme-config.cpp:411-419 | `%d` formatting reads back to the number for every int |
| Decimal.FormatIntInjective | gui/theme-config.cpp:411-419 | different numbers give different `%d` texts |
| CMath.CDiv | engines/tsage/core.cpp:746-747 | C++ truncating division: the quotient lies between zero and the exact quotient and has its sign |
| CMath.CDivNegativeDividend | engines/tsage/core.cpp:746-747 | for a negative dividend the divisor does not divide, C++ division is one more than Dafny's floor division |
| CMath.Sign | engines/tsage/core.cpp:360-361 | the sign of a delta is -1, 0 or 1, zero exactly for a zero delta, and times the magnitude gives the delta back |
| Decimal.FormatNatRoundTrip | engines/kyra/text_eob.cpp:127-128 | decimal formatting of a natural number reads back to it |

## Left out

- Floating-point code of `core.cpp` (`PlayerMover::pathfind`, the line-intersection helper, `findDistance`, `FloatSet`): not integer logic, so not part of this model.
- Drawing and palette output: `Region::draw`, `SceneObject::draw`, `SceneObjectList::draw`, and the `setPalette` calls inside `signal` and `fade`. For `signal` the model gives each call's source index, destination index and count; for `fade` it computes the faded entries.
- `synchronise` methods, resource fetching through the data manager, and the `Region`/`WalkRegion` resource loaders. A fetched resource is an input: an `Option` of its bytes.
- `WalkRegion` passes other than `process2`, `process5` and `loadProcessList`: they build the region from the edge list, which is outside the edge-list logic modelled here.
- Event and dialog handling, `SceneObject::animate`, `changeFrame`, random frames, and object-list activation: they depend on the game loop and on object lifetimes.
- Clocks (`g_globals->_events.getFrameNumber()` and the like) become `now` parameters.
- Object flag bit values are defined in a header that is not part of this model. The flags are a set of named flags.
- `Common::Rect` is not part of this model. A rectangle is assumed valid when left <= right and top <= bottom, and `contains` is taken as half-open.
- The PC-98 paths of the text displayer (SJIS text, colour remapping, the PC-98 cut rule) are not modelled.
- `textPageBreak`'s input polling, timers and speech clock are not modelled: `TextPageBreak` is the counter reset that follows the wait. The button box, its label and the `fillRect` that erases it (text_eob.cpp:559-565, 608-611) are not modelled either, so the label is not an entry of the `printed` log.
- `displayWaitButton`, `printDialogueText`, `printMessage` and `clearDim` are not modelled. Each `printText` call of `printLine` (text_eob.cpp:409, 411) becomes an entry of the `printed` log. `fillRect`, `copyRegion` and the screen scroll are not modelled beyond the cursor and counters they go with.
- Glyph widths are a total function in `Layout`. `LayoutOk` requires two things: every glyph fits in the window beside the "more" button reserve, and a window line of the narrowest glyphs fits the 85-character buffer. The source relies on fonts with these properties; without them `printLine` could recurse without end or overrun its buffer.
- The `va_list` arguments of `displayText` are two functions, `intArg` and `strArg`, indexed by argument position.
- C `int` is 32 bits and overflows; the model's integers are unbounded. Overflow in `%d` arguments, coordinates and theme sums is not modelled. Explicit byte and 16-bit truncations (palette channels, `uint8` indices, the tab cell) are modelled.
- `isspace` is taken in the C locale.
- The theme expression evaluator (`gui/eval.h`, `gui/eval.cpp`) is not part of this model. Its state is `Env` and evaluation is the parameter `eval`; `reset` gives the empty state.
- `error()` aborts the program. The model returns an error value and reads no further.
- `processResSection` without a prefix argument defaults to the empty prefix.
- ThemeConfig.Apply: a cycle of `use` entries among distinct sections makes the source recurse without end. The model stops it with `CyclicUse`.
- The overlay width and height from `g_system` are parameters of `LoadTheme` and `IsThemeLoadingRequired`.
- EobText.TextDisplayer.PrintLine: the contract states where the cursor ends and that the printed pieces carry exactly the non-space characters of the line. It does not state every piece's position and colour.
- EobText.TextDisplayer.DisplayText: for text without control codes or substitutions, the printed text keeps exactly the non-space characters of the input. For other text, the contract states only that the log grows with on-screen pieces.
- Palette.ScenePalette.LoadPalette: where the source reads past the resource or writes past the 256-entry table, the model returns `Overrun` and changes nothing; what the source would overwrite is not modelled. See Findings.
- WalkEdges.WalkRegion.LoadProcessList: where the source would write past the process list, the model stops with `ListOverrun`, the list full; an empty corner list, where the source reads before the data, gives `NoCorners`. See Findings.
- Palette.PaletteRotation.Signal: the calls it returns place the head of the range after its tail, as the rotation evidently intends; the calls as written are `SignalCallsAsWritten`. The restoring call of `remove` reads the range from its own saved entries; the call as written is `RestoreCallAsWritten`. See Findings.
- Palette.PaletteRotation.DecDurationStep / Signal: `remove` also unlinks the rotation from its palette's listeners and deletes it (core.cpp:1099-1102). The model marks it `removed` and leaves it in the list; object lifetimes are not modelled, and `Signal` requires a rotation that is not removed.
- Movers.ObjectMover.Setup / Dispatch: `endMove` deletes the mover (core.cpp:272); object lifetimes are not modelled, so the mover stays, marked `ended`. `dispatch`'s `_field6E` test (core.cpp:283, 338) always sees 0, because the line that would set it is commented out, so only its zero branch is modelled.
- SceneObjects.Action.Dispatch: the dispatch of the sub-action `_action` (core.cpp:217-218) is not modelled. Chains of actions would need a footprint over linked objects; only the action's own countdown is modelled.
- Regions.MergeSlices: models the intersection as written. It is proved sound but not complete; see Findings.

## Findings

| source | as written | input that shows it | evidently intended | confidence | as-written member | corrected member |
|---|---|---|---|---|---|---|
| engines/tsage/core.cpp:2672-2680 | `mergeSlices` advances whichever slice starts later, so the slice it should keep overlapping is dropped | set1 = [(0,4),(6,8)], set2 = [(2,10)] gives [(2,4)] | the intersection [(2,4),(6,8)] | not executed | Regions.MergeMissesOverlap | Regions.IntersectSlicesExact |
| gui/theme-config.cpp:347 | the `use` guard checks that the current section exists, which always holds | `[XxY]` with `use=Missing` passes the guard and reads a missing section | the guard checks the named section and reports "Undefined use" | not executed | ThemeConfig.UseGuardAdmitsMissing | ThemeConfig.Theme.ProcessEntry |
| gui/theme-config.cpp:283-303 | `npostfix` is not bounded, so a fifth field indexes `postfixes[4]`, past the end of the array | the value `1 2 3 4 5` | a line has at most four fields; more is an error | not executed | ThemeConfig.FiveFieldsReadPastPostfixes | ThemeConfig.OverrunIsTooManyFields |
| engines/tsage/core.cpp:1171-1178 | `loadPalette` checks only the entry count, so the first entry plus the count can exceed the 256-entry `_palette` table | first entry 255, two entries: the second goes to index 256 | entries past the table, or triples past the resource, are rejected | not executed | Palette.LoadWritesPastTable | Palette.ScenePalette.LoadPalette |
| engines/tsage/core.cpp:2862, 2906-2921 | `loadProcessList` writes one record per non-horizontal edge into the fixed-size `_processList` without a bound check | a triangle (0,0), (0,1), (1,0) with a one-slot list: the second edge goes to slot 1 | an edge that finds the list full is reported | not executed | WalkEdges.LoadWritesPastList | WalkEdges.WalkRegion.LoadProcessList |
| engines/tsage/core.cpp:1087-1090 | the second `setPalette` of `signal` writes the head of the range to `_start`, over the first entries just written | range 0..3 at index 1: screen entry 0 shows saved entry 0, entry 3 is never set | the head goes to `_start + count`, after the tail | not executed | Palette.SignalOverwritesHead | Palette.SignalShowsRotation |
| engines/tsage/core.cpp:1097 | `remove` restores the range from `&_palette[0]`, the saved entries from 0 on, not from `_start` | range 2..3: screen entries 2 and 3 get saved entries 0 and 1 | each entry of the range gets its own saved colour back | not executed | Palette.RestoreShowsLowEntries | Palette.RestoreShowsSaved |
