# frost-fixed-table layout synchronisation, in Dafny

`frost-fixed-table` renders one table as three separately scrolling strips:
frozen columns on the left, scrollable columns in the middle, and frozen
columns on the right. Keeping the strips looking like one table is the
component's job. It does this in five parts, which this project models as
pure functions and proves properties about:

- **Partitioning columns** (`leftColumns`, `middleColumns`, `rightColumns`).
  Each column is first stamped with its position in the supplied list
  (`_rewriteIndices`). The leading run of frozen columns goes left. The
  trailing run of frozen columns among the rest goes right. Everything
  between goes to the middle, in order. This is module `Columns`, and
  `ColumnFixture` holds the unit test's seven-column cases.
- **Aligning columns** (`alignColumns`). Header cell `i` (`eq(i)`) and body
  cell `i + 1` (`:nth-child(i + 1)`) of a strip both get the wider of their
  two measured widths, as `width` and as `flex-basis`. This is module
  `Alignment`.
- **The layout passes** (`setupBodyHeights`, `setupMiddleMargins`,
  `setupMiddleWidths`, `setupLeftAndRightWidths`). Each pass is modelled as
  the finite map of style declarations it writes, computed from the
  measurements it reads. This is module `Layout`. Module `Render` then
  applies the passes of one render to a style state and proves how they
  combine.
- **Scroll synchronisation** (`syncScrollLeft`, `syncScrollTop`,
  `setupScrollSync`). These are transitions on a map from surface to
  offset, one map per axis. This is module `ScrollSync`.
- **The hover proxy** (`setupHoverProxy`). These are transitions on the set
  of surfaces that carry `ps-container-hover`. This is module `Hover`.

Module `Surfaces` names the rendered surfaces (panes, header content, rows,
cells) and the style properties the passes write. It also defines how a
set of writes is applied to a style state. The component's own source file
is not part of this model. Its behaviour is taken from the assertions of
its unit test, which the table below cites.

Every DOM measurement is a parameter. This covers `outerHeight`,
`outerWidth`, `scrollLeft` and `scrollTop`, and also the result of
`_calculateWidth`. Pixel values are unbounded integers, written without
the `px` suffix.

## Model

| member | source | states |
|---|---|---|
| Surfaces.Apply | tests/unit/components/frost-fixed-table-test.js:251-497 | One `.css` call: the written declarations take the written values, every other inline declaration keeps its value, and the declared set grows by exactly the written declarations. |
| Columns.Stamp | tests/unit/components/frost-fixed-table-test.js:17-19 | The stamped list has the input's length. Column `i` carries definition `i` unchanged, plus `index == i`. |
| Columns.StampCharacterized | tests/unit/components/frost-fixed-table-test.js:17-19 | Stamping adds the index and nothing else. A column list carries exactly the given definitions and is indexed by position if and only if it is their stamp. |
| Columns.FrozenRunEnd | tests/unit/components/frost-fixed-table-test.js:102-132 | The forward scan stops at the first unfrozen column (or at the end), and every column it passed is frozen. |
| Columns.FrozenRunStart | tests/unit/components/frost-fixed-table-test.js:176-206 | The backward scan never goes below its floor. Every column it passed is frozen. It stops either at the floor or just above an unfrozen column. |
| Columns.Cuts | tests/unit/components/frost-fixed-table-test.js:102-206 | The two cut points are ordered. Everything before the first cut and after the second is frozen. The column at the first cut and the column just before the second are unfrozen. |
| Columns.CutsUnique | tests/unit/components/frost-fixed-table-test.js:102-206 | Any pair of cut points with those five properties equals `Cuts`. |
| Columns.LeftColumns | tests/unit/components/frost-fixed-table-test.js:102-132 | `left` is a prefix of the stamped input and all of it is frozen. It is maximal: the next input column, if there is one, is unfrozen. |
| Columns.MiddleColumns | tests/unit/components/frost-fixed-table-test.js:134-174 | A non-empty `middle` begins and ends with an unfrozen column. |
| Columns.RightColumns | tests/unit/components/frost-fixed-table-test.js:176-206 | `right` is a suffix of the stamped input and all of it is frozen. |
| Columns.PartitionTiles | tests/unit/components/frost-fixed-table-test.js:102-206 | `left ++ middle ++ right` is the stamped input: nothing is lost, duplicated, reordered or altered. |
| Columns.SplitCuts | tests/unit/components/frost-fixed-table-test.js:102-206 | Any triple satisfying the frozen-split description is the partitioner's output. |
| Columns.PartitionIsFrozenSplit | tests/unit/components/frost-fixed-table-test.js:102-206 | Both directions: the partitioner's output satisfies the independent frozen-split description, and no other triple does. |
| Columns.NoFrozenAllMiddle | tests/unit/components/frost-fixed-table-test.js:145-153 | With no frozen column, `left` and `right` are empty and `middle` is the whole stamped input. |
| Columns.AllFrozenAllLeft | tests/unit/components/frost-fixed-table-test.js:165-173 | With every column frozen, `left` is the whole stamped input and `middle` and `right` are empty. |
| Columns.UnfrozenEndsEmpty | tests/unit/components/frost-fixed-table-test.js:113-195 | An unfrozen first column leaves `left` empty. An unfrozen last column leaves `right` empty. |
| Columns.FrozenRunStartFloor | tests/unit/components/frost-fixed-table-test.js:176-206 | Once an unfrozen column lies above the floor, lowering the backward scan's floor does not change where it stops. |
| Columns.RightIsTrailingRun | tests/unit/components/frost-fixed-table-test.js:176-206 | When any column is unfrozen, `right` is the maximal trailing frozen run of the whole input, whatever `left` took. |
| Columns.SliceRestamped | tests/unit/components/frost-fixed-table-test.js:145-153 | A contiguous slice is re-indexed from 0 and keeps its definitions. |
| ColumnFixture.Fixture | tests/unit/components/frost-fixed-table-test.js:35-69 | The seven test columns. |
| ColumnFixture.OrderedColumnsSplit | tests/unit/components/frost-fixed-table-test.js:103-185 | With the seven columns in order: `left` is stamped columns 0-1, `middle` is 2-4, `right` is 5-6. |
| ColumnFixture.NoLeadingFrozen | tests/unit/components/frost-fixed-table-test.js:113-153 | `columns.slice(2)` gives an empty `left`, and `middle` is the three unfrozen columns re-indexed from 0. |
| ColumnFixture.NoTrailingFrozen | tests/unit/components/frost-fixed-table-test.js:155-195 | `columns.slice(0, 5)` gives an empty `right`, and `middle` is stamped columns 2-4 with their original indices. |
| ColumnFixture.NoUnfrozen | tests/unit/components/frost-fixed-table-test.js:165-173 | `columns.slice(0, 2)` gives an empty `middle`. |
| ColumnFixture.NoColumns | tests/unit/components/frost-fixed-table-test.js:123-131 | With no columns, all three groups are empty. |
| Alignment.Wider | tests/unit/components/frost-fixed-table-test.js:676-690 | The aligned width is at least each measured width and equals one of them: it is their maximum. |
| Alignment.Paired | tests/unit/components/frost-fixed-table-test.js:669-671 | The number of aligned positions is the smaller of the header and body cell counts. The loop itself runs over the header cells; the mismatch is recorded under `Alignment.AlignColumns` in "Left out". |
| Alignment.AlignDomainMembers | tests/unit/components/frost-fixed-table-test.js:655-662 | Alignment writes exactly `width` and `flex-basis` of header cells `0 <= pos < n` and of body cells `1 <= nth <= n`. |
| Alignment.AlignColumns | tests/unit/components/frost-fixed-table-test.js:648-691 | Exactly the declarations of the paired positions are written. For each position, header cell `i` and body cell `i + 1` both get the wider width as `width` and as `flex-basis`. |
| Alignment.AlignFootprint | tests/unit/components/frost-fixed-table-test.js:648-691 | Alignment writes only `width` and `flex-basis`, and only on cells of its own strip. |
| Alignment.RealignIsStable | tests/unit/components/frost-fixed-table-test.js:648-691 | Measuring the aligned header cells and body cells again, each from its own declarations, and re-aligning writes exactly the same declarations. |
| Alignment.AlignFixture | tests/unit/components/frost-fixed-table-test.js:676-690 | Headers 100 and 20 with bodies 20 and 100 size all four cells at 100. |
| Layout.SetupBodyHeights | tests/unit/components/frost-fixed-table-test.js:251-293 | Only heights are written. Each of the three bodies plus the middle header's height equals the table's height. Placeholder rows are written if and only if a non-empty row's cell was measured, and then with that cell's height. |
| Layout.EmptyRowsIgnoreTableHeight | tests/unit/components/frost-fixed-table-test.js:290-292 | The placeholder row height does not depend on the table or header height. |
| Layout.BodyHeightsFixture | tests/unit/components/frost-fixed-table-test.js:271-292 | Table 100, header 20 and cell 50 give bodies of 80 and placeholder rows of 50. |
| Layout.SetupMiddleMargins | tests/unit/components/frost-fixed-table-test.js:409-442 | Exactly the two margins of the middle header and of the middle body are written: left margin = left body width, right margin = right body width. |
| Layout.MarginsFixture | tests/unit/components/frost-fixed-table-test.js:423-441 | Bodies of 123 and 321 give margins of 123 and 321. |
| Layout.MiddlePanesAligned | tests/unit/components/frost-fixed-table-test.js:409-442 | The middle header and the middle body get the same left margin and the same right margin, so their columns line up. |
| Layout.MiddleContentWidths | tests/unit/components/frost-fixed-table-test.js:483-489 | Exactly `width` and `flex-basis` of the middle header content and the middle rows are written, all with the calculated width. |
| Layout.SetupMiddleWidths | tests/unit/components/frost-fixed-table-test.js:463-497 | Only middle content and middle cells are written. The content gets the calculated width as `width` and `flex-basis`. Every write of the middle strip's alignment is issued with the aligned value. The pass writes exactly the union of the content's declarations and the alignment's. |
| Layout.MiddleWidthsFixture | tests/unit/components/frost-fixed-table-test.js:466-489 | A calculated width of 12345 sizes the middle header content and rows at 12345. |
| Layout.SetupLeftAndRightWidths | tests/unit/components/frost-fixed-table-test.js:444-461 | Only left and right cells are written. Every write of the left strip's alignment and of the right strip's alignment is issued with the aligned value. The pass writes exactly the union of the two alignments' declarations. |
| Render.Written | tests/unit/components/frost-fixed-table-test.js:209-244 | A declaration is written by a sequence of passes if and only if some pass in it writes that declaration. |
| Render.ApplyAll | tests/unit/components/frost-fixed-table-test.js:209-244 | After the passes, the styles are defined exactly on what was styled before plus everything some pass writes. |
| Render.ApplyAllWritten | tests/unit/components/frost-fixed-table-test.js:209-244 | When the passes agree, every declaration a pass writes ends with that pass's value. |
| Render.ApplyAllUntouched | tests/unit/components/frost-fixed-table-test.js:209-244 | A declaration that no pass writes keeps its presence and its value. |
| Render.ApplyAllOrderFree | tests/unit/components/frost-fixed-table-test.js:209-244 | Agreeing passes give the same styles in any order and with any repetition: only the set of passes matters. |
| Render.RenderPasses | tests/unit/components/frost-fixed-table-test.js:209-244 | `didRender` runs four layout passes. |
| Render.RenderPassesDisjoint | tests/unit/components/frost-fixed-table-test.js:209-244 | Each of the four passes writes only layout declarations of its own kind, so no two passes of a render write the same declaration. |
| Render.Rendered | tests/unit/components/frost-fixed-table-test.js:209-244 | After a render, the styles are defined exactly on what was styled before plus the render's footprint, described independently of the passes. |
| Render.RenderFootprint | tests/unit/components/frost-fixed-table-test.js:251-497 | A render writes a declaration if and only if it is one of: a body's height; the placeholder rows' height when a non-empty row was measured; a margin of the middle header or middle body; the middle content's width or flex-basis; a paired header or body cell's width or flex-basis in some strip. |
| Render.RenderOrderFree | tests/unit/components/frost-fixed-table-test.js:209-244 | For measurements taken once before the first pass, whatever order the passes are issued in, the table ends in the same state. |
| Render.BodiesFillTable | tests/unit/components/frost-fixed-table-test.js:251-293 | After a render, every body plus the middle header fills the table, and placeholder rows match a non-empty row's cell. |
| Render.MarginsReserveFrozenStrips | tests/unit/components/frost-fixed-table-test.js:409-442 | After a render, the middle header and middle body are indented by the frozen bodies' widths. |
| Render.MiddleContentSized | tests/unit/components/frost-fixed-table-test.js:463-489 | After a render, the middle header content and rows have the calculated width. |
| Render.AlignIsIssued | tests/unit/components/frost-fixed-table-test.js:444-497 | Each strip's alignment writes are issued by the pass responsible for that strip. |
| Render.AlignLands | tests/unit/components/frost-fixed-table-test.js:444-497 | After a render, every strip's alignment writes are in place. |
| Render.ColumnsAligned | tests/unit/components/frost-fixed-table-test.js:444-497 | After a render, in every strip, each paired header cell and body cell have the same width and flex-basis, the wider of the two. |
| Render.RenderKeepsOthers | tests/unit/components/frost-fixed-table-test.js:251-497 | A render leaves every declaration outside its footprint as it was, in presence and value. |
| Render.ApplyAllIdempotent | tests/unit/components/frost-fixed-table-test.js:209-244 | Issuing agreeing passes a second time changes nothing. |
| Render.RenderIdempotent | tests/unit/components/frost-fixed-table-test.js:209-244 | Rendering again with the same measurements changes nothing. |
| ScrollSync.WriteAll | tests/unit/components/frost-fixed-table-test.js:563-595 | Every present destination takes the offset. All other offsets and the set of present surfaces are unchanged. |
| ScrollSync.SyncOffsets | tests/unit/components/frost-fixed-table-test.js:546-595 | The handler copies the source's current offset to exactly the present destinations. Nothing changes when the source is absent. |
| ScrollSync.Fire | tests/unit/components/frost-fixed-table-test.js:546-646 | A binding syncs its own axis (`scrollLeft` or `scrollTop`) and leaves the other axis alone. |
| ScrollSync.Wiring | tests/unit/components/frost-fixed-table-test.js:499-544 | There are five listeners. Each source is in its axis group. Its destinations are exactly the rest of that group, never the source itself. Every member of a group is the source of some listener on that axis. |
| ScrollSync.SyncLevelIsNoop | tests/unit/components/frost-fixed-table-test.js:546-595 | Syncing within a group whose present surfaces already share an offset changes nothing. |
| ScrollSync.FireLevels | tests/unit/components/frost-fixed-table-test.js:499-544 | After a wired listener fires from a present source, every present surface of its group shows the source's offset. |
| ScrollSync.EchoIsNoop | tests/unit/components/frost-fixed-table-test.js:499-612 | With offsets stored exactly as written, a listener fired by the writes of another wired listener changes nothing when it syncs the same axis. It also changes nothing on the other axis when that axis's group is already level. So a table whose strips are in step settles after one step. |
| ScrollSync.OtherAxisEchoMoves | tests/unit/components/frost-fixed-table-test.js:514-535 | The level condition is needed. A horizontal write to the middle body also runs its vertical listener, which moves the left body's `scrollTop` from 0 to 50 when the middle body sits at 50. |
| ScrollSync.FireIdempotent | tests/unit/components/frost-fixed-table-test.js:546-595 | Firing a wired listener twice is the same as firing it once. |
| ScrollSync.SyncFixture | tests/unit/components/frost-fixed-table-test.js:563-644 | A source at 321 horizontally moves three destinations' `scrollLeft` to 321. A source at 123 vertically moves their `scrollTop` to 123. |
| Hover.ProxyTarget | tests/unit/components/frost-fixed-table-test.js:295-346 | Handlers exist exactly on the left body, the middle body and the middle header. The target is always the right body or the middle body, never the hovered surface itself. |
| Hover.OnPointer | tests/unit/components/frost-fixed-table-test.js:348-406 | The target has the hover class afterwards if and only if the event was an enter. No other surface changes. Surfaces without a handler change nothing. |
| Hover.Replay | tests/unit/components/frost-fixed-table-test.js:348-406 | After any event trace, every surface other than the right body and the middle body has its class exactly as before. |
| Hover.LastToggle | tests/unit/components/frost-fixed-table-test.js:348-406 | There is no last toggle exactly when no event in the trace targets the surface. Otherwise the reported pointer kind is that of an event targeting the surface with no later event targeting it. |
| Hover.ReplayLastToggleWins | tests/unit/components/frost-fixed-table-test.js:348-406 | After any event trace, a surface has the hover class if and only if the last event targeting it was an enter. A surface no event targets keeps its initial state. |
| Hover.ProxyOnlyRevealsScrollingStrips | tests/unit/components/frost-fixed-table-test.js:348-406 | No event trace adds the class to anything but the right body and the middle body. |
| Hover.EnterThenLeave | tests/unit/components/frost-fixed-table-test.js:348-406 | Enter followed by leave on one surface removes the class from its target and leaves everything else unchanged. |
| Hover.HoverFixture | tests/unit/components/frost-fixed-table-test.js:348-406 | Left or middle body enter/leave adds or removes the class on the right body. Middle header enter/leave adds or removes it on the middle body. |

## Left out

- DOM access, jQuery selectors and `px` formatting are not modelled. Each measurement the passes read is a field of `Layout.Measurements` or an entry of a scroll offset map. Each write is an integer in a style map.
- `_calculateWidth` is not modelled because its test is empty. Its result enters the model as the measured `middleWidth`.
- The category-header variant of alignment (`.has-categories`, `_categoryRowSelector`) is not modelled. The tests only stub it, and the model always uses the plain header-cell selector.
- Listener registration is not modelled. A scroll or hover handler is modelled as one synchronous state transition. The browser's event loop, and whether a write triggers a scroll event, are outside the model. `ScrollSync.EchoIsNoop` states what happens if such echo events do fire. It covers echoes on both axes, and `ScrollSync.OtherAxisEchoMoves` shows why an echo on the other axis needs that axis to be in step already.
- ScrollSync.EchoIsNoop: offsets are stored exactly as written. The browser clamps `scrollLeft` and `scrollTop` to each surface's scroll range and may round them. Neither is modelled, so strips of different scroll ranges could echo in the browser where the model settles.
- The order in which `didRender` runs the setups is not modelled. The test only checks that each runs once. The scroll and hover wiring that `didRender` also installs is not part of the style passes.
- Render.RenderOrderFree: every pass reads one `Measurements` value taken before the first pass. In the component a pass measures the DOM when it runs: `setupMiddleMargins` reads the frozen bodies' `outerWidth`, which `setupLeftAndRightWidths` may just have changed. A measurement taken after another pass's writes is not modelled, so the lemma says nothing about that case.
- The default `onCallback` is not modelled. It returns nothing.
- addon/components/frost-table-row.js and addon/components/frost-table-cell.js are not modelled: they are presentational.
- Alignment.AlignColumns: only positions present in both the header strip and the body strip are aligned. When the counts differ, the component would measure a missing cell. That result is a non-number, which the model does not represent.
- Alignment.RealignIsStable: assumes a cell measures exactly the width it was given, as with `box-sizing: border-box`. The model does not represent padding or borders.
- Layout.Measurements: every layout pass assumes that each surface it measures is present. In the component a selector that matches nothing measures `undefined`, and the write it feeds has no effect. The model has no missing measurement (except the non-empty row's cell height), so every pass always writes.
- Layout.SetupBodyHeights: a table shorter than its header gives a negative height. The model writes it as is, and what the browser does with it is not represented.
- Columns.Stamp: `Object.assign({index}, column)` lets a column's own `index` field win over the stamp. The model's definitions have no `index` field, so the stamp always stands.
- Hover.ProxyTarget: the test pins only the right body as the target of the left body's and the middle body's handlers. A reading in which hovering the left body also marks the middle body is not followed. The middle body's handler cannot mark the left body, since the test's left body stub has no `addClass`.
