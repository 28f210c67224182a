# A verified model of a terminal desktop's engines

The repository runs a desktop of windows inside a terminal. This project models its stateful engines
and proves what they are for. Each engine is first a set of functions that say what it means, then
the objects and loops of the program, proved to do exactly that; theorems are about the functions
and hold for every input, every run or every reachable state.

* **Repaint compiler.** `Frame` turns the previous and the new picture into cursor moves, pen changes,
  glyphs and erasures; `FrameSteps`, `FrameProofs` and `FrameRuns` prove it correct against the
  repository's own emulator, `FullRows` and `FullFrames` say what a full frame does to any page at
  all, `AnyFrame` and `ClientRuns` follow frames on their way over whole runs of the daemon;
  `DifferObject` is the program's loops. `Drawing`, `Views` and `SurfaceObject` are the surface it
  reads, `DrawnText` what is drawn on it, `Profile`, `SgrInverse` and `Colours` its pen.
* **Emulator.** `VtParser` is the state machine, with `VtParserProofs`, `VtTraces` and
  `VtParserObject`; `VtStrings` and `Utf8Strict` what it reads, byte for byte; `ScreenRow`, `Screen`,
  `ScreenOrders`, `ScreenProofs` and `ScreenObject` the grid; `TextFlow`, `EditProofs` and
  `ResizeProofs` where text goes and what moves;
  `Scrollback` and `ScreenHistory` the history; `Attrs` and `SgrTable` the pen; `Terminal`,
  `TerminalObject` and `EmulatorObject` the path from bytes to screen, `GuestOrders` its meaning.
* **Byte streams.** `Proto`, `ProtoStrict`, `Decoder`, `DecoderStreams` and `DecoderObject` are the
  wire; `Input`, `InputRuns`, `InputObject`, `KeyEncode` and `Reports` the keyboard in both directions
  and the mouse; `Utf8` and `OutQueue` what they use.
* **File jobs.** `FileJob` is the work stack as a step system over a file system that may fail at
  every call; `FileJobSafety` says what survives any failure, `FileJobExact` what happens without one,
  `FileJobOutcome` what is left and reported, `FileJobObject` is the program's slices.
* **Text buffer.** `TextBuffer` refines a flat string by a vector of lines.

`dafny verify dfyconfig.toml` checks the whole project.

Where the code does less than its comments say, the model follows the code: a concrete input shows
it, and an if-and-only-if says when the promise does hold (`ScreenProofs.DeleteIsWholeIff`,
`ScreenProofs.ResizeWrapIff`, `SgrInverse.EmitterAgreesWithTheme`, `FileJobSafety.TargetSurvivesIff`,
`OutQueue.CleanIsHonestIff`, `FrameRuns.FullFramesShowIff`, `InputObject.TimeoutLosesNothingIff`,
`FileJobSafety.CancelLeavesPart`, `FileJobOutcome.SilentIsDoneIff`, `FileJobOutcome.TakenDirCounts`,
`EditProofs.InsertShiftsIff`, `EditProofs.DeleteShiftsIff`, `KeyEncode.ComesBackIff`, and `TextBuffer.TextBuffer.Load` for empty text).

## Model

| member | source | states |
|---|---|---|
| `FrameRuns.FrameShowsPicture` | src/render/diff.cpp:36-169 | For any idle terminal of the picture's size and any remembered state that it really shows, the bytes of a frame, read by this repository's own parser and screen, leave every glyph, width and displayable style of the picture on the grid, every wide glyph whole, and the cursor where it was asked. An incremental frame starts from whole glyphs; a full one from any lines on which a repaint from the left meets no second half |
| `FrameRuns.FullFramesShowIff` | src/daemon/daemon.cpp:767-772 | A full repaint repairs the terminal, for every picture, exactly when no line makes a repaint from the left meet a second half: going right, each column after the first is met as it is, or as a blank if the one before was met as a first half, and none of them as a second half |
| `FrameRuns.FullBody` | src/render/diff.cpp:51-148 | The body of a full frame, on any page whatever, turns each line into the line that painting every glyph from the left and erasing the blank tail gives |
| `FullRows.FullRowShowsIff` | src/render/diff.cpp:66-147 | One line: a full repaint shows every picture exactly when no second half is met on it |
| `FullRows.FullFrameLeavesAHole` | src/render/diff.cpp:93-109 | A concrete line a guest can make, with one deleted cell and one wide glyph, on which a full repaint of ABCD leaves C blank |
| `FullFrames.ExactRows` | src/render/diff.cpp:52-147 | Row by row, the emulator's page is exactly what the glyphs painted so far make of the page it had |
| `FrameRuns.ShownIsWhole` | src/render/surface.cpp:29-75 | A page that shows a well-formed picture has whole glyphs, so every later frame may be incremental |
| `ClientRuns.RunIsConsistent` | src/daemon/daemon.cpp:743-787 | Over any interleaving of frames queued, frames read, rejections that drop the whole queue, repaint requests, window resizes and their news, the terminal stays whole and idle, only frames are on the way, and once they have been read it shows what the differ relies on unless a resize is still unheard |
| `ClientRuns.NextIsConsistent` | src/daemon/daemon.cpp:743-787 | One act of that loop keeps all of that |
| `ClientRuns.FrameArrives` | src/daemon/daemon.cpp:748-749 | In any reachable state with no resize on its way, a frame drawn now is on the terminal, glyph for glyph, as soon as the queue has been read |
| `ClientRuns.FrameKeepsWhole` | src/render/diff.cpp:36-169 | A frame that reaches a terminal of another size, or one it was not made for, leaves it idle, of its size, and every wide glyph whole |
| `ClientRuns.FreshIsConsistent` | src/render/diff.hpp:13-29 | A fresh differ with nothing queued is consistent with any whole, idle terminal |
| `ClientRuns.SetupIsSettled` | src/client/tty_guard.cpp:106-108 | The client's setup string puts any idle terminal that shows its main page on a whole page, whatever the main page holds: a run may start there |
| `ClientRuns.PowerOnIsSettled` | src/vt/screen.cpp:36-41 | The emulator as it is made is idle, whole and in bounds |
| `AnyFrame.PrintKeepsPage` | src/vt/screen.cpp:241-303 | Printing anywhere keeps the page in front whole, whatever is parked behind it |
| `ScreenOrders.PowerOnIsInBounds` | src/vt/screen.cpp:36-41 | The screen as it is made is within its bounds, for any requested size |
| `FrameRuns.FrameIsSilentIff` | src/render/diff.cpp:150-154 | A frame is empty exactly when the remembered state is valid, the picture is the remembered one and neither the cursor's place nor its visibility changed |
| `FrameRuns.UnchangedLineIsFree` | src/render/diff.cpp:66-121 | A line that has not changed adds nothing to an incremental frame |
| `FrameRuns.TailIsErasedIff` | src/render/diff.cpp:52-63 | A tail is erased exactly when the last four cells are default blanks |
| `FrameRuns.BodyShows` | src/render/diff.cpp:51-148 | On a page of whole glyphs the body of any frame, incremental or full, leaves the page showing the picture, whatever half-overwritten glyphs it passes through |
| `FrameProofs.FrameRowIsGood` | src/render/diff.cpp:52-147 | A row's runs and erased tail leave that row shown and the rows already done untouched |
| `FrameProofs.PaintRow` | src/render/diff.cpp:93-109 | Painting a cell over any row whose later columns are unsettled shows one more column, pairing kept |
| `FrameProofs.EraseRow` | src/render/diff.cpp:115-147 | Erasing a blank tail shows it and cannot bite into the content before it |
| `FrameProofs.BackUp` | src/render/diff.cpp:74-77 | Backing up from a continuation to its head forgets only columns that were already shown |
| `FrameSteps.ReceiveCup` | src/render/diff.cpp:8-10 | The bytes of a cursor address put the emulator's cursor exactly there and change nothing else (ECMA-48, section 8.3.21) |
| `FrameSteps.ReceiveErase` | src/render/diff.cpp:142-145 | An erase-to-end sequence erases from the cursor with the pen's background (ECMA-48, section 8.3.41) |
| `FrameSteps.ReceiveGlyph` | src/render/diff.cpp:104 | The UTF-8 bytes of a glyph print that glyph |
| `FrameSteps.ReceiveTransition` | src/render/profile.cpp:109-145 | The bytes of a pen transition take a terminal whose pen shows the old style to one whose pen shows the new one (ECMA-48, section 8.3.117) |
| `FrameSteps.ReceiveCursorMode` | src/render/diff.cpp:156-159 | Hiding or showing the cursor changes that mode and nothing of the screen |
| `DifferObject.Differ.NextFrame` | src/render/diff.cpp:36-169 | The nested loops return exactly the bytes of the specified frame and leave exactly the specified memory |
| `DifferObject.Differ.FrameLine` | src/render/diff.cpp:52-147 | One row of the frame: run scan, tail length, pen and position tracking |
| `DifferObject.Differ.ScanCells` | src/render/diff.cpp:66-113 | The run scan terminates and emits the specified runs |
| `DifferObject.Differ.EmitCells` | src/render/diff.cpp:93-109 | One run, cell by cell |
| `DifferObject.Differ.StartOfRun` | src/render/diff.cpp:76-77 | The head of the glyph a run starts in |
| `DifferObject.Differ.EndOfRun` | src/render/diff.cpp:85-91 | The end of a run: the first cell that neither differs nor continues |
| `DifferObject.Differ.StartOfTail` | src/render/diff.cpp:58-59 | The start of the longest suffix of default blanks |
| `DifferObject.Differ.TailHasChanged` | src/render/diff.cpp:118-121 | Whether any cell of the tail differs |
| `DifferObject.Differ.Fit` | src/render/diff.cpp:37-40 | A size change resizes the memory and makes the next frame complete |
| `DifferObject.Differ.Remember` | src/render/diff.cpp:161-163 | The copy loop makes the remembered surface equal to the current one |
| `DifferObject.Differ.Invalidate` | src/render/diff.hpp:16 | The next frame is complete; nothing else changes |
| `SgrInverse.SgrRoundTrip` | src/render/profile.cpp:109-145 | Interpreting the parameter lists compiled from one pen to another takes the displayable form of the first to that of the second, at all three colour depths |
| `SgrInverse.ApplyColor` | src/render/profile.cpp:46-69 | A colour code sets its own ground to the colour the depth can show, and nothing else |
| `SgrInverse.EmitterAgreesWithTheme` | src/render/profile.cpp:46-69 | The emitter shows what `quantize_color` says exactly when the colour is not a palette index on a true-colour terminal |
| `SgrInverse.EmitterDisagrees` | src/render/profile.cpp:46-69 | A concrete colour on which they differ |
| `Colours.ReductionShows` | src/render/profile.cpp:17-21 | A reduced colour shows, in red, green and blue, the levels its red, green and blue fall into |
| `Colours.CubeIsFixed` | src/render/profile.cpp:17-44 | Every colour of the 6x6x6 cube is reduced to its own index |
| `Colours.SystemIsFixed` | src/render/profile.cpp:23-44 | Each of the 16 system colours is reduced to its dim namesake |
| `Colours.CubeShowsItsLevels` | src/render/profile.cpp:34-39 | The palette index of three levels shows those levels, red first |
| `Colours.Primaries` | src/render/profile.cpp:28-44 | Where pure red, green, blue, black, white and the greys are in the palette |
| `Colours.CubeLevel` | src/render/profile.cpp:19 | A channel has level k exactly when it is in the k-th fifth of its range |
| `Colours.AnsiBits` | src/render/profile.cpp:24-26 | Each bit of the 16-colour index is one channel in its upper half: 1 red, 2 green, 4 blue |
| `Colours.ReductionIsMonotone` | src/render/profile.cpp:17-21 | More of a channel never shows less of it and leaves the others alone |
| `Colours.DisplayedColour` | src/render/profile.cpp:46-96 | What the terminal is told to show, for every colour and depth, in terms of channels |
| `Profile.SgrTransition` | src/render/profile.cpp:109-145 | The accumulating emitter produces the bytes of the specified parameter lists |
| `Profile.AppendAttrs` | src/render/profile.cpp:122-140 | The attribute loop appends the missing attributes in table order |
| `Profile.AppendColors` | src/render/profile.cpp:142-144 | The colours that change are appended, foreground first |
| `Attrs.ApplySgr` | src/vt/attrs.cpp:64-197 | The index-advancing loop computes the specified pen for any parameter list |
| `SgrTable.SwitchesOn` | src/vt/attrs.cpp:99-152 | The code that switches each attribute on |
| `SgrTable.SwitchesOff` | src/vt/attrs.cpp:64-182 | The code that switches each attribute off, and the resets |
| `SgrTable.PaletteCodes` | src/vt/attrs.cpp:182-197 | The eight colours and their bright forms on either ground |
| `SgrTable.UnderlineKinds` | src/vt/attrs.cpp:109-130 | A sub-parameter 0 switches the underline off, any other on |
| `SgrTable.ColonIndexed` | src/vt/attrs.cpp:24-50 | A palette colour written with colons |
| `SgrTable.ColonRgb` | src/vt/attrs.cpp:24-50 | A direct colour written with colons and an empty colour space |
| `SgrTable.CodesActInTurn` | src/vt/attrs.cpp:64-197 | A list of codes is its codes one after the other |
| `SgrTable.AfterColour` | src/vt/attrs.cpp:53-62 | What follows a flat colour is read as on its own |
| `SgrTable.BadColours` | src/vt/attrs.cpp:24-97 | A colour out of range or of an unknown kind changes nothing |
| `VtParserProofs.ParseCsi` | src/vt/parser.cpp:263-334 | A control sequence with up to 32 parameters is read as exactly one call with those parameters |
| `VtParserProofs.ParsePrivate` | src/vt/parser.cpp:287-291 | The private marker reaches the sink with the intermediates |
| `VtParserProofs.ParseGlyph` | src/vt/parser.cpp:97-147 | A printable code point encoded in UTF-8 is printed back (RFC 3629, sections 3 and 4) |
| `VtParserProofs.FeedConcat` | src/vt/parser.cpp:93-95 | Feeding two strings is feeding their concatenation |
| `VtTraces.FeedIsBounded` | src/vt/parser.cpp:9-23 | On any byte stream at most 32 parameters of at most 65535, 4 intermediates and 4096 OSC bytes are kept or reported, and only Unicode scalars are printed |
| `VtTraces.StepIsBounded` | src/vt/parser.cpp:180-462 | One byte keeps those limits |
| `VtTraces.FeedIsBracketed` | src/vt/parser.cpp:432-441 | Over any stream DCS data and ends occur only inside a started DCS, nothing else occurs inside one, and one is open exactly while the parser passes data through |
| `VtTraces.CancelResets` | src/vt/parser.cpp:184-190 | After CAN or SUB the parser reports the same as a fresh one on every continuation |
| `VtTraces.TextIsPrinted` | src/vt/parser.cpp:97-178 | A text of printable code points is printed back one by one |
| `VtTraces.CutsDoNotMatter` | src/vt/parser.cpp:93-95 | The calls do not depend on how the stream is cut into reads |
| `VtStrings.ControlIsRead` | src/vt/parser.cpp:263-380 | Every control sequence of up to 32 parameters, with omitted values, sub-parameters, marker and intermediates, is told once as it was written |
| `VtStrings.EscapeIsRead` | src/vt/parser.cpp:213-262 | Every escape sequence is told once with its intermediates |
| `VtStrings.OscIsRead` | src/vt/parser.cpp:443-462 | A command ended by BEL is told once, cut to 4096 bytes |
| `VtStrings.OscIsReadToSt` | src/vt/parser.cpp:193-201 | Ended by the string terminator it is told the same |
| `VtStrings.DcsIsRead` | src/vt/parser.cpp:381-441 | A device control string is told as its opening, its data byte by byte and its end |
| `VtStrings.ControlsActInside` | src/vt/parser.cpp:203-262 | A control character inside a sequence acts at once and the sequence goes on |
| `VtStrings.Spoils` | src/vt/parser.cpp:300-360 | What spoils a control sequence |
| `VtStrings.SpoiltIsSilent` | src/vt/parser.cpp:362-380 | A spoilt sequence is read to its end and told to nobody |
| `VtStrings.LargeNumbersSaturate` | src/vt/parser.cpp:67-82 | A number too large is read as the largest parameter |
| `Utf8Strict.GuestIsStrict` | src/vt/parser.cpp:97-147 | A sequence printed as a code point other than U+FFFD is that code point's one encoding (RFC 3629, section 3) |
| `Utf8Strict.GuestSpells` | src/vt/parser.cpp:97-147 | A formed sequence is printed as what it spells, or as U+FFFD if that is no scalar or has a shorter spelling |
| `Utf8Strict.BrokenIsReplaced` | src/vt/parser.cpp:84-126 | A sequence broken off is one U+FFFD, and the byte that broke it is read afresh |
| `Utf8Strict.StrayIsReplaced` | src/vt/parser.cpp:128-147 | A byte that can lead nothing is one U+FFFD |
| `VtParserObject.Parser.StepByte` | src/vt/parser.cpp:180-462 | One byte changes the fields and tells the sink exactly as specified |
| `VtParserObject.Parser.FeedBytes` | src/vt/parser.cpp:93-95 | A whole read does, and keeps every limit |
| `VtParserObject.Parser.Utf8Byte` | src/vt/parser.cpp:97-147 | The UTF-8 accumulator: continued, broken off and reprocessed, or started |
| `VtParserObject.Parser.OnGround` | src/vt/parser.cpp:149-178 | A byte in the ground state |
| `VtParserObject.Parser.PushParamDigit` | src/vt/parser.cpp:67-82 | A digit accumulates with the ceiling applied before the multiplication |
| `VtParserObject.Parser.NextParam` | src/vt/parser.cpp:63-65 | A separator opens a parameter while there is room |
| `VtParserObject.Parser.CollectByte` | src/vt/parser.cpp:53-61 | An intermediate is kept, or refused past the fourth |
| `VtParserObject.Parser.Reset` | src/vt/parser.cpp:38-45 | A reset gives the initial state |
| `ScreenOrders.RunKeepsBounds` | src/vt/screen.cpp:116-554 | Any run of orders keeps cursor, parked cursor, region, both pages, tab stops and history within their bounds |
| `ScreenOrders.OrderKeepsBounds` | src/vt/screen.cpp:116-554 | Every single order does |
| `Terminal.ReceiveKeepsBounds` | src/apps/terminal.cpp:931-1093 | Whatever bytes a guest writes, the screen stays in bounds |
| `Terminal.ReceiveConcat` | src/apps/terminal.cpp:931-1093 | The screen does not depend on how the guest's bytes are cut into reads |
| `ScreenProofs.RunIsWhole` | src/vt/screen.cpp:73-80 | Through any run whose deletions are guarded, resizes and page swaps included, every first half of a wide glyph is followed by its second half and conversely, on both pages (on one column, where there is no room for a second half, every cell has width one or two) |
| `ScreenProofs.OrderIsWhole` | src/vt/screen.cpp:241-554 | Every order but an unguarded character deletion keeps that |
| `ScreenProofs.DeleteIsWholeIff` | src/vt/screen.cpp:488-498 | A character deletion keeps it exactly when, after both cuts, the first stale column does not hold a second half that the tail erasure would tear from its neighbour |
| `ScreenRow.DeleteCharsKeepsPairsIff` | src/vt/screen.cpp:488-498 | The same on one line: both directions, for every line, column and count |
| `ScreenRow.DeleteTearsAGlyph` | src/vt/screen.cpp:488-498 | A concrete line on which deleting one narrow cell tears a wide glyph |
| `ScreenRow.OneColumnTearsAGlyph` | src/vt/screen.cpp:269-286 | A concrete one-column line on which a wide glyph is written without its second half |
| `ScreenRow.InsertCharsKeepsPairs` | src/vt/screen.cpp:464-486 | Character insertion keeps every glyph whole |
| `ScreenRow.PutGlyphKeepsPairs` | src/vt/screen.cpp:275-294 | Writing a glyph of either width blanks whole glyphs or leaves them whole |
| `ScreenRow.EraseSpanKeepsPairs` | src/vt/screen.cpp:404-420 | Erasing a span takes the halves left outside with it |
| `ScreenProofs.ResizeWrapIff` | src/vt/screen.cpp:196-201 | A resize keeps "a pending wrap means the last column" exactly when it does not widen the page while a parked cursor waits with a pending wrap |
| `ScreenProofs.ResizeStrandsAWrap` | src/vt/screen.cpp:196-201 | A concrete resize after which a pending wrap waits away from the last column |
| `ScreenProofs.RunKeepsWrap` | src/vt/screen.cpp:241-383 | Any run without a resize keeps it |
| `TextFlow.TextFlows` | src/vt/screen.cpp:241-303 | With autowrap on and while nothing scrolls, every glyph of a text stands at its place, a glyph that does not fit starts the next line, the cursor is after the last, and every other cell is as it was up to broken halves |
| `TextFlow.NarrowTextFlows` | src/vt/screen.cpp:256-303 | Glyph k of a narrow text from column x of line y is at line y + (x + k) / columns, column (x + k) mod columns, a pending wrap counting as the column after the last |
| `TextFlow.WideGoesDown` | src/vt/screen.cpp:264-274 | A wide glyph in the last column starts at the first column of the next line and leaves the last column alone |
| `TextFlow.TextStaysOnLine` | src/vt/screen.cpp:256-274 | With autowrap off no text changes another line |
| `TextFlow.LastColumnIsReplaced` | src/vt/screen.cpp:288-303 | With autowrap off a glyph after a full line replaces its last column |
| `ResizeProofs.ResizeKeepsContent` | src/vt/screen.cpp:148-208 | A resize keeps every cell both sizes have, of the main page wherever it is, but a wide glyph cut at the edge; the rest is erased; cursor clamped, region reset, tab stops remade only for a new width, all else untouched |
| `ResizeProofs.GrowAndBackIff` | src/vt/screen.cpp:148-208 | Grown and shrunk back the main page is what it was exactly when no line of it ends in a lone first half |
| `ResizeProofs.WholeIsNotCut` | src/vt/screen.cpp:161-165 | On whole pages of two columns or more no line does |
| `EditProofs.InsertLinesMoves` | src/vt/screen.cpp:500-506 | Which line each line of the page comes from after lines are inserted, and that nothing happens outside the region |
| `EditProofs.DeleteLinesMoves` | src/vt/screen.cpp:508-511 | The same after lines are deleted |
| `EditProofs.DeleteUndoesInsert` | src/vt/screen.cpp:500-511 | Deleting as many lines as were inserted restores all but those pushed off |
| `EditProofs.ReverseIndexMoves` | src/vt/screen.cpp:349-356 | Up one line, or the region goes down by one |
| `EditProofs.LineFeedMoves` | src/vt/screen.cpp:305-316 | Down one line, or the region goes up by one |
| `EditProofs.EraseLineErases` | src/vt/screen.cpp:436-451 | Which columns each mode and count erases, and that the others stand |
| `EditProofs.EraseDisplayErases` | src/vt/screen.cpp:422-434 | Which lines and columns each mode erases, and that the others stand |
| `EditProofs.InsertShiftsIff` | src/vt/screen.cpp:464-486 | Inserted characters push the rest of the line right exactly when no first half stands in the last of the inserted columns, or there is nothing to lose |
| `EditProofs.InsertLosesACell` | src/vt/screen.cpp:482 | A concrete line on which an insertion loses a narrow glyph that should have moved |
| `EditProofs.DeleteShiftsIff` | src/vt/screen.cpp:488-498 | Deleted characters pull the rest of the line left exactly when the first stale column holds no second half, or there is nothing to lose |
| `EditProofs.DeleteLosesACell` | src/vt/screen.cpp:497 | A concrete line on which a deletion loses a narrow glyph that should have moved |
| `EditProofs.CutBreaksOne` | src/vt/screen.cpp:453-462 | A cut blanks the glyph it falls into, one that starts there included, and nothing else |
| `EditProofs.NarrowLinesShift` | src/vt/screen.cpp:464-498 | On a line of narrow glyphs both shifts are exact |
| `GuestOrders.CursorMoves` | src/apps/terminal.cpp:985-996 | The bytes of CUU, CUD, CUF and CUB move the cursor by their count as far as the page goes |
| `GuestOrders.CursorGoes` | src/apps/terminal.cpp:997-1009 | The bytes of CHA, VPA, CUP and HVP put it on a line and column counted from 1 |
| `GuestOrders.ControlsMove` | src/apps/terminal.cpp:933-953 | Carriage return, backspace and tab, a pending wrap included |
| `GuestOrders.NextTabIsFirst` | src/vt/screen.cpp:334-345 | The tab stop gone to is the first one right of the cursor |
| `GuestOrders.ShortSequences` | src/apps/terminal.cpp:1063-1093 | Line feeds, and what each escape sequence orders |
| `GuestOrders.EditSequences` | src/apps/terminal.cpp:1010-1030 | What each editing sequence orders, with its mode or count |
| `GuestOrders.Defaults` | src/apps/terminal.cpp:985-1043 | An omitted count is 1 and an omitted mode 0 |
| `GuestOrders.RegionIsSet` | src/apps/terminal.cpp:1031-1037 | The bytes that set and reset the scroll region |
| `GuestOrders.RegionIs` | src/vt/screen.cpp:517-537 | A region of at least two lines is taken and the cursor goes home; one of fewer changes nothing |
| `GuestOrders.TabStops` | src/apps/terminal.cpp:1038-1050 | Which stops each clearing takes away |
| `GuestOrders.TabIsSet` | src/apps/terminal.cpp:1085-1088 | A stop is set under the cursor and no other changes |
| `GuestOrders.QuestionsChangeNothing` | src/apps/terminal.cpp:966-974 | Status reports and device attributes leave the terminal as it is |
| `GuestOrders.SavedComesBack` | src/vt/screen.cpp:539-554 | A restored cursor has the place, pen and character set it was saved with |
| `GuestOrders.SavedIsClamped` | src/vt/screen.cpp:543-547 | On a smaller page it stays on the page |
| `GuestOrders.ModesAreSet` | src/vt/modes.cpp:58-70 | A list of private modes is set in turn and the screen follows |
| `GuestOrders.ModeNumbers` | src/vt/modes.cpp:14-24 | Which mode each number is |
| `GuestOrders.LineDrawing` | src/vt/charset.cpp:8-37 | The line-drawing set where it matters, and no code outside it changed |
| `GuestOrders.AlternateIsFresh` | src/vt/screen.cpp:210-223 | The alternate page is entered blank, with the cursor where it was and nothing saved |
| `GuestOrders.NextLineIs` | src/vt/screen.cpp:358-361 | Next line is a line feed from the first column |
| `ScreenProofs.AlternateScreenIsIsolated` | src/vt/screen.cpp:210-239 | After any orders inside the alternate screen but a resize or a leave, leaving restores the main page cell for cell with cursor, pending wrap, pen, charset and DECSC slot, and history is untouched |
| `ScreenProofs.FullPageFeed` | src/vt/screen.cpp:95-102 | A line feed at the bottom of a full page moves exactly the top row into history and appends a blank one |
| `ScreenProofs.LineFeedExtendsTape` | src/vt/screen.cpp:95-102 | History followed by the page is extended below by one blank line, and loses at most its oldest line, only when the ring is full |
| `ScreenHistory.RunFeeds` | src/vt/screen.cpp:95-102 | Over any run of orders on either page, with any regions, resizes and page swaps, the history grows by exactly the rows that full-page scrolls of the main page sent away, in order |
| `ScreenHistory.HistoryIsTheLastLines` | src/vt/scrollback.cpp:13-44 | After any run the history is the last lines, as many as it has room for, of the old history followed by the rows sent away |
| `ScreenHistory.ViewOutlivesRun` | src/vt/scrollback.cpp:36-43 | Over any run a scrolled-back view keeps showing the same lines, less exactly those that were evicted |
| `Scrollback.ViewStaysPut` | src/vt/scrollback.cpp:36-43 | Over any number of pushed rows a scrolled-back view keeps showing the same lines, less exactly those that were evicted |
| `Scrollback.ViewIsStable` | src/vt/scrollback.cpp:36-43 | One push: the view moves up by one line, or loses its first when the ring is full |
| `Scrollback.TrimLosesBlanks` | src/vt/scrollback.cpp:20-22 | What is trimmed is exactly the default blanks at the end of a row |
| `Scrollback.Ring.PushRow` | src/vt/scrollback.cpp:13-44 | The ring is a bounded queue of trimmed rows, and its offset follows |
| `Scrollback.Ring.TrimmedLength` | src/vt/scrollback.cpp:20-22 | The length of a row without its trailing default blanks |
| `Scrollback.Ring.At` | src/vt/scrollback.cpp:46-49 | The index-th line from the oldest, empty out of range |
| `Scrollback.Ring.Clear` | src/vt/scrollback.cpp:51-61 | No line left, viewed from the bottom |
| `Scrollback.Ring.ScrollBack` | src/vt/scrollback.cpp:63-72 | The offset grows, saturating at the number of lines |
| `Scrollback.Ring.ScrollForward` | src/vt/scrollback.cpp:74-80 | The offset shrinks, saturating at zero |
| `ScreenObject.TextScreen.PrintGlyph` | src/vt/screen.cpp:241-303 | Deferred wrap, wide glyphs at the margin and both clearings before any write, exactly as specified |
| `ScreenObject.TextScreen.FeedLine` | src/vt/screen.cpp:305-316 | A line feed scrolls at the bottom of the region only |
| `ScreenObject.TextScreen.ScrollPageUp` | src/vt/screen.cpp:95-102 | The one path that feeds the history, under its three conditions |
| `ScreenObject.TextScreen.ScrollLinesUp` | src/vt/screen.cpp:116-130 | A slice rotates up and what came round is blank |
| `ScreenObject.TextScreen.ScrollLinesDown` | src/vt/screen.cpp:132-146 | A slice rotates down and what came round is blank |
| `ScreenObject.TextScreen.EraseSpanOn` | src/vt/screen.cpp:404-420 | The clearing of both ends and the fill loop |
| `ScreenObject.TextScreen.EraseOnDisplay` | src/vt/screen.cpp:422-434 | The three modes of display erasure; others do nothing |
| `ScreenObject.TextScreen.EraseOnLine` | src/vt/screen.cpp:436-444 | The three modes of line erasure; others do nothing |
| `ScreenObject.TextScreen.InsertSome` | src/vt/screen.cpp:464-486 | Character insertion on the cursor's line |
| `ScreenObject.TextScreen.DeleteSome` | src/vt/screen.cpp:488-498 | Character deletion on the cursor's line |
| `ScreenObject.TextScreen.ShiftLineRight` | src/vt/screen.cpp:481 | The in-place shift from the right end copies every cell before overwriting it |
| `ScreenObject.TextScreen.ShiftLineLeft` | src/vt/screen.cpp:496 | The in-place shift from the left end leaves the last cells stale |
| `ScreenObject.TextScreen.InsertSomeLines` | src/vt/screen.cpp:500-506 | Lines inserted inside the region, nothing outside it |
| `ScreenObject.TextScreen.DeleteSomeLines` | src/vt/screen.cpp:508-511 | Lines deleted inside the region, nothing outside it |
| `ScreenObject.TextScreen.ToNextTab` | src/vt/screen.cpp:334-345 | The next stop to the right, or the last column |
| `ScreenObject.TextScreen.ResetTabs` | src/vt/screen.cpp:43-54 | A stop every eight columns, none on the first |
| `ScreenObject.TextScreen.IndexReverse` | src/vt/screen.cpp:349-356 | Up one line, or the region scrolls down |
| `ScreenObject.TextScreen.GoLeft` | src/vt/screen.cpp:373-384 | A pending wrap costs the first step left |
| `ScreenObject.TextScreen.SetScrollRegion` | src/vt/screen.cpp:517-529 | A region of at least two lines is taken and homes the cursor; another is refused |
| `ScreenObject.TextScreen.RestoreHere` | src/vt/screen.cpp:543-554 | The saved cursor, bounded by today's size |
| `ScreenObject.TextScreen.EnterAlternate` | src/vt/screen.cpp:210-223 | The page is parked once; a second entry does nothing |
| `ScreenObject.TextScreen.LeaveAlternate` | src/vt/screen.cpp:225-239 | The parked page, cursor and slot come back |
| `ScreenObject.TextScreen.ResizeTo` | src/vt/screen.cpp:170-208 | Both pages, cursors, region and tab stops after a resize; the same size is no change |
| `ScreenObject.TextScreen.ReshapeLine` | src/vt/screen.cpp:153-166 | A line copied into another width, a head cut from its second half blanked |
| `TerminalObject.Tty.OnCall` | src/apps/terminal.cpp:931-1093 | Every call of the parser gives the screen exactly the specified orders |
| `TerminalObject.Tty.OnCsi` | src/apps/terminal.cpp:964-1061 | Questions first, then modes, then the order of the final byte; the rest is ignored |
| `TerminalObject.Tty.OnEsc` | src/apps/terminal.cpp:1063-1093 | The escape sequences that are orders, and the charset |
| `TerminalObject.Tty.OnExecute` | src/apps/terminal.cpp:933-953 | The control characters that are orders |
| `TerminalObject.Tty.Sync` | src/apps/terminal.cpp:955-962 | The screen follows the autowrap and alternate-screen modes |
| `EmulatorObject.Guest.Read` | src/apps/terminal.cpp:931-1093 | Bytes in, screen out: the connected objects compute the specified emulator |
| `Views.DrawingIsSafe` | src/render/surface.cpp:29-179 | Any sequence of drawing operations through any nested sub-views keeps the shared surface well formed and, outside the view, changes nothing but the other halves of the wide glyphs it breaks |
| `Drawing.PutAllIsSafe` | src/render/surface.cpp:36-102 | The same for any list of glyphs through one clip |
| `Drawing.PutInRowIsWellFormed` | src/render/surface.cpp:70-102 | One glyph keeps every head followed by its continuation and conversely |
| `Drawing.PutInRowAt` | src/render/surface.cpp:36-102 | What every cell of the row becomes |
| `Drawing.AllShown` | src/render/surface.cpp:70-102 | Glyphs that share no column all end up on the surface, in any order |
| `Views.TextIsShown` | src/render/surface.cpp:104-117 | Every glyph of a drawn text that is inside the view is on the surface, whole |
| `DrawnText.TextIsDrawn` | src/render/surface.cpp:104-117 | Of a text every code point that fits stands on its columns in order, and the answer is the number of columns drawn |
| `DrawnText.TextSpells` | src/render/surface.cpp:104-117 | The glyphs and the end of an encoded text are those of its code points |
| `DrawnText.DrawnFits` | src/render/surface.cpp:113 | They fill the room as far as they can and no further |
| `Views.FillIsShown` | src/render/surface.cpp:119-137 | Every cell of a filled rectangle within the view is a blank of the given style |
| `Views.BoxIsTheBorder` | src/render/surface.cpp:139-171 | A box draws the positions of the border and no other, with the corner, horizontal or vertical that belongs there, degenerate boxes included |
| `DrawnText.FrameGlyphs` | src/render/surface.cpp:139-171 | Which glyph is which corner and side of a frame |
| `DrawnText.SecondHalf` | src/render/surface.cpp:97-101 | The second half of a wide glyph keeps of the style only the background |
| `Views.BoxIsShown` | src/render/surface.cpp:139-171 | With narrow border glyphs the whole border within the view is on the surface |
| `Views.SubIsTheOverlap` | src/render/surface.cpp:173-179 | A sub-view holds a position exactly if its parent and the rectangle both do |
| `SurfaceObject.View.PutGlyph` | src/render/surface.cpp:70-102 | The in-place writes to the shared surface are the specified glyph |
| `SurfaceObject.View.Text` | src/render/surface.cpp:104-117 | The loop draws the specified glyphs and returns the columns taken |
| `SurfaceObject.View.Fill` | src/render/surface.cpp:119-137 | The nested loops blank the specified cells |
| `SurfaceObject.View.Box` | src/render/surface.cpp:139-171 | The loops draw the specified border |
| `SurfaceObject.View.CleanupOrphan` | src/render/surface.cpp:36-67 | The other half of a broken glyph is blanked, clip or no clip |
| `SurfaceObject.View.SubView` | src/render/surface.cpp:173-179 | A sub-view of the same surface with the clipped rectangle |
| `SurfaceObject.Surface.Clear` | src/render/surface.cpp:19-25 | Every cell blank in the style, and well formed whatever was there |
| `SurfaceObject.Surface.Resize` | src/render/surface.cpp:13-17 | A blank surface of the size, negative sizes being empty |
| `Decoder.WireRoundTrip` | src/common/proto.cpp:165-266 | Any list of messages that fit, with unknown well-framed items in between, cut anywhere into pieces of at most 1 MiB each drained at once, gives back exactly the messages, nothing pending and no failure |
| `Decoder.DrainPrefix` | src/common/proto.cpp:175-266 | Draining any prefix of the wire delivers the messages it completes and keeps a strict prefix of the next item |
| `Decoder.WholeItem` | src/common/proto.cpp:175-266 | A whole item at the head is delivered, or skipped if its tag is unknown |
| `Decoder.FailureIsPermanent` | src/common/proto.cpp:165-176 | After a failure nothing more is ever delivered |
| `DecoderStreams.DrainIs` | src/common/proto.cpp:175-245 | Any bytes are items the decoder gets past and then a rest it waits on or fails at; what it delivers is the messages among the items |
| `DecoderStreams.FailsIff` | src/common/proto.cpp:175-245 | The decoder fails exactly when, after items it gets past, it comes to a length that is too large or a known tag whose body is no message |
| `DecoderStreams.AnyStream` | src/common/proto.cpp:165-245 | Any stream, well-formed or not, delivers the same however it is cut into pieces of at most 1 MiB, and fails if it does in one |
| `DecoderStreams.TooMuchFails` | src/common/proto.cpp:165-173 | What would make more wait than the largest message, its header and a piece is refused for good |
| `Proto.DecodeBody` | src/common/proto.cpp:30-94 | Decoding the body of any message that fits gives the message back, field by field |
| `ProtoStrict.DecodeIsStrict` | src/common/proto.cpp:175-245 | A body is accepted only if it is that message's body to the last byte, the truth value of Hello being any byte |
| `ProtoStrict.WireOrder` | src/common/proto.cpp:15-23 | Numbers are written most significant byte first |
| `ProtoStrict.TagsOnTheWire` | src/common/proto.cpp:86-94 | The tag of each message and its length field |
| `ProtoStrict.HelloOnTheWire` | src/common/proto.cpp:50-62 | The fields of Hello, in order |
| `DecoderObject.Incremental.Next` | src/common/proto.cpp:175-266 | The result depends on the unconsumed bytes only; the buffer stays below twice the ceiling and bytes moved never exceed bytes consumed |
| `DecoderObject.Incremental.Feed` | src/common/proto.cpp:165-173 | Bytes are appended, or the decoder fails for good when too many are pending |
| `DecoderObject.Incremental.Compact` | src/common/proto.cpp:127-163 | Dropping the consumed head is invisible and paid for by what was consumed |
| `DecoderObject.Incremental.Fail` | src/common/proto.cpp:96-105 | Nothing is kept |
| `DecoderObject.Reader.ReadMessage` | src/common/proto.cpp:202-228 | The index-advancing reader reads the specified fields |
| `DecoderObject.Reader.ReadEnv` | src/common/proto.cpp:215-219 | The environment loop stops at the announced count or the first short read |
| `FileJobSafety.NoFileIsLost` | src/apps/files/job.cpp:65-247 | With any failures of any call, cancelled at any step, a move has every source file's full content at its place or at its destination after each step; a copy changes nothing that existed; a deletion creates nothing; the rest of the disk is untouched |
| `FileJobSafety.StepIsSafe` | src/apps/files/job.cpp:65-247 | Every step keeps the invariant behind it |
| `FileJobSafety.TargetSurvivesIff` | src/apps/files/job.cpp:157-178 | An existing target survives a file's turn exactly when it is not a move whose rename succeeds |
| `FileJobSafety.MoveOverwrites` | src/apps/files/job.cpp:157-163 | A concrete move that replaces an existing file |
| `FileJobExact.JobEqualsRecursion` | src/apps/files/job.cpp:82-247 | A fault-free run with nothing left has copied an equal tree and kept the source, deleted every node, or moved every node, in any listing order and slicing; it counted every node and no failure |
| `FileJobExact.FaultFreeStep` | src/apps/files/job.cpp:82-247 | Without faults every call succeeds, a directory is removed only once empty, and the invariant is kept |
| `FileJobExact.StepMakesProgress` | src/apps/files/job.cpp:187-247 | Every fault-free step decreases a well-founded measure |
| `FileJobExact.NeverStuck` | src/apps/files/job.cpp:187-247 | While something is left a fault-free step is possible |
| `FileJobExact.QueueAt` | src/apps/files/job.cpp:26-43 | The sources come off the stack in the order they were given |
| `FileJobExact.Finishes` | src/apps/files/job.cpp:187-247 | From any state of a fault-free run there is a finite fault-free continuation that leaves nothing to do, found by always taking the next step |
| `FileJobExact.AlwaysFinishes` | src/apps/files/job.cpp:82-247 | However a fault-free run began, it can be continued to an end at which the whole tree is copied, moved or deleted and counted |
| `FileJobExact.MarkerIsEmpty` | src/apps/files/job.cpp:116-124 | When a directory's removal marker comes up, everything under it is gone |
| `FileJobObject.Runner.RunSlice` | src/apps/files/job.cpp:187-247 | One wake-up on a file system that fails at will is a run of the specified steps, whose outcome and counts FileJobOutcome settles |
| `FileJobObject.Runner.TakeOne` | src/apps/files/job.cpp:82-185 | One item off the stack is the specified step for the faults that were met |
| `FileJobObject.Runner.CopySlice` | src/apps/files/job.cpp:198-246 | The copy loop within its budget is a run of the specified steps |
| `FileJobObject.Runner.FinishCurrent` | src/apps/files/job.cpp:65-80 | The finished copy is closed, and a move drops its source |
| `FileJobObject.Runner.StartJob` | src/apps/files/job.cpp:26-43 | The stack holds the sources, the first on top |
| `FileJobObject.Runner.CancelJob` | src/apps/files/job.cpp:45-58 | The work and the counts are dropped; the disk is left as it is, a half-written file included |
| `FileJobSafety.CancelLeavesPart` | src/apps/files/job.cpp:45-58 | After a cancellation the file being copied holds what was written of it, and equals its source exactly if nothing was still to be written |
| `FileJobSafety.CancelHalfWay` | src/apps/files/job.cpp:209-210 | A concrete cancelled copy that leaves half a file, which the comment on incomplete copies rules out |
| `FileJobOutcome.NoHalfCopyStays` | src/apps/files/job.cpp:198-246 | Over every run, whatever fails: while no copy is open each node at a place that was free at the start equals its source, unless it was left by an abort whose unlink failed or by a cancellation |
| `FileJobOutcome.CountersAreTrue` | src/apps/files/job.cpp:60-80 | Over every run, whatever fails, and with no file where a directory has to go: as many nodes are reported done as the disk shows removed, or whole at the other end, and as many failures as calls that failed |
| `FileJobOutcome.StepCounts` | src/apps/files/job.cpp:82-246 | One step counts one node done exactly if it settles one, and one failure exactly if a call of it failed |
| `FileJobOutcome.TakenDirCounts` | src/apps/files/job.cpp:110-113 | A directory's step counts rightly exactly when a file does not bear the name it has to take |
| `FileJobOutcome.FileInTheWayCounts` | src/apps/files/job.cpp:110-113 | A concrete copy of a directory onto a file's name, reported done without a failure |
| `FileJobOutcome.SilentIsDoneIff` | src/apps/files/job.cpp:65-80 | A finished job that reports no failure has done the whole operation exactly when no copied file of a move kept its source because it could not be removed |
| `InputRuns.SameBytesSameEvents` | src/input/parser.cpp:176-229 | Two ways of cutting the same bytes into feeds read the same events once paste fragments are merged, leave the same bytes without a meaning yet and agree on whether a paste is open |
| `InputRuns.CutsDoNotMatter` | src/input/parser.cpp:176-182 | A stream cut into feeds means what the whole stream means |
| `InputRuns.MeaningExtends` | src/input/parser.cpp:184-369 | Bytes that come later never change what was already read |
| `InputRuns.PasteIsExact` | src/input/parser.cpp:187-209 | A paste is exactly the bytes between its opening marker and the first terminator |
| `InputObject.InputParser.Feed` | src/input/parser.hpp:13-16 | The events collected and ready are those of the stream so far, up to the held bytes; fewer than 1 MiB are held in a paste and at most 130 otherwise |
| `InputObject.InputParser.StepPaste` | src/input/parser.cpp:187-229 | The resumed search never misses a terminator, and a fragment is handed over at the ceiling without its last five bytes |
| `InputObject.InputParser.Step` | src/input/parser.cpp:184-369 | One step keeps the events equal to the meaning of the stream |
| `InputObject.InputParser.Pump` | src/input/parser.cpp:176-182 | Steps until nothing more can be decided |
| `InputObject.InputParser.StepCsi` | src/input/parser.cpp:305-368 | A whole control sequence: mouse, focus, tilde and letter keys, the start of a paste |
| `InputObject.InputParser.StepEscape` | src/input/parser.cpp:265-303 | Everything an ESC can start, with the bounded search for the final byte |
| `InputObject.InputParser.StepText` | src/input/parser.cpp:233-263 | Control bytes and UTF-8 text |
| `InputObject.InputParser.Timeout` | src/input/parser.cpp:132-174 | Inside a paste nothing happens; outside one the buffer is emptied into events: after ESC one per byte, otherwise one U+FFFD for all of it |
| `InputObject.TimeoutLosesNothingIff` | src/input/parser.cpp:141-155 | No typed byte disappears in a timeout exactly when the buffer starts with ESC or every byte after its first is a continuation byte |
| `InputObject.TimeoutSwallowsALetter` | src/input/parser.cpp:141-150 | A concrete buffer, the first byte of a four-byte character and the letter A, of which the timeout loses the letter |
| `InputObject.InputParser.Next` | src/input/parser.hpp:18-23 | The oldest event, and no other change |
| `Input.Split` | src/input/parser.cpp:79-98 | The accumulating loop splits the parameters as specified |
| `Input.PieceIsLocal` | src/input/parser.cpp:231-369 | A sequence once decided stays what it was when more bytes arrive |
| `Input.PieceBounds` | src/input/parser.cpp:231-369 | A decided sequence takes at least one byte and no more than there are; an undecided one is at most 130 bytes |
| `Reports.MouseIsRead` | src/input/parser.cpp:309-346 | The SGR report of any press, release, motion or wheel turn, with any button, modifiers and position, is read as exactly that event, column as x and line as y, whatever follows |
| `Reports.ZeroIsDropped` | src/input/parser.cpp:321 | A report with a column or line 0 is dropped |
| `Reports.FocusIsRead` | src/input/parser.cpp:348-351 | The focus reports are read as focus gained and lost |
| `Reports.OtherForms` | src/input/parser.cpp:233-248 | The other bytes of Enter, Backspace and Ctrl+Space |
| `Reports.VtHomeAndEnd` | src/input/parser.cpp:355-368 | The other sequences of Home and End |
| `Reports.PasteOpens` | src/input/parser.cpp:355-362 | The sequence that opens a paste |
| `Reports.ModifierParameter` | src/input/parser.cpp:102-120 | What a modifier parameter says, Meta dropped and impossible values ignored |
| `KeyEncode.KeysAreRead` | src/input/encode.cpp:103-156 | Concatenated encodings of keys on the unambiguous domain are read back as exactly those keys, whatever follows |
| `KeyEncode.ComesBackIff` | src/input/encode.cpp:88-156 | For every key, character and modifier mask, the encoding alone is read back as that key exactly when the key is on the unambiguous domain |
| `KeyEncode.ControlIIsTab` | src/input/encode.cpp:72-86 | Ctrl+i is read back as Tab |
| `KeyEncode.KeyIsRead` | src/input/encode.cpp:88-156 | One key of the domain, in either cursor-key mode |
| `KeyEncode.FinalIsRead` | src/input/encode.cpp:134-145 | A key with a final letter, with any modifiers |
| `KeyEncode.TildeIsRead` | src/input/encode.cpp:147-151 | A tilde key, with any modifiers |
| `Reports.CursorKeyBytes` | src/input/encode.cpp:134-145 | The arrow keys take the short form with O exactly when the application has asked for it |
| `Reports.AltPrefixes` | src/input/encode.cpp:88-131 | Alt puts an escape before the bytes of a character or one-byte key and changes nothing else |
| `Reports.ControlBytes` | src/input/encode.cpp:72-100 | Which characters Ctrl turns into a control byte |
| `Reports.AsciiKeys` | src/input/encode.cpp:108-131 | The keys that are one byte, and the two that are none |
| `Utf8.DecodeInvertsEncode` | src/common/utf8.cpp:5-87 | Decoding the encoding of any number gives the scalar shown for it and its length, whatever follows |
| `Utf8.Utf8Decode` | src/common/utf8.cpp:5-61 | The accumulating loop decodes as specified |
| `Utf8.DecodeIsLocal` | src/common/utf8.cpp:5-61 | What follows a sequence does not matter |
| `Utf8Strict.DecodeIsStrict` | src/common/utf8.cpp:5-58 | The common decoder answers with a code point other than U+FFFD only for its one encoding, which is what it takes |
| `Utf8Strict.DecodeSpells` | src/common/utf8.cpp:34-58 | A formed sequence is decoded as what it spells, or U+FFFD over the whole of it |
| `Utf8Strict.KnownEncodings` | src/common/utf8.cpp:63-87 | Known encodings of one to four bytes, and of what is no code point |
| `OutQueue.QueueIsPlain` | src/common/outqueue.cpp:62-137 | Whatever the kernel takes and whenever the head is shifted away, the queue is a plain bounded queue of bytes |
| `OutQueue.PlainStream` | src/common/outqueue.cpp:62-137 | Sent bytes followed by waiting bytes change only by a push that fits, at the end, or by a rejection, which drops all that waited; what was sent stays sent and the ceiling holds |
| `OutQueue.FlagIsTheWorst` | src/common/outqueue.cpp:83-93 | The flag is the worst rejection since it was last read, no better and no worse |
| `OutQueue.CleanIsHonestIff` | src/common/outqueue.hpp:75-81 | Over every run from an empty queue: a rejection is judged clean although some of its batch was sent exactly when an unbroken flush left more than 64 KiB sent and bytes waiting, and since then the queue was never empty and no byte was sent |
| `OutQueue.DirtyIsHonest` | src/common/outqueue.hpp:83-86 | Over every run from an empty queue, a dirty verdict means that some of the batch was sent |
| `OutQueue.ShortBatchIsHonest` | src/common/outqueue.hpp:78-81 | A batch of which at most 64 KiB went out is always judged rightly |
| `OutQueue.CleanAfterShift` | src/common/outqueue.cpp:122-137 | A concrete run that rejects as clean a batch of which 65537 bytes had gone out |
| `OutQueue.OutQueue.PushBytes` | src/common/outqueue.cpp:62-98 | The push, its subtraction never underflowing because the size never exceeds the ceiling |
| `OutQueue.OutQueue.FlushTo` | src/common/outqueue.cpp:100-114 | The send loop under arbitrary partial sends |
| `OutQueue.OutQueue.Compact` | src/common/outqueue.cpp:122-137 | The three outcomes of compaction |
| `OutQueue.OutQueue.TakeOverflow` | src/common/outqueue.cpp:116-120 | The flag is read and cleared |
| `OutQueue.OutQueue.WantsWrite` | src/common/outqueue.hpp:67 | True exactly while something is pending |
| `TextBuffer.TextBuffer.Insert` | src/apps/editor/buffer.cpp:65-71 | The flat text gains the string at the offset of the clamped position and the cursor ends after it |
| `TextBuffer.TextBuffer.SplitLine` | src/apps/editor/buffer.cpp:73-80 | The flat text gains a newline there and the cursor is after it |
| `TextBuffer.TextBuffer.EraseBefore` | src/apps/editor/buffer.cpp:82-99 | The flat text loses the byte before the cursor, a newline included; at the very start nothing changes, not even the modified flag |
| `TextBuffer.TextBuffer.EraseAt` | src/apps/editor/buffer.cpp:101-114 | The flat text loses the byte after the cursor, a newline included; at the very end nothing changes |
| `TextBuffer.TextBuffer.Load` | src/apps/editor/buffer.cpp:19-41 | Loaded text is given back unchanged, except that empty text is given back as one newline |
| `TextBuffer.TextBuffer.ToText` | src/apps/editor/buffer.cpp:43-51 | The loop builds the flat text and the final newline |
| `TextBuffer.TextBuffer.Find` | src/apps/editor/buffer.cpp:116-143 | The first occurrence at or after the position, else the first of all; fails exactly when no line holds the needle or it is empty |
| `TextBuffer.TextBuffer.Clamp` | src/apps/editor/buffer.cpp:58-63 | A position brought into the text |
| `TextBuffer.InsertIsFlat` | src/apps/editor/buffer.cpp:65-71 | Insertion on lines is insertion on the flat string |
| `TextBuffer.SplitIsFlat` | src/apps/editor/buffer.cpp:73-80 | Splitting a line is inserting a newline |
| `TextBuffer.EraseIsFlat` | src/apps/editor/buffer.cpp:82-99 | Erasing and joining are removals of one byte |
| `TextBuffer.EraseAtIsFlat` | src/apps/editor/buffer.cpp:101-114 | Erasing after a position is erasing before the next one |
| `TextBuffer.FlatIsInjective` | src/apps/editor/buffer.hpp:20-26 | The flat string determines the lines |
| `TextBuffer.OccursIsFlat` | src/apps/editor/buffer.cpp:116-143 | A needle without newlines occurs at a position of a line exactly if it does at that offset of the flat string |
| `Width.ReplacementIsNarrow` | src/render/width.cpp:55-61 | What replaces a non-scalar on the wire is as wide as the non-scalar |
| `Width.SearchFindsMembers` | src/render/width.cpp:38-45 | Looking only at the last range that starts in time finds exactly what is in the table |
| `Width.IdeographsAreWide` | src/render/width.cpp:55-61 | Ideographs are two columns wide |
| `Width.LineDrawingIsAmbiguous` | src/render/width.cpp:55-61 | Line drawing is as wide as the terminal says |

## Left out

- The grids of the screen and the surface are sequences of rows instead of one flat vector; shifts and masks are division and remainder; attributes are a set of the eight bits the renderer uses.
- Capacities, memory release thresholds and retries after an interrupted call; where a capacity decides between two buffers with the same contents the model chooses freely.
- The ambiguous-width flag, set once from the terminal's answer, is a parameter of every function that measures a width. The width tables are those of src/render/width.cpp.
- EmulatorObject.Guest.Read: the calls of one read are delivered after the parser has read all of it, where the program delivers each at once; the parser never looks at the screen, so the result is the same.
- FrameRuns.FrameShowsPicture: what a frame finds on the terminal is restricted, to whole glyphs for an incremental frame and to lines that meet no second half for a full one; FrameRuns.FullFramesShowIff shows that a full frame fails on all others, against the comment at src/daemon/daemon.cpp:768-770. Sizes are at most 65535, which is what the wire format and the parser's parameter ceiling allow, and the terminal shares the program's width tables.
- ClientRuns.RunIsConsistent: the terminal reads whole frames, resized only between two; a rejection drops the queue at a frame boundary, the daemon's reading of a clean one, and OutQueue.CleanIsHonestIff says exactly when a clean one does not mean that. A dirty rejection ends the connection and the run.
- ClientRuns.FreshIsConsistent: the terminal's page is whole at the start; ClientRuns.SetupIsSettled gives one for any client terminal not yet on its alternate page.
- SgrInverse.SgrRoundTrip: the comment at src/render/profile.cpp:61-65 speaks of one reduction rule for the whole program; the emitter sends palette colours to a true-colour terminal as RGB triples, so the displayed colour is defined by what the emitter sends and SgrInverse.EmitterAgreesWithTheme says exactly where the two agree.
- ScreenProofs.RunIsWhole: pairs glyphs on two columns or more (ScreenRow.OneColumnTearsAGlyph shows why, src/vt/screen.cpp:269-286) and asks for guarded character deletions; ScreenProofs.DeleteIsWholeIff gives the exact guard.
- ScreenProofs.RunKeepsWrap: runs without a resize; ScreenProofs.ResizeWrapIff says exactly which resizes break it (src/vt/screen.cpp:200-201 bounds the parked column and leaves its flag).
- Views.BoxIsShown: border glyphs are narrow; with ambiguous-width glyphs drawn wide the Unicode border overlaps itself and only Views.DrawingIsSafe holds.
- FileJobSafety.NoFileIsLost: destinations are outside the sources and one per source, and a path is a list of names; two runs that race on the same files are not modelled.
- FileJobOutcome.CountersAreTrue: no file bears the name a directory has to take; FileJobOutcome.TakenDirCounts says exactly when that matters.
- FileJobOutcome.SilentIsDoneIff: directory listings are complete; the source does not tell a read error from the end of a directory.
- FileJobOutcome.NoHalfCopyStays: two kinds of leftover are excepted, because the source leaves them; FileJobSafety.CancelLeavesPart is one of them.
- TextFlow.TextFlows: nothing scrolls while the text is printed, and wide glyphs are whole before it; FullRows.FullFrameLeavesAHole shows what may happen on others.
- FileJobExact.JobEqualsRecursion: destinations do not exist at the start; FileJobSafety.TargetSurvivesIff says exactly when an existing target is replaced (the comment at src/apps/files/job.cpp:170-171 promises that a copy never overwrites; a renamed move does).
- InputObject.InputParser.Timeout: the promise of its comment that a typed byte never disappears is not kept; InputObject.TimeoutLosesNothingIff says exactly when it is. When the timeout fires is up to the caller, so fragmentation independence is between two timeouts.
- FileJobObject.Runner.CancelJob: does not remove an incomplete copy, because the source does not; FileJobSafety.CancelLeavesPart says what stays.
- TerminalObject.Tty.OnCall: a window title set by an operating system command is not in the state.
- TerminalObject.Tty.OnCsi: the answer to a question is not in the state; that a question changes nothing else is.
- OutQueue.CleanIsHonestIff: speaks of bytes of a batch, not of frames, whose boundaries the queue does not know.
- TextBuffer.TextBuffer.Insert: a string with newlines is accepted as the source accepts it; the lines then no longer are the lines of the text, only the flat string is right.
- Symbolic links, special files and permissions in the file job, the texts of error messages and its progress line.
- Replies to the guest's questions, window titles, terminal tabs, mouse encoding and key shortcuts.
- The daemon's event loop, sockets, pseudo-terminals, signals and the client's connection code; only the order of frame, push and invalidate is taken from it.
- Window management, tiling, menus, panels, themes, gauges, the clock, the monitor, directory sorting, configuration and update files: layout and dispatch without a hard invariant.
