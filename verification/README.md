# A terminal multiplexer's core, modelled and proved

The program keeps terminals alive in a server and shows them in clients. This project models the parts of it where
two pieces of code have to agree over inputs of any size, and proves that they do:

- **The configuration file** (`ConfigLine`, `ConfigMeaning`, `ConfigEdit`, `ConfigLoad`). The loader folds lines, the
  last one winning, under the section in force; the editor rewrites the same text in place. The law is that reading
  back what was saved gives the old meaning with one place updated and the same `bind` lines, for every file; it is
  also proved to hold only for the edits that a caller can recognise as legal.
- **The grid and its deltas** (`Grid`, `GridDelta`, `GridDiff`). A delta is computed from two screens with a shift
  search, damage hints and run-length spans; applying it to a holder of the one screen gives the other, whatever the
  hash, and it carries no gap that is cheaper left out. A delta is taken whole or not at all and leaves a coherent state.
- **The mirror** (`Damage`, `Mirror`, `MirrorRun`). A client's copy of a terminal behind a stream that may lose
  deltas: it shows a screen the server really held, and its damage covers all that changed, the history included.
- **The differ** (`DiffEngine`, `TerminalRun`). The server's belief of what a client holds, and the deltas and
  snapshots that keep it true; over whole runs, with floods, changes of size and lost deltas, the mirror at the far end
  shows the terminal itself.
- **The attachment** (`Wire`, `SessionTrace`, `Paste`, `Pictures`, `Session`, `SessionRun`, `SessionParts`).
  `ServerSession` is a class that owns one `TerminalMirror` object per terminal and a record of everything it says and
  hears. Its rules hold over every sequence of messages and calls; credit-paced pasting, down to the chunks on the wire,
  and picture reassembly are proved over every run; `SessionRun` ties the session to the lossy stream and to the
  terminal, end to end, the history included; and `SessionParts` follows endings, titles, print jobs, pictures and what
  is typed from where they come in to where they end up.
- **Copy mode** (`CopySearch`, `CopyLaps`, `CopyMode`, `CopyView`). Search round a document, selection in three
  shapes, and the key-driven view.
- **The include checker** (`LayerCheck`). The iterative depth-first search, with its stored iterators and path stack.
- **The desktop** (`Tiling`, `LayoutReport`, `LayoutRun`, `Restore`, `Desktop`). Fixed-point tile shares, the report
  debounce up to the wire, and an arrangement captured and laid back down.
- **The keymap** (`Keymap`) and **the print-stream cleaner** (`Printer`, for the 7-bit control functions of ECMA-48,
  sections 5.4 and 5.6).

Loops and objects of the program are methods and classes here, proved against functions; the laws are lemmas about
those functions. A byte of text is a `char`. Sizes and sequence numbers that wrap at a machine width wrap explicitly.
`dafny verify dfyconfig.toml` checks the whole project.

Where the program and its own words differ, the model follows the program:

- `src/common/proto.hpp:332` says a tile's start and share add up to at most the whole. They may come to one
  ten-thousandth more; `Tiling.SharesMayExceedTheWhole` says exactly when.
- A tile does not always come back to its own cells on a desktop of the same size: at 5001 cells there is one that
  does not (`Tiling.EdgesMayMoveAbove`). `Tiling.EdgesComeBackExactly` says exactly when the edges do, and
  `Restore.CarriedTileComesBackExactly` when the window does.
- A delta for a new size does not send a cursor that has not changed, and the far end clamps its own; so one that is
  outside the new size ends up elsewhere (`GridDiff.CursorLeftBehind`; `GridDiff.Diff` says exactly when).
- `bind` and `unbind` cannot be stored as keys: the line that is written for them is read as a directive
  (`ConfigLine.DirectiveWordIsNotAKey`).
- `docs/configuration.md:102-103` says a `#` is no comment inside a `bind` line. One that no backslash stands in front of is
  (`ConfigLine.DirectiveIs`); `ConfigLine.DirectiveReadsBack` is about words that are written escaped.
- A selection whose corners both lie past the end of the document highlights nothing and still copies the last line
  (`CopyMode.CopiesMoreThanIsMarked`). `CopyMode.CopiesExactlyWhatIsMarked` says exactly when the two texts agree. The
  view never comes to such corners: both of its own stand in the document (`CopyModeView.Valid`).
- A terminal is opened at any size its message can carry (`src/client/mirror.cpp:232-236`); the protocol's bound is
  checked on snapshots and on the sizes deltas give, and only the latter must be of at least one cell.
- A snapshot whose grid does not decode is adopted all the same, with a blank screen (`src/client/mirror.cpp:48-80`).

## Model

| member | source | states |
|---|---|---|
| ConfigLine.TrimIs | src/common/config.cpp:28-33 | Whatever window of a text has only blanks outside it and none at its ends is the trimmed text, so there is one answer |
| ConfigLine.TrimText | src/common/config.cpp:28-33 | The two loops compute that answer |
| ConfigLine.FindCommentIn | src/common/config.cpp:41-50 | The scan that steps over escapes finds the first `#` with no backslash in front of it, or the end |
| ConfigLine.UnescapeText | src/common/config.cpp:53-65 | The loop computes the unescaping every law below is about |
| ConfigLine.EscapeText | src/common/config.cpp:71-79 | The loop computes the escaping every law below is about |
| ConfigLine.UnescapeOfEscape | src/common/config.cpp:53-79 | Unescaping an escaped value gives the value back, for every value |
| ConfigLine.EscapeHidesComments | src/common/config.cpp:66-79 | No comment starts inside an escaped value: each `#` of it has its backslash |
| ConfigLine.SplitWords | src/common/config.cpp:96-107 | The words of a directive are the maximal runs between gaps, each unescaped on its own |
| ConfigLine.WordsReadBack | src/common/config.cpp:96-106 | Words written one after another with a blank between, escaped, are split into those words |
| ConfigLine.GapsDoNotMatter | src/common/config.cpp:96-106 | How wide the gaps are, and of which blanks, makes no difference to the words |
| ConfigLine.DirectiveReadsBack | src/common/config.cpp:113-132 | A line written as a directive, of words with no blank in them, is read as one, whole, whatever its words hold |
| ConfigLine.KindsOfLines | src/common/config.cpp:113-161 | Which lines are blank, which are comments, which directives, and which cannot be read, of every line and in its own characters |
| ConfigLine.HeaderIs | src/common/config.cpp:133-142 | A header is what stands in front of its first `]`, whatever stands behind it |
| ConfigLine.AssignmentIs | src/common/config.cpp:143-161 | An assignment is what stands in front of its first `=`, and what stands between that and its first `#` without a backslash; the comment is kept |
| ConfigLine.DirectiveIs | src/common/config.cpp:125-132 | A directive is all of its line in front of its first `#` without a backslash |
| ConfigLine.WrittenAssignmentReadsBack | src/common/config.cpp:113-161 | A written `key = value` line, with or without a kept comment, is read as that key, that value and that comment |
| ConfigLine.AssignmentReadsBack | src/common/config.cpp:113-161 | Without a comment it is read back so exactly if the key is legal and the value trimmed |
| ConfigLine.HeaderReadsBack | src/common/config.cpp:113-161 | A written header is read as its section exactly if the name is trimmed and has no `]` |
| ConfigLine.DirectiveWordIsNotAKey | src/common/config.cpp:108-130 | A line written for the key `bind` or `unbind` is read as a directive, whatever follows |
| ConfigMeaning.RewrittenSettles | src/common/config.cpp:803-832 | Rewriting every occurrence of a key updates that one place of the last-one-wins meaning, whatever judges the values |
| ConfigMeaning.InsertedSettles | src/common/config.cpp:834-844 | So does putting one line in where the section ends, if nothing behind it assigns the key |
| ConfigMeaning.EditedSettles | src/common/config.cpp:786-844 | So does an edit in any of its three forms, for every file |
| ConfigMeaning.EditedKeepsDirectives | src/common/config.cpp:786-844 | No edit changes a directive, its order or its section |
| ConfigMeaning.EditedHits | src/common/config.cpp:798-844 | After an edit the key is assigned on the lines where it was before, or on the one line put in, and nowhere else |
| ConfigMeaning.LastHeaderIsInForce | src/common/config.cpp:700-715 | The section in force behind some lines is that of the last header among them |
| ConfigMeaning.NoHeaderNoSection | src/common/config.cpp:700-715 | And with no header there is none |
| ConfigMeaning.LastAcceptedWins | src/common/config.cpp:716-761 | The value a place ends up with is that of the last line that assigns it something its judge takes |
| ConfigMeaning.NoneAcceptedNoValue | src/common/config.cpp:716-761 | And it has one only if there is such a line |
| ConfigMeaning.DirectiveAt | src/common/config.cpp:700-761 | A directive line adds itself, under its section, behind those before it, and no other line adds any |
| ConfigMeaning.PlaceIsLast | src/common/config.cpp:798-812 | The place for a new line is just behind the last line in the section that is not blank, its header counted; and only a section without one has none |
| ConfigEdit.SplitOfJoin | src/common/config.cpp:786-795 | Lines written with newlines and read again are the same lines |
| ConfigEdit.JoinOfSplit | src/common/config.cpp:786-795 | Lines read and written again are the text, its last line ended if it was not |
| ConfigEdit.SavedReads | src/common/config.cpp:786-844 | The text a legal save writes is read, line by line, as the edit of what was read before |
| ConfigEdit.SaveThenRead | src/common/config.cpp:700-850 | The law: for every text, legal section, key and value, and every judge of values, what is read back is the old meaning with that one place updated, and the same directives |
| ConfigEdit.SaveReadsBackExactly | src/common/config.cpp:765-850 | A save reads back as its own value, in any file, if and only if section, key and value pass a check the caller can make beforehand |
| ConfigEdit.SaveOverridesSave | src/common/config.cpp:798-844 | A second save of a key leaves the very file that the second alone would; so saving twice is saving once |
| ConfigEdit.SavedExactly | src/common/config.cpp:796-844 | What a save writes, line for line, for any file and any arguments: the key's lines in place with two blanks before the comment each had, or one line behind the last of the section that is not blank, or a header and the line behind the file after a blank line, which an empty file or one that ends in one does without |
| ConfigEdit.SavePreservesTheRest | src/common/config.cpp:798-844 | Every other line survives unchanged and in order, rewritten lines keep their comments, and at most one line is put in or three behind the file |
| ConfigEdit.RewriteAll | src/common/config.cpp:798-832 | The one pass rewrites exactly the lines that assign the key in the section, and knows where a new line goes |
| ConfigEdit.SaveLines | src/common/config.cpp:796-844 | The edit loop and its three endings give the lines the laws are about |
| ConfigEdit.SaveSetting | src/common/config.cpp:775-850 | The text written is that of the law; a file that is there and cannot be read is not written over |
| ConfigLoad.ByteSizeExactly | src/common/config.cpp:575-595 | A byte size is accepted exactly if its product is within the cap, though the bound is asked before the product is formed |
| ConfigLoad.WrittenNumberReadsBack | src/common/config.cpp:565-573 | A number written in decimal is read back exactly if it lies in the range |
| ConfigLoad.NegativeReadsBack | src/common/config.cpp:565-573 | With a minus sign it is read as its negative exactly if that lies in the range |
| ConfigLoad.FlagExactly | src/common/config.cpp:555-563 | A switch is on exactly if its text, blanks apart, is `true`, and off exactly if it is `false`; any other text is refused |
| ConfigLoad.WrittenSizeReadsBack | src/common/config.cpp:575-595 | A number written with `K`, `M`, `G` or nothing behind it is read as that many bytes up to a gigabyte, and beyond is refused |
| ConfigLoad.LoadLines | src/common/config.cpp:700-761 | The loop's settings, binds and warnings are the three folds over the file that the laws above and below are about |
| ConfigLoad.SettledInRange | src/common/config.cpp:320-470 | Whatever a file holds, every setting read from it is one of the table and in its range |
| ConfigLoad.LoadedNumbersInRange | src/common/config.cpp:668-763 | After any load every numeric setting is in its range, those the file does not mention included |
| ConfigLoad.LoadAfterSave | src/common/config.cpp:668-850 | Saving a value its key accepts and loading again gives that value there, every other setting as it was, and the same binds |
| ConfigLoad.SavedNumberLoads | src/common/config.cpp:565-573 | Any number of its range saved under a numeric key is the number the next load has |
| ConfigLoad.SavedFlagLoads | src/common/config.cpp:555-563 | Under every key that is a switch, in every file, either word saved is what the next load has |
| ConfigLoad.SavedSizeLoads | src/common/config.cpp:575-595 | Under every key that is a size, any size up to a gigabyte saved in bytes or in a unit is that many bytes in the next load |
| ConfigLoad.SavedChoiceLoads | src/common/config.cpp:359-367 | Under every key that is one of some words, any of them saved is the one the next load has |
| ConfigLoad.SavedShellLoads | src/common/config.cpp:378-386 | The shell loads as it was saved, `$SHELL` as none |
| ConfigLoad.SavedTermLoads | src/common/config.cpp:431-434 | The terminal's name loads as it was saved, none as `auto` |
| ConfigLoad.SavedFolderLoads | src/common/config.cpp:463-466 | The folder for print jobs loads as it was saved |
| ConfigLoad.SavedPrefixLoads | src/common/config.cpp:370-377 | A prefix that is a chord loads as that chord |
| ConfigLoad.SavedClipboardLoads | src/common/config.cpp:450-457 | A list of clipboard targets loads as that list |
| ConfigLoad.KeysAreDocumented | docs/configuration.md:37-89 | The keys of each section, what each takes and what each is with no file are those the documentation lists, and there is no other key |
| ConfigLoad.WarnedExactly | src/common/config.cpp:700-761 | A line is warned of if and only if it is a header nobody knows, not a line, a directive that is none, or an assignment that is not taken or says again what an earlier line settled; but for what stands under a header nobody knows |
| ConfigLoad.FaultIsNamed | src/common/config.cpp:716-758 | A warning says what is wrong with its line; of an assignment, whether its key belongs in another section, in none, its value was refused, or it was set before |
| ConfigLoad.OwnerKnows | src/common/config.cpp:480-494 | The section a key is said to belong in is one that has it, and if none is named no other section has |
| ConfigLoad.BindReads | src/common/config.cpp:507-541 | A `bind` line is the bind of its context, chord and action if and only if all three are known |
| ConfigLoad.UnbindReads | src/common/config.cpp:507-541 | An `unbind` line is the same with no action |
| ConfigLoad.BindCounts | src/common/config.cpp:507-519 | A line of any other number of words is neither |
| ConfigLoad.BindLineLoads | src/common/config.cpp:700-761 | A `bind` line put behind a file adds its bind behind those the file has |
| ConfigLoad.NoWarningMeansObeyed | src/common/config.cpp:700-761 | A file that loads without a warning is obeyed in every line |
| ConfigLoad.WarningsNameLines | src/common/config.cpp:700-761 | At most one warning a line, in line order, each naming a line of the file |
| Grid.ToRuns | src/common/proto.cpp:1192-1207 | Run-length encoding loses no cell; no run outgrows its two-byte length, and none stops short of it before another cell comes |
| Grid.BlankIs | src/common/grid_delta.cpp:189-197 | A blank state is unstyled spaces, the cursor showing at the origin, no modes, no title and no history |
| Grid.EnforceKeepsNewest | src/common/grid_delta.cpp:222-242 | Enforcing the history's capacity forgets the oldest lines over the limit and nothing else, whatever storage is reclaimed |
| Grid.PushKeepsNewest | src/common/grid_delta.cpp:294-303 | A pushed line leaves the newest lines the limit allows, at the grid's width; what a width keeps of a line is said by PushedLineStands |
| Grid.PushesAre | src/common/grid_delta.cpp:222-303 | However many lines are pushed and storage reclaimed, the history is the newest lines allowed of what it was and them, in order |
| Grid.PushedLineStands | src/common/grid_delta.cpp:294-303 | Cell by cell: a pushed line stands last in the history with the cells it came with, blanks where it was shorter than the width, and its front where it was longer |
| Grid.WholeLinesPushed | src/common/grid_delta.cpp:294-303 | Lines as wide as the history enter it unchanged |
| Grid.RelaidHistory | src/common/grid_delta.cpp:244-292 | A new size loses no line: each is kept, cell by cell, as the new width keeps it |
| Grid.SameWidthHistory | src/common/grid_delta.cpp:244-292 | And at the width they have they stay as they are |
| Grid.ClampIsNearest | src/common/grid_delta.cpp:244-292 | A cursor brought inside a size moves no further than it has to, and keeps its looks |
| Grid.MaskedIs | src/common/grid_delta.cpp:583-588 | A word with the bits of a mask restated has the new ones in the mask and the old ones outside it, and there is one such word |
| Grid.ShiftRowsAt | src/common/grid_delta.cpp:81-100 | Where each row of a shifted band comes from, up or down, and that no row outside it moves |
| GridDelta.ResizeShape | src/common/grid_delta.cpp:244-292 | A resize leaves a blank grid of the new size, a coherent history and a cursor inside; to the same size it does nothing |
| GridDelta.ApplyDelta | src/common/grid_delta.cpp:478-597 | A refused delta leaves the state untouched, a taken one has every op performed, and either way the state is coherent; what each op does is said by the five rows below |
| GridDelta.OpTakenExactly | src/common/grid_delta.cpp:478-541 | A delta of one op is taken exactly if the rows, columns and places it names are there, its shift is of its band, its lines are of some width there is, and its size is from one to a thousand each way |
| GridDelta.CellsAreLaid | src/common/grid_delta.cpp:568-577 | Cells are laid where the op says, and every other cell and all else stays |
| GridDelta.RowsAreScrolled | src/common/grid_delta.cpp:81-100 | A row of the band comes from so many rows further on, or is blank if that is outside the band; every other row and all else stays |
| GridDelta.LinesArePushed | src/common/grid_delta.cpp:551-563 | Pushed lines stand behind the history, each as its width keeps it, as far as the limit allows, and the screen stays |
| GridDelta.BitsAreMasked | src/common/grid_delta.cpp:583-588 | Modes change in the bits of the mask, to what the values say of them, and in no others |
| GridDelta.DeltaKeepsCoherent | src/common/grid_delta.cpp:478-597 | A delta is taken exactly if each op fits the size it will meet; taking it keeps the state coherent, within the protocol's bound, non-empty and its cursor inside |
| GridDelta.DeltaActsOnScreens | src/common/grid_delta.cpp:478-597 | Holders of one screen take the same deltas and stay holders of one screen, whatever histories they keep |
| GridDelta.DeltaIgnoresTitles | src/common/grid_delta.cpp:478-597 | And holders whose screens differ in the title alone differ in no more than that afterwards |
| GridDelta.DeltaRetitled | src/common/grid_delta.cpp:478-597 | No op reads the title: states that differ in it alone differ in no more after any delta, histories included |
| GridDiff.BestShift | src/common/grid_delta.cpp:371-412 | No shift puts more rows of the band right, none before it as many; none is chosen unless it puts two rows more right than standing still |
| GridDiff.MatchesAreRightRows | src/common/grid_delta.cpp:376-390 | With a hash that tells rows apart, a shift's score is the number of rows it leaves nothing to send for |
| GridDiff.ChangedInRun | src/common/grid_delta.cpp:134-158 | The run is a whole one of equal wanted cells, and the span found in it holds every change and starts and ends at one |
| GridDiff.EmitChangedRow | src/common/grid_delta.cpp:118-174 | The spans laid over the held row give the wanted row. Each starts and ends at a change, carries no gap of unchanged cells that costs more than another op, and between two in a row lies one that does; so an unchanged row costs nothing |
| GridDiff.DiffGrid | src/common/grid_delta.cpp:335-431 | For every hash and every honest damage hint, the ops paint the held grid into the wanted one. They are a scroll or none and then such spans; with a hash that tells rows apart the band between the first and the last changed row is scrolled if and only if a shift puts two rows more right, and by one that puts most; equal grids cost nothing |
| GridDiff.Diff | src/common/grid_delta.cpp:305-440 | The law of a delta: every holder of the old screen, whatever history it keeps, can take it exactly if what it says is sendable; what it then holds is stated for every case, history included, and it is the new screen exactly if the size is the same or the cursor inside it. Beside the painting it says only what changed, and nothing at all if nothing did |
| GridDiff.ReachedIsCurrent | src/common/grid_delta.cpp:434-436 | A cursor that can be sent is where it should be afterwards exactly under that guard |
| GridDiff.CursorLeftBehind | src/common/grid_delta.cpp:434-436 | A cursor that did not change and is outside a new size is not sent, and the holder's own is clamped: an input at which the two differ |
| GridDiff.FullRepaint | src/common/grid_delta.cpp:442-466 | The delta that assumes nothing is taken by every holder or by none, and whoever takes it holds the screen, whatever it held before |
| Damage.DeltaCovers | src/client/mirror.cpp:189-228 | After any taken delta, of any ops and sizes, all that differs from what a view last showed is in the report, or the report is full |
| Damage.RepaintIsHeld | src/client/mirror.cpp:384-404 | Repainting only what the report covers gives the screen the mirror holds |
| Damage.DeltaKeepsNoted | src/client/mirror.cpp:189-228 | Through any taken delta, of any ops and sizes, a cell once noted stays noted unless the grid has no such cell any more |
| Damage.NotesNoMore | src/client/mirror.cpp:189-228 | And no more is noted than spans need: a cell that a taken delta without a resize leaves noted lies, in its row, between cells noted before, laid or scrolled |
| Damage.FlagsAreNoted | src/client/mirror.cpp:189-228 | Cursor, modes and title are noted exactly if they were or the delta has an op of theirs or a size; pictures and the whole exactly if they were or it has a size |
| Damage.RastersStayNoted | src/client/mirror.cpp:189-228 | Pictures once noted as changed stay noted through any delta |
| Damage.DeltaPushes | src/client/mirror.cpp:189-228 | A delta that does not resize leaves the newest lines allowed of the history and the lines it pushes, and the report counts exactly those more |
| Damage.DeltaCoversHistory | src/client/mirror.cpp:189-228 | After any number of taken deltas, of any ops and sizes, all of the live history but the last lines counted is the newest of what was shown, or the report is full |
| Damage.HistoryIsHeld | src/client/mirror.cpp:384-404 | So what was shown of the history with those last lines behind it is the history held |
| Mirror.UnflattenOfFlatten | src/common/grid_delta.cpp:617-640 | A grid flattened to cells and cut into rows again is the grid |
| Mirror.EncodeGrid | src/common/grid_delta.cpp:617-640 | A grid is encoded losslessly, whatever its size, and decodes to itself at every size the protocol allows |
| Mirror.DecodesExactly | src/common/grid_delta.cpp:619-640 | Runs decode exactly if they hold as many cells as the size says and the protocol allows it, and then row by row into those cells |
| Mirror.AdoptedCoherent | src/client/mirror.cpp:43-166 | A snapshot within the bound is adopted as a coherent state that shows the screen it carries |
| Mirror.AdoptedHistory | src/client/mirror.cpp:57-72 | The history a snapshot brings: every line of it that is not empty and no wider than the terminal, in order, each as the width keeps it, the newest of them the limit allows |
| Mirror.NamedStay | src/client/mirror.cpp:145-151 | A snapshot keeps the held pictures that it names, as they are, and no others |
| Mirror.JobsDoNotInterfere | src/client/mirror.cpp:297-307 | However chunks of print jobs interleave, each job is what its own chunks alone make it |
| Mirror.TerminalMirror.constructor | src/client/mirror.hpp:39 | A new mirror holds nothing, and there is nothing to repaint |
| Mirror.TerminalMirror.ApplyDelta | src/client/mirror.cpp:169-230 | The gap rule: exactly the next number with ops that fit is taken, else a snapshot is needed and nothing else changes; the damage is read off the ops and covers them |
| Mirror.TerminalMirror.NoteOp | src/client/mirror.cpp:189-228 | What each kind of op adds to the damage |
| Mirror.TerminalMirror.NoteRow | src/client/mirror.cpp:390-404 | A row's span is widened to the noted columns, clamped to the size, other rows untouched |
| Mirror.TerminalMirror.Adopt | src/client/mirror.cpp:43-166 | A snapshot is adopted whole, sequence started over and everything to be drawn, or refused for its size with only the need for another noted |
| Mirror.TerminalMirror.KeepNamed | src/client/mirror.cpp:145-151 | The erasing loop over two parallel vectors keeps exactly the pictures the snapshot names |
| Mirror.TerminalMirror.Open | src/client/mirror.cpp:232-253 | A terminal opened anew is blank at its size, running, its sequence at the start |
| Mirror.TerminalMirror.ApplyTitle | src/client/mirror.cpp:255-262 | A title changes the title alone and is noted |
| Mirror.TerminalMirror.ApplyClosed | src/client/mirror.cpp:354-369 | How a child ended is kept and every row is noted for the banner |
| Mirror.TerminalMirror.SetHistoryLimit | src/client/mirror.cpp:371-374 | A new limit keeps the newest lines it allows and the screen as it was |
| Mirror.TerminalMirror.ClearDamage | src/client/mirror.cpp:384-388 | After it nothing is to be repainted, and what is held, the history included, is what is shown |
| Mirror.TerminalMirror.PlaceImage | src/client/mirror.cpp:410-441 | A placement adds a picture, restates or moves a held one, or does nothing without pixels; the parallel vectors stay one map |
| Mirror.TerminalMirror.RemoveImage | src/client/mirror.cpp:443-451 | A removal takes that picture out of both vectors and no other |
| Mirror.TerminalMirror.ApplyPrintData | src/client/mirror.cpp:297-307 | A chunk goes behind its own job's bytes; the last one moves the job to those fetched |
| MirrorRun.RunKeepsInStep | src/server/diff_engine.cpp:141-270 | Every step of a server, its snapshots taken of the terminal however far that has moved on, its terminals announced anew, and of a connection that may lose deltas, keeps the two ends in step |
| MirrorRun.OpeningBringsInStep | src/server/server.cpp:1262-1313 | A terminal announced with nothing but its size starts the stream over, whatever the two ends were |
| MirrorRun.MirrorShowsAServerScreen | src/client/mirror.cpp:156-187 | Over every run from a snapshot or an announcement on, more of both included, the mirror shows the screen the server held at the number it names; the present one if nothing was lost and the terminal is stated; and any delta after a lost one makes it ask |
| MirrorRun.SnapshotCures | src/client/mirror.cpp:43-166 | One more snapshot of the terminal as it is, however far both ends had drifted from it, brings the mirror to that screen and ends the asking |
| DiffEngine.TerminalDiffer.constructor | src/server/diff_engine.hpp:116-119 | A new differ believes the client to hold a terminal of no size |
| DiffEngine.TerminalDiffer.Advance | src/server/diff_engine.cpp:200-224 | Whichever way the ops are made, by difference, whole, or whole after a difference that could not be applied, the belief is then the terminal as it is, and every client that held what was believed comes to hold it, history lines included |
| DiffEngine.TerminalDiffer.Flush | src/server/diff_engine.cpp:141-229 | A tick: nothing said of what has not changed; a flood's screen without its history, and a snapshot asked for once it is over; else a delta, numbered in a row, that brings the client to the terminal; and no delta if the screen is the one believed and no line is new |
| DiffEngine.TerminalDiffer.Snapshot | src/server/diff_engine.cpp:231-284 | A snapshot carries the terminal as it is, which is then the belief, and starts the numbers over and ends the asking |
| DiffEngine.BeliefFollows | src/server/diff_engine.cpp:208-222 | What brings every client to a screen makes the belief itself that screen |
| DiffEngine.HistoryFollows | src/server/diff_engine.cpp:160-163 | A client whose size stays has, behind its own history, the very lines that are given, the newest of it all that its limit allows |
| DiffEngine.TickBringsHistory | src/server/diff_engine.cpp:141-224 | A tick with no flood, now or before, and no new size: every client of the old screen has the new one, and the newest lines its limit allows of what it had and the last lines, as many as the terminal gained, of the terminal's own history |
| DiffEngine.NewSizeBringsHistory | src/server/diff_engine.cpp:178-203 | And with a new size: every client of any screen has the new one, and of history what it had, as the new width keeps it, and those lines |
| DiffEngine.FloodIsHealed | src/server/diff_engine.cpp:141-158 | More lines than 256 in a tick: the screen goes without them, and the first tick of fewer says nothing but that a snapshot is needed |
| TerminalRun.FlushMayBeCalled | src/server/diff_engine.cpp:141-213 | At every moment of every run that has not asked for a snapshot, a terminal's honest report is true of the belief as well, so the next tick keeps its promise |
| TerminalRun.RunTracks | src/server/diff_engine.cpp:141-284 | Over every run of snapshots, announcements, ticks and lost deltas, what is said is a stream of `MirrorRun`, all held at its ends are the terminal's own screens, and the belief is the terminal as it was last read until a snapshot is asked for |
| TerminalRun.MirrorShowsTheTerminal | src/server/server.cpp:3099-3150 | So the mirror shows a screen the terminal really had, or the blank one announced; with nothing lost, the terminal stated and no snapshot asked for, the terminal as it was last read |
| TerminalRun.HistoryGains | src/server/diff_engine.cpp:141-224 | Over every run of ticks with nothing lost, no flood and no new size, the far mirror's history is the newest lines its limit allows of what it was and all that the terminal has gained since |
| TerminalRun.HistorySinceSnapshot | src/server/diff_engine.cpp:141-284 | So it is from a snapshot on: the newest of the lines the snapshot brought and all gained since |
| Pictures.PicturesDoNotInterfere | src/client/server_session.cpp:473-546 | However picture messages interleave, each id's state is what its own messages alone make it |
| Pictures.UploadCompletes | src/client/server_session.cpp:473-533 | Begin, chunks in order that make up exactly width·height·4 > 0 bytes, and end, complete the picture whatever was there before |
| Pictures.OnlyUploadsComplete | src/client/server_session.cpp:473-533 | And only that: whatever is held was put there by such an upload, or is one under way with no more bytes than announced |
| Pictures.TakenOnce | src/client/server_session.cpp:519-533 | A placement takes a completed picture once; until another upload ends there is none to take |
| Paste.CutIsWhole | src/client/server_session.cpp:123-139 | The chunks of a paste are its bytes in order, each of 1 to 65536 bytes, numbered in a row, the last and only the last marked final |
| Paste.NumbersWrap | src/client/server_session.cpp:123-139 | Chunk numbers count in 32 bits |
| Paste.CutPaste | src/client/server_session.cpp:123-139 | The cutting loop makes those chunks and the number that comes next |
| Paste.StepKeepsPaced | src/client/server_session.cpp:123-162 | Each paste, acknowledgement and abandonment keeps the rules of pacing |
| Paste.PastingIsPaced | src/client/server_session.cpp:123-162 | Over every run: at most two chunks in flight, a waiting chunk only if exactly two are, sent and waiting bytes are those asked for since the last abandonment, and the wire exceeds the count only by credit taken back |
| Paste.AckDrains | src/client/server_session.cpp:327-339 | Each acknowledgement lowers what is in flight and waiting by one until nothing is left |
| Paste.EnoughAcksSendItAll | src/client/server_session.cpp:141-162 | As many acknowledgements as there are chunks outstanding send everything asked for |
| Paste.NothingToPaste | src/client/server_session.cpp:123-127 | An empty paste changes nothing and sends nothing |
| Paste.SentOn | src/client/server_session.cpp:123-162 | What a run sends is what its first part sends, and then what the rest sends from the state that leaves |
| Paste.SentIsTheEnd | src/client/server_session.cpp:141-162 | The chunks sent since the last abandonment, by the books, are the last of the chunks put on the wire |
| SessionTrace.NeverOpenedTwice | src/client/server_session.cpp:103-121 | A terminal is never announced twice without a close, windows forgotten or a lost connection in between |
| SessionTrace.LayoutAfterItsWindows | src/client/server_session.cpp:277-293 | A snapshot's arrangement names only terminals announced before it and still up |
| SessionTrace.ShownIsHeld | src/client/server_session.cpp:103-121 | Every window announced has a mirror |
| SessionTrace.ShownUntilTakenDown | src/client/server_session.cpp:183-196 | A window stays announced until it is closed, forgotten or the connection lost |
| SessionTrace.OneHealAtATime | src/client/server_session.cpp:198-210 | Between two requests to be healed there is an attachment, an attach of the client's own, or a lost connection |
| SessionTrace.HealingUntilAnswered | src/client/server_session.cpp:16-46 | A request stays outstanding until one of these |
| SessionTrace.ReportsDiffer | src/client/server_session.cpp:85-101 | While one session is watched no arrangement is sent twice in a row |
| SessionTrace.ReportStands | src/client/server_session.cpp:85-101 | What was sent last stays so until another is sent, the session changes, or the attachment ends |
| SessionTrace.ReportedWhileAttached | src/client/server_session.cpp:85-101 | An arrangement is sent only during an attachment, and never an empty one |
| SessionTrace.ShownExactly | src/client/server_session.cpp:103-196 | A window is shown if and only if it was announced and nothing has taken it down since |
| SessionTrace.HeldExactly | src/client/server_session.cpp:103-181 | A terminal is held if and only if it was announced and neither closed since nor the connection lost |
| SessionTrace.AttachedExactly | src/client/server_session.cpp:213-362 | A session is attached if and only if that was granted and neither ended since nor the connection lost |
| SessionTrace.HealingExactly | src/client/server_session.cpp:16-46 | A heal is outstanding if and only if one was asked for and nothing has answered since |
| SessionTrace.SessionExactly | src/client/server_session.cpp:16-46 | The session watched is the one the client or the server named last on this connection |
| SessionTrace.ReportedExactly | src/client/server_session.cpp:85-101 | The arrangement the server goes by is the one sent last, unless the attachment ended, the connection was lost or another session was asked for since |
| Session.AdoptAllTerms | src/client/server_session.cpp:232-233 | A snapshot's terminals all have mirrors afterwards, and no others are made |
| Session.AdoptedLast | src/client/server_session.cpp:232-233 | A terminal stated more than once is held as it was stated last, with as much history as its mirror kept or the reader wants of a new one; or it asks again if that was too large |
| Session.SnapshotAnswers | src/client/server_session.cpp:212-296 | After an attachment the mirrors are exactly those of the snapshot, each as stated, with as much history as it kept, or as the reader asked for last if it is new; and one asks again exactly if a terminal was stated larger than the protocol allows |
| Session.AdoptingKeepsLimits | src/client/server_session.cpp:103-121 | No snapshot changes how much history a mirror keeps; one made for it keeps what the reader asked for last |
| Session.OthersUntouched | src/client/server_session.cpp:212-549 | A message about one terminal leaves every other terminal's mirror alone |
| Session.ServerSession.constructor | src/client/server_session.cpp:12-14 | A new session holds nothing and has said nothing |
| Session.ServerSession.Attach | src/client/server_session.cpp:16-46 | Asking for a session ends any outstanding heal, and forgets what was reported if it is another session |
| Session.ServerSession.RequestSnapshot | src/client/server_session.cpp:198-210 | Asks once; nothing is sent while an answer is outstanding |
| Session.ServerSession.ReportLayout | src/client/server_session.cpp:85-101 | Sends an arrangement exactly if it is not empty, an attachment stands, and it is not the one sent last |
| Session.ServerSession.EnsureTerminal | src/client/server_session.cpp:103-121 | A terminal not held gets a fresh mirror and one announcement; one held is left as it is |
| Session.ServerSession.PumpPaste | src/client/server_session.cpp:141-153 | Sends from the front of the queue what the credit allows, no more and no less |
| Session.ServerSession.Paste | src/client/server_session.cpp:123-139 | A paste is one step of the pacing, and sends what that step sends |
| Session.ServerSession.AbandonPaste | src/client/server_session.cpp:155-162 | Empties the queue and takes the credit back |
| Session.ServerSession.HandleAck | src/client/server_session.cpp:327-339 | An acknowledgement is one step of the pacing, and sends what that step sends |
| Session.ServerSession.ConnectionLost | src/client/server_session.cpp:164-181 | Everything held and told is let go, pasting included |
| Session.ServerSession.WindowsForgotten | src/client/server_session.cpp:183-196 | The announcements are forgotten and pastes abandoned; mirrors and attachment stay |
| Session.ServerSession.AdoptSnapshot | src/client/server_session.cpp:232-233 | The snapshot's terminals one after another: each new one announced once, each adopted into a mirror of its own |
| Session.ServerSession.CloseVanished | src/client/server_session.cpp:238-252 | Exactly the held terminals the snapshot does not name are closed, each once |
| Session.ServerSession.AnnounceHeld | src/client/server_session.cpp:268-276 | Exactly the held terminals with no window are announced, each once |
| Session.ServerSession.Reconcile | src/client/server_session.cpp:232-276 | Afterwards held, announced and the snapshot's terminals are one set, reached by exactly the announcements and closes it takes |
| Session.ServerSession.HandleAttached | src/client/server_session.cpp:213-296 | An attachment, first or healing: granted, reconciled, and only then its arrangement stated |
| Session.ServerSession.HandleLayout | src/client/server_session.cpp:297-326 | News of an arrangement is passed on exactly if it is about the session watched |
| Session.ServerSession.HandleDetached | src/client/server_session.cpp:354-362 | The attachment is over and what was reported is forgotten; mirrors stay |
| Session.ServerSession.HandleDelta | src/client/server_session.cpp:363-374 | A delta goes to its mirror; one for a terminal never heard of invents nothing and asks, once |
| Session.ServerSession.HandleOpened | src/client/server_session.cpp:375-383 | A terminal opening gets a mirror, blank at its size, and an announcement if it had none |
| Session.ServerSession.HandleClosed | src/client/server_session.cpp:384-402 | A held ending keeps mirror and window, any other takes both and says so once |
| Session.ServerSession.StorePicture | src/client/server_session.cpp:473-546 | The two picture maps after any message are those its picture messages leave, over the session's whole life |
| Session.ServerSession.Handle | src/client/server_session.cpp:212-549 | Any message: the mirrors, pictures, pasting, the chunks sent and everything said afterwards, and whether it was understood |
| Session.ServerSession.HealIfNeeded | src/client/server_session.cpp:551-559 | Asks exactly if some mirror has lost track and no answer is outstanding |
| Session.ServerSession.Do | src/client/server_session.cpp:12-577 | Any call or message keeps the session valid and has exactly the effect stated for it on mirrors, pictures, pasting, the chunks put on the wire and the record |
| Session.ServerSession.Live | src/client/server_session.cpp:12-577 | So over any sequence: what is held is the fold of the inputs, what is said is what each of them adds to the record, one after another, pasting is the paced run of them, and the chunks put on the wire are exactly those that run sends |
| Session.EverySession | src/client/server_session.cpp:12-577 | Every session, from its first moment and whatever happens, has a lawful record that its fields agree with, made of what each input adds, and has put on the wire what its paced run sends, ending in what the books say was sent |
| SessionRun.MirrorFollowsNews | src/client/server_session.cpp:212-549 | As long as a session has a mirror of a terminal, that mirror is what the terminal's own snapshots, announcements and deltas make, whatever they are mixed with: but for the title, and the title too if none is stated apart; and its history with it if the two keep as much |
| SessionRun.InputStarts | src/client/server_session.cpp:212-383 | A snapshot of a terminal or its announcement makes its mirror exactly what that says, whatever the session held, a terminal stated twice being as stated last |
| SessionRun.RunIsNews | src/client/mirror.cpp:156-187 | The mirror of a lossy run is what the news that arrived makes |
| SessionRun.SessionShowsAServerScreen | src/client/server_session.cpp:212-559 | End to end: from a snapshot or an announcement on, with deltas lost and everything else interleaved, titles stated apart included, a session's own mirror shows a screen the server held since, the present one if none was lost and the terminal is stated; the title too if none was stated apart; and it is found out of step once a delta arrives after a lost one |
| SessionRun.EveryMirrorIsCoherent | src/client/server_session.cpp:12-577 | Over every sequence of inputs from a session's first moment, none of its mirrors holds an incoherent state |
| SessionRun.EverySessionShowsAServerScreen | src/client/server_session.cpp:12-577 | So the end-to-end result holds of any start heard by any session, whatever came earlier in it |
| SessionRun.SessionShowsTheTerminal | src/server/diff_engine.cpp:141-284 | From the terminal in the server to the mirror in the client: the mirror of any such session shows a screen the terminal really had when it was read, and the terminal as it was last read if nothing was lost, the terminal is stated and no snapshot was asked for |
| SessionRun.MirrorKeepsWhatWasAsked | src/client/server_session.cpp:103-108 | Over every run, a mirror keeps as many lines of history as the reader had asked for last when it was made, and none if nothing had been asked for, whatever has been asked for and stated since |
| SessionRun.SessionKeepsHistory | src/client/server_session.cpp:212-374 | The history end to end: a session that hears a snapshot and then every tick, with no flood and no new size, has the newest lines its mirror keeps of what the snapshot brought and all that the terminal gained since, whatever else it hears |
| SessionParts.EndingStands | src/client/mirror.cpp:354-369 | How a terminal's program ended stays as it was said last, whatever else happens, until it is said anew |
| SessionParts.CloseIsRemembered | src/client/server_session.cpp:384-402 | A terminal closed is remembered with how it ended, its status only if it did, if its window is held open; else it is gone |
| SessionParts.OpeningIsRunning | src/client/server_session.cpp:375-383 | A terminal opened is running, whatever ran behind its number before |
| SessionParts.SnapshotTellsOfEnding | src/client/mirror.cpp:118-131 | A snapshot of a terminal whose program has ended says how |
| SessionParts.TitleIsStated | src/client/server_session.cpp:403-407 | A title stated is the terminal's title, and nothing else of its mirror changes |
| SessionParts.StreamStands | src/client/server_session.cpp:212-549 | And it stands, with all of the stream, until more is heard of the terminal |
| SessionParts.JobArrives | src/client/server_session.cpp:447-451 | A print job whose chunks are heard in order, the last marked, is fetched whole, whatever other jobs and messages they are mixed with |
| SessionParts.SnapshotForgetsJobs | src/client/mirror.cpp:94-99 | A snapshot begins the print jobs anew |
| SessionParts.PlacementIs | src/client/server_session.cpp:519-533 | A placement: pixels that have arrived are put there and taken from the store, a picture already there without new ones moves, and with neither nothing happens |
| SessionParts.PictureArrives | src/client/server_session.cpp:473-533 | A picture uploaded in order in exactly its bytes and then placed is in that terminal, where it was placed, whatever else was heard in between |
| SessionParts.PictureStays | src/client/server_session.cpp:473-546 | There it stays until it is placed anew, removed, or a snapshot comes without it |
| SessionParts.RemovalIs | src/client/server_session.cpp:535-546 | A picture removed is gone from that terminal and from those on their way, and the others stay |
| SessionParts.SnapshotDropsUnnamed | src/client/mirror.cpp:145-151 | A snapshot leaves its terminal no picture that it does not name |
| SessionParts.SentAndWaitingIsTyped | src/client/server_session.cpp:123-162 | As long as neither windows nor connection go, the bytes sent to a terminal and those that wait for it are the bytes typed into it, in order |
| SessionParts.EverythingTypedIsSent | src/client/server_session.cpp:123-162 | And with as many acknowledgements as there are chunks outstanding, all that was typed has been sent |
| SessionParts.AskingIsSaid | src/client/server_session.cpp:16-46 | A session asked for is asked for, once, and is the one watched |
| SessionParts.ReportReachesTheServer | src/client/server_session.cpp:85-101 | An arrangement reported during an attachment is the one the server goes by afterwards, sent exactly if it did not already; else nothing is sent |
| SessionParts.LayoutIsPassedOn | src/client/server_session.cpp:297-326 | An arrangement heard of the session watched is passed on with its terminals in order; of any other nothing is |
| SessionParts.OpeningIsShown | src/client/server_session.cpp:375-383 | A terminal opened is held, and announced exactly if it was not |
| SessionParts.CloseIsTold | src/client/server_session.cpp:384-402 | A terminal closed and not held open is held no longer, and that is said exactly if it was |
| SessionParts.StrayChangeAsks | src/client/server_session.cpp:363-374 | A change of a terminal not held leaves a heal outstanding, asked for exactly if none was |
| SessionParts.HealingIsAsked | src/client/server_session.cpp:551-559 | So does a look for mirrors that have lost track, if there is one |
| SessionParts.RestIsRecorded | src/client/server_session.cpp:164-196 | A detach, windows forgotten and a lost connection are each recorded once, and nothing else is said of anything else |
| SessionParts.AttachmentSettles | src/client/server_session.cpp:213-296 | After an attachment the session holds and shows exactly the snapshot's terminals, watches the session granted, waits for no heal, and has stated their arrangement last |
| SessionParts.EachAdds | src/client/server_session.cpp:12-577 | Over any run, what each input adds to the record is what these say of it |
| CopySearch.ColumnsAreWhereBytesLie | src/client/copy_mode.cpp:43-69 | Each byte of a line's text is mapped to the column whose bytes it lies among, in climbing order |
| CopySearch.Searchable | src/client/copy_mode.cpp:51-69 | The text built, cased and with its padding cut, and the columns of exactly its bytes |
| CopySearch.MatchIn | src/client/copy_mode.cpp:71-92 | The first match of a stretch of columns forwards, the last backwards, and nothing only if there is none |
| CopySearch.SearchLine | src/client/copy_mode.cpp:51-92 | The same for a line as it stands |
| CopySearch.MatchLiesInLine | src/client/copy_mode.cpp:71-92 | A match starts at a column of its line |
| CopySearch.MatchesExactly | src/client/copy_mode.cpp:31-92 | What a match is, in the line itself: a column in which a byte lies from which on the line reads as the query and something not blank ends it or follows; in either case of letters if the query has no capital, and only as it stands if it has one |
| CopySearch.TrimEndExactly | src/client/copy_mode.cpp:18-29 | The text without its padding ends in its last byte that is not blank |
| CopySearch.FlatAt | src/client/copy_mode.cpp:51-69 | The bytes of a column stand in the text where the columns before it end |
| CopySearch.StartIsNearest | src/client/copy_mode.cpp:167-186 | A search starts where it is given if that is in the document, and else at the nearest row and in it at the nearest column |
| CopySearch.FindMatch | src/client/copy_mode.cpp:167-209 | The cyclic successor of a position among all matches, or its predecessor backwards; nothing only if nothing matches |
| CopyLaps.OneNext | src/client/copy_mode.cpp:167-209 | There is one successor and one predecessor at most |
| CopyLaps.PreviousUndoesNext | src/client/copy_mode.cpp:167-209 | Between matches each direction undoes the other |
| CopyLaps.HitsAreTheMatches | src/client/copy_mode.cpp:167-209 | The matches of a document, listed in order, each once |
| CopyLaps.NextInList | src/client/copy_mode.cpp:167-209 | The next match is the next of that list, the first after the last |
| CopyLaps.OneLap | src/client/copy_mode.cpp:167-209 | Repeating a search visits every match exactly once and is then back where it began |
| CopyMode.ReadLine | src/client/copy_mode.cpp:18-29 | The cells of a stretch of a line, its blanks at the end cut |
| CopyMode.SelectedText | src/client/copy_mode.cpp:133-159 | The loop over rows gives the text the laws are about |
| CopyMode.MarkedIsCopied | src/client/copy_mode.cpp:133-159 | In each row, the cells highlighted are the cells copied |
| CopyMode.CopiesWhatIsMarked | src/client/copy_mode.cpp:292-313 | With corners in the document, what is copied is what is highlighted, row by row |
| CopyMode.CopiesExactlyWhatIsMarked | src/client/copy_mode.cpp:133-159 | The two texts are equal if and only if there is nothing selected, no document, some of the selection in it, or only blanks in the line that would be copied instead |
| CopyMode.SameRows | src/client/copy_mode.cpp:292-313 | A selection reaches the same rows drawn and copied exactly if some of it is in the document |
| CopyMode.CopiesMoreThanIsMarked | src/client/copy_mode.cpp:133-159 | Corners past the end highlight nothing and copy the last line |
| CopyMode.CornersMayBeSwapped | src/client/copy_mode.cpp:96-99 | Which corner is the anchor makes no difference to text or highlight |
| CopyView.CopyModeView.constructor | src/client/copy_mode.cpp:211-224 | The view starts on a line of the history, on screen, with nothing selected |
| CopyView.CopyModeView.ScrollIntoView | src/client/copy_mode.cpp:234-241 | The cursor's row is on screen afterwards, and nothing scrolls if it was already |
| CopyView.CopyModeView.Resized | src/client/copy_mode.cpp:226-232 | A new height keeps the cursor on screen and moves nothing else |
| CopyView.CopyModeView.MoveCursor | src/client/copy_mode.cpp:243-248 | The cursor moves by that much, clamped to the document and to the line it lands on |
| CopyView.CopyModeView.BeginSelection | src/client/copy_mode.cpp:250-261 | The same key takes a selection back; another starts one at the cursor |
| CopyView.CopyModeView.Search | src/client/copy_mode.cpp:328-339 | The cursor goes to the next match or the previous; a search that fails moves nothing and there is no match |
| CopyView.CopyModeView.SearchThereAndBack | src/client/copy_mode.cpp:328-339 | From a match, a search and one the other way come back to it |
| CopyView.CopyModeView.OnPromptKey | src/client/copy_mode.cpp:341-373 | While a query is typed every key is the prompt's, and what it leaves in it is stated; Enter goes to the next or previous match of what was typed, or there is none and nothing moves |
| CopyView.CopyModeView.Perform | src/client/copy_mode.cpp:374-425 | Each command's effect on cursor, selection, prompt and clipboard; a repeated search goes to the next or previous match, or there is none and nothing moves |
| CopyView.CopyModeView.OnKey | src/client/copy_mode.cpp:341-425 | Every key but a release is taken; what a key does, prompt or not, to cursor, selection, prompt, direction and clipboard, the searches of Enter, n and N included |
| CopyView.CopyModeView.YankAndExit | src/client/copy_mode.cpp:427-445 | What is highlighted goes to the clipboard once, and copy mode is over |
| CopyView.BetweenLines | docs/keys.md:70-84 | Up, Down, PageUp and PageDown lead to the line they name, or the first or last, in the nearest column a cursor may stand in |
| CopyView.WithinTheLine | docs/keys.md:70-84 | Left, Right, Home and End lead to the neighbouring column, the first and the last, within the line |
| CopyView.WhereTheEndsAre | docs/keys.md:70-84 | `g` and `G` lead to the first line and the last |
| CopyView.LetterAsks | docs/keys.md:70-84 | `h`, `j`, `k`, `l`, `0` and `$` do what the arrows, Home and End do, `y` and `q` what Enter and Escape do; the letters with a meaning of their own; and no other letter does anything |
| CopyView.ControlAsks | docs/keys.md:70-84 | `^B` and `^F` do what PageUp and PageDown do and `^V` selects a rectangle; nothing else with Ctrl does anything |
| CopyView.OthersAskNothing | src/client/copy_mode.cpp:389-424 | No other key, and no text of more than one byte, does anything |
| LayerCheck.OrderedHasNoCycle | tools/check_layers.py:154-183 | A graph whose files can be put in order has no cycle |
| LayerCheck.FindCycles | tools/check_layers.py:154-183 | The search ends on every graph and finds what the recursive one finds. Each cycle reported is one, passes no file twice and is closed by its own include; an include closes a reported cycle if and only if its file is not behind what it includes in the finish order; every cycle of the graph passes an include that closes a reported one; some is reported exactly if there is one; and with none the finish order is an order of the graph |
| LayerCheck.Search | tools/check_layers.py:154-183 | The loop over the files, in their order, gives what trying each in turn gives, and finishes every file |
| LayerCheck.CyclesPass | tools/check_layers.py:154-183 | In a graph ordered but for some includes, every cycle passes one of those |
| LayerCheck.ReportedExactly | tools/check_layers.py:165-172 | At the end an include has closed a reported cycle if and only if it does not lead back in the finish order |
| LayerCheck.CycleIsMet | tools/check_layers.py:154-183 | So every cycle of the graph runs over an include that closes a reported one |
| LayerCheck.TriedGrows | tools/check_layers.py:157-159 | No file tried later takes back a report or changes the order so far |
| LayerCheck.Passing | tools/check_layers.py:165-167 | A target outside the graph or finished is passed over, and changes nothing that will be found |
| LayerCheck.Starting | tools/check_layers.py:157-162 | A file not searched yet may be started on |
| LayerCheck.SearchFrom | tools/check_layers.py:159-183 | The loop from one file leaves what the recursive visit of it leaves: its reports, its finish order and its colours |
| LayerCheck.LookOn | tools/check_layers.py:165-179 | The stored iterator is carried on to a file not searched yet, reporting every gray one on the way, or to its end, and what the whole search will find stays the same |
| LayerCheck.CycleFrom | tools/check_layers.py:169-172 | A cycle is cut from the path at its first occurrence of the target and closed by it |
| LayerCheck.Reporting | tools/check_layers.py:168-172 | A gray target closes a simple cycle of the graph, and reporting it is what the search does next |
| LayerCheck.Advancing | tools/check_layers.py:173-178 | A white target may be pushed: what the search will find is what it finds after visiting it |
| LayerCheck.Finishing | tools/check_layers.py:179-183 | A file whose includes are all looked at may be finished, behind all it includes but by includes that closed a cycle |
| Printer.EndOfString | src/client/printer_output.cpp:19-29 | The end found for a string sequence is where the automaton leaves it, terminated or cut off |
| Printer.EndOfControl | src/client/printer_output.cpp:31-56 | The end found for a control sequence is where the automaton leaves it |
| Printer.PrintJobAsText | src/client/printer_output.cpp:31-87 | The index-jumping scanner equals the byte-fed automaton on every job |
| Printer.OutputJoins | src/client/printer_output.cpp:31-87 | A job in two parts is read as its parts, from whatever state the first leaves |
| Printer.GroundSplits | src/client/printer_output.cpp:31-87 | Cut where no sequence is under way, the texts concatenate |
| Printer.OutputIsClean | src/client/printer_output.cpp:31-87 | No control byte but newline and tab ever comes out |
| Printer.OwnText | src/client/printer_output.cpp:31-87 | A job is its own text exactly if it holds no control byte but these |
| Printer.TextOfText | src/client/printer_output.cpp:31-87 | Cleaning twice is cleaning once |
| Printer.ControlSequenceGoes | src/client/printer_output.cpp:31-56 | A control sequence (ECMA-48, section 5.4) goes whole, whatever stands in it before its final byte, which is the first from 4/0 to 7/14, and nothing around it |
| Printer.StringGoes | src/client/printer_output.cpp:19-60 | A control string (ECMA-48, section 5.6: DCS, SOS, OSC, PM or APC) goes whole to its ST, an operating system command to BEL as well, whatever its content as long as that does not itself end the string |
| Printer.ReadsAsItsItems | src/client/printer_output.cpp:31-87 | A job written part by part, as characters, page breaks, other controls, escapes, control sequences and control strings, and cut off anywhere, reads as the characters with a line break for each page break, and nothing else |
| Printer.EveryJobHasItems | src/client/printer_output.cpp:31-87 | And every job is one so written |
| Keymap.DefaultsAreApart | src/client/commands.cpp:42-134 | No two rows of the default table share a command or a chord |
| Keymap.ReachIs | src/client/commands.cpp:263-268 | A chord reaches the row that has it |
| Keymap.ReachIsInjective | src/client/commands.cpp:206-248 | No two chords reach one action |
| Keymap.AfterOneKeepsTheTable | src/client/commands.cpp:206-248 | No directive adds, loses or reorders a row, or makes two rows share a chord |
| Keymap.BindReaches | src/client/commands.cpp:206-248 | A bind takes away whatever had the chord and whatever reached the action, and adds the pair; an unbind takes the chord away |
| Keymap.DirectivesMean | src/client/commands.cpp:206-248 | For every list of directives the table's keys are the partial injection the directives mean, each in turn |
| Keymap.DirectiveMeans | src/client/commands.cpp:206-248 | What one directive does to the keys: of another context or of a digit, nothing; a bind of a command makes the chord reach it and no other chord; an unbind takes the chord away; and every other chord reaches what it did |
| Keymap.LastBindWins | docs/configuration.md:105-107 | Of any list of directives, the last to bind a chord or its command has it |
| Keymap.UnboundStays | docs/configuration.md:105-107 | A chord unbound reaches nothing until it is bound again |
| Keymap.UntouchedStays | src/client/commands.cpp:206-248 | A chord no directive touches, and whose command none binds elsewhere, reaches what it did |
| Keymap.RefusedAreNamed | src/client/commands.cpp:206-248 | Each directive that is refused is named once, in order and with why, and no other is |
| Keymap.DefaultKeysAreDocumented | docs/keys.md:22-64 | The letters that reach a command in the table a program starts with, and the commands they reach, are those the documentation lists; nothing else but the digits is a chord |
| Keymap.KeymapTable.constructor | src/client/commands.cpp:193-198 | The table starts as the default one |
| Keymap.KeymapTable.RowFor | src/client/commands.cpp:200-204 | The first row of an action, or none |
| Keymap.KeymapTable.Apply | src/client/commands.cpp:206-248 | The loop over directives has that meaning, and says each problem once |
| Keymap.KeymapTable.ApplyOne | src/client/commands.cpp:206-248 | One directive in place, refused ones changing nothing |
| Keymap.KeymapTable.SetDefaultChord | src/client/commands.cpp:250-261 | A chord known at startup is taken from any row that has it and becomes the action's current and usual one |
| Keymap.KeymapTable.Find | src/client/commands.cpp:263-268 | The one row a chord reaches, and none for a digit |
| Tiling.RoundRatio | src/client/client_app.cpp:101-103 | Rounding a quotient is the nearest whole number, halves upwards |
| Tiling.ExactEdges | src/client/client_app.cpp:3062-3076 | A share not carried over the wire gives its own edges back on any extent |
| Tiling.EdgesComeBackExactly | src/client/run_client.cpp:57-69 | Carried in ten-thousandths and laid down on an extent of the same size, a tile has the same edges if and only if what rounding left over, at its start and over the whole of it, is within half a cell: for every tile and every extent |
| Tiling.EdgesComeBack | src/client/run_client.cpp:57-69 | So every tile comes back on every extent up to 5000 cells |
| Tiling.EdgesComeBackOnDivisors | src/client/run_client.cpp:57-69 | And on every extent that divides 10000, itself among them |
| Tiling.EdgesMayMoveAbove | src/client/run_client.cpp:57-69 | At 5001 cells there is a tile that comes back a cell wider |
| Tiling.SomeShare | src/client/run_client.cpp:64-69 | A tile is carried as one exactly if its size is worth at least half a ten-thousandth, which any is up to 20000 cells |
| Tiling.EdgesKeepOrder | src/client/client_app.cpp:94-103 | Boundaries keep their order on any extent, so equal ones fall on one cell and no tile ends before it starts |
| Tiling.SharedEdgesStayTogether | src/client/client_app.cpp:94-103 | Tiles that met when reported have edges on one cell or on neighbours on any extent up to 10000 |
| Tiling.SharesMayExceedTheWhole | src/common/proto.hpp:306-332 | On every extent a tile's start and share come to at most one ten-thousandth over the whole, and exactly when it ends at the far edge and both were halves rounded up |
| LayoutReport.OnlySettledIsSent | src/client/client_app.cpp:3043-3060 | Only an arrangement that two samples in a row agree on is reported |
| LayoutReport.ReportsDiffer | src/client/client_app.cpp:3043-3060 | Two reports in a row differ |
| LayoutReport.HeldIsReported | src/client/client_app.cpp:3043-3060 | An arrangement held for two ticks is the last reported |
| LayoutReport.LastSent | src/client/client_app.cpp:3043-3060 | What is noted as reported was sent, and nothing has been since |
| LayoutReport.Reporter.ReportIfSettled | src/client/client_app.cpp:3043-3060 | One turn of the timer, in place: reports what the run of samples says |
| LayoutReport.Reporter.ForgetTerminals | src/client/client_app.cpp:1582-1618 | With the windows gone, the reporter starts over |
| LayoutRun.LastMessageIsLastSettled | src/client/run_client.cpp:600-635 | From the timer to the wire: during one attachment, for every run of the timer, the last message sent is the last settled arrangement there is anything to say of |
| Restore.FloatingComesInside | src/client/client_app.cpp:3078-3121 | A floating window no larger than the desktop ends up inside it at its own size; one that may shrink ends up inside whatever its size, as large as it was or as fits; and no other changes its size |
| Restore.StaysExactlyIfInside | src/client/client_app.cpp:3078-3121 | A window stays where it was exactly if it is inside already, or at the corner on an axis it is too large for |
| Restore.MovesTheLeast | src/client/client_app.cpp:3078-3121 | No place inside the desktop is nearer to where it was |
| Restore.TooLargeStandsAtTheCorner | src/client/client_app.cpp:3078-3121 | On an axis it is too large for, a floating window stands at the corner |
| Restore.TileHasItsShare | src/client/client_app.cpp:3078-3090 | On a desktop of any size a tile begins and ends at the cells nearest to where its share does, and has a cell at least |
| Restore.RestoringTwice | src/client/client_app.cpp:3078-3121 | Laying down what was laid down changes nothing |
| Restore.CarriedWindowComesBackExactly | src/common/proto.cpp:1182-1190 | A floating window inside the desktop, its rectangle carried in sixteen bits, is where it was exactly if its size has those bits and its place has, or is at an edge that what it became lies beyond |
| Restore.CarriedTileComesBackExactly | src/client/client_app.cpp:3062-3121 | A tile reported, carried and laid down on a desktop of the same size is where it was exactly if it comes back on both axes or, too thin to be carried as a tile at all, as a window does; a tile of one cell that came back as none is given its cell |
| Restore.SmallTilesAreKept | src/client/client_app.cpp:3062-3076 | That condition holds of every tile on a desktop of up to 5000 cells each way |
| Restore.CarriedTileComesBack | src/client/client_app.cpp:3062-3076 | So there every tile comes back |
| Restore.NearWindowsAreKept | src/common/proto.cpp:1182-1190 | And every floating window does whose desktop lies in the sixteen bits |
| Desktop.LowestFirstSorts | src/client/client_app.cpp:3123-3145 | Placements are laid down lowest first, each once |
| Desktop.LowestFirstIsStable | src/client/client_app.cpp:3123-3145 | Those that share a height stay in the order they came |
| Desktop.SortedStays | src/client/client_app.cpp:3123-3145 | An arrangement already in order is left as it is |
| Desktop.PlacedOneKeeps | src/client/client_app.cpp:3146-3190 | A placement moves no other terminal's window and no settled one, and settles its own |
| Desktop.SettledStay | src/client/client_app.cpp:3123-3190 | A terminal once placed is not moved again by anything laid down |
| Desktop.EachIsPlaced | src/client/client_app.cpp:3146-3190 | Whatever is laid down, in whatever state the desktop was: the first placement that names a terminal places its window, unless that had been placed before; nothing else touches it; and a terminal is settled afterwards exactly if it was or has been named |
| Desktop.ArrangedIs | src/client/client_app.cpp:3164-3179 | A window placed is zoomed to the desktop over the place it had, or not zoomed and where the arrangement has it |
| Desktop.StackIsOrdered | src/client/client_app.cpp:3180-3190 | Raised windows stand over the others in the order of their placements, and the others as they stood; with something modal in front all stand as they stood |
| Desktop.CaptureThenRestore | src/client/client_app.cpp:3007-3041 | An arrangement captured and laid back down on a desktop of the same size has every window in its place, zoomed or not and however it stood before, the stack in its order, and every window settled; of as many windows as two bytes can order |
| Desktop.CarriedPutsBack | src/client/client_app.cpp:3146-3190 | A placement that has been to the server and back, its rectangle in sixteen bits and its share in ten-thousandths, puts its window back if and only if some of its size is left and it is zoomed to the desktop, or its tile or rectangle is one that comes back |
| Desktop.CaptureCarryRestore | src/client/client_app.cpp:3123-3190 | So an arrangement that has been there comes back as CaptureThenRestore says, if each of its windows is such a one |
| Desktop.BackForGood | src/client/client_app.cpp:3123-3190 | And nothing laid down later moves any of it until the windows are forgotten |
| Desktop.ClientDesktop.CaptureLayout | src/client/client_app.cpp:3007-3041 | The windows from the bottom up, with their shares |
| Desktop.ClientDesktop.ApplyLayout | src/client/client_app.cpp:3123-3190 | The loop over sorted placements does what the laws are about, and leaves settled windows alone |
| Desktop.ClientDesktop.ForgetTerminals | src/client/client_app.cpp:1582-1618 | The windows go, and with them the memory of which had been placed |

## Left out

- The grid is held as rows rather than one flat vector of cells; where a flat grid crosses the wire it is flattened (`Mirror.UnflattenOfFlatten`).
- Chord, clipboard and action spellings and the other enumerations of the configuration are a parameter of `ConfigLoad` (its `Vocabulary`): each is a table lookup. The wording of warnings is left out; which line has which problem is not.
- File access, atomic replacement and permissions around `save_setting` and `load_settings`: the text that is read is a parameter, the text written a result.
- Mirror fields with no history of their own: printer state, clipboard watermark, bell, diagnostics, and the scene ids of pictures, which are handed out by code that is not part of this model.
- `SnapshotCures` and the run of `MirrorRun` state the screen; a mirror's history is stated by `GridDiff.Diff` and `Grid.PushKeepsNewest` and is not compared over lossy runs, since the server itself drops lines from deltas under load.
- In `DiffEngine`: a terminal is its screen, its history and its report of changes, of which the program's emulator keeps that they are of a size from one to a thousand cells each way, with the cursor in it and the history's lines of its width, and that what the report says nothing of has not changed since the terminal was last read. Cutting titles, the pictures, printer, clipboard and diagnostics of a snapshot and filling in its history up to a budget are left out.
- Several clients watching one terminal share a differ; `TerminalRun` follows one of them.
- In `Session`: what a callback does when it calls back into the session, a session without a connection, statistics watching, reader mode, the session desktop's extent and client resizes, pixel sizes, and messages that are only passed on (errors, lists, statistics, clipboard, printer state, diagnostics), which are one `Aside` here.
- The order in which terminals of a map are closed or announced is any order here; the program's is by id.
- LayoutRun.LastMessageIsLastSettled: which terminals the session knows is fixed during the run, because what drops out of a report when a terminal goes at that moment is a matter of timing between two clocks.
- Tiling.EdgesComeBack: numbers are exact rationals where the program has doubles, because the rounding that matters here is the one to ten-thousandths and to cells.
- Desktop.CaptureThenRestore: what raising, zooming and setting bounds do is assumed of the window library as its callers rely on it, because the library is not part of this model; dialogs, windows without a terminal and focus are left out.
- GridDiff.Diff: damage hints are required to be honest, because a row that changed and is hinted as unchanged is not looked at by the program either.
- SessionRun.SessionShowsAServerScreen: what the title is once one was stated apart from the stream is not compared, because a lost delta may have carried another; a lost connection, the terminal closed for good, or a snapshot without it or past the bound ends the stretch it speaks of, because the mirror is gone or asks.
- `compose_history`, painting, status lines and bracketed pastes of copy mode, and characters of more than one byte beyond their bytes.
- The include checker's file reading and layer rules; the order of `sorted(graph)` is a parameter of `LayerCheck.FindCycles`.
- Names, formats and button states of print jobs; titles, contexts and footer order of the keymap.
- Sockets, poll loops, process start, dialogs, menus and themes.
