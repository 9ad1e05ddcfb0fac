# vex, a terminal hex editor, in Dafny

This project models the editing core of `vex.c`, a small terminal hex editor.
The editor loads a file into a byte buffer and shows one page of it as rows of
hexadecimal cells. In Normal mode the keys move the cursor and the page. In
Insert mode two hexadecimal digits typed in a row replace the byte under the
cursor. `:` opens a one-line command line. On it, a hexadecimal address jumps
the cursor, `w` writes the page on screen back to the file, `q` quits unless
the session was changed and never saved (one `w` disarms the warning for the
rest of the session), `q!` quits anyway, and `wq` writes and quits.

The model has two layers.

- **The state machine as values** (modules `EditState` and `LineEditor`).
  - A `State` datatype holds the program's globals, the buffer, the file on
    disk, and the two locals of the main loop that survive from one key to
    the next: the pending nibble and the redraw level.
  - `KeyNext` gives one iteration of the main loop for a decoded key.
  - `NibbleNext` gives the two-digit byte entry.
  - `SaveNext` gives a write of the page.
  - `Dispatch` gives the command dispatch.
  - `LineEdit` gives one read of the command-line editor.
  - The lemmas in `EditProps` and `LineEditor` state what the editor promises
    about these functions.
- **The program as it runs** (modules `Vex` and `CommandBuffer`).
  - Class `Editor` has the globals as fields and the loaded file in a byte
    array. It updates them key by key in place.
  - Class `CommandLine` holds a zero-filled 256-character buffer. It edits
    that buffer in place with `memmove`- and `strncpy`-style loops.
  - Every method is proved to produce exactly the state the corresponding
    function describes.

The other modules:

- `CRuntime` writes out the C behaviour the editor depends on:
  - truncating `/` and `%`;
  - conversion of a `long` to a 32-bit `int`;
  - `strtol` in base 16;
  - `strlen`;
  - the printable-character filter of the ASCII column.
- `Layout` holds the screen geometry macros.
- `Scenarios` drives whole sessions through the two classes.

Inputs the editor reads from the operating system are parameters:

- the file's bytes, and spare capacity after them;
- the terminal's width and height;
- the decoded key events and the raw command-line reads.

After a byte is committed, `cursor_x++` runs with no wrap or clamp, so the
column can pass BUF_WIDTH (`EditProps.CommitPastLastColumn`).

## Model

| member | source | states |
|---|---|---|
| `CRuntime.CDiv` | vex.c:149 | C integer division by a positive divisor truncates toward zero, so the remainder has the sign of the dividend |
| `CRuntime.CMod` | vex.c:148 | C `%` by a positive divisor: `a == CDiv(a, b) * b + r`, and r lies strictly between -b and b with the sign of a |
| `CRuntime.ToInt32` | vex.c:147 | the `long` that strtol returns, stored into the `int` cursor_i, wraps modulo 2^32 into [INT_MIN, INT_MAX], and is unchanged when it already fits |
| `CRuntime.HexDigitValue` | vex.c:306-313 | strtol of one hex digit gives 0-9 for '0'-'9' and 10-15 for 'a'-'f' and 'A'-'F' |
| `CRuntime.HexValue` | vex.c:147 | the number a run of hex digits denotes is below 16^length and has the last digit as its low nibble |
| `CRuntime.DigitsAfterPrefix` | vex.c:147 | what strtol reads after its prefix rule is either the whole command or two characters shorter, after a leading 0x or 0X, and a command starting with a hex digit always leaves a digit to read |
| `CRuntime.PrefixSkipped` | vex.c:147 | strtol in base 16 skips a leading 0x or 0X exactly when a hex digit follows it, and then reads from the third character; otherwise it reads the whole command |
| `CRuntime.HexPrefixValue` | vex.c:147 | the value strtol reads is below 16 to the power of the length of the digit run, and 0 when there is no digit |
| `CRuntime.HexPrefixOfDigits` | vex.c:147 | a run of hex digits followed by a non-digit or the end is read whole: its length is the digit scan, and its value is the number those digits denote |
| `CRuntime.HexRun` | vex.c:147 | strtol's digit scan is the longest run of hex digits at the front: all digits, and followed by a non-digit or the end |
| `CRuntime.Strtol16` | vex.c:147 | strtol(cmd, NULL, 16) of a command starting with a hex digit is the value of the longest hex prefix, after a 0x/0X only when a digit follows it, and saturates at LONG_MAX |
| `CRuntime.StrLen` | vex.c:187 | strlen: the index of the first NUL, with no NUL before it |
| `CRuntime.Printable` | vex.c:20 | REMOVE_TERMINATORS: a byte in ' '..'~' is shown as itself and any other byte as a space |
| `Layout.BufWidth` | vex.c:15 | BUF_WIDTH = (WIDTH-7)/4 is at least one exactly for terminals at least 11 columns wide, and for terminals at least 7 columns wide 4*BUF_WIDTH+7 does not exceed the width and comes within 4 columns of it |
| `Layout.BufHeight` | vex.c:16 | BUF_HEIGHT is exactly the terminal height HEIGHT, with no row held back |
| `Layout.PageBytes` | vex.c:18 | a page is BUF_WIDTH * BUF_HEIGHT bytes; on a usable terminal that is at least one byte per row, and the hex and ASCII cells of every row fit in the screen |
| `Layout.MaxRead` | vex.c:18 | MAXREAD is the smaller of a full page and the bytes of the file from the top of the page on |
| `EditState.Initial` | vex.c:40-49 | the start state: the buffer holds the file's bytes followed by spare room, the disk holds the file, filesize is its length and bufsize is MAXREAD at viewport 0 |
| `EditState.WriteSize` | vex.c:121-122 | a save writes a full page, or bufsize bytes when that is smaller |
| `EditState.KeyNext` | vex.c:226-384 | one iteration of the main loop never touches the file on disk or the written flag, and keeps the buffer's length |
| `EditState.NibbleNext` | vex.c:306-334 | a digit in Insert mode changes only the byte under the cursor, sets changed, keeps the mode, row and viewport, and toggles the pending nibble |
| `EditState.SaveOffset` | vex.c:124 | a save seeks to viewport * BUF_WIDTH, the start of the page, which is cursor_i bytes before the byte under the cursor and never negative on a usable terminal |
| `EditState.SavedPage` | vex.c:120-125 | the bytes a save writes are the WriteSize bytes from the start of the page |
| `EditState.Overwrite` | vex.c:124-125 | fseek then fwrite replaces exactly the written range, keeps every other byte, grows the file when the write ends past it and zero-fills a gap before the offset; a write of zero bytes leaves the file as it is |
| `EditState.SaveNext` | vex.c:120-129 | a save changes only the file on disk and the two flags, clearing changed and setting written; it never shortens the file, and leaves it unchanged when it writes nothing |
| `EditState.Dispatch` | vex.c:143-173 | a command never touches the buffer, the viewport, bufsize or filesize; it is a goto exactly when it starts with a hex digit; only `w` touches the disk; and quit, refused quit and unknown commands leave the state unchanged |
| `EditProps.KeyKeepsInv` | vex.c:226-384 | every key keeps the invariant: viewport >= 0, 0 <= bufsize <= filesize, and a pending nibble only in Insert mode |
| `EditProps.InitialInv` | vex.c:217-222 | the main loop starts in a state satisfying the invariant |
| `EditProps.FirstDigit` | vex.c:312-313 | the first digit of a pair replaces the byte under the cursor with its value and leaves the cursor and viewport alone, with a pending nibble and a character redraw |
| `EditProps.DigitPair` | vex.c:309-332 | two digits in a row store (first << 4) \| second under the cursor and change no other byte; the nibble is cleared, the redraw level drops to none and cursor_i and cursor_x advance by exactly one |
| `EditProps.NibbleByte` | vex.c:321-322 | shifting the first digit left by four and or-ing in the second gives the byte whose value is 16 * first + second |
| `EditProps.Growth` | vex.c:314-319 | bufsize grows by one exactly when a first digit is typed at or past it, and filesize grows by one exactly when in addition bufsize had reached it; otherwise both stay |
| `EditProps.DigitInNormalMode` | vex.c:306-309 | in Normal mode a hex digit changes nothing, not even the redraw level left by the previous key |
| `EditProps.PendingNibbleSurvivesLetters` | vex.c:347-380 | h, j, k and l do not clear a pending nibble, so the next digit completes the byte under the moved cursor |
| `EditProps.EscapeDropsNibble` | vex.c:227-229 | every escape-prefixed read, the arrows included, drops a pending nibble, unlike h, j, k and l |
| `EditProps.UnhandledKey` | vex.c:381-383 | a character no case handles changes nothing but the redraw level, which drops to none; cursor, viewport, mode and a pending nibble are kept |
| `EditProps.UnhandledEscape` | vex.c:227-229 | an unrecognised escape sequence or mouse report drops the pending nibble and the redraw level and keeps everything else |
| `EditProps.CommitPastLastColumn` | vex.c:326-332 | committing a byte in the last column moves cursor_x to BUF_WIDTH + 1, with no wrap or clamp |
| `EditProps.InsertKey` | vex.c:336-340 | `i` enters Insert mode and changes nothing else but the redraw level |
| `EditProps.EscapeKey` | vex.c:227-236 | a bare Escape returns to Normal mode and clears the pending nibble, leaving the buffer, cursor and viewport untouched |
| `EditProps.ColonKey` | vex.c:341-346 | `:` opens the command line if and only if the mode is Normal, and otherwise only resets the redraw level |
| `EditProps.OnlyColonOpensCommandLine` | vex.c:341-346 | no key other than `:` in Normal mode opens the command line |
| `EditProps.OnlyDigitsEdit` | vex.c:226-384 | only hex digits typed in Insert mode change the buffer, bufsize or filesize, or set changed, and no key of the main loop touches the disk or the written flag |
| `EditProps.LeftRight` | vex.c:261-270 | the arrows move cursor_x and cursor_i together by one, keep cursor_x in [1, BUF_WIDTH]; Left moves exactly when the column and index are above their minimum, Right exactly when the column is below BUF_WIDTH and the index below bufsize; nothing else changes except that the pending nibble is dropped |
| `EditProps.UpDown` | vex.c:240-260 | Down is refused when cursor_i + BUF_WIDTH >= bufsize; within the page Up and Down move one row and BUF_WIDTH bytes; at the top row Up scrolls by one with a full redraw exactly when viewport > 0 and otherwise changes nothing; at the last row Down scrolls by one exactly when viewport * BUF_WIDTH <= filesize and otherwise changes nothing; the viewport never goes below zero; cursor_x, the mode, the buffer and everything else stay, and the pending nibble is dropped |
| `EditProps.PagingNeverNegative` | vex.c:272-303 | PageUp, PageDown and the scroll wheel change only the viewport, with a full redraw when they do, and never make it negative; PageDown moves by BUF_HEIGHT/2 exactly when viewport * BUF_WIDTH < filesize, PageUp by BUF_HEIGHT/2 and ScrollUp by 5 exactly when that many rows are above, and ScrollDown by 5 always |
| `EditProps.LettersLackChecks` | vex.c:347-380 | h moves left whenever the column allows it, even at index 0; l moves right past bufsize; j on the last row scrolls with no end-of-data check |
| `EditProps.NavigationKeepsOnPage` | vex.c:227-380 | the arrow, paging, wheel, Escape, i and hjkl keys keep row, column and index in range and agreeing, so the index never goes negative |
| `EditProps.MouseKey` | vex.c:287-291 | a mouse press sets cursor_x, cursor_y and cursor_i from the reported cell and clears the pending nibble, and changes nothing else |
| `EditProps.MousePressOffByOneRow` | vex.c:287-291 | a click's byte index is one row and one byte past the row and column it sets, because the row is stored 1-based but multiplied as if 0-based |
| `EditProps.SaveRegion` | vex.c:120-129 | a save replaces exactly WriteSize bytes at viewport * BUF_WIDTH with the page's bytes, keeps every other file byte, grows the file only when it writes past its end, leaves it unchanged when WriteSize is 0, and sets changed = 0 and written = 1 |
| `EditProps.EmptyWriteKeepsFile` | vex.c:120-125 | with bufsize 0, as for an empty file, `:w` writes nothing and leaves the file on disk exactly as it was, whatever the viewport |
| `EditProps.OverwriteTwice` | vex.c:124-125 | writing the same bytes at the same offset twice gives the same file as writing them once |
| `EditProps.SaveWholeFile` | vex.c:120-125 | a file that fits on one page, saved from the first page, is replaced on disk by the loaded bytes |
| `EditProps.SaveIdempotent` | vex.c:120-129 | saving twice in a row with no edit between gives the same state, file included, as saving once |
| `EditProps.QuitGuard` | vex.c:153-161 | `q` is refused, with no state change, if and only if it is not followed by `!` and there are changes while nothing was ever written; otherwise it quits |
| `EditProps.ForcedQuit` | vex.c:153-161 | `q!` always quits and changes nothing |
| `EditProps.WriteCommand` | vex.c:163-168 | `w` saves the page and quits as well if and only if the next character is `q` |
| `EditProps.WrittenIsSticky` | vex.c:127-128 | written is never cleared by any key or command, so once the page was saved `q` quits even after later edits |
| `EditProps.EditArmsQuitGuard` | vex.c:333 | before any save, one typed digit in Insert mode makes the following `q` refuse |
| `EditProps.CleanQuit` | vex.c:153-161 | with no change made, `q` quits whatever follows it |
| `EditProps.GotoAddress` | vex.c:143-150 | a leading hex digit sets cursor_i to the parsed address, derives cursor_y from the quotient and cursor_x as three times the remainder plus one, and leaves the viewport and everything else unchanged |
| `EditProps.GotoColumnIsScaled` | vex.c:148 | on a 16-byte-wide page `:1` puts the cursor on column 4 with index 1, off the row/column/index agreement |
| `EditProps.UnknownCommand` | vex.c:169-172 | anything not starting with a hex digit, `q` or `w`, the empty command included, is unknown and changes nothing |
| `EditProps.DispatchKeepsInv` | vex.c:143-173 | every submitted command keeps the invariant |
| `LineEditor.LineEdit` | vex.c:139-213 | a read submits exactly when it starts with a newline, then with the text unchanged; it cancels exactly when it is a bare Escape; an escape sequence keeps the text; any other read changes the length by -1, 0 or the read's length |
| `LineEditor.LineEditKeepsEditing` | vex.c:174-213 | every read that does not end the command line leaves a NUL-free text shorter than 256 with the insertion point inside it |
| `LineEditor.Arrows` | vex.c:179-200 | Right and Left move the insertion point by one within [0, strlen], and Up and Down change nothing |
| `LineEditor.Backspace` | vex.c:201-205 | DEL with cur > 0 removes exactly the character left of cur, keeps the others in order, and decrements cur |
| `LineEditor.TypedText` | vex.c:206-213 | a read of typed text goes in at cur as a whole, but cur advances by one only |
| `LineEditor.DelAtStartIsInserted` | vex.c:201-213 | DEL at the start of the line is not a backspace and goes in as a character |
| `LineEditor.TypeThenBackspace` | vex.c:201-213 | typing one character and then DEL restores the text and the insertion point |
| `LineEditor.EndsOfLine` | vex.c:140-178 | a bare Escape cancels and a newline submits the text as it stands |
| `CommandBuffer.MemMove` | vex.c:203 | memmove: the n characters at src end up at dst even when the ranges overlap, and nothing else changes |
| `CommandBuffer.CopyIn` | vex.c:209 | strncpy of a NUL-free text copies exactly its characters and pads nothing |
| `CommandBuffer.ShiftedLeft` | vex.c:201-205 | moving the string and its terminator one place left from just after cur removes exactly the character at cur and leaves a terminated string followed only by NULs |
| `CommandBuffer.CommandLine.constructor` | vex.c:132-135 | the buffer is cleared with memset: an empty command with the insertion point at 0 |
| `CommandBuffer.CommandLine.Length` | vex.c:187 | the strlen loop returns the length of the command |
| `CommandBuffer.CommandLine.MoveRight` | vex.c:186-192 | the right arrow moves cur by one unless it is at the end, and keeps the text |
| `CommandBuffer.CommandLine.MoveLeft` | vex.c:193-199 | the left arrow moves cur by one unless it is at 0, and keeps the text |
| `CommandBuffer.CommandLine.Backspace` | vex.c:201-205 | the in-place backspace leaves text[..cur-1] + text[cur..] in the buffer, NUL-terminated |
| `CommandBuffer.CommandLine.Insert` | vex.c:206-213 | the in-place insertion leaves text[..cur] + read + text[cur..] in the buffer, NUL-terminated, with cur advanced by one |
| `CommandBuffer.CommandLine.Feed` | vex.c:139-214 | one read on the in-place buffer gives exactly the step LineEdit describes, and leaves the text and cursor it names |
| `Vex.Editor.constructor` | vex.c:40-49 | the session starts as Initial describes, with bufsize set once from MAXREAD |
| `Vex.Editor.Key` | vex.c:226-384 | one key updates the fields and the buffer in place to exactly KeyNext's state, keeps the invariant, and reports the redraw level and whether the command line opens |
| `Vex.Editor.Arrow` | vex.c:240-270 | the arrow keys, in place, as KeyNext describes them, keeping the invariant |
| `Vex.Editor.Mouse` | vex.c:287-291 | a mouse press, in place, as KeyNext describes it, keeping the invariant |
| `Vex.Editor.OtherEscape` | vex.c:227-303 | Escape, paging and the wheel, in place, as KeyNext describes them, keeping the invariant |
| `Vex.Editor.Letter` | vex.c:335-383 | the keys i and : and all other characters that are neither digits nor h, j, k, l, in place, as KeyNext describes them, keeping the invariant |
| `Vex.Editor.ViMove` | vex.c:347-380 | the movement letters h, j, k and l, in place, as KeyNext describes them, keeping the invariant |
| `Vex.Editor.Nibble` | vex.c:309-334 | the nibble assembler writes the byte under the cursor of the buffer array in place, as NibbleNext describes, keeping the invariant |
| `Vex.Editor.Save` | vex.c:120-129 | the save changes the disk and the two flags as SaveNext describes, and keeps the invariant |
| `Vex.Editor.Run` | vex.c:140-173 | the dispatch of a submitted command, in place, with the outcome and new state Dispatch gives |
| `Vex.Editor.Command` | vex.c:139-214 | one read with the command line open: the edit LineEdit describes, a cancel that changes nothing, or a submit dispatched as Dispatch describes |
| `Scenarios.EditFirstByte` | vex.c:306-334 | on a 10-byte file of zeros and a 71-column terminal, i f f Esc makes the first byte 0xFF and the session changed |
| `Scenarios.EditSaveQuit` | vex.c:120-168 | after that edit, `:w` leaves 0xFF followed by nine zeros on disk, and `:q` then quits |
| `Scenarios.ForcedQuit` | vex.c:153-161 | after that edit and no save, `:q` is refused and `:q!` quits with the file on disk unwritten |
| `Scenarios.CleanQuit` | vex.c:153-161 | any file, no edit: `:q` quits at once |
| `Scenarios.TypeCommand` | vex.c:206-213 | typing a one- or two-character command, one read per character, leaves exactly that command with the cursor at its end |
| `Scenarios.SubmitCommand` | vex.c:139-173 | typing a command and then a newline dispatches it as Dispatch describes |

## Left out

- Start-up (`vex_init`, vex.c:67-95) is not modelled: the argument check,
  opening and reading the file, the window-size query and raw terminal mode
  are operating-system I/O. The constructor takes the file's bytes, the
  terminal size and the spare capacity as parameters.
- Shutdown (`vex_stop`, vex.c:402-411) is not modelled: closing the file,
  freeing the buffer, restoring the terminal and exiting are I/O. The dispatch
  reports `Quit` or `WriteQuit` instead.
- Drawing is not modelled: `vex_draw`, `vex_line`, the status bar and the
  cursor and cell macros only print escape sequences. The redraw level a key
  selects is modelled. `REMOVE_TERMINATORS` is modelled as `Printable`.
- The `read` loops and the decoding of raw escape bytes are not modelled.
  Input is a `KeyEvent`, decoded by its leading bytes, for the main loop, and
  a character sequence per read for the command line. The end of input
  (`read` returning 0) is not modelled.
- A multi-byte read in the main loop is treated as its first byte only (the
  C does the same).
- NUL characters inside a typed command-line read are excluded by
  `ChunkFits`, because `strlen` would cut the text there.
- A two-byte escape read on the command line would read a stale third byte.
  `ChunkFits` requires three bytes instead.
- The file buffer is allocated exactly `filesize` bytes, so writes past it are
  out of bounds in the C. `KeyDefined` and `SaveDefined` require that every
  index used is inside the modelled buffer, which may have spare capacity.
  Likewise `ChunkFits` bounds the command text to its 256-character buffer
  and typed reads to fewer than 64 characters.
- Terminals narrower than 11 columns are excluded: the `Editor` constructor,
  `Inv` and `DispatchDefined` require `Usable`. For widths 4 to 10 BUF_WIDTH
  is 0, and the program divides by zero at vex.c:148-149, vex.c:329 and
  vex.c:395. For widths 0 to 3 BUF_WIDTH is -1; the division is defined
  there, but the negative row width such a terminal gives is not covered.
- The cursor arithmetic on `int` (cursor_i, viewport, the BUF_WIDTH products)
  is unbounded in the model. Only the `long`-to-`int` conversion of the goto
  address wraps, since that is the one place a user's input reaches 32-bit
  overflow directly.
- `REDRAW_LINE` is part of the `Redraw` type but no key selects it. The
  `continue` of an unrecognised key, which skips the cursor redraw, is
  drawing and so is left out.
- The history entries of the command line's Up and Down arrows are comments
  with no code, and are modelled as no-ops.
- `Vex.Editor.Command` requires the command buffer to be a different array
  from the file buffer. In the C it is a local array of `vex_comm`, so this
  always holds.
- EditProps.DigitPair: states the stored byte as `(first << 4) | second`. Its
  numeric value, 16 * first + second, is stated separately by
  `EditProps.NibbleByte`.
