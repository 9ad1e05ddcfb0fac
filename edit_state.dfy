/** The editing state machine of the hex editor as values: the session state,
    the decoded key events, and what one key, one save and one submitted
    command line do to the state. The Editor class in module Vex performs the
    same steps in place and is proved to agree with these functions. */
module EditState {
  import opened CRuntime
  import opened Layout

  datatype Mode = Normal | Insert

  /** How much of the screen the main loop repaints after a key. The line
      level exists in the source but no key selects it. */
  datatype Redraw = NoRedraw | CharRedraw | LineRedraw | FullRedraw

  /** One read from the terminal in the main loop, decoded by its leading
      bytes. */
  datatype KeyEvent =
    | Escape                          // ESC alone, or ESC not followed by '['
    | Up | Down | Right | Left        // ESC [ A, B, C, D
    | PageDown | PageUp               // ESC [ 6, 5
    | OtherCsi                        // ESC [ followed by anything else
    | MousePress(col: bv8, row: bv8)  // ESC [ M ' ' col row
    | ScrollDown | ScrollUp           // ESC [ M a, ESC [ M `
    | OtherMouse                      // ESC [ M with any other button byte
    | Typed(ch: char)                 // any read whose first byte is not ESC

  predicate WellFormed(k: KeyEvent) {
    k.Typed? ==> k.ch != ESC
  }

  /** The session: the process-wide globals of the editor plus the two locals
      of the main loop that survive from one key to the next (`nibble` and
      `redraw`). `mem` is the whole loaded buffer; the page on screen starts at
      `viewport * BufWidth`, and `cursorI` is relative to that start. `disk` is
      the file's content on disk. */
  datatype State = State(
    mem: seq<bv8>,
    disk: seq<bv8>,
    cursorX: int,
    cursorY: int,
    cursorI: int,
    viewport: int,
    mode: Mode,
    changed: bool,
    written: bool,
    bufsize: int,
    filesize: int,
    nibble: int,
    redraw: Redraw)

  /** The state when the main loop starts: the file loaded, the cursor on the
      first byte, Normal mode, and `bufsize` set once from MAXREAD. `spare`
      bytes of capacity follow the file's bytes. */
  function Initial(g: Geometry, file: seq<bv8>, spare: nat): (s: State)
    ensures |s.mem| == |file| + spare && s.mem[..|file|] == file
    ensures s.disk == file && s.filesize == |file|
    ensures s.bufsize == MaxRead(g, |file|, 0)
  {
    State(file + seq(spare, _ => 0), file, 1, 1, 0, 0, Normal, false, false,
          MaxRead(g, |file|, 0), |file|, 0, FullRedraw)
  }

  /** The invariant every step keeps. */
  predicate Inv(g: Geometry, s: State) {
    && Usable(g)
    && s.viewport >= 0
    && 0 <= s.bufsize <= s.filesize
    && 0 <= s.nibble <= 1
    && (s.nibble == 1 ==> s.mode == Insert)
  }

  /** Index into `mem` of the byte under the cursor (viewbuf[cursor_i]). */
  function CursorOffset(g: Geometry, s: State): int {
    s.viewport * BufWidth(g) + s.cursorI
  }

  /** What the main loop needs to carry out key `k` without touching memory
      outside the buffer: a hex digit typed in Insert mode writes the byte
      under the cursor. */
  predicate KeyDefined(g: Geometry, s: State, k: KeyEvent) {
    k.Typed? && IsHexDigit(k.ch) && s.mode == Insert ==> 0 <= CursorOffset(g, s) < |s.mem|
  }

  /** The state after a key, and whether the key opened the command line. */
  datatype Step = Step(next: State, command: bool)

  /** One iteration of the main loop on key `k`. */
  function KeyNext(g: Geometry, s: State, k: KeyEvent): (r: Step)
    requires KeyDefined(g, s, k)
    ensures r.next.disk == s.disk && r.next.written == s.written
    ensures |r.next.mem| == |s.mem|
  {
    var w := BufWidth(g);
    var h := BufHeight(g);
    var e := s.(nibble := 0, redraw := NoRedraw);
    match k
    case Escape => Step(e.(mode := Normal), false)
    case Up =>
      if s.cursorY > 1 then Step(e.(cursorY := s.cursorY - 1, cursorI := s.cursorI - w), false)
      else if s.viewport > 0 then Step(e.(viewport := s.viewport - 1, redraw := FullRedraw), false)
      else Step(e, false)
    case Down =>
      if s.cursorI + w >= s.bufsize then Step(e, false)
      else if s.cursorY + 1 < h then Step(e.(cursorY := s.cursorY + 1, cursorI := s.cursorI + w), false)
      else if s.viewport * w <= s.filesize then Step(e.(viewport := s.viewport + 1, redraw := FullRedraw), false)
      else Step(e, false)
    case Right =>
      if s.cursorX < w && s.cursorI < s.bufsize then Step(e.(cursorX := s.cursorX + 1, cursorI := s.cursorI + 1), false)
      else Step(e, false)
    case Left =>
      if s.cursorX > 1 && s.cursorI > 0 then Step(e.(cursorX := s.cursorX - 1, cursorI := s.cursorI - 1), false)
      else Step(e, false)
    case PageDown =>
      if s.viewport * w < s.filesize then Step(e.(viewport := s.viewport + h / 2, redraw := FullRedraw), false)
      else Step(e, false)
    case PageUp =>
      if s.viewport >= h / 2 then Step(e.(viewport := s.viewport - h / 2, redraw := FullRedraw), false)
      else Step(e, false)
    case OtherCsi => Step(e, false)
    case MousePress(col, row) =>
      var x := CDiv(col as int - 0x21, 3);
      var y := (row as int - 0x21) + 1;
      Step(e.(cursorX := x, cursorY := y, cursorI := y * w + x), false)
    case ScrollDown => Step(e.(viewport := s.viewport + 5, redraw := FullRedraw), false)
    case ScrollUp =>
      if s.viewport >= 5 then Step(e.(viewport := s.viewport - 5, redraw := FullRedraw), false)
      else Step(e, false)
    case OtherMouse => Step(e, false)
    case Typed(c) =>
      if IsHexDigit(c) then
        if s.mode == Insert then Step(NibbleNext(g, s, c), false)
        else Step(s, false)
      else if c == 'i' then Step(s.(mode := Insert, redraw := NoRedraw), false)
      else if c == ':' then Step(s.(redraw := NoRedraw), s.mode == Normal)
      else if c == 'h' then
        var n := s.(redraw := NoRedraw);
        if s.cursorX > 1 then Step(n.(cursorX := s.cursorX - 1, cursorI := s.cursorI - 1), false)
        else Step(n, false)
      else if c == 'j' then
        if s.cursorY + 1 < h then Step(s.(cursorY := s.cursorY + 1, cursorI := s.cursorI + w, redraw := NoRedraw), false)
        else Step(s.(viewport := s.viewport + 1, redraw := FullRedraw), false)
      else if c == 'k' then
        var n := s.(redraw := NoRedraw);
        if s.cursorY > 1 then Step(n.(cursorY := s.cursorY - 1, cursorI := s.cursorI - w), false)
        else if s.viewport > 0 then Step(n.(viewport := s.viewport - 1, redraw := FullRedraw), false)
        else Step(n, false)
      else if c == 'l' then
        var n := s.(redraw := NoRedraw);
        if s.cursorX < w then Step(n.(cursorX := s.cursorX + 1, cursorI := s.cursorI + 1), false)
        else Step(n, false)
      else Step(s.(redraw := NoRedraw), false)
  }

  /** A hex digit typed in Insert mode. The first digit of a pair replaces the
      byte under the cursor with the digit's value and may grow the buffer by
      one byte; the second shifts that byte left by four bits, ors the digit
      in, and moves the cursor one byte to the right. */
  function NibbleNext(g: Geometry, s: State, c: char): (r: State)
    requires IsHexDigit(c) && 0 <= CursorOffset(g, s) < |s.mem|
    ensures |r.mem| == |s.mem|
    ensures forall j :: 0 <= j < |s.mem| && j != CursorOffset(g, s) ==> r.mem[j] == s.mem[j]
    ensures r.disk == s.disk && r.written == s.written && r.changed
    ensures r.mode == s.mode && r.viewport == s.viewport && r.cursorY == s.cursorY
    ensures r.nibble == (if s.nibble == 0 then 1 else 0)
  {
    var i := CursorOffset(g, s);
    var d := HexDigitValue(c) as bv8;
    if s.nibble == 0 then
      var grow := s.cursorI >= s.bufsize;
      s.(mem := s.mem[i := d],
         bufsize := if grow then s.bufsize + 1 else s.bufsize,
         filesize := if grow && s.bufsize == s.filesize then s.filesize + 1 else s.filesize,
         nibble := 1, changed := true, redraw := CharRedraw)
    else
      s.(mem := s.mem[i := (s.mem[i] << 4) | d],
         cursorI := s.cursorI + 1, cursorX := s.cursorX + 1,
         nibble := 0, changed := true, redraw := NoRedraw)
  }

  /** Bytes a save writes: a full page, or `bufsize` when that is smaller. */
  function WriteSize(g: Geometry, s: State): (n: int)
    ensures n <= PageBytes(g) && n <= s.bufsize
    ensures n == PageBytes(g) || n == s.bufsize
  {
    if s.bufsize < PageBytes(g) then s.bufsize else PageBytes(g)
  }

  /** File offset a save writes at: the start of the page on screen, which
      is `cursorI` bytes before the byte under the cursor, and never negative
      on a usable terminal. */
  function SaveOffset(g: Geometry, s: State): (o: int)
    ensures o == CursorOffset(g, s) - s.cursorI
    ensures Usable(g) && s.viewport >= 0 ==> o >= 0
  {
    assert Usable(g) && s.viewport >= 0 ==> s.viewport * BufWidth(g) >= 0;
    s.viewport * BufWidth(g)
  }

  /** A save reads only bytes of the buffer; a save of zero bytes reads
      none. */
  predicate SaveDefined(g: Geometry, s: State) {
    && 0 <= SaveOffset(g, s)
    && 0 <= WriteSize(g, s)
    && (WriteSize(g, s) > 0 ==> SaveOffset(g, s) + WriteSize(g, s) <= |s.mem|)
  }

  /** The bytes a save writes: WriteSize bytes from the start of the page. */
  function SavedPage(g: Geometry, s: State): (p: seq<bv8>)
    requires SaveDefined(g, s)
    ensures |p| == WriteSize(g, s)
    ensures forall j :: 0 <= j < |p| ==> p[j] == s.mem[SaveOffset(g, s) + j]
  {
    var off, n := SaveOffset(g, s), WriteSize(g, s);
    if n == 0 then [] else s.mem[off..off + n]
  }

  function Max(a: int, b: int): int {
    if a < b then b else a
  }

  /** Writing `data` into a file at offset `off`, as fseek followed by fwrite
      does: the bytes at [off, off + |data|) are replaced, all others are
      kept, the file grows when the write ends past its end, and a gap
      between the old end and `off` reads as zero bytes. A write of no bytes
      leaves the file as it is, wherever `off` points, since fseek alone
      does not extend a file. */
  function Overwrite(file: seq<bv8>, off: nat, data: seq<bv8>): (r: seq<bv8>)
    ensures |r| == if |data| == 0 then |file| else Max(|file|, off + |data|)
    ensures forall k :: 0 <= k < |r| ==>
      r[k] == (if off <= k < off + |data| then data[k - off] else if k < |file| then file[k] else 0)
  {
    if data == [] then file else
    var padded := if off <= |file| then file else file + seq(off - |file|, _ => 0);
    var tail := if off + |data| < |padded| then padded[off + |data|..] else [];
    padded[..off] + data + tail
  }

  /** vex_save: the page on screen is written to the file at the page's
      offset, and the session is marked saved. */
  function SaveNext(g: Geometry, s: State): (r: State)
    requires SaveDefined(g, s)
    ensures r == s.(disk := r.disk, changed := false, written := true)
    ensures WriteSize(g, s) == 0 ==> r.disk == s.disk
    ensures |r.disk| >= |s.disk|
  {
    s.(disk := Overwrite(s.disk, SaveOffset(g, s), SavedPage(g, s)),
       changed := false, written := true)
  }

  /** What a submitted command line leads to. */
  datatype Outcome =
    | Goto(address: int)   // a leading hex digit: the cursor jumps
    | QuitRefused          // `q` with unsaved changes: a warning, nothing else
    | Quit                 // `q`, `q!`: the editor exits
    | Write                // `w`: the page is saved
    | WriteQuit            // `wq`: the page is saved and the editor exits
    | Unknown              // anything else: an error message, nothing else

  datatype Dispatched = Dispatched(outcome: Outcome, next: State)

  /** Character `i` of a command line stored as a C string: NUL past its end. */
  function At(cmd: seq<char>, i: nat): char {
    if i < |cmd| then cmd[i] else NUL
  }

  predicate DispatchDefined(g: Geometry, s: State, cmd: seq<char>) {
    && Usable(g)
    && (At(cmd, 0) == 'w' ==> SaveDefined(g, s))
  }

  /** The command dispatch of vex_comm on the submitted text `cmd`. */
  function Dispatch(g: Geometry, s: State, cmd: seq<char>): (r: Dispatched)
    requires DispatchDefined(g, s, cmd)
    ensures r.next.mem == s.mem && r.next.viewport == s.viewport
    ensures r.next.bufsize == s.bufsize && r.next.filesize == s.filesize
    ensures r.outcome.Goto? <==> IsHexDigit(At(cmd, 0))
    ensures r.next.disk != s.disk ==> At(cmd, 0) == 'w'
    ensures !r.outcome.Goto? && !r.outcome.Write? && !r.outcome.WriteQuit? ==> r.next == s
  {
    if IsHexDigit(At(cmd, 0)) then
      var a := ToInt32(Strtol16(cmd));
      var w := BufWidth(g);
      Dispatched(Goto(a), s.(cursorI := a, cursorX := CMod(a, w) * 3 + 1, cursorY := CDiv(a, w) + 1))
    else if At(cmd, 0) == 'q' then
      if At(cmd, 1) != '!' && s.changed && !s.written then Dispatched(QuitRefused, s)
      else Dispatched(Quit, s)
    else if At(cmd, 0) == 'w' then
      Dispatched(if At(cmd, 1) == 'q' then WriteQuit else Write, SaveNext(g, s))
    else Dispatched(Unknown, s)
  }
}
