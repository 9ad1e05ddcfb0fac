/** Properties of the editing state machine of module EditState: the
    invariant every key keeps, the two-digit byte entry, buffer growth, the
    mode transitions, cursor and viewport movement, saving, and the command
    dispatch. */
module EditProps {
  import opened CRuntime
  import opened Layout
  import opened EditState

  // ---------------------------------------------------------------- invariant

  /** Every key keeps the invariant: the viewport never goes negative, the
      buffer never outgrows the file size, and a pending nibble exists only in
      Insert mode. */
  lemma KeyKeepsInv(g: Geometry, s: State, k: KeyEvent)
    requires Inv(g, s) && KeyDefined(g, s, k)
    ensures Inv(g, KeyNext(g, s, k).next)
  {
  }

  /** A session starts in a state that satisfies the invariant. */
  lemma InitialInv(g: Geometry, file: seq<bv8>, spare: nat)
    requires Usable(g)
    ensures Inv(g, Initial(g, file, spare))
  {
    var w, h := BufWidth(g), BufHeight(g);
    assert 0 <= w * h;
  }

  // ------------------------------------------------------- nibble assembler

  /** The first digit of a pair replaces the byte under the cursor with the
      digit's value and leaves the cursor where it is. */
  lemma FirstDigit(g: Geometry, s: State, c: char)
    requires Inv(g, s) && s.mode == Insert && s.nibble == 0 && IsHexDigit(c)
    requires 0 <= CursorOffset(g, s) < |s.mem|
    ensures var n := KeyNext(g, s, Typed(c)).next;
      && n.mem == s.mem[CursorOffset(g, s) := HexDigitValue(c) as bv8]
      && n.cursorI == s.cursorI && n.cursorX == s.cursorX && n.cursorY == s.cursorY
      && n.viewport == s.viewport && n.nibble == 1 && n.changed
      && n.redraw == CharRedraw && n.mode == Insert
  {
  }

  /** Two hex digits typed in a row in Insert mode store the byte
      (first << 4) | second under the cursor (its value is 16 * first +
      second by NibbleByte), clear the pending nibble and the redraw level
      and advance the cursor by exactly one byte and one column. Nothing else in the buffer
      changes. */
  lemma DigitPair(g: Geometry, s: State, c1: char, c2: char)
    requires Inv(g, s) && s.mode == Insert && s.nibble == 0
    requires IsHexDigit(c1) && IsHexDigit(c2)
    requires 0 <= CursorOffset(g, s) < |s.mem|
    ensures var s1 := KeyNext(g, s, Typed(c1)).next;
      KeyDefined(g, s1, Typed(c2)) &&
      var s2 := KeyNext(g, s1, Typed(c2)).next;
      var d1, d2 := HexDigitValue(c1), HexDigitValue(c2);
      && s2.mem == s.mem[CursorOffset(g, s) := ((d1 as bv8) << 4) | (d2 as bv8)]
      && s2.nibble == 0 && s2.changed && s2.mode == Insert
      && s2.cursorI == s.cursorI + 1 && s2.cursorX == s.cursorX + 1
      && s2.cursorY == s.cursorY && s2.viewport == s.viewport
      && s2.redraw == NoRedraw
  {
    var i := CursorOffset(g, s);
    var d1, d2 := HexDigitValue(c1), HexDigitValue(c2);
    DigitKey(g, s, c1);
    var s1 := NibbleNext(g, s, c1);
    assert s1.mem == s.mem[i := d1 as bv8];
    assert CursorOffset(g, s1) == i;
    DigitKey(g, s1, c2);
    var s2 := NibbleNext(g, s1, c2);
    assert s2.mem == s.mem[i := ((d1 as bv8) << 4) | (d2 as bv8)];
  }

  /** A hex digit in Insert mode is handled by the nibble assembler. */
  lemma DigitKey(g: Geometry, s: State, c: char)
    requires s.mode == Insert && IsHexDigit(c) && 0 <= CursorOffset(g, s) < |s.mem|
    ensures KeyNext(g, s, Typed(c)) == Step(NibbleNext(g, s, c), false)
  {
  }

  /** The bit operations of the second digit combine two nibbles into one
      byte whose value is 16 * first + second. */
  lemma NibbleByte(d1: nat, d2: nat)
    requires d1 < 16 && d2 < 16
    ensures (((d1 as bv8) << 4) | (d2 as bv8)) as int == 16 * d1 + d2
  {
    var b1, b2 := d1 as bv8, d2 as bv8;
    NibbleBits(b1, b2);
    ByteOfNibble(d1);
    ByteOfNibble(d2);
  }

  lemma NibbleBits(b1: bv8, b2: bv8)
    requires b1 < 16 && b2 < 16
    ensures ((b1 << 4) | b2) as int == b1 as int * 16 + b2 as int
  {
  }

  lemma ByteOfNibble(n: nat)
    requires n < 16
    ensures (n as bv8) as int == n
  {
  }

  /** Growth: the first digit at or past the end of the valid data grows
      `bufsize` by exactly one, and grows `filesize` by one exactly when
      `bufsize` had reached it; any other digit leaves both alone. */
  lemma Growth(g: Geometry, s: State, c: char)
    requires Inv(g, s) && s.mode == Insert && IsHexDigit(c)
    requires 0 <= CursorOffset(g, s) < |s.mem|
    ensures var n := KeyNext(g, s, Typed(c)).next;
      && (n.bufsize == s.bufsize + 1 <==> s.nibble == 0 && s.cursorI >= s.bufsize)
      && (n.bufsize != s.bufsize + 1 ==> n.bufsize == s.bufsize)
      && (n.filesize == s.filesize + 1 <==> s.nibble == 0 && s.cursorI >= s.bufsize && s.bufsize == s.filesize)
      && (n.filesize != s.filesize + 1 ==> n.filesize == s.filesize)
  {
  }

  /** In Normal mode a hex digit changes nothing at all: not the buffer, not
      the cursor, and not even the redraw level, which stays what the previous
      key chose. */
  lemma DigitInNormalMode(g: Geometry, s: State, c: char)
    requires s.mode == Normal && IsHexDigit(c)
    ensures KeyNext(g, s, Typed(c)) == Step(s, false)
  {
  }

  /** A pending nibble survives h, j, k and l: the next digit then completes
      whatever byte is under the moved cursor. In particular `l` followed by a
      digit shifts the neighbouring byte instead of starting a new one. */
  lemma PendingNibbleSurvivesLetters(g: Geometry, s: State, c: char)
    requires Inv(g, s) && s.nibble == 1
    requires c == 'h' || c == 'j' || c == 'k' || c == 'l'
    ensures KeyNext(g, s, Typed(c)).next.nibble == 1
    ensures KeyNext(g, s, Typed(c)).next.mode == Insert
  {
  }

  /** Every escape-prefixed read drops a pending nibble, so an arrow key
      between two digits makes the second one start a new byte. */
  lemma EscapeDropsNibble(g: Geometry, s: State, k: KeyEvent)
    requires !k.Typed?
    ensures KeyNext(g, s, k).next.nibble == 0
  {
  }

  /** A character the key switch does not handle changes nothing but the
      redraw level, which drops to none; a pending nibble survives it. */
  lemma UnhandledKey(g: Geometry, s: State, c: char)
    requires !IsHexDigit(c) && c !in "i:hjkl"
    ensures KeyNext(g, s, Typed(c)) == Step(s.(redraw := NoRedraw), false)
  {
  }

  /** An escape sequence or a mouse report the switch does not recognise
      only drops the pending nibble and the redraw level. */
  lemma UnhandledEscape(g: Geometry, s: State, k: KeyEvent)
    requires k == OtherCsi || k == OtherMouse
    ensures KeyNext(g, s, k) == Step(s.(nibble := 0, redraw := NoRedraw), false)
  {
  }

  /** Committing a byte in the last column moves the cursor one column past
      the row: the column is incremented without wrap or clamp. */
  lemma CommitPastLastColumn(g: Geometry, s: State, c: char)
    requires Inv(g, s) && s.mode == Insert && s.nibble == 1 && IsHexDigit(c)
    requires 0 <= CursorOffset(g, s) < |s.mem|
    requires s.cursorX == BufWidth(g)
    ensures KeyNext(g, s, Typed(c)).next.cursorX == BufWidth(g) + 1
  {
  }

  // ---------------------------------------------------------------- modes

  /** `i` always enters Insert mode and touches nothing else but the redraw
      level. */
  lemma InsertKey(g: Geometry, s: State)
    ensures KeyNext(g, s, Typed('i')) == Step(s.(mode := Insert, redraw := NoRedraw), false)
  {
  }

  /** A bare Escape returns to Normal mode and drops a pending nibble; the
      buffer, the cursor and the viewport are untouched. */
  lemma EscapeKey(g: Geometry, s: State)
    ensures var n := KeyNext(g, s, Escape).next;
      && n.mode == Normal && n.nibble == 0 && n.redraw == NoRedraw
      && n == s.(mode := Normal, nibble := 0, redraw := NoRedraw)
  {
  }

  /** `:` opens the command line exactly in Normal mode, and otherwise does
      nothing but reset the redraw level. */
  lemma ColonKey(g: Geometry, s: State)
    ensures KeyNext(g, s, Typed(':')).command <==> s.mode == Normal
    ensures KeyNext(g, s, Typed(':')).next == s.(redraw := NoRedraw)
  {
  }

  /** Only `:` opens the command line. */
  lemma OnlyColonOpensCommandLine(g: Geometry, s: State, k: KeyEvent)
    requires KeyDefined(g, s, k)
    ensures KeyNext(g, s, k).command ==> k == Typed(':') && s.mode == Normal
  {
  }

  /** Only hex digits typed in Insert mode change the buffer, its valid
      length or the file size, and nothing typed in the main loop changes
      the file on disk or the written flag. */
  lemma OnlyDigitsEdit(g: Geometry, s: State, k: KeyEvent)
    requires KeyDefined(g, s, k)
    ensures var n := KeyNext(g, s, k).next;
      && n.disk == s.disk && n.written == s.written
      && (n.mem != s.mem ==> k.Typed? && IsHexDigit(k.ch) && s.mode == Insert)
      && (n.changed != s.changed ==> n.changed && k.Typed? && IsHexDigit(k.ch) && s.mode == Insert)
      && (n.bufsize != s.bufsize || n.filesize != s.filesize ==> k.Typed? && IsHexDigit(k.ch) && s.mode == Insert)
  {
  }

  // ------------------------------------------------------------- navigation

  /** Left and Right move the column and the byte index together by one; the
      column stays within [1, BufWidth], Left never makes the index negative
      and Right fires only while the index is below `bufsize`. */
  lemma LeftRight(g: Geometry, s: State)
    requires Inv(g, s) && 1 <= s.cursorX <= BufWidth(g) && s.cursorI >= 0
    ensures var l := KeyNext(g, s, Left).next;
      && 1 <= l.cursorX <= BufWidth(g) && l.cursorI >= 0
      && l.cursorX - s.cursorX == l.cursorI - s.cursorI
      && (l.cursorI == s.cursorI - 1 <==> s.cursorX > 1 && s.cursorI > 0)
      && (l.cursorI != s.cursorI - 1 ==> l.cursorI == s.cursorI)
    ensures var r := KeyNext(g, s, Right).next;
      && 1 <= r.cursorX <= BufWidth(g)
      && r.cursorX - s.cursorX == r.cursorI - s.cursorI
      && (r.cursorI == s.cursorI + 1 <==> s.cursorX < BufWidth(g) && s.cursorI < s.bufsize)
      && (r.cursorI != s.cursorI + 1 ==> r.cursorI == s.cursorI)
      && (s.cursorI <= s.bufsize ==> r.cursorI <= s.bufsize)
    ensures var l, r := KeyNext(g, s, Left).next, KeyNext(g, s, Right).next;
      && l == s.(cursorX := l.cursorX, cursorI := l.cursorI, nibble := 0, redraw := NoRedraw)
      && r == s.(cursorX := r.cursorX, cursorI := r.cursorI, nibble := 0, redraw := NoRedraw)
  {
  }

  /** Down is refused when the row below starts at or past `bufsize`. Within
      a page Up and Down move one row and one row's worth of bytes; at the
      page edge only the viewport moves, by one row, with a full redraw: Up
      scrolls exactly when a row is above the page, Down exactly when the
      page does not start past the end of the file. Otherwise nothing moves. */
  lemma UpDown(g: Geometry, s: State)
    requires Inv(g, s)
    ensures var d := KeyNext(g, s, Down).next;
      var w := BufWidth(g);
      && (s.cursorI + w >= s.bufsize ==> d == s.(nibble := 0, redraw := NoRedraw))
      && (s.cursorI + w < s.bufsize && s.cursorY + 1 < BufHeight(g) ==>
            d.cursorY == s.cursorY + 1 && d.cursorI == s.cursorI + w && d.viewport == s.viewport
            && d.redraw == NoRedraw)
      && (s.cursorI + w < s.bufsize && s.cursorY + 1 >= BufHeight(g) ==>
            (d.viewport == s.viewport + 1 <==> s.viewport * w <= s.filesize)
            && (d.viewport != s.viewport + 1 ==> d == s.(nibble := 0, redraw := NoRedraw)))
      && (d.viewport != s.viewport ==>
            d.viewport == s.viewport + 1 && d.redraw == FullRedraw
            && d.cursorY == s.cursorY && d.cursorI == s.cursorI)
      && d == s.(cursorY := d.cursorY, cursorI := d.cursorI, viewport := d.viewport, nibble := 0, redraw := d.redraw)
    ensures var u := KeyNext(g, s, Up).next;
      var w := BufWidth(g);
      && (s.cursorY > 1 ==>
            u.cursorY == s.cursorY - 1 && u.cursorI == s.cursorI - w && u.viewport == s.viewport
            && u.redraw == NoRedraw)
      && (s.cursorY <= 1 && s.viewport > 0 ==>
            u.viewport == s.viewport - 1 && u.redraw == FullRedraw)
      && (s.cursorY <= 1 && s.viewport == 0 ==> u == s.(nibble := 0, redraw := NoRedraw))
      && (u.viewport != s.viewport ==>
            s.cursorY <= 1 && u.viewport == s.viewport - 1 && u.viewport >= 0
            && u.redraw == FullRedraw && u.cursorY == s.cursorY && u.cursorI == s.cursorI)
      && u == s.(cursorY := u.cursorY, cursorI := u.cursorI, viewport := u.viewport, nibble := 0, redraw := u.redraw)
  {
  }

  /** Page and scroll keys move only the viewport, and never below zero:
      PageDown by half a page of rows while the page starts before the end
      of the file, PageUp by half a page of rows when that many are above,
      ScrollUp by five when five are above, and ScrollDown by five always. */
  lemma PagingNeverNegative(g: Geometry, s: State, k: KeyEvent)
    requires Inv(g, s)
    requires k == PageUp || k == PageDown || k == ScrollUp || k == ScrollDown
    ensures var n := KeyNext(g, s, k).next;
      && n.viewport >= 0
      && n == s.(viewport := n.viewport, nibble := 0, redraw := n.redraw)
      && (n.viewport != s.viewport ==> n.redraw == FullRedraw)
      && (k == PageDown ==> n.viewport == (if s.viewport * BufWidth(g) < s.filesize then s.viewport + BufHeight(g) / 2 else s.viewport))
      && (k == PageUp ==> n.viewport == (if s.viewport >= BufHeight(g) / 2 then s.viewport - BufHeight(g) / 2 else s.viewport))
      && (k == ScrollUp ==> n.viewport == (if s.viewport >= 5 then s.viewport - 5 else s.viewport))
      && (k == ScrollDown ==> n.viewport == s.viewport + 5)
  {
  }

  /** `h`, `j` and `l` lack the checks of the arrow keys: `h` moves left at
      index 0 when the column allows it, `l` moves right past `bufsize`, and
      `j` on the last row scrolls the viewport with no end-of-data check. */
  lemma LettersLackChecks(g: Geometry, s: State)
    requires Inv(g, s)
    ensures s.cursorX > 1 ==> KeyNext(g, s, Typed('h')).next.cursorI == s.cursorI - 1
    ensures s.cursorX < BufWidth(g) ==> KeyNext(g, s, Typed('l')).next.cursorI == s.cursorI + 1
    ensures s.cursorY + 1 >= BufHeight(g) ==>
      KeyNext(g, s, Typed('j')).next.viewport == s.viewport + 1
  {
  }

  /** The cursor is on the page when its row and column are in range and the
      byte index agrees with them. */
  predicate OnPage(g: Geometry, s: State) {
    && 1 <= s.cursorX <= BufWidth(g)
    && 1 <= s.cursorY <= Max(1, BufHeight(g) - 1)
    && s.cursorI == (s.cursorY - 1) * BufWidth(g) + (s.cursorX - 1)
  }

  predicate Navigation(k: KeyEvent) {
    || k in {Up, Down, Left, Right, PageUp, PageDown, ScrollUp, ScrollDown, Escape}
    || k in {Typed('h'), Typed('j'), Typed('k'), Typed('l'), Typed('i')}
  }

  /** Navigation keeps the cursor on the page: row, column and index stay in
      range and consistent, so in particular the index never goes negative. */
  lemma NavigationKeepsOnPage(g: Geometry, s: State, k: KeyEvent)
    requires Inv(g, s) && OnPage(g, s) && Navigation(k)
    ensures OnPage(g, KeyNext(g, s, k).next)
    ensures KeyNext(g, s, k).next.cursorI >= 0
  {
    var n := KeyNext(g, s, k).next;
    match k {
      case Down => VerticalOnPage(g, s, n, 1);
      case Up => VerticalOnPage(g, s, n, -1);
      case Typed(c) =>
        if c == 'j' {
          VerticalOnPage(g, s, n, 1);
        } else if c == 'k' {
          VerticalOnPage(g, s, n, -1);
        } else {
          HorizontalOnPage(g, s, n);
        }
      case _ => HorizontalOnPage(g, s, n);
    }
  }

  /** A move within the row that keeps the column in range stays on the page. */
  lemma HorizontalOnPage(g: Geometry, s: State, n: State)
    requires Inv(g, s) && OnPage(g, s)
    requires n.cursorY == s.cursorY && n.cursorI - s.cursorI == n.cursorX - s.cursorX
    requires 1 <= n.cursorX <= BufWidth(g)
    ensures OnPage(g, n) && n.cursorI >= 0
  {
    assert (n.cursorY - 1) * BufWidth(g) >= 0;
  }

  /** A vertical move either keeps the row and the index, or moves the row by
      `dy` and the index by `dy` rows; both stay on the page when the row does. */
  lemma VerticalOnPage(g: Geometry, s: State, n: State, dy: int)
    requires Inv(g, s) && OnPage(g, s) && (dy == 1 || dy == -1)
    requires n.cursorX == s.cursorX
    requires (n.cursorY == s.cursorY && n.cursorI == s.cursorI)
          || (n.cursorY == s.cursorY + dy && n.cursorI == s.cursorI + dy * BufWidth(g))
    requires 1 <= n.cursorY <= Max(1, BufHeight(g) - 1)
    ensures OnPage(g, n) && n.cursorI >= 0
  {
    var w := BufWidth(g);
    assert (s.cursorY + dy - 1) * w == (s.cursorY - 1) * w + dy * w;
    assert (n.cursorY - 1) * w >= 0;
  }

  /** A mouse click is the one key that can leave the cursor off the page:
      its byte index is one row and one byte further on than the row and
      column it sets. */
  lemma MousePressOffByOneRow(g: Geometry, s: State, col: bv8, row: bv8)
    ensures var n := KeyNext(g, s, MousePress(col, row)).next;
      n.cursorI == (n.cursorY - 1) * BufWidth(g) + (n.cursorX - 1) + BufWidth(g) + 1
  {
    var n := KeyNext(g, s, MousePress(col, row)).next;
    assert n.cursorI == n.cursorY * BufWidth(g) + n.cursorX;
    RowBefore(n.cursorY, BufWidth(g));
  }

  /** The state a mouse press leads to, field by field. */
  lemma MouseKey(g: Geometry, s: State, col: bv8, row: bv8)
    ensures var x, y := CDiv(col as int - 0x21, 3), (row as int - 0x21) + 1;
      KeyNext(g, s, MousePress(col, row)).next
        == s.(nibble := 0, redraw := NoRedraw, cursorX := x, cursorY := y, cursorI := y * BufWidth(g) + x)
  {
  }

  lemma RowBefore(y: int, w: int)
    ensures (y - 1) * w == y * w - w
  {
  }

  // ------------------------------------------------------------------- save

  /** A save replaces exactly WriteSize bytes of the file, starting at the
      page's offset, with the page's bytes; every other byte of the file is
      kept, and the session is marked saved. A save of zero bytes leaves the
      file as it was, even when the page starts past its end. */
  lemma SaveRegion(g: Geometry, s: State)
    requires Inv(g, s) && SaveDefined(g, s)
    ensures var n := SaveNext(g, s);
      var off, len := SaveOffset(g, s), WriteSize(g, s);
      && (len > 0 ==> n.disk[off..off + len] == s.mem[off..off + len])
      && |n.disk| == (if len == 0 then |s.disk| else Max(|s.disk|, off + len))
      && (len == 0 ==> n.disk == s.disk)
      && (forall k :: 0 <= k < |s.disk| && !(off <= k < off + len) ==> n.disk[k] == s.disk[k])
      && !n.changed && n.written
      && n == s.(disk := n.disk, changed := false, written := true)
  {
    var n := SaveNext(g, s);
    var off, len := SaveOffset(g, s), WriteSize(g, s);
    if len > 0 {
      var written, page := n.disk[off..off + len], s.mem[off..off + len];
      forall j | 0 <= j < len ensures written[j] == page[j] {
        assert written[j] == n.disk[off + j];
      }
    }
  }

  /** With no valid bytes loaded, as for an empty file, `:w` writes nothing
      and leaves the file exactly as it was, wherever the viewport is. */
  lemma EmptyWriteKeepsFile(g: Geometry, s: State)
    requires Inv(g, s) && s.bufsize == 0
    ensures DispatchDefined(g, s, ['w'])
    ensures Dispatch(g, s, ['w']).next.disk == s.disk
    ensures Dispatch(g, s, ['w']).outcome == Write
  {
    assert SaveOffset(g, s) >= 0 by {
      assert s.viewport * BufWidth(g) >= 0;
    }
  }

  /** Writing the same bytes at the same offset twice is the same as once. */
  lemma OverwriteTwice(file: seq<bv8>, off: nat, data: seq<bv8>)
    ensures Overwrite(Overwrite(file, off, data), off, data) == Overwrite(file, off, data)
  {
    var once := Overwrite(file, off, data);
    var twice := Overwrite(once, off, data);
    assert |twice| == |once|;
    forall k | 0 <= k < |once| ensures twice[k] == once[k] {
    }
  }

  /** A file that fits on one page, saved from the first page with all its
      bytes loaded, is replaced on disk by the loaded bytes as a whole. */
  lemma SaveWholeFile(g: Geometry, s: State)
    requires Inv(g, s) && SaveDefined(g, s)
    requires s.viewport == 0 && s.bufsize == |s.disk| && s.bufsize <= PageBytes(g)
    ensures SaveNext(g, s).disk == s.mem[..s.bufsize]
  {
    var n := SaveNext(g, s);
    assert WriteSize(g, s) == s.bufsize && SaveOffset(g, s) == 0;
    assert |n.disk| == s.bufsize;
    forall k | 0 <= k < s.bufsize ensures n.disk[k] == s.mem[k] {
    }
  }

  /** Saving twice in a row gives the same file as saving once. */
  lemma SaveIdempotent(g: Geometry, s: State)
    requires Inv(g, s) && SaveDefined(g, s)
    ensures SaveDefined(g, SaveNext(g, s))
    ensures SaveNext(g, SaveNext(g, s)) == SaveNext(g, s)
  {
    OverwriteTwice(s.disk, SaveOffset(g, s), SavedPage(g, s));
  }

  // -------------------------------------------------------------- dispatch

  /** `q` is refused, with no state change, exactly when it is not followed
      by `!` and there are changes while nothing has ever been saved;
      otherwise it quits. */
  lemma QuitGuard(g: Geometry, s: State, cmd: seq<char>)
    requires Usable(g) && |cmd| > 0 && cmd[0] == 'q'
    ensures var r := Dispatch(g, s, cmd);
      && r.next == s
      && (r.outcome == QuitRefused <==> At(cmd, 1) != '!' && s.changed && !s.written)
      && (r.outcome != QuitRefused ==> r.outcome == Quit)
  {
  }

  /** `q!` always quits. */
  lemma ForcedQuit(g: Geometry, s: State, rest: seq<char>)
    requires Usable(g)
    ensures Dispatch(g, s, ['q', '!'] + rest) == Dispatched(Quit, s)
  {
  }

  /** `w` saves the page, and quits as well exactly when the next character
      is `q`. */
  lemma WriteCommand(g: Geometry, s: State, cmd: seq<char>)
    requires Usable(g) && |cmd| > 0 && cmd[0] == 'w' && SaveDefined(g, s)
    ensures var r := Dispatch(g, s, cmd);
      && r.next == SaveNext(g, s)
      && (r.outcome == WriteQuit <==> At(cmd, 1) == 'q')
      && (r.outcome != WriteQuit ==> r.outcome == Write)
  {
  }

  /** The written flag is never cleared, so after one save the quit guard
      stays disarmed: later edits followed by `q` quit without a warning. */
  lemma WrittenIsSticky(g: Geometry, s: State, k: KeyEvent, cmd: seq<char>)
    requires Usable(g) && s.written && KeyDefined(g, s, k)
    ensures KeyNext(g, s, k).next.written
    ensures DispatchDefined(g, s, cmd) ==> Dispatch(g, s, cmd).next.written
    ensures Dispatch(g, KeyNext(g, s, k).next, ['q']).outcome == Quit
  {
  }

  /** Before any save, a committed digit arms the quit guard. */
  lemma EditArmsQuitGuard(g: Geometry, s: State, c: char)
    requires Inv(g, s) && !s.written && s.mode == Insert && IsHexDigit(c)
    requires 0 <= CursorOffset(g, s) < |s.mem|
    ensures Dispatch(g, KeyNext(g, s, Typed(c)).next, ['q']).outcome == QuitRefused
  {
  }

  /** With no change made, `q` quits whatever follows it. */
  lemma CleanQuit(g: Geometry, s: State, cmd: seq<char>)
    requires Usable(g) && !s.changed && |cmd| > 0 && cmd[0] == 'q'
    ensures Dispatch(g, s, cmd) == Dispatched(Quit, s)
  {
  }

  /** A goto sets the byte index to the address read from the command,
      derives the row from the address divided by the row width and the
      column from the remainder times three, plus one; the viewport stays
      where it was. For an address that fits in an int this is the value of
      the longest hexadecimal prefix. */
  lemma GotoAddress(g: Geometry, s: State, cmd: seq<char>)
    requires Usable(g) && |cmd| > 0 && IsHexDigit(cmd[0])
    ensures var r := Dispatch(g, s, cmd);
      var a := r.outcome.address;
      var w := BufWidth(g);
      && r.outcome.Goto?
      && r.next == s.(cursorI := a, cursorX := r.next.cursorX, cursorY := r.next.cursorY)
      && r.next.viewport == s.viewport
      && a == (r.next.cursorY - 1) * w + (r.next.cursorX - 1) / 3
      && (r.next.cursorX - 1) % 3 == 0
      && (a >= 0 ==> 1 <= r.next.cursorX <= 3 * w - 2 && r.next.cursorY >= 1)
      && (HexPrefixValue(DigitsAfterPrefix(cmd)) <= INT_MAX ==> a == HexPrefixValue(DigitsAfterPrefix(cmd)))
  {
    var r := Dispatch(g, s, cmd);
    GotoArithmetic(r.outcome.address, BufWidth(g));
  }

  /** The row and column a goto derives from address `a` give it back. */
  lemma GotoArithmetic(a: int, w: int)
    requires w >= 1
    ensures var x, y := CMod(a, w) * 3 + 1, CDiv(a, w) + 1;
      && a == (y - 1) * w + (x - 1) / 3
      && (x - 1) % 3 == 0
      && (a >= 0 ==> 1 <= x <= 3 * w - 2 && y >= 1)
  {
    assert (CMod(a, w) * 3) / 3 == CMod(a, w);
    assert (CMod(a, w) * 3) % 3 == 0;
  }

  /** The goto column is three times too large: "1" with a row width of 16
      puts the cursor on column 4 instead of column 2, off the page's
      row/column/index agreement. */
  lemma GotoColumnIsScaled(s: State)
    ensures var g := Geometry(71, 24);
      var r := Dispatch(g, s, ['1']);
      && BufWidth(g) == 16
      && r.next.cursorI == 1 && r.next.cursorX == 4 && r.next.cursorY == 1
      && !OnPage(g, r.next)
  {
    var g := Geometry(71, 24);
    assert BufWidth(g) == 16;
    assert DigitsAfterPrefix(['1']) == ['1'];
    HexPrefixOfDigits(['1'], []);
    assert ['1'] + [] == ['1'];
    assert HexValue(['1']) == 1 by {
      assert ['1'][..0] == [];
    }
  }

  /** Anything that is neither a hex digit nor `q` nor `w` at the front,
      including an empty command, is unknown and changes nothing. */
  lemma UnknownCommand(g: Geometry, s: State, cmd: seq<char>)
    requires Usable(g)
    requires !IsHexDigit(At(cmd, 0)) && At(cmd, 0) != 'q' && At(cmd, 0) != 'w'
    ensures Dispatch(g, s, cmd) == Dispatched(Unknown, s)
  {
  }

  /** The dispatch keeps the invariant. */
  lemma DispatchKeepsInv(g: Geometry, s: State, cmd: seq<char>)
    requires Inv(g, s) && DispatchDefined(g, s, cmd)
    ensures Inv(g, Dispatch(g, s, cmd).next)
  {
  }
}
