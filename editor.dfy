/** The editor session as the program runs it: one object whose fields are the
    program's globals (and the two loop-carried locals of the main loop),
    updated in place key by key, with the loaded file in a byte array. Every
    method is proved to do what the corresponding function of module
    EditState says. */
module Vex {
  import opened CRuntime
  import opened Layout
  import opened EditState
  import opened EditProps
  import opened LineEditor
  import opened CommandBuffer

  /** Where the command line stands after one read. */
  datatype CommandStatus = Typing | Cancelled | Submitted(outcome: Outcome)

  class Editor {
    const width: nat
    const height: nat
    /** filebuf: the loaded file, followed by spare capacity. The page on
        screen (viewbuf) starts at index viewport * BufWidth. */
    const buf: array<bv8>
    /** The file as stored on disk. */
    var disk: seq<bv8>
    var cursorX: int
    var cursorY: int
    var cursorI: int
    var viewport: int
    var mode: Mode
    var changed: bool
    var written: bool
    var bufsize: int
    var filesize: int
    var nibble: int
    var redraw: Redraw

    function Geo(): Geometry {
      Geometry(width, height)
    }

    /** The session state these fields hold. */
    ghost function Model(): State
      reads this, buf
    {
      State(buf[..], disk, cursorX, cursorY, cursorI, viewport, mode, changed,
            written, bufsize, filesize, nibble, redraw)
    }

    ghost predicate Valid()
      reads this, buf
    {
      Inv(Geo(), Model())
    }

    /** Start-up: the file's bytes loaded into a buffer with `spare` bytes of
        room after them, the terminal size fixed, and the main loop's state
        set up for its first, full, redraw. */
    constructor (file: seq<bv8>, width: nat, height: nat, spare: nat)
      requires Usable(Geometry(width, height))
      ensures Valid() && fresh(buf)
      ensures Geo() == Geometry(width, height)
      ensures Model() == Initial(Geometry(width, height), file, spare)
    {
      this.width := width;
      this.height := height;
      buf := new bv8[|file| + spare](i => if 0 <= i < |file| then file[i] else 0);
      disk := file;
      cursorX, cursorY, cursorI, viewport := 1, 1, 0, 0;
      mode := Normal;
      changed, written := false, false;
      filesize := |file|;
      nibble := 0;
      redraw := FullRedraw;
      bufsize := MaxRead(Geometry(width, height), |file|, 0);
      new;
      assert buf[..] == file + seq(spare, _ => 0);
      InitialInv(Geo(), file, spare);
    }

    /** One key of the main loop. Returns the redraw level the loop then
        applies and whether the key opened the command line. */
    method Key(k: KeyEvent) returns (level: Redraw, command: bool)
      requires Valid() && WellFormed(k) && KeyDefined(Geo(), Model(), k)
      modifies this, buf
      ensures Valid()
      ensures Model() == KeyNext(Geo(), old(Model()), k).next
      ensures command == KeyNext(Geo(), old(Model()), k).command
      ensures level == redraw
    {
      command := false;
      if k.Up? || k.Down? || k.Right? || k.Left? {
        Arrow(k);
      } else if k.MousePress? {
        Mouse(k);
      } else if !k.Typed? {
        OtherEscape(k);
      } else if IsHexDigit(k.ch) {
        if mode == Insert {
          Nibble(k.ch);
        }
      } else if k.ch in "hjkl" {
        ViMove(k.ch);
      } else {
        command := Letter(k.ch);
      }
      level := redraw;
    }

    /** The arrow keys (ESC [ A..D): each moves the cursor one step, within
        the page and the loaded bytes, and Up and Down scroll at the page's
        edge. */
    method Arrow(k: KeyEvent)
      requires Valid() && (k.Up? || k.Down? || k.Right? || k.Left?)
      modifies this
      ensures Valid()
      ensures Model() == KeyNext(Geo(), old(Model()), k).next
    {
      var w, h := BufWidth(Geo()), BufHeight(Geo());
      redraw := NoRedraw;
      nibble := 0;
      if k.Up? {
        if cursorY > 1 {
          cursorY := cursorY - 1;
          cursorI := cursorI - w;
        } else if viewport > 0 {
          viewport := viewport - 1;
          redraw := FullRedraw;
        }
      } else if k.Down? {
        if cursorI + w < bufsize {
          if cursorY + 1 < h {
            cursorY := cursorY + 1;
            cursorI := cursorI + w;
          } else if viewport * w <= filesize {
            viewport := viewport + 1;
            redraw := FullRedraw;
          }
        }
      } else if k.Right? {
        if cursorX < w && cursorI < bufsize {
          cursorX := cursorX + 1;
          cursorI := cursorI + 1;
        }
      } else {
        if cursorX > 1 && cursorI > 0 {
          cursorX := cursorX - 1;
          cursorI := cursorI - 1;
        }
      }
    }

    /** A mouse press (ESC [ M ' ' col row): the cursor is placed from the
        reported cell, with no check against the page. */
    method Mouse(k: KeyEvent)
      requires Valid() && k.MousePress?
      modifies this
      ensures Valid()
      ensures Model() == KeyNext(Geo(), old(Model()), k).next
    {
      ghost var s := Model();
      var x := CDiv(k.col as int - 0x21, 3);
      var y := (k.row as int - 0x21) + 1;
      redraw, nibble := NoRedraw, 0;
      cursorX, cursorY, cursorI := x, y, y * BufWidth(Geo()) + x;
      MouseKey(Geo(), s, k.col, k.row);
    }

    /** The other escape-prefixed reads: Escape itself, paging, the wheel. */
    method OtherEscape(k: KeyEvent)
      requires Valid() && !k.Typed? && !(k.Up? || k.Down? || k.Right? || k.Left? || k.MousePress?)
      modifies this
      ensures Valid()
      ensures Model() == KeyNext(Geo(), old(Model()), k).next
    {
      var w, h := BufWidth(Geo()), BufHeight(Geo());
      redraw := NoRedraw;
      nibble := 0;
      if k.Escape? {
        mode := Normal;
      } else if k.PageDown? {
        if viewport * w < filesize {
          redraw := FullRedraw;
          viewport := viewport + h / 2;
        }
      } else if k.PageUp? {
        if viewport >= h / 2 {
          redraw := FullRedraw;
          viewport := viewport - h / 2;
        }
      } else if k.ScrollDown? {
        redraw := FullRedraw;
        viewport := viewport + 5;
      } else if k.ScrollUp? {
        if viewport >= 5 {
          redraw := FullRedraw;
          viewport := viewport - 5;
        }
      }
    }

    /** A typed character that is neither a hex digit nor a movement letter:
        the mode keys and everything else. */
    method Letter(c: char) returns (command: bool)
      requires Valid() && !IsHexDigit(c) && c !in "hjkl"
      modifies this
      ensures Valid()
      ensures Model() == KeyNext(Geo(), old(Model()), Typed(c)).next
      ensures command == KeyNext(Geo(), old(Model()), Typed(c)).command
    {
      command := false;
      redraw := NoRedraw;
      if c == 'i' {
        mode := Insert;
      } else if c == ':' {
        command := mode == Normal;
      }
    }

    /** The vi-style movement letters h, j, k and l. */
    method ViMove(c: char)
      requires Valid() && c in "hjkl"
      modifies this
      ensures Valid()
      ensures Model() == KeyNext(Geo(), old(Model()), Typed(c)).next
    {
      var w, h := BufWidth(Geo()), BufHeight(Geo());
      redraw := NoRedraw;
      if c == 'h' {
        if cursorX > 1 {
          cursorX := cursorX - 1;
          cursorI := cursorI - 1;
        }
      } else if c == 'j' {
        if cursorY + 1 < h {
          cursorY := cursorY + 1;
          cursorI := cursorI + w;
        } else {
          viewport := viewport + 1;
          redraw := FullRedraw;
        }
      } else if c == 'k' {
        if cursorY > 1 {
          cursorY := cursorY - 1;
          cursorI := cursorI - w;
        } else if viewport > 0 {
          viewport := viewport - 1;
          redraw := FullRedraw;
        }
      } else {
        if cursorX < w {
          cursorX := cursorX + 1;
          cursorI := cursorI + 1;
        }
      }
    }

    /** The nibble assembler: a hex digit typed in Insert mode. */
    method Nibble(c: char)
      requires Valid() && mode == Insert && IsHexDigit(c)
      requires 0 <= CursorOffset(Geo(), Model()) < buf.Length
      modifies this, buf
      ensures Valid()
      ensures Model() == NibbleNext(Geo(), old(Model()), c)
    {
      var i := viewport * BufWidth(Geo()) + cursorI;
      var d := HexDigitValue(c) as bv8;
      redraw := CharRedraw;
      if nibble == 0 {
        buf[i] := d;
        if cursorI >= bufsize {
          if bufsize == filesize {
            filesize := filesize + 1;
          }
          bufsize := bufsize + 1;
        }
      } else {
        buf[i] := buf[i] << 4;
        buf[i] := buf[i] | d;
      }
      nibble := nibble + 1;
      if nibble > 1 {
        redraw := NoRedraw;
        nibble := 0;
        cursorI := cursorI + 1;
        cursorX := cursorX + 1;
      }
      changed := true;
    }

    /** vex_save: the page on screen goes to the file at the page's offset. */
    method Save()
      requires Valid() && SaveDefined(Geo(), Model())
      modifies this
      ensures Valid()
      ensures Model() == SaveNext(Geo(), old(Model()))
    {
      var writesize := PageBytes(Geo());
      if bufsize < writesize {
        writesize := bufsize;
      }
      var off := viewport * BufWidth(Geo());
      var page := if writesize == 0 then [] else buf[off..off + writesize];
      disk := Overwrite(disk, off, page);
      changed := false;
      written := true;
    }

    /** The dispatch of a submitted command line. */
    method Run(cmd: seq<char>) returns (o: Outcome)
      requires Valid() && DispatchDefined(Geo(), Model(), cmd)
      modifies this
      ensures Valid()
      ensures Model() == Dispatch(Geo(), old(Model()), cmd).next
      ensures o == Dispatch(Geo(), old(Model()), cmd).outcome
    {
      var w := BufWidth(Geo());
      if IsHexDigit(At(cmd, 0)) {
        cursorI := ToInt32(Strtol16(cmd));
        cursorX := CMod(cursorI, w) * 3 + 1;
        cursorY := CDiv(cursorI, w) + 1;
        o := Goto(cursorI);
      } else if At(cmd, 0) == 'q' {
        if At(cmd, 1) != '!' && changed && !written {
          o := QuitRefused;
        } else {
          o := Quit;
        }
      } else if At(cmd, 0) == 'w' {
        Save();
        o := if At(cmd, 1) == 'q' then WriteQuit else Write;
      } else {
        o := Unknown;
      }
    }

    /** One read while the command line is open: the line editor takes it,
        and a newline submits the command to the dispatch. */
    method Command(cl: CommandLine, chunk: seq<char>) returns (st: CommandStatus)
      requires Valid() && cl.Valid() && ChunkFits(cl.Text(), cl.cur, chunk)
      requires chunk[0] == '\n' ==> DispatchDefined(Geo(), Model(), cl.Text())
      requires cl.cmd as object != buf as object
      modifies this, cl, cl.cmd
      ensures Valid() && cl.Valid()
      ensures match LineEdit(old(cl.Text()), old(cl.cur), chunk)
        case Continue(t, c) => st == Typing && cl.Text() == t && cl.cur == c && Model() == old(Model())
        case Cancel => st == Cancelled && Model() == old(Model())
        case Submit(t) =>
          && st == Submitted(Dispatch(Geo(), old(Model()), t).outcome)
          && Model() == Dispatch(Geo(), old(Model()), t).next
    {
      ghost var before := Model();
      var r := cl.Feed(chunk);
      assert buf[..] == before.mem;
      assert Model() == before;
      match r {
        case Continue(_, _) => st := Typing;
        case Cancel => st := Cancelled;
        case Submit(t) =>
          var o := Run(t);
          st := Submitted(o);
      }
    }
  }
}
