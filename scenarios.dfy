/** Whole sessions driven through the Editor and CommandLine classes: keys go
    to the main loop, and a `:` hands the following reads to the command
    line until it is submitted. */
module Scenarios {
  import opened CRuntime
  import opened Layout
  import opened EditState
  import opened CommandBuffer
  import opened EditProps
  import opened Vex

  /** A character the command line takes as text wherever the cursor is. */
  predicate Plain(c: char) {
    c != NUL && c != '\n' && c != ESC && c != DEL
  }

  /** Types a one- or two-character command into a fresh command line, one
      read per character. */
  method TypeCommand(cmd: seq<char>) returns (cl: CommandLine)
    requires 1 <= |cmd| <= 2 && Plain(cmd[0]) && Plain(cmd[|cmd| - 1])
    ensures fresh(cl) && fresh(cl.cmd) && cl.Valid()
    ensures cl.Text() == cmd && cl.cur == |cmd|
  {
    cl := new CommandLine();
    var r := cl.Feed([cmd[0]]);
    assert cl.Text() == [cmd[0]] && cl.cur == 1;
    if |cmd| == 2 {
      r := cl.Feed([cmd[1]]);
      assert cl.Text() == cmd;
    }
  }

  /** Types a command as above, then submits it with a newline. */
  method SubmitCommand(e: Editor, cmd: seq<char>) returns (o: Outcome)
    requires e.Valid() && 1 <= |cmd| <= 2 && Plain(cmd[0]) && Plain(cmd[|cmd| - 1])
    requires DispatchDefined(e.Geo(), e.Model(), cmd)
    modifies e
    ensures e.Valid()
    ensures o == Dispatch(e.Geo(), old(e.Model()), cmd).outcome
    ensures e.Model() == Dispatch(e.Geo(), old(e.Model()), cmd).next
  {
    var cl := TypeCommand(cmd);
    var st := e.Command(cl, ['\n']);
    o := st.outcome;
  }

  /** A 10-byte file of zeros on a 71-column terminal (16 bytes per row):
      `i`, `f`, `f`, Esc makes the first byte 0xFF, marks the session
      changed and returns to Normal mode; the file on disk is untouched. */
  method EditFirstByte() returns (e: Editor)
    ensures fresh(e) && fresh(e.buf) && e.Valid()
    ensures e.Geo() == Geometry(71, 24)
    ensures e.buf[..] == [0xFF] + seq(9, _ => 0) && e.disk == seq(10, _ => 0)
    ensures e.mode == Normal && e.changed && !e.written
    ensures e.viewport == 0 && e.bufsize == 10 && e.filesize == 10
  {
    e := new Editor(seq(10, _ => 0), 71, 24, 0);
    assert BufWidth(e.Geo()) == 16 && e.bufsize == 10 && e.filesize == 10;
    var level, command := e.Key(Typed('i'));
    assert e.mode == Insert && e.nibble == 0 && e.cursorI == 0 && e.viewport == 0;
    level, command := e.Key(Typed('f'));
    assert e.nibble == 1 && e.buf[0] == 0x0F && e.cursorI == 0 && e.viewport == 0;
    level, command := e.Key(Typed('f'));
    assert e.buf[..] == [0xFF] + seq(9, _ => 0);
    level, command := e.Key(Escape);
  }

  /** The session above, then `:w`: the file on disk now starts with 0xFF;
      then `:q` quits without a warning. */
  method EditSaveQuit() returns (disk: seq<bv8>, saved: Outcome, quit: Outcome)
    ensures disk == [0xFF] + seq(9, _ => 0)
    ensures saved == Write && quit == Quit
  {
    var e := EditFirstByte();
    var level, command := e.Key(Typed(':'));
    assert command;
    SaveWholeFile(e.Geo(), e.Model());
    saved := SubmitCommand(e, "w");
    assert !e.changed && e.written;
    level, command := e.Key(Typed(':'));
    quit := SubmitCommand(e, "q");
    disk := e.disk;
  }

  /** Unsaved changes: `:q` warns and leaves the editor running with nothing
      changed, and `:q!` then quits with the file on disk never written. */
  method ForcedQuit() returns (refused: Outcome, forced: Outcome, disk: seq<bv8>)
    ensures refused == QuitRefused && forced == Quit
    ensures disk == seq(10, _ => 0)
  {
    var e := EditFirstByte();
    var level, command := e.Key(Typed(':'));
    refused := SubmitCommand(e, "q");
    assert e.changed && !e.written;
    level, command := e.Key(Typed(':'));
    forced := SubmitCommand(e, "q!");
    disk := e.disk;
  }

  /** Any file, no edits: `:q` quits at once. */
  method CleanQuit(file: seq<bv8>) returns (o: Outcome)
    ensures o == Quit
  {
    var e := new Editor(file, 80, 24, 0);
    var level, command := e.Key(Typed(':'));
    o := SubmitCommand(e, "q");
  }
}
