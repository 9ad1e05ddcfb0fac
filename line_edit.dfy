/** The command-line editor that `:` opens, as values: the text typed so far,
    the insertion point, and what one read from the terminal does to them.
    Class CommandLine in module CommandBuffer performs the same edits in place
    on a 256-character buffer and is proved to agree with LineEdit. */
module LineEditor {
  import opened CRuntime

  /** Size of the command buffer, including its terminating NUL. */
  const CMD_SIZE: nat := 256
  /** Size of the buffer one read fills. */
  const READ_SIZE: nat := 64

  /** After one read the command line goes on with a new text and insertion
      point, is cancelled, or is submitted with its text. */
  datatype LineStep = Continue(text: seq<char>, cur: int) | Cancel | Submit(text: seq<char>)

  predicate NoNul(s: seq<char>) {
    forall i :: 0 <= i < |s| ==> s[i] != NUL
  }

  /** A read is inserted as text unless it is a newline, starts an escape
      sequence, or is a backspace with something to the left of the cursor. */
  predicate IsText(chunk: seq<char>, cur: int)
    requires |chunk| > 0
  {
    chunk[0] != '\n' && chunk[0] != ESC && !(chunk[0] == DEL && cur > 0)
  }

  /** A command being edited: NUL-free, with room for its terminator, and the
      insertion point inside it. */
  predicate Editing(t: seq<char>, cur: int) {
    0 <= cur <= |t| && |t| < CMD_SIZE && NoNul(t)
  }

  /** What a read must satisfy for the editor to stay inside its buffers: one
      to 64 characters; an escape sequence long enough to have a third
      character; and inserted text short enough to leave room for the NUL
      written after it, free of NULs, and fitting in the command buffer. */
  predicate ChunkFits(t: seq<char>, cur: int, chunk: seq<char>) {
    && 1 <= |chunk| <= READ_SIZE
    && (chunk[0] == ESC && |chunk| > 1 ==> |chunk| >= 3)
    && (IsText(chunk, cur) ==> |chunk| < READ_SIZE && NoNul(chunk) && |t| + |chunk| < CMD_SIZE)
  }

  /** One read of the vex_comm loop. */
  function LineEdit(t: seq<char>, cur: int, chunk: seq<char>): (r: LineStep)
    requires Editing(t, cur) && ChunkFits(t, cur, chunk)
    ensures r.Submit? <==> chunk[0] == '\n'
    ensures r.Submit? ==> r.text == t
    ensures r.Cancel? <==> chunk == [ESC]
    ensures r.Continue? && chunk[0] == ESC ==> r.text == t
    ensures r.Continue? ==> |r.text| == |t| - 1 || |r.text| == |t| || |r.text| == |t| + |chunk|
  {
    if chunk[0] == '\n' then Submit(t)
    else if chunk[0] == ESC then
      if |chunk| == 1 then Cancel
      else if chunk[2] == 'C' then Continue(t, if cur < |t| then cur + 1 else cur)
      else if chunk[2] == 'D' then Continue(t, if cur > 0 then cur - 1 else cur)
      else Continue(t, cur)
    else if chunk[0] == DEL && cur > 0 then Continue(t[..cur - 1] + t[cur..], cur - 1)
    else Continue(t[..cur] + chunk + t[cur..], cur + 1)
  }

  /** Every read that does not end the command line leaves a command that can
      be edited further: the insertion point stays within [0, |text|]. */
  lemma LineEditKeepsEditing(t: seq<char>, cur: int, chunk: seq<char>)
    requires Editing(t, cur) && ChunkFits(t, cur, chunk)
    ensures LineEdit(t, cur, chunk).Continue? ==>
      Editing(LineEdit(t, cur, chunk).text, LineEdit(t, cur, chunk).cur)
  {
    var r := LineEdit(t, cur, chunk);
    if r.Continue? && chunk[0] != ESC {
      var u := r.text;
      if chunk[0] == DEL && cur > 0 {
        forall i | 0 <= i < |u| ensures u[i] != NUL {
          if i < cur - 1 { assert u[i] == t[i]; } else { assert u[i] == t[i + 1]; }
        }
      } else {
        forall i | 0 <= i < |u| ensures u[i] != NUL {
          if i < cur { assert u[i] == t[i]; }
          else if i < cur + |chunk| { assert u[i] == chunk[i - cur]; }
          else { assert u[i] == t[i - |chunk|]; }
        }
      }
    }
  }

  /** The arrow keys move the insertion point by one within [0, |text|] and
      leave the text alone; Up and Down (reserved for a history) do nothing. */
  lemma Arrows(t: seq<char>, cur: int, chunk: seq<char>)
    requires Editing(t, cur) && ChunkFits(t, cur, chunk)
    requires chunk[0] == ESC && |chunk| > 1
    ensures var r := LineEdit(t, cur, chunk);
      && r.Continue? && r.text == t && 0 <= r.cur <= |t|
      && (chunk[2] == 'C' ==> r.cur == (if cur < |t| then cur + 1 else cur))
      && (chunk[2] == 'D' ==> r.cur == (if cur > 0 then cur - 1 else cur))
      && (chunk[2] != 'C' && chunk[2] != 'D' ==> r.cur == cur)
  {
  }

  /** Backspace with something to the left of the insertion point removes
      exactly that character: what was before it and what was after it are
      kept, in order, and the insertion point moves left by one. */
  lemma Backspace(t: seq<char>, cur: int, chunk: seq<char>)
    requires Editing(t, cur) && ChunkFits(t, cur, chunk)
    requires chunk[0] == DEL && cur > 0
    ensures var r := LineEdit(t, cur, chunk);
      && r.Continue? && r.cur == cur - 1 && |r.text| == |t| - 1
      && (forall i :: 0 <= i < cur - 1 ==> r.text[i] == t[i])
      && (forall i :: cur <= i < |t| ==> r.text[i - 1] == t[i])
  {
  }

  /** Typed text goes in at the insertion point, whatever its length, but the
      insertion point moves by one character only. */
  lemma TypedText(t: seq<char>, cur: int, chunk: seq<char>)
    requires Editing(t, cur) && ChunkFits(t, cur, chunk) && IsText(chunk, cur)
    ensures var r := LineEdit(t, cur, chunk);
      && r.Continue? && r.cur == cur + 1
      && |r.text| == |t| + |chunk|
      && r.text[..cur] == t[..cur]
      && r.text[cur..cur + |chunk|] == chunk
      && r.text[cur + |chunk|..] == t[cur..]
  {
    var u := LineEdit(t, cur, chunk).text;
    assert u == t[..cur] + chunk + t[cur..];
    assert u[..cur] == t[..cur];
    assert u[cur..cur + |chunk|] == chunk;
    assert u[cur + |chunk|..] == t[cur..];
  }

  /** A DEL with nothing to its left is not a backspace: it is inserted as
      a character. */
  lemma DelAtStartIsInserted(t: seq<char>)
    requires Editing(t, 0) && |t| + 1 < CMD_SIZE
    ensures LineEdit(t, 0, [DEL]) == Continue([DEL] + t, 1)
  {
    assert t[..0] + [DEL] + t[0..] == [DEL] + t;
  }

  /** Typing one character and then a backspace gives back the command and
      the insertion point as they were. */
  lemma TypeThenBackspace(t: seq<char>, cur: int, c: char)
    requires Editing(t, cur) && |t| + 1 < CMD_SIZE
    requires c != NUL && IsText([c], cur)
    ensures var r := LineEdit(t, cur, [c]);
      && r.Continue? && Editing(r.text, r.cur) && ChunkFits(r.text, r.cur, [DEL])
      && LineEdit(r.text, r.cur, [DEL]) == Continue(t, cur)
  {
    LineEditKeepsEditing(t, cur, [c]);
    var u := t[..cur] + [c] + t[cur..];
    assert u[..cur] == t[..cur];
    assert u[cur + 1..] == t[cur..];
    assert u[..cur] + u[cur + 1..] == t;
  }

  /** A bare Escape cancels and a newline submits the text as it stands. */
  lemma EndsOfLine(t: seq<char>, cur: int)
    requires Editing(t, cur)
    ensures LineEdit(t, cur, [ESC]) == Cancel
    ensures forall chunk :: ChunkFits(t, cur, chunk) && chunk[0] == '\n' ==>
      LineEdit(t, cur, chunk) == Submit(t)
  {
  }
}
