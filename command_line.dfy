/** The command line as vex_comm keeps it: a zero-filled 256-character buffer
    holding a NUL-terminated string, and an insertion point. Insertion and
    backspace shift the string in place with memmove, and typed text is
    copied in with strncpy. */
module CommandBuffer {
  import opened CRuntime
  import opened LineEditor

  /** memmove(a + dst, a + src, n): the n characters at `src` end up at
      `dst`, correctly when the two ranges overlap; nothing else changes. */
  method MemMove(a: array<char>, dst: nat, src: nat, n: nat)
    requires src + n <= a.Length && dst + n <= a.Length
    modifies a
    ensures forall p :: 0 <= p < a.Length ==>
      a[p] == if dst <= p < dst + n then old(a[p - dst + src]) else old(a[p])
  {
    if dst <= src {
      var i := 0;
      while i < n
        invariant 0 <= i <= n
        invariant forall p :: 0 <= p < a.Length ==>
          a[p] == if dst <= p < dst + i then old(a[p - dst + src]) else old(a[p])
      {
        a[dst + i] := a[src + i];
        i := i + 1;
      }
    } else {
      var i := n;
      while i > 0
        invariant 0 <= i <= n
        invariant forall p :: 0 <= p < a.Length ==>
          a[p] == if dst + i <= p < dst + n then old(a[p - dst + src]) else old(a[p])
      {
        i := i - 1;
        a[dst + i] := a[src + i];
      }
    }
  }

  /** strncpy(a + dst, s, |s|) for a NUL-free `s`: exactly the characters of
      `s` are copied, and nothing is padded. */
  method CopyIn(a: array<char>, dst: nat, s: seq<char>)
    requires dst + |s| <= a.Length
    modifies a
    ensures forall p :: 0 <= p < a.Length ==>
      a[p] == if dst <= p < dst + |s| then s[p - dst] else old(a[p])
  {
    var i := 0;
    while i < |s|
      invariant 0 <= i <= |s|
      invariant forall p :: 0 <= p < a.Length ==>
        a[p] == if dst <= p < dst + i then s[p - dst] else old(a[p])
    {
      a[dst + i] := s[i];
      i := i + 1;
    }
  }

  /** A string with its terminator and the NULs after it, shifted one place
      left from just after `cur`, is the string with its character at `cur`
      removed, still terminated and followed only by NULs. */
  lemma ShiftedLeft(before: seq<char>, after: seq<char>, cur: nat)
    requires |before| == |after| == CMD_SIZE && StrLen(before) < CMD_SIZE
    requires forall p :: StrLen(before) <= p < CMD_SIZE ==> before[p] == NUL
    requires cur < StrLen(before)
    requires forall p {:trigger after[p]} :: 0 <= p < CMD_SIZE ==>
      after[p] == if cur <= p < StrLen(before) then before[p + 1] else before[p]
    ensures StrLen(after) == StrLen(before) - 1
    ensures forall p :: StrLen(after) <= p < CMD_SIZE ==> after[p] == NUL
    ensures after[..StrLen(after)] == before[..cur] + before[cur + 1..StrLen(before)]
  {
    var len := StrLen(before);
    forall p | 0 <= p < len - 1 ensures after[p] != NUL {
      if p >= cur { assert after[p] == before[p + 1]; }
    }
    assert after[len - 1] == before[len] == NUL;
    StrLenAt(after, len - 1);
    forall p | len - 1 <= p < CMD_SIZE ensures after[p] == NUL {
      if p >= len { assert after[p] == before[p]; }
    }
    var u := before[..cur] + before[cur + 1..len];
    forall p | 0 <= p < len - 1 ensures after[p] == u[p] {
      if p >= cur { assert after[p] == before[p + 1]; }
    }
  }

  class CommandLine {
    const cmd: array<char>
    var cur: int

    /** The buffer holds a string followed only by NULs, and the insertion
        point lies within the string. */
    ghost predicate Valid()
      reads this, cmd
    {
      && cmd.Length == CMD_SIZE
      && StrLen(cmd[..]) < CMD_SIZE
      && (forall p :: StrLen(cmd[..]) <= p < CMD_SIZE ==> cmd[p] == NUL)
      && 0 <= cur <= StrLen(cmd[..])
    }

    /** The command typed so far. */
    ghost function Text(): (t: seq<char>)
      reads this, cmd
      requires Valid()
      ensures Editing(t, cur)
    {
      cmd[..StrLen(cmd[..])]
    }

    /** vex_comm's start: the buffer cleared with memset, the insertion point
        at the start. */
    constructor ()
      ensures Valid() && fresh(cmd) && Text() == [] && cur == 0
    {
      cmd := new char[CMD_SIZE](_ => NUL);
      cur := 0;
      new;
      StrLenAt(cmd[..], 0);
    }

    /** strlen(cmd). */
    method Length() returns (n: int)
      requires Valid()
      ensures n == |Text()|
    {
      n := 0;
      while cmd[n] != NUL
        invariant 0 <= n <= StrLen(cmd[..])
        decreases StrLen(cmd[..]) - n
      {
        assert cmd[..][n] == cmd[n];
        n := n + 1;
      }
      assert cmd[..][n] == NUL;
    }

    /** The right arrow: one character to the right, unless at the end. */
    method MoveRight()
      requires Valid()
      modifies this
      ensures Valid() && Text() == old(Text())
      ensures cur == if old(cur) < |Text()| then old(cur) + 1 else old(cur)
    {
      var len := Length();
      if cur < len {
        cur := cur + 1;
      }
    }

    /** The left arrow: one character to the left, unless at the start. */
    method MoveLeft()
      requires Valid()
      modifies this
      ensures Valid() && Text() == old(Text())
      ensures cur == if old(cur) > 0 then old(cur) - 1 else old(cur)
    {
      if cur > 0 {
        cur := cur - 1;
      }
    }

    /** Backspace: the character left of the insertion point is removed by
        shifting the rest of the string, its terminator included, one place
        to the left. */
    method Backspace()
      requires Valid() && cur > 0
      modifies this, cmd
      ensures Valid()
      ensures cur == old(cur) - 1
      ensures Text() == old(Text()[..cur - 1] + Text()[cur..])
    {
      ghost var before := cmd[..];
      cur := cur - 1;
      var len := Length();
      MemMove(cmd, cur, cur + 1, len - cur);
      ShiftedLeft(before, cmd[..], cur);
    }

    /** Typed text: the rest of the string is shifted right to make room, the
        text is copied in, and the insertion point moves by one character. */
    method Insert(s: seq<char>)
      requires Valid() && |s| > 0 && NoNul(s) && |Text()| + |s| < CMD_SIZE
      modifies this, cmd
      ensures Valid()
      ensures cur == old(cur) + 1
      ensures Text() == old(Text()[..cur] + s + Text()[cur..])
    {
      ghost var t := Text();
      ghost var before := cmd[..];
      var len := Length();
      MemMove(cmd, cur + |s|, cur, len - cur);
      CopyIn(cmd, cur, s);
      ghost var u := t[..cur] + s + t[cur..];
      forall p | 0 <= p < len + |s| ensures cmd[p] == u[p] {
        if p < cur {
        } else if p < cur + |s| {
          assert cmd[p] == s[p - cur];
        } else {
          assert cmd[p] == before[p - |s|];
        }
      }
      assert cmd[len + |s|] == before[len + |s|] == NUL;
      StrLenAt(cmd[..], len + |s|);
      assert cmd[..len + |s|] == u;
      cur := cur + 1;
    }

    /** One read of the vex_comm loop, as LineEdit describes it. */
    method Feed(chunk: seq<char>) returns (r: LineStep)
      requires Valid() && ChunkFits(Text(), cur, chunk)
      modifies this, cmd
      ensures Valid()
      ensures r == LineEdit(old(Text()), old(cur), chunk)
      ensures r.Continue? ==> Text() == r.text && cur == r.cur
    {
      if chunk[0] == '\n' {
        var len := Length();
        r := Submit(cmd[..len]);
      } else if chunk[0] == ESC {
        if |chunk| == 1 {
          r := Cancel;
        } else {
          if chunk[2] == 'C' {
            MoveRight();
          } else if chunk[2] == 'D' {
            MoveLeft();
          }
          var len := Length();
          r := Continue(cmd[..len], cur);
        }
      } else if chunk[0] == DEL && cur > 0 {
        Backspace();
        var len := Length();
        r := Continue(cmd[..len], cur);
      } else {
        Insert(chunk);
        var len := Length();
        r := Continue(cmd[..len], cur);
      }
    }
  }
}
