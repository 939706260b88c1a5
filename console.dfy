/**
 * The console: the keyboard line buffer and its flags (keyboard.c), the
 * terminal read buffer and the three saved terminals (terminal.c), and the
 * helpers of lib.c that act on them (keyboard_buffer_reset, reset, putc,
 * backspace, puts, scrolling, update_x, update_y). The globals these files
 * share are the fields of one Console object; the byte buffers are arrays
 * allocated once. Of putc, backspace and scrolling the model keeps what they
 * do to the cursor, the enter tracker and the line buffer; the characters
 * drawn into video memory, clear and the video copies are not modelled.
 */
module Console {
  import opened Types
  import Lib

  const BUF_SIZE := 128
  const NUM_COLS := 80
  const NUM_ROWS := 25
  /** TERMINAL_MAXNUM / TERMINAL_NUM: the number of terminals. */
  const TERMINAL_COUNT := 3
  /** MAX_TER_INDEX: the number of entries terminal_init sets up. */
  const INIT_TERMINALS := 2
  /** enter_flag's value in the text-editing mode, where scrolling edits the line buffer. */
  const TEXT_MODE := -1

  /** A saved terminal (`ter_info`), without its screen copy. */
  datatype TermInfo = TermInfo(index: int, kbBuf: seq<byte>, readBuf: seq<byte>,
                               cursorX: int, cursorY: int, state: int)

  function BlankTerminal(i: int): TermInfo
  {
    TermInfo(i, Zeros(BUF_SIZE), Zeros(BUF_SIZE), 0, 0, 0)
  }

  /**
   * The cursor rule of update_x (bound 80) and update_y (bound 25): a value
   * strictly between 0 and the bound is kept, a negative one becomes 0, and 0
   * or a value at or past the bound becomes the screen maximum.
   */
  function Clamp(v: int, bound: int, maxV: int): (r: int)
    requires bound > 0
    ensures 0 < v < bound ==> r == v
    ensures v < 0 ==> r == 0
    ensures v == 0 || v >= bound ==> r == maxV
    ensures r == v || r == 0 || r == maxV
  {
    if v < bound && v > 0 then v else if v < 0 then 0 else maxV
  }

  // ------------------------------------------------------------ Enter

  /**
   * The read buffer after Enter: the keyboard buffer with '\n' stored at the
   * position and NUL after it when that still lies inside the buffer; a full
   * buffer is copied as it is.
   */
  function EnterLine(kb: seq<byte>, pos: nat): (r: seq<byte>)
    requires |kb| == BUF_SIZE && pos <= BUF_SIZE
    ensures |r| == BUF_SIZE
    ensures pos < BUF_SIZE ==> r[..pos] == kb[..pos] && r[pos] == NEWLINE
    ensures pos + 1 < BUF_SIZE ==> r[pos + 1] == NUL && r[pos + 2..] == kb[pos + 2..]
    ensures pos == BUF_SIZE ==> r == kb
  {
    if pos == BUF_SIZE then kb
    else if pos + 1 < BUF_SIZE then kb[..pos] + [NEWLINE, NUL] + kb[pos + 2..]
    else kb[..pos] + [NEWLINE]
  }

  /** `ter_read_buf_size` after Enter. */
  function EnterSize(pos: nat): (size: nat)
    requires pos <= BUF_SIZE
    ensures size <= BUF_SIZE && (pos < BUF_SIZE ==> size == pos + 1)
  {
    if pos < BUF_SIZE then pos + 1 else BUF_SIZE
  }

  /**
   * The read-buffer indices keyboard_buffer_edit writes after its copy, as
   * written: the position and the one after it whenever the position is
   * below 128.
   */
  function EnterWritesAsWritten(pos: nat): (w: set<nat>)
    ensures pos < BUF_SIZE ==> pos in w && pos + 1 in w
    ensures pos >= BUF_SIZE ==> w == {}
  {
    if pos < BUF_SIZE then {pos, pos + 1} else {}
  }

  /** With 127 characters typed, the terminator lands at index 128, one past the buffer. */
  lemma EnterOverrunsAsWritten()
    ensures BUF_SIZE in EnterWritesAsWritten(BUF_SIZE - 1)
  {
  }

  // ------------------------------------------------------------ terminal_read

  /** How many bytes terminal_read copies: up to the first NUL, `nbytes` or 128 bytes. */
  function ReadCount(read: seq<byte>, nbytes: int): (i: nat)
    requires |read| == BUF_SIZE
    ensures i <= BUF_SIZE && i <= Max(nbytes, 0)
    ensures forall j :: 0 <= j < i ==> read[j] != NUL
    ensures i < BUF_SIZE && i < nbytes ==> read[i] == NUL
  {
    Lib.StrnLen(read, Min(Max(nbytes, 0), BUF_SIZE))
  }

  /**
   * The caller's buffer after terminal_read as written: the copied bytes, then
   * NUL one place past them, at buf[i + 1].
   */
  function ReadOutAsWritten(buf: seq<byte>, read: seq<byte>, nbytes: int): (r: seq<byte>)
    requires |read| == BUF_SIZE && ReadCount(read, nbytes) + 1 < |buf|
    ensures |r| == |buf|
  {
    var i := ReadCount(read, nbytes);
    (read[..i] + buf[i..])[i + 1 := NUL]
  }

  /**
   * Reading the line "hi\n" into an 8-byte buffer of 'x' leaves 'x' right after
   * the line, so the string the caller sees is not the line that was read.
   */
  lemma ReadOutAsWrittenUnterminated()
    ensures var read := [104 as byte, 105, NEWLINE] + Zeros(BUF_SIZE - 3);
      var buf := Repeat(120 as byte, 8);
      ReadCount(read, 8) == 3 &&
      var out := ReadOutAsWritten(buf, read, 8);
      out[3] == 120 && NUL in out && Lib.CString(out) != read[..3]
  {
    var read := [104 as byte, 105, NEWLINE] + Zeros(BUF_SIZE - 3);
    var buf := Repeat(120 as byte, 8);
    assert ReadCount(read, 8) == 3 by {
      assert read[3] == NUL;
    }
    var out := ReadOutAsWritten(buf, read, 8);
    assert out[4] == NUL;
    assert |Lib.CString(out)| != 3 by {
      if Lib.Strlen(out) == 3 {
        assert out[3] == NUL;
      }
    }
  }

  /**
   * The caller's buffer after terminal_read as intended: the copied bytes,
   * then NUL right after them when that still lies within `nbytes`.
   */
  function ReadOut(buf: seq<byte>, read: seq<byte>, nbytes: int): (r: seq<byte>)
    requires |read| == BUF_SIZE && Max(nbytes, 0) <= |buf|
    ensures |r| == |buf|
    ensures var i := ReadCount(read, nbytes);
      r[..i] == read[..i] && forall j :: i < j < |buf| ==> r[j] == buf[j]
    ensures var i := ReadCount(read, nbytes);
      i < |buf| ==> r[i] == (if i < nbytes then NUL else buf[i])
  {
    var i := ReadCount(read, nbytes);
    if i < nbytes then (read[..i] + buf[i..])[i := NUL] else read[..i] + buf[i..]
  }

  /**
   * When the copy stops before `nbytes`, the caller's buffer holds exactly the
   * line that was read, as a NUL-terminated string.
   */
  lemma ReadOutTerminated(buf: seq<byte>, read: seq<byte>, nbytes: int)
    requires |read| == BUF_SIZE && Max(nbytes, 0) <= |buf|
    requires ReadCount(read, nbytes) < nbytes
    ensures NUL in ReadOut(buf, read, nbytes)
    ensures Lib.CString(ReadOut(buf, read, nbytes)) == read[..ReadCount(read, nbytes)]
  {
    var i := ReadCount(read, nbytes);
    var out := ReadOut(buf, read, nbytes);
    assert out[i] == NUL;
    assert out[..i] == read[..i];
  }

  /**
   * Enter followed by terminal_read: a typed line without NUL bytes comes back
   * as the line plus '\n', and the read returns its length.
   */
  lemma EnterThenRead(kb: seq<byte>, pos: nat, nbytes: int)
    requires |kb| == BUF_SIZE && pos + 1 < BUF_SIZE && pos < nbytes < 0x8000_0000
    requires forall j :: 0 <= j < pos ==> kb[j] != NUL
    ensures ReadCount(EnterLine(kb, pos), nbytes) == pos + 1
    ensures EnterLine(kb, pos)[..pos + 1] == kb[..pos] + [NEWLINE]
    ensures !(U32(EnterSize(pos)) > U32(nbytes))
  {
    var line := EnterLine(kb, pos);
    assert line[pos + 1] == NUL;
  }

  // ------------------------------------------------------------ scrolling

  /** The first '\n' at index `from` or later among the first 80 bytes, or 80. */
  function NewlineFrom(kb: seq<byte>, from: nat): (k: nat)
    requires |kb| == BUF_SIZE && from <= NUM_COLS
    decreases NUM_COLS - from
    ensures from <= k <= NUM_COLS
    ensures k < NUM_COLS ==> kb[k] == NEWLINE
    ensures forall j :: from <= j < k ==> kb[j] != NEWLINE
  {
    if from == NUM_COLS then NUM_COLS
    else if kb[from] == NEWLINE then from
    else NewlineFrom(kb, from + 1)
  }

  /**
   * How many bytes a scroll drops from the front of the line buffer: through
   * the first '\n' of the first screen row, or the whole row of 80 when it
   * holds none.
   */
  function ScrollCut(kb: seq<byte>): (cut: nat)
    requires |kb| == BUF_SIZE
    ensures 1 <= cut <= NUM_COLS
    ensures cut < NUM_COLS || kb[cut - 1] == NEWLINE || forall j :: 0 <= j < NUM_COLS ==> kb[j] != NEWLINE
    ensures forall j :: 0 <= j < cut - 1 ==> kb[j] != NEWLINE
  {
    var k := NewlineFrom(kb, 0);
    if k < NUM_COLS then k + 1 else NUM_COLS
  }

  /** The scan of scroll: one past the first '\n' among the first 80 bytes, or 80. */
  method LineCut(kb: array<byte>) returns (cut: nat)
    requires kb.Length == BUF_SIZE
    ensures cut == ScrollCut(kb[..])
  {
    var index := 0;
    var found := false;
    while index < NUM_COLS
      invariant 0 <= index <= NUM_COLS
      invariant NewlineFrom(kb[..], 0) == NewlineFrom(kb[..], index)
    {
      if kb[index] == NEWLINE {
        found := true;
        break;
      }
      index := index + 1;
    }
    cut := if found then index + 1 else NUM_COLS;
  }

  /**
   * The position after a scroll as written: the cut is subtracted from the
   * 8-bit position without a check.
   */
  function ScrollPosAsWritten(pos: nat, cut: nat): (p: nat)
    ensures p < 256
    ensures pos >= cut ==> pos - cut < 256 ==> p == pos - cut
  {
    (pos - cut) % 256
  }

  /**
   * Ten characters typed and no '\n' in the first row: the position wraps to
   * 186, past the 128-byte buffer, and the next add stores out of bounds.
   */
  lemma ScrollPosAsWrittenWraps()
    ensures ScrollPosAsWritten(10, NUM_COLS) == 186 > BUF_SIZE
  {
  }

  /** The position after a scroll as intended: what is left of the typed line, never below 0. */
  function ScrollPos(pos: nat, cut: nat): (p: nat)
    ensures p <= pos
    ensures pos >= cut ==> p + cut == pos
    ensures pos < cut ==> p == 0
  {
    if pos >= cut then pos - cut else 0
  }

  /**
   * After a scroll the buffer starts with the typed characters that follow the
   * dropped part, and the position counts exactly those.
   */
  lemma ScrollKeepsRest(kb: seq<byte>, pos: nat)
    requires |kb| == BUF_SIZE && pos <= BUF_SIZE
    ensures var cut := ScrollCut(kb); var p := ScrollPos(pos, cut);
      var shifted := kb[cut..] + Zeros(cut);
      p <= BUF_SIZE && shifted[..p] == (if pos >= cut then kb[cut..pos] else [])
  {
    var cut := ScrollCut(kb);
    var shifted := kb[cut..] + Zeros(cut);
    if pos >= cut {
      assert shifted[..pos - cut] == kb[cut..][..pos - cut];
      assert kb[cut..][..pos - cut] == kb[cut..pos];
    }
  }

  /**
   * Shifts the array left by `cut`, filling the vacated tail with `fill`: the
   * in-place copy both branches of scrolling perform on the line buffer, and
   * the one-row shift of enter_tracker.
   */
  method ShiftOut<T>(a: array<T>, cut: nat, fill: T)
    requires 1 <= cut
    modifies a
    ensures cut <= a.Length ==> a[..] == old(a[..])[cut..] + Repeat(fill, cut)
    ensures cut > a.Length ==> a[..] == Repeat(fill, a.Length)
  {
    var i := 0;
    while i < a.Length
      invariant 0 <= i <= a.Length
      invariant forall j :: 0 <= j < i ==> a[j] == (if j + cut < a.Length then old(a[j + cut]) else fill)
      invariant forall j :: i <= j < a.Length ==> a[j] == old(a[j])
    {
      if i + cut < a.Length {
        a[i] := a[i + cut];
      } else {
        a[i] := fill;
      }
      i := i + 1;
    }
  }

  // ------------------------------------------------------------ putc, backspace, puts

  /** The carriage return, which putc treats like '\n'. */
  const CR: byte := 13

  predicate IsLineEnd(c: byte) { c == NEWLINE || c == CR }

  /**
   * The part of the console state that putc, backspace and scrolling change:
   * the cursor, `enter_tracker`, the line buffer and its position, and the
   * first-scroll flag. Drawing into video memory is not part of it.
   */
  datatype Screen = Screen(x: int, y: int, tracker: seq<nat>, kb: seq<byte>, pos: nat, firstScroll: nat)

  /**
   * What that state keeps: the cursor on the 80x25 screen, the buffers at full
   * size, and each tracker entry either 0 (no Enter on that row) or the column
   * where Enter was pressed plus OFFSET.
   */
  predicate ScreenOk(s: Screen, offset: nat)
  {
    0 <= s.x < NUM_COLS && 0 <= s.y < NUM_ROWS && |s.tracker| == NUM_ROWS && |s.kb| == BUF_SIZE &&
    s.pos <= BUF_SIZE &&
    forall r :: 0 <= r < NUM_ROWS ==> s.tracker[r] == 0 || offset <= s.tracker[r] < offset + NUM_COLS
  }

  /** The state reset leaves: the cursor home, the line buffer and the tracker cleared. */
  function Home(firstScroll: nat): Screen
  {
    Screen(0, 0, Repeat(0, NUM_ROWS), Zeros(BUF_SIZE), 0, firstScroll)
  }

  /**
   * What scrolling does to that state. Outside the text-editing mode,
   * nothing. In it the tracker moves up one row; the first scroll only
   * records that it happened, later ones drop ScrollCut bytes from the front
   * of the line buffer and lower the position to match, never below 0.
   */
  function ScrollSpec(s: Screen, enterFlag: int): (r: Screen)
    requires |s.kb| == BUF_SIZE && |s.tracker| == NUM_ROWS
    ensures r.x == s.x && r.y == s.y && |r.kb| == BUF_SIZE && |r.tracker| == NUM_ROWS && r.pos <= s.pos
    ensures enterFlag != TEXT_MODE ==> r == s
    ensures enterFlag == TEXT_MODE ==> r.tracker == s.tracker[1..] + [0] && r.firstScroll != 0
    ensures enterFlag == TEXT_MODE && s.firstScroll == 0 ==> r.kb == s.kb && r.pos == s.pos
  {
    if enterFlag != TEXT_MODE then s
    else if s.firstScroll == 0 then s.(tracker := s.tracker[1..] + [0], firstScroll := 1)
    else
      var cut := ScrollCut(s.kb);
      s.(kb := s.kb[cut..] + Zeros(cut), pos := ScrollPos(s.pos, cut), tracker := s.tracker[1..] + [0])
  }

  /** A scroll keeps the cursor, the buffer sizes and the tracker entries well formed. */
  lemma ScrollKeepsOk(s: Screen, enterFlag: int, offset: nat)
    requires ScreenOk(s, offset)
    ensures ScreenOk(ScrollSpec(s, enterFlag), offset)
  {
    var r := ScrollSpec(s, enterFlag);
    if enterFlag == TEXT_MODE {
      assert forall i :: 0 <= i < NUM_ROWS - 1 ==> r.tracker[i] == s.tracker[i + 1];
    }
  }

  /**
   * What putc does to that state. A line end records the column (plus OFFSET)
   * in the row's tracker entry and moves to the start of the next row, or
   * scrolls on the last row. Another character moves one column right, or at
   * the last column to the start of the next row, scrolling on the last row.
   * Only a scroll touches the line buffer.
   */
  function PutcSpec(s: Screen, c: byte, enterFlag: int, offset: nat): (r: Screen)
    requires ScreenOk(s, offset)
    ensures ScreenOk(r, offset) && r.pos <= s.pos
    ensures IsLineEnd(c) || s.x == NUM_COLS - 1 ==> r.x == 0 && r.y == Min(s.y + 1, NUM_ROWS - 1)
    ensures !IsLineEnd(c) && s.x < NUM_COLS - 1 ==> r == s.(x := s.x + 1)
    ensures IsLineEnd(c) && s.y < NUM_ROWS - 1 ==> r.tracker == s.tracker[s.y := s.x + offset]
    ensures !IsLineEnd(c) && s.y < NUM_ROWS - 1 ==> r.tracker == s.tracker
    ensures s.y < NUM_ROWS - 1 || (!IsLineEnd(c) && s.x < NUM_COLS - 1) ==>
      r.kb == s.kb && r.pos == s.pos && r.firstScroll == s.firstScroll
  {
    if IsLineEnd(c) then
      var t := s.(tracker := s.tracker[s.y := s.x + offset]);
      if s.y == NUM_ROWS - 1 then
        ScrollKeepsOk(t, enterFlag, offset);
        ScrollSpec(t, enterFlag).(x := 0)
      else t.(x := 0, y := s.y + 1)
    else if s.x < NUM_COLS - 1 then s.(x := s.x + 1)
    else if s.y < NUM_ROWS - 1 then s.(x := 0, y := s.y + 1)
    else
      ScrollKeepsOk(s, enterFlag, offset);
      ScrollSpec(s, enterFlag).(x := 0)
  }

  /**
   * What backspace does to that state. At the top-left corner, nothing.
   * Inside a row, one column back. At the start of a row, up to the row
   * above: in the text-editing mode, when that row ended with Enter, to the
   * column the tracker recorded, whose entry is then cleared; otherwise to
   * its last column. The line buffer is not touched.
   */
  function BackspaceSpec(s: Screen, enterFlag: int, offset: nat): (r: Screen)
    requires ScreenOk(s, offset)
    ensures ScreenOk(r, offset)
    ensures r.kb == s.kb && r.pos == s.pos && r.firstScroll == s.firstScroll
    ensures s.x == 0 && s.y == 0 ==> r == s
    ensures s.x > 0 ==> r == s.(x := s.x - 1)
    ensures s.x == 0 && s.y > 0 ==> r.y == s.y - 1
    ensures s.x == 0 && s.y > 0 && enterFlag == TEXT_MODE && s.tracker[s.y - 1] != 0 ==>
      r.x + offset == s.tracker[s.y - 1] && r.tracker == s.tracker[s.y - 1 := 0]
    ensures s.x == 0 && s.y > 0 && !(enterFlag == TEXT_MODE && s.tracker[s.y - 1] != 0) ==>
      r.x == NUM_COLS - 1 && r.tracker == s.tracker
  {
    if s.x == 0 && s.y == 0 then s
    else if s.x > 0 then s.(x := s.x - 1)
    else if enterFlag == TEXT_MODE && s.tracker[s.y - 1] != 0 then
      s.(x := s.tracker[s.y - 1] - offset, y := s.y - 1, tracker := s.tracker[s.y - 1 := 0])
    else s.(x := NUM_COLS - 1, y := s.y - 1)
  }

  /**
   * Backspace takes back an ordinary character putc has just drawn, unless
   * that scrolled or wrapped onto a row after one that ended with Enter in
   * the text-editing mode: everything is as before.
   */
  lemma BackspaceUndoesPutc(s: Screen, c: byte, enterFlag: int, offset: nat)
    requires ScreenOk(s, offset) && !IsLineEnd(c)
    requires s.x < NUM_COLS - 1 || (s.y < NUM_ROWS - 1 && (enterFlag != TEXT_MODE || s.tracker[s.y] == 0))
    ensures BackspaceSpec(PutcSpec(s, c, enterFlag, offset), enterFlag, offset) == s
  {
  }

  /**
   * In the text-editing mode, backspace takes back an Enter putc has just
   * drawn above the last row: the cursor goes back to where Enter was
   * pressed and the row's tracker entry is clear again.
   */
  lemma BackspaceUndoesEnter(s: Screen, c: byte, offset: nat)
    requires ScreenOk(s, offset) && offset > 0 && IsLineEnd(c) && s.y < NUM_ROWS - 1 && s.tracker[s.y] == 0
    ensures BackspaceSpec(PutcSpec(s, c, TEXT_MODE, offset), TEXT_MODE, offset) == s
  {
    assert s.tracker[s.y := s.x + offset][s.y := 0] == s.tracker;
  }

  /** What puts does to that state: putc for each byte before the first NUL. */
  function PutsSpec(s: Screen, msg: seq<byte>, enterFlag: int, offset: nat): (r: Screen)
    requires ScreenOk(s, offset)
    ensures ScreenOk(r, offset) && r.pos <= s.pos
    decreases |msg|
  {
    if msg == [] || msg[0] == NUL then s
    else PutsSpec(PutcSpec(s, msg[0], enterFlag, offset), msg[1..], enterFlag, offset)
  }

  /** Printing a NUL-free text and then more is printing the two in turn. */
  lemma {:induction false} PutsConcat(s: Screen, a: seq<byte>, b: seq<byte>, enterFlag: int, offset: nat)
    requires ScreenOk(s, offset) && NUL !in a
    decreases |a|
    ensures PutsSpec(s, a + b, enterFlag, offset) == PutsSpec(PutsSpec(s, a, enterFlag, offset), b, enterFlag, offset)
  {
    if a == [] {
      assert a + b == b;
    } else {
      assert (a + b)[1..] == a[1..] + b;
      PutsConcat(PutcSpec(s, a[0], enterFlag, offset), a[1..], b, enterFlag, offset);
    }
  }

  /** Characters that are neither NUL nor line ends and fit in the row only move the cursor along it. */
  lemma {:induction false} PutsAlongRow(s: Screen, msg: seq<byte>, enterFlag: int, offset: nat)
    requires ScreenOk(s, offset) && s.x + |msg| < NUM_COLS
    requires forall i :: 0 <= i < |msg| ==> msg[i] != NUL && !IsLineEnd(msg[i])
    decreases |msg|
    ensures PutsSpec(s, msg, enterFlag, offset) == s.(x := s.x + |msg|)
  {
    if msg != [] {
      PutsAlongRow(PutcSpec(s, msg[0], enterFlag, offset), msg[1..], enterFlag, offset);
    }
  }

  /** putc applied to every byte in turn, NUL included, as terminal_write does. */
  function PutAll(s: Screen, bytes: seq<byte>, enterFlag: int, offset: nat): (r: Screen)
    requires ScreenOk(s, offset)
    ensures ScreenOk(r, offset) && r.pos <= s.pos
    decreases |bytes|
  {
    if bytes == [] then s
    else PutAll(PutcSpec(s, bytes[0], enterFlag, offset), bytes[1..], enterFlag, offset)
  }

  /** On NUL-free bytes, terminal_write's output and puts agree. */
  lemma {:induction false} PutAllIsPuts(s: Screen, bytes: seq<byte>, enterFlag: int, offset: nat)
    requires ScreenOk(s, offset) && NUL !in bytes
    decreases |bytes|
    ensures PutAll(s, bytes, enterFlag, offset) == PutsSpec(s, bytes, enterFlag, offset)
  {
    if bytes != [] {
      PutAllIsPuts(PutcSpec(s, bytes[0], enterFlag, offset), bytes[1..], enterFlag, offset);
    }
  }

  /** The column terminal_boot's message reaches before its newline: "terminal N booted." */
  const BOOT_COLUMN := 18

  /** The text of terminal_boot's message, "terminal N booted.", N counting from 1. */
  function BootText(index: nat): (t: seq<byte>)
    requires index < TERMINAL_COUNT
    ensures |t| == BOOT_COLUMN && forall i :: 0 <= i < |t| ==> t[i] != NUL && !IsLineEnd(t[i])
  {
    Str("terminal ") + [(49 + index) as byte] + Str(" booted.")
  }

  /** What terminal_boot prints: its text and a newline. */
  function BootMessage(index: nat): seq<byte>
    requires index < TERMINAL_COUNT
  {
    BootText(index) + [NEWLINE]
  }

  /**
   * On a cleared screen the boot message leaves the cursor at the start of
   * row 1 with Enter recorded at column 18 of row 0, and the line buffer as
   * it was.
   */
  lemma BootMessageShown(index: nat, firstScroll: nat, enterFlag: int, offset: nat)
    requires index < TERMINAL_COUNT
    ensures PutsSpec(Home(firstScroll), BootMessage(index), enterFlag, offset) ==
      Home(firstScroll).(y := 1, tracker := Repeat(0, NUM_ROWS)[0 := BOOT_COLUMN + offset])
  {
    var s := Home(firstScroll);
    var text := BootText(index);
    PutsConcat(s, text, [NEWLINE], enterFlag, offset);
    PutsAlongRow(s, text, enterFlag, offset);
    var t := s.(x := BOOT_COLUMN);
    assert PutsSpec(t, [NEWLINE], enterFlag, offset) == PutcSpec(t, NEWLINE, enterFlag, offset) by {
      assert [NEWLINE][1..] == [];
    }
  }

  /** What terminal_boot prints when the shell it started returns -1. */
  const SHELL_FAILED: seq<byte> := Str("return from first shell : -1. \n")

  /**
   * keyboard_buffer_edit's add as a whole: putc draws the character, which may
   * scroll the line, and it is then stored at the resulting position, which
   * advances; a full buffer takes nothing.
   */
  function AddSpec(s: Screen, data: byte, enterFlag: int, offset: nat): (r: Screen)
    requires ScreenOk(s, offset)
    ensures ScreenOk(r, offset)
    ensures s.pos == BUF_SIZE ==> r == s
    ensures s.pos < BUF_SIZE ==>
      var p := PutcSpec(s, data, enterFlag, offset);
      r.pos == p.pos + 1 && r.kb[..r.pos] == p.kb[..p.pos] + [data] && r.kb[r.pos..] == p.kb[r.pos..] &&
      r.x == p.x && r.y == p.y && r.tracker == p.tracker
  {
    if s.pos == BUF_SIZE then s
    else
      var p := PutcSpec(s, data, enterFlag, offset);
      p.(kb := p.kb[p.pos := data], pos := p.pos + 1)
  }

  /** keyboard_buffer_edit's delete as a whole: backspace, then the last stored byte cleared; an empty buffer loses nothing. */
  function DeleteSpec(s: Screen, enterFlag: int, offset: nat): (r: Screen)
    requires ScreenOk(s, offset)
    ensures ScreenOk(r, offset)
    ensures s.pos == 0 ==> r == s
    ensures s.pos > 0 ==>
      var b := BackspaceSpec(s, enterFlag, offset);
      r.pos == s.pos - 1 && r.kb == s.kb[s.pos - 1 := NUL] && r.x == b.x && r.y == b.y && r.tracker == b.tracker
  {
    if s.pos == 0 then s
    else
      var b := BackspaceSpec(s, enterFlag, offset);
      b.(kb := b.kb[s.pos - 1 := NUL], pos := s.pos - 1)
  }

  /**
   * Typing a character into an empty slot and deleting it again restores the
   * console, unless the character scrolled the screen or wrapped onto a row
   * after one that ended with Enter in the text-editing mode.
   */
  lemma DeleteUndoesAdd(s: Screen, data: byte, enterFlag: int, offset: nat)
    requires ScreenOk(s, offset) && !IsLineEnd(data) && s.pos < BUF_SIZE && s.kb[s.pos] == NUL
    requires s.x < NUM_COLS - 1 || (s.y < NUM_ROWS - 1 && (enterFlag != TEXT_MODE || s.tracker[s.y] == 0))
    ensures DeleteSpec(AddSpec(s, data, enterFlag, offset), enterFlag, offset) == s
  {
    BackspaceUndoesPutc(s, data, enterFlag, offset);
    assert s.kb[s.pos := data][s.pos := NUL] == s.kb;
  }

  /**
   * The outcome of terminal_switch. It either returns, or, for a terminal that
   * was never booted, stops at terminal_boot's start of a shell: the rest of
   * the switch (FinishSwitch) runs only once that shell has returned.
   */
  datatype SwitchOutcome = Switched(r: int) | ShellLaunched

  // ------------------------------------------------------------ terminal_switch guard

  /**
   * terminal_switch's guard as written: only an index above 3 is refused, so
   * 3 and negative indices get through.
   */
  function SwitchRefusesAsWritten(idx: int): (refused: bool)
    ensures refused <==> idx > TERMINAL_COUNT
  {
    idx > TERMINAL_COUNT
  }

  /** Index 3 and index -1 pass the written guard, though neither names one of the three terminals. */
  lemma SwitchGuardAsWrittenAdmits()
    ensures !SwitchRefusesAsWritten(TERMINAL_COUNT) && !(0 <= TERMINAL_COUNT < TERMINAL_COUNT)
    ensures !SwitchRefusesAsWritten(-1)
  {
  }

  /** terminal_switch's guard as intended: exactly the indices of the terminal array get through. */
  function SwitchRefuses(idx: int): (refused: bool)
    ensures !refused <==> 0 <= idx < TERMINAL_COUNT
  {
    idx < 0 || idx >= TERMINAL_COUNT
  }

  // ------------------------------------------------------------ the globals

  class Console {
    /** MAX_X and MAX_Y of lib.h, the cursor update_x and update_y fall back to. */
    const maxX: int
    const maxY: int
    /** OFFSET of lib.h, added to a column in enter_tracker so that column 0 is told from "no Enter". */
    const offset: nat

    var capFlag: int
    var shiftFlag: int
    var controlFlag: int
    var altFlag: int
    /** 0 in the normal mode, -1 in the text-editing mode. */
    var enterFlag: int
    var crossEnter: int
    var rtcTestMode: int
    var rtcCount: nat

    /** `keyboard_buffer` and `kb_buffer_position`. */
    const kbBuf: array<byte>
    var kbPos: nat
    /** `ter_read_buffer`, `ter_read_buf_size`, `ter_read_indicator`. */
    const readBuf: array<byte>
    var readBufSize: nat
    var readIndicator: nat
    /** `enter_tracker`, one entry per screen row. */
    const enterTracker: array<nat>
    var firstScroll: nat
    var screenX: int
    var screenY: int
    /** `terminal_array` and `current_terminal_idx`. */
    const terminals: array<TermInfo>
    var currentTerminal: nat

    /** The screen-side globals as one value. */
    function ScreenState(): Screen
      reads this, kbBuf, enterTracker
    {
      Screen(screenX, screenY, enterTracker[..], kbBuf[..], kbPos, firstScroll)
    }

    ghost predicate Valid()
      reads this, terminals, kbBuf, enterTracker
    {
      kbBuf.Length == BUF_SIZE && readBuf.Length == BUF_SIZE && kbBuf != readBuf &&
      enterTracker.Length == NUM_ROWS && terminals.Length == TERMINAL_COUNT &&
      0 <= maxX < NUM_COLS && 0 <= maxY < NUM_ROWS && offset > 0 &&
      ScreenOk(ScreenState(), offset) && readBufSize <= BUF_SIZE && currentTerminal < TERMINAL_COUNT &&
      forall t :: 0 <= t < TERMINAL_COUNT ==> |terminals[t].kbBuf| == BUF_SIZE && |terminals[t].readBuf| == BUF_SIZE
    }

    /** The zero-initialised globals. */
    constructor(maxX: int, maxY: int, offset: nat)
      requires 0 <= maxX < NUM_COLS && 0 <= maxY < NUM_ROWS && offset > 0
      ensures Valid() && this.maxX == maxX && this.maxY == maxY && this.offset == offset
      ensures ScreenState() == Home(0) && readBuf[..] == Zeros(BUF_SIZE)
      ensures currentTerminal == 0 && enterFlag == 0 && crossEnter == 0
      ensures forall t :: 0 <= t < TERMINAL_COUNT ==> terminals[t] == BlankTerminal(0)
    {
      this.maxX, this.maxY, this.offset := maxX, maxY, offset;
      capFlag, shiftFlag, controlFlag, altFlag := 0, 0, 0, 0;
      enterFlag, crossEnter, rtcTestMode, rtcCount := 0, 0, 0, 0;
      kbBuf := new byte[BUF_SIZE](_ => NUL);
      readBuf := new byte[BUF_SIZE](_ => NUL);
      enterTracker := new nat[NUM_ROWS](_ => 0);
      terminals := new TermInfo[TERMINAL_COUNT](_ => BlankTerminal(0));
      kbPos, readBufSize, readIndicator, firstScroll := 0, 0, 0, 0;
      screenX, screenY, currentTerminal := 0, 0, 0;
    }

    /**
     * keyboard_init: clears every modifier flag, sets the RTC test counter to
     * 1, and empties the line buffer and the enter tracker.
     */
    method KeyboardInit()
      requires Valid()
      modifies this`capFlag, this`shiftFlag, this`controlFlag, this`altFlag, this`enterFlag,
               this`crossEnter, this`rtcTestMode, this`rtcCount, this`kbPos, this`firstScroll,
               kbBuf, enterTracker
      ensures Valid()
      ensures capFlag == 0 && shiftFlag == 0 && controlFlag == 0 && altFlag == 0
      ensures enterFlag == 0 && crossEnter == 0 && rtcTestMode == 0 && rtcCount == 1
      ensures kbBuf[..] == Zeros(BUF_SIZE) && kbPos == 0 && firstScroll == 0
      ensures enterTracker[..] == Repeat(0, NUM_ROWS)
    {
      SetFlags();
      BufferReset();
      ClearTracker();
      kbPos := 0;
      firstScroll := 0;
    }

    /** The flag settings keyboard_init starts with. */
    method SetFlags()
      modifies this`capFlag, this`shiftFlag, this`controlFlag, this`altFlag, this`enterFlag,
               this`crossEnter, this`rtcTestMode, this`rtcCount
      ensures capFlag == 0 && shiftFlag == 0 && controlFlag == 0 && altFlag == 0
      ensures enterFlag == 0 && crossEnter == 0 && rtcTestMode == 0 && rtcCount == 1
    {
      capFlag, shiftFlag, controlFlag, altFlag := 0, 0, 0, 0;
      enterFlag, crossEnter, rtcTestMode, rtcCount := 0, 0, 0, 1;
    }

    /** keyboard_buffer_reset: empties the line buffer. */
    method BufferReset()
      requires Valid()
      modifies kbBuf, this`kbPos
      ensures Valid()
      ensures kbBuf[..] == Zeros(BUF_SIZE) && kbPos == 0
    {
      var i := 0;
      while i < BUF_SIZE
        invariant 0 <= i <= BUF_SIZE
        invariant forall j :: 0 <= j < i ==> kbBuf[j] == NUL
      {
        kbBuf[i] := NUL;
        i := i + 1;
      }
      kbPos := 0;
    }

    /** reset: homes the cursor and empties the line buffer and the enter tracker. */
    method Reset()
      requires Valid()
      modifies this`screenX, this`screenY, kbBuf, enterTracker, this`kbPos
      ensures Valid()
      ensures ScreenState() == Home(firstScroll)
    {
      screenX, screenY := 0, 0;
      BufferReset();
      ClearTracker();
      kbPos := 0;
    }

    /** The enter-tracker clearing loop of keyboard_init and reset. */
    method ClearTracker()
      requires Valid()
      modifies enterTracker
      ensures Valid()
      ensures enterTracker[..] == Repeat(0, NUM_ROWS)
    {
      var i := 0;
      while i < NUM_ROWS
        invariant 0 <= i <= NUM_ROWS
        invariant forall j :: 0 <= j < i ==> enterTracker[j] == 0
      {
        enterTracker[i] := 0;
        i := i + 1;
      }
    }

    /** update_x. */
    method UpdateX(x: int)
      modifies this`screenX
      ensures screenX == Clamp(x, NUM_COLS, maxX)
    {
      if x < NUM_COLS && x > 0 {
        screenX := x;
        return;
      } else if x < 0 {
        screenX := 0;
      } else {
        screenX := maxX;
      }
    }

    /** update_y. */
    method UpdateY(y: int)
      modifies this`screenY
      ensures screenY == Clamp(y, NUM_ROWS, maxY)
    {
      if y < NUM_ROWS && y > 0 {
        screenY := y;
        return;
      } else if y < 0 {
        screenY := 0;
      } else {
        screenY := maxY;
      }
    }

    /**
     * putc, without the drawing: a line end records its column in the enter
     * tracker and moves to the next row; another character moves one column
     * on, wrapping to the next row; on the last row both scroll instead of
     * moving down.
     */
    method Putc(c: byte)
      requires Valid()
      modifies this`screenX, this`screenY, enterTracker, this`firstScroll, kbBuf, this`kbPos
      ensures Valid()
      ensures ScreenState() == PutcSpec(old(ScreenState()), c, enterFlag, offset)
    {
      if IsLineEnd(c) {
        enterTracker[screenY] := screenX + offset;
        if screenY == NUM_ROWS - 1 {
          Scroll();
          screenX := 0;
        } else {
          screenY := screenY + 1;
          screenX := 0;
        }
      } else if screenX < NUM_COLS - 1 {
        screenX := screenX + 1;
      } else if screenY < NUM_ROWS - 1 {
        screenX := 0;
        screenY := screenY + 1;
      } else {
        // The row is lowered for the drawing and raised again, so only the column changes.
        Scroll();
        screenX := 0;
      }
    }

    /**
     * backspace, without the drawing: one column back, or up to the end of
     * the row above, which in the text-editing mode is where Enter was pressed
     * on it when the tracker recorded one; nothing at the top-left corner.
     */
    method Backspace()
      requires Valid()
      modifies this`screenX, this`screenY, enterTracker
      ensures Valid()
      ensures ScreenState() == BackspaceSpec(old(ScreenState()), enterFlag, offset)
    {
      if screenY == 0 && screenX == 0 {
        return;
      }
      if screenX > 0 {
        screenX := screenX - 1;
      } else if enterFlag == TEXT_MODE && enterTracker[screenY - 1] != 0 {
        var xOffset := enterTracker[screenY - 1] - offset;
        screenY := screenY - 1;
        var x := NUM_COLS - 1;
        while x != xOffset
          invariant xOffset <= x < NUM_COLS
          decreases x - xOffset
        {
          x := x - 1;
        }
        screenX := x;
        enterTracker[screenY] := 0;
      } else {
        screenX := NUM_COLS - 1;
        screenY := screenY - 1;
      }
    }

    /**
     * puts (and the output of printf once its conversions are done): putc for
     * each byte up to the first NUL, returning how many were written.
     */
    method Print(msg: seq<byte>) returns (count: nat)
      requires Valid()
      modifies this`screenX, this`screenY, enterTracker, this`firstScroll, kbBuf, this`kbPos
      ensures Valid()
      ensures count <= |msg| && NUL !in msg[..count] && (count < |msg| ==> msg[count] == NUL)
      ensures ScreenState() == PutsSpec(old(ScreenState()), msg, enterFlag, offset)
    {
      count := 0;
      while count < |msg| && msg[count] != NUL
        invariant 0 <= count <= |msg| && NUL !in msg[..count]
        invariant Valid()
        invariant PutsSpec(ScreenState(), msg[count..], enterFlag, offset) == PutsSpec(old(ScreenState()), msg, enterFlag, offset)
      {
        assert msg[count..][1..] == msg[count + 1..];
        assert msg[..count + 1] == msg[..count] + [msg[count]];
        Putc(msg[count]);
        count := count + 1;
      }
    }

    /**
     * terminal_write: putc for each of the first `nbytes` bytes of `buf`, NUL
     * or not; returns the loop counter plus one, so `nbytes + 1` for a
     * non-negative count and 1 otherwise. `emitted` is the bytes drawn.
     */
    method TerminalWrite(buf: seq<byte>, nbytes: int) returns (r: int, emitted: seq<byte>)
      requires Valid() && nbytes <= |buf|
      modifies this`screenX, this`screenY, enterTracker, this`firstScroll, kbBuf, this`kbPos
      ensures Valid()
      ensures emitted == buf[..Max(nbytes, 0)]
      ensures r == Max(nbytes, 0) + 1
      ensures ScreenState() == PutAll(old(ScreenState()), emitted, enterFlag, offset)
    {
      var i := 0;
      emitted := [];
      while i < nbytes
        invariant 0 <= i <= Max(nbytes, 0)
        invariant emitted == buf[..i]
        invariant Valid()
        invariant PutAll(ScreenState(), buf[i..Max(nbytes, 0)], enterFlag, offset) ==
          PutAll(old(ScreenState()), buf[..Max(nbytes, 0)], enterFlag, offset)
      {
        assert buf[i..Max(nbytes, 0)][1..] == buf[i + 1..Max(nbytes, 0)];
        Putc(buf[i]);
        emitted := emitted + [buf[i]];
        i := i + 1;
      }
      r := i + 1;
    }

    /**
     * keyboard_buffer_edit. Indicator 1 draws `data` with putc and adds it to
     * the line unless the buffer is full; 0 takes the cursor back with
     * backspace and deletes the last character unless the buffer is empty; 2
     * is reset; 3 is Enter, which hands the line to a waiting terminal_read
     * (the '\n' terminator is written only while it fits), empties the buffer
     * and draws the newline. Any other indicator does nothing.
     */
    method BufferEdit(indicator: byte, data: byte)
      requires Valid()
      modifies kbBuf, this`kbPos, readBuf, this`readBufSize, this`crossEnter,
               this`screenX, this`screenY, enterTracker, this`firstScroll
      ensures Valid()
      ensures indicator == 1 ==> ScreenState() == AddSpec(old(ScreenState()), data, enterFlag, offset)
      ensures indicator == 0 ==> ScreenState() == DeleteSpec(old(ScreenState()), enterFlag, offset)
      ensures indicator == 2 ==> ScreenState() == Home(old(firstScroll))
      ensures indicator == 3 ==>
        ScreenState() == PutcSpec(old(ScreenState()).(kb := Zeros(BUF_SIZE), pos := 0), NEWLINE, enterFlag, offset)
      ensures indicator == 3 && readIndicator == 1 ==>
        readBuf[..] == EnterLine(old(kbBuf[..]), old(kbPos)) && readBufSize == EnterSize(old(kbPos)) &&
        crossEnter == 1
      ensures !(indicator == 3 && readIndicator == 1) ==>
        readBuf[..] == old(readBuf[..]) && readBufSize == old(readBufSize) && crossEnter == old(crossEnter)
      ensures indicator > 3 ==> ScreenState() == old(ScreenState())
    {
      if indicator == 1 {
        if kbPos == BUF_SIZE {
          return;
        } else {
          Putc(data);
          kbBuf[kbPos] := data;
          kbPos := kbPos + 1;
        }
      } else if indicator == 0 {
        if kbPos == 0 {
          return;
        } else {
          Backspace();
          kbPos := kbPos - 1;
          kbBuf[kbPos] := NUL;
        }
      } else if indicator == 2 {
        Reset();
      } else if indicator == 3 {
        if readIndicator == 1 {
          CopyLine();
          crossEnter := 1;
        }
        BufferReset();
        Putc(NEWLINE);
      }
    }

    /** The copy of Enter: the line, its '\n' and, when it fits, the NUL after it. */
    method CopyLine()
      requires Valid()
      modifies readBuf, this`readBufSize
      ensures Valid()
      ensures readBuf[..] == EnterLine(kbBuf[..], kbPos) && readBufSize == EnterSize(kbPos)
    {
      var i := 0;
      while i < BUF_SIZE
        invariant 0 <= i <= BUF_SIZE
        invariant readBuf[..i] == kbBuf[..i]
      {
        readBuf[i] := kbBuf[i];
        i := i + 1;
      }
      assert readBuf[..] == kbBuf[..];
      if kbPos < BUF_SIZE {
        readBuf[kbPos] := NEWLINE;
        if kbPos + 1 < BUF_SIZE {
          readBuf[kbPos + 1] := NUL;
        }
        readBufSize := kbPos + 1;
      } else {
        readBufSize := BUF_SIZE;
      }
    }

    /**
     * The line-buffer and tracker part of scrolling. Outside the text-editing
     * mode it does nothing. The first scroll in that mode only records that it
     * happened; later ones drop the first screen row's worth of the line
     * (through its '\n', or 80 bytes) and lower the position to match; every
     * scroll in that mode moves the enter tracker up one row.
     */
    method Scroll()
      requires Valid()
      modifies this`firstScroll, kbBuf, this`kbPos, enterTracker
      ensures Valid()
      ensures ScreenState() == ScrollSpec(old(ScreenState()), enterFlag)
    {
      ghost var before := ScreenState();
      if enterFlag == TEXT_MODE {
        if firstScroll == 0 {
          firstScroll := 1;
        } else {
          var cut := LineCut(kbBuf);
          ShiftOut(kbBuf, cut, NUL);
          assert Repeat(NUL, cut) == Zeros(cut);
          kbPos := if kbPos >= cut then kbPos - cut else 0;
        }
        ShiftOut(enterTracker, 1, 0);
      }
      ScrollKeepsOk(before, enterFlag, offset);
    }

    /**
     * terminal_read after its wait for Enter. Outside the normal mode it
     * returns -1 (having raised the read indicator). Otherwise it copies the
     * line into `buf`, terminates it when there is room, and returns `nbytes`
     * when the line was longer than that (the size compared as an unsigned
     * number), or the count copied.
     */
    method TerminalRead(buf: array<byte>, nbytes: int) returns (r: int)
      requires Valid() && buf != kbBuf && buf != readBuf
      requires Max(nbytes, 0) <= buf.Length
      modifies this`readIndicator, this`crossEnter, buf
      ensures Valid()
      ensures old(enterFlag) != 0 ==>
        r == -1 && readIndicator == 1 && buf[..] == old(buf[..]) && crossEnter == old(crossEnter)
      ensures old(enterFlag) == 0 ==>
        var i := ReadCount(readBuf[..], nbytes);
        buf[..] == ReadOut(old(buf[..]), readBuf[..], nbytes) &&
        r == (if readBufSize > U32(nbytes) then nbytes else i) &&
        readIndicator == 0 && crossEnter == 0
    {
      readIndicator := 1;
      if enterFlag == 0 {
        crossEnter := 0;
        var i := CopyRead(readBuf, buf, nbytes);
        if readBufSize > U32(nbytes) {
          r := nbytes;
        } else {
          r := i;
        }
        readIndicator := 0;
      } else {
        r := -1;
      }
    }

    /**
     * terminal_boot up to the start of its shell: the screen state is reset,
     * "terminal N booted." and a newline are printed, the terminal is marked
     * active and becomes current. The execute call that follows returns only
     * once that shell has halted; ShellReturned is what runs then.
     */
    method TerminalBoot(index: nat)
      requires Valid() && index < TERMINAL_COUNT
      modifies this`screenX, this`screenY, kbBuf, enterTracker, this`kbPos, this`firstScroll,
               this`currentTerminal, terminals
      ensures Valid()
      ensures terminals[..] == old(terminals[..])[index := old(terminals[index]).(state := 1)]
      ensures currentTerminal == index
      ensures ScreenState() == PutsSpec(Home(old(firstScroll)), BootMessage(index), enterFlag, offset)
      ensures screenX == 0 && screenY == 1 && kbPos == 0 && kbBuf[..] == Zeros(BUF_SIZE)
      ensures enterTracker[..] == Repeat(0, NUM_ROWS)[0 := BOOT_COLUMN + offset] && firstScroll == old(firstScroll)
    {
      Reset();
      var _ := Print(BootMessage(index));
      BootMessageShown(index, old(firstScroll), enterFlag, offset);
      terminals[index] := terminals[index].(state := 1);
      currentTerminal := index;
    }

    /** The end of terminal_boot once its shell has returned `retval`: -1 is reported on the screen. */
    method ShellReturned(retval: int)
      requires Valid()
      modifies this`screenX, this`screenY, enterTracker, this`firstScroll, kbBuf, this`kbPos
      ensures Valid()
      ensures retval == -1 ==> ScreenState() == PutsSpec(old(ScreenState()), SHELL_FAILED, enterFlag, offset)
      ensures retval != -1 ==> ScreenState() == old(ScreenState())
    {
      if retval == -1 {
        var _ := Print(SHELL_FAILED);
      }
    }

    /**
     * terminal_init up to the start of the first shell: sets up entries 0 and
     * 1 (the loop stops at MAX_TER_INDEX, so entry 2 keeps its zero-initialised
     * contents), then boots terminal 0.
     */
    method TerminalInit()
      requires Valid()
      modifies this`screenX, this`screenY, kbBuf, enterTracker, this`kbPos, this`firstScroll,
               this`currentTerminal, terminals
      ensures Valid()
      ensures terminals[0] == BlankTerminal(0).(state := 1)
      ensures terminals[1] == BlankTerminal(1)
      ensures terminals[2] == old(terminals[2])
      ensures currentTerminal == 0 && kbPos == 0 && kbBuf[..] == Zeros(BUF_SIZE)
      ensures screenX == 0 && screenY == 1 && enterTracker[..] == Repeat(0, NUM_ROWS)[0 := BOOT_COLUMN + offset]
    {
      currentTerminal := 0;
      var i := 0;
      while i < INIT_TERMINALS
        invariant 0 <= i <= INIT_TERMINALS
        invariant Valid()
        invariant forall j :: 0 <= j < i ==> terminals[j] == BlankTerminal(j)
        invariant terminals[2] == old(terminals[2])
      {
        terminals[i] := BlankTerminal(i);
        i := i + 1;
      }
      TerminalBoot(0);
    }

    /** The restore loop of terminal_switch: the saved line and read buffers are copied back. */
    method RestoreBuffers(t: TermInfo)
      requires Valid() && |t.kbBuf| == BUF_SIZE && |t.readBuf| == BUF_SIZE
      modifies kbBuf, readBuf
      ensures kbBuf[..] == t.kbBuf && readBuf[..] == t.readBuf
    {
      var i := 0;
      while i < BUF_SIZE
        invariant 0 <= i <= BUF_SIZE
        invariant kbBuf[..i] == t.kbBuf[..i] && readBuf[..i] == t.readBuf[..i]
      {
        kbBuf[i] := t.kbBuf[i];
        readBuf[i] := t.readBuf[i];
        i := i + 1;
      }
    }

    /**
     * terminal_switch with the intended guard. An index outside 0..2 gives -1;
     * the current index gives 0. Otherwise the line and read buffers and the
     * cursor are saved into the current terminal's entry and the screen state
     * is reset. A target never booted is booted, and the switch stops at the
     * start of its shell (ShellLaunched): the rest, FinishSwitch, runs only
     * once that shell returns. A booted target is finished at once.
     */
    method TerminalSwitch(idx: int) returns (o: SwitchOutcome)
      requires Valid()
      modifies this`screenX, this`screenY, kbBuf, readBuf, enterTracker, this`kbPos, this`firstScroll,
               this`currentTerminal, terminals
      ensures Valid()
      ensures o == Switched(-1) <==> SwitchRefuses(idx)
      ensures o.ShellLaunched? <==>
        !SwitchRefuses(idx) && idx != old(currentTerminal) && old(terminals[idx]).state == 0
      ensures SwitchRefuses(idx) || idx == old(currentTerminal) ==>
        unchanged(this) && unchanged(kbBuf) && unchanged(readBuf) && unchanged(enterTracker) &&
        unchanged(terminals)
      ensures !SwitchRefuses(idx) && idx == old(currentTerminal) ==> o == Switched(0)
      ensures !SwitchRefuses(idx) && idx != old(currentTerminal) ==>
        var from := old(currentTerminal);
        currentTerminal == idx && firstScroll == old(firstScroll) &&
        terminals[from] == old(terminals[from]).(kbBuf := old(kbBuf[..]), readBuf := old(readBuf[..]),
                                                 cursorX := old(screenX), cursorY := old(screenY)) &&
        (forall t :: 0 <= t < TERMINAL_COUNT && t != from && t != idx ==> terminals[t] == old(terminals[t]))
      ensures o.ShellLaunched? ==>
        terminals[idx] == old(terminals[idx]).(state := 1) && readBuf[..] == old(readBuf[..]) &&
        ScreenState() == PutsSpec(Home(old(firstScroll)), BootMessage(idx), enterFlag, offset)
      ensures !SwitchRefuses(idx) && idx != old(currentTerminal) && old(terminals[idx]).state != 0 ==>
        var target := old(terminals[idx]);
        o == Switched(0) && terminals[idx] == target &&
        kbBuf[..] == target.kbBuf && readBuf[..] == target.readBuf && kbPos == 0 &&
        screenX == Clamp(target.cursorX, NUM_COLS, maxX) && screenY == Clamp(target.cursorY, NUM_ROWS, maxY) &&
        enterTracker[..] == Repeat(0, NUM_ROWS)
    {
      if SwitchRefuses(idx) {
        return Switched(-1);
      }
      if idx == currentTerminal {
        return Switched(0);
      }
      var from := currentTerminal;
      var savedKb := kbBuf[..];
      var savedRead := readBuf[..];
      terminals[from] := terminals[from].(kbBuf := savedKb, readBuf := savedRead,
                                          cursorX := screenX, cursorY := screenY);
      Reset();
      if terminals[idx].state == 0 {
        TerminalBoot(idx);
        return ShellLaunched;
      }
      FinishSwitch(idx);
      return Switched(0);
    }

    /**
     * The end of terminal_switch: the target's saved line and read buffers are
     * copied back, it becomes current, and its saved cursor is clamped back in
     * place.
     */
    method FinishSwitch(idx: nat)
      requires Valid() && idx < TERMINAL_COUNT
      modifies kbBuf, readBuf, this`currentTerminal, this`screenX, this`screenY
      ensures Valid()
      ensures currentTerminal == idx
      ensures kbBuf[..] == terminals[idx].kbBuf && readBuf[..] == terminals[idx].readBuf
      ensures screenX == Clamp(terminals[idx].cursorX, NUM_COLS, maxX)
      ensures screenY == Clamp(terminals[idx].cursorY, NUM_ROWS, maxY)
    {
      var target := terminals[idx];
      RestoreBuffers(target);
      currentTerminal := idx;
      UpdateX(target.cursorX);
      UpdateY(target.cursorY);
    }
  }

  /**
   * Switching to another booted terminal and back restores the line and read
   * buffers, but not the line position, which is 0 on return, and a cursor
   * in column or row 0 comes back at the screen maximum.
   */
  method SwitchAwayAndBack(con: Console, other: nat)
    requires con.Valid() && other < TERMINAL_COUNT && other != con.currentTerminal
    requires con.terminals[other].state != 0 && con.terminals[con.currentTerminal].state != 0
    modifies con`screenX, con`screenY, con.kbBuf, con.readBuf, con.enterTracker, con`kbPos, con`firstScroll,
             con`currentTerminal, con.terminals
    ensures con.Valid()
    ensures con.currentTerminal == old(con.currentTerminal)
    ensures con.kbBuf[..] == old(con.kbBuf[..]) && con.readBuf[..] == old(con.readBuf[..]) && con.kbPos == 0
    ensures con.screenX == Clamp(old(con.screenX), NUM_COLS, con.maxX)
    ensures con.screenY == Clamp(old(con.screenY), NUM_ROWS, con.maxY)
  {
    var home := con.currentTerminal;
    var o := con.TerminalSwitch(other);
    o := con.TerminalSwitch(home);
  }

  /**
   * The copy of terminal_read: bytes of the line buffer up to its first NUL,
   * `nbytes` or 128 bytes, then a NUL when the copy stopped before `nbytes`.
   */
  method CopyRead(read: array<byte>, buf: array<byte>, nbytes: int) returns (i: nat)
    requires read != buf && read.Length == BUF_SIZE && Max(nbytes, 0) <= buf.Length
    modifies buf
    ensures i == ReadCount(read[..], nbytes)
    ensures buf[..] == ReadOut(old(buf[..]), read[..], nbytes)
  {
    i := 0;
    while i < nbytes && i < BUF_SIZE && read[i] != NUL
      invariant 0 <= i <= Min(Max(nbytes, 0), BUF_SIZE)
      invariant forall j :: 0 <= j < i ==> read[j] != NUL && buf[j] == read[j]
      invariant forall j :: i <= j < buf.Length ==> buf[j] == old(buf[j])
    {
      buf[i] := read[i];
      i := i + 1;
    }
    ReadStops(read[..], nbytes, i);
    ghost var copied := buf[..];
    if i < nbytes {
      buf[i] := NUL;
    }
    CopiedLine(old(buf[..]), copied, buf[..], read[..], nbytes, i);
  }

  /** Where the copy loop of terminal_read stops is the count it reads. */
  lemma ReadStops(read: seq<byte>, nbytes: int, i: nat)
    requires |read| == BUF_SIZE && i <= Min(Max(nbytes, 0), BUF_SIZE)
    requires forall j :: 0 <= j < i ==> read[j] != NUL
    requires !(i < nbytes && i < BUF_SIZE && read[i] != NUL)
    ensures i == ReadCount(read, nbytes)
  {
  }

  /** The copied bytes, the terminator where there is room, and the rest untouched make ReadOut. */
  lemma CopiedLine(before: seq<byte>, copied: seq<byte>, after: seq<byte>, read: seq<byte>, nbytes: int, i: nat)
    requires |read| == BUF_SIZE && Max(nbytes, 0) <= |before| == |copied|
    requires i == ReadCount(read, nbytes)
    requires forall j :: 0 <= j < i ==> copied[j] == read[j]
    requires forall j :: i <= j < |copied| ==> copied[j] == before[j]
    requires after == if i < nbytes then copied[i := NUL] else copied
    ensures after == ReadOut(before, read, nbytes)
  {
    assert copied == read[..i] + before[i..];
  }
}
