/**
 * The system calls of syscall.c and the process state they share: the slot
 * bitmap, the running-task count, the current slot, the six process control
 * blocks (one at the bottom of each 8 KB kernel stack), the user window of the
 * page directory and the kernel stack pointer of the TSS. The operation
 * tables of the open files become a `FileKind`, and each call through a
 * table becomes a call of the modelled driver routine.
 */
module Syscall {
  import opened Types
  import Lib
  import Command
  import FileSys
  import Paging
  import Console
  import Rtc
  import Sche
  import Idt

  const MAX_TASKS := 6          // MAXNUMTASK
  const MAX_OPEN_FILES := 8     // MAXOPENFILE
  const EXE_BUF_SIZE := 30      // EXEBUFSIZE: the header execute reads first, and getargbuf
  const CMD_LENGTH := 20        // CMDLENGTH: first_cmd, the program name
  const ARG_MAX_LEN := 128      // ARGMAXLEN: arg_line, the copy of the command
  const ARG_LENGTH := 100       // the PCB's arg_buffer
  const NAME_ENTRY := 32        // the size of one file_names entry
  const ENTRY_POS := 24         // the entry point is header bytes 24..27, least significant first
  const MAGIC: seq<byte> := [0x7F, 0x45, 0x4C, 0x46]
  const VIDMAP_INDEX := 34      // VIDMAPNEW
  const VIDMAP_LOW := 0x0800_0000   // OTEMBVIR
  const VIDMAP_HIGH := 0x0840_0000  // OTTMBVIR
  const VIDMAP_VIRT := 0x0880_0000  // OTSMBVIR, the user address of the video page
  const ABNORMAL_STATUS := 256  // what execute reports for a task ended by an exception

  const STDIN_NAME: seq<byte> := Str("stdin") + [NUL]
  const STDOUT_NAME: seq<byte> := Str("stdout") + [NUL]
  const SHELL_NAME: seq<byte> := Str("shell") + [NUL]

  /**
   * Which operation table an open file uses. Stdin has only a read routine
   * (terminal_read), Stdout only a write routine (terminal_write); the RTC,
   * directory and regular-file tables have all four.
   */
  datatype FileKind = Stdin | Stdout | RtcDev | Directory | Regular

  predicate HasRead(k: FileKind) { k != Stdout }
  predicate HasWrite(k: FileKind) { k != Stdin }
  predicate HasClose(k: FileKind) { k != Stdin && k != Stdout }

  /** One `file_array` entry: table, inode, position, in-use flag. */
  datatype FdEntry = FdEntry(table: Option<FileKind>, inode: Option<nat>, filePos: int, inUse: bool)

  const EMPTY_FD := FdEntry(None, None, 0, false)

  /**
   * A process control block. A file-name entry is modelled by its leading
   * bytes, at most 32 of them: up to and including its first NUL, or all 32
   * when it holds none. The 100-byte argument buffer is modelled by the bytes
   * it holds up to and including its first NUL; the saved stack pointers are
   * not modelled.
   */
  datatype Pcb = Pcb(
    fds: seq<FdEntry>,
    fileNames: seq<seq<byte>>,
    openFileNum: int,
    argBuffer: seq<byte>,
    pid: int,
    parentId: int,
    running: bool)

  /** A PCB after `memset(pcb, 0, sizeof(pcb_t))`. */
  const ZERO_PCB := Pcb(Repeat(EMPTY_FD, MAX_OPEN_FILES), Repeat([NUL], MAX_OPEN_FILES), 0, [NUL], 0, 0, false)

  /** The shape every PCB keeps; an fd not in use is a cleared entry. */
  predicate PcbOk(p: Pcb)
  {
    |p.fds| == MAX_OPEN_FILES && |p.fileNames| == MAX_OPEN_FILES &&
    (forall k :: 0 <= k < MAX_OPEN_FILES ==> |p.fileNames[k]| <= NAME_ENTRY) &&
    (forall k :: 0 <= k < MAX_OPEN_FILES && !p.fds[k].inUse ==> p.fds[k] == EMPTY_FD) &&
    NUL in p.argBuffer && 0 <= p.pid < MAX_TASKS && -1 <= p.parentId < MAX_TASKS
  }

  /** The value of four bytes read as a little-endian 32-bit word. */
  function Le32(b: seq<byte>): (v: nat)
    requires |b| == 4
    ensures v < 0x1_0000_0000
  {
    b[0] as nat + 0x100 * b[1] as nat + 0x1_0000 * b[2] as nat + 0x100_0000 * b[3] as nat
  }

  /** The four bytes of a 32-bit word, least significant first. */
  function Le32Bytes(v: nat): (b: seq<byte>)
    requires v < 0x1_0000_0000
    ensures |b| == 4
  {
    [(v % 0x100) as byte, (v / 0x100 % 0x100) as byte, (v / 0x1_0000 % 0x100) as byte, (v / 0x100_0000) as byte]
  }

  /** Reading a word back from its bytes gives the word, and the bytes back from the word. */
  lemma Le32RoundTrip(v: nat, b: seq<byte>)
    requires v < 0x1_0000_0000 && |b| == 4
    ensures Le32(Le32Bytes(v)) == v
    ensures Le32Bytes(Le32(b)) == b
  {
    WordOfBytes(v);
    BytesOfWord(b);
  }

  lemma WordOfBytes(v: nat)
    requires v < 0x1_0000_0000
    ensures Le32(Le32Bytes(v)) == v
  {
    var q1 := v / 0x100;
    var q2 := q1 / 0x100;
    var q3 := q2 / 0x100;
    assert v == v % 0x100 + 0x100 * q1;
    assert q1 == q1 % 0x100 + 0x100 * q2;
    assert q2 == q2 % 0x100 + 0x100 * q3;
    assert v / 0x1_0000 == q2 && v / 0x100_0000 == q3;
  }

  lemma BytesOfWord(b: seq<byte>)
    requires |b| == 4
    ensures Le32Bytes(Le32(b)) == b
  {
    var b0, b1, b2, b3 := b[0] as nat, b[1] as nat, b[2] as nat, b[3] as nat;
    var hi := b1 + 0x100 * (b2 + 0x100 * b3);
    var w := Le32(b);
    assert w == b0 + 0x100 * hi;
    assert w % 0x100 == b0 && w / 0x100 == hi;
    assert hi % 0x100 == b1 && hi / 0x100 == b2 + 0x100 * b3;
    assert w / 0x1_0000 == hi / 0x100;
    assert w / 0x100_0000 == (b2 + 0x100 * b3) / 0x100;
  }

  /** The entry point execute reads from bytes 24..27 of the header (EXEEIP4POS .. EXEEIP1POS). */
  function EntryPoint(header: seq<byte>): (addr: nat)
    requires |header| == EXE_BUF_SIZE
    ensures addr < 0x1_0000_0000
    ensures Le32Bytes(addr) == header[ENTRY_POS..ENTRY_POS + 4]
  {
    Le32RoundTrip(0, header[ENTRY_POS..ENTRY_POS + 4]);
    Le32(header[ENTRY_POS..ENTRY_POS + 4])
  }

  /** The status execute returns for `halt(status)`: 255 (used by the exception handlers) becomes 256. */
  function ExitStatus(status: byte): (r: nat)
    ensures r == ABNORMAL_STATUS <==> status == 255
    ensures status != 255 ==> r == status as nat
    ensures r <= ABNORMAL_STATUS
  {
    if status == 255 then ABNORMAL_STATUS else status as nat
  }

  /** Every exit status the parent can see comes from exactly one halt status. */
  lemma ExitStatusInjective(s1: byte, s2: byte)
    requires ExitStatus(s1) == ExitStatus(s2)
    ensures s1 == s2
  {
  }

  /**
   * A task ended by an exception handler (which halts with 255) is reported to
   * its parent as 256, a value no ordinary halt status produces.
   */
  lemma ExceptionReportsAbnormal(h: Idt.Handler, status: byte)
    requires h.Exception?
    ensures Idt.HaltStatus(h).Some? && Idt.HaltStatus(h).value < 256
    ensures ExitStatus(Idt.HaltStatus(h).value as byte) == ABNORMAL_STATUS
    ensures status as nat != Idt.EXCEPTION_STATUS ==> ExitStatus(status) != ABNORMAL_STATUS
  {
  }

  /** The 32-bit slot number the paging code is given for slot `slot`. */
  function SlotWord(slot: nat): (w: bv32)
    requires slot < MAX_TASKS
    ensures w < 6 && w as nat == slot
  {
    if slot == 0 then 0 else if slot == 1 then 1 else if slot == 2 then 2
    else if slot == 3 then 3 else if slot == 4 then 4 else 5
  }

  /** The lowest free slot of the bitmap, or -1 when all six are taken. */
  function LowestFree(bitmap: seq<bool>): (r: int)
    requires |bitmap| == MAX_TASKS
    ensures -1 <= r < MAX_TASKS
    ensures r == -1 <==> forall k :: 0 <= k < MAX_TASKS ==> bitmap[k]
    ensures r >= 0 ==> !bitmap[r] && forall k :: 0 <= k < r ==> bitmap[k]
  {
    FreeFrom(bitmap, 0)
  }

  function FreeFrom(bitmap: seq<bool>, i: nat): (r: int)
    requires |bitmap| == MAX_TASKS && i <= MAX_TASKS
    decreases MAX_TASKS - i
    ensures -1 <= r < MAX_TASKS
    ensures r == -1 <==> forall k :: i <= k < MAX_TASKS ==> bitmap[k]
    ensures r >= 0 ==> i <= r && !bitmap[r] && forall k :: i <= k < r ==> bitmap[k]
  {
    if i == MAX_TASKS then -1 else if !bitmap[i] then i else FreeFrom(bitmap, i + 1)
  }

  // ------------------------------------------------------------------ execute

  /** How the checks of execute before any state changes end. */
  datatype ExecCheck =
    | BadCommand                                  // NULL command, or six tasks already running
    | TooLong                                     // the command does not fit execute's buffers
    | NotFound                                    // no directory entry for the program name
    | Unreadable                                  // the header read returned -1 or 0
    | NotExecutable                               // the header does not start with the magic bytes
    | Loadable(dentry: FileSys.Dentry, header: seq<byte>)

  /**
   * The 30-byte header buffer after read_data has filled its first `r` bytes;
   * the rest is whatever the uninitialised stack buffer held.
   */
  function HeaderAfterRead(img: FileSys.Image, inode: nat, uninit: seq<byte>): (h: seq<byte>)
    requires FileSys.WellFormed(img) && |uninit| == EXE_BUF_SIZE
    requires FileSys.ReadDataResult(img, inode, 0, EXE_BUF_SIZE) >= 0
    ensures |h| == EXE_BUF_SIZE
  {
    var r := FileSys.ReadDataResult(img, inode, 0, EXE_BUF_SIZE);
    FileSys.FileBytes(img, inode, 0, r) + uninit[r..]
  }

  /** The header checks of execute for the entry `d`: the 30-byte read, then the magic bytes. */
  function HeaderCheck(img: FileSys.Image, d: FileSys.Dentry, uninit: seq<byte>): (c: ExecCheck)
    requires FileSys.WellFormed(img) && |uninit| == EXE_BUF_SIZE
    ensures c.Unreadable? || c.NotExecutable? || c.Loadable?
    ensures c.Unreadable? <==> FileSys.ReadDataResult(img, d.inode, 0, EXE_BUF_SIZE) <= 0
    ensures c.Loadable? ==>
      c.dentry == d && d.inode < img.inodeCount &&
      FileSys.ReadDataResult(img, d.inode, 0, EXE_BUF_SIZE) > 0 &&
      c.header == HeaderAfterRead(img, d.inode, uninit) && c.header[..4] == MAGIC
    ensures c.NotExecutable? ==> HeaderAfterRead(img, d.inode, uninit)[..4] != MAGIC
  {
    var r := FileSys.ReadDataResult(img, d.inode, 0, EXE_BUF_SIZE);
    if r == -1 || r == 0 then Unreadable
    else
      var header := HeaderAfterRead(img, d.inode, uninit);
      if header[..4] != MAGIC then NotExecutable else Loadable(d, header)
  }

  /**
   * Whether a command fits the stack buffers execute copies it into, each with
   * its terminator: the line in arg_line (128 bytes), the program name in
   * first_cmd (20) and the arguments in getargbuf (30).
   */
  predicate CommandFits(command: seq<byte>)
    requires NUL in command
  {
    Lib.Strlen(command) < ARG_MAX_LEN && |Command.ProgramName(command)| < CMD_LENGTH &&
    |Command.ArgString(command)| < EXE_BUF_SIZE
  }

  /** The lookup of the program name, then the header checks of its entry. */
  function LookupCheck(img: FileSys.Image, command: seq<byte>, uninit: seq<byte>): (c: ExecCheck)
    requires FileSys.WellFormed(img) && |uninit| == EXE_BUF_SIZE && NUL in command
    ensures !c.BadCommand? && !c.TooLong?
    ensures c.NotFound? <==> FileSys.LookupIndex(img, Command.ProgramName(command) + [NUL]) < 0
  {
    var k := FileSys.LookupIndex(img, Command.ProgramName(command) + [NUL]);
    if k < 0 then NotFound else HeaderCheck(img, img.dentries[k], uninit)
  }

  /**
   * The checks of execute as written: after the command and task count it goes
   * straight to the lookup, whatever the length of the line, the name or the
   * arguments it has copied.
   */
  function PrecheckAsWritten(img: FileSys.Image, command: Option<seq<byte>>, runn: nat, uninit: seq<byte>): (c: ExecCheck)
    requires FileSys.WellFormed(img) && |uninit| == EXE_BUF_SIZE
    requires command.Some? ==> NUL in command.value
    ensures !c.TooLong?
    ensures c == BadCommand <==> command.None? || runn >= MAX_TASKS
  {
    if command.None? || runn >= MAX_TASKS then BadCommand else LookupCheck(img, command.value, uninit)
  }

  /**
   * The written checks let a program name of 20 or more characters through to
   * the lookup, though it was copied into the 20-byte first_cmd without room
   * for its terminator, and likewise 30 or more argument characters, copied
   * into the 30-byte getargbuf. The corrected checks refuse both.
   */
  lemma ExecOverrunsAsWritten(img: FileSys.Image, runn: nat, uninit: seq<byte>, name: seq<byte>, args: seq<byte>)
    requires FileSys.WellFormed(img) && |uninit| == EXE_BUF_SIZE && runn < MAX_TASKS
    requires name != [] && SPACE !in name && NUL !in name
    requires NUL !in args && (args == [] || args[0] != SPACE)
    requires |name| >= CMD_LENGTH || |args| >= EXE_BUF_SIZE
    ensures var command := name + [SPACE] + args + [NUL];
      PrecheckAsWritten(img, Some(command), runn, uninit) != BadCommand &&
      Command.ProgramName(command) == name && Command.ArgString(command) == args &&
      Precheck(img, Some(command), runn, uninit) == TooLong
  {
    var command := name + [SPACE] + args + [NUL];
    assert Command.Spaces(0) + name + Command.Spaces(1) + args + [NUL] == command;
    Command.SplitOfJoined(0, name, 1, args);
    assert !CommandFits(command);
  }

  /**
   * The checks execute makes before it touches any kernel state: the command
   * and task count, the fit of the command in execute's buffers, the name
   * lookup, the header read and the magic number. Whatever gets past the fit
   * check has every copy inside its buffer.
   */
  function Precheck(img: FileSys.Image, command: Option<seq<byte>>, runn: nat, uninit: seq<byte>): (c: ExecCheck)
    requires FileSys.WellFormed(img) && |uninit| == EXE_BUF_SIZE
    requires command.Some? ==> NUL in command.value
    ensures c == BadCommand <==> command.None? || runn >= MAX_TASKS
    ensures c == TooLong <==> command.Some? && runn < MAX_TASKS && !CommandFits(command.value)
    ensures !c.BadCommand? && !c.TooLong? ==>
      Lib.Strlen(command.value) + 1 <= ARG_MAX_LEN && |Command.ProgramName(command.value)| + 1 <= CMD_LENGTH &&
      |Command.ArgString(command.value)| + 1 <= EXE_BUF_SIZE
    ensures c.NotFound? <==>
      command.Some? && runn < MAX_TASKS && CommandFits(command.value) &&
      FileSys.LookupIndex(img, Command.ProgramName(command.value) + [NUL]) < 0
    ensures c.Unreadable? || c.NotExecutable? || c.Loadable? ==>
      command.Some? && runn < MAX_TASKS &&
      var k := FileSys.LookupIndex(img, Command.ProgramName(command.value) + [NUL]);
      k >= 0 && c == HeaderCheck(img, img.dentries[k], uninit)
  {
    if command.None? || runn >= MAX_TASKS then BadCommand
    else if !CommandFits(command.value) then TooLong
    else LookupCheck(img, command.value, uninit)
  }

  /**
   * The PCB of a task execute has just set up: its slot as process id, the
   * given parent, running, every fd cleared and then fd 0 bound to the
   * terminal's read routine and fd 1 to its write routine, and the argument
   * string in the argument buffer. File names 2..7 are not touched.
   */
  function LaunchedPcb(p: Pcb, slot: nat, parent: int, args: seq<byte>): (r: Pcb)
    requires PcbOk(p) && slot < MAX_TASKS && -1 <= parent < MAX_TASKS && NUL !in args
    ensures PcbOk(r)
    ensures r.pid == slot && r.parentId == parent && r.running && r.openFileNum == 2
    ensures r.fds[0] == FdEntry(Some(Stdin), None, 0, true) && r.fds[1] == FdEntry(Some(Stdout), None, 0, true)
    ensures forall k :: 2 <= k < MAX_OPEN_FILES ==> r.fds[k] == EMPTY_FD
    ensures Lib.CString(r.argBuffer) == args && |r.argBuffer| == |args| + 1
    ensures r.fileNames[0] == STDIN_NAME && r.fileNames[1] == STDOUT_NAME && r.fileNames[2..] == p.fileNames[2..]
  {
    var fds := Repeat(EMPTY_FD, MAX_OPEN_FILES)[0 := FdEntry(Some(Stdin), None, 0, true)][1 := FdEntry(Some(Stdout), None, 0, true)];
    Command.CStringOfTerminated(args);
    Pcb(fds, p.fileNames[0 := STDIN_NAME][1 := STDOUT_NAME], 2, args + [NUL], slot, parent, true)
  }

  // --------------------------------------------------------- open, read, write

  /**
   * The fd the search loop of open settles on: fd 2 if it is free; otherwise
   * -1 when fd 7 is in use; otherwise the first free fd from 3 on.
   */
  function FreeFd(fds: seq<FdEntry>): (fd: int)
    requires |fds| == MAX_OPEN_FILES
    ensures fd == -1 <==> fds[2].inUse && fds[7].inUse
    ensures fd != -1 ==> 2 <= fd < MAX_OPEN_FILES && !fds[fd].inUse && forall k :: 2 <= k < fd ==> fds[k].inUse
  {
    if !fds[2].inUse then 2 else if fds[7].inUse then -1 else FreeFromFd(fds, 3)
  }

  function FreeFromFd(fds: seq<FdEntry>, i: nat): (fd: int)
    requires |fds| == MAX_OPEN_FILES && 3 <= i < MAX_OPEN_FILES && !fds[7].inUse
    decreases MAX_OPEN_FILES - i
    ensures i <= fd < MAX_OPEN_FILES && !fds[fd].inUse && forall k :: i <= k < fd ==> fds[k].inUse
  {
    if !fds[i].inUse then i else FreeFromFd(fds, i + 1)
  }

  /** A free fd between 3 and 6 is missed whenever fds 2 and 7 are both in use. */
  lemma OpenMissesFreeFd()
    ensures var fds := Repeat(FdEntry(None, None, 0, true), MAX_OPEN_FILES)[3 := EMPTY_FD];
      !fds[3].inUse && FreeFd(fds) == -1 && LowestFreeFd(fds, 2) == 3
  {
  }

  /**
   * The search open evidently means: the lowest free fd from `i` up to 7, and
   * -1 exactly when every one of them is in use.
   */
  function LowestFreeFd(fds: seq<FdEntry>, i: nat): (fd: int)
    requires |fds| == MAX_OPEN_FILES && 2 <= i <= MAX_OPEN_FILES
    decreases MAX_OPEN_FILES - i
    ensures fd == -1 <==> forall k :: i <= k < MAX_OPEN_FILES ==> fds[k].inUse
    ensures fd != -1 ==> i <= fd < MAX_OPEN_FILES && !fds[fd].inUse && forall k :: i <= k < fd ==> fds[k].inUse
  {
    if i == MAX_OPEN_FILES then -1
    else if !fds[i].inUse then i
    else LowestFreeFd(fds, i + 1)
  }

  /**
   * The search as written gives the intended fd unless fds 2 and 7 are both in
   * use; then it gives -1, though the intended search finds a free fd among
   * 3..6 whenever there is one.
   */
  lemma FreeFdAgainstLowest(fds: seq<FdEntry>)
    requires |fds| == MAX_OPEN_FILES
    ensures !(fds[2].inUse && fds[7].inUse) ==> FreeFd(fds) == LowestFreeFd(fds, 2)
    ensures fds[2].inUse && fds[7].inUse ==>
      FreeFd(fds) == -1 && (LowestFreeFd(fds, 2) != -1 <==> exists k :: 3 <= k < 7 && !fds[k].inUse)
  {
    if fds[2].inUse && !fds[7].inUse {
      assert FreeFromFd(fds, 3) == LowestFreeFd(fds, 3);
    }
  }

  /**
   * The search loop of open, over fds 2..7: stops at the first free fd, and
   * gives up as soon as it has passed a used fd while fd 7 is in use.
   */
  method FirstFreeFd(fds: seq<FdEntry>) returns (fd: int)
    requires |fds| == MAX_OPEN_FILES
    ensures fd == FreeFd(fds)
  {
    var i := 2;
    while i < MAX_OPEN_FILES
      invariant 2 <= i <= MAX_OPEN_FILES
      invariant forall k :: 2 <= k < i ==> fds[k].inUse
      invariant i > 2 ==> !fds[7].inUse
    {
      if !fds[i].inUse {
        return i;
      }
      if fds[MAX_OPEN_FILES - 1].inUse {
        return -1;
      }
      i := i + 1;
    }
    return -1;
  }

  /** The table open installs for a directory entry's file type 0, 1 or 2. */
  function KindOfType(fileType: nat): (k: Option<FileKind>)
    ensures k.Some? <==> fileType <= 2
    ensures k.Some? ==> HasRead(k.value) && HasWrite(k.value) && HasClose(k.value)
  {
    if fileType == 0 then Some(RtcDev) else if fileType == 1 then Some(Directory)
    else if fileType == 2 then Some(Regular) else None
  }

  /** The C `int32_t` a `uint32_t` return value becomes. */
  function Int32(u: nat): (v: int)
    requires u < 0x1_0000_0000
    ensures U32(v) == u && -0x8000_0000 <= v < 0x8000_0000
  {
    if u < 0x8000_0000 then u else u - 0x1_0000_0000
  }

  // ------------------------------------------------------------------ getargs

  /** getargs as written: refuses a zero `nbytes`, a string longer than `nbytes` (compared unsigned) or an empty one. */
  function GetArgsRefusesAsWritten(argLen: nat, nbytes: int): bool
  {
    nbytes == 0 || argLen > U32(nbytes) || argLen == 0
  }

  /**
   * As written, the check lets a string of exactly `nbytes` characters through,
   * and strcpy then writes its NUL one byte past the buffer; a negative
   * `nbytes` passes as a huge unsigned size.
   */
  lemma GetArgsAsWrittenOverruns()
    ensures !GetArgsRefusesAsWritten(3, 3) && 3 + 1 > 3
    ensures !GetArgsRefusesAsWritten(3, -1)
  {
  }

  /** getargs corrected: the string and its NUL must fit in the `nbytes` bytes. */
  function GetArgsRefuses(argLen: nat, nbytes: int): (refused: bool)
    ensures !refused <==> 0 < argLen && argLen + 1 <= nbytes
  {
    nbytes <= 0 || argLen + 1 > nbytes || argLen == 0
  }

  /** The correction refuses everything the written check refuses, and only the overrunning cases besides. */
  lemma GetArgsCorrectionNarrows(argLen: nat, nbytes: int)
    requires -0x8000_0000 <= nbytes < 0x8000_0000
    ensures GetArgsRefusesAsWritten(argLen, nbytes) ==> GetArgsRefuses(argLen, nbytes)
    ensures GetArgsRefuses(argLen, nbytes) && !GetArgsRefusesAsWritten(argLen, nbytes) ==>
      argLen + 1 > Max(nbytes, 0)
  {
  }

  // ------------------------------------------------------------------- outcomes

  /** Where execute leaves the caller: failed with -1, or about to enter the program at `entry`. */
  datatype ExecOutcome = ExecFailed | Launched(slot: nat, entry: nat)

  /** Where halt leaves the caller: -1, the shell re-entered, or back in the parent's execute. */
  datatype HaltOutcome = HaltFailed | ShellRestarted(entry: nat) | ReturnedToParent(parent: nat, status: nat)

  /** The PCB with fd `fd`'s file position moved on by `delta`, everything else kept. */
  function Advanced(p: Pcb, fd: nat, delta: int): (r: Pcb)
    requires PcbOk(p) && fd < MAX_OPEN_FILES && p.fds[fd].inUse
    ensures PcbOk(r) && r.fds[fd].filePos == p.fds[fd].filePos + delta
    ensures r.fds[fd].(filePos := p.fds[fd].filePos) == p.fds[fd]
    ensures forall k :: 0 <= k < MAX_OPEN_FILES && k != fd ==> r.fds[k] == p.fds[k]
    ensures r.(fds := p.fds) == p
  {
    p.(fds := p.fds[fd := p.fds[fd].(filePos := p.fds[fd].filePos + delta)])
  }

  /**
   * What a terminal read leaves: -1 and the buffer untouched while the line is
   * still being typed (the enter flag set); otherwise the line copied out by
   * terminal_read and its count, or `nbytes` when the line is longer.
   */
  ghost predicate LineRead(enterFlag: int, line: seq<byte>, lineSize: nat, nbytes: int, r: int,
                           before: seq<byte>, after: seq<byte>)
    requires |line| == Console.BUF_SIZE
  {
    (enterFlag != 0 ==> r == -1 && after == before) &&
    (enterFlag == 0 ==>
      Max(nbytes, 0) <= |before| &&
      after == Console.ReadOut(before, line, nbytes) &&
      r == (if lineSize > U32(nbytes) then nbytes else Console.ReadCount(line, nbytes)))
  }

  /**
   * What a regular-file read leaves: -1 and the buffer untouched when `name`
   * finds no entry; otherwise read_data's result from position `pos`, and on
   * success the file's bytes from there at the start of the buffer, the rest
   * of it untouched.
   */
  ghost predicate FileRead(img: FileSys.Image, name: seq<byte>, pos: nat, length: nat, r: int,
                           before: seq<byte>, after: seq<byte>)
    requires FileSys.WellFormed(img) && NUL in name
  {
    var k := FileSys.LookupIndex(img, name);
    (k < 0 ==> r == -1 && after == before) &&
    (k >= 0 ==> r == FileSys.ReadDataResult(img, img.dentries[k].inode, pos, length)) &&
    (k >= 0 && r >= 0 ==>
      r <= |after| && r <= |before| &&
      after[..r] == FileSys.FileBytes(img, img.dentries[k].inode, pos, r) && after[r..] == before[r..])
  }

  /**
   * What a directory read leaves: the listing step under `name` gives the
   * result and the next cursor, and a name it yields fills the first 33 bytes
   * of the buffer, NUL-padded, the rest untouched; otherwise the buffer is
   * untouched.
   */
  ghost predicate ListingRead(img: FileSys.Image, c: FileSys.Cursor, name: seq<byte>, r: int,
                              next: FileSys.Cursor, before: seq<byte>, after: seq<byte>)
    requires FileSys.WellFormed(img) && NUL in name
  {
    var o := FileSys.LsStep(img, c, name);
    r == o.result && next == o.next &&
    (o.name.Some? ==>
      FileSys.LS_BUF_SIZE <= |after| && FileSys.LS_BUF_SIZE <= |before| &&
      after[..FileSys.LS_BUF_SIZE] == o.name.value + Zeros(FileSys.LS_BUF_SIZE - |o.name.value|) &&
      after[FileSys.LS_BUF_SIZE..] == before[FileSys.LS_BUF_SIZE..]) &&
    (o.name.None? ==> after == before)
  }

  /** The kernel's task state and the devices the system calls reach. */
  class Kernel {
    /** `task_bitmap`: which of the six slots hold a task. */
    const taskBitmap: array<bool>
    /** The PCB at the bottom of each slot's kernel stack. */
    const pcbs: array<Pcb>
    const pageDir: array<bv32>
    const pageTab: array<bv32>
    /** The physical address of `page_tab`. */
    const pageTabAddr: bv32
    const fs: FileSys.FileSystem
    const rtc: Rtc.RtcDevice
    /** `runn_task_num`, an 8-bit counter. */
    var runnTaskNum: nat
    /** `curr_task_pos`. */
    var currTaskPos: nat
    /** `tss.esp0`. */
    var tssEsp0: int

    ghost predicate Valid()
      reads this, pcbs
    {
      taskBitmap.Length == MAX_TASKS && pcbs.Length == MAX_TASKS &&
      pageDir.Length == Paging.DIR_SIZE && pageTab.Length == Paging.TAB_SIZE && pageDir != pageTab &&
      runnTaskNum < 256 && currTaskPos < MAX_TASKS &&
      (forall k :: 0 <= k < MAX_TASKS ==> PcbOk(pcbs[k])) &&
      FileSys.WellFormed(fs.img)
    }

    /** The file table of the current task. */
    function CurrentFds(): seq<FdEntry>
      requires Valid()
      reads this, pcbs
    {
      pcbs[currTaskPos].fds
    }

    /** The name a lookup reads from the file-name entry of fd `fd` of the current task. */
    function FdName(fd: nat): (r: seq<byte>)
      requires Valid() && fd < MAX_OPEN_FILES
      reads this, pcbs
      ensures NUL in r
    {
      EntryName(pcbs[currTaskPos].fileNames[fd])
    }

    /** The table an fd of the current task reaches, if the fd is in range, in use and has one. */
    function KindOf(fd: int): (k: Option<FileKind>)
      requires Valid()
      reads this, pcbs
      ensures k.Some? ==> 0 <= fd < MAX_OPEN_FILES && CurrentFds()[fd].inUse
    {
      if 0 <= fd < MAX_OPEN_FILES && CurrentFds()[fd].inUse then CurrentFds()[fd].table else None
    }

    /**
     * The zero-initialised globals: no task, slot 0 current, every PCB zero.
     * The page tables come from init_paging, the devices from their drivers.
     */
    constructor(pageDir: array<bv32>, pageTab: array<bv32>, pageTabAddr: bv32,
                fs: FileSys.FileSystem, rtc: Rtc.RtcDevice)
      requires pageDir.Length == Paging.DIR_SIZE && pageTab.Length == Paging.TAB_SIZE && pageDir != pageTab
      requires fs.Valid()
      ensures Valid() && fresh(taskBitmap) && fresh(pcbs)
      ensures this.pageDir == pageDir && this.pageTab == pageTab && this.pageTabAddr == pageTabAddr
      ensures this.fs == fs && this.rtc == rtc
      ensures taskBitmap[..] == Repeat(false, MAX_TASKS) && pcbs[..] == Repeat(ZERO_PCB, MAX_TASKS)
      ensures runnTaskNum == 0 && currTaskPos == 0
    {
      taskBitmap := new bool[MAX_TASKS](_ => false);
      pcbs := new Pcb[MAX_TASKS](_ => ZERO_PCB);
      this.pageDir, this.pageTab, this.pageTabAddr := pageDir, pageTab, pageTabAddr;
      this.fs, this.rtc := fs, rtc;
      runnTaskNum, currTaskPos, tssEsp0 := 0, 0, 0;
      new;
      assert taskBitmap[..] == Repeat(false, MAX_TASKS);
      assert pcbs[..] == Repeat(ZERO_PCB, MAX_TASKS);
    }

    /** pcb_init: zeroes the PCB of every slot. */
    method PcbInit()
      requires Valid()
      modifies pcbs
      ensures Valid() && pcbs[..] == Repeat(ZERO_PCB, MAX_TASKS)
    {
      for i := 0 to MAX_TASKS
        invariant forall k :: 0 <= k < i ==> pcbs[k] == ZERO_PCB
        invariant forall k :: i <= k < MAX_TASKS ==> pcbs[k] == old(pcbs[k])
      {
        pcbs[i] := ZERO_PCB;
      }
      assert pcbs[..] == Repeat(ZERO_PCB, MAX_TASKS);
    }

    /** The loop execute and halt use to reset all eight fd entries of a PCB. */
    method ClearFds(slot: nat)
      requires Valid() && slot < MAX_TASKS
      modifies pcbs
      ensures Valid()
      ensures pcbs[..] == old(pcbs[..])[slot := old(pcbs[slot]).(fds := Repeat(EMPTY_FD, MAX_OPEN_FILES))]
    {
      for i := 0 to MAX_OPEN_FILES
        invariant Valid()
        invariant pcbs[..] == old(pcbs[..])[slot := pcbs[slot]]
        invariant pcbs[slot] == old(pcbs[slot]).(fds := pcbs[slot].fds)
        invariant pcbs[slot].fds[..i] == Repeat(EMPTY_FD, i) && pcbs[slot].fds[i..] == old(pcbs[slot].fds[i..])
      {
        var p := pcbs[slot];
        pcbs[slot] := p.(fds := p.fds[i := EMPTY_FD]);
        assert pcbs[slot].fds[..i + 1] == pcbs[slot].fds[..i] + [EMPTY_FD];
      }
      assert pcbs[slot].fds == pcbs[slot].fds[..MAX_OPEN_FILES];
    }

    /**
     * The slot search of execute: takes the lowest free slot, marks it used
     * and makes it current. When every slot is taken nothing changes (the
     * source's own give-up test there cannot fire, since execute has already
     * refused six running tasks).
     */
    method AllocateSlot()
      requires Valid()
      modifies taskBitmap, this`currTaskPos
      ensures Valid()
      ensures var k := LowestFree(old(taskBitmap[..]));
        (k >= 0 ==> taskBitmap[..] == old(taskBitmap[..])[k := true] && currTaskPos == k) &&
        (k < 0 ==> taskBitmap[..] == old(taskBitmap[..]) && currTaskPos == old(currTaskPos))
    {
      for i := 0 to MAX_TASKS
        invariant forall k :: 0 <= k < i ==> taskBitmap[k]
        invariant taskBitmap[..] == old(taskBitmap[..]) && currTaskPos == old(currTaskPos)
      {
        if !taskBitmap[i] {
          taskBitmap[i] := true;
          currTaskPos := i;
          return;
        }
      }
    }

    /** Points the user window (directory entry 32) at `slot`'s 4 MB page. */
    method MapUserWindow(slot: nat)
      requires Valid() && slot < MAX_TASKS
      modifies pageDir
      ensures pageDir[..] == old(pageDir[..])[Paging.USER_WINDOW_INDEX := Paging.UserWindowPde(SlotWord(slot))]
    {
      pageDir[Paging.USER_WINDOW_INDEX] := 0;
      pageDir[Paging.USER_WINDOW_INDEX] := Paging.RW_NOT_PRESENT;
      pageDir[Paging.USER_WINDOW_INDEX] := pageDir[Paging.USER_WINDOW_INDEX] | Paging.PAGE_4MB;
      pageDir[Paging.USER_WINDOW_INDEX] := pageDir[Paging.USER_WINDOW_INDEX] | Paging.RW_PRESENT;
      pageDir[Paging.USER_WINDOW_INDEX] := pageDir[Paging.USER_WINDOW_INDEX] | Paging.USER;
      var temp := Paging.TaskFrame(SlotWord(slot)) & Paging.FRAME_MASK;
      pageDir[Paging.USER_WINDOW_INDEX] := pageDir[Paging.USER_WINDOW_INDEX] | temp;
    }

    /** Step 5 and the fd part of step 6 of execute: the new task's PCB. */
    method SetupPcb(slot: nat, parent: int, args: seq<byte>)
      requires Valid() && slot < MAX_TASKS && -1 <= parent < MAX_TASKS && NUL !in args
      modifies pcbs
      ensures Valid()
      ensures pcbs[..] == old(pcbs[..])[slot := LaunchedPcb(old(pcbs[slot]), slot, parent, args)]
    {
      pcbs[slot] := pcbs[slot].(pid := slot, parentId := parent, running := true, openFileNum := 0);
      ClearFds(slot);
      pcbs[slot] := pcbs[slot].(argBuffer := args + [NUL]);
      var p := pcbs[slot];
      pcbs[slot] := p.(fds := p.fds[0 := FdEntry(Some(Stdin), None, 0, true)],
                       fileNames := p.fileNames[0 := STDIN_NAME], openFileNum := p.openFileNum + 1);
      p := pcbs[slot];
      pcbs[slot] := p.(fds := p.fds[1 := FdEntry(Some(Stdout), None, 0, true)],
                       fileNames := p.fileNames[1 := STDOUT_NAME], openFileNum := p.openFileNum + 1);
      assert pcbs[slot] == LaunchedPcb(old(pcbs[slot]), slot, parent, args);
    }
  
    /**
     * Steps 3 to 7 of execute for a program that passed the checks: the slot,
     * the user window, the load of the whole image, then the PCB, the kernel
     * stack pointer and the running-task count.
     */
    method Launch(d: FileSys.Dentry, header: seq<byte>, args: seq<byte>) returns (outcome: ExecOutcome)
      requires Valid() && d.inode < fs.img.inodeCount && |header| == EXE_BUF_SIZE && NUL !in args
      requires runnTaskNum < MAX_TASKS
      modifies this`runnTaskNum, this`currTaskPos, this`tssEsp0, taskBitmap, pcbs, pageDir
      ensures Valid()
      ensures var free := LowestFree(old(taskBitmap[..]));
        var slot := if free >= 0 then free else old(currTaskPos);
        var size := FileSys.DentrySize(fs.img, d);
        currTaskPos == slot &&
        taskBitmap[..] == (if free >= 0 then old(taskBitmap[..])[slot := true] else old(taskBitmap[..])) &&
        pageDir[..] == old(pageDir[..])[Paging.USER_WINDOW_INDEX := Paging.UserWindowPde(SlotWord(slot))] &&
        (FileSys.ReadDataResult(fs.img, d.inode, 0, size) != size ==>
          outcome == ExecFailed && pcbs[..] == old(pcbs[..]) && runnTaskNum == old(runnTaskNum) &&
          tssEsp0 == old(tssEsp0)) &&
        (FileSys.ReadDataResult(fs.img, d.inode, 0, size) == size ==>
          var parent := if slot == 0 && old(runnTaskNum) == 0 then -1 else old(pcbs[currTaskPos]).pid;
          outcome == Launched(slot, EntryPoint(header)) &&
          pcbs[..] == old(pcbs[..])[slot := LaunchedPcb(old(pcbs[slot]), slot, parent, args)] &&
          runnTaskNum == old(runnTaskNum) + 1 && tssEsp0 == Paging.KernelStackTop(slot))
    {
      var caller := pcbs[currTaskPos].pid;
      AllocateSlot();
      MapUserWindow(currTaskPos);
      outcome := LoadAndStart(d, header, args, caller);
    }

    /**
     * The rest of execute once the slot is taken and mapped: the image is
     * read, then the PCB, the kernel stack and the running-task count are set up.
     */
    method LoadAndStart(d: FileSys.Dentry, header: seq<byte>, args: seq<byte>, caller: int) returns (outcome: ExecOutcome)
      requires Valid() && d.inode < fs.img.inodeCount && |header| == EXE_BUF_SIZE && NUL !in args
      requires runnTaskNum < MAX_TASKS && -1 <= caller < MAX_TASKS
      modifies this`runnTaskNum, this`tssEsp0, pcbs
      ensures Valid()
      ensures var slot := currTaskPos;
        var size := FileSys.DentrySize(fs.img, d);
        (FileSys.ReadDataResult(fs.img, d.inode, 0, size) != size ==>
          outcome == ExecFailed && pcbs[..] == old(pcbs[..]) && runnTaskNum == old(runnTaskNum) &&
          tssEsp0 == old(tssEsp0)) &&
        (FileSys.ReadDataResult(fs.img, d.inode, 0, size) == size ==>
          var parent := if slot == 0 && old(runnTaskNum) == 0 then -1 else caller;
          outcome == Launched(slot, EntryPoint(header)) &&
          pcbs[..] == old(pcbs[..])[slot := LaunchedPcb(old(pcbs[slot]), slot, parent, args)] &&
          runnTaskNum == old(runnTaskNum) + 1 && tssEsp0 == Paging.KernelStackTop(slot))
    {
      var slot := currTaskPos;
      var entry := EntryPoint(header);
      var size := FileSys.DentrySize(fs.img, d);
      var image := new byte[size];
      var loaded := FileSys.ReadData(fs.img, d.inode, 0, image, size);
      if loaded != size {
        return ExecFailed;
      }
      var parent := if slot == 0 && runnTaskNum == 0 then -1 else caller;
      SetupPcb(slot, parent, args);
      tssEsp0 := Paging.KernelStackTop(slot);
      runnTaskNum := runnTaskNum + 1;
      return Launched(slot, entry);
    }

    /**
     * execute, up to the return to user mode: the checks of Precheck with no
     * state touched; then the slot, the user window and the program load; and,
     * when the whole image loads, the new PCB, the kernel stack pointer and one
     * more running task. A load that falls short fails after the slot and the
     * window have already changed.
     */
    method Execute(command: Option<seq<byte>>, uninit: seq<byte>) returns (outcome: ExecOutcome)
      requires Valid() && |uninit| == EXE_BUF_SIZE
      requires command.Some? ==> NUL in command.value
      modifies this`runnTaskNum, this`currTaskPos, this`tssEsp0, taskBitmap, pcbs, pageDir, fs`filePosKeeper
      ensures Valid()
      ensures var c := Precheck(fs.img, command, old(runnTaskNum), uninit);
        (!c.Loadable? ==>
          outcome == ExecFailed && taskBitmap[..] == old(taskBitmap[..]) && pcbs[..] == old(pcbs[..]) &&
          pageDir[..] == old(pageDir[..]) && runnTaskNum == old(runnTaskNum) &&
          currTaskPos == old(currTaskPos) && tssEsp0 == old(tssEsp0)) &&
        (c.BadCommand? || c.TooLong? || c.NotFound? ==> fs.filePosKeeper == old(fs.filePosKeeper)) &&
        (c.Unreadable? || c.NotExecutable? || c.Loadable? ==>
          fs.filePosKeeper == FileSys.LookupIndex(fs.img, Command.ProgramName(command.value) + [NUL]))
      ensures var c := Precheck(fs.img, command, old(runnTaskNum), uninit);
        c.Loadable? ==>
          var free := LowestFree(old(taskBitmap[..]));
          var slot := if free >= 0 then free else old(currTaskPos);
          var size := FileSys.DentrySize(fs.img, c.dentry);
          currTaskPos == slot &&
          taskBitmap[..] == (if free >= 0 then old(taskBitmap[..])[slot := true] else old(taskBitmap[..])) &&
          pageDir[..] == old(pageDir[..])[Paging.USER_WINDOW_INDEX := Paging.UserWindowPde(SlotWord(slot))] &&
          (FileSys.ReadDataResult(fs.img, c.dentry.inode, 0, size) != size ==>
            outcome == ExecFailed && pcbs[..] == old(pcbs[..]) && runnTaskNum == old(runnTaskNum) &&
            tssEsp0 == old(tssEsp0)) &&
          (FileSys.ReadDataResult(fs.img, c.dentry.inode, 0, size) == size ==>
            var parent := if slot == 0 && old(runnTaskNum) == 0 then -1 else old(pcbs[currTaskPos]).pid;
            outcome == Launched(slot, EntryPoint(c.header)) &&
            pcbs[..] == old(pcbs[..])[slot := LaunchedPcb(old(pcbs[slot]), slot, parent, Command.ArgString(command.value))] &&
            runnTaskNum == old(runnTaskNum) + 1 && tssEsp0 == Paging.KernelStackTop(slot))
    {
      var c, args := CheckProgram(fs, runnTaskNum, command, uninit);
      if !c.Loadable? {
        return ExecFailed;
      }
      outcome := Launch(c.dentry, c.header, args);
    }

    /** The test at the head of halt for a process with nothing to return to. */
    predicate IsRoot()
      requires Valid()
      reads this, pcbs
    {
      currTaskPos == 0 || runnTaskNum == 1 || pcbs[currTaskPos].parentId == -1 || pcbs[currTaskPos].pid == 0
    }

    /**
     * halt. For the root task: no teardown; re-enters the shell, or returns -1
     * when there is no "shell" entry. Otherwise: frees the slot, makes the
     * parent current, counts one task fewer (8-bit), maps the parent's window
     * and kernel stack, zeroes the PCB, and returns to the parent's execute
     * with the exit status (255 reported as 256).
     */
    method Halt(status: byte, uninit: seq<byte>) returns (outcome: HaltOutcome)
      requires Valid() && |uninit| == EXE_BUF_SIZE
      modifies this`runnTaskNum, this`currTaskPos, this`tssEsp0, taskBitmap, pcbs, pageDir, fs`filePosKeeper
      ensures Valid()
      ensures old(IsRoot()) ==>
        taskBitmap[..] == old(taskBitmap[..]) && pcbs[..] == old(pcbs[..]) && pageDir[..] == old(pageDir[..]) &&
        runnTaskNum == old(runnTaskNum) && currTaskPos == old(currTaskPos) && tssEsp0 == old(tssEsp0) &&
        var k := FileSys.LookupIndex(fs.img, SHELL_NAME);
        (k < 0 ==> outcome == HaltFailed && fs.filePosKeeper == old(fs.filePosKeeper)) &&
        (k >= 0 ==>
          (outcome.ShellRestarted? && fs.filePosKeeper == k &&
          (FileSys.ReadDataResult(fs.img, fs.img.dentries[k].inode, 0, EXE_BUF_SIZE) >= 0 ==>
            outcome.entry == EntryPoint(HeaderAfterRead(fs.img, fs.img.dentries[k].inode, uninit)))))
      ensures !old(IsRoot()) ==>
        var parent := old(pcbs[currTaskPos]).parentId;
        0 <= parent < MAX_TASKS &&
        outcome == ReturnedToParent(parent, ExitStatus(status)) &&
        taskBitmap[..] == old(taskBitmap[..])[old(currTaskPos) := false] && currTaskPos == parent &&
        runnTaskNum == (old(runnTaskNum) + 255) % 256 &&
        pageDir[..] == old(pageDir[..])[Paging.USER_WINDOW_INDEX := Paging.UserWindowPde(SlotWord(parent))] &&
        tssEsp0 == Paging.KernelStackTop(parent) &&
        pcbs[..] == old(pcbs[..])[old(currTaskPos) := ZERO_PCB] && fs.filePosKeeper == old(fs.filePosKeeper)
    {
      var pos := currTaskPos;
      var p := pcbs[pos];
      if pos == 0 || runnTaskNum == 1 || p.parentId == -1 || p.pid == 0 {
        outcome := RestartShell(fs, uninit);
        return;
      }
      outcome := ReturnToParent(status);
    }

    /** halt of a task that is not the root: its slot, window, stack and PCB are handed back to the parent. */
    method ReturnToParent(status: byte) returns (outcome: HaltOutcome)
      requires Valid() && !IsRoot()
      modifies this`runnTaskNum, this`currTaskPos, this`tssEsp0, taskBitmap, pcbs, pageDir
      ensures Valid()
      ensures var parent := old(pcbs[currTaskPos]).parentId;
        0 <= parent < MAX_TASKS &&
        outcome == ReturnedToParent(parent, ExitStatus(status)) &&
        taskBitmap[..] == old(taskBitmap[..])[old(currTaskPos) := false] && currTaskPos == parent &&
        runnTaskNum == (old(runnTaskNum) + 255) % 256 &&
        pageDir[..] == old(pageDir[..])[Paging.USER_WINDOW_INDEX := Paging.UserWindowPde(SlotWord(parent))] &&
        tssEsp0 == Paging.KernelStackTop(parent) &&
        pcbs[..] == old(pcbs[..])[old(currTaskPos) := ZERO_PCB]
    {
      var pos := currTaskPos;
      var p := pcbs[pos];
      taskBitmap[pos] := false;
      currTaskPos := p.parentId;
      runnTaskNum := if runnTaskNum == 0 then 255 else runnTaskNum - 1;
      MapUserWindow(currTaskPos);
      tssEsp0 := Paging.KernelStackTop(currTaskPos);
      ReleasePcb(pos);
      return ReturnedToParent(currTaskPos, ExitStatus(status));
    }

    /** The end of halt: the process's files are closed, it stops running, and its PCB is zeroed. */
    method ReleasePcb(pos: nat)
      requires Valid() && pos < MAX_TASKS
      modifies pcbs
      ensures Valid()
      ensures pcbs[..] == old(pcbs[..])[pos := ZERO_PCB]
    {
      ClearFds(pos);
      pcbs[pos] := pcbs[pos].(running := false);
      pcbs[pos] := ZERO_PCB;
    }

    /**
     * open. A name starting with "stdin" or "stdout" gives 0 and changes
     * nothing. Otherwise the name is looked up (moving the lookup's keeper);
     * a missing entry or eight open files give -1, and so do the fd search
     * finding nothing and a file type other than 0, 1 or 2. On success the fd
     * gets the table of the type, the entry's inode, position 0 and the name.
     */
    method Open(filename: seq<byte>) returns (fd: int)
      requires Valid() && NUL in filename
      modifies pcbs, fs`filePosKeeper
      ensures Valid()
      ensures IsStdStreamName(filename) ==>
        fd == 0 && pcbs[..] == old(pcbs[..]) && fs.filePosKeeper == old(fs.filePosKeeper)
      ensures !IsStdStreamName(filename) ==>
        var k := FileSys.LookupIndex(fs.img, filename);
        var p := old(pcbs[currTaskPos]);
        (k < 0 ==> fd == -1 && pcbs[..] == old(pcbs[..]) && fs.filePosKeeper == old(fs.filePosKeeper)) &&
        (k >= 0 ==> (fs.filePosKeeper == k &&
          var free := FreeFd(p.fds);
          var kind := KindOfType(fs.img.dentries[k].fileType);
          (p.openFileNum == MAX_OPEN_FILES || free == -1 || kind.None? ==> fd == -1 && pcbs[..] == old(pcbs[..])) &&
          (p.openFileNum != MAX_OPEN_FILES && free != -1 && kind.Some? ==>
            fd == free &&
            pcbs[..] == old(pcbs[..])[currTaskPos := OpenedPcb(p, free, kind.value, fs.img.dentries[k].inode, filename)])))
    {
      if Lib.Strncmp(filename, STDIN_NAME, 5) == 0 {
        return 0;
      }
      if Lib.Strncmp(filename, STDOUT_NAME, 6) == 0 {
        return 0;
      }
      var found := fs.ReadDentryByName(filename);
      var p := pcbs[currTaskPos];
      if found.None? || p.openFileNum == MAX_OPEN_FILES {
        return -1;
      }
      fd := FirstFreeFd(p.fds);
      if fd == -1 {
        return -1;
      }
      var kind := KindOfType(found.value.fileType);
      if kind.None? {
        return -1;
      }
      InstallFile(fd, kind.value, found.value.inode, filename);
    }

    /** The switch of open for a supported type: fills fd `fd` of the current task and counts it. */
    method InstallFile(fd: nat, kind: FileKind, inode: nat, filename: seq<byte>)
      requires Valid() && 2 <= fd < MAX_OPEN_FILES && NUL in filename
      modifies pcbs
      ensures Valid()
      ensures pcbs[..] == old(pcbs[..])[currTaskPos := OpenedPcb(old(pcbs[currTaskPos]), fd, kind, inode, filename)]
    {
      var p := pcbs[currTaskPos];
      pcbs[currTaskPos] := p.(fds := p.fds[fd := FdEntry(Some(kind), Some(inode), 0, true)],
                              fileNames := p.fileNames[fd := StoredName(filename)],
                              openFileNum := p.openFileNum + 1);
    }

    /**
     * close. Refuses fds 0 and 1, fds past 7, and any call while no more than
     * two files are open; otherwise runs the file's close routine (which
     * changes nothing) and clears the entry, leaving its name behind.
     */
    method Close(fd: int) returns (r: int)
      requires Valid()
      modifies pcbs
      ensures Valid()
      ensures var p := old(pcbs[currTaskPos]);
        (fd < 2 || fd >= MAX_OPEN_FILES || p.openFileNum <= 2 ==> r == -1 && pcbs[..] == old(pcbs[..])) &&
        (2 <= fd < MAX_OPEN_FILES && p.openFileNum > 2 ==>
          r == 0 && pcbs[..] == old(pcbs[..])[currTaskPos := ClosedPcb(p, fd)])
    {
      var p := pcbs[currTaskPos];
      if fd < 2 || fd > MAX_OPEN_FILES - 1 || p.openFileNum <= 2 {
        return -1;
      }
      // rtc_close, fs_dir_close and filesys_close all return 0 and change nothing.
      pcbs[currTaskPos] := p.(fds := p.fds[fd := EMPTY_FD], openFileNum := p.openFileNum - 1);
      return 0;
    }

    /**
     * read of a regular file (filesys_read): reads from the fd's position
     * through the stored name's lookup, then advances the position by the
     * result, -1 included.
     */
    method ReadRegular(fd: nat, buf: array<byte>, nbytes: int) returns (r: int)
      requires Valid() && fd < MAX_OPEN_FILES && pcbs[currTaskPos].fds[fd].inUse
      requires Min(U32(nbytes), FileSys.BLOCKS_PER_INODE * FileSys.BLOCK_SIZE) <= buf.Length
      modifies pcbs, fs`filePosKeeper, buf
      ensures Valid()
      ensures var p := old(pcbs[currTaskPos]);
        var e := p.fds[fd];
        var k := FileSys.LookupIndex(fs.img, EntryName(p.fileNames[fd]));
        FileRead(fs.img, EntryName(p.fileNames[fd]), U32(e.filePos), U32(nbytes), r, old(buf[..]), buf[..]) &&
        fs.filePosKeeper == (if k < 0 then old(fs.filePosKeeper) else k) &&
        pcbs[..] == old(pcbs[..])[currTaskPos := Advanced(p, fd, r)]
    {
      var p := pcbs[currTaskPos];
      r := fs.FilesysReadHelper(FdName(fd), U32(p.fds[fd].filePos), buf, U32(nbytes));
      Advance(fd, r);
    }

    /** `file_pos += delta` on fd `fd` of the current task. */
    method Advance(fd: nat, delta: int)
      requires Valid() && fd < MAX_OPEN_FILES && pcbs[currTaskPos].fds[fd].inUse
      modifies pcbs
      ensures Valid()
      ensures var p := old(pcbs[currTaskPos]);
        pcbs[..] == old(pcbs[..])[currTaskPos := Advanced(p, fd, delta)]
    {
      var p := pcbs[currTaskPos];
      pcbs[currTaskPos] := Advanced(p, fd, delta);
    }

    /**
     * read: -1 for an fd out of range, not in use, or whose table has no read
     * routine (stdout); otherwise the routine of its table: terminal_read,
     * rtc_read (0 once the tick arrives), the directory listing step under the
     * fd's stored name, or filesys_read.
     */
    method Read(con: Console.Console, fd: int, buf: array<byte>, nbytes: int) returns (r: int)
      requires Valid() && con.Valid() && buf != con.kbBuf && buf != con.readBuf
      requires KindOf(fd) == Some(Stdin) ==> Max(nbytes, 0) <= buf.Length
      requires KindOf(fd) == Some(Directory) ==> FileSys.LS_BUF_SIZE <= buf.Length
      requires KindOf(fd) == Some(Regular) ==>
        Min(U32(nbytes), FileSys.BLOCKS_PER_INODE * FileSys.BLOCK_SIZE) <= buf.Length
      modifies pcbs, fs, con`readIndicator, con`crossEnter, buf
      ensures Valid() && con.Valid()
      ensures var k := old(KindOf(fd));
        (k != Some(Regular) ==> pcbs[..] == old(pcbs[..])) &&
        (k != Some(Directory) && k != Some(Regular) ==>
          fs.filePosKeeper == old(fs.filePosKeeper) && fs.listing == old(fs.listing)) &&
        (k != Some(Stdin) ==> con.readIndicator == old(con.readIndicator) && con.crossEnter == old(con.crossEnter))
      ensures old(KindOf(fd)).None? || old(KindOf(fd)) == Some(Stdout) ==> r == -1 && buf[..] == old(buf[..])
      ensures old(KindOf(fd)) == Some(RtcDev) ==> r == 0 && buf[..] == old(buf[..])
      ensures old(KindOf(fd)) == Some(Stdin) ==>
        LineRead(old(con.enterFlag), con.readBuf[..], con.readBufSize, nbytes, r, old(buf[..]), buf[..])
      ensures old(KindOf(fd)) == Some(Directory) ==>
        ListingRead(fs.img, FileSys.Cursor(old(fs.listing), old(fs.filePosKeeper)), FdName(fd), r,
                    FileSys.Cursor(fs.listing, fs.filePosKeeper), old(buf[..]), buf[..])
      ensures old(KindOf(fd)) == Some(Regular) ==>
        var p := old(pcbs[currTaskPos]);
        var e := p.fds[fd];
        FileRead(fs.img, EntryName(p.fileNames[fd]), U32(e.filePos), U32(nbytes), r, old(buf[..]), buf[..]) &&
        pcbs[..] == old(pcbs[..])[currTaskPos := Advanced(p, fd, r)]
    {
      if KindOf(fd) == Some(Regular) {
        r := ReadRegular(fd, buf, nbytes);
      } else {
        r := ReadOther(con, fd, buf, nbytes);
      }
    }

    /** read for every fd that does not reach a regular file. */
    method ReadOther(con: Console.Console, fd: int, buf: array<byte>, nbytes: int) returns (r: int)
      requires Valid() && con.Valid() && buf != con.kbBuf && buf != con.readBuf && KindOf(fd) != Some(Regular)
      requires KindOf(fd) == Some(Stdin) ==> Max(nbytes, 0) <= buf.Length
      requires KindOf(fd) == Some(Directory) ==> FileSys.LS_BUF_SIZE <= buf.Length
      modifies fs, con`readIndicator, con`crossEnter, buf
      ensures Valid() && con.Valid()
      ensures var k := old(KindOf(fd));
        (k != Some(Directory) ==> fs.filePosKeeper == old(fs.filePosKeeper) && fs.listing == old(fs.listing)) &&
        (k != Some(Stdin) ==> con.readIndicator == old(con.readIndicator) && con.crossEnter == old(con.crossEnter))
      ensures old(KindOf(fd)).None? || old(KindOf(fd)) == Some(Stdout) ==> r == -1 && buf[..] == old(buf[..])
      ensures old(KindOf(fd)) == Some(RtcDev) ==> r == 0 && buf[..] == old(buf[..])
      ensures old(KindOf(fd)) == Some(Stdin) ==>
        LineRead(old(con.enterFlag), con.readBuf[..], con.readBufSize, nbytes, r, old(buf[..]), buf[..])
      ensures old(KindOf(fd)) == Some(Directory) ==>
        ListingRead(fs.img, FileSys.Cursor(old(fs.listing), old(fs.filePosKeeper)), FdName(fd), r,
                    FileSys.Cursor(fs.listing, fs.filePosKeeper), old(buf[..]), buf[..])
    {
      var kind := KindOf(fd);
      if kind.None? || kind == Some(Stdout) {
        return -1;
      }
      match kind.value
      case Stdin =>
        r := con.TerminalRead(buf, nbytes);
      case RtcDev =>
        r := Rtc.Read();
      case Directory =>
        r := fs.LsRead(FdName(fd), buf);
    }

    /**
     * write: -1 for an fd out of range, not in use, or whose table has no
     * write routine (stdin); otherwise terminal_write (the bytes drawn on the
     * console with putc, and the loop count plus one), rtc_write of the little-endian word at the start
     * of `buf` (its unsigned result read back as a signed one), or the
     * directory and file write routines, which refuse with -1.
     */
    method Write(con: Console.Console, fd: int, buf: seq<byte>, nbytes: int) returns (r: int, shown: seq<byte>)
      requires Valid() && con.Valid()
      requires KindOf(fd) == Some(Stdout) ==> nbytes <= |buf|
      requires KindOf(fd) == Some(RtcDev) ==> 4 <= |buf|
      modifies rtc, con`screenX, con`screenY, con.enterTracker, con`firstScroll, con.kbBuf, con`kbPos
      ensures con.Valid()
      ensures KindOf(fd) != Some(RtcDev) ==> rtc.regA == old(rtc.regA)
      ensures KindOf(fd) != Some(Stdout) ==> shown == [] && con.ScreenState() == old(con.ScreenState())
      ensures KindOf(fd).None? || KindOf(fd) == Some(Stdin) ==> r == -1
      ensures KindOf(fd) == Some(Stdout) ==> shown == buf[..Max(nbytes, 0)] && r == Max(nbytes, 0) + 1
      ensures KindOf(fd) == Some(Stdout) ==>
        con.ScreenState() == Console.PutAll(old(con.ScreenState()), shown, con.enterFlag, con.offset)
      ensures KindOf(fd) == Some(RtcDev) ==>
        var freq := Le32(buf[..4]);
        rtc.regA == Rtc.AfterWrite(old(rtc.regA), freq) &&
        (Rtc.RateOf(freq) == Rtc.ERROR_RATE <==> r == -1) && (r == -1 || r == Rtc.WRITE_OK)
      ensures KindOf(fd) == Some(Directory) || KindOf(fd) == Some(Regular) ==> r == -1
    {
      shown := [];
      var kind := KindOf(fd);
      if kind.None? || kind == Some(Stdin) {
        return -1, shown;
      }
      match kind.value
      case Stdout =>
        r, shown := con.TerminalWrite(buf, nbytes);
      case RtcDev =>
        var u := rtc.Write(Le32(buf[..4]));
        r := Int32(u);
      case Directory =>
        r := FileSys.FileWrite();
      case Regular =>
        r := FileSys.FileWrite();
    }

    /**
     * getargs with the corrected size check: -1 for a NULL buffer, an empty
     * argument string, or one that does not fit in `nbytes` bytes with its
     * NUL; otherwise the string and its NUL are copied to the buffer.
     */
    method GetArgs(buf: array?<byte>, nbytes: int) returns (r: int)
      requires Valid() && -0x8000_0000 <= nbytes < 0x8000_0000
      requires buf != null ==> Max(nbytes, 0) <= buf.Length
      modifies buf
      ensures var arg := Lib.CString(pcbs[currTaskPos].argBuffer);
        (buf == null || GetArgsRefuses(|arg|, nbytes) ==>
          r == -1 && (buf != null ==> buf[..] == old(buf[..]))) &&
        (buf != null && !GetArgsRefuses(|arg|, nbytes) ==>
          r == 0 && buf[..|arg| + 1] == arg + [NUL] && buf[|arg| + 1..] == old(buf[|arg| + 1..]))
    {
      var arg := pcbs[currTaskPos].argBuffer;
      if buf == null || GetArgsRefuses(Lib.Strlen(arg), nbytes) {
        return -1;
      }
      Lib.Strcpy(buf, arg);
      return 0;
    }

    /**
     * vidmap: -1 unless the pointer lies in the user window [128 MB, 132 MB)
     * (NULL included in the refusal). Otherwise directory entry 34 is pointed
     * at the page table, whose entry 0 becomes the video page, and the user
     * address of that page (136 MB) is returned.
     */
    method Vidmap(screenStart: nat) returns (r: int)
      requires Valid()
      modifies pageDir, pageTab
      ensures screenStart == 0 || screenStart >= VIDMAP_HIGH || screenStart < VIDMAP_LOW ==>
        r == -1 && pageDir[..] == old(pageDir[..]) && pageTab[..] == old(pageTab[..])
      ensures !(screenStart == 0 || screenStart >= VIDMAP_HIGH || screenStart < VIDMAP_LOW) ==>
        r == VIDMAP_VIRT &&
        pageDir[..] == old(pageDir[..])[VIDMAP_INDEX := VidmapPde(pageTabAddr)] &&
        pageTab[..] == old(pageTab[..])[0 := VIDMAP_PTE]
    {
      if screenStart == 0 || screenStart >= VIDMAP_HIGH || screenStart < VIDMAP_LOW {
        return -1;
      }
      pageDir[VIDMAP_INDEX] := 0;
      pageDir[VIDMAP_INDEX] := Paging.RW_NOT_PRESENT;
      pageDir[VIDMAP_INDEX] := pageDir[VIDMAP_INDEX] | Paging.RW_PRESENT;
      pageDir[VIDMAP_INDEX] := pageDir[VIDMAP_INDEX] | Paging.USER;
      var temp := pageTabAddr & Paging.FRAME_MASK;
      pageDir[VIDMAP_INDEX] := pageDir[VIDMAP_INDEX] | temp;
      pageTab[0] := Paging.VIDEO | Paging.RW_PRESENT | Paging.USER;
      return VIDMAP_VIRT;
    }

    /** The running flags of the six PCBs, as the scheduler tests them. */
    function RunningFlags(): (flags: seq<bool>)
      requires Valid()
      reads this, pcbs
      ensures |flags| == MAX_TASKS && forall k :: 0 <= k < MAX_TASKS ==> flags[k] == pcbs[k].running
    {
      seq(MAX_TASKS, k requires 0 <= k < MAX_TASKS reads pcbs => pcbs[k].running)
    }

    /**
     * The body of scheduling_handler after its opening return: with more than
     * one task, the next running position gets the user window and the kernel
     * stack; the current position itself is never updated.
     */
    method SwitchToNext()
      requires Valid()
      modifies pageDir, this`tssEsp0
      ensures var next := old(Sche.NextAvailable(RunningFlags(), currTaskPos));
        (runnTaskNum <= 1 || next == -1 ==> pageDir[..] == old(pageDir[..]) && tssEsp0 == old(tssEsp0)) &&
        (runnTaskNum > 1 && next != -1 ==>
          pageDir[..] == old(pageDir[..])[Paging.USER_WINDOW_INDEX := Paging.UserWindowPde(SlotWord(next))] &&
          tssEsp0 == Paging.KernelStackTop(next))
    {
      if runnTaskNum <= 1 {
        return;
      }
      var next := Sche.NextAvailable(RunningFlags(), currTaskPos);
      if next == -1 {
        return;
      }
      MapUserWindow(next);
      tssEsp0 := Paging.KernelStackTop(next);
    }
  }

  // ------------------------------------------------ execute and halt, file system steps

  /** The 30-byte header read of execute and its magic-number loop. */
  method ReadHeader(img: FileSys.Image, d: FileSys.Dentry, uninit: seq<byte>) returns (c: ExecCheck)
    requires FileSys.WellFormed(img) && |uninit| == EXE_BUF_SIZE
    ensures c == HeaderCheck(img, d, uninit)
  {
    var header := new byte[EXE_BUF_SIZE](i requires 0 <= i < EXE_BUF_SIZE => uninit[i]);
    assert header[..] == uninit;
    var r := FileSys.ReadData(img, d.inode, 0, header, EXE_BUF_SIZE);
    if r == -1 || r == 0 {
      return Unreadable;
    }
    assert header[..] == header[..r] + header[r..];
    assert header[..] == HeaderAfterRead(img, d.inode, uninit);
    for i := 0 to |MAGIC|
      invariant header[..i] == MAGIC[..i]
    {
      if MAGIC[i] != header[i] {
        return NotExecutable;
      }
      assert header[..i + 1] == header[..i] + [header[i]];
    }
    assert header[..4] == MAGIC;
    return Loadable(d, header[..]);
  }

  /**
   * The checks at the start of execute (steps 1 and 2): the command and task
   * count, the command-line split and the fit of its parts, the lookup of the
   * program name and the header. Only the lookup's record of the entry index
   * changes.
   */
  method CheckProgram(fs: FileSys.FileSystem, runn: nat, command: Option<seq<byte>>, uninit: seq<byte>)
    returns (c: ExecCheck, args: seq<byte>)
    requires fs.Valid() && |uninit| == EXE_BUF_SIZE
    requires command.Some? ==> NUL in command.value
    modifies fs`filePosKeeper
    ensures c == Precheck(fs.img, command, runn, uninit)
    ensures c.Loadable? ==> args == Command.ArgString(command.value)
    ensures c.BadCommand? || c.TooLong? || c.NotFound? ==> fs.filePosKeeper == old(fs.filePosKeeper)
    ensures c.Unreadable? || c.NotExecutable? || c.Loadable? ==>
      fs.filePosKeeper == FileSys.LookupIndex(fs.img, Command.ProgramName(command.value) + [NUL])
  {
    args := [];
    if command.None? || runn >= MAX_TASKS {
      return BadCommand, args;
    }
    var name;
    name, args := Command.SplitCommand(command.value);
    if Lib.Strlen(command.value) >= ARG_MAX_LEN || |name| >= CMD_LENGTH || |args| >= EXE_BUF_SIZE {
      return TooLong, args;
    }
    var found := fs.ReadDentryByName(name + [NUL]);
    if found.None? {
      return NotFound, args;
    }
    c := ReadHeader(fs.img, found.value, uninit);
  }

  /**
   * The root branch of halt: looks up "shell", reads its header and re-enters
   * it at its entry point; -1 when there is no such entry.
   */
  method RestartShell(fs: FileSys.FileSystem, uninit: seq<byte>) returns (outcome: HaltOutcome)
    requires fs.Valid() && |uninit| == EXE_BUF_SIZE
    modifies fs`filePosKeeper
    ensures var k := FileSys.LookupIndex(fs.img, SHELL_NAME);
      (k < 0 ==> outcome == HaltFailed && fs.filePosKeeper == old(fs.filePosKeeper)) &&
      (k >= 0 ==>
        (outcome.ShellRestarted? && fs.filePosKeeper == k &&
        (FileSys.ReadDataResult(fs.img, fs.img.dentries[k].inode, 0, EXE_BUF_SIZE) >= 0 ==>
          outcome.entry == EntryPoint(HeaderAfterRead(fs.img, fs.img.dentries[k].inode, uninit)))))
  {
    var found := fs.ReadDentryByName(SHELL_NAME);
    if found.None? {
      return HaltFailed;
    }
    var header := new byte[EXE_BUF_SIZE](i requires 0 <= i < EXE_BUF_SIZE => uninit[i]);
    assert header[..] == uninit;
    var r := FileSys.ReadData(fs.img, found.value.inode, 0, header, EXE_BUF_SIZE);
    if r >= 0 {
      assert header[..] == header[..r] + header[r..];
    }
    return ShellRestarted(EntryPoint(header[..]));
  }

  // ------------------------------------------------------- open and close, as values

  /** The names open answers with 0: strncmp against "stdin" over 5 bytes, or "stdout" over 6. */
  predicate IsStdStreamName(filename: seq<byte>)
    requires NUL in filename
  {
    Lib.Strncmp(filename, STDIN_NAME, 5) == 0 || Lib.Strncmp(filename, STDOUT_NAME, 6) == 0
  }

  /** Exactly the names that start with "stdin" or "stdout" (so "stdinx" too). */
  lemma StdStreamNameMeaning(filename: seq<byte>)
    requires NUL in filename
    ensures IsStdStreamName(filename) <==>
      (5 <= Lib.Strlen(filename) && filename[..5] == Str("stdin")) ||
      (6 <= Lib.Strlen(filename) && filename[..6] == Str("stdout"))
  {
    assert STDIN_NAME[..5] == Str("stdin") && STDOUT_NAME[..6] == Str("stdout");
    Lib.StrncmpLiteralPrefix(filename, STDIN_NAME, 5);
    Lib.StrncmpLiteralPrefix(filename, STDOUT_NAME, 6);
  }

  /**
   * The bytes open's strcpy writes from file_names[fd] on, as written: the
   * whole name and its NUL, whatever its length.
   */
  function NameCopyAsWritten(filename: seq<byte>): (w: seq<byte>)
    requires NUL in filename
    ensures NUL in w && |w| == Lib.Strlen(filename) + 1 && Lib.CString(w) == Lib.CString(filename)
  {
    Command.CStringOfTerminated(Lib.CString(filename));
    Lib.CString(filename) + [NUL]
  }

  /**
   * A directory entry whose name fills all 32 bytes is found under that name,
   * and the copy of the name then takes 33 bytes: its NUL lands in the first
   * byte of the next entry, or for fd 7 in the low byte of open_file_num.
   */
  lemma OpenNameOverrunsAsWritten(d: FileSys.Dentry, filename: seq<byte>)
    requires |d.name| == FileSys.NAME_LEN && FileSys.NameLen(d.name) == FileSys.NAME_LEN
    requires filename == d.name + [NUL]
    ensures FileSys.Matches(d, filename, FileSys.FnameLen(filename))
    ensures |NameCopyAsWritten(filename)| == NAME_ENTRY + 1
  {
    assert Lib.Strlen(filename) == FileSys.NAME_LEN by {
      assert filename[FileSys.NAME_LEN] == NUL;
      assert forall j :: 0 <= j < FileSys.NAME_LEN ==> filename[j] == d.name[j];
    }
    FileSys.MatchMeaning(d, filename);
    assert filename[..FileSys.NAME_LEN] == d.name;
  }

  /**
   * The name a lookup reads from a file-name entry: its bytes up to the first
   * NUL, or all of them (at most 32) when it holds none, then a NUL. Reading
   * no further than the entry keeps a full 32-byte name from running on into
   * the next entry.
   */
  function EntryName(entry: seq<byte>): (r: seq<byte>)
    requires |entry| <= NAME_ENTRY
    ensures NUL in r && |r| <= NAME_ENTRY + 1
    ensures Lib.CString(r) == entry[..Lib.StrnLen(entry, |entry|)]
    ensures NUL in entry ==> r == entry[..Lib.Strlen(entry) + 1]
  {
    var t := entry[..Lib.StrnLen(entry, |entry|)];
    Command.CStringOfTerminated(t);
    t + [NUL]
  }

  /**
   * The name open stores for a file, as strncpy of at most 32 bytes: the
   * characters a lookup compares, padded with NULs to fill the 32-byte entry,
   * and with no terminator when they fill it already.
   */
  function StoredName(filename: seq<byte>): (r: seq<byte>)
    requires NUL in filename
    ensures |r| == NAME_ENTRY
    ensures EntryName(r) == Lib.CString(filename)[..FileSys.FnameLen(filename)] + [NUL]
  {
    var t := Lib.CString(filename)[..FileSys.FnameLen(filename)];
    PaddedLength(t, NAME_ENTRY - |t|);
    t + Zeros(NAME_ENTRY - |t|)
  }

  /** The length strnlen finds in a NUL-free prefix padded with NULs is the prefix's. */
  lemma {:induction false} PaddedLength(t: seq<byte>, pad: nat)
    requires NUL !in t
    ensures Lib.StrnLen(t + Zeros(pad), |t| + pad) == |t|
  {
    var s := t + Zeros(pad);
    var k := Lib.StrnLen(s, |t| + pad);
    assert k <= |t| by {
      if pad > 0 {
        assert s[|t|] == NUL;
      }
    }
  }

  /** The stored entry, read back as far as it goes, finds the same directory entry as the name open was given. */
  lemma StoredNameFindsSameFile(img: FileSys.Image, filename: seq<byte>)
    requires FileSys.WellFormed(img) && NUL in filename
    ensures FileSys.LookupIndex(img, EntryName(StoredName(filename))) == FileSys.LookupIndex(img, filename)
  {
    var stored := EntryName(StoredName(filename));
    var flen := FileSys.FnameLen(filename);
    assert Lib.Strlen(stored) == flen by {
      assert stored[flen] == NUL;
    }
    assert stored[..flen] == filename[..flen];
    FileSys.LookupByPrefix(img, stored, filename);
  }

  /**
   * Opening a file whose name fills all 32 bytes stores exactly those 32
   * bytes, with no terminator, where the as-written copy needs 33.
   */
  lemma FullNameFitsEntry(d: FileSys.Dentry, filename: seq<byte>)
    requires |d.name| == FileSys.NAME_LEN && FileSys.NameLen(d.name) == FileSys.NAME_LEN
    requires filename == d.name + [NUL]
    ensures StoredName(filename) == d.name && NUL !in StoredName(filename)
    ensures |StoredName(filename)| == NAME_ENTRY < |NameCopyAsWritten(filename)|
  {
    OpenNameOverrunsAsWritten(d, filename);
    assert Lib.CString(filename) == d.name;
  }

  /**
   * The PCB once open has given fd `fd` the table `kind` for inode `inode`:
   * in use at position 0, the stored name in its entry, one more open file,
   * every other fd and name kept.
   */
  function OpenedPcb(p: Pcb, fd: nat, kind: FileKind, inode: nat, filename: seq<byte>): (r: Pcb)
    requires PcbOk(p) && 2 <= fd < MAX_OPEN_FILES && NUL in filename
    ensures PcbOk(r)
    ensures r.fds[fd].inUse && r.fds[fd].table == Some(kind) && r.fds[fd].inode == Some(inode) && r.fds[fd].filePos == 0
    ensures r.fileNames[fd] == StoredName(filename)
    ensures r.openFileNum == p.openFileNum + 1
    ensures forall k :: 0 <= k < MAX_OPEN_FILES && k != fd ==> r.fds[k] == p.fds[k] && r.fileNames[k] == p.fileNames[k]
    ensures r.argBuffer == p.argBuffer && r.pid == p.pid && r.parentId == p.parentId && r.running == p.running
  {
    p.(fds := p.fds[fd := FdEntry(Some(kind), Some(inode), 0, true)],
       fileNames := p.fileNames[fd := StoredName(filename)],
       openFileNum := p.openFileNum + 1)
  }

  /** The PCB once close has cleared fd `fd`: one file fewer, the stored name kept. */
  function ClosedPcb(p: Pcb, fd: nat): (r: Pcb)
    requires PcbOk(p) && 2 <= fd < MAX_OPEN_FILES
    ensures PcbOk(r) && !r.fds[fd].inUse && r.openFileNum == p.openFileNum - 1
    ensures forall k :: 0 <= k < MAX_OPEN_FILES && k != fd ==> r.fds[k] == p.fds[k]
    ensures r.fileNames == p.fileNames && r.argBuffer == p.argBuffer && r.pid == p.pid && r.running == p.running
  {
    p.(fds := p.fds[fd := EMPTY_FD], openFileNum := p.openFileNum - 1)
  }

  /**
   * Closing the fd that open has just filled gives back the PCB open started
   * from, except that the file's name stays in the name table.
   */
  lemma CloseUndoesOpen(p: Pcb, fd: nat, kind: FileKind, inode: nat, filename: seq<byte>)
    requires PcbOk(p) && 2 <= fd < MAX_OPEN_FILES && NUL in filename && !p.fds[fd].inUse
    ensures var afterOpen := OpenedPcb(p, fd, kind, inode, filename);
      ClosedPcb(afterOpen, fd) == p.(fileNames := afterOpen.fileNames)
  {
    var afterOpen := OpenedPcb(p, fd, kind, inode, filename);
    assert ClosedPcb(afterOpen, fd).fds == p.fds;
  }

  /**
   * In a freshly launched task, open uses fd 2 first; fd 0 can only be read
   * and fd 1 only written.
   */
  lemma LaunchedFdTable(p: Pcb, slot: nat, parent: int, args: seq<byte>)
    requires PcbOk(p) && slot < MAX_TASKS && -1 <= parent < MAX_TASKS && NUL !in args
    ensures var r := LaunchedPcb(p, slot, parent, args);
      FreeFd(r.fds) == 2 &&
      HasRead(r.fds[0].table.value) && !HasWrite(r.fds[0].table.value) &&
      HasWrite(r.fds[1].table.value) && !HasRead(r.fds[1].table.value)
  {
  }

  // -------------------------------------------------------------------- vidmap

  /** The entry vidmap stores at directory index 34: present, writable, user, pointing at the page table. */
  function VidmapPde(tabAddr: bv32): (e: bv32)
    ensures Paging.Present(e) && Paging.Writable(e) && Paging.UserAccess(e) && !Paging.LargePage(e)
    ensures Paging.Frame(e) == Paging.Frame(tabAddr)
  {
    Paging.RW_NOT_PRESENT | Paging.RW_PRESENT | Paging.USER | (tabAddr & Paging.FRAME_MASK)
  }

  /** The entry vidmap stores at index 0 of the page table. */
  const VIDMAP_PTE: bv32 := Paging.VIDEO | Paging.RW_PRESENT | Paging.USER

  /**
   * The address vidmap returns falls in directory entry 34 and table entry 0,
   * which now maps the video page for user code. That table is the one
   * directory entry 0 uses, so virtual page 0, not present after
   * init_paging, maps the video page as well.
   */
  lemma VidmapMapping(tabAddr: bv32)
    ensures VIDMAP_VIRT / 0x40_0000 == VIDMAP_INDEX && VIDMAP_VIRT % 0x40_0000 / 0x1000 == 0
    ensures Paging.Present(VIDMAP_PTE) && Paging.Writable(VIDMAP_PTE) && Paging.UserAccess(VIDMAP_PTE)
    ensures Paging.Frame(VIDMAP_PTE) == Paging.VIDEO
    ensures Paging.Frame(VidmapPde(tabAddr)) == Paging.Frame(Paging.InitialDirEntry(0, tabAddr))
    ensures !Paging.Present(Paging.InitialTabEntry(0))
  {
  }

  /** set_handler: signals are not supported; always -1. */
  function SetHandler(signum: int, handlerAddress: nat): (r: int)
    ensures r == -1
  {
    -1
  }

  /** sigreturn: signals are not supported; always -1. */
  function Sigreturn(): (r: int)
    ensures r == -1
  {
    -1
  }
}
