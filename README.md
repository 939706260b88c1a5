# A verified model of the student-distrib teaching kernel

This project models the core of a small 32-bit x86 teaching kernel: its process
and file-descriptor bookkeeping, read-only file system, page tables, keyboard
line buffer and terminals, interrupt controller, RTC, interrupt descriptor
table, and string helpers. It proves properties of that model in Dafny.

## What is modelled

**Task table and system calls** (`syscall.dfy`, module `Syscall`)
- The kernel's task state lives in class `Kernel`:
  - the six-slot `task_bitmap`;
  - the 8-bit running-task count and the current slot;
  - six PCBs, indexed by slot rather than placed at `8 MB − 8 KB·(slot+1)`;
  - the page directory and page table;
  - the `tss.esp0` value;
  - the file system.
- `execute` is modelled up to the return to user mode:
  - the argument checks;
  - the command-line split;
  - the program lookup;
  - the ELF magic check;
  - the little-endian entry point;
  - lowest-free-slot allocation;
  - the user-window directory entry;
  - the program load and PCB set-up.
- `halt` turns into an outcome. It either re-enters the shell or returns a status to the parent. The status is 256 for exception halts.
- `open`, `close`, `read` and `write` dispatch on a `FileKind` enum (stdin, stdout, RTC, directory, regular file). This replaces the C function-pointer tables.
- Also modelled:
  - `getargs`;
  - `vidmap`;
  - the signal stubs;
  - `pcb_init`;
  - the part of the scheduler's handler that follows its early return.

**Next-task search** (`sche.dfy`)
- `get_next_availble_process` is modelled as a function over the PCBs' running flags.

**File system** (`filesys.dfy`)
- The image is a value: directory entries, inodes and 4096-byte data blocks.
- The lookup by name and by index are pure functions.
- `read_data` copies byte by byte into an array.
- The directory-listing cursor (`file_pos_keeper`, `fs_dir_read_flag`) is the state of class `FileSystem`.

**Paging** (`paging.dfy`)
- The entries `init_paging` writes.
- The 4 MB user-window entry that execute, halt and the scheduler rebuild.

**Console** (`console.dfy`, class `Console`)
- From keyboard.c: the 128-byte keyboard line buffer with its position and flags.
- From terminal.c: the terminal read buffer and the three saved terminals.
- From lib.c: what `putc`, `backspace`, `puts` and `scrolling` do to the cursor, the per-row enter tracker and the line buffer; the buffer reset and the cursor clamps.
- The boot of a terminal stops where it starts its shell, as `halt` does; the rest of a switch to a freshly booted terminal runs once that shell returns.

**Keyboard tables** (`keyboard.dfy`)
- The scan-code tables, and `ascii`/`shift`.

**Devices** (`i8259.dfy`, `rtc.dfy`, `idt.dfy`)
- The 8259A mask caches and the EOI bytes written.
- RTC register A and its frequency→rate mapping (MC146818A register A rate select).
- The IDT fill and bindings, following the Intel SDM Vol. 3A, section 6.11 gate layout.

**String helpers** (`lib.dfy`)
- `strlen`, `strncmp`, `strcpy`, `strncpy`, `strrev`, `itoa`.

**Shared types** (`types.dfy`)
- Bytes, `Option`, and the C integer conversions.

**Integer widths.** Integers are modelled at the width where it matters:
- the running-task count is 8-bit, and halt's decrement wraps;
- the RTC failure value is `0xFFFFFFFF`;
- the keyboard buffer position is 8-bit (see Findings);
- register A and the mask caches are bit-vectors.

## Model

| member | source | states |
|---|---|---|
| Lib.StrnLen | student-distrib/lib.c:790-804 | Length of the string within the first n bytes: no NUL before it, and a NUL at it when below n |
| Lib.Strlen | student-distrib/lib.c:531-538 | Index of the first NUL: that byte is NUL and none before it is |
| Lib.CString | student-distrib/lib.c:531-538 | The characters before the terminator hold no NUL and, with the NUL, form a prefix of the buffer |
| Lib.CmpStop | student-distrib/lib.c:740-757 | strncmp's scan stops at the first index below n where the strings differ or s1 ends, and nowhere earlier |
| Lib.Strncmp | student-distrib/lib.c:740-757 | 0 when the first n bytes agree and are not NUL; otherwise s1[i]−s2[i] at the first differing or ending index |
| Lib.CmpStopFirst | student-distrib/lib.c:740-757 | The stopping index is exactly the first such index, for every i |
| Lib.StrncmpZeroIffPrefix | student-distrib/lib.c:740-757 | On a NUL-free prefix, strncmp is 0 if and only if the first n bytes are equal |
| Lib.StrncmpLiteralPrefix | student-distrib/lib.c:740-757 | Against a literal of length n, strncmp is 0 if and only if the C string starts with that literal |
| Lib.Strcpy | student-distrib/lib.c:768-778 | dest receives src through its terminator; every byte after that is unchanged |
| Lib.Strncpy | student-distrib/lib.c:790-804 | Exactly n bytes written: the source prefix, then NUL padding (no terminator when the source has ≥ n characters); the rest unchanged |
| Lib.Reversed | student-distrib/lib.c:506-521 | Same length, byte i is byte len−1−i of the input |
| Lib.ReversedTwice | student-distrib/lib.c:506-521 | Reversing twice restores the original |
| Lib.Strrev | student-distrib/lib.c:506-521 | The characters before the NUL are reversed in place; the terminator and what follows stay, so strlen is unchanged |
| Lib.SwapEnds | student-distrib/lib.c:506-521 | The swap loop leaves the first L bytes mirrored and the rest untouched |
| Lib.ItoaText | student-distrib/lib.c:464-496 | The text itoa produces is never empty |
| Lib.LsbDigitsValue | student-distrib/lib.c:464-496 | The digits the loop emits, least significant first, evaluate back to the value |
| Lib.LeadingDigit | student-distrib/lib.c:464-496 | The most significant emitted digit of a positive value is not '0' |
| Lib.ItoaTextMeaning | student-distrib/lib.c:464-496 | itoa's text reads back as the value, uses only digits below the radix, and has no leading zero |
| Lib.Itoa | student-distrib/lib.c:464-496 | The buffer holds ItoaText(value, radix), then NUL; bytes after that are untouched |
| Lib.EmitDigits | student-distrib/lib.c:474-493 | The digit loop writes the least-significant-first digits and a NUL, so strlen sees exactly the digits |
| Command.LeadingSpaces | student-distrib/syscall.c:196-210 | The count of leading spaces: all spaces before it, a non-space at it |
| Command.WordLen | student-distrib/syscall.c:196-210 | The length of the leading non-space run: no space before it, a space at it |
| Command.LeadingSpacesUnique | student-distrib/syscall.c:196-210 | Any count with the defining properties is LeadingSpaces |
| Command.WordLenUnique | student-distrib/syscall.c:196-210 | Any length with the defining properties is WordLen |
| Command.NameOf | student-distrib/syscall.c:196-210 | The program name holds no space and only characters of the line |
| Command.ArgsOf | student-distrib/syscall.c:214-225 | The argument string does not start with a space and holds only characters of the line |
| Command.ProgramName | student-distrib/syscall.c:196-210 | The name taken from a NUL-terminated command holds neither NUL nor space |
| Command.ArgString | student-distrib/syscall.c:214-225 | The argument string of a command holds no NUL |
| Command.LineParts | student-distrib/syscall.c:196-225 | A line is leading spaces, the name, the gap, and the arguments, in that order |
| Command.CommandParts | student-distrib/syscall.c:196-225 | The command's text is that decomposition; the name has no space or NUL; the arguments have no NUL and no leading space |
| Command.BlankText | student-distrib/syscall.c:196-210 | The name is empty if and only if the text is all spaces, and then the arguments are empty too |
| Command.BlankCommand | student-distrib/syscall.c:196-225 | The same for a NUL-terminated command line |
| Command.SplitOfJoinedText | student-distrib/syscall.c:196-225 | Splitting undoes joining: spaces + name + ≥1 space + arguments split back into that name and those arguments |
| Command.SplitOfJoined | student-distrib/syscall.c:196-225 | The same round trip for a NUL-terminated line |
| Command.ScanName | student-distrib/syscall.c:196-210 | The first scanning loop yields ProgramName and stops right after it |
| Command.ScanArgs | student-distrib/syscall.c:214-225 | The second loop yields what follows, with its leading spaces dropped and inner/trailing spaces kept |
| Command.SplitCommand | student-distrib/syscall.c:196-225 | Both loops give exactly ProgramName and ArgString |
| Keyboard.Ascii | student-distrib/keyboard.c:133-165 | 0xFF for scan codes ≥ 54; otherwise the plain entry, uppercased (an 'A'..'Z' result) only with caps lock on and a lower-case letter |
| Keyboard.Shift | student-distrib/keyboard.c:173-200 | 0xFF for scan codes ≥ 54, otherwise the shifted entry; caps lock plays no part |
| Keyboard.PlainPrintable | student-distrib/keyboard.c:133-165 | Every plain table entry is 0 or printable ASCII |
| Keyboard.ShiftedPrintable | student-distrib/keyboard.c:173-200 | Every shifted table entry is 0 or printable ASCII |
| Keyboard.TablesAligned | student-distrib/keyboard.c:133-200 | The plain and shifted tables have characters on the same scan codes |
| Keyboard.CapsMatchesShiftOnLetters | student-distrib/keyboard.c:133-200 | On letter keys the caps-lock character is the shifted one; on other keys caps lock changes nothing |
| Console.Clamp | student-distrib/lib.c:833-859 | update_x/update_y keep values strictly inside (0, bound), map negatives to 0 and 0 or ≥ bound to the screen maximum |
| Console.EnterLine | student-distrib/keyboard.c:104-123 | The read buffer after Enter: the typed bytes, '\n' at the position, NUL after it when that fits, the rest kept; a full line is copied unchanged |
| Console.EnterSize | student-distrib/keyboard.c:104-123 | The read size is position+1 below 128, and never above 128 |
| Console.ReadCount | student-distrib/terminal.c:124-126 | The copy count is at most 128 and max(nbytes, 0), covers only non-NUL bytes, and stops early only at a NUL |
| Console.ReadOut | student-distrib/terminal.c:124-127 | The caller's buffer after the corrected read: the copied bytes, then a NUL right after them when the copy stopped before nbytes; every other byte unchanged |
| Console.ReadOutTerminated | student-distrib/terminal.c:124-133 | When the copy stops before nbytes, the buffer holds exactly the read line as a C string |
| Console.EnterThenRead | student-distrib/keyboard.c:104-123 | Enter then terminal_read returns a NUL-free typed line plus '\n' and its length |
| Console.NewlineFrom | student-distrib/lib.c:85-91 | The first '\n' of the first screen row from a given index, or 80 |
| Console.ScrollCut | student-distrib/lib.c:85-115 | A scroll drops through the first '\n' of row one, or the whole 80-byte row when it has none |
| Console.LineCut | student-distrib/lib.c:85-91 | The scan loop computes ScrollCut |
| Console.ScrollPos | student-distrib/lib.c:103-114 | The corrected position after a scroll: the cut subtracted, floored at 0 |
| Console.ScrollKeepsRest | student-distrib/lib.c:92-115 | After a scroll the buffer starts with the typed characters after the cut, and the position counts exactly those |
| Console.ShiftOut | student-distrib/lib.c:92-124 | The in-place shift moves the array left by the cut and fills the vacated tail |
| Console.SwitchRefuses | student-distrib/terminal.c:178-179 | The corrected guard refuses exactly the indices outside 0..2 |
| Console.Console.constructor | student-distrib/keyboard.c:14-25 | Zero-initialised globals: the screen state is Home (cursor at the origin, empty line buffer and tracker), empty read buffer, flags 0, terminal 0 current |
| Console.Console.KeyboardInit | student-distrib/keyboard.c:46-69 | Clears every modifier flag, sets the RTC test counter to 1, empties the line buffer and the 25 tracker entries |
| Console.Console.BufferReset | student-distrib/lib.c:34-41 | Empties the line buffer and sets its position to 0 |
| Console.Console.Reset | student-distrib/lib.c:184-203 | The screen state becomes Home: cursor at the origin, line buffer, position and tracker cleared |
| Console.Console.UpdateX | student-distrib/lib.c:833-844 | The new column is Clamp(x, 80, MAX_X) |
| Console.Console.UpdateY | student-distrib/lib.c:846-859 | The new row is Clamp(y, 25, MAX_Y) |
| Console.Console.BufferEdit | student-distrib/keyboard.c:79-125 | Add is AddSpec (putc, then the byte stored); delete is DeleteSpec (backspace, then the last byte cleared); reset is Home; Enter with a waiting reader hands EnterLine/EnterSize over and sets the cross-enter flag, then the buffer is emptied and putc draws the newline |
| Console.Console.CopyLine | student-distrib/keyboard.c:104-115 | The read buffer becomes EnterLine of the line buffer |
| Console.Console.Scroll | student-distrib/lib.c:50-128 | The screen state becomes ScrollSpec of the old one: the buffer shifted by ScrollCut with NUL fill, the position ScrollPos, the tracker up one row, all only in the editing mode and the buffer part only after the first scroll |
| Console.Console.TerminalRead | student-distrib/terminal.c:110-140 | -1 with the read indicator raised outside the normal mode; otherwise the buffer is ReadOut and the result is nbytes when the line was longer, else the count |
| Console.Console.TerminalBoot | student-distrib/terminal.c:73-91 | Up to the shell launch: the screen state is the boot message printed on a cleared screen (cursor at column 0 of row 1, Enter recorded at column 18 of row 0), the terminal is active and current |
| Console.Console.TerminalInit | student-distrib/terminal.c:39-65 | Entries 0 and 1 set up, entry 2 untouched, terminal 0 booted up to its shell launch with the boot message shown |
| Console.Console.RestoreBuffers | student-distrib/terminal.c:223-227 | The line and read buffers become the saved terminal's |
| Console.Console.TerminalSwitch | student-distrib/terminal.c:173-221 | -1 outside 0..2; 0 with no change for the current index; otherwise the current state is saved; an unbooted target is booted and the switch stops at its shell launch; a booted one has its buffers and cursor restored and becomes current |
| Console.SwitchAwayAndBack | student-distrib/terminal.c:173-238 | Between two booted terminals, switching away and back restores both buffers, with the line position at 0 and a 0 cursor coordinate at the screen maximum |
| Console.ScrollSpec | student-distrib/lib.c:50-128 | A scroll keeps the cursor and shrinks the position; outside the editing mode nothing changes; in it the tracker moves up a row, and the first scroll keeps the line |
| Console.ScrollKeepsOk | student-distrib/lib.c:50-128 | A scroll keeps the cursor on screen, the buffer sizes and every tracker entry 0 or OFFSET plus a column |
| Console.PutcSpec | student-distrib/lib.c:411-452 | A line end records its column in the tracker and moves to the next row's start; another character moves right or wraps; the last row scrolls instead; only a scroll touches the line |
| Console.BackspaceSpec | student-distrib/lib.c:136-176 | Nothing at the origin; one column back inside a row; at a row start, up to the tracked Enter column (clearing the entry) in the editing mode, else to column 79 |
| Console.BackspaceUndoesPutc | student-distrib/lib.c:136-176 | Backspace after an ordinary character that did not scroll restores the state exactly |
| Console.BackspaceUndoesEnter | student-distrib/lib.c:136-176 | In the editing mode, backspace after a newline above the last row returns to where Enter was pressed and clears the tracker entry |
| Console.PutsSpec | student-distrib/lib.c:392-400 | puts keeps the state well formed and never raises the position |
| Console.PutsConcat | student-distrib/lib.c:392-400 | Printing a NUL-free text and then more is printing the two in turn |
| Console.PutsAlongRow | student-distrib/lib.c:411-452 | Ordinary characters that fit in the row only move the cursor along it |
| Console.PutAll | student-distrib/terminal.c:146-157 | putc on every byte keeps the state well formed and never raises the position |
| Console.PutAllIsPuts | student-distrib/terminal.c:146-157 | On NUL-free bytes terminal_write's drawing equals puts |
| Console.BootText | student-distrib/terminal.c:76 | The boot text is 18 bytes with no NUL and no line end |
| Console.BootMessageShown | student-distrib/terminal.c:75-76 | On a cleared screen the boot message leaves the cursor at row 1, column 0, with Enter at column 18 of row 0 |
| Console.AddSpec | student-distrib/keyboard.c:80-89 | A full buffer takes nothing; otherwise the line after putc gains the byte and the position advances by one |
| Console.DeleteSpec | student-distrib/keyboard.c:91-100 | An empty buffer loses nothing; otherwise the last byte is cleared, the position drops by one and the cursor moves as backspace does |
| Console.DeleteUndoesAdd | student-distrib/keyboard.c:79-100 | Typing a character into an empty slot and deleting it restores the console when no scroll or tracked wrap intervened |
| Console.Console.Putc | student-distrib/lib.c:411-452 | The screen state becomes PutcSpec of the old one |
| Console.Console.Backspace | student-distrib/lib.c:136-176 | The screen state becomes BackspaceSpec of the old one |
| Console.Console.Print | student-distrib/lib.c:392-400 | Returns the index of the first NUL (or the length); the screen state becomes PutsSpec |
| Console.Console.TerminalWrite | student-distrib/terminal.c:146-157 | Draws the first max(nbytes, 0) bytes with putc (PutAll) and returns max(nbytes, 0) + 1 |
| Console.Console.ShellReturned | student-distrib/terminal.c:91-96 | When the first shell returns -1 the failure message is printed; otherwise nothing changes |
| Console.Console.FinishSwitch | student-distrib/terminal.c:222-235 | The target's buffers are restored, it becomes current, and its cursor is clamped back |
| Console.CopyRead | student-distrib/terminal.c:124-127 | The copy loop writes ReadOut into the caller's buffer and returns ReadCount |
| FileSys.InitLayout | student-distrib/filesys.c:18-26 | The boot block is at the given start address |
| FileSys.LayoutRegions | student-distrib/filesys.c:18-26 | Entries follow the 64-byte header, inodes follow the boot block, data follows the last inode: no overlap, no gap |
| FileSys.NameLen | student-distrib/filesys.c:35-64 | A stored name's length: strlen capped at 32 |
| FileSys.FnameLen | student-distrib/filesys.c:35-64 | The looked-up name's length, capped at 32 |
| FileSys.MatchMeaning | student-distrib/filesys.c:38-52 | A stored name under 32 bytes matches exactly the names that spell it; a 32-byte name matches any prefix of it |
| FileSys.FirstMatch | student-distrib/filesys.c:43-63 | The search from an index on gives -1 or an entry at or after that index |
| FileSys.FirstMatchMeaning | student-distrib/filesys.c:43-63 | The result matches and nothing before it does; -1 if and only if none matches |
| FileSys.LookupIndex | student-distrib/filesys.c:35-64 | The lookup's result is -1 or one of the 63 slots |
| FileSys.LookupIndexMeaning | student-distrib/filesys.c:35-64 | A non-empty name gets the lowest matching slot; -1 if and only if the name is empty or nothing matches |
| FileSys.DentryAt | student-distrib/filesys.c:73-89 | An entry exactly when the index is below 63 and below the directory count, and then that entry |
| FileSys.DentrySize | student-distrib/filesys.c:92-96 | The inode's length, at most 1023 blocks |
| FileSys.FileBytes | student-distrib/filesys.c:126-143 | The w file bytes from offset on |
| FileSys.FileBytesMeaning | student-distrib/filesys.c:126-143 | Byte j of the copy is at position (offset+j) % 4096 of the block named at index (offset+j) / 4096 |
| FileSys.ReadDataResult | student-distrib/filesys.c:105-144 | -1 for an inode number past the count; any non-negative result is min(length, size−offset), which is 0 at or past the end |
| FileSys.ReadDataBlocksValid | student-distrib/filesys.c:126-143 | A successful copy only read good blocks |
| FileSys.ReadData | student-distrib/filesys.c:105-144 | The method returns ReadDataResult; on success the buffer starts with the file bytes and the rest is unchanged |
| FileSys.CopyBlocks | student-distrib/filesys.c:126-143 | Once the first block is good and the offset is inside the file, the loop returns ReadDataResult, with the file bytes copied on success and nothing past the span touched |
| FileSys.CopyLoop | student-distrib/filesys.c:126-143 | The loop copies byte by byte and stops early only at a bad next block, checked eagerly at each boundary |
| FileSys.ReadDataFails | student-distrib/filesys.c:130-138 | A bad block reached before the end of the span makes the read fail |
| FileSys.ReadDataCompletes | student-distrib/filesys.c:126-143 | With all blocks good, the whole span is copied |
| FileSys.NameCopy | student-distrib/filesys.c:229-253 | 0 and no write past the directory count; otherwise min(length, name length) name bytes, no terminator |
| FileSys.FileOpen | student-distrib/filesys.c:153-157 | Always 0 |
| FileSys.FileWrite | student-distrib/filesys.c:192-195 | Always -1 |
| FileSys.FileClose | student-distrib/filesys.c:204-207 | Always 0 |
| FileSys.LsStep | student-distrib/filesys.c:262-301 | A step yields a name with its length and keeps listing, or fails with -1 and sets the flag, or ends with 0 and a reset cursor |
| FileSys.ListingEnds | student-distrib/filesys.c:262-301 | A listing yields entries k+1 .. count−1 one per call, then returns 0 and resets the cursor |
| FileSys.ListingYieldsNextEntry | student-distrib/filesys.c:262-301 | Every yielded name is the next entry's |
| FileSys.FileSystem.constructor | student-distrib/filesys.c:8-9 | Keeper and listing flag start at 0 |
| FileSys.LookupByPrefix | student-distrib/filesys.c:35-64 | Two names with the same first min(strlen, 32) bytes find the same entry |
| FileSys.FirstMatchByPrefix | student-distrib/filesys.c:43-63 | The search from any index agrees for two names with the same compared prefix |
| FileSys.FileSystem.ReadDentryByName | student-distrib/filesys.c:35-64 | Returns the LookupIndex entry, records its index in the keeper, and leaves the keeper alone on failure |
| FileSys.FileSystem.FilesysReadHelper | student-distrib/filesys.c:167-182 | -1 for a missing name, otherwise ReadData of its inode; on success the buffer starts with the file bytes from the offset and the rest is unchanged |
| FileSys.FileSystem.LsRead | student-distrib/filesys.c:262-301 | The cursor advances by LsStep, and a yielded name is written NUL-padded into 33 bytes |
| FileSys.ShowName | student-distrib/filesys.c:286-291 | 33 NULs, then the name copied over them up to its NUL or its 32 bytes |
| FileSys.NamePadded | student-distrib/filesys.c:286-291 | The name over a cleared buffer is followed by NULs |
| Paging.UserWindowPde | student-distrib/syscall.c:266-274 | The user-window entry's low 12 bits are 0x87 |
| Paging.UserWindowMeaning | student-distrib/syscall.c:266-274 | A present, writable, user-accessible 4 MB page at 8 MB + 4 MB·slot |
| Paging.UserWindowsDistinct | student-distrib/syscall.c:266-274 | Different slots map different physical pages, all at or above 8 MB |
| Paging.KernelStackTop | student-distrib/syscall.c:345-347 | tss.esp0 lies inside the slot's 8 KB kernel stack |
| Paging.TableEntry | student-distrib/paging.c:45-47 | Directory entry 0 carries the table's frame and the RW-present bits |
| Paging.InitPaging | student-distrib/paging.c:15-59 | Every directory and table entry becomes its init_paging value |
| Paging.MapVideo | student-distrib/paging.c:36-42 | Only table entry 0xB8 changes, to the video entry |
| Paging.MapKernel | student-distrib/paging.c:45-54 | Only directory entries 0 and 1 change, to the table entry and 0x400083 |
| Paging.FillNotPresent | student-distrib/paging.c:22-29 | Every entry becomes 0x2 (RW, not present) |
| Paging.PageTableEntryMeaning | student-distrib/paging.c:45-47 | Entry 0 is present, writable, supervisor-only and not a 4 MB page |
| Paging.KernelPageMeaning | student-distrib/paging.c:50-54 | Entry 1 is a present, writable, supervisor-only 4 MB page at 4 MB |
| Paging.VideoPageMeaning | student-distrib/paging.c:36-42 | Table entry 0xB8 maps video memory to itself, present, writable and user |
| Paging.OthersNotPresent | student-distrib/paging.c:22-54 | Every other entry is writable but not present |
| Sche.NextFrom | student-distrib/sche.c:21-32 | The first running candidate from try i on, or -1 exactly when none of the remaining candidates runs |
| Sche.NextAvailable | student-distrib/sche.c:17-33 | The result is -1..4; when non-negative it is the first running candidate (curr+i) % 5 |
| Sche.CandidatesCover | student-distrib/sche.c:21-24 | The five tries visit each of slots 0..4 exactly once, ending at curr when it is below 5 |
| Sche.NextAvailableNone | student-distrib/sche.c:17-33 | -1 if and only if none of slots 0..4 is running |
| Sche.NextAvailableIgnoresLastSlot | student-distrib/sche.c:17-33 | Slot 5's flag never changes the result |
| I8259.MaskBit | student-distrib/i8259.c:64-70 | The shifted bit is a single bit for lines 0..7, and 0 from 8 on |
| I8259.MaskBitsDisjoint | student-distrib/i8259.c:64-78 | Different lines' bits do not overlap |
| I8259.Unmasked | student-distrib/i8259.c:64-78 | Exactly the line's bit is cleared; every other bit is kept |
| I8259.Masked | student-distrib/i8259.c:95-109 | Exactly the line's bit is set; every other bit is kept |
| I8259.MaskRoundTrip | student-distrib/i8259.c:56-111 | Disable after enable restores a masked line; each update is idempotent |
| I8259.Pic.constructor | student-distrib/i8259.c:13-14 | Both caches start at 0xFF with nothing written |
| I8259.Pic.ShiftedBit | student-distrib/i8259.c:64-68 | The shift loop computes MaskBit |
| I8259.Pic.EnableIrq | student-distrib/i8259.c:56-80 | Out of range: no change and no write; otherwise the right cache is Unmasked and written to its data port; the other cache is kept |
| I8259.Pic.DisableIrq | student-distrib/i8259.c:87-111 | The same with Masked |
| I8259.Pic.SendEoi | student-distrib/i8259.c:118-132 | Master: one EOI\|irq write; slave: EOI\|(irq−mid) to the slave, then EOI\|cascade to the master; masks unchanged |
| I8259.EnableThenDisable | student-distrib/i8259.c:56-111 | Enabling and then disabling a master-range line that started masked leaves both caches as they were |
| Idt.Filled | student-distrib/idt_init.c:21-45 | Present, kernel selector, reserved bits as written, handler kept; trap gate with DPL 3 only at 0x80, else interrupt gate with DPL 0 |
| Idt.Binding | student-distrib/idt_init.c:48-76 | Vectors 0..19 bind to their exceptions, and the four device vectors and 0x80 to their handlers; nothing else is bound |
| Idt.InstalledGates | student-distrib/idt_init.c:17-77 | After installation each device IRQ and exception reaches its handler through a DPL-0 interrupt gate, and 0x80 reaches the system call through a DPL-3 trap gate |
| Idt.OnlySyscallIsUserCallable | student-distrib/idt_init.c:37-43 | DPL 3 and a trap gate if and only if the vector is 0x80 |
| Idt.HaltStatus | student-distrib/idt_init.c:80-189 | Exactly the exception handlers halt, with status 255 |
| Idt.FillAll | student-distrib/idt_init.c:21-45 | Every entry becomes Filled of itself |
| Idt.BindExceptions | student-distrib/idt_init.c:48-67 | Vectors 0..19 get their exception handlers; the rest are kept |
| Idt.BindDevices | student-distrib/idt_init.c:69-76 | The device and system-call vectors get their handlers; the rest are kept |
| Idt.SetAll | student-distrib/idt_init.c:17-77 | Every entry becomes Installed: filled, then bound |
| Rtc.RateOf | student-distrib/rtc.c:126-163 | The switch gives ERRORMAG or a rate in 6..15 |
| Rtc.RateOfMeaning | student-distrib/rtc.c:126-163 | Accepted if and only if freq is 2^k for k in 1..10; then the rate is 16−k and makes the chip run at freq |
| Rtc.WithRate | student-distrib/rtc.c:170-172 | The upper nibble is kept and the rate goes in the lower |
| Rtc.AfterWrite | student-distrib/rtc.c:120-175 | Register A is unchanged on a refused frequency, otherwise WithRate of its rate |
| Rtc.ChangeFreqIntended | student-distrib/rtc.c:65-79 | Register A after writing 2^(count+1) |
| Rtc.ChangeFreqRate | student-distrib/rtc.c:65-79 | Counts 0..9 set rate 15−count; larger counts leave the register alone |
| Rtc.RtcDevice.Open | student-distrib/rtc.c:86-97 | Selects rate 15 (2 Hz), keeping the upper nibble, and returns 0 |
| Rtc.RtcDevice.Write | student-distrib/rtc.c:120-175 | Register A becomes AfterWrite; returns 0xFFFFFFFF if and only if refused, otherwise 4 |
| Rtc.Int8Succ | student-distrib/rtc.c:71-72 | The int8_t counter's increment stays in -128..127: one more below 127, and 127 wraps to -128 |
| Rtc.CounterAsWritten | student-distrib/rtc.c:71-72 | After any number of passes the int8_t counter lies in -128..127 |
| Rtc.CounterAsWrittenWraps | student-distrib/rtc.c:71-72 | After n passes the counter is (n + 128) mod 256 − 128 |
| Rtc.ChangeFreqAsWrittenNeverEnds | student-distrib/rtc.c:71-75 | For a count of 128 to 255 the counter stays below the count after every pass and repeats every 256 passes, so the loop never ends |
| Rtc.RtcDevice.ChangeFreq | student-distrib/rtc.c:65-79 | For every uint8_t count, the doubling loop, with a counter as wide as the count, leaves ChangeFreqIntended |
| Rtc.Close | student-distrib/rtc.c:181-184 | Always 0 |
| Rtc.Read | student-distrib/rtc.c:103-113 | 0 once the awaited interrupt has arrived |
| Syscall.Le32 | student-distrib/syscall.c:281 | Four bytes read as a little-endian word are below 2^32 |
| Syscall.Le32RoundTrip | student-distrib/syscall.c:281 | Bytes→word→bytes and word→bytes→word both round-trip |
| Syscall.EntryPoint | student-distrib/syscall.c:281 | The entry point is the little-endian word at header bytes 24..27 |
| Syscall.ExitStatus | student-distrib/syscall.c:479-481 | 255 becomes 256; 0..254 pass through |
| Syscall.ExitStatusInjective | student-distrib/syscall.c:479-481 | Different halt statuses give different results |
| Syscall.ExceptionReportsAbnormal | student-distrib/idt_init.c:80-189 | A task ended by an exception is reported as 256, which no ordinary status produces |
| Syscall.LowestFree | student-distrib/syscall.c:253-263 | The lowest free slot, with all below it taken; -1 exactly when all six are taken |
| Syscall.HeaderAfterRead | student-distrib/syscall.c:237-241 | The header buffer stays 30 bytes long, whatever the read fills |
| Syscall.HeaderCheck | student-distrib/syscall.c:237-248 | Unreadable if and only if the read returns -1 or 0; loadable only with the magic 7F 'E' 'L' 'F' in bytes 0..3; not executable when those bytes differ |
| Syscall.Precheck | student-distrib/syscall.c:183-248 | Fails for a NULL command or six running tasks; TooLong if and only if the command, its program name or its arguments do not fit arg_line[128], first_cmd[20] or getargbuf[30] with a NUL; then a missing program or a bad header; otherwise the entry and arguments |
| Syscall.LaunchedPcb | student-distrib/syscall.c:291-340 | pid = slot, given parent, running, fd 0 read-only stdin, fd 1 write-only stdout, fds 2..7 clear, two open files, the arguments stored as a C string |
| Syscall.FreeFd | student-distrib/syscall.c:561-569 | open's search: the first free fd from 2, or -1 once a used fd is passed while fd 7 is in use |
| Syscall.OpenMissesFreeFd | student-distrib/syscall.c:561-569 | With fds 2 and 7 in use and 3 free, the search as written gives -1 and the intended one gives 3 |
| Syscall.LowestFreeFd | student-distrib/syscall.c:560-569 | The intended search: the lowest free fd from 2 to 7, -1 exactly when all of them are in use |
| Syscall.FreeFdAgainstLowest | student-distrib/syscall.c:561-569 | The search as written agrees with the intended one unless fds 2 and 7 are both in use; then it gives -1, though a free fd among 3..6 exists exactly when the intended one finds one |
| Syscall.FirstFreeFd | student-distrib/syscall.c:561-569 | The loop computes FreeFd |
| Syscall.KindOfType | student-distrib/syscall.c:571-597 | Only file types 0, 1 and 2 get a table, and each such table has read, write and close routines |
| Syscall.Int32 | student-distrib/syscall.c:521-532 | The int32_t a uint32_t becomes: in the signed range, and U32 maps it back |
| Syscall.GetArgsRefuses | student-distrib/syscall.c:636-638 | Corrected: accepted if and only if the string is non-empty and fits with its NUL |
| Syscall.GetArgsCorrectionNarrows | student-distrib/syscall.c:636-638 | The correction refuses all the written check refuses, and beyond that only strings that would overrun |
| Syscall.Kernel.KindOf | student-distrib/syscall.c:503-532 | A table is found only for an fd in 0..7 that is in use |
| Syscall.Kernel.constructor | student-distrib/syscall.c:34-36 | No task, slot 0 current, count 0 |
| Syscall.Kernel.PcbInit | student-distrib/syscall.c:737-745 | Every PCB becomes zero |
| Syscall.Kernel.ClearFds | student-distrib/syscall.c:464-469 | All eight fd entries of the slot are cleared; nothing else changes |
| Syscall.Kernel.AllocateSlot | student-distrib/syscall.c:253-263 | The LowestFree slot is marked used and made current |
| Syscall.Kernel.MapUserWindow | student-distrib/syscall.c:266-274 | Only directory entry 32 changes, to the slot's window |
| Syscall.Kernel.SetupPcb | student-distrib/syscall.c:291-340 | The slot's PCB becomes LaunchedPcb; other PCBs are kept |
| Syscall.Kernel.Launch | student-distrib/syscall.c:253-347 | Allocates the lowest free slot and maps it, then loads and starts the program |
| Syscall.Kernel.LoadAndStart | student-distrib/syscall.c:281-347 | Fails on a short load; otherwise the PCB, kernel stack, count+1 and entry point |
| Syscall.Kernel.Execute | student-distrib/syscall.c:178-389 | A failed Precheck (including a command too long for its buffers) returns -1 with the bitmap, count and directory untouched; otherwise Launch's outcome |
| Syscall.Kernel.Halt | student-distrib/syscall.c:397-496 | A root task gets no teardown and re-enters the shell at its entry point (-1 without one); any other task is torn down as in ReturnToParent and reports ExitStatus to its parent |
| Syscall.Kernel.ReturnToParent | student-distrib/syscall.c:442-481 | Frees the slot, makes the parent current, count−1 (8-bit), maps the parent's window and stack, zeroes the PCB |
| Syscall.Kernel.ReleasePcb | student-distrib/syscall.c:464-477 | The slot's PCB becomes zero; the others are kept |
| Syscall.Kernel.Open | student-distrib/syscall.c:540-600 | Names with a "stdin"/"stdout" prefix give 0 with no change; a missing name gives -1 with no change; a full table, no free fd or a bad type gives -1 with the PCBs unchanged and the lookup keeper moved to the found entry; otherwise the first free fd gets OpenedPcb and the keeper moves to the found entry |
| Syscall.Kernel.InstallFile | student-distrib/syscall.c:571-597 | The current PCB becomes OpenedPcb |
| Syscall.Kernel.Close | student-distrib/syscall.c:607-625 | -1 for fd < 2, fd > 7 or ≤ 2 open files; otherwise the PCB becomes ClosedPcb, in use or not; for an fd not in use the C code calls through a NULL table first |
| Syscall.Kernel.ReadRegular | student-distrib/syscall.c:715-722 | Reads through the name read back from the fd's entry (EntryName) from the fd's position, delivering the file's bytes from there into the buffer, and advances the position by the result |
| Syscall.Kernel.Advance | student-distrib/syscall.c:715-722 | Only that fd's position changes, by delta |
| Syscall.Advanced | student-distrib/syscall.c:720 | The fd's position moves by delta; every other fd and field is kept |
| Syscall.Kernel.FdName | student-distrib/syscall.c:728-732 | The name the directory and file reads pass on, read back from the current task's entry for the fd |
| Syscall.Kernel.Read | student-distrib/syscall.c:503-514 | -1 without a read routine; otherwise terminal_read, 0 for the RTC, a listing step under the name read back from the fd's entry, or filesys_read, whose bytes land at the start of the buffer |
| Syscall.Kernel.ReadOther | student-distrib/syscall.c:503-514 | Read's behaviour on every fd that is not a regular file |
| Syscall.Kernel.Write | student-distrib/syscall.c:521-532 | -1 without a write routine; terminal_write, drawing the bytes on the console; rtc_write of the word at buf; -1 for files and directories |
| Syscall.Kernel.GetArgs | student-distrib/syscall.c:632-642 | -1 for NULL or a GetArgsRefuses case; otherwise the argument string and NUL are copied and 0 returned |
| Syscall.Kernel.Vidmap | student-distrib/syscall.c:650-673 | -1 outside [128 MB, 132 MB); otherwise entry 34 and table entry 0 become the video mapping and 136 MB is returned |
| Syscall.Kernel.RunningFlags | student-distrib/sche.c:26-29 | The six PCBs' running flags |
| Syscall.Kernel.SwitchToNext | student-distrib/sche.c:45-77 | With ≤ 1 task or no candidate nothing changes; otherwise the window and esp0 move to the next running slot |
| Syscall.ReadHeader | student-distrib/syscall.c:237-248 | The header read and magic check give HeaderCheck |
| Syscall.CheckProgram | student-distrib/syscall.c:183-248 | The method's checks give Precheck; only the lookup keeper changes |
| Syscall.RestartShell | student-distrib/syscall.c:406-439 | Re-enters "shell" at its entry point, or -1 when it is missing |
| Syscall.StdStreamNameMeaning | student-distrib/syscall.c:548-555 | Exactly names starting with "stdin" or "stdout" are treated as standard streams |
| Syscall.LookupCheck | student-distrib/syscall.c:227-248 | NotFound if and only if the lookup fails; never BadCommand or TooLong |
| Syscall.PrecheckAsWritten | student-distrib/syscall.c:183-248 | Without a length check: BadCommand if and only if NULL or six running tasks, and never TooLong |
| Syscall.ExecOverrunsAsWritten | student-distrib/syscall.c:189-224 | A name of 20 bytes or more, or arguments of 30 or more, pass the written checks and split into exactly that name and those arguments, which overrun first_cmd or leave getargbuf without its NUL; the corrected Precheck gives TooLong |
| Syscall.NameCopyAsWritten | student-distrib/syscall.c:577-593 | strcpy writes the whole C string and its NUL: strlen + 1 bytes |
| Syscall.OpenNameOverrunsAsWritten | student-distrib/syscall.c:557-593 | A file with a full 32-byte name, opened by that name, is found, and strcpy writes 33 bytes into a 32-byte file_names entry |
| Syscall.StoredName | student-distrib/syscall.c:577-593 | The corrected copy, strncpy of 32 bytes: exactly the 32 bytes of the entry, which read back give the name as far as the lookup compared it |
| Syscall.EntryName | student-distrib/syscall.c:715-732 | The name a read takes from a file-name entry: its bytes up to the first NUL, or all of them when it has none, then a NUL; a terminated entry reads as the C string it holds |
| Syscall.StoredNameFindsSameFile | student-distrib/filesys.c:35-64 | The stored entry, read back with EntryName, finds the same directory entry as the name that was opened |
| Syscall.FullNameFitsEntry | student-distrib/syscall.c:577-593 | A name with all 32 bytes is stored as exactly those bytes, with no terminator, within the entry the as-written copy overruns |
| Syscall.OpenedPcb | student-distrib/syscall.c:571-597 | fd in use at position 0 with the table and inode, the name stored as StoredName (within its 32-byte entry), one more open file, all else kept |
| Syscall.ClosedPcb | student-distrib/syscall.c:607-625 | fd cleared, one file fewer, stored name kept |
| Syscall.CloseUndoesOpen | student-distrib/syscall.c:540-625 | Close after open restores the PCB, except for the stored name |
| Syscall.LaunchedFdTable | student-distrib/syscall.c:291-340 | In a new task open uses fd 2 first; fd 0 can only be read and fd 1 only written |
| Syscall.VidmapPde | student-distrib/syscall.c:657-666 | Entry 34 is present, writable, user, pointing at the page table |
| Syscall.VidmapMapping | student-distrib/syscall.c:650-673 | 136 MB resolves through entry 34 and table entry 0 to video memory; virtual page 0 now maps it too |
| Syscall.SetHandler | student-distrib/syscall.c:680-684 | Always -1 |
| Syscall.Sigreturn | student-distrib/syscall.c:691-695 | Always -1 |

## Left out

- Inline assembly, modelled by its effect only:
  - the iret frames of execute and halt (returned as outcomes);
  - halt's stack switch;
  - the scheduler's context swap;
  - `enable_paging`/`flush_tlb`.
- `memset`, `memcpy` and `memmove` are not modelled as functions; where a call matters, its effect is written out.
- Port I/O:
  - the i8259 port-write sequence is recorded as a list of (port, byte) writes;
  - `i8259_init`'s programming sequence and `rtc_init` are not part of this model;
  - `get_char`'s port loop and the keyboard IRQ handler are not part of this model;
  - pit.c is not part of this model.
- Busy waits on interrupt-set flags (concurrency with interrupt handlers):
  - `rtc_read` is modelled after its interrupt arrives;
  - `terminal_read` is modelled after its wait for Enter.
- Video memory: the characters `putc`, `backspace` and `scrolling` draw, `clear`, the screen copies of `terminal_switch`, `update_cursor`, and the test cases. Their effect on the cursor, the enter tracker and the line buffer is modelled.
- `printf`'s format conversion: the boot and shell-failure messages are given as the bytes it prints.
- terminal_switch's remapping of directory entry 34 and page-table entry 0 (terminal.c:199-210) to the video buffer of the terminal being left: the model has no page tables in the console, so after a switch Syscall.VidmapMapping no longer describes where user video memory points.
- terminal_boot's page-table entry for the terminal's video buffer, and the `execute("shell")` it ends with: the boot stops at that call (SwitchOutcome.ShellLaunched), and Console.Console.ShellReturned and Console.Console.FinishSwitch are what runs once that shell returns.
- Commented-out code: `system_boot` and the keyboard test mode.
- PCB addresses:
  - PCBs are an array indexed by slot;
  - the parent found through `parent_esp & PROCESSMASK` is the slot current when execute was called.
- The fd `inode` pointer into a stack-local dentry is modelled as the inode number.
- The loaded program image:
  - is read into a scratch array and not kept;
  - the 30-byte header buffer's uninitialised tail is a parameter.
- Syscall.Kernel.Read and Syscall.Kernel.Write: the console they read from and draw on is a parameter, not a field.
- FileSys.FileSystem.LsRead, Syscall.Kernel.Read, Syscall.Kernel.ReadOther: a directory read clears and fills 33 bytes of the buffer whatever `nbytes` is (filesys.c:272-275, 286-291), so a shorter buffer is overrun; these members require a buffer of at least 33 bytes for a directory fd and do not capture that overrun.
- Syscall.Kernel.Open: keeps the fd search as written (Syscall.FreeFd), so with fds 2 and 7 in use it refuses even when a lower fd is free (see Findings).
- Syscall.Kernel.ReadRegular and Syscall.Kernel.Read: a file-name entry is read back through Syscall.EntryName, at most 32 bytes, where the C code's strlen would run on past an entry with no NUL; with the corrected store that is the stored name.
- Syscall.Kernel.Vidmap: the write through `screen_start` is modelled by the returned address.
- Syscall.Kernel.Close: for an fd 2..7 that is not in use, with more than two files open, the C code calls through that entry's NULL `fop_table` (syscall.c:616-617), a NULL dereference; the model goes on as the lines after that call do (entry cleared, one file fewer, 0 returned). None of the close routines changes state.
- FileSys.ReadData: a block index at position 1023 or beyond is treated as bad, where the C code reads past the inode's list.
- Cross-file type mismatches (`kb_buffer_position`, `ter_read_buf_size`, `ter_read_indicator`) are bounded naturals at the narrower width.
- Headers that are not part of this model become constructor or method parameters:
  - i8259.h: IRQ range, EOI, cascade line, ports;
  - lib.h: MAX_X/MAX_Y (taken to lie on the screen) and OFFSET (taken to be positive);
  - x86_desc.h: NUM_VEC/KERNEL_CS.
- scheduling_handler returns at its first statement, so a timer tick changes nothing. A method with no modifies clause would state nothing; Syscall.Kernel.SwitchToNext models the code after that return.
- `save_current_terminal` and the text-editing mode toggles are not part of this model.

## Findings

| source | as written | input that shows it | evidently intended | confidence | as-written member | corrected member |
|---|---|---|---|---|---|---|
| student-distrib/terminal.c:178-179 | refuses only idx > 3 | idx 3 or -1 passes and indexes past `terminal_array` | refuse idx outside 0..2 | not executed | Console.SwitchRefusesAsWritten, Console.SwitchGuardAsWrittenAdmits | Console.SwitchRefuses, Console.Console.TerminalSwitch |
| student-distrib/keyboard.c:110-113 | writes '\n' at pos and NUL at pos+1 whenever pos < 128 | pos 127 writes index 128, past the 128-byte read buffer | NUL only when it fits | not executed | Console.EnterWritesAsWritten, Console.EnterOverrunsAsWritten | Console.EnterLine, Console.EnterSize |
| student-distrib/terminal.c:124-127 | NUL at buf[i+1] | reading "hi\n" into 8 bytes of 'x' leaves buf[3] = 'x' | NUL at buf[i] | not executed | Console.ReadOutAsWritten, Console.ReadOutAsWrittenUnterminated | Console.ReadOut, Console.ReadOutTerminated |
| student-distrib/lib.c:103-114 | position −= cut on an 8-bit position | 10 characters, no '\n' in row one: 10 − 80 wraps to 186 | stay at or above 0 | not executed | Console.ScrollPosAsWritten, Console.ScrollPosAsWrittenWraps | Console.ScrollPos, Console.ScrollKeepsRest |
| student-distrib/rtc.c:70-78 | frequency passed as `nbytes`, while rtc_write switches on `*buf` | count 3 with a stray 0 word leaves rate 0xF instead of 0xC | write 2^(count+1) | not executed | Rtc.ChangeFreqAsWritten, Rtc.ChangeFreqAsWrittenIgnoresCount | Rtc.ChangeFreqIntended, Rtc.ChangeFreqRate |
| student-distrib/syscall.c:636-638 | refuses strlen > nbytes | strlen 3, nbytes 3: strcpy writes its NUL at buf[3] | refuse strlen + 1 > nbytes | not executed | Syscall.GetArgsRefusesAsWritten, Syscall.GetArgsAsWrittenOverruns | Syscall.GetArgsRefuses, Syscall.Kernel.GetArgs |
| student-distrib/syscall.c:189-224 | copies the command into arg_line[128], the name into first_cmd[20] and the arguments into getargbuf[30] with no length check | "shell" followed by 30 argument bytes fills getargbuf with no NUL; a 20-byte name writes past first_cmd | refuse a command whose parts do not fit with their NUL | not executed | Syscall.PrecheckAsWritten, Syscall.ExecOverrunsAsWritten | Syscall.Precheck, Syscall.CheckProgram |
| student-distrib/syscall.c:577-593 | strcpy of the caller's name into a 32-byte file_names entry | opening a file whose name has all 32 bytes writes 33 | strncpy the at most 32 bytes the lookup compared into the entry (no terminator when they fill it), and read at most those 32 bytes back | not executed | Syscall.NameCopyAsWritten, Syscall.OpenNameOverrunsAsWritten | Syscall.StoredName, Syscall.EntryName, Syscall.StoredNameFindsSameFile, Syscall.FullNameFitsEntry |
| student-distrib/syscall.c:561-569 | gives up with -1 at the first used fd once fd 7 is in use | fds 2 and 7 in use, fd 3 free: open returns -1 | the lowest free fd in 2..7, -1 only when there is none | not executed | Syscall.FreeFd, Syscall.OpenMissesFreeFd | Syscall.LowestFreeFd, Syscall.FreeFdAgainstLowest |
| student-distrib/rtc.c:71-75 | an int8_t counter against a uint8_t count | count 128: the counter wraps from 127 to -128 and the loop never ends | a counter as wide as the count | not executed | Rtc.CounterAsWritten, Rtc.ChangeFreqAsWrittenNeverEnds | Rtc.RtcDevice.ChangeFreq |
