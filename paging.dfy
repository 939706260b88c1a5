/**
 * Page-directory and page-table entries (paging.c, and the user-window entry
 * rebuilt by execute, halt and the scheduler). Entries follow the IA-32 32-bit
 * paging formats of the Intel SDM, Vol. 3A, section 4.3, Tables 4-4 to 4-6:
 * bit 0 present, bit 1 read/write, bit 2 user/supervisor, bit 7 page size
 * (4 MB) in a directory entry, and the frame address in the high bits.
 */
module Paging {
  const DIR_SIZE := 1024
  const TAB_SIZE := 1024

  const RW_NOT_PRESENT: bv32 := 0x2
  const RW_PRESENT: bv32 := 0x3
  const USER: bv32 := 0x4
  const PAGE_4MB: bv32 := 0x80
  const VIDEO_MEM: bv32 := 0x7
  const VIDEO: bv32 := 0xB8000
  const KERNEL_ADDR: bv32 := 0x400000
  const FRAME_MASK: bv32 := 0xFFFFF000

  /** The directory entry that maps the 4 MB user window at 128 MB. */
  const USER_WINDOW_INDEX := 32
  /** Physical start of the first task's 4 MB page. */
  const TASK_BASE: bv32 := 0x800000
  const FOUR_MB: bv32 := 0x400000
  const EIGHT_MB := 0x800000
  const EIGHT_KB := 0x2000
  const MAX_TASKS := 6

  predicate Present(e: bv32) { e & 1 == 1 }
  predicate Writable(e: bv32) { e & 2 == 2 }
  predicate UserAccess(e: bv32) { e & 4 == 4 }
  /** In a directory entry: the entry maps a 4 MB page rather than a page table. */
  predicate LargePage(e: bv32) { e & 0x80 == 0x80 }
  /** The 4 MB frame a large-page directory entry maps (bits 22..31). */
  function LargeFrame(e: bv32): bv32 { e & 0xFFC00000 }
  /** The 4 KB frame (or page-table address) of an entry (bits 12..31). */
  function Frame(e: bv32): bv32 { e & FRAME_MASK }

  /**
   * Physical address of task `slot`'s 4 MB page, computed in 32 bits as the
   * source does.
   */
  function TaskFrame(slot: bv32): bv32 { TASK_BASE + FOUR_MB * slot }

  /**
   * The entry execute, halt and the scheduler store at directory index 32 for
   * task `slot`: RW-not-present, then the 4 MB, RW-present and user bits, then
   * each slot's physical address masked to 20 bits.
   */
  function UserWindowPde(slot: bv32): (e: bv32)
    requires slot < 6
    ensures e & 0xFFF == 0x87
  {
    var temp := TaskFrame(slot) & FRAME_MASK;
    RW_NOT_PRESENT | PAGE_4MB | RW_PRESENT | USER | temp
  }

  /** The user window is a present, writable, user-accessible 4 MB page at the slot's frame. */
  lemma UserWindowMeaning(slot: bv32)
    requires slot < 6
    ensures var e := UserWindowPde(slot);
      Present(e) && Writable(e) && UserAccess(e) && LargePage(e) && LargeFrame(e) == TaskFrame(slot)
  {
  }

  /** Different tasks' windows map different physical pages, all of them at or above 8 MB. */
  lemma UserWindowsDistinct(s1: bv32, s2: bv32)
    requires s1 < 6 && s2 < 6 && s1 != s2
    ensures LargeFrame(UserWindowPde(s1)) != LargeFrame(UserWindowPde(s2))
    ensures LargeFrame(UserWindowPde(s1)) >= TASK_BASE
  {
    UserWindowMeaning(s1);
    UserWindowMeaning(s2);
  }

  /** `tss.esp0` for task `slot`: 4 bytes below the top of its 8 KB kernel stack. */
  function KernelStackTop(slot: nat): (esp0: int)
    requires slot < MAX_TASKS
    ensures EIGHT_MB - EIGHT_KB * (slot + 1) < esp0 < EIGHT_MB - EIGHT_KB * slot
  {
    EIGHT_MB - EIGHT_KB * slot - 4
  }

  /** Directory entry 0 as init_paging leaves it: the page table's address with the RW-present bits. */
  function TableEntry(tabAddr: bv32): (e: bv32)
    ensures e & 0xFFF == 0x3 && Frame(e) == Frame(tabAddr)
  {
    (tabAddr & FRAME_MASK) | RW_PRESENT
  }

  /** The directory as init_paging leaves it. */
  function InitialDirEntry(i: nat, tabAddr: bv32): bv32
  {
    if i == 0 then TableEntry(tabAddr)
    else if i == 1 then 0x400083
    else RW_NOT_PRESENT
  }

  /** The page table as init_paging leaves it. */
  function InitialTabEntry(i: nat): bv32
  {
    if i == 0xB8 then 0xB8007 else RW_NOT_PRESENT
  }

  /**
   * init_paging, without the register writes of enable_paging: every entry
   * becomes read/write and not present, then the video page, the page table
   * (directory entry 0) and the kernel's 4 MB page (entry 1) are ORed in.
   */
  method InitPaging(dir: array<bv32>, tab: array<bv32>, tabAddr: bv32)
    requires dir.Length == DIR_SIZE && tab.Length == TAB_SIZE && dir != tab
    modifies dir, tab
    ensures forall i :: 0 <= i < DIR_SIZE ==> dir[i] == InitialDirEntry(i, tabAddr)
    ensures forall i :: 0 <= i < TAB_SIZE ==> tab[i] == InitialTabEntry(i)
  {
    FillNotPresent(dir);
    FillNotPresent(tab);
    MapVideo(tab);
    MapKernel(dir, tabAddr);
  }

  /** The video page of init_paging: entry 0xB8 gets the user and RW-present bits and the video address. */
  method MapVideo(tab: array<bv32>)
    requires tab.Length == TAB_SIZE && tab[0xB8] == RW_NOT_PRESENT
    modifies tab
    ensures tab[..] == old(tab[..])[0xB8 := InitialTabEntry(0xB8)]
  {
    var videoIndex := (VIDEO >> 12) as int;
    assert videoIndex == 0xB8;
    tab[videoIndex] := tab[videoIndex] | VIDEO_MEM;
    tab[videoIndex] := tab[videoIndex] | RW_PRESENT;
    tab[videoIndex] := tab[videoIndex] | VIDEO;
  }

  /** Directory entries 0 (the page table) and 1 (the kernel's 4 MB page) of init_paging. */
  method MapKernel(dir: array<bv32>, tabAddr: bv32)
    requires dir.Length == DIR_SIZE && dir[0] == RW_NOT_PRESENT && dir[1] == RW_NOT_PRESENT
    modifies dir
    ensures dir[..] == old(dir[..])[0 := TableEntry(tabAddr)][1 := 0x400083]
  {
    var temp := tabAddr & FRAME_MASK;
    dir[0] := dir[0] | temp | RW_PRESENT;
    dir[1] := dir[1] | PAGE_4MB;
    dir[1] := dir[1] | RW_PRESENT;
    temp := KERNEL_ADDR & FRAME_MASK;
    dir[1] := dir[1] | temp;
  }

  /** The first loops of init_paging: every entry read/write and not present. */
  method FillNotPresent(a: array<bv32>)
    modifies a
    ensures forall i :: 0 <= i < a.Length ==> a[i] == RW_NOT_PRESENT
  {
    for i := 0 to a.Length
      invariant forall j :: 0 <= j < i ==> a[j] == RW_NOT_PRESENT
    {
      a[i] := RW_NOT_PRESENT;
    }
  }

  /** Directory entry 0 points at the page table: present, writable, supervisor only, not a 4 MB page. */
  lemma PageTableEntryMeaning(tabAddr: bv32)
    ensures var e := InitialDirEntry(0, tabAddr);
      Present(e) && Writable(e) && !UserAccess(e) && !LargePage(e) && Frame(e) == Frame(tabAddr)
  {
  }

  /** Directory entry 1 maps the kernel: a present, writable, supervisor-only 4 MB page at 4 MB. */
  lemma KernelPageMeaning(tabAddr: bv32)
    ensures var e := InitialDirEntry(1, tabAddr);
      Present(e) && Writable(e) && !UserAccess(e) && LargePage(e) && LargeFrame(e) == 0x400000
  {
  }

  /** Table entry 0xB8 maps video memory onto itself: present, writable and user-accessible. */
  lemma VideoPageMeaning()
    ensures var e := InitialTabEntry(0xB8);
      Present(e) && Writable(e) && UserAccess(e) && Frame(e) == 0xB8 * 0x1000 == VIDEO
  {
  }

  /** Every other directory and table entry is writable but not present. */
  lemma OthersNotPresent(i: nat, tabAddr: bv32)
    ensures 2 <= i ==> !Present(InitialDirEntry(i, tabAddr)) && Writable(InitialDirEntry(i, tabAddr))
    ensures i != 0xB8 ==> !Present(InitialTabEntry(i)) && Writable(InitialTabEntry(i))
  {
  }
}
