/**
 * The read-only file system of filesys.c. The image is a boot block (three
 * counts and 63 directory entries), a run of inode blocks (a length and 1023
 * data-block indices each) and the 4096-byte data blocks. Lookups are pure;
 * read_data and the name-copy helpers write into the caller's buffer; the
 * directory-listing cursor lives in two statics, `file_pos_keeper` and
 * `fs_dir_read_flag`, which are the fields of the FileSystem class.
 */
module FileSys {
  import opened Types
  import Lib

  const NAME_LEN := 32           // FNAME_LEN
  const DENTRY_COUNT := 63       // FILE_DENTRIES
  const BLOCKS_PER_INODE := 1023 // DATA_BLOCK_NUMS
  const BLOCK_SIZE := 4096       // DATA_BLOCK_SIZE, also the size of the boot block and of an inode
  const DENTRY_SIZE := 64
  /** The directory-listing buffer is cleared over this many bytes. */
  const LS_BUF_SIZE := 33

  datatype Dentry = Dentry(name: seq<byte>, fileType: nat, inode: nat)
  datatype Inode = Inode(length: nat, blocks: seq<nat>)
  /**
   * The image: the three counts of the boot block (word 0 directory entries,
   * word 1 inodes, word 2 data blocks), the 63 directory-entry slots, the inodes
   * and the data blocks.
   */
  datatype Image = Image(dirCount: nat, inodeCount: nat, blockCount: nat,
                         dentries: seq<Dentry>, inodes: seq<Inode>, data: seq<seq<byte>>)

  /** The shape of an image as the boot block describes it. */
  ghost predicate WellFormed(img: Image)
  {
    img.dirCount <= DENTRY_COUNT &&
    |img.dentries| == DENTRY_COUNT &&
    (forall i :: 0 <= i < DENTRY_COUNT ==> |img.dentries[i].name| == NAME_LEN) &&
    |img.inodes| == img.inodeCount &&
    (forall i :: 0 <= i < |img.inodes| ==>
       |img.inodes[i].blocks| == BLOCKS_PER_INODE && img.inodes[i].length <= BLOCKS_PER_INODE * BLOCK_SIZE) &&
    |img.data| == img.blockCount &&
    (forall b :: 0 <= b < |img.data| ==> |img.data[b]| == BLOCK_SIZE)
  }

  // ---------------------------------------------------------------- init_filesys

  /** Where init_filesys places the regions of an image loaded at `start`. */
  datatype Layout = Layout(bootBlock: nat, dentries: nat, inodes: nat, dataBlocks: nat)

  function InitLayout(start: nat, numInode: nat): (l: Layout)
    ensures l.bootBlock == start
  {
    Layout(start, start + DENTRY_SIZE, start + BLOCK_SIZE, start + (numInode + 1) * BLOCK_SIZE)
  }

  /**
   * The 63 directory entries fill the boot block after its 64-byte header, the
   * inode blocks follow it, and the data blocks start right after the last
   * inode, so the regions neither overlap nor leave gaps.
   */
  lemma LayoutRegions(start: nat, numInode: nat)
    ensures var l := InitLayout(start, numInode);
      l.bootBlock < l.dentries &&
      l.dentries + DENTRY_COUNT * DENTRY_SIZE == l.inodes &&
      l.inodes == l.bootBlock + BLOCK_SIZE &&
      (forall i :: 0 <= i < numInode ==> l.inodes <= l.inodes + i * BLOCK_SIZE < l.dataBlocks) &&
      l.dataBlocks == l.inodes + numInode * BLOCK_SIZE
  {
  }

  // ---------------------------------------------------------------- names

  /** The length read_dentry_by_name and the listing use for a name: strlen capped at 32. */
  function NameLen(name: seq<byte>): (k: nat)
    requires |name| == NAME_LEN
    ensures k <= NAME_LEN
    ensures forall i :: 0 <= i < k ==> name[i] != NUL
    ensures k < NAME_LEN ==> name[k] == NUL
  {
    Lib.StrnLen(name, NAME_LEN)
  }

  /** `fname_len`: the length of the looked-up name, capped at 32. */
  function FnameLen(fname: seq<byte>): (k: nat)
    requires NUL in fname
    ensures k <= NAME_LEN && k <= Lib.Strlen(fname)
  {
    Min(Lib.Strlen(fname), NAME_LEN)
  }

  /**
   * The test read_dentry_by_name applies to one entry: the stored name has
   * exactly the looked-up length (or fills all 32 bytes), and strncmp over that
   * length gives 0.
   */
  predicate Matches(d: Dentry, fname: seq<byte>, flen: nat)
    requires |d.name| == NAME_LEN && flen <= NAME_LEN && flen <= |fname|
  {
    (NameLen(d.name) == flen || NameLen(d.name) >= NAME_LEN) && Lib.Strncmp(fname, d.name, flen) == 0
  }

  /**
   * What a match means. A stored name shorter than 32 matches exactly the names
   * whose first `flen` characters spell it. A 32-byte stored name matches any
   * name whose (capped) characters are a prefix of it.
   */
  lemma MatchMeaning(d: Dentry, fname: seq<byte>)
    requires |d.name| == NAME_LEN && NUL in fname
    ensures var flen := FnameLen(fname);
      NameLen(d.name) < NAME_LEN ==>
        (Matches(d, fname, flen) <==> d.name[..NameLen(d.name)] == fname[..flen])
    ensures var flen := FnameLen(fname);
      NameLen(d.name) == NAME_LEN ==> (Matches(d, fname, flen) <==> fname[..flen] == d.name[..flen])
  {
    var flen := FnameLen(fname);
    Lib.StrncmpZeroIffPrefix(fname, d.name, flen);
  }

  /** The first entry from `from` on that matches, or -1. */
  function FirstMatch(img: Image, fname: seq<byte>, flen: nat, from: nat): (r: int)
    requires WellFormed(img) && flen <= NAME_LEN && flen <= |fname| && from <= DENTRY_COUNT
    decreases DENTRY_COUNT - from
    ensures r == -1 || from <= r < DENTRY_COUNT
  {
    if from == DENTRY_COUNT then -1
    else if Matches(img.dentries[from], fname, flen) then from
    else FirstMatch(img, fname, flen, from + 1)
  }

  /** FirstMatch finds a matching entry, and no entry between `from` and it matches. */
  lemma {:induction false} FirstMatchMeaning(img: Image, fname: seq<byte>, flen: nat, from: nat)
    requires WellFormed(img) && flen <= NAME_LEN && flen <= |fname| && from <= DENTRY_COUNT
    decreases DENTRY_COUNT - from
    ensures var r := FirstMatch(img, fname, flen, from);
      (r >= 0 ==> Matches(img.dentries[r], fname, flen)) &&
      forall j :: from <= j < DENTRY_COUNT && (r == -1 || j < r) ==> !Matches(img.dentries[j], fname, flen)
  {
    if from < DENTRY_COUNT && !Matches(img.dentries[from], fname, flen) {
      FirstMatchMeaning(img, fname, flen, from + 1);
    }
  }

  /**
   * The entry read_dentry_by_name settles on: -1 for an empty name, otherwise
   * the lowest-numbered of the 63 slots that matches, or -1 when none does.
   * The directory count plays no part.
   */
  function LookupIndex(img: Image, fname: seq<byte>): (r: int)
    requires WellFormed(img) && NUL in fname
    ensures -1 <= r < DENTRY_COUNT
  {
    if FnameLen(fname) == 0 then -1 else FirstMatch(img, fname, FnameLen(fname), 0)
  }

  /** The lookup gives the first of the 63 slots that matches a non-empty name, and -1 exactly when none does. */
  lemma LookupIndexMeaning(img: Image, fname: seq<byte>)
    requires WellFormed(img) && NUL in fname
    ensures var r := LookupIndex(img, fname);
      (r >= 0 ==> FnameLen(fname) > 0 && Matches(img.dentries[r], fname, FnameLen(fname))) &&
      (r >= 0 ==> forall j :: 0 <= j < r ==> !Matches(img.dentries[j], fname, FnameLen(fname))) &&
      (r == -1 <==> FnameLen(fname) == 0 ||
                    forall j :: 0 <= j < DENTRY_COUNT ==> !Matches(img.dentries[j], fname, FnameLen(fname)))
  {
    if FnameLen(fname) > 0 {
      FirstMatchMeaning(img, fname, FnameLen(fname), 0);
    }
  }

  /**
   * Two names with the same capped length and the same characters up to it
   * find the same entry: the lookup never looks past the 32nd character.
   */
  lemma LookupByPrefix(img: Image, a: seq<byte>, b: seq<byte>)
    requires WellFormed(img) && NUL in a && NUL in b
    requires FnameLen(a) == FnameLen(b) && a[..FnameLen(a)] == b[..FnameLen(b)]
    ensures LookupIndex(img, a) == LookupIndex(img, b)
  {
    if FnameLen(a) > 0 {
      FirstMatchByPrefix(img, a, b, FnameLen(a), 0);
    }
  }

  /** FirstMatch reads the names only up to `flen`. */
  lemma {:induction false} FirstMatchByPrefix(img: Image, a: seq<byte>, b: seq<byte>, flen: nat, from: nat)
    requires WellFormed(img) && flen <= NAME_LEN && flen <= |a| && flen <= |b| && from <= DENTRY_COUNT
    requires a[..flen] == b[..flen] && forall j :: 0 <= j < flen ==> a[j] != NUL
    decreases DENTRY_COUNT - from
    ensures FirstMatch(img, a, flen, from) == FirstMatch(img, b, flen, from)
  {
    if from < DENTRY_COUNT {
      var d := img.dentries[from];
      assert forall j :: 0 <= j < flen ==> b[j] == b[..flen][j];
      Lib.StrncmpZeroIffPrefix(a, d.name, flen);
      Lib.StrncmpZeroIffPrefix(b, d.name, flen);
      FirstMatchByPrefix(img, a, b, flen, from + 1);
    }
  }

  /**
   * read_dentry_by_index: the entry at `index`, or nothing when the index is
   * not below both 63 and the boot block's directory count.
   */
  function DentryAt(img: Image, index: nat): (r: Option<Dentry>)
    requires WellFormed(img)
    ensures r.Some? <==> index < DENTRY_COUNT && index < img.dirCount
    ensures r.Some? ==> r.value == img.dentries[index]
  {
    if index >= DENTRY_COUNT || index >= img.dirCount then None else Some(img.dentries[index])
  }

  /** get_dentry_size: the length word of the entry's inode. */
  function DentrySize(img: Image, d: Dentry): (size: nat)
    requires WellFormed(img) && d.inode < img.inodeCount
    ensures size <= BLOCKS_PER_INODE * BLOCK_SIZE
    ensures size == img.inodes[d.inode].length
  {
    img.inodes[d.inode].length
  }

  // ---------------------------------------------------------------- read_data

  /** Block `k` of an inode names an existing data block (indices past the list count as bad). */
  predicate ValidBlock(img: Image, ino: Inode, k: nat)
  {
    k < |ino.blocks| && ino.blocks[k] < img.blockCount
  }

  predicate BlocksValid(img: Image, ino: Inode, lo: nat, hi: nat)
  {
    forall k :: lo <= k <= hi ==> ValidBlock(img, ino, k)
  }

  /** Byte `p` of a file: position p % 4096 of the data block its block list names at p / 4096. */
  function FileByte(img: Image, ino: Inode, p: nat): byte
    requires WellFormed(img)
  {
    var k := p / 4096;
    if ValidBlock(img, ino, k) && ino.blocks[k] < |img.data| then img.data[ino.blocks[k]][p % 4096] else 0
  }

  /** The `w` bytes of inode `inode` from `offset` on. */
  function FileBytes(img: Image, inode: nat, offset: nat, w: nat): (r: seq<byte>)
    requires WellFormed(img) && inode < img.inodeCount
    ensures |r| == w
  {
    if w == 0 then [] else FileBytes(img, inode, offset, w - 1) + [FileByte(img, img.inodes[inode], offset + w - 1)]
  }

  /** A buffer holding byte `offset + j` of the file at each `j < w` starts with the copy. */
  lemma CopiedBytes(img: Image, inode: nat, offset: nat, b: seq<byte>, w: nat)
    requires WellFormed(img) && inode < img.inodeCount && w <= |b|
    requires forall j :: 0 <= j < w ==> b[j] == FileByte(img, img.inodes[inode], offset + j)
    ensures b[..w] == FileBytes(img, inode, offset, w)
  {
    FileBytesMeaning(img, inode, offset, w);
  }

  /** Byte `j` of the copy is byte `offset + j` of the file. */
  lemma {:induction false} FileBytesMeaning(img: Image, inode: nat, offset: nat, w: nat)
    requires WellFormed(img) && inode < img.inodeCount
    ensures forall j :: 0 <= j < w ==> FileBytes(img, inode, offset, w)[j] == FileByte(img, img.inodes[inode], offset + j)
  {
    if w > 0 {
      FileBytesMeaning(img, inode, offset, w - 1);
    }
  }

  /** A buffer whose bytes from `i` on are untouched keeps its old suffix from `i` on. */
  lemma SuffixKept(before: seq<byte>, after: seq<byte>, i: nat)
    requires |before| == |after| && i <= |after|
    requires forall j :: i <= j < |after| ==> after[j] == before[j]
    ensures after[i..] == before[i..]
  {
  }

  /** How many bytes read_data would copy if every block were good: min(length, file length − offset). */
  function Span(img: Image, inode: nat, offset: nat, length: nat): nat
  {
    if inode < |img.inodes| && offset < img.inodes[inode].length
    then Min(length, img.inodes[inode].length - offset) else 0
  }

  /**
   * The result of read_data. -1 for an inode number at or past the inode count,
   * or when the block holding `offset` is bad (both before the end-of-file
   * test); 0 when `offset` is at or past the end of the file; otherwise the
   * span, unless one of the blocks the copy reaches a boundary of is bad: the
   * copy checks the next block each time it crosses a 4096-byte boundary,
   * including the boundary right after its last byte.
   */
  function ReadDataResult(img: Image, inode: nat, offset: nat, length: nat): (r: int)
    requires WellFormed(img)
    ensures r >= -1
    ensures inode >= img.inodeCount ==> r == -1
    ensures r >= 0 ==> r == Span(img, inode, offset, length)
  {
    if inode >= img.inodeCount || !ValidBlock(img, img.inodes[inode], offset / BLOCK_SIZE) then -1
    else if offset >= img.inodes[inode].length then 0
    else
      var n := Min(length, img.inodes[inode].length - offset);
      if BlocksValid(img, img.inodes[inode], offset / BLOCK_SIZE + 1, (offset + n) / BLOCK_SIZE) then n else -1
  }

  /** A read that copies bytes only copies them from good blocks. */
  lemma ReadDataBlocksValid(img: Image, inode: nat, offset: nat, length: nat)
    requires WellFormed(img)
    ensures var r := ReadDataResult(img, inode, offset, length);
      r > 0 ==> forall p :: offset <= p < offset + r ==> ValidBlock(img, img.inodes[inode], p / BLOCK_SIZE)
  {
  }

  /**
   * read_data: copies the bytes of inode `inode` from `offset` into `buf`, one
   * byte at a time, moving to the next block at each 4096-byte boundary.
   */
  method ReadData(img: Image, inode: nat, offset: nat, buf: array<byte>, length: nat) returns (r: int)
    requires WellFormed(img)
    requires Span(img, inode, offset, length) <= buf.Length
    modifies buf
    ensures r == ReadDataResult(img, inode, offset, length)
    ensures r >= 0 ==> buf[..r] == FileBytes(img, inode, offset, r) && buf[r..] == old(buf[r..])
    ensures r < 0 ==> buf[Span(img, inode, offset, length)..] == old(buf[Span(img, inode, offset, length)..])
  {
    if inode >= img.inodeCount {
      return -1;
    }
    var ino := img.inodes[inode];
    var nthBlk := offset / BLOCK_SIZE;
    if nthBlk >= BLOCKS_PER_INODE || ino.blocks[nthBlk] >= img.blockCount {
      return -1;
    }
    if offset >= ino.length {
      return 0;
    }
    r := CopyBlocks(img, inode, offset, buf, length);
  }

  /**
   * The copy loop of read_data, entered with a good first block and `offset`
   * inside the file: one byte at a time, checking the next block at each
   * 4096-byte boundary.
   */
  method CopyBlocks(img: Image, inode: nat, offset: nat, buf: array<byte>, length: nat) returns (r: int)
    requires WellFormed(img) && inode < img.inodeCount
    requires ValidBlock(img, img.inodes[inode], offset / BLOCK_SIZE) && offset < img.inodes[inode].length
    requires Span(img, inode, offset, length) <= buf.Length
    modifies buf
    ensures r == ReadDataResult(img, inode, offset, length)
    ensures r >= 0 ==> buf[..r] == FileBytes(img, inode, offset, r) && buf[r..] == old(buf[r..])
    ensures r < 0 ==> buf[Span(img, inode, offset, length)..] == old(buf[Span(img, inode, offset, length)..])
  {
    var i, failed := CopyLoop(img, inode, offset, buf, length);
    if failed {
      SuffixKept(old(buf[..]), buf[..], Span(img, inode, offset, length));
      return -1;
    }
    ReadDataCompletes(img, inode, offset, length);
    CopiedBytes(img, inode, offset, buf[..], i);
    SuffixKept(old(buf[..]), buf[..], i);
    return i;
  }

  /**
   * The copy loop of read_data: byte by byte through the current block,
   * moving to the next block at each 4096-byte boundary and stopping with a
   * failure at a bad one.
   */
  method CopyLoop(img: Image, inode: nat, offset: nat, buf: array<byte>, length: nat) returns (i: nat, failed: bool)
    requires WellFormed(img) && inode < img.inodeCount
    requires ValidBlock(img, img.inodes[inode], offset / BLOCK_SIZE) && offset < img.inodes[inode].length
    requires Span(img, inode, offset, length) <= buf.Length
    modifies buf
    ensures i <= Span(img, inode, offset, length)
    ensures forall j :: 0 <= j < i ==> buf[j] == FileByte(img, img.inodes[inode], offset + j)
    ensures forall j :: i <= j < buf.Length ==> buf[j] == old(buf[j])
    ensures failed ==> ReadDataResult(img, inode, offset, length) == -1
    ensures !failed ==> i == Span(img, inode, offset, length)
    ensures !failed ==> BlocksValid(img, img.inodes[inode], offset / BLOCK_SIZE + 1, (offset + i) / BLOCK_SIZE)
  {
    var ino := img.inodes[inode];
    var nthBlk: nat := offset / 4096;
    var curBlock := ino.blocks[nthBlk];
    var tracker: nat := offset % 4096;
    ghost var n := Min(length, ino.length - offset);
    ghost var first := offset / 4096;
    i := 0;
    while i < length && i + offset < ino.length
      invariant 0 <= i <= n
      invariant offset + i == nthBlk * 4096 + tracker && tracker < 4096
      invariant ValidBlock(img, ino, nthBlk) && curBlock == ino.blocks[nthBlk]
      invariant BlocksValid(img, ino, first + 1, nthBlk)
      invariant forall j :: 0 <= j < i ==> buf[j] == FileByte(img, ino, offset + j)
      invariant forall j :: i <= j < buf.Length ==> buf[j] == old(buf[j])
    {
      PositionOf(offset + i, nthBlk, tracker);
      buf[i] := img.data[curBlock][tracker];
      tracker := tracker + 1;
      if tracker >= 4096 {
        tracker := 0;
        nthBlk := nthBlk + 1;
        if nthBlk >= BLOCKS_PER_INODE || ino.blocks[nthBlk] >= img.blockCount {
          BlockBelow(nthBlk, offset + n);
          ReadDataFails(img, inode, offset, length, nthBlk);
          return i + 1, true;
        }
        curBlock := ino.blocks[nthBlk];
      }
      i := i + 1;
    }
    PositionOf(offset + n, nthBlk, tracker);
    return i, false;
  }

  /** A bad block reached before the end of the span makes read_data fail. */
  lemma ReadDataFails(img: Image, inode: nat, offset: nat, length: nat, k: nat)
    requires WellFormed(img) && inode < img.inodeCount && offset < img.inodes[inode].length
    requires ValidBlock(img, img.inodes[inode], offset / BLOCK_SIZE)
    requires offset / BLOCK_SIZE < k <= (offset + Span(img, inode, offset, length)) / BLOCK_SIZE
    requires !ValidBlock(img, img.inodes[inode], k)
    ensures ReadDataResult(img, inode, offset, length) == -1
  {
  }

  /** With every block up to the end of the span good, read_data copies the whole span. */
  lemma ReadDataCompletes(img: Image, inode: nat, offset: nat, length: nat)
    requires WellFormed(img) && inode < img.inodeCount && offset < img.inodes[inode].length
    requires ValidBlock(img, img.inodes[inode], offset / BLOCK_SIZE)
    requires BlocksValid(img, img.inodes[inode], offset / BLOCK_SIZE + 1, (offset + Span(img, inode, offset, length)) / BLOCK_SIZE)
    ensures ReadDataResult(img, inode, offset, length) == Span(img, inode, offset, length)
  {
  }

  /** Position `p` lies in block `k`, `t` bytes in. */
  lemma PositionOf(p: nat, k: nat, t: nat)
    requires p == k * 4096 + t && t < 4096
    ensures p / BLOCK_SIZE == k && p % BLOCK_SIZE == t
  {
  }

  /** A block that starts at or before position `p` has an index no greater than p / 4096. */
  lemma BlockBelow(k: nat, p: nat)
    requires k * 4096 <= p
    ensures k <= p / BLOCK_SIZE
  {
  }

  // ---------------------------------------------------------------- name copy

  /**
   * fs_dir_read_helper (and fs_print_name, whose body is the same): 0 when
   * `offset` is not below the directory count; otherwise the name of entry
   * `offset` is copied until its NUL, 32 bytes or `length` bytes, and no
   * terminator is written.
   */
  method NameCopy(img: Image, offset: nat, buf: array<byte>, length: nat) returns (r: nat)
    requires WellFormed(img)
    requires Min(length, NAME_LEN) <= buf.Length
    modifies buf
    ensures offset >= img.dirCount ==> r == 0 && buf[..] == old(buf[..])
    ensures offset < img.dirCount ==>
      r == Min(length, NameLen(img.dentries[offset].name)) &&
      buf[..r] == img.dentries[offset].name[..r] && buf[r..] == old(buf[r..])
  {
    if offset >= img.dirCount {
      return 0;
    }
    var name := img.dentries[offset].name;
    var remaining := length;
    r := 0;
    while remaining > 0 && r < NAME_LEN
      invariant r <= NameLen(name) && r + remaining == length
      invariant buf[..r] == name[..r]
      invariant forall j :: r <= j < buf.Length ==> buf[j] == old(buf[j])
    {
      var c := name[r];
      if c == NUL {
        break;
      }
      buf[r] := c;
      remaining := remaining - 1;
      r := r + 1;
    }
  }

  // ---------------------------------------------------------------- stubs

  /** filesys_open, fs_dir_open: nothing to do, always 0. */
  function FileOpen(): (r: int) ensures r == 0 { 0 }

  /** filesys_write, fs_dir_write: the file system is read-only, always -1. */
  function FileWrite(): (r: int) ensures r == -1 { -1 }

  /** filesys_close, fs_dir_close: nothing to do, always 0. */
  function FileClose(): (r: int) ensures r == 0 { 0 }

  // ---------------------------------------------------------------- directory cursor

  /** The listing cursor: `fs_dir_read_flag` and `file_pos_keeper`. */
  datatype Cursor = Cursor(listing: bool, keeper: nat)

  /** The outcome of one listing call: its return value, the name it produced, the next cursor. */
  datatype LsOutcome = LsOutcome(result: int, name: Option<seq<byte>>, next: Cursor)

  /**
   * fs_dir_ls_read_helper as a step function. The first call (flag clear) sets
   * the flag and looks `fname` up by name, which moves the keeper to the
   * matching entry; later calls advance the keeper and read by index, and when
   * the index runs out they clear flag and keeper and return 0. A failed first
   * lookup returns -1 and leaves the flag set.
   */
  function LsStep(img: Image, c: Cursor, fname: seq<byte>): (o: LsOutcome)
    requires WellFormed(img) && NUL in fname
    ensures o.name.Some? ==> o.result == |o.name.value| && o.next.listing && |o.name.value| <= NAME_LEN
    ensures o.name.None? ==>
      (o.result == -1 && !c.listing && o.next == Cursor(true, c.keeper)) ||
      (o.result == 0 && c.listing && o.next == Cursor(false, 0))
  {
    if !c.listing then
      var k := LookupIndex(img, fname);
      if k >= 0 then
        var name := img.dentries[k].name;
        LsOutcome(NameLen(name), Some(name[..NameLen(name)]), Cursor(true, k))
      else LsOutcome(-1, None, Cursor(true, c.keeper))
    else
      match DentryAt(img, c.keeper + 1)
      case Some(d) => LsOutcome(NameLen(d.name), Some(d.name[..NameLen(d.name)]), Cursor(true, c.keeper + 1))
      case None => LsOutcome(0, None, Cursor(false, 0))
  }

  /** The cursor after `steps` listing calls with the same name. */
  function LsRun(img: Image, c: Cursor, fname: seq<byte>, steps: nat): Cursor
    requires WellFormed(img) && NUL in fname
    decreases steps
  {
    if steps == 0 then c else LsRun(img, LsStep(img, c, fname).next, fname, steps - 1)
  }

  /**
   * A listing in progress runs to its end: from keeper `k` it yields the names
   * of entries k+1 .. dirCount−1, one per call, and the call after those
   * returns 0 and puts the cursor back to its initial state, so the next
   * listing starts afresh with a lookup by name.
   */
  lemma {:induction false} ListingEnds(img: Image, c: Cursor, fname: seq<byte>)
    requires WellFormed(img) && NUL in fname && c.listing
    ensures var steps := Max(0, img.dirCount - 1 - c.keeper);
      var last := LsRun(img, c, fname, steps);
      last.listing && LsStep(img, last, fname).result == 0 &&
      LsStep(img, last, fname).next == Cursor(false, 0)
    decreases Max(0, img.dirCount - 1 - c.keeper)
  {
    if c.keeper + 1 < img.dirCount {
      var o := LsStep(img, c, fname);
      assert o.next == Cursor(true, c.keeper + 1);
      ListingEnds(img, o.next, fname);
    }
  }

  /** Every name a listing in progress yields is that of the next entry. */
  lemma ListingYieldsNextEntry(img: Image, c: Cursor, fname: seq<byte>)
    requires WellFormed(img) && NUL in fname && c.listing && c.keeper + 1 < img.dirCount
    ensures var name := img.dentries[c.keeper + 1].name;
      LsStep(img, c, fname).name == Some(name[..NameLen(name)])
  {
  }

  // ---------------------------------------------------------------- the statics

  /** The file system with the statics of filesys.c. */
  class FileSystem {
    const img: Image
    /** `file_pos_keeper`: the entry a listing last produced (also moved by lookups by name). */
    var filePosKeeper: nat
    /** `fs_dir_read_flag`: a listing is in progress. */
    var listing: bool

    ghost predicate Valid()
      reads this
    {
      WellFormed(img)
    }

    /** The statics start at 0. */
    constructor(img: Image)
      requires WellFormed(img)
      ensures Valid() && this.img == img && filePosKeeper == 0 && !listing
    {
      this.img := img;
      filePosKeeper := 0;
      listing := false;
    }

    /**
     * read_dentry_by_name: scans the 63 entries in order and takes the first
     * that matches, recording its index in `file_pos_keeper`.
     */
    method ReadDentryByName(fname: seq<byte>) returns (found: Option<Dentry>)
      requires Valid() && NUL in fname
      modifies this`filePosKeeper
      ensures var k := LookupIndex(img, fname);
        (k >= 0 ==> found == Some(img.dentries[k]) && filePosKeeper == k) &&
        (k < 0 ==> found == None && filePosKeeper == old(filePosKeeper))
    {
      var flen := FnameLen(fname);
      if flen == 0 {
        return None;
      }
      var i := 0;
      while i < DENTRY_COUNT
        invariant 0 <= i <= DENTRY_COUNT
        invariant FirstMatch(img, fname, flen, 0) == FirstMatch(img, fname, flen, i)
        invariant filePosKeeper == old(filePosKeeper)
      {
        var d := img.dentries[i];
        var stored := NameLen(d.name);
        if stored == flen || stored >= NAME_LEN {
          if Lib.Strncmp(fname, d.name, flen) == 0 {
            filePosKeeper := i;
            return Some(d);
          }
        }
        i := i + 1;
      }
      return None;
    }

    /**
     * filesys_read_helper: looks the file up by name (moving the keeper as any
     * lookup does), then reads its data.
     */
    method FilesysReadHelper(fname: seq<byte>, offset: nat, buf: array<byte>, length: nat) returns (r: int)
      requires Valid() && NUL in fname
      requires Min(length, BLOCKS_PER_INODE * BLOCK_SIZE) <= buf.Length
      modifies this`filePosKeeper, buf
      ensures var k := LookupIndex(img, fname);
        (k < 0 ==> r == -1 && buf[..] == old(buf[..]) && filePosKeeper == old(filePosKeeper)) &&
        (k >= 0 ==> r == ReadDataResult(img, img.dentries[k].inode, offset, length) && filePosKeeper == k)
      ensures var k := LookupIndex(img, fname);
        k >= 0 && r >= 0 ==> buf[..r] == FileBytes(img, img.dentries[k].inode, offset, r) && buf[r..] == old(buf[r..])
    {
      var found := ReadDentryByName(fname);
      if found.None? {
        return -1;
      }
      r := ReadData(img, found.value.inode, offset, buf, length);
    }

    /**
     * fs_dir_ls_read_helper: one step of the listing cursor. When it yields a
     * name, the 33-byte buffer holds the name followed by NULs.
     */
    method LsRead(fname: seq<byte>, buf: array<byte>) returns (r: int)
      requires Valid() && NUL in fname
      requires LS_BUF_SIZE <= buf.Length
      modifies this, buf
      ensures var o := LsStep(img, Cursor(old(listing), old(filePosKeeper)), fname);
        r == o.result && listing == o.next.listing && filePosKeeper == o.next.keeper &&
        (o.name.Some? ==> buf[..LS_BUF_SIZE] == o.name.value + Zeros(LS_BUF_SIZE - |o.name.value|)
                          && buf[LS_BUF_SIZE..] == old(buf[LS_BUF_SIZE..])) &&
        (o.name.None? ==> buf[..] == old(buf[..]))
    {
      var d: Dentry;
      if !listing {
        listing := true;
        var found := ReadDentryByName(fname);
        if found.None? {
          return -1;
        }
        d := found.value;
      } else {
        filePosKeeper := filePosKeeper + 1;
        var found := DentryAt(img, filePosKeeper);
        if found.None? {
          listing := false;
          filePosKeeper := 0;
          return 0;
        }
        d := found.value;
      }
      var nameLength := NameLen(d.name);
      ShowName(buf, d.name);
      return nameLength;
    }
  }

  /**
   * The buffer filling of fs_dir_ls_read_helper: 33 NULs, then the name copied
   * over them up to its NUL or its 32 bytes.
   */
  method ShowName(buf: array<byte>, name: seq<byte>)
    requires |name| == NAME_LEN && LS_BUF_SIZE <= buf.Length
    modifies buf
    ensures buf[..LS_BUF_SIZE] == name[..NameLen(name)] + Zeros(LS_BUF_SIZE - NameLen(name))
    ensures buf[LS_BUF_SIZE..] == old(buf[LS_BUF_SIZE..])
  {
    ClearPrefix(buf, LS_BUF_SIZE);
    var nameLength := NameLen(name);
    ghost var cleared := buf[..];
    Lib.Strncpy(buf, name, nameLength);
    NamePadded(cleared, buf[..], name, nameLength);
  }

  /** The NUL loop of fs_dir_ls_read_helper: the first `n` bytes become NUL. */
  method ClearPrefix(buf: array<byte>, n: nat)
    requires n <= buf.Length
    modifies buf
    ensures buf[..n] == Zeros(n) && buf[n..] == old(buf[n..])
  {
    var index := 0;
    while index < n
      invariant 0 <= index <= n
      invariant forall j :: 0 <= j < index ==> buf[j] == NUL
      invariant forall j :: n <= j < buf.Length ==> buf[j] == old(buf[j])
    {
      buf[index] := NUL;
      index := index + 1;
    }
    assert buf[..n] == Zeros(n);
  }

  /** The name copied over a cleared buffer is followed by the NULs that were there. */
  lemma NamePadded(cleared: seq<byte>, after: seq<byte>, name: seq<byte>, n: nat)
    requires |name| == NAME_LEN && n == NameLen(name)
    requires LS_BUF_SIZE <= |cleared| == |after| && cleared[..LS_BUF_SIZE] == Zeros(LS_BUF_SIZE)
    requires after[..n] == name[..Lib.StrnLen(name, n)] + Zeros(n - Lib.StrnLen(name, n))
    requires after[n..] == cleared[n..]
    ensures after[..LS_BUF_SIZE] == name[..n] + Zeros(LS_BUF_SIZE - n)
    ensures after[LS_BUF_SIZE..] == cleared[LS_BUF_SIZE..]
  {
    assert Lib.StrnLen(name, n) == n;
    assert after[..n] == name[..n];
    assert forall j :: n <= j < LS_BUF_SIZE ==> after[j] == cleared[j] == NUL;
    assert after[..LS_BUF_SIZE] == name[..n] + Zeros(LS_BUF_SIZE - n);
    assert forall j :: LS_BUF_SIZE <= j < |after| ==> after[j] == after[n..][j - n];
  }
}
