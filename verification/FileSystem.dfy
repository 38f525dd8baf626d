/** The read-only file system: a boot block of directory entries, one block per inode, then data blocks.
    Addresses count from the start of the image. */
module FileSystem {
  import opened Screens

  type Memory = nat -> Byte

  const BLOCK := 4096
  const ENTRY := 64
  const NAME := 32
  const U32 := 0x1_0000_0000

  function Wrap(x: int): (r: nat)
    ensures r < U32 && (0 <= x < U32 ==> r == x)
  {
    x % U32
  }

  function ByteAt(mem: Memory, a: nat): Byte {
    mem(a)
  }

  function WordAt(mem: Memory, a: nat): (w: nat)
    ensures w < U32
  {
    ByteAt(mem, a) + 0x100 * ByteAt(mem, a + 1) + 0x1_0000 * ByteAt(mem, a + 2) + 0x100_0000 * ByteAt(mem, a + 3)
  }

  function DentryCount(mem: Memory): nat { WordAt(mem, 0) }
  function InodeCount(mem: Memory): nat { WordAt(mem, 4) }
  function BlockCount(mem: Memory): nat { WordAt(mem, 8) }

  function InodeAt(inode: nat): nat { BLOCK * (inode + 1) }
  function FileSize(mem: Memory, inode: nat): (n: nat)
    ensures n < U32
  {
    WordAt(mem, InodeAt(inode))
  }

  function BlockOf(mem: Memory, inode: nat, k: nat): nat {
    WordAt(mem, InodeAt(inode) + 4 + 4 * k)
  }

  function DataAt(mem: Memory): nat { BLOCK * (InodeCount(mem) + 1) }

  function InBlock(offset: nat): (r: nat)
    ensures r < BLOCK
  {
    offset % BLOCK
  }

  /** The address of a file position, found through the block list. */
  function AddressOf(mem: Memory, inode: nat, p: nat): nat {
    DataAt(mem) + BLOCK * BlockOf(mem, inode, p / BLOCK) + InBlock(p)
  }

  function FileByte(mem: Memory, inode: nat, p: nat): Byte {
    ByteAt(mem, AddressOf(mem, inode, p))
  }

  /** What the loop takes to be left from the start of the block of offset, as a machine word. */
  function LeftFrom(size: nat, offset: nat): nat {
    Wrap(size - BLOCK * (offset / BLOCK))
  }

  function Content(mem: Memory, inode: nat): (c: seq<Byte>)
    ensures |c| == FileSize(mem, inode)
  {
    seq(FileSize(mem, inode), p requires 0 <= p => FileByte(mem, inode, p))
  }

  /** The checks read_data makes before it reads: they also cover the block entry just past a file that ends
      on a block boundary. */
  predicate Readable(mem: Memory, inode: nat) {
    && inode <= Wrap(InodeCount(mem) - 1)
    && FileSize(mem, inode) != 0
    && (forall k :: 0 <= k <= FileSize(mem, inode) / BLOCK ==> BlockOf(mem, inode, k) <= Wrap(BlockCount(mem) - 1))
  }

  // ------------------------------------------------------------------ the read loop

  /** The loop stops here: no byte is left in what it takes to be the current block. */
  predicate Exhausted(size: nat, offset: nat, j: nat) {
    InBlock(offset) + j > Wrap(LeftFrom(size, offset) - 1)
  }

  /** The file positions the loop reads, from iteration i on, with its current offset and j. */
  function Positions(size: nat, offset: nat, i: nat, j: nat, length: nat): (ps: seq<nat>)
    ensures |ps| <= if i < length then length - i else 0
    decreases length - i
  {
    if i >= length || Exhausted(size, offset, j) then []
    else if InBlock(offset) + j > BLOCK - 1 then
      [Wrap(offset + i)] + Positions(size, Wrap(offset + i), i + 1, 1, length)
    else
      [offset + j] + Positions(size, offset, i + 1, j + 1, length)
  }

  function Span(from: nat, to: nat): (s: seq<nat>)
    requires from <= to
    ensures |s| == to - from && forall k :: 0 <= k < |s| ==> s[k] == from + k
  {
    seq(to - from, k requires 0 <= k => from + k)
  }

  function Min(a: nat, b: nat): nat { if a <= b then a else b }

  function BytesAt(mem: Memory, inode: nat, ps: seq<nat>): (bytes: seq<Byte>)
    ensures |bytes| == |ps| && forall k :: 0 <= k < |ps| ==> bytes[k] == FileByte(mem, inode, ps[k])
  {
    seq(|ps|, k requires 0 <= k < |ps| => FileByte(mem, inode, ps[k]))
  }

  /** read_data fills the buffer, from the place its pointer shows, with the bytes at exactly those positions,
      and touches nothing else. */
  method ReadData(mem: Memory, inode: nat, offset0: nat, buf: array<Byte>, at: nat, length: nat) returns (ret: int)
    requires offset0 < U32 && at + length <= buf.Length
    modifies buf
    ensures !Readable(mem, inode) ==> ret == -1 && buf[..] == old(buf[..])
    ensures Readable(mem, inode) ==>
      var bytes := BytesAt(mem, inode, Positions(FileSize(mem, inode), offset0, 0, 0, length));
      ret == |bytes| <= length && buf[..] == old(buf[..at]) + bytes + old(buf[at + |bytes|..])
  {
    if inode > Wrap(InodeCount(mem) - 1) {
      return -1;
    }
    var inodeAddr := BLOCK * (inode + 1);
    var fileSize := WordAt(mem, inodeAddr);
    if fileSize == 0 {
      return -1;
    }
    var sane := BlocksSane(mem, inode);
    if !sane {
      return -1;
    }
    ret := CopyLoop(mem, inode, offset0, buf, at, length);
  }

  method CopyLoop(mem: Memory, inode: nat, offset0: nat, buf: array<Byte>, at: nat, length: nat) returns (ret: int)
    requires at + length <= buf.Length
    modifies buf
    ensures var bytes := BytesAt(mem, inode, Positions(FileSize(mem, inode), offset0, 0, 0, length));
      ret == |bytes| <= length && buf[..] == old(buf[..at]) + bytes + old(buf[at + |bytes|..])
  {
    hide Positions;
    hide BytesAt;
    hide ByteAt;
    hide InBlock;
    hide Wrap;
    hide LeftFrom;
    hide AddressOf;
    hide WordAt;
    var fileSize := FileSize(mem, inode);
    var inodeAddr := BLOCK * (inode + 1) + 4;
    var offset: nat := offset0;
    var byteLeft, dataAddr := EnterBlock(mem, inode, inodeAddr, fileSize, offset);
    ghost var ps := Positions(fileSize, offset0, 0, 0, length);
    ghost var bytes := BytesAt(mem, inode, ps);
    var i: nat, j: nat := 0, 0;
    while i < length
      invariant 0 <= i <= length && i <= |ps| <= length
      invariant byteLeft == LeftFrom(fileSize, offset) && dataAddr == AddressOf(mem, inode, offset)
      invariant ps[i..] == Positions(fileSize, offset, i, j, length)
      invariant buf[..] == old(buf[..at]) + bytes[..i] + old(buf[at + i..])
    {
      NextPosition(ps, fileSize, offset, i, j, length);
      if InBlock(offset) + j > Wrap(byteLeft - 1) {
        return i;
      }
      offset, j, byteLeft, dataAddr := SwitchBlockIfFull(mem, inode, inodeAddr, fileSize, offset, i, j,
                                                         byteLeft, dataAddr);
      SamePlace(mem, inode, offset, j);
      StoreByte(buf, at, i, ByteAt(mem, dataAddr + j), bytes[..i], old(buf[..]));
      assert bytes[..i + 1] == bytes[..i] + [bytes[i]];
      i, j := i + 1, j + 1;
    }
    NextPosition(ps, fileSize, offset, i, j, length);
    ret := i;
  }

  method StoreByte(buf: array<Byte>, at: nat, i: nat, b: Byte, ghost done: seq<Byte>, ghost was: seq<Byte>)
    requires |done| == i && at + |done| < buf.Length == |was| && buf[..] == was[..at] + done + was[at + |done|..]
    modifies buf
    ensures buf[..] == was[..at] + (done + [b]) + was[at + |done| + 1..]
  {
    buf[at + i] := b;
  }

  /** The switch in the middle of the loop: the whole count i is added to an offset that may have moved already. */
  method SwitchBlockIfFull(mem: Memory, ghost inode: nat, inodeAddr: nat, fileSize: nat, offset0: nat, i: nat, j0: nat,
                           left0: int, addr0: nat)
    returns (offset: nat, j: nat, byteLeft: int, dataAddr: nat)
    requires inodeAddr == InodeAt(inode) + 4
    requires left0 == LeftFrom(fileSize, offset0) && addr0 == AddressOf(mem, inode, offset0)
    ensures if InBlock(offset0) + j0 > BLOCK - 1 then offset == Wrap(offset0 + i) && j == 0
            else offset == offset0 && j == j0
    ensures InBlock(offset) + j < BLOCK
    ensures byteLeft == LeftFrom(fileSize, offset) && dataAddr == AddressOf(mem, inode, offset)
  {
    offset, j, byteLeft, dataAddr := offset0, j0, left0, addr0;
    if InBlock(offset) + j > BLOCK - 1 {
      offset := Wrap(offset + i);
      j := 0;
      byteLeft, dataAddr := EnterBlock(mem, inode, inodeAddr, fileSize, offset);
    }
  }

  /** inodeAddr has stepped over the size to the first block number. */
  method EnterBlock(mem: Memory, ghost inode: nat, inodeAddr: nat, fileSize: nat, offset: nat)
    returns (byteLeft: int, dataAddr: nat)
    requires inodeAddr == InodeAt(inode) + 4
    ensures byteLeft == LeftFrom(fileSize, offset) && dataAddr == AddressOf(mem, inode, offset)
  {
    var dbAddr := BLOCK * (InodeCount(mem) + 1);
    var blockNumber := WordAt(mem, inodeAddr + 4 * (offset / BLOCK));
    byteLeft := Wrap(fileSize - BLOCK * (offset / BLOCK));
    dataAddr := dbAddr + BLOCK * blockNumber + offset % BLOCK;
  }

  method BlocksSane(mem: Memory, inode: nat) returns (sane: bool)
    ensures sane <==>
      forall k :: 0 <= k <= FileSize(mem, inode) / BLOCK ==> BlockOf(mem, inode, k) <= Wrap(BlockCount(mem) - 1)
  {
    var temp := BLOCK * (inode + 1) + 4;
    var i := 0;
    while i <= FileSize(mem, inode) / BLOCK
      invariant 0 <= i <= FileSize(mem, inode) / BLOCK + 1 && temp == InodeAt(inode) + 4 + 4 * i
      invariant forall k :: 0 <= k < i ==> BlockOf(mem, inode, k) <= Wrap(BlockCount(mem) - 1)
    {
      assert BlockOf(mem, inode, i) == WordAt(mem, temp);
      if WordAt(mem, temp) > Wrap(BlockCount(mem) - 1) {
        return false;
      }
      temp := temp + 4;
      i := i + 1;
    }
    sane := true;
  }

  /** Within one block, the address of offset plus j is the address of that file position. */
  lemma SamePlace(mem: Memory, inode: nat, offset: nat, j: nat)
    requires InBlock(offset) + j < BLOCK
    ensures AddressOf(mem, inode, offset) + j == AddressOf(mem, inode, offset + j)
  {
  }

  /** One iteration, seen from the whole list of positions. */
  lemma NextPosition(ps: seq<nat>, size: nat, offset: nat, i: nat, j: nat, length: nat)
    requires i <= |ps| && i <= length && ps[i..] == Positions(size, offset, i, j, length)
    ensures i == length || Exhausted(size, offset, j) ==> |ps| == i
    ensures i < length && !Exhausted(size, offset, j) ==> i < |ps|
    ensures i < length && !Exhausted(size, offset, j) ==>
      if InBlock(offset) + j > BLOCK - 1 then
        ps[i] == Wrap(offset + i) && ps[i + 1..] == Positions(size, Wrap(offset + i), i + 1, 1, length)
      else ps[i] == offset + j && ps[i + 1..] == Positions(size, offset, i + 1, j + 1, length)
  {
  }

  // ------------------------------------------------------------------ when the loop is right

  /** Inside a block that is the last one the request needs, the positions read are contiguous. */
  lemma {:induction false} WithinBlock(size: nat, offset: nat, i: nat, j: nat, length: nat)
    requires size < U32 && i <= length && offset + j <= size && offset <= size
    requires offset % BLOCK + j <= BLOCK && BLOCK * (offset / BLOCK) < size
    requires Min(length - i, size - offset - j) <= BLOCK - offset % BLOCK - j
    ensures Positions(size, offset, i, j, length) == Span(offset + j, offset + j + Min(length - i, size - offset - j))
    decreases length - i
  {
    LeftInBlock(size, offset, j);
    if i < length && offset + j < size {
      WithinBlock(size, offset, i + 1, j + 1, length);
    }
  }

  /** The end test of the loop, without the machine words. */
  lemma LeftInBlock(size: nat, offset: nat, j: nat)
    requires size < U32 && BLOCK * (offset / BLOCK) < size
    ensures Exhausted(size, offset, j) <==> offset + j >= size
  {
  }

  /** From the second block on: right to the end of that block, then wrong by what the first block gave. */
  lemma {:induction false} SecondBlock(size: nat, offset: nat, i: nat, j: nat, length: nat)
    requires size < U32 && offset % BLOCK == 0 && offset + j <= size && offset < size && j <= BLOCK && i <= length
    requires 0 < i - j <= BLOCK
    ensures var n := Min(length - i, size - offset - j); var ps := Positions(size, offset, i, j, length);
      if n <= BLOCK - j then ps == Span(offset + j, offset + j + n)
      else |ps| > BLOCK - j && ps[BLOCK - j] != offset + BLOCK
    decreases length - i
  {
    var n := Min(length - i, size - offset - j);
    if n <= BLOCK - j {
      WithinBlock(size, offset, i, j, length);
    } else {
      LeftInBlock(size, offset, j);
      if j < BLOCK {
        SecondBlock(size, offset, i + 1, j + 1, length);
      } else {
        WrongTurn(offset, i);
      }
    }
  }

  lemma WrongTurn(offset: nat, i: nat)
    requires offset + BLOCK < U32 && BLOCK < i <= 2 * BLOCK
    ensures Wrap(offset + i) != offset + BLOCK
  {
  }

  /** The first block, r bytes of which lie before the offset, and a request that ends before the third. */
  lemma {:induction false} FirstBlockRight(size: nat, offset: nat, r: nat, i: nat, length: nat)
    requires size < U32 && offset < size && offset + i <= size && i <= length
    requires r == offset % BLOCK && r + i <= BLOCK && Min(length, size - offset) <= 2 * BLOCK - r
    ensures Positions(size, offset, i, i, length) == Span(offset + i, offset + Min(length, size - offset))
    decreases length - i
  {
    hide Exhausted;
    LeftInBlock(size, offset, i);
    if i < length && offset + i < size {
      if r + i < BLOCK {
        assert Positions(size, offset, i, i, length) == [offset + i] + Positions(size, offset, i + 1, i + 1, length);
        FirstBlockRight(size, offset, r, i + 1, length);
        JoinSpan(offset + i, offset + Min(length, size - offset));
      } else {
        SwitchBlock(size, offset, i, length);
      }
    }
  }

  /** The same for a request that goes on: the byte due from the start of the third block comes from elsewhere. */
  lemma {:induction false} FirstBlockWrong(size: nat, offset: nat, r: nat, i: nat, length: nat)
    requires size < U32 && offset < size && offset + i <= size && i <= length
    requires r == offset % BLOCK && r + i <= BLOCK && Min(length, size - offset) > 2 * BLOCK - r
    ensures var ps := Positions(size, offset, i, i, length);
      |ps| > 2 * BLOCK - r - i && ps[2 * BLOCK - r - i] != offset + 2 * BLOCK - r
    decreases length - i
  {
    hide Exhausted;
    LeftInBlock(size, offset, i);
    if r + i < BLOCK {
      FirstBlockWrong(size, offset, r, i + 1, length);
      assert Positions(size, offset, i, i, length) == [offset + i] + Positions(size, offset, i + 1, i + 1, length);
    } else {
      SwitchBlock(size, offset, i, length);
    }
  }

  lemma SwitchBlock(size: nat, offset: nat, i: nat, length: nat)
    requires size < U32 && i < length && offset + i < size && offset % BLOCK + i == BLOCK
    ensures var n := Min(length, size - offset); var ps := Positions(size, offset, i, i, length);
      if n <= BLOCK + i then ps == Span(offset + i, offset + n)
      else |ps| > BLOCK && ps[BLOCK] != offset + i + BLOCK
  {
    hide Exhausted;
    LeftInBlock(size, offset, i);
    var next := offset + i;
    assert next == BLOCK * (offset / BLOCK + 1);
    assert next % BLOCK == 0 && BLOCK * (next / BLOCK) == next;
    assert Positions(size, offset, i, i, length) == [next] + Positions(size, next, i + 1, 1, length);
    SecondBlock(size, next, i + 1, 1, length);
    JoinSpan(next, offset + Min(length, size - offset));
  }

  lemma JoinSpan(from: nat, to: nat)
    requires from < to
    ensures [from] + Span(from + 1, to) == Span(from, to)
  {
  }

  /** read_data is right exactly when the bytes due do not reach a third block. Below the end of the file, the
      positions read are those of the slice asked for if and only if their number is at most 8192 - offset % 4096. */
  lemma ReadsTheSlice(size: nat, offset: nat, length: nat)
    requires size < U32 && offset < size
    ensures var n := Min(length, size - offset);
      Positions(size, offset, 0, 0, length) == Span(offset, offset + n) <==> n <= 2 * BLOCK - offset % BLOCK
  {
    var n := Min(length, size - offset);
    if n <= 2 * BLOCK - offset % BLOCK {
      FirstBlockRight(size, offset, offset % BLOCK, 0, length);
    } else {
      FirstBlockWrong(size, offset, offset % BLOCK, 0, length);
      var k := 2 * BLOCK - offset % BLOCK;
      assert Span(offset, offset + n)[k] == offset + k;
    }
  }

  /** What execute does with a program, one read of the whole file from its start, takes every byte from its
      place exactly when the program is at most two blocks long. */
  lemma LoadsWholeProgram(size: nat)
    requires 0 < size < U32
    ensures Positions(size, 0, 0, 0, size) == Span(0, size) <==> size <= 2 * BLOCK
  {
    ReadsTheSlice(size, 0, size);
  }

  /** At the end of the file a read gives 0 exactly when the file does not end on a block boundary. */
  lemma EndOfFile(size: nat, length: nat)
    requires 0 < size < U32 && length > 0
    ensures Positions(size, size, 0, 0, length) == [] <==> size % BLOCK != 0
  {
  }

  /** A file that ends on a block boundary has no end for a reader: from no position does a read of at least
      one byte ever give 0. */
  lemma NeverGivesZero(size: nat, pos: nat, length: nat)
    requires 0 < size < U32 && size % BLOCK == 0 && pos < U32 && length > 0
    ensures Positions(size, pos, 0, 0, length) != []
  {
    var k, m := pos / BLOCK, size / BLOCK;
    assert pos == BLOCK * k + pos % BLOCK && size == BLOCK * m;
    var left := size - BLOCK * k;
    assert left == BLOCK * (m - k);
    if left < 0 {
      assert Wrap(left) == left + U32 && left + U32 >= BLOCK;
    }
  }

  // ------------------------------------------------------------------ descriptors

  datatype Desc = Desc(inode: nat, pos: nat)

  function BytesRead(mem: Memory, d: Desc, length: nat): seq<Byte> {
    BytesAt(mem, d.inode, Positions(FileSize(mem, d.inode), d.pos, 0, 0, length))
  }

  /** data_read advances the descriptor by what read_data returned, even when that is -1. */
  function Advance(mem: Memory, d: Desc, length: nat): Desc {
    Desc(d.inode, Wrap(d.pos + if Readable(mem, d.inode) then |BytesRead(mem, d, length)| else -1))
  }

  class OpenFiles {
    const mem: Memory
    var table: seq<Desc>

    constructor (mem: Memory, table: seq<Desc>)
      ensures this.mem == mem && this.table == table
    {
      this.mem := mem;
      this.table := table;
    }

    method DataRead(fd: int, buf: array<Byte>, at: nat, size: nat) returns (ret: int)
      requires |table| == 8 && at + size <= buf.Length && forall k :: 0 <= k < 8 ==> table[k].pos < U32
      modifies `table, buf
      ensures fd < 0 || fd > 7 ==> ret == -1 && table == old(table) && buf[..] == old(buf[..])
      ensures 0 <= fd <= 7 ==> table == old(table)[fd := Advance(mem, old(table)[fd], size)]
      ensures 0 <= fd <= 7 ==>
        table == old(table)[fd := Desc(old(table)[fd].inode, (old(table)[fd].pos + ret) % 0x1_0000_0000)]
      ensures 0 <= fd <= 7 && Readable(mem, old(table)[fd].inode) ==>
        var bytes := BytesRead(mem, old(table)[fd], size);
        ret == |bytes| <= size && buf[..] == old(buf[..at]) + bytes + old(buf[at + |bytes|..])
      ensures 0 <= fd <= 7 && !Readable(mem, old(table)[fd].inode) ==> ret == -1 && buf[..] == old(buf[..])
    {
      if fd > 7 || fd < 0 {
        return -1;
      }
      ret := ReadData(mem, table[fd].inode, table[fd].pos, buf, at, size);
      table := table[fd := Desc(table[fd].inode, Wrap(table[fd].pos + ret))];
    }
  }

  datatype Request = Request(fd: nat, length: nat)

  /** The table after a run of reads, and the bytes each descriptor was given. */
  function TableAfter(mem: Memory, table: seq<Desc>, asked: seq<Request>): (r: seq<Desc>)
    requires forall q :: q in asked ==> q.fd < |table|
    ensures |r| == |table|
  {
    if asked == [] then table
    else
      var n := |asked| - 1;
      var q := asked[n];
      assert q in asked;
      var before := TableAfter(mem, table, asked[..n]);
      before[q.fd := Advance(mem, before[q.fd], q.length)]
  }

  function Given(mem: Memory, table: seq<Desc>, asked: seq<Request>, fd: nat): seq<Byte>
    requires fd < |table| && forall q :: q in asked ==> q.fd < |table|
  {
    if asked == [] then []
    else
      var n := |asked| - 1;
      var q := asked[n];
      assert q in asked;
      Given(mem, table, asked[..n], fd) +
        if q.fd == fd then BytesRead(mem, TableAfter(mem, table, asked[..n])[fd], q.length) else []
  }

  /** The one read that goes wrong: not empty, at the very end of a file that ends on a block boundary. */
  predicate OffTheEnd(mem: Memory, d: Desc, length: nat) {
    length > 0 && d.pos == FileSize(mem, d.inode) && FileSize(mem, d.inode) % BLOCK == 0
  }

  /** One read of at most a block gives the next slice and moves past it, unless it is the one that goes wrong. */
  lemma OneRead(mem: Memory, d: Desc, length: nat)
    requires Readable(mem, d.inode) && d.pos <= FileSize(mem, d.inode) && length <= BLOCK
    ensures var n := Min(length, FileSize(mem, d.inode) - d.pos);
      BytesRead(mem, d, length) == Content(mem, d.inode)[d.pos..d.pos + n] &&
      Advance(mem, d, length) == Desc(d.inode, d.pos + n) <==>
      !OffTheEnd(mem, d, length)
  {
    hide Positions, FileByte, Content, BytesAt;
    var size := FileSize(mem, d.inode);
    var n := Min(length, size - d.pos);
    if OffTheEnd(mem, d, length) {
      EndOfFile(size, length);
    } else {
      NextPositions(size, d.pos, length);
      SliceBytes(mem, d.inode, d.pos, d.pos + n);
    }
  }

  lemma NextPositions(size: nat, pos: nat, length: nat)
    requires 0 < size < U32 && pos <= size && length <= BLOCK
    requires pos == size && length > 0 ==> size % BLOCK != 0
    ensures Positions(size, pos, 0, 0, length) == Span(pos, pos + Min(length, size - pos))
  {
    if pos < size {
      ReadsTheSlice(size, pos, length);
    } else if length > 0 {
      EndOfFile(size, length);
    }
  }

  lemma SliceBytes(mem: Memory, inode: nat, from: nat, to: nat)
    requires from <= to <= FileSize(mem, inode)
    ensures BytesAt(mem, inode, Span(from, to)) == Content(mem, inode)[from..to]
  {
  }

  lemma JoinSlices(c: seq<Byte>, a: nat, b: nat, d: nat)
    requires a <= b <= d <= |c|
    ensures c[a..b] + c[b..d] == c[a..d]
  {
  }

  /** One more read at the end of a run. */
  lemma ReadStep(mem: Memory, table: seq<Desc>, asked: seq<Request>, fd: nat)
    requires fd < |table| && asked != [] && forall q :: q in asked ==> q.fd < |table|
    ensures var n := |asked| - 1; var e := TableAfter(mem, table, asked[..n])[fd]; var q := asked[n];
      TableAfter(mem, table, asked)[fd] == (if q.fd == fd then Advance(mem, e, q.length) else e) &&
      Given(mem, table, asked, fd) ==
        Given(mem, table, asked[..n], fd) + (if q.fd == fd then BytesRead(mem, e, q.length) else [])
  {
  }

  /** No read of the run through this descriptor is the one that goes wrong. */
  predicate NeverOffTheEnd(mem: Memory, table: seq<Desc>, asked: seq<Request>, fd: nat)
    requires fd < |table| && forall q :: q in asked ==> q.fd < |table|
  {
    if asked == [] then true
    else
      var n := |asked| - 1;
      NeverOffTheEnd(mem, table, asked[..n], fd) &&
      (asked[n].fd == fd ==> !OffTheEnd(mem, TableAfter(mem, table, asked[..n])[fd], asked[n].length))
  }

  /** The descriptor has been given exactly the bytes of its file between where it started and where it stands. */
  predicate GivenInOrder(mem: Memory, table: seq<Desc>, asked: seq<Request>, fd: nat)
    requires fd < |table| && forall q :: q in asked ==> q.fd < |table|
  {
    var d, e := table[fd], TableAfter(mem, table, asked)[fd];
    e.inode == d.inode && d.pos <= e.pos <= FileSize(mem, d.inode) &&
    Given(mem, table, asked, fd) == Content(mem, d.inode)[d.pos..e.pos]
  }

  lemma {:induction false} InOrder(mem: Memory, table: seq<Desc>, asked: seq<Request>, fd: nat)
    requires fd < |table| && forall q :: q in asked ==> q.fd < |table| && q.length <= BLOCK
    requires Readable(mem, table[fd].inode) && table[fd].pos <= FileSize(mem, table[fd].inode)
    requires NeverOffTheEnd(mem, table, asked, fd)
    ensures GivenInOrder(mem, table, asked, fd)
  {
    hide BytesRead, Advance, Content, Readable, OffTheEnd, TableAfter, Given;
    if asked == [] {
      NothingAsked(mem, table, fd);
    } else {
      var n := |asked| - 1;
      assert asked[n] in asked;
      InOrder(mem, table, asked[..n], fd);
      ReadStep(mem, table, asked, fd);
      if asked[n].fd == fd {
        NextSlice(mem, table[fd].pos, TableAfter(mem, table, asked[..n])[fd], asked[n].length);
      }
    }
  }

  lemma NothingAsked(mem: Memory, table: seq<Desc>, fd: nat)
    requires fd < |table|
    ensures TableAfter(mem, table, []) == table && Given(mem, table, [], fd) == []
  {
  }

  lemma NextSlice(mem: Memory, from: nat, e: Desc, length: nat)
    requires Readable(mem, e.inode) && from <= e.pos <= FileSize(mem, e.inode) && length <= BLOCK
    requires !OffTheEnd(mem, e, length)
    ensures var c, r := Content(mem, e.inode), Advance(mem, e, length);
      r.inode == e.inode && e.pos <= r.pos <= FileSize(mem, e.inode) &&
      c[from..e.pos] + BytesRead(mem, e, length) == c[from..r.pos]
  {
    hide BytesRead, Advance, Content, Readable, OffTheEnd;
    OneRead(mem, e, length);
    JoinSlices(Content(mem, e.inode), from, e.pos, e.pos + Min(length, FileSize(mem, e.inode) - e.pos));
  }

  /** After a read off the end more bytes have been given than the file has left. */
  lemma {:induction false} TooMany(mem: Memory, table: seq<Desc>, asked: seq<Request>, fd: nat)
    requires fd < |table| && forall q :: q in asked ==> q.fd < |table| && q.length <= BLOCK
    requires Readable(mem, table[fd].inode) && table[fd].pos <= FileSize(mem, table[fd].inode)
    requires !NeverOffTheEnd(mem, table, asked, fd)
    ensures |Given(mem, table, asked, fd)| > FileSize(mem, table[fd].inode) - table[fd].pos
  {
    hide BytesRead, Advance, Content, Readable;
    var n := |asked| - 1;
    assert asked[n] in asked;
    ReadStep(mem, table, asked, fd);
    if !NeverOffTheEnd(mem, table, asked[..n], fd) {
      TooMany(mem, table, asked[..n], fd);
    } else {
      InOrder(mem, table, asked[..n], fd);
      ReadsOn(mem, TableAfter(mem, table, asked[..n])[fd], asked[n].length);
    }
  }

  lemma ReadsOn(mem: Memory, d: Desc, length: nat)
    requires Readable(mem, d.inode) && OffTheEnd(mem, d, length)
    ensures |BytesRead(mem, d, length)| > 0
  {
    EndOfFile(FileSize(mem, d.inode), length);
  }

  /** Any interleaving of reads over any descriptors, each of at most a block: a descriptor that starts inside
      its file has been given exactly the bytes between where it started and where it now stands, and has not
      passed the end, if and only if it never made a non-empty read at the end of a file that ends on a block
      boundary. */
  lemma InterleavedReads(mem: Memory, table: seq<Desc>, asked: seq<Request>, fd: nat)
    requires fd < |table| && forall q :: q in asked ==> q.fd < |table| && q.length <= BLOCK
    requires Readable(mem, table[fd].inode) && table[fd].pos <= FileSize(mem, table[fd].inode)
    ensures GivenInOrder(mem, table, asked, fd) <==> NeverOffTheEnd(mem, table, asked, fd)
  {
    if NeverOffTheEnd(mem, table, asked, fd) {
      InOrder(mem, table, asked, fd);
    } else {
      TooMany(mem, table, asked, fd);
    }
  }
}
