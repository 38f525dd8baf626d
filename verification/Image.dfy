/** A file system image, byte by byte: where the counts, the directory entries, the sizes, the block lists and the data
    lie. What lookup, open and read make of such an image is what is in it. */
module Image {
  import opened Screens
  import opened FileSystem
  import opened Directory
  import CommandLine
  import P = Processes

  datatype Entry = Entry(name: seq<Byte>, kind: nat, inode: nat)

  /** What an image holds: its directory, and for each inode the file's bytes and the data blocks they lie in. */
  datatype Disk = Disk(entries: seq<Entry>, files: seq<seq<Byte>>, blocks: seq<seq<nat>>, dataBlocks: nat)

  // ------------------------------------------------------------------ the format

  /** Four bytes, the lowest first. */
  predicate HoldsWord(mem: Memory, a: nat, w: nat) {
    && w < 0x1_0000_0000
    && mem(a) == w % 0x100 && mem(a + 1) == w / 0x100 % 0x100
    && mem(a + 2) == w / 0x1_0000 % 0x100 && mem(a + 3) == w / 0x100_0000
  }

  /** A directory entry of 64 bytes: the name in 32 bytes, ended by a NUL if it is shorter, the type, the inode. */
  ghost predicate EntryLaid(mem: Memory, a: nat, e: Entry) {
    && |e.name| <= 32 && 0 !in e.name
    && (forall k :: 0 <= k < |e.name| ==> mem(a + k) == e.name[k])
    && (|e.name| < 32 ==> mem(a + |e.name|) == 0)
    && HoldsWord(mem, a + 32, e.kind) && HoldsWord(mem, a + 36, e.inode)
  }

  /** An inode: the size, then the numbers of the data blocks; and the bytes in those blocks, which start at data. */
  ghost predicate FileLaid(mem: Memory, a: nat, data: nat, file: seq<Byte>, blocks: seq<nat>, dataBlocks: nat) {
    && HoldsWord(mem, a, |file|)
    && |blocks| == (|file| + 4095) / 4096
    && (forall k :: 0 <= k < |blocks| ==> blocks[k] < dataBlocks && HoldsWord(mem, a + 4 + 4 * k, blocks[k]))
    && (forall p :: 0 <= p < |file| ==> mem(data + 4096 * blocks[p / 4096] + p % 4096) == file[p])
  }

  /** The boot block with the three counts and the entries, one block for each inode, then the data blocks. */
  ghost predicate LaidOut(mem: Memory, d: Disk) {
    && |d.blocks| == |d.files|
    && HoldsWord(mem, 0, |d.entries|) && HoldsWord(mem, 4, |d.files|) && HoldsWord(mem, 8, d.dataBlocks)
    && (forall i :: 0 <= i < |d.entries| ==> EntryLaid(mem, 64 + 64 * i, d.entries[i]))
    && (forall i :: 0 <= i < |d.files| ==>
          FileLaid(mem, 4096 * (i + 1), 4096 * (|d.files| + 1), d.files[i], d.blocks[i], d.dataBlocks))
  }

  lemma WordHeld(mem: Memory, a: nat, w: nat)
    requires HoldsWord(mem, a, w)
    ensures WordAt(mem, a) == w
  {
    assert w == w % 0x100 + 0x100 * (w / 0x100);
    assert w / 0x100 == w / 0x100 % 0x100 + 0x100 * (w / 0x1_0000);
    assert w / 0x1_0000 == w / 0x1_0000 % 0x100 + 0x100 * (w / 0x100_0000);
  }

  lemma Counts(mem: Memory, d: Disk)
    requires LaidOut(mem, d)
    ensures DentryCount(mem) == |d.entries| && InodeCount(mem) == |d.files| && BlockCount(mem) == d.dataBlocks
  {
    WordHeld(mem, 0, |d.entries|);
    WordHeld(mem, 4, |d.files|);
    WordHeld(mem, 8, d.dataBlocks);
  }

  // ------------------------------------------------------------------ files

  /** The file behind an inode is the one laid out there. */
  lemma ContentIsFile(mem: Memory, d: Disk, i: nat)
    requires LaidOut(mem, d) && i < |d.files|
    ensures Content(mem, i) == d.files[i]
  {
    hide WordAt, HoldsWord;
    var file, blocks := d.files[i], d.blocks[i];
    Counts(mem, d);
    SizeHeld(mem, d, i);
    forall p | 0 <= p < |file| ensures FileByte(mem, i, p) == file[p] {
      BlockHeld(mem, d, i, p / 4096);
      assert mem(4096 * (|d.files| + 1) + 4096 * blocks[p / 4096] + p % 4096) == file[p];
    }
  }

  lemma SizeHeld(mem: Memory, d: Disk, i: nat)
    requires LaidOut(mem, d) && i < |d.files|
    ensures FileSize(mem, i) == |d.files[i]|
  {
    WordHeld(mem, 4096 * (i + 1), |d.files[i]|);
  }

  lemma BlockHeld(mem: Memory, d: Disk, i: nat, k: nat)
    requires LaidOut(mem, d) && i < |d.files| && k < |d.blocks[i]|
    ensures BlockOf(mem, i, k) == d.blocks[i][k] < d.dataBlocks
  {
    WordHeld(mem, 4096 * (i + 1) + 4 + 4 * k, d.blocks[i][k]);
  }

  /** A file can be read exactly when it is not empty and, if it ends on a block boundary, the word behind its block
      list happens to be a block number too. */
  lemma ReadableExactly(mem: Memory, d: Disk, i: nat)
    requires LaidOut(mem, d) && i < |d.files|
    ensures var n := |d.files[i]|;
      Readable(mem, i) <==> n > 0 && (n % 4096 == 0 ==> WordAt(mem, 4096 * (i + 1) + 4 + n / 4096 * 4) < d.dataBlocks)
  {
    hide WordAt, HoldsWord;
    Counts(mem, d);
    SizeHeld(mem, d, i);
    var n := |d.files[i]|;
    forall k | 0 <= k < |d.blocks[i]| ensures BlockOf(mem, i, k) < d.dataBlocks {
      BlockHeld(mem, d, i, k);
    }
    var last := n / 4096;
    assert |d.blocks[i]| == if n % 4096 == 0 then last else last + 1;
    assert BlockOf(mem, i, last) == WordAt(mem, 4096 * (i + 1) + 4 + last * 4);
    if n > 0 {
      assert |d.blocks[i]| > 0 && BlockOf(mem, i, 0) < d.dataBlocks;
      assert Wrap(BlockCount(mem) - 1) == d.dataBlocks - 1 && Wrap(InodeCount(mem) - 1) == |d.files| - 1;
    }
  }

  /** A read of at most a block through a descriptor gives the bytes of the file from where it stands, and moves past
      them; but for the one read that goes wrong, not empty and at the end of a file that ends on a block boundary. */
  lemma ReadsTheFile(mem: Memory, d: Disk, i: nat, pos: nat, length: nat)
    requires LaidOut(mem, d) && i < |d.files| && Readable(mem, i) && pos <= |d.files[i]| && length <= 4096
    ensures var file := d.files[i]; var n := if length <= |file| - pos then length else |file| - pos;
      (BytesRead(mem, Desc(i, pos), length) == file[pos..pos + n] &&
       Advance(mem, Desc(i, pos), length) == Desc(i, pos + n)) ==
      !(length > 0 && pos == |file| && |file| % 4096 == 0)
  {
    hide BytesRead, Advance, LaidOut, Readable, Content;
    ContentIsFile(mem, d, i);
    SizeHeld(mem, d, i);
    OneRead(mem, Desc(i, pos), length);
  }

  // ------------------------------------------------------------------ the directory

  lemma EntryIsDentry(mem: Memory, d: Disk, i: nat)
    requires LaidOut(mem, d) && i < |d.entries|
    ensures NameOf(mem, i) == d.entries[i].name
    ensures DentryAt(mem, i).kind == d.entries[i].kind && DentryAt(mem, i).inode == d.entries[i].inode
    ensures CommandLine.TextOf(DentryAt(mem, i).name) == d.entries[i].name
  {
    hide WordAt, HoldsWord, LaidOut;
    var e, raw := d.entries[i], RawName(mem, i);
    assert EntryLaid(mem, 64 + 64 * i, e) by {
      EntryHeld(mem, d, i);
    }
    WordHeld(mem, 64 + 64 * i + 32, e.kind);
    WordHeld(mem, 64 + 64 * i + 36, e.inode);
    var n := |e.name|;
    assert raw[..n] == e.name;
    if n < 32 {
      NamePadded(raw, e.name);
      CommandLine.TextBeforeNul(e.name, raw[n + 1..]);
    } else {
      assert raw == e.name;
      WholeText(e.name);
    }
    DentryNameIsName(mem, i);
  }

  lemma NamePadded(raw: seq<Byte>, name: seq<Byte>)
    requires |name| < |raw| && raw[..|name|] == name && raw[|name|] == 0
    ensures raw == name + [0] + raw[|name| + 1..]
  {
    assert raw == raw[..|name|] + [raw[|name|]] + raw[|name| + 1..];
  }

  lemma EntryHeld(mem: Memory, d: Disk, i: nat)
    requires LaidOut(mem, d) && i < |d.entries|
    ensures EntryLaid(mem, 64 + 64 * i, d.entries[i])
  {
  }

  lemma {:induction false} WholeText(text: seq<Byte>)
    requires 0 !in text
    ensures CommandLine.TextOf(text) == text
  {
    if text != [] {
      WholeText(text[1..]);
    }
  }

  /** Entry i is the first of that name, and the name has no byte of 128 or more. */
  predicate Names(d: Disk, i: nat, name: seq<Byte>) {
    && i < |d.entries| && d.entries[i].name == name
    && (forall k :: 0 <= k < |name| ==> name[k] < 128)
    && (forall k :: 0 <= k < i ==> d.entries[k].name != name)
  }

  /** The file table that execute and open work with says of a name what the image says of the first entry of that
      name: type, inode, size, and whether the file starts with the magic number. */
  lemma TableIsDisk(mem: Memory, d: Disk, i: nat, name: seq<Byte>)
    requires LaidOut(mem, d) && Names(d, i, name)
    ensures name in FilesFrom(mem, 0)
    ensures var f, e := FilesFrom(mem, 0)[name], d.entries[i];
      && f.kind == e.kind && f.inode == e.inode && f.readable == Readable(mem, e.inode)
      && (e.inode < |d.files| ==>
            var file := d.files[e.inode];
            f.size == |file| && (f.elf <==> |file| >= 4 && file[..4] == [0x7f, 0x45, 0x4c, 0x46]))
  {
    hide LaidOut, FilesFrom, Readable, Content;
    FirstOfName(mem, d, i, name);
    TableAgreesWithLookup(mem, name, 0);
    EntryIsDentry(mem, d, i);
    if d.entries[i].inode < |d.files| {
      ContentIsFile(mem, d, d.entries[i].inode);
      SizeHeld(mem, d, d.entries[i].inode);
    }
  }

  /** And it has no other names. */
  lemma TableHasDiskNames(mem: Memory, d: Disk, name: seq<Byte>)
    requires LaidOut(mem, d)
    ensures name in FilesFrom(mem, 0) <==> exists i :: Names(d, i, name)
  {
    hide LaidOut, FilesFrom, NameOf;
    Counts(mem, d);
    TableAgreesWithLookup(mem, name, 0);
    if i :| Names(d, i, name) {
      FirstOfName(mem, d, i, name);
    }
    var i := FindFrom(mem, name, 0);
    if i != -1 {
      forall k | 0 <= k <= i ensures NameOf(mem, k) == d.entries[k].name {
        EntryIsDentry(mem, d, k);
      }
      assert Answers(mem, i, name) && NameOf(mem, i) == d.entries[i].name;
      forall k | 0 <= k < i ensures d.entries[k].name != name {
        assert !Answers(mem, k, name);
      }
      assert Names(d, i, name);
    }
  }

  lemma FirstOfName(mem: Memory, d: Disk, i: nat, name: seq<Byte>)
    requires LaidOut(mem, d) && Names(d, i, name)
    ensures FindFrom(mem, name, 0) == i
  {
    hide LaidOut, NameOf;
    Counts(mem, d);
    EntryIsDentry(mem, d, i);
    forall k | 0 <= k < i ensures NameOf(mem, k) != name {
      EntryIsDentry(mem, d, k);
    }
    LookupAgreesWithListing(mem, i);
  }

  /** Listing the directory gives the names of its entries, once each and in order, and then nothing more. */
  lemma ListingIsDisk(mem: Memory, d: Disk, n: nat)
    requires LaidOut(mem, d) && d.entries != []
    ensures |Listed(mem, n)| == if n < |d.entries| then n else |d.entries|
    ensures forall k :: 0 <= k < |Listed(mem, n)| ==> CommandLine.TextOf(Listed(mem, n)[k]) == d.entries[k].name
  {
    hide LaidOut, Listed, DentryAt;
    Counts(mem, d);
    ListsEveryEntryOnce(mem, n);
    forall k | 0 <= k < |Listed(mem, n)| ensures CommandLine.TextOf(Listed(mem, n)[k]) == d.entries[k].name {
      EntryIsDentry(mem, d, k);
    }
  }

  // ------------------------------------------------------------------ open, then read

  /** The file that a name stands for: a data file on an inode that holds one, which can be read. */
  ghost predicate NamesFile(mem: Memory, d: Disk, i: nat, name: seq<Byte>) {
    && Names(d, i, name) && d.entries[i].kind == 2 && d.entries[i].inode < |d.files|
    && Readable(mem, d.entries[i].inode)
  }

  /** Opening the name gives the lowest closed descriptor, on that file's inode and at its start. */
  lemma OpenFindsFile(mem: Memory, d: Disk, i: nat, name: seq<Byte>, fds: seq<P.Fd>)
    requires LaidOut(mem, d) && NamesFile(mem, d, i, name) && |fds| == 8
    requires exists fd :: 2 <= fd <= 7 && fds[fd] == P.Closed
    ensures var fd := P.OpenResult(FilesFrom(mem, 0), fds, true, name);
      && 2 <= fd <= 7 && fds[fd] == P.Closed && (forall k :: 2 <= k < fd ==> fds[k] != P.Closed)
      && P.AfterOpen(FilesFrom(mem, 0), fds, true, name) == fds[fd := P.Open(P.Data, d.entries[i].inode, 0)]
  {
    hide LaidOut, FilesFrom, Readable, P.AfterOpen, P.OpenResult;
    TableIsDisk(mem, d, i, name);
    var files := FilesFrom(mem, 0);
    var fd, after := P.OpenResult(files, fds, true, name), P.AfterOpen(files, fds, true, name);
    P.AfterOpenOpens(files, fds, true, name);
    var free :| 2 <= free <= 7 && fds[free] == P.Closed;
    assert fd != -1;
    assert after == fds[fd := after[fd]];
  }

  /** The kernel's descriptor moves as the file system's does. */
  lemma MovesAlike(mem: Memory, fds: seq<P.Fd>, fd: nat, length: nat)
    requires |fds| == 8 && fd < 8 && fds[fd].Open? && fds[fd].ops == P.Data && Readable(mem, fds[fd].inode)
    ensures var e := Desc(fds[fd].inode, fds[fd].pos); var r := Advance(mem, e, length);
      P.AfterRead(fds, fd, |BytesRead(mem, e, length)|) == fds[fd := P.Open(P.Data, r.inode, r.pos)]
  {
    hide BytesRead, Readable;
  }

  /** Open, then any number of reads of at most a block, with reads through other descriptors between them: the program
      has been given the bytes of the file from its start to where its descriptor stands, exactly as long as it does
      not read on at the end of a file that ends on a block boundary. */
  lemma OpenThenRead(mem: Memory, d: Disk, i: nat, name: seq<Byte>, fds: seq<P.Fd>, table: seq<Desc>,
                     asked: seq<Request>)
    requires LaidOut(mem, d) && NamesFile(mem, d, i, name) && |fds| == |table| == 8
    requires exists fd :: 2 <= fd <= 7 && fds[fd] == P.Closed
    requires forall q :: q in asked ==> q.fd < 8 && q.length <= 4096
    ensures var files, file := FilesFrom(mem, 0), d.files[d.entries[i].inode];
      var fd, after := P.OpenResult(files, fds, true, name), P.AfterOpen(files, fds, true, name);
      && 2 <= fd <= 7 && after[fd].Open?
      && (table[fd] == Desc(after[fd].inode, after[fd].pos) ==>
            var stands := TableAfter(mem, table, asked)[fd].pos;
            (stands <= |file| && TableAfter(mem, table, asked)[fd].inode == d.entries[i].inode &&
             Given(mem, table, asked, fd) == file[..stands]) ==
            NeverOffTheEnd(mem, table, asked, fd))
  {
    hide LaidOut, FilesFrom, Readable, P.AfterOpen, P.OpenResult, Content, TableAfter, Given, NeverOffTheEnd;
    OpenFindsFile(mem, d, i, name, fds);
    var fd := P.OpenResult(FilesFrom(mem, 0), fds, true, name);
    if table[fd] == Desc(d.entries[i].inode, 0) {
      ContentIsFile(mem, d, d.entries[i].inode);
      SizeHeld(mem, d, d.entries[i].inode);
      InterleavedReads(mem, table, asked, fd);
    }
  }
}
