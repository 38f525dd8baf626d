/** The one directory of the file system: looking a name up, and listing the names in order. */
module Directory {
  import opened Screens
  import opened FileSystem
  import CommandLine
  import Processes

  datatype Dentry = Dentry(name: seq<Byte>, kind: nat, inode: nat)
  datatype Lookup = Missing | Found(dentry: Dentry)

  function EntryAt(i: nat): nat { ENTRY + ENTRY * i }

  function EntryByte(mem: Memory, i: nat, k: nat): Byte {
    ByteAt(mem, EntryAt(i) + k)
  }

  /** The 32 name bytes of entry i. */
  function RawName(mem: Memory, i: nat): (n: seq<Byte>)
    ensures |n| == NAME && forall k :: 0 <= k < NAME ==> n[k] == EntryByte(mem, i, k)
  {
    seq(NAME, k requires 0 <= k => EntryByte(mem, i, k))
  }

  /** The name of entry i: its bytes before the first NUL, or all 32 when none of them is NUL. */
  function NameOf(mem: Memory, i: nat): (n: seq<Byte>)
    ensures |n| <= NAME && 0 !in n
  {
    CommandLine.TextOf(RawName(mem, i))
  }

  function DentryAt(mem: Memory, i: nat): Dentry {
    Dentry(RawName(mem, i) + [0], WordAt(mem, EntryAt(i) + NAME), WordAt(mem, EntryAt(i) + NAME + 4))
  }

  predicate SevenBit(name: seq<Byte>) {
    forall k :: 0 <= k < |name| ==> name[k] < 128
  }

  /** The entry answers to the name. A name with a byte of 128 or more never matches, because the stored byte
      is compared as unsigned and the argument's as signed. */
  predicate Answers(mem: Memory, i: nat, name: seq<Byte>) {
    NameOf(mem, i) == name && SevenBit(name)
  }

  /** The first entry from i on that answers to the name, or -1. */
  function FindFrom(mem: Memory, name: seq<Byte>, i: nat): (r: int)
    ensures r == -1 ||
      (i <= r < DentryCount(mem) && Answers(mem, r, name) && forall k :: i <= k < r ==> !Answers(mem, k, name))
    ensures r == -1 ==> forall k :: i <= k < DentryCount(mem) ==> !Answers(mem, k, name)
    decreases DentryCount(mem) - i
  {
    if i >= DentryCount(mem) then -1 else if Answers(mem, i, name) then i else FindFrom(mem, name, i + 1)
  }

  /** From each entry on there is a zero byte somewhere in memory: the scan for the end of a name looks for one
      even beyond the name's 32 bytes. */
  ghost predicate ScansEnd(mem: Memory) {
    forall i :: 0 <= i < DentryCount(mem) ==> ScanEnds(mem, i)
  }

  ghost predicate ScanEnds(mem: Memory, i: nat) {
    exists k: nat :: EntryByte(mem, i, k) == 0
  }

  // ------------------------------------------------------------------ lookup by name

  /** A name of bytes below 128 is found exactly when some entry's name, cut at 32 bytes, equals it; the first
      such entry is given. Any other name, and a name of more than 32 bytes, is never found. */
  method ReadDentryByName(mem: Memory, fname: seq<Byte>) returns (r: Lookup)
    requires 0 !in fname && ScansEnd(mem)
    ensures r.Found? <==> exists i :: 0 <= i < DentryCount(mem) && Answers(mem, i, fname)
    ensures r.Found? ==> FindFrom(mem, fname, 0) != -1 && r.dentry == DentryAt(mem, FindFrom(mem, fname, 0))
    ensures |fname| > NAME ==> r.Missing?
  {
    hide RawName, NameOf, WordAt, ScansEnd;
    var size := |fname|;
    if size > NAME {
      return Missing;
    }
    var addr := ENTRY;
    var i := 0;
    while i < DentryCount(mem)
      invariant 0 <= i <= DentryCount(mem) && addr == EntryAt(i)
      invariant FindFrom(mem, fname, 0) == FindFrom(mem, fname, i)
    {
      var fnameSize := StoredLength(mem, i);
      if fnameSize == size {
        var same, str := SameName(mem, i, fname);
        if same {
          return Found(Dentry(str + [0], WordAt(mem, addr + NAME), WordAt(mem, addr + NAME + 4)));
        }
      }
      addr := addr + ENTRY;
      i := i + 1;
    }
    r := Missing;
  }

  /** The length of an entry's name: the scan may run past the 32 bytes and is then cut back. */
  method StoredLength(mem: Memory, i: nat) returns (n: nat)
    requires i < DentryCount(mem) && ScansEnd(mem)
    ensures n == |NameOf(mem, i)|
  {
    var addr := EntryAt(i);
    assert ScanEnds(mem, i);
    ghost var stop: nat :| EntryByte(mem, i, stop) == 0;
    n := 0;
    while ByteAt(mem, addr + n) != 0
      invariant n <= stop
      invariant forall k :: 0 <= k < n ==> EntryByte(mem, i, k) != 0
      decreases stop - n
    {
      assert EntryByte(mem, i, n) != 0;
      n := n + 1;
    }
    assert EntryByte(mem, i, n) == 0;
    if n >= NAME {
      n := NAME;
    }
    NameLength(mem, i, n);
  }

  lemma NameLength(mem: Memory, i: nat, n: nat)
    requires n <= NAME && forall k :: 0 <= k < n ==> EntryByte(mem, i, k) != 0
    requires n < NAME ==> EntryByte(mem, i, n) == 0
    ensures |NameOf(mem, i)| == n
  {
  }

  /** The comparison loop: past the end of the argument its name pointer steps back and stays on the NUL. */
  method SameName(mem: Memory, i: nat, fname: seq<Byte>) returns (same: bool, str: seq<Byte>)
    requires 0 !in fname && |fname| == |NameOf(mem, i)|
    ensures same <==> Answers(mem, i, fname)
    ensures str == RawName(mem, i)
  {
    var addr := EntryAt(i);
    var name := 0;
    same, str := true, [];
    var j := 0;
    ghost var stored := NameOf(mem, i);
    while j < NAME
      invariant 0 <= j <= NAME && addr == EntryAt(i) + j && str == RawName(mem, i)[..j]
      invariant name == if j < |fname| then j else |fname|
      invariant same <==> stored[..name] == fname[..name] && SevenBit(fname[..name])
    {
      var c := if name < |fname| then AsChar(fname[name]) else 0;
      var b := ByteAt(mem, addr);
      str := str + [b];
      assert b == EntryByte(mem, i, j);
      if name < |fname| {
        NextByteSame(stored, fname, name);
        NextByteSeven(fname, name);
        assert stored[name] == b && fname[name] in fname;
      }
      if b != c && c != 0 {
        same := false;
      }
      if c == 0 {
        name := name - 1;
      }
      addr := addr + 1;
      name := name + 1;
      j := j + 1;
    }
    assert stored[..name] == stored && fname[..name] == fname;
  }

  lemma NextByteSame(a: seq<Byte>, b: seq<Byte>, n: nat)
    requires n < |a| && n < |b|
    ensures a[..n + 1] == b[..n + 1] <==> a[..n] == b[..n] && a[n] == b[n]
  {
  }

  lemma NextByteSeven(a: seq<Byte>, n: nat)
    requires n < |a|
    ensures SevenBit(a[..n + 1]) <==> SevenBit(a[..n]) && a[n] < 128
  {
    assert a[..n + 1] == a[..n] + [a[n]];
    if SevenBit(a[..n + 1]) {
      assert a[..n + 1][n] < 128;
      forall k | 0 <= k < n ensures a[..n][k] < 128 {
        assert a[..n + 1][k] == a[k];
      }
    }
  }

  // ------------------------------------------------------------------ listing

  /** read_dentry_by_index walks 32 bytes, a zero byte and two words out of the entry, and so hands out the name
      of exactly the entry asked for. An index is refused only past the last entry, and never in a directory that
      says it has none. */
  method ReadDentryByIndex(mem: Memory, index: nat) returns (r: Lookup)
    requires index < U32
    ensures r.Missing? <==> index >= DentryCount(mem) && DentryCount(mem) > 0
    ensures r.Found? ==> CommandLine.TextOf(r.dentry.name) == NameOf(mem, index)
    ensures r.Found? ==> r.dentry == DentryAt(mem, index)
  {
    hide RawName, NameOf, WordAt;
    if index > Wrap(DentryCount(mem) - 1) {
      return Missing;
    }
    var addr := ENTRY;
    addr := addr + index * ENTRY;
    var name: seq<Byte>;
    name, addr := NameBytes(mem, index, addr);
    name := name + [0];
    var kind := WordAt(mem, addr);
    addr := addr + 4;
    var inode := WordAt(mem, addr);
    DentryNameIsName(mem, index);
    r := Found(Dentry(name, kind, inode));
  }

  method NameBytes(mem: Memory, ghost index: nat, at: nat) returns (name: seq<Byte>, addr: nat)
    requires at == EntryAt(index)
    ensures name == RawName(mem, index) && addr == EntryAt(index) + NAME
  {
    addr, name := at, [];
    var i := 0;
    while i < NAME
      invariant 0 <= i <= NAME && addr == EntryAt(index) + i && name == RawName(mem, index)[..i]
    {
      assert ByteAt(mem, addr) == EntryByte(mem, index, i);
      name := name + [ByteAt(mem, addr)];
      addr := addr + 1;
      i := i + 1;
    }
  }

  /** dir_read copies up to 32 name bytes of the entry at the descriptor's position and moves on by one entry;
      past the last entry it gives 0 and stays. */
  method DirRead(mem: Memory, pos: nat, buf: array<Byte>, size: nat) returns (ret: nat, next: nat)
    requires pos < U32 && size <= buf.Length
    modifies buf
    ensures pos > Wrap(DentryCount(mem) - 1) ==> ret == 0 && next == pos && buf[..] == old(buf[..])
    ensures pos <= Wrap(DentryCount(mem) - 1) ==>
      ret == Min(size, NAME) && next == Wrap(pos + 1) && buf[..ret] == RawName(mem, pos)[..ret]
    ensures pos <= Wrap(DentryCount(mem) - 1) ==>
      buf[ret..] == if size > NAME then old(buf[ret..])[0 := 0] else old(buf[ret..])
  {
    hide RawName, NameOf, WordAt;
    var r := ReadDentryByIndex(mem, pos);
    if r.Missing? {
      return 0, pos;
    }
    next := Wrap(pos + 1);
    var i := 0;
    while i < size
      invariant 0 <= i <= size && i <= NAME
      invariant buf[..i] == RawName(mem, pos)[..i] && buf[i..] == old(buf[i..])
    {
      if i >= NAME {
        buf[NAME] := 0;
        break;
      }
      assert old(buf[i..])[1..] == old(buf[i + 1..]);
      buf[i] := r.dentry.name[i];
      i := i + 1;
    }
    ret := i;
  }

  /** The descriptor's position after n calls from the start, and the raw names those calls gave. */
  function PosAfter(mem: Memory, n: nat): nat {
    if n == 0 then 0
    else
      var p := PosAfter(mem, n - 1);
      if p > Wrap(DentryCount(mem) - 1) then p else Wrap(p + 1)
  }

  function Listed(mem: Memory, n: nat): seq<seq<Byte>> {
    if n == 0 then []
    else
      var p := PosAfter(mem, n - 1);
      if p > Wrap(DentryCount(mem) - 1) then Listed(mem, n - 1) else Listed(mem, n - 1) + [RawName(mem, p)]
  }

  /** Any number of calls lists the entries once each, in index order, and then gives no more. Only a directory
      that says it has no entries never stops: its count less one wraps, and every call gives something. */
  lemma {:induction false} ListsEveryEntryOnce(mem: Memory, n: nat)
    ensures DentryCount(mem) > 0 ==> PosAfter(mem, n) == Min(n, DentryCount(mem)) == |Listed(mem, n)|
    ensures DentryCount(mem) > 0 ==> forall k :: 0 <= k < |Listed(mem, n)| ==> Listed(mem, n)[k] == RawName(mem, k)
    ensures DentryCount(mem) == 0 ==> |Listed(mem, n)| == n && PosAfter(mem, n) < U32
  {
    if n > 0 {
      ListsEveryEntryOnce(mem, n - 1);
    }
  }

  /** Looking up the name of a listed entry gives that entry exactly when the name has no byte of 128 or more
      and no earlier entry has the same name; it gives some entry of that name exactly when the former holds. */
  lemma LookupAgreesWithListing(mem: Memory, i: nat)
    requires i < DentryCount(mem)
    ensures var name := NameOf(mem, i);
      && (FindFrom(mem, name, 0) == i <==> SevenBit(name) && forall k :: 0 <= k < i ==> NameOf(mem, k) != name)
      && (0 <= FindFrom(mem, name, 0) <= i <==> SevenBit(name))
  {
    var name := NameOf(mem, i);
    assert SevenBit(name) ==> Answers(mem, i, name);
    assert forall k :: 0 <= k < i && SevenBit(name) && NameOf(mem, k) == name ==> Answers(mem, k, name);
  }

  /** The 33 bytes handed out hold the entry's name as a C string. */
  lemma DentryNameIsName(mem: Memory, i: nat)
    ensures CommandLine.TextOf(DentryAt(mem, i).name) == NameOf(mem, i)
  {
    var raw, name := RawName(mem, i), NameOf(mem, i);
    var n := |name|;
    if n < NAME {
      assert raw + [0] == name + [0] + (raw[n + 1..] + [0]);
      CommandLine.TextBeforeNul(name, raw[n + 1..] + [0]);
    } else {
      assert raw + [0] == name + [0] + [];
      CommandLine.TextBeforeNul(name, []);
    }
  }

  // ------------------------------------------------------------------ what execute and open see

  const MAGIC: seq<Byte> := [0x7f, 0x45, 0x4c, 0x46]

  /** An entry as the process module knows it: its type, inode and size, whether it can be read, and whether it
      is an executable. */
  function FileAt(mem: Memory, i: nat): Processes.File {
    var d := DentryAt(mem, i);
    Processes.File(d.kind, d.inode, FileSize(mem, d.inode), Readable(mem, d.inode),
                   FileSize(mem, d.inode) >= 4 && Content(mem, d.inode)[..4] == MAGIC)
  }

  /** The table of names that the directory stands for; of entries with one name the first counts. */
  function FilesFrom(mem: Memory, i: nat): Processes.Files
    decreases DentryCount(mem) - i
  {
    if i >= DentryCount(mem) then map[]
    else if !SevenBit(NameOf(mem, i)) then FilesFrom(mem, i + 1)
    else FilesFrom(mem, i + 1)[NameOf(mem, i) := FileAt(mem, i)]
  }

  /** The table agrees with lookup by name, for every name. */
  lemma {:induction false} TableAgreesWithLookup(mem: Memory, name: seq<Byte>, i: nat)
    ensures name in FilesFrom(mem, i) <==> FindFrom(mem, name, i) != -1
    ensures name in FilesFrom(mem, i) ==> FilesFrom(mem, i)[name] == FileAt(mem, FindFrom(mem, name, i))
    decreases DentryCount(mem) - i
  {
    hide FileAt, NameOf;
    if i < DentryCount(mem) {
      TableAgreesWithLookup(mem, name, i + 1);
    }
  }
}
