/** The kernel itself: the arrays and structures it updates in place, and its entry points. */
module Kernel {
  import opened Screens
  import opened Processes
  import Paging
  import CommandLine
  import Runs
  import Refinement
  import Arguments

  class Kernel {
    const files: Files
    const shellBuf: array<Byte>
    const flags: array<nat>
    const mmu: Paging.Mmu
    const video: array<Byte>
    const dump0: array<Byte>
    const dump1: array<Byte>
    const dump2: array<Byte>
    var pcbs: seq<Pcb>
    var block: nat
    var curTerm: nat
    var started: seq<bool>
    var esp0: int
    var xs: seq<nat>
    var ys: seq<nat>

    /** The objects are distinct and the page tables are in order. */
    ghost predicate Wired()
      reads this, mmu, mmu.dir, mmu.tables
    {
      && mmu.Valid() && flags as object != mmu.dir && flags.Length == NUM_PROC
      && video != dump0 && video != dump1 && video != dump2 && dump0 != dump1 && dump0 != dump2 && dump1 != dump2
      && shellBuf != video && shellBuf != dump0 && shellBuf != dump1 && shellBuf != dump2
      && shellBuf.Length == CommandLine.BUF_SIZE
      && video.Length == CELLS && dump0.Length == CELLS && dump1.Length == CELLS && dump2.Length == CELLS
    }

    ghost function Snapshot(): State
      requires Wired()
      reads this, shellBuf, flags, mmu, mmu.dir, mmu.tables, video, dump0, dump1, dump2
    {
      State(shellBuf[..], flags[..], pcbs, block, curTerm, started, esp0, mmu.Regions(),
            video[..], [dump0[..], dump1[..], dump2[..]], xs, ys)
    }

    ghost predicate Valid()
      reads this, shellBuf, flags, mmu, mmu.dir, mmu.tables, video, dump0, dump1, dump2
    {
      Wired() && Shape(Snapshot())
    }

    /** Boot: page tables, process table, terminals, a cleared screen, and the first shell. The dump pages, the
        control blocks of slots not yet used and the page tables hold whatever memory held. */
    constructor (files: Files, garbage: Paging.Garbage, slots: seq<Pcb>, start: Start)
      requires ShellLoads(files) && |slots| == NUM_PROC && forall p :: 0 <= p < NUM_PROC ==> |slots[p].fds| == 8
      ensures Valid() && this.files == files
      ensures exists boot :: Runs.FreshBoot(boot) && Runs.FirstShell(files, boot, Snapshot())
    {
      this.files := files;
      shellBuf := new Byte[CommandLine.BUF_SIZE];
      flags := new nat[NUM_PROC];
      mmu := new Paging.Mmu(garbage);
      video := new Byte[CELLS];
      dump0 := new Byte[CELLS];
      dump1 := new Byte[CELLS];
      dump2 := new Byte[CELLS];
      pcbs := slots[0 := Pcb(0, slots[0].parent, slots[0].term, slots[0].ctx, StdFds())];
      block, curTerm, started, esp0 := 0, 0, [false, false, false], MB8;
      xs, ys := [0, 0, 0], [0, 0, 0];
      new;
      PowerUp();
      FirstShell(start);
    }

    method PowerUp()
      requires Wired() && mmu.Regions() == Paging.NothingMapped()
      requires |pcbs| == NUM_PROC && (forall p :: 0 <= p < NUM_PROC ==> |pcbs[p].fds| == 8)
      requires pcbs[0].pid == 0 && pcbs[0].fds == StdFds()
      requires block == 0 && curTerm == 0 && started == [false, false, false] && xs == [0, 0, 0] && ys == [0, 0, 0]
      modifies flags, mmu.dir, mmu.tables, video
      ensures Valid() && Runs.FreshBoot(Snapshot())
    {
      hide Runs.KernelSpace, Runs.BootSpace;
      SetupPage();
      InitProcess();
      MapDumps();
      Clear(video);
    }

    method SetupPage()
      requires mmu.Valid() && mmu.Regions() == Paging.NothingMapped()
      modifies mmu.dir, mmu.tables
      ensures mmu.Valid() && mmu.Regions() == Runs.KernelSpace()
    {
      mmu.Set4MB(0x40_0000, 0x40_0000, 0);
      mmu.Set4MB(MB8, MB8, 0);
      mmu.Set4KB(VIDEO, VIDEO, 0);
    }

    /** The part of term_init that maps the dump pages, once for each terminal. */
    method MapDumps()
      requires mmu.Valid() && mmu.Regions() == Runs.KernelSpace()
      modifies mmu.dir, mmu.tables
      ensures mmu.Valid() && mmu.Regions() == Runs.BootSpace()
    {
      hide Runs.KernelSpace;
      mmu.Set4KB(DumpFrame(0), DumpFrame(0), 0);
      mmu.Set4KB(DumpFrame(1), DumpFrame(1), 0);
      mmu.Set4KB(DumpFrame(2), DumpFrame(2), 0);
    }

    method FirstShell(start: Start)
      requires ShellLoads(files) && Valid() && Runs.FreshBoot(Snapshot())
      modifies this, shellBuf, flags, mmu.dir, mmu.tables
      ensures Valid() && exists boot :: Runs.FreshBoot(boot) && Runs.FirstShell(files, boot, Snapshot())
    {
      hide Processes.StartShell;
      ghost var boot := Snapshot();
      Runs.BootRefines(files, boot, start);
      StartShell(start);
      assert Runs.FirstShell(files, boot, Snapshot());
    }

    method InitProcess()
      requires flags.Length == NUM_PROC
      modifies flags
      ensures flags[..] == [HELD, FREE, FREE, FREE, FREE, FREE, FREE]
    {
      var i := 0;
      while i < NUM_PROC
        invariant 0 <= i <= NUM_PROC && forall k :: 0 <= k < i ==> flags[k] == 0
      {
        flags[i] := 0;
        i := i + 1;
      }
      flags[0] := 3;
    }

    // ---------------------------------------------------------------- searches

    method GetFreePid() returns (pid: int)
      requires Valid()
      ensures pid == LowestFree(flags[..])
    {
      var i := 0;
      while i < NUM_PROC
        invariant 0 <= i <= NUM_PROC && LowestFree(flags[..]) == LowestFreeFrom(flags[..], i)
      {
        if flags[i] == 0 {
          return i;
        }
        i := i + 1;
      }
      pid := -1;
    }

    /** The word after the array is read when the current slot is the last one; what it holds is not ours. */
    method GetNextSchedule(beyond: nat) returns (pid: int)
      requires Valid() && pcbs[block].pid == block
      ensures pid == if block == NUM_PROC - 1 && beyond == READY then NUM_PROC else NextReady(flags[..], block)
      ensures pid == NextReady(flags[..], block) <==> !(block == NUM_PROC - 1 && beyond == READY)
    {
      var cur := pcbs[block].pid;
      var i := cur + 1;
      ghost var d, f := 1, flags[..];
      assert NextReady(f, cur) == FirstReadyFrom(f, cur, 1);
      while i != cur
        invariant 1 <= d <= NUM_PROC && 0 <= i <= NUM_PROC
        invariant d == 1 ==> i == cur + 1
        invariant i == NUM_PROC ==> cur == NUM_PROC - 1 && d == 1
        invariant i != NUM_PROC ==> i == NthAfter(cur, d)
        invariant NextReady(f, cur) == FirstReadyFrom(f, cur, d)
        invariant d > 1 && cur == NUM_PROC - 1 ==> beyond != READY
        decreases NUM_PROC - d
      {
        if i != 0 {
          var flag := if i < NUM_PROC then flags[i] else beyond;
          if flag == READY {
            return i;
          }
        }
        d := d + 1;
        assert i + 1 < NUM_PROC ==> (i + 1) % NUM_PROC == i + 1;
        i := (i + 1) % NUM_PROC;
      }
      pid := -1;
    }

    // ---------------------------------------------------------------- descriptors

    /** data_open, dir_open and rtc_open: each looks the name up again before it takes a descriptor. */
    method OpenAs(name: seq<Byte>, kind: nat) returns (fd: int)
      requires Valid() && kind <= 2
      modifies `pcbs
      ensures Valid()
      ensures var fds := old(pcbs[block].fds); var fits := name in files && files[name].kind == kind;
        fd == (if fits then OpenResult(files, fds, true, name) else -1) &&
        Opens(files, fds, fits, name, fd, pcbs[block].fds) &&
        Snapshot() == SetFds(old(Snapshot()), if fits then AfterOpen(files, fds, true, name) else fds)
    {
      AfterOpenOpens(files, pcbs[block].fds, name in files && files[name].kind == kind, name);
      if name !in files {
        return -1;
      }
      if files[name].kind != kind {
        return -1;
      }
      var fds := pcbs[block].fds;
      var i := 2;
      while i < 8
        invariant 2 <= i <= 8 && FreeSlot(fds) == FreeSlotFrom(fds, i)
        invariant pcbs == old(pcbs)
      {
        if fds[i].Closed? {
          var ops := if kind == 0 then Rtc else if kind == 1 then Dir else Data;
          StoreFds(fds[i := Open(ops, if kind == 2 then files[name].inode else 0, 0)]);
          return i;
        }
        i := i + 1;
      }
      fd := -1;
    }

    method StoreFds(fds: seq<Fd>)
      requires Valid() && |fds| == 8
      modifies `pcbs
      ensures Valid() && Snapshot() == SetFds(old(Snapshot()), fds)
    {
      pcbs := pcbs[block := pcbs[block].(fds := fds)];
    }

    /** A program's call: whether the page of the name is present is what the walk over the tables says. */
    method SystemOpen(fname: Paging.Word, name: seq<Byte>, leftover: nat) returns (fd: int)
      requires Valid()
      modifies `pcbs
      ensures Valid()
      ensures var s := old(Snapshot()); var present := Paging.Lookup(s.space, fname) != Paging.Fault;
        && fd == OpenResult(files, s.pcbs[s.block].fds, present, name)
        && Opens(files, s.pcbs[s.block].fds, present, name, fd, pcbs[block].fds)
        && Snapshot() == SetFds(s, AfterOpen(files, s.pcbs[s.block].fds, present, name))
    {
      hide Opens, AfterOpen;
      var present := mmu.PagePresent(fname);
      fd := OpenPresent(present, name, leftover);
    }

    /** system_open: a failed lookup leaves the entry's type unset, so the type that happens to be there
        selects the operation; the result does not depend on it. */
    method OpenPresent(present: bool, name: seq<Byte>, leftover: nat) returns (fd: int)
      requires Valid()
      modifies `pcbs
      ensures Valid()
      ensures var fds := old(pcbs[block].fds);
        fd == OpenResult(files, fds, present, name) &&
        Opens(files, fds, present, name, fd, pcbs[block].fds) &&
        Snapshot() == SetFds(old(Snapshot()), AfterOpen(files, fds, present, name))
    {
      if !present {
        return -1;
      }
      var kind := if name in files then files[name].kind else leftover;
      if kind <= 2 {
        fd := OpenAs(name, kind);
      } else {
        fd := -1;
      }
    }

    method SystemClose(fd: int) returns (ret: int)
      requires Valid()
      modifies `pcbs
      ensures Valid()
      ensures ret == (if 2 <= fd <= 7 && old(pcbs[block].fds)[fd] != Closed then 0 else -1)
      ensures pcbs[block].fds == if ret == 0 then old(pcbs[block].fds)[fd := Closed] else old(pcbs[block].fds)
      ensures Snapshot() == SetFds(old(Snapshot()), AfterClose(old(pcbs[block].fds), fd))
      ensures pcbs == old(pcbs)[block := old(pcbs[block]).(fds := pcbs[block].fds)]
    {
      if fd < 0 || fd > 7 {
        return -1;
      }
      if pcbs[block].fds[fd].Closed? {
        return -1;
      }
      if fd == 0 || fd == 1 {
        return -1;
      }
      StoreFds(pcbs[block].fds[fd := Closed]);
      ret := 0;
    }

    /** What data_read and dir_read do to the descriptor they read through, given how far the file system moved. */
    method MoveOn(fd: int, moved: int)
      requires Valid()
      modifies `pcbs
      ensures Valid() && Snapshot() == SetFds(old(Snapshot()), AfterRead(old(pcbs[block].fds), fd, moved))
      ensures |pcbs[block].fds| == 8 && forall k :: 0 <= k < 8 ==>
        var d := old(pcbs[block].fds)[k];
        pcbs[block].fds[k] ==
          if k == fd && d.Open? && (d.ops == Data || d.ops == Dir) then d.(pos := (d.pos + moved) % 0x1_0000_0000)
          else d
    {
      var fds := pcbs[block].fds;
      if 0 <= fd <= 7 {
        if fds[fd].Open? {
          if fds[fd].ops == Data || fds[fd].ops == Dir {
            StoreFds(fds[fd := fds[fd].(pos := (fds[fd].pos + moved) % 0x1_0000_0000)]);
            return;
          }
        }
      }
      StoreFds(fds);
    }

    // ---------------------------------------------------------------- windows

    method RemapImage(pid: nat)
      requires Valid() && pid < NUM_PROC
      modifies mmu.dir
      ensures Valid() && Snapshot() == old(Snapshot()).(space := MapImage(old(Snapshot()).space, pid))
    {
      mmu.Set4MB(MB8 + pid * Paging.MB4, MB128, 3);
    }

    method RemapText(t: nat, level: nat)
      requires Valid() && t < TERM_NUM
      modifies mmu.dir, mmu.tables
      ensures Valid() && Snapshot() == old(Snapshot()).(space := MapText(old(Snapshot()).space, curTerm, t, level))
    {
      if t == curTerm {
        mmu.Set4KB(VIDEO, MB132, level);
      } else {
        mmu.Set4KB(DumpFrame(t), MB132, level);
      }
    }

    // ---------------------------------------------------------------- execute

    /** A program's call: whether the page of its argument is present is what the walk over the tables says. */
    method SystemExecute(fileName: Paging.Word, line: CommandLine.Line, stale: bool, leftover: nat) returns (ret: int)
      requires Valid() && Turnable(Snapshot()) && pcbs[block].pid == block && block != 0
      modifies this, shellBuf, flags, mmu.dir, mmu.tables
      ensures Valid()
      ensures var s := old(Snapshot()); var ask := Ask(Paging.Lookup(s.space, fileName) != Paging.Fault, stale);
        && Snapshot() == ExecuteLine(files, s, ask, line)
        && (ret == 0 <==> StartsProgram(files, s, ask, CommandLine.Word(line))) && (ret == 0 || ret == -1)
    {
      hide ExecuteLine, StartsProgram;
      var present := mmu.PagePresent(fileName);
      ret := Execute(Ask(present, stale), line, leftover);
    }

    /** Returns 0, with the processor given to the child, exactly when the program can be started, and otherwise -1.
        The line is kept for getargs as soon as a slot is free and the page is there. */
    method Execute(ask: Ask, line: CommandLine.Line, leftover: nat) returns (ret: int)
      requires Valid() && Turnable(Snapshot()) && pcbs[block].pid == block
      requires block == 0 ==> LowestFree(flags[..]) <= 3
      modifies this, shellBuf, flags, mmu.dir, mmu.tables
      ensures Valid()
      ensures Snapshot() == ExecuteLine(files, old(Snapshot()), ask, line)
      ensures ret == 0 || ret == -1
      ensures ret == 0 <==> StartsProgram(files, old(Snapshot()), ask, CommandLine.Word(line))
      ensures ret == 0 <==> ExecuteOutcome(files, old(Snapshot()), ask, CommandLine.Word(line)) == Launched
      ensures shellBuf[..] ==
        if ask.present && exists p :: 0 <= p < 7 && old(flags[..])[p] == 0 then line else old(shellBuf[..])
    {
      hide ExecuteStep, ExecuteOutcome, StartsProgram, Loadable, CommandLine.Word, CommandLine.TextOf, LowestFree;
      Refinement.LaunchedExactly(files, Snapshot(), ask, CommandLine.Word(line));
      Refinement.SameOutcome(files, Snapshot(), Stored(Snapshot(), ask, line), ask, CommandLine.Word(line));
      LineIsKept(ask);
      var childPid := GetFreePid();
      if childPid == -1 {
        Refinement.RefusedStays(files, Snapshot(), ask, CommandLine.Word(line));
        return -1;
      }
      if !ask.present {
        Refinement.RefusedStays(files, Snapshot(), ask, CommandLine.Word(line));
        return -1;
      }
      CommandLine.KeepLine(line, shellBuf);
      assert Snapshot() == Stored(old(Snapshot()), ask, line);
      var command := CommandLine.ExtractCommand(line);
      var name := CommandLine.TextOf(command[..]);
      CommandLine.ExtractedText(line);
      ret := ExecuteNamed(childPid, ask, name, leftover);
    }

    /** The part of execute that follows once the program's name is known. */
    method ExecuteNamed(childPid: nat, ask: Ask, name: seq<Byte>, leftover: nat) returns (ret: int)
      requires Valid() && Turnable(Snapshot()) && pcbs[block].pid == block
      requires block == 0 ==> LowestFree(flags[..]) <= 3
      requires childPid == LowestFree(flags[..]) && ask.present
      modifies this, flags, mmu.dir, mmu.tables
      ensures Valid() && Snapshot() == ExecuteStep(files, old(Snapshot()), ask, name)
      ensures ret == if ExecuteOutcome(files, old(Snapshot()), ask, name) == Launched then 0 else -1
    {
      hide Launch, Reject;
      ghost var s := Snapshot();
      var fd := OpenProgram(name, leftover);
      if fd == -1 {
        return -1;
      }
      // The bytes read go over what was in memory; a file that cannot be read leaves that as it was.
      var magic := ask.stale;
      if files[name].readable {
        magic := files[name].elf;
      }
      ret := RunProgram(childPid, fd, magic, s);
    }

    lemma LineIsKept(ask: Ask)
      requires Valid()
      ensures Stores(Snapshot(), ask) <==> ask.present && exists p :: 0 <= p < 7 && flags[..][p] == 0
    {
    }

    /** Loads the opened program and starts it if it is executable, else puts the image window back. */
    method RunProgram(childPid: nat, fd: int, magic: bool, ghost s: State) returns (ret: int)
      requires Valid() && 0 < childPid < NUM_PROC && SetFds(Snapshot(), AfterClose(pcbs[block].fds, fd)) == s
      requires pcbs[block].pid == block && 0 <= TermFor(s, childPid) < TERM_NUM
      modifies this, flags, mmu.dir, mmu.tables
      ensures Valid() && Snapshot() == if magic then Launch(s, childPid) else Reject(s, childPid)
      ensures ret == if magic then 0 else -1
    {
      hide MapImage, MapText, LaunchFlags, AfterClose;
      var termNum := if pcbs[block].pid == 0 then childPid - 1 else pcbs[block].term;
      LoadProgram(childPid, termNum, fd);
      if !magic {
        RemapImage(pcbs[block].pid);
        return -1;
      }
      StartChild(childPid, termNum);
      ret := 0;
    }

    /** Maps the child's image and text windows and closes the file it was loaded from. */
    method LoadProgram(childPid: nat, termNum: nat, fd: int)
      requires Valid() && 0 < childPid < NUM_PROC && termNum < TERM_NUM
      modifies `pcbs, mmu.dir, mmu.tables
      ensures Valid()
      ensures Snapshot() == SetFds(old(Snapshot()), AfterClose(old(pcbs[block].fds), fd)).(
        space := MapText(MapImage(old(Snapshot()).space, childPid), curTerm, termNum, 0))
    {
      RemapImage(childPid);
      RemapText(termNum, 0);
      var _ := SystemClose(fd);
    }

    /** Opens the program and checks that it is a data file long enough to hold an entry point. */
    method OpenProgram(name: seq<Byte>, leftover: nat) returns (fd: int)
      requires Valid()
      modifies `pcbs
      ensures Valid()
      ensures fd == -1 ==> Snapshot() == old(Snapshot())
      ensures fd == -1 <==> OpenResult(files, old(pcbs[block].fds), true, name) == -1 ||
                            files[name].kind != 2 || AsInt(files[name].size) < ENTRY_POS_OFFSET
      ensures fd != -1 ==> 2 <= fd <= 7 && pcbs[block].fds[fd].Open?
      ensures fd != -1 ==> SetFds(Snapshot(), AfterClose(pcbs[block].fds, fd)) == old(Snapshot())
    {
      ghost var fds := pcbs[block].fds;
      fd := OpenPresent(true, name, leftover);
      if fd == -1 {
        return -1;
      }
      assert pcbs[block].fds == fds[fd := pcbs[block].fds[fd]];
      if pcbs[block].fds[fd].ops != Data {
        var _ := SystemClose(fd);
        assert pcbs[block].fds == fds;
        return -1;
      }
      var size := AsInt(files[name].size);
      if size < ENTRY_POS_OFFSET {
        var _ := SystemClose(fd);
        assert pcbs[block].fds == fds;
        return -1;
      }
      assert AfterClose(pcbs[block].fds, fd) == fds;
    }

    /** The last part of system_execute: flags, kernel stack and control block of the child. */
    method StartChild(childPid: nat, termNum: nat)
      requires Valid() && pcbs[block].pid == block
      requires 0 < childPid < NUM_PROC && termNum == TermFor(Snapshot(), childPid) && termNum < TERM_NUM
      modifies this, flags
      ensures Valid()
      ensures Snapshot() == Launch(old(Snapshot()), childPid).(space := old(Snapshot()).space)
    {
      started := started[termNum := true];
      MarkChild(childPid);
      esp0 := MB8 - childPid * KB8;
      pcbs := pcbs[childPid := Pcb(childPid, block, termNum, pcbs[childPid].ctx, StdFds())];
      block := childPid;
    }

    method MarkChild(childPid: nat)
      requires flags.Length == NUM_PROC && |pcbs| == NUM_PROC && block < NUM_PROC && pcbs[block].pid == block
      requires childPid < NUM_PROC
      modifies flags
      ensures flags[..] == LaunchFlags(old(flags[..]), block, childPid)
    {
      flags[pcbs[block].pid] := 3;
      if pcbs[block].pid == 0 {
        ghost var held := flags[..];
        var i := 1;
        while i < NUM_PROC
          invariant 1 <= i <= NUM_PROC
          invariant forall k :: 0 <= k < NUM_PROC ==> flags[k] == if k < i then SettledFlag(held[k], k) else held[k]
        {
          if i < 4 {
            if flags[i] == 0 {
              flags[i] := 3;
            }
          }
          if flags[i] == 1 {
            flags[i] := 2;
          }
          i := i + 1;
        }
        assert flags[..] == Settled(held);
      }
      flags[childPid] := 1;
    }

    // ---------------------------------------------------------------- halt and schedule

    /** After a halt the caller's saved context, with the status in eax, is what the processor resumes. */
    method SystemHalt(status: int, start: Start)
      requires Valid() && Steppable(Snapshot())
      modifies this, shellBuf, flags, mmu.dir, mmu.tables
      ensures Valid() && Snapshot() == HaltStep(files, old(Snapshot()), status, start)
    {
      hide Processes.StartShell;
      SetFlag(pcbs[block].pid, 0);
      CloseOpenFiles();
      assert Snapshot() == Release(old(Snapshot()));
      var parent := pcbs[block].parent;
      var parentPid := pcbs[parent].pid;
      if parentPid != 0 {
        SetFlag(parentPid, if pcbs[parent].term == curTerm then 1 else 2);
        RemapImage(parentPid);
        ResumeParent(parent, status);
      } else {
        assert flags[..][old(block)] == FREE;
        block := 0;
        StartShell(start);
      }
    }

    method SetFlag(pid: nat, flag: nat)
      requires Valid() && 0 < pid < NUM_PROC
      modifies flags
      ensures Valid() && Snapshot() == old(Snapshot()).(flags := old(flags[..])[pid := flag])
    {
      flags[pid] := flag;
    }

    method ResumeParent(parent: nat, status: int)
      requires Valid() && 0 < parent < NUM_PROC
      modifies this
      ensures Valid()
      ensures Snapshot() == old(Snapshot()).(esp0 := StackTop(parent), block := parent,
        pcbs := old(pcbs)[parent := old(pcbs[parent]).(ctx := old(pcbs[parent].ctx).(eax := status))])
    {
      esp0 := MB8 - parent * KB8;
      pcbs := pcbs[parent := pcbs[parent].(ctx := pcbs[parent].ctx.(eax := status))];
      block := parent;
    }

    /** system_execute("shell") from slot 0. */
    method StartShell(start: Start)
      requires Valid() && Turnable(Snapshot()) && block == 0 && pcbs[0].pid == 0 && LowestFree(flags[..]) <= 3
      modifies this, shellBuf, flags, mmu.dir, mmu.tables
      ensures Valid() && Snapshot() == Processes.StartShell(files, old(Snapshot()), start)
    {
      hide CommandLine.Word, ShellLine, ExecuteStep;
      Runs.ShellLineNamesShell(start.junk);
      var _ := Execute(Ask(true, start.stale), ShellLine(start.junk), 0);
    }

    lemma CloseOneMore(fds: seq<Fd>, fd: nat)
      requires |fds| == 8 && 2 <= fd <= 7
      ensures var part := CloseFiles(fds)[..fd] + fds[fd..];
        part[fd] == fds[fd] && part[fd := Closed] == CloseFiles(fds)[..fd + 1] + fds[fd + 1..]
    {
    }

    method CloseOpenFiles()
      requires Valid()
      modifies `pcbs
      ensures Valid() && Snapshot() == SetFds(old(Snapshot()), CloseFiles(old(pcbs[block].fds)))
      ensures |pcbs[block].fds| == 8 && forall k :: 0 <= k < 8 ==>
        pcbs[block].fds[k] == if k < 2 then old(pcbs[block].fds)[k] else Closed
    {
      ghost var fds := pcbs[block].fds;
      ghost var closed := CloseFiles(fds);
      var fd := 2;
      while fd <= 7
        invariant 2 <= fd <= 8 && Valid()
        invariant pcbs == old(pcbs)[block := old(pcbs[block]).(fds := pcbs[block].fds)]
        invariant pcbs[block].fds == closed[..fd] + fds[fd..]
      {
        CloseOneMore(fds, fd);
        if pcbs[block].fds[fd].Open? {
          var _ := SystemClose(fd);
        }
        fd := fd + 1;
      }
      assert pcbs[block].fds == closed;
    }

    method Schedule(beyond: nat)
      requires Valid() && Turnable(Snapshot()) && pcbs[block].pid == block && block != 0
      requires block == NUM_PROC - 1 ==> beyond != READY
      modifies this, flags, mmu.dir, mmu.tables
      ensures Valid() && Snapshot() == TickStep(old(Snapshot()))
    {
      hide NextReady;
      hide MapImage;
      hide MapText;
      var nextPid := GetNextSchedule(beyond);
      if nextPid == -1 {
        return;
      }
      RemapImage(nextPid);
      RemapText(pcbs[nextPid].term, 3);
      SetFlag(pcbs[block].pid, 2);
      SetFlag(nextPid, 1);
      HandOver(nextPid);
    }

    method HandOver(pid: nat)
      requires Valid() && pid < NUM_PROC
      modifies this
      ensures Valid() && Snapshot() == old(Snapshot()).(esp0 := StackTop(pid), block := pid)
    {
      esp0 := MB8 - pid * KB8;
      block := pid;
    }

    // ---------------------------------------------------------------- terminals and text

    method CopyPage(dst: array<Byte>, src: array<Byte>)
      requires dst != src && dst.Length == CELLS && src.Length == CELLS
      modifies dst
      ensures dst[..] == old(src[..])
    {
      var i := 0;
      while i < CELLS
        invariant 0 <= i <= CELLS && dst[..i] == src[..i]
      {
        dst[i] := src[i];
        i := i + 1;
      }
      assert dst[..i] == dst[..] && src[..i] == src[..];
    }

    function DumpOf(t: nat): array<Byte>
      requires t < TERM_NUM
      reads this
    {
      if t == 0 then dump0 else if t == 1 then dump1 else dump2
    }

    method TermSwitch(term: int, start: Start)
      requires Valid() && Turnable(Snapshot()) && block != 0 && pcbs[0].pid == 0
      modifies this, shellBuf, flags, mmu.dir, mmu.tables, video, dump0, dump1, dump2
      ensures Valid() && Snapshot() == SwitchStep(files, old(Snapshot()), term, start)
    {
      hide ShowTerminal, Processes.StartShell;
      if term < 0 || term >= TERM_NUM {
        return;
      }
      ExchangePages(term);
      assert Turnable(Snapshot());
      if !started[term] {
        PrepareTerminal(term);
        StartShell(start);
      }
    }

    method PrepareTerminal(term: nat)
      requires Valid() && term < TERM_NUM
      modifies this, flags, video
      ensures Valid() && flags[..][term + 1] == FREE && (old(Turnable(Snapshot())) ==> Turnable(Snapshot()))
      ensures Snapshot() == old(Snapshot()).(video := Zeros(CELLS),
        flags := old(flags[..])[term + 1 := FREE], block := 0, started := old(started)[term := true])
    {
      Clear(video);
      flags[term + 1] := 0;
      block := 0;
      started := started[term := true];
    }

    method ExchangePages(term: nat)
      requires Valid() && term < TERM_NUM && pcbs[block].term < TERM_NUM
      modifies this, mmu.dir, mmu.tables, video, dump0, dump1, dump2
      ensures Valid() && Snapshot() == ShowTerminal(old(Snapshot()), term)
      ensures pcbs == old(pcbs) && block == old(block)
    {
      mmu.Set4KB(VIDEO, VIDEO, 0);
      var oldTerm := curTerm;
      curTerm := term;
      SaveVideo(oldTerm);
      LoadVideo(curTerm);
      RemapText(pcbs[block].term, 3);
    }

    method SaveVideo(t: nat)
      requires Valid() && t < TERM_NUM
      modifies dump0, dump1, dump2
      ensures Valid() && Snapshot() == old(Snapshot()).(dumps := old(Snapshot()).dumps[t := old(video[..])])
    {
      CopyPage(DumpOf(t), video);
    }

    method LoadVideo(t: nat)
      requires Valid() && t < TERM_NUM
      modifies video
      ensures Valid() && Snapshot() == old(Snapshot()).(video := old(Snapshot()).dumps[t])
    {
      CopyPage(video, DumpOf(t));
    }

    /** The page the text window shows, as the processor finds it. */
    function WindowPage(frame: int): array<Byte>
      reads this
    {
      if frame == VIDEO then video
      else if frame == DumpFrame(0) then dump0
      else if frame == DumpFrame(1) then dump1
      else dump2
    }

    method PutcCurrent(c: Byte)
      requires Valid() && pcbs[block].term < TERM_NUM
      modifies this, video, dump0, dump1, dump2
      ensures Valid() && Snapshot() == PrintStep(old(Snapshot()), c)
    {
      var t := pcbs[block].term;
      mmu.WalkIsLookup(MB132);
      var access := mmu.Walk(MB132);
      PutcThrough(if access.Fault? then -1 else access.phys, t, c);
    }

    method PutcThrough(frame: int, t: nat, c: Byte)
      requires Valid() && t < TERM_NUM
      modifies this, video, dump0, dump1, dump2
      ensures Valid()
      ensures Snapshot() == PutScreen(old(Snapshot()), frame, t,
        PutChar(Screen(PageAt(old(Snapshot()), frame), old(xs)[t], old(ys)[t]), c))
    {
      hide PutChar;
      var x, y := Putc(WindowPage(frame), xs[t], ys[t], c);
      xs := xs[t := x];
      ys := ys[t := y];
    }

    method KbdPutc(c: Byte)
      requires Valid()
      modifies this, video
      ensures Valid() && Snapshot() == EchoStep(old(Snapshot()), c)
    {
      var x, y := Putc(video, xs[curTerm], ys[curTerm], c);
      xs := xs[curTerm := x];
      ys := ys[curTerm := y];
    }

    method ClearKey()
      requires Valid()
      modifies this, video
      ensures Valid() && Snapshot() == ClearStep(old(Snapshot()))
    {
      xs := xs[curTerm := 0];
      ys := ys[curTerm := 0];
      Clear(video);
    }

    /** The screen part of term_del on the displayed terminal. */
    method EraseKey()
      requires Valid()
      modifies this, video
      ensures Valid() && Snapshot() == EraseStep(old(Snapshot()))
    {
      var x, y := TermDelete(video, xs[curTerm], ys[curTerm]);
      xs := xs[curTerm := x];
      ys := ys[curTerm := y];
    }

    /** system_vidmap refuses an address user code cannot reach, and otherwise maps real video memory and stores
        the window's address there: word is what the caller finds at its address afterwards. */
    method SystemVidmap(screenStart: Paging.Word, was: Paging.Word) returns (ret: int, word: Paging.Word)
      requires Valid()
      modifies mmu.dir, mmu.tables
      ensures Valid()
      ensures var a := Paging.Lookup(old(Snapshot()).space, screenStart);
        if a.At? && a.user then ret == 0 && word == MB132 && Snapshot() == VidmapStep(old(Snapshot()))
        else ret == -1 && word == was && Snapshot() == old(Snapshot())
      ensures ret == 0 ==> forall a: Paging.Word :: 0x840_0000 <= a < 0x840_1000 ==>
        mmu.Walk(a) == Paging.At(0xB8000 + a % 0x1000, true)
    {
      word := was;
      var present := mmu.PagePresent(screenStart);
      if !present {
        return -1, word;
      }
      var user := mmu.PageUser(screenStart);
      if !user {
        return -1, word;
      }
      mmu.Set4KB(VIDEO, MB132, 3);
      WindowGranted(old(Snapshot()).space);
      word := MB132;
      ret := 0;
    }

    /** Every address of the window reaches its place in video memory, for user code. */
    lemma WindowGranted(before: Paging.Space)
      requires mmu.Valid() && mmu.Regions() == Paging.MapSmall(before, VIDEO, MB132, 3)
      ensures forall a: Paging.Word :: 0x840_0000 <= a < 0x840_1000 ==>
        mmu.Walk(a) == Paging.At(0xB8000 + a % 0x1000, true)
    {
      hide Paging.MapSmall;
      forall a: Paging.Word | 0x840_0000 <= a < 0x840_1000
        ensures mmu.Walk(a) == Paging.At(0xB8000 + a % 0x1000, true)
      {
        mmu.WalkIsLookup(a);
        Paging.CallReaches(before, Paging.CallMapSmall(VIDEO, MB132, 3), a);
      }
    }

    /** system_getargs answers from the line kept last, whoever kept it. */
    method SystemGetargs(address: Paging.Word, buf: array<Byte>, nbytes: int) returns (ret: int)
      requires Valid() && nbytes <= buf.Length
      requires buf != shellBuf && buf != video && buf != dump0 && buf != dump1 && buf != dump2
      modifies buf
      ensures Valid() && Snapshot() == old(Snapshot())
      ensures var answer := Arguments.AnswerOf(Snapshot().shellBuf);
        && (ret == 0 || ret == -1)
        && (ret == 0 <==>
              Paging.Lookup(Snapshot().space, address) != Paging.Fault && answer.Some? && |answer.arg| < nbytes)
        && (ret == 0 ==> buf[..] == answer.arg + Zeros(nbytes - |answer.arg|) + old(buf[nbytes..]))
        && (ret == -1 ==> buf[..] == old(buf[..]))
    {
      var present := mmu.PagePresent(address);
      ret := CommandLine.GetArgs(shellBuf[..], present, buf, nbytes);
      assert ret == 0 ==> buf[..] == buf[..nbytes] + buf[nbytes..];
    }

    /** Every entry into the kernel records where the user registers were saved. */
    method SaveContext(regs: Regs)
      requires Valid()
      modifies this
      ensures Valid() && Snapshot() == TrapStep(old(Snapshot()), regs)
      ensures pcbs == old(pcbs)[block := old(pcbs[block]).(ctx := regs)]
    {
      pcbs := pcbs[block := pcbs[block].(ctx := regs)];
    }
  }
}
