/** The kernel's state between two interrupts, and what each kernel entry makes of it: process flags,
    process control blocks, the two user windows, the three text pages and their cursors. */
module Processes {
  import opened Screens
  import Paging
  import CommandLine

  const NUM_PROC := 7
  const TERM_NUM := 3

  const FREE := 0
  const RUNNING := 1
  const READY := 2
  const HELD := 3

  const MB8 := 0x80_0000
  const MB128: Paging.Word := 0x800_0000
  const MB132: Paging.Word := 0x840_0000
  const KB8 := 0x2000
  const VIDEO: Paging.Word := 0xB8000
  const ENTRY_POS_OFFSET := 24
  const SHELL: seq<Byte> := [115, 104, 101, 108, 108]

  // ------------------------------------------------------------------ data

  /** kind is the directory entry's type: 0 clock, 1 directory, 2 data. A file that is not readable has a bad
      inode or block number; elf says that its content starts with the magic number. */
  datatype File = File(kind: nat, inode: nat, size: Paging.Word, readable: bool, elf: bool)
  type Files = map<seq<Byte>, File>

  datatype Ops = StdIn | StdOut | Rtc | Dir | Data
  datatype Fd = Closed | Open(ops: Ops, inode: nat, pos: nat)

  /** A user context saved on a kernel stack: eax, and the other registers as one token. */
  datatype Regs = Regs(eax: int, rest: int)

  datatype Pcb = Pcb(pid: nat, parent: nat, term: nat, ctx: Regs, fds: seq<Fd>)

  /** block is the 8KB block holding the stack pointer: the PCB at its top is current_PCB. */
  datatype State = State(
    shellBuf: CommandLine.Line,
    flags: seq<nat>, pcbs: seq<Pcb>, block: nat,
    curTerm: nat, started: seq<bool>,
    esp0: int, space: Paging.Space,
    video: seq<Byte>, dumps: seq<seq<Byte>>, xs: seq<nat>, ys: seq<nat>)

  /** What execute finds: whether the page of its argument is present, and whether the memory the program goes to
      happens to start with the magic number already. */
  datatype Ask = Ask(present: bool, stale: bool)

  /** What the kernel finds when it starts a shell by itself: the same, and the bytes that follow the name in its
      own memory, all of which are copied. */
  datatype Start = Start(stale: bool, junk: Junk)
  type Junk = s: seq<Byte> | |s| == 122 witness seq(122, _ => 0)

  datatype Event =
    | Trap(regs: Regs)
    | Execute(ask: Ask, line: CommandLine.Line)
    | Halt(status: int, start: Start)
    | Tick
    | Switch(term: int, start: Start)
    | Print(c: Byte)
    | Echo(c: Byte)
    | Erase
    | ClearScreen
    | OpenFile(present: bool, name: seq<Byte>)
    | CloseFile(fd: int)
    | ReadFile(fd: int, moved: int)
    | Vidmap

  predicate Shape(s: State) {
    && |s.flags| == NUM_PROC && |s.pcbs| == NUM_PROC && s.block < NUM_PROC
    && s.flags[0] != FREE
    && (forall p :: 0 <= p < NUM_PROC ==> |s.pcbs[p].fds| == 8)
    && s.curTerm < TERM_NUM && |s.started| == TERM_NUM
    && |s.dumps| == TERM_NUM && |s.xs| == TERM_NUM && |s.ys| == TERM_NUM
    && |s.video| == CELLS
    && (forall t :: 0 <= t < TERM_NUM ==> |s.dumps[t]| == CELLS && s.xs[t] <= COLS && s.ys[t] < ROWS)
  }

  /** The control blocks of the processes that can run name a terminal. */
  predicate Turnable(s: State)
    requires Shape(s)
  {
    forall p :: 0 < p < NUM_PROC && (p == s.block || s.flags[p] == READY || s.flags[p] == RUNNING) ==>
      s.pcbs[p].term < TERM_NUM
  }

  /** The control blocks that the next step reads have been filled in: those of slot 0, of the current process
      and of its parent. The blocks of slots never used hold whatever memory held. */
  predicate Sound(s: State)
    requires Shape(s)
  {
    && Turnable(s) && s.pcbs[0].pid == 0
    && s.pcbs[s.block].pid == s.block
    && (s.block != 0 ==>
          s.pcbs[s.block].parent < NUM_PROC && s.pcbs[s.pcbs[s.block].parent].pid == s.pcbs[s.block].parent)
  }

  // ------------------------------------------------------------------ file descriptors

  function FreeSlotFrom(fds: seq<Fd>, i: nat): (r: int)
    requires i <= |fds|
    ensures r == -1 || (i <= r < |fds| && fds[r].Closed? && forall k :: i <= k < r ==> fds[k].Open?)
    ensures r == -1 ==> forall k :: i <= k < |fds| ==> fds[k].Open?
    decreases |fds| - i
  {
    if i == |fds| then -1 else if fds[i].Closed? then i else FreeSlotFrom(fds, i + 1)
  }

  /** Descriptors 0 and 1 are reserved for the terminal. */
  function FreeSlot(fds: seq<Fd>): (r: int)
    requires |fds| == 8
    ensures r == -1 || 2 <= r < 8
  {
    FreeSlotFrom(fds, 2)
  }

  function StdFds(): (fds: seq<Fd>)
    ensures |fds| == 8
  {
    [Open(StdIn, 0, 0), Open(StdOut, 0, 0), Closed, Closed, Closed, Closed, Closed, Closed]
  }

  function CloseFiles(fds: seq<Fd>): (r: seq<Fd>)
    requires |fds| == 8
    ensures |r| == 8
  {
    fds[..2] + [Closed, Closed, Closed, Closed, Closed, Closed]
  }

  function OpsOf(kind: nat): Ops {
    if kind == 0 then Rtc else if kind == 1 then Dir else Data
  }

  /** The descriptor that opening a name gives, or -1. */
  function OpenResult(files: Files, fds: seq<Fd>, present: bool, name: seq<Byte>): int
    requires |fds| == 8
  {
    if present && name in files && files[name].kind <= 2 then FreeSlot(fds) else -1
  }

  function AfterOpen(files: Files, fds: seq<Fd>, present: bool, name: seq<Byte>): (r: seq<Fd>)
    requires |fds| == 8
    ensures |r| == 8
  {
    var fd := OpenResult(files, fds, present, name);
    if fd == -1 then fds
    else fds[fd := Open(OpsOf(files[name].kind), if files[name].kind == 2 then files[name].inode else 0, 0)]
  }

  function CloseResult(fds: seq<Fd>, fd: int): int
    requires |fds| == 8
  {
    if 2 <= fd <= 7 && fds[fd].Open? then 0 else -1
  }

  /** What open promises: the lowest closed descriptor from 2 on stands for the file from its start, and the others
      are what they were; or it fails, for want of a page, a file of a type it knows, or a descriptor. */
  predicate Opens(files: Files, fds: seq<Fd>, present: bool, name: seq<Byte>, fd: int, after: seq<Fd>)
    requires |fds| == 8
  {
    if fd == -1 then
      && after == fds
      && (present && name in files && files[name].kind <= 2 ==> forall k :: 2 <= k <= 7 ==> fds[k].Open?)
    else
      && present && name in files
      && 2 <= fd <= 7 && fds[fd] == Closed && (forall k :: 2 <= k < fd ==> fds[k].Open?)
      && |after| == 8 && (forall k :: 0 <= k < 8 && k != fd ==> after[k] == fds[k])
      && match files[name].kind
         case 0 => after[fd] == Open(Rtc, 0, 0)
         case 1 => after[fd] == Open(Dir, 0, 0)
         case 2 => after[fd] == Open(Data, files[name].inode, 0)
         case _ => false
  }

  lemma AfterOpenOpens(files: Files, fds: seq<Fd>, present: bool, name: seq<Byte>)
    requires |fds| == 8
    ensures var fd, after := OpenResult(files, fds, present, name), AfterOpen(files, fds, present, name);
      Opens(files, fds, present, name, fd, after)
  {
  }

  function AfterClose(fds: seq<Fd>, fd: int): (r: seq<Fd>)
    requires |fds| == 8
    ensures |r| == 8
  {
    if CloseResult(fds, fd) == 0 then fds[fd := Closed] else fds
  }

  /** A read through a data file or the directory moves the position by what the file system gave, -1 included;
      the other files have none. */
  function AfterRead(fds: seq<Fd>, fd: int, moved: int): (r: seq<Fd>)
    requires |fds| == 8
    ensures |r| == 8
  {
    if 0 <= fd <= 7 && fds[fd].Open? && (fds[fd].ops == Data || fds[fd].ops == Dir) then
      fds[fd := fds[fd].(pos := (fds[fd].pos + moved) % 0x1_0000_0000)]
    else fds
  }

  // ------------------------------------------------------------------ choosing a process

  function LowestFreeFrom(flags: seq<nat>, i: nat): (r: int)
    requires i <= |flags|
    ensures r == -1 || (i <= r < |flags| && flags[r] == FREE && forall k :: i <= k < r ==> flags[k] != FREE)
    ensures r == -1 ==> forall k :: i <= k < |flags| ==> flags[k] != FREE
    decreases |flags| - i
  {
    if i == |flags| then -1 else if flags[i] == FREE then i else LowestFreeFrom(flags, i + 1)
  }

  function LowestFree(flags: seq<nat>): (r: int)
    ensures -1 <= r < |flags|
  {
    LowestFreeFrom(flags, 0)
  }

  /** How far q lies after cur in the cyclic order of process slots. */
  function Ahead(cur: nat, q: nat): (d: nat)
    requires cur < NUM_PROC && q < NUM_PROC
    ensures d == (q - cur) % 7
  {
    if q >= cur then q - cur else q - cur + NUM_PROC
  }

  function NthAfter(cur: nat, d: nat): (q: nat)
    requires cur < NUM_PROC && d <= NUM_PROC
    ensures q < NUM_PROC
  {
    if cur + d < NUM_PROC then cur + d else cur + d - NUM_PROC
  }

  function FirstReadyFrom(flags: seq<nat>, cur: nat, d: nat): (r: int)
    requires |flags| == NUM_PROC && cur < NUM_PROC && 1 <= d <= NUM_PROC
    ensures r == -1 || (0 < r < NUM_PROC && r != cur && flags[r] == READY)
    decreases NUM_PROC - d
  {
    if d == NUM_PROC then -1
    else if NthAfter(cur, d) != 0 && flags[NthAfter(cur, d)] == READY then NthAfter(cur, d)
    else FirstReadyFrom(flags, cur, d + 1)
  }

  /** The next process to run, or -1. */
  function NextReady(flags: seq<nat>, cur: nat): (r: int)
    requires |flags| == NUM_PROC && cur < NUM_PROC
    ensures r == -1 || (0 < r < NUM_PROC && r != cur && flags[r] == READY)
  {
    FirstReadyFrom(flags, cur, 1)
  }

  // ------------------------------------------------------------------ memory windows

  function StackTop(pid: nat): int {
    MB8 - pid * KB8
  }

  function ImageFrame(pid: nat): Paging.Word
    requires pid < NUM_PROC
  {
    MB8 + pid * Paging.MB4
  }

  function DumpFrame(t: nat): Paging.Word
    requires t < TERM_NUM
  {
    9 * Paging.MB4 + t * 0x1000
  }

  /** The physical page that holds terminal t's text while terminal cur is on display. */
  function TextFrame(cur: nat, t: nat): Paging.Word
    requires t < TERM_NUM
  {
    if t == cur then VIDEO else DumpFrame(t)
  }

  function MapImage(space: Paging.Space, pid: nat): Paging.Space
    requires pid < NUM_PROC
  {
    Paging.MapBig(space, ImageFrame(pid), MB128, 3)
  }

  function MapText(space: Paging.Space, cur: nat, t: nat, level: nat): Paging.Space
    requires t < TERM_NUM
  {
    Paging.MapSmall(space, TextFrame(cur, t), MB132, level)
  }

  // ------------------------------------------------------------------ execute

  datatype Outcome = Refused | NotExecutable | Launched

  /** A file size as execute compares it: as a signed word. */
  function AsInt(size: Paging.Word): int {
    if size < 0x8000_0000 then size else size - 0x1_0000_0000
  }

  /** The magic number is where execute looks for it: loaded from the file, or left there from before when the
      file cannot be read. */
  predicate MagicFound(file: File, stale: bool) {
    if file.readable then file.elf else stale
  }

  /** The name is that of a data file long enough to hold an entry point, and there are a slot and a descriptor
      for it. Sizes are compared as signed words. */
  predicate Loadable(files: Files, s: State, ask: Ask, name: seq<Byte>)
    requires Shape(s)
  {
    && (exists p :: 0 <= p < 7 && s.flags[p] == 0)
    && ask.present
    && name in files && files[name].kind == 2 && 24 <= files[name].size < 0x8000_0000
    && (exists fd :: 2 <= fd <= 7 && s.pcbs[s.block].fds[fd] == Closed)
  }

  function ExecuteOutcome(files: Files, s: State, ask: Ask, name: seq<Byte>): Outcome
    requires Shape(s)
  {
    var fd := OpenResult(files, s.pcbs[s.block].fds, true, name);
    if LowestFree(s.flags) == -1 || !ask.present || fd == -1 then Refused
    else if files[name].kind != 2 || AsInt(files[name].size) < ENTRY_POS_OFFSET then Refused
    else if !MagicFound(files[name], ask.stale) then NotExecutable
    else Launched
  }

  /** The program can be loaded, and the magic number will be found: in the file, or, if that cannot be read, in
      what its memory held before. */
  predicate StartsProgram(files: Files, s: State, ask: Ask, name: seq<Byte>)
    requires Shape(s)
  {
    Loadable(files, s, ask, name) && ((files[name].readable && files[name].elf) || (!files[name].readable && ask.stale))
  }

  function TermFor(s: State, child: nat): (t: int)
    requires Shape(s)
    ensures s.block != 0 && Turnable(s) ==> 0 <= t < TERM_NUM
  {
    if s.block == 0 then child - 1 else s.pcbs[s.block].term
  }

  /** Flags when cur starts child: cur waits for it; a start from slot 0 also reserves the three shell
      slots and turns a running process into a ready one. */
  function LaunchFlags(flags: seq<nat>, cur: nat, child: nat): (r: seq<nat>)
    requires |flags| == NUM_PROC && cur < NUM_PROC && child < NUM_PROC
    ensures |r| == NUM_PROC
  {
    var held := flags[cur := HELD];
    (if cur != 0 then held else Settled(held))[child := RUNNING]
  }

  function Settled(flags: seq<nat>): (r: seq<nat>)
    requires |flags| == NUM_PROC
    ensures |r| == NUM_PROC
  {
    seq(NUM_PROC, i requires 0 <= i < NUM_PROC => SettledFlag(flags[i], i))
  }

  function SettledFlag(flag: nat, i: nat): nat {
    if 1 <= i <= 3 && flag == FREE then HELD
    else if i >= 1 && flag == RUNNING then READY
    else flag
  }

  function Launch(s: State, child: nat): (r: State)
    requires Shape(s) && 0 < child < NUM_PROC && 0 <= TermFor(s, child) < TERM_NUM
    ensures Shape(r)
  {
    var t := TermFor(s, child);
    s.(flags := LaunchFlags(s.flags, s.block, child),
       pcbs := s.pcbs[child := Pcb(child, s.block, t, s.pcbs[child].ctx, StdFds())],
       block := child,
       started := s.started[t := true],
       esp0 := StackTop(child),
       space := MapText(MapImage(s.space, child), s.curTerm, t, 0))
  }

  /** A program without the magic number: its pages are mapped, found wanting, and the image window is put back. */
  function Reject(s: State, child: nat): (r: State)
    requires Shape(s) && 0 < child < NUM_PROC && 0 <= TermFor(s, child) < TERM_NUM
    ensures Shape(r)
  {
    s.(space := MapImage(MapText(MapImage(s.space, child), s.curTerm, TermFor(s, child), 0), s.block))
  }

  function ExecuteStep(files: Files, s: State, ask: Ask, name: seq<Byte>): (r: State)
    requires Shape(s) && Turnable(s)
    requires s.block == 0 ==> LowestFree(s.flags) <= 3
    ensures Shape(r)
  {
    match ExecuteOutcome(files, s, ask, name)
    case Refused => s
    case NotExecutable => Reject(s, LowestFree(s.flags))
    case Launched => Launch(s, LowestFree(s.flags))
  }

  /** The one buffer for the whole machine takes the line as soon as a slot is free and the page is there,
      whatever becomes of the execute after that. */
  predicate Stores(s: State, ask: Ask)
    requires Shape(s)
  {
    LowestFree(s.flags) != -1 && ask.present
  }

  function Stored(s: State, ask: Ask, line: CommandLine.Line): (r: State)
    requires Shape(s)
    ensures Shape(r) && r == s.(shellBuf := r.shellBuf)
  {
    if Stores(s, ask) then s.(shellBuf := line) else s
  }

  function ExecuteLine(files: Files, s: State, ask: Ask, line: CommandLine.Line): (r: State)
    requires Shape(s) && Turnable(s)
    requires s.block == 0 ==> LowestFree(s.flags) <= 3
    ensures Shape(r)
  {
    ExecuteStep(files, Stored(s, ask, line), ask, CommandLine.Word(line))
  }

  /** execute of the shell by the kernel itself. */
  function StartShell(files: Files, s: State, start: Start): (r: State)
    requires Shape(s) && Turnable(s) && s.block == 0 && LowestFree(s.flags) <= 3
    ensures Shape(r)
  {
    ExecuteStep(files, Stored(s, Ask(true, start.stale), ShellLine(start.junk)), Ask(true, start.stale), SHELL)
  }

  function ShellLine(junk: Junk): CommandLine.Line {
    SHELL + [0] + junk
  }

  /** The shell program is there and can be started. */
  predicate ShellLoads(files: Files) {
    && SHELL in files && files[SHELL].kind == 2 && AsInt(files[SHELL].size) >= ENTRY_POS_OFFSET
    && files[SHELL].readable && files[SHELL].elf
  }

  // ------------------------------------------------------------------ halt, schedule, terminals

  function Release(s: State): (r: State)
    requires Shape(s) && s.block != 0
    ensures Shape(r)
  {
    s.(flags := s.flags[s.block := FREE],
       pcbs := s.pcbs[s.block := s.pcbs[s.block].(fds := CloseFiles(s.pcbs[s.block].fds))])
  }

  /** The parent gets the status in its saved eax and becomes current: running if its terminal is on display,
      otherwise ready. Its text window is not remapped. */
  function ReturnTo(s: State, parent: nat, status: int): (r: State)
    requires Shape(s) && 0 < parent < NUM_PROC
    ensures Shape(r)
  {
    s.(flags := s.flags[parent := if s.pcbs[parent].term == s.curTerm then RUNNING else READY],
       space := MapImage(s.space, parent),
       esp0 := StackTop(parent),
       pcbs := s.pcbs[parent := s.pcbs[parent].(ctx := s.pcbs[parent].ctx.(eax := status))],
       block := parent)
  }

  function HaltStep(files: Files, s: State, status: int, start: Start): (r: State)
    requires Shape(s) && Turnable(s) && s.block != 0 && s.pcbs[s.block].parent < NUM_PROC
    requires s.pcbs[s.block].parent == 0 ==> s.block <= 3
    ensures Shape(r)
  {
    var a := Release(s);
    var parent := s.pcbs[s.block].parent;
    if parent != 0 then ReturnTo(a, parent, status)
    else
      assert a.flags[s.block] == FREE;
      StartShell(files, a.(block := 0), start)
  }

  function TickStep(s: State): (r: State)
    requires Shape(s) && Turnable(s)
    ensures Shape(r) && Turnable(r)
  {
    var next := NextReady(s.flags, s.block);
    if next == -1 then s
    else
      s.(flags := s.flags[s.block := READY][next := RUNNING],
         space := MapText(MapImage(s.space, next), s.curTerm, s.pcbs[next].term, 3),
         esp0 := StackTop(next),
         block := next)
  }

  /** The part of term_switch every switch performs: exchange the pages and remap the text window. */
  function ShowTerminal(s: State, t: nat): (r: State)
    requires Shape(s) && t < TERM_NUM && s.pcbs[s.block].term < TERM_NUM
    ensures Shape(r)
  {
    var dumps := s.dumps[s.curTerm := s.video];
    s.(space := MapText(Paging.MapSmall(s.space, VIDEO, VIDEO, 0), t, s.pcbs[s.block].term, 3),
       dumps := dumps, video := dumps[t], curTerm := t)
  }

  function SwitchStep(files: Files, s: State, term: int, start: Start): (r: State)
    requires Shape(s) && Turnable(s) && s.block != 0
    ensures Shape(r)
  {
    if term < 0 || term >= TERM_NUM then s
    else
      var a := ShowTerminal(s, term);
      if a.started[term] then a
      else
        var b := a.(video := Zeros(CELLS), flags := a.flags[term + 1 := FREE], block := 0,
                    started := a.started[term := true]);
        assert b.flags[term + 1] == FREE;
        StartShell(files, b, start)
  }

  // ------------------------------------------------------------------ the text pages

  function PageAt(s: State, frame: int): seq<Byte>
    requires Shape(s)
  {
    if frame == VIDEO then s.video
    else if frame == DumpFrame(0) then s.dumps[0]
    else if frame == DumpFrame(1) then s.dumps[1]
    else s.dumps[2]
  }

  function PutPage(s: State, frame: int, cells: seq<Byte>): State
    requires Shape(s)
  {
    if frame == VIDEO then s.(video := cells)
    else if frame == DumpFrame(0) then s.(dumps := s.dumps[0 := cells])
    else if frame == DumpFrame(1) then s.(dumps := s.dumps[1 := cells])
    else s.(dumps := s.dumps[2 := cells])
  }

  function PutScreen(s: State, frame: int, t: nat, scr: Screen): (r: State)
    requires Shape(s) && t < TERM_NUM && scr.Valid()
    ensures Shape(r)
  {
    PutPage(s, frame, scr.cells).(xs := s.xs[t := scr.x], ys := s.ys[t := scr.y])
  }

  /** The physical page behind the text window. */
  function WindowFrame(space: Paging.Space): int {
    var a := Paging.Lookup(space, MB132);
    if a.Fault? then -1 else a.phys
  }

  /** putc writes through the text window, at the cursor of the running process's terminal. */
  function PrintStep(s: State, c: Byte): (r: State)
    requires Shape(s) && s.pcbs[s.block].term < TERM_NUM
    ensures Shape(r)
  {
    var t := s.pcbs[s.block].term;
    var frame := WindowFrame(s.space);
    PutScreen(s, frame, t, PutChar(Screen(PageAt(s, frame), s.xs[t], s.ys[t]), c))
  }

  /** The displayed screen, as kbd_putc and the keyboard see it. */
  function Shown(s: State): (r: Screen)
    requires Shape(s)
    ensures r.Valid()
  {
    Screen(s.video, s.xs[s.curTerm], s.ys[s.curTerm])
  }

  function EchoStep(s: State, c: Byte): (r: State)
    requires Shape(s)
    ensures Shape(r)
  {
    PutScreen(s, VIDEO, s.curTerm, PutChar(Shown(s), c))
  }

  function EraseStep(s: State): (r: State)
    requires Shape(s)
    ensures Shape(r)
  {
    PutScreen(s, VIDEO, s.curTerm, EraseBack(Shown(s)))
  }

  function ClearStep(s: State): (r: State)
    requires Shape(s)
    ensures Shape(r)
  {
    PutScreen(s, VIDEO, s.curTerm, Blank())
  }

  /** system_vidmap maps real video memory for the caller, wherever it runs. */
  function VidmapStep(s: State): (r: State)
    requires Shape(s)
    ensures Shape(r)
  {
    s.(space := Paging.MapSmall(s.space, VIDEO, MB132, 3))
  }

  // ------------------------------------------------------------------ small steps of the running process

  function SetFds(s: State, fds: seq<Fd>): (r: State)
    requires Shape(s) && |fds| == 8
    ensures Shape(r)
  {
    s.(pcbs := s.pcbs[s.block := s.pcbs[s.block].(fds := fds)])
  }

  function TrapStep(s: State, regs: Regs): (r: State)
    requires Shape(s)
    ensures Shape(r)
  {
    s.(pcbs := s.pcbs[s.block := s.pcbs[s.block].(ctx := regs)])
  }

  /** A process is running, and one whose parent is slot 0 sits in a shell slot. */
  predicate Steppable(s: State) {
    Shape(s) && Sound(s) && s.block != 0 && (s.pcbs[s.block].parent == 0 ==> s.block <= 3)
  }

  function Step(files: Files, s: State, e: Event): (r: State)
    requires Steppable(s)
    ensures Shape(r)
  {
    match e
    case Trap(regs) => TrapStep(s, regs)
    case Execute(ask, line) => ExecuteLine(files, s, ask, line)
    case Halt(status, start) => HaltStep(files, s, status, start)
    case Tick => TickStep(s)
    case Switch(term, start) => SwitchStep(files, s, term, start)
    case Print(c) => PrintStep(s, c)
    case Echo(c) => EchoStep(s, c)
    case Erase => EraseStep(s)
    case ClearScreen => ClearStep(s)
    case OpenFile(present, name) => SetFds(s, AfterOpen(files, s.pcbs[s.block].fds, present, name))
    case CloseFile(fd) => SetFds(s, AfterClose(s.pcbs[s.block].fds, fd))
    case ReadFile(fd, moved) => SetFds(s, AfterRead(s.pcbs[s.block].fds, fd, moved))
    case Vidmap => VidmapStep(s)
  }

  /** The state after boot has started the first shell; the dump pages hold whatever memory held. */
  function PowerOn(shellBuf: CommandLine.Line, space: Paging.Space, dumps: seq<seq<Byte>>, pcbs: seq<Pcb>,
                   esp0: int): State
  {
    State(shellBuf, [HELD, FREE, FREE, FREE, FREE, FREE, FREE], pcbs, 0, 0, [false, false, false], esp0, space,
          Zeros(CELLS), dumps, [0, 0, 0], [0, 0, 0])
  }
}
