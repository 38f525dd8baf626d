/** What user code can reach, what the kernel can, and where things are in memory. */
module Isolation {
  import opened Screens
  import opened Processes
  import opened Refinement
  import opened Background
  import opened Runs
  import CommandLine
  import Paging
  import M = Machine

  predicate KernelRegion(r: Paging.Region) {
    r.Absent? || !r.user
  }

  /** A 4KB page of the kernel that is found at its own physical address. */
  predicate KernelPage(space: Paging.Space, frame: Paging.Word) {
    var r := space[Paging.RegionOf(frame)];
    r.Small? && !r.user && Paging.PageOf(frame) in r.pages && r.pages[Paging.PageOf(frame)] == Paging.Page(frame, false)
  }

  /** Outside the image window and the first page of the text window nothing is mapped for user code. */
  ghost predicate Confined(space: Paging.Space) {
    && (forall i {:trigger KernelRegion(space[i])} ::
          0 <= i < Paging.ENTRIES && i != Paging.RegionOf(MB128) && i != Paging.RegionOf(MB132) ==>
          KernelRegion(space[i]))
    && Paging.PagesOf(space[Paging.RegionOf(MB132)]).Keys <= {Paging.PageOf(MB132)}
  }

  /** The kernel finds its code and stacks, its page tables, video memory and the dump pages where they are. */
  predicate KernelMapped(space: Paging.Space) {
    && space[1] == Paging.Big(Paging.MB4, false) && space[2] == Paging.Big(MB8, false)
    && KernelPage(space, VIDEO)
    && KernelPage(space, DumpFrame(0)) && KernelPage(space, DumpFrame(1)) && KernelPage(space, DumpFrame(2))
  }

  ghost predicate InOrder(space: Paging.Space) {
    Confined(space) && KernelMapped(space)
  }

  lemma WindowsInOrder(space: Paging.Space, p: nat, cur: nat, t: nat, level: nat)
    requires InOrder(space) && p < NUM_PROC && t < TERM_NUM
    ensures InOrder(MapImage(space, p)) && InOrder(MapText(space, cur, t, level))
    ensures InOrder(Paging.MapSmall(space, VIDEO, VIDEO, 0)) && InOrder(Paging.MapSmall(space, VIDEO, MB132, 3))
  {
  }

  lemma ExecuteInOrder(files: Files, s: State, ask: Ask, name: seq<Byte>)
    requires Shape(s) && Turnable(s) && InOrder(s.space) && (s.block == 0 ==> LowestFree(s.flags) <= 3)
    ensures InOrder(ExecuteStep(files, s, ask, name).space)
  {
    hide InOrder;
    if ExecuteOutcome(files, s, ask, name) != Refused {
      var p := LowestFree(s.flags);
      var t := TermFor(s, p);
      WindowsInOrder(s.space, p, s.curTerm, t, 0);
      WindowsInOrder(MapImage(s.space, p), p, s.curTerm, t, 0);
      WindowsInOrder(MapText(MapImage(s.space, p), s.curTerm, t, 0), s.block, s.curTerm, t, 0);
    }
  }

  lemma ShellInOrder(files: Files, s: State, start: Start)
    requires Shape(s) && Turnable(s) && InOrder(s.space) && s.block == 0 && LowestFree(s.flags) <= 3
    ensures InOrder(StartShell(files, s, start).space)
  {
    hide InOrder, ExecuteStep, ShellLine;
    ExecuteInOrder(files, Stored(s, Ask(true, start.stale), ShellLine(start.junk)), Ask(true, start.stale), SHELL);
  }

  lemma SwitchInOrder(files: Files, s: State, term: int, start: Start)
    requires Shape(s) && Turnable(s) && s.block != 0 && InOrder(s.space)
    ensures InOrder(SwitchStep(files, s, term, start).space)
  {
    hide InOrder, StartShell;
    if 0 <= term < TERM_NUM {
      var t := s.pcbs[s.block].term;
      WindowsInOrder(s.space, 0, term, t, 3);
      WindowsInOrder(Paging.MapSmall(s.space, VIDEO, VIDEO, 0), 0, term, t, 3);
      var a := ShowTerminal(s, term);
      if !a.started[term] {
        var b := a.(video := Zeros(CELLS), flags := a.flags[term + 1 := FREE], block := 0,
                    started := a.started[term := true]);
        assert b.flags[term + 1] == FREE;
        ShellInOrder(files, b, start);
      }
    }
  }

  lemma HaltInOrder(files: Files, s: State, status: int, start: Start)
    requires Steppable(s) && InOrder(s.space)
    ensures InOrder(HaltStep(files, s, status, start).space)
  {
    hide InOrder, StartShell;
    WindowsInOrder(s.space, s.pcbs[s.block].parent, s.curTerm, 0, 3);
    if s.pcbs[s.block].parent == 0 {
      var a := Release(s);
      assert a.flags[s.block] == FREE;
      ShellInOrder(files, a.(block := 0), start);
    }
  }

  /** No step maps anything for user code outside the two windows, and none takes a mapping of the kernel away. */
  lemma StepInOrder(files: Files, s: State, e: Event)
    requires Steppable(s) && InOrder(s.space)
    ensures InOrder(Step(files, s, e).space)
  {
    hide InOrder, ExecuteStep, HaltStep, SwitchStep;
    WindowsInOrder(s.space, s.block, s.curTerm, s.pcbs[s.block].term, 3);
    match e
    case Execute(ask, line) => ExecuteInOrder(files, Stored(s, ask, line), ask, CommandLine.Word(line));
    case Halt(status, start) => HaltInOrder(files, s, status, start);
    case Switch(term, start) => SwitchInOrder(files, s, term, start);
    case Tick =>
      var next := NextReady(s.flags, s.block);
      if next != -1 {
        WindowsInOrder(s.space, next, s.curTerm, s.pcbs[next].term, 3);
        WindowsInOrder(MapImage(s.space, next), next, s.curTerm, s.pcbs[next].term, 3);
      }
    case _ =>
  }

  lemma {:induction false} RunInOrder(files: Files, run: seq<State>, events: seq<Event>, i: nat)
    requires IsRun(files, run, events) && InOrder(run[0].space) && i < |run|
    ensures InOrder(run[i].space)
  {
    hide InOrder, Step;
    if i > 0 {
      RunInOrder(files, run, events, i - 1);
      assert StepsAt(files, run, events, i - 1);
      StepInOrder(files, run[i - 1], events[i - 1]);
    }
  }

  lemma BootInOrder()
    ensures InOrder(BootSpace())
  {
    KernelSpaceInOrder();
  }

  lemma KernelSpaceInOrder()
    ensures Confined(KernelSpace()) && KernelPage(KernelSpace(), VIDEO)
    ensures KernelSpace()[1] == Paging.Big(Paging.MB4, false) && KernelSpace()[2] == Paging.Big(MB8, false)
  {
  }

  lemma BootRunInOrder(files: Files, boot: State, run: seq<State>, events: seq<Event>, i: nat)
    requires IsBootRun(files, boot, run, events) && i < |run|
    ensures InOrder(run[i].space)
  {
    hide InOrder, Step, StartShell;
    BootRefines(files, boot, PLAIN);
    BootInOrder();
    var start :| run[0] == StartShell(files, boot, start);
    ShellInOrder(files, boot, start);
    RunInOrder(files, run, events, i);
  }

  /** The 4KB page at a frame. */
  predicate OnPage(phys: int, frame: int) {
    0 <= phys - frame < 0x1000
  }

  /** What user code can reach in such a map is its own image and the page behind its text window. */
  lemma ConfinedReach(s: State, m: M.Machine, virt: Paging.Word, frame: int)
    requires Core(s, m) && Confined(s.space) && WindowOk(s.space, frame)
    ensures 0 < s.block < NUM_PROC
    ensures var a := Paging.Lookup(s.space, virt);
      a.At? && a.user ==>
        ImageFrame(s.block) <= a.phys < ImageFrame(s.block) + Paging.MB4 || OnPage(a.phys, frame)
  {
    CallerTerm(s, m);
    assert KernelRegion(s.space[Paging.RegionOf(virt)]) ||
           Paging.RegionOf(virt) == Paging.RegionOf(MB128) || Paging.RegionOf(virt) == Paging.RegionOf(MB132);
  }

  /** Memory isolation over whole runs: in every state reachable from boot, whatever the programs ask and whatever
      address user code tries, it reaches physical memory only in the running process's own 4MB image, in the page
      that holds its own terminal's text, or in the displayed page. The displayed page of another terminal is
      within reach only if some program asked for vidmap off display. Kernel memory, page tables, other images and
      dump pages of other terminals are always out of reach. */
  lemma UserReachesOwnPages(files: Files, boot: State, run: seq<State>, events: seq<Event>, i: nat, virt: Paging.Word)
    requires IsBootRun(files, boot, run, events) && i < |run|
    ensures Shape(run[i]) && 0 < run[i].block && run[i].pcbs[run[i].block].term < TERM_NUM
    ensures var s := run[i]; var a := Paging.Lookup(s.space, virt);
      a.At? && a.user ==>
        || ImageFrame(s.block) <= a.phys < ImageFrame(s.block) + Paging.MB4
        || OnPage(a.phys, TextFrame(s.curTerm, s.pcbs[s.block].term))
        || (OnPage(a.phys, VIDEO) && !AllAllowed(run, events))
  {
    hide Confined, WindowOk, AllAllowed;
    BootRunInOrder(files, boot, run, events, i);
    var m := BootRunKeepsCore(files, boot, run, events, i);
    var own := TextFrame(run[i].curTerm, run[i].pcbs[run[i].block].term);
    if AllAllowed(run, events) {
      OwnWindow(files, boot, run, events, i);
    }
    ConfinedReach(run[i], m, virt, if WindowOk(run[i].space, own) then own else VIDEO);
  }

  predicate KernelAddress(virt: Paging.Word) {
    0x40_0000 <= virt < 0xC0_0000 || 0xB8000 <= virt < 0xB9000 || 0x240_0000 <= virt < 0x240_3000
  }

  /** In every state reachable from boot the kernel can follow its own addresses: its code and stacks, the page
      tables it writes, the video memory and the dump pages it copies between are mapped to themselves, and for
      the kernel only. */
  lemma KernelReachesItsPages(files: Files, boot: State, run: seq<State>, events: seq<Event>, i: nat, virt: Paging.Word)
    requires IsBootRun(files, boot, run, events) && i < |run|
    ensures KernelAddress(virt) ==> Paging.Lookup(run[i].space, virt) == Paging.At(virt, false)
  {
    hide Confined;
    BootRunInOrder(files, boot, run, events, i);
    if KernelAddress(virt) {
      MappedToItself(run[i].space, virt);
    }
  }

  lemma MappedToItself(space: Paging.Space, virt: Paging.Word)
    requires KernelMapped(space) && KernelAddress(virt)
    ensures Paging.Lookup(space, virt) == Paging.At(virt, false)
  {
    if virt >= DumpFrame(0) {
      assert virt == DumpFrame(Paging.PageOf(virt)) + virt % Paging.KB4;
    }
  }

  // ------------------------------------------------------------------ who reaches the text window

  lemma TextMapped(space: Paging.Space, cur: nat, t: nat, level: nat, a: Paging.Word)
    requires t < TERM_NUM && 0x840_0000 <= a < 0x840_1000
    ensures Paging.Lookup(MapText(space, cur, t, level), a) == Paging.At(TextFrame(cur, t) + a % 0x1000, level == 3)
  {
    hide Paging.Lookup, Paging.MapSmall;
    Paging.CallReaches(space, Paging.CallMapSmall(TextFrame(cur, t), MB132, level), a);
  }

  lemma ImageLeavesText(space: Paging.Space, p: nat, a: Paging.Word)
    requires p < NUM_PROC && 0x840_0000 <= a < 0x840_1000
    ensures Paging.Lookup(MapImage(space, p), a) == Paging.Lookup(space, a)
  {
    hide Paging.Lookup, Paging.MapBig;
    Paging.CallReaches(space, Paging.CallMapBig(ImageFrame(p), MB128, 3), a);
  }

  /** The running process's own text page, for user code or for the kernel only. */
  predicate ShowsOwn(r: State, a: Paging.Word, user: bool)
    requires Shape(r)
  {
    var t := r.pcbs[r.block].term;
    t < TERM_NUM && Paging.Lookup(r.space, a) == Paging.At(TextFrame(r.curTerm, t) + a % 0x1000, user)
  }

  predicate SameWindow(s: State, r: State, a: Paging.Word) {
    Paging.Lookup(r.space, a) == Paging.Lookup(s.space, a)
  }

  lemma ExecuteWindow(files: Files, s: State, ask: Ask, name: seq<Byte>, a: Paging.Word)
    requires Shape(s) && Turnable(s) && 0x840_0000 <= a < 0x840_1000 && (s.block == 0 ==> LowestFree(s.flags) <= 3)
    ensures var r := ExecuteStep(files, s, ask, name);
      if Loadable(files, s, ask, name) then ShowsOwn(r, a, false) || s.block == 0 else r == s
    ensures s.block == 0 && ExecuteOutcome(files, s, ask, name) == Launched ==>
      ShowsOwn(ExecuteStep(files, s, ask, name), a, false)
  {
    hide Loadable, Paging.Lookup, MapImage, MapText;
    LaunchedExactly(files, s, ask, name);
    if ExecuteOutcome(files, s, ask, name) != Refused {
      var p := LowestFree(s.flags);
      var t := TermFor(s, p);
      var space := MapImage(s.space, p);
      TextMapped(space, s.curTerm, t, 0, a);
      ImageLeavesText(MapText(space, s.curTerm, t, 0), s.block, a);
    }
  }

  lemma ShellWindow(files: Files, s: State, start: Start, a: Paging.Word)
    requires ShellLoads(files) && Shape(s) && Turnable(s) && s.block == 0 && -1 != LowestFree(s.flags) <= 3
    requires s.pcbs[0].fds[2] == Closed && 0x840_0000 <= a < 0x840_1000
    ensures ShowsOwn(StartShell(files, s, start), a, false)
  {
    hide ExecuteStep, ShowsOwn, ShellLine;
    var ask := Ask(true, start.stale);
    var b := Stored(s, ask, ShellLine(start.junk));
    FreeSlotExists(b.pcbs[0].fds);
    assert ExecuteOutcome(files, b, ask, SHELL) == Launched;
    ExecuteWindow(files, b, ask, SHELL, a);
  }

  lemma SwitchWindow(files: Files, s: State, term: int, start: Start, a: Paging.Word)
    requires ShellLoads(files) && Steppable(s) && s.pcbs[0].fds[2] == Closed && 0x840_0000 <= a < 0x840_1000
    ensures var r := SwitchStep(files, s, term, start);
      if 0 <= term < TERM_NUM then ShowsOwn(r, a, s.started[term]) else SameWindow(s, r, a)
  {
    hide StartShell, Paging.Lookup, MapText;
    if 0 <= term < TERM_NUM {
      TextMapped(Paging.MapSmall(s.space, VIDEO, VIDEO, 0), term, s.pcbs[s.block].term, 3, a);
      if !s.started[term] {
        var b := Opened(s, term);
        assert b.flags[term + 1] == FREE;
        ShellWindow(files, b, start, a);
      }
    }
  }

  lemma HaltWindow(files: Files, s: State, status: int, start: Start, a: Paging.Word)
    requires ShellLoads(files) && Steppable(s) && s.pcbs[0].fds[2] == Closed && 0x840_0000 <= a < 0x840_1000
    ensures var r := HaltStep(files, s, status, start);
      if s.pcbs[s.block].parent == 0 then ShowsOwn(r, a, false) else SameWindow(s, r, a)
  {
    hide StartShell, Paging.Lookup, MapImage;
    var parent := s.pcbs[s.block].parent;
    if parent == 0 {
      var b := Release(s);
      assert b.flags[s.block] == FREE;
      ShellWindow(files, b.(block := 0), start, a);
    } else {
      ImageLeavesText(s.space, parent, a);
    }
  }

  lemma TickWindow(s: State, a: Paging.Word)
    requires Shape(s) && Turnable(s) && 0x840_0000 <= a < 0x840_1000
    ensures var r := TickStep(s); if r.block != s.block then ShowsOwn(r, a, true) else SameWindow(s, r, a)
  {
    hide Paging.Lookup, MapText;
    var next := NextReady(s.flags, s.block);
    if next != -1 {
      TextMapped(MapImage(s.space, next), s.curTerm, s.pcbs[next].term, 3, a);
    }
  }

  /** What each step does to the text window, for each of its 4096 addresses. Vidmap opens video memory to user code;
      a tick that changes the process, and a switch to a terminal in use, open the then running process's own text
      page to it; an execute that gets as far as loading and a shell started by the kernel map that page for the
      kernel only; and no other step changes anything. */
  lemma TextWindowAfter(files: Files, s: State, m: M.Machine, e: Event, a: Paging.Word)
    requires Core(s, m) && ShellLoads(files) && 0x840_0000 <= a < 0x840_1000
    ensures Steppable(s)
    ensures var r := Step(files, s, e);
      match e
      case Vidmap => Paging.Lookup(r.space, a) == Paging.At(0xB8000 + a % 0x1000, true)
      case Tick => if r.block != s.block then ShowsOwn(r, a, true) else SameWindow(s, r, a)
      case Switch(term, _) =>
        if 0 <= term < TERM_NUM then ShowsOwn(r, a, s.started[term]) else SameWindow(s, r, a)
      case Halt(_, _) => if s.pcbs[s.block].parent == 0 then ShowsOwn(r, a, false) else SameWindow(s, r, a)
      case Execute(ask, line) =>
        if Loadable(files, s, ask, CommandLine.Word(line)) then ShowsOwn(r, a, false) else SameWindow(s, r, a)
      case _ => SameWindow(s, r, a)
  {
    hide ExecuteStep, HaltStep, SwitchStep, TickStep, ShowsOwn, Paging.Lookup, CommandLine.Word;
    CoreSteppable(s, m);
    assert s.pcbs[0].fds[2] == Closed;
    match e
    case Vidmap => Paging.CallReaches(s.space, Paging.CallMapSmall(VIDEO, MB132, 3), a);
    case Tick => TickWindow(s, a);
    case Switch(term, start) => SwitchWindow(files, s, term, start, a);
    case Halt(status, start) => HaltWindow(files, s, status, start, a);
    case Execute(ask, line) => ExecuteWindow(files, Stored(s, ask, line), ask, CommandLine.Word(line), a);
    case _ =>
  }

  // ------------------------------------------------------------------ where things are in memory

  /** Clearing the low 13 bits of any address on a process's kernel stack gives its control block. */
  lemma StackAddressFindsPcb(pid: nat, addr: int)
    requires pid < NUM_PROC && StackTop(pid) - KB8 <= addr < StackTop(pid)
    ensures addr - addr % KB8 == StackTop(pid) - KB8
  {
  }

  /** Process images, kernel stacks, page tables and the three dump pages never overlap. */
  lemma MemoryIsDisjoint(p: nat, q: nat, t: nat)
    requires 0 < p < q < NUM_PROC && t < TERM_NUM
    ensures ImageFrame(p) + Paging.MB4 <= ImageFrame(q)
    ensures StackTop(q) <= StackTop(p) - KB8 && StackTop(p) <= MB8
    ensures Paging.TABLES == MB8 && Paging.TABLES + 0x1000 * Paging.ENTRIES <= ImageFrame(p)
    ensures ImageFrame(q) + Paging.MB4 <= DumpFrame(t) && (t > 0 ==> DumpFrame(t - 1) + 0x1000 == DumpFrame(t))
    ensures VIDEO + 0x1000 <= StackTop(q) - KB8
  {
  }
}
