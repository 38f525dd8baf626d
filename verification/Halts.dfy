/** Halts are last in, first out, and a failed execute leaves things as they were but for the text window. */
module Halts {
  import opened Processes
  import opened Refinement
  import opened Background
  import opened Runs
  import CommandLine
  import Paging
  import M = Machine

  /** The process at height i of terminal t, what is below it and its child are where they were, with the same
      context and descriptors. */
  ghost predicate Undisturbed(m: M.Machine, r: M.Machine, t: nat, i: nat)
    requires t < |m.stacks| && t < |r.stacks| && i + 1 < |m.stacks[t]|
  {
    var p := m.stacks[t][i];
    && i + 1 < |r.stacks[t]| && r.stacks[t][..i + 2] == m.stacks[t][..i + 2]
    && 0 < p < NUM_PROC && p < |m.procs| && p < |r.procs| && r.procs[p] == m.procs[p]
  }

  /** A waiting process and everything below it stay put through any step except the halt of its own child. */
  lemma WaitingStays(files: Files, m: M.Machine, e: Event, t: nat, i: nat)
    requires M.Ok(m) && t < TERM_NUM && i + 1 < |m.stacks[t]|
    requires !(e.Halt? && m.cur == t && |m.stacks[t]| == i + 2)
    ensures |M.Next(files, m, e).stacks| == TERM_NUM && Undisturbed(m, M.Next(files, m, e), t, i)
  {
    var top := |m.stacks[m.cur]| - 1;
    assert M.PlaceOf(m.stacks, m.stacks[t][i]) == M.On(t, i);
    assert M.SlotFits(m.stacks[t][i], t, i);
    assert M.PlaceOf(m.stacks, m.stacks[m.cur][top]) == M.On(m.cur, top);
    match e
    case Halt(_, _) => HaltElsewhere(files, m, e, t, i);
    case Switch(term, _) =>
      if 0 <= term < TERM_NUM && m.stacks[term] == [] {
        M.ShellSlotOff(m.stacks, term);
      }
    case _ =>
  }

  lemma HaltElsewhere(files: Files, m: M.Machine, e: Event, t: nat, i: nat)
    requires M.Ok(m) && t < TERM_NUM && i + 1 < |m.stacks[t]|
    requires e.Halt? && !(m.cur == t && |m.stacks[t]| == i + 2)
    ensures |M.Next(files, m, e).stacks| == TERM_NUM && Undisturbed(m, M.Next(files, m, e), t, i)
  {
    var top := |m.stacks[m.cur]| - 1;
    assert M.PlaceOf(m.stacks, m.stacks[t][i]) == M.On(t, i);
    assert M.SlotFits(m.stacks[t][i], t, i);
    assert M.PlaceOf(m.stacks, m.stacks[m.cur][top]) == M.On(m.cur, top);
    if top > 0 {
      assert M.PlaceOf(m.stacks, m.stacks[m.cur][top - 1]) == M.On(m.cur, top - 1);
    } else {
      assert M.SlotFits(m.stacks[m.cur][0], m.cur, 0);
    }
  }

  /** The running process is the one at height i + 1 of terminal t exactly when it is that stack's top. */
  lemma ChildIsTop(m: M.Machine, t: nat, i: nat)
    requires M.Ok(m) && t < TERM_NUM && i < |m.stacks[t]|
    ensures M.Running(m) == m.stacks[t][i] <==> m.cur == t && |m.stacks[t]| == i + 1
  {
    assert M.PlaceOf(m.stacks, m.stacks[t][i]) == M.On(t, i);
    assert M.PlaceOf(m.stacks, m.stacks[m.cur][|m.stacks[m.cur]| - 1]) == M.On(m.cur, |m.stacks[m.cur]| - 1);
  }

  /** Process p sits at height i of terminal t, below child, with this context and these descriptors. */
  ghost predicate Waits(m: M.Machine, t: nat, i: nat, p: nat, child: nat, proc: M.Proc)
    requires M.Ok(m) && t < TERM_NUM
  {
    && i + 1 < |m.stacks[t]| && m.stacks[t][i] == p && m.stacks[t][i + 1] == child
    && 0 < p < NUM_PROC && m.procs[p] == proc
  }

  lemma WaitsOn(files: Files, m: M.Machine, e: Event, t: nat, i: nat, p: nat, child: nat, proc: M.Proc)
    requires M.Ok(m) && M.Ok(M.Next(files, m, e)) && t < TERM_NUM && Waits(m, t, i, p, child, proc)
    requires e.Halt? ==> M.Running(m) != child
    ensures Waits(M.Next(files, m, e), t, i, p, child, proc)
  {
    hide M.Next;
    ChildIsTop(m, t, i + 1);
    WaitingStays(files, m, e, t, i);
    var r := M.Next(files, m, e);
    assert r.stacks[t][i] == r.stacks[t][..i + 2][i] && r.stacks[t][i + 1] == r.stacks[t][..i + 2][i + 1];
    assert m.stacks[t][i] == m.stacks[t][..i + 2][i] && m.stacks[t][i + 1] == m.stacks[t][..i + 2][i + 1];
  }

  lemma {:induction false} WaitsThroughout(files: Files, run: seq<State>, history: seq<M.Machine>, events: seq<Event>,
                                           n: nat, t: nat, i: nat, p: nat, child: nat, proc: M.Proc)
    requires ShellLoads(files) && IsRun(files, run, events) && IsHistory(files, history, events)
    requires Core(run[0], history[0]) && n <= |events| && t < TERM_NUM && Waits(history[0], t, i, p, child, proc)
    requires forall k :: 0 <= k < |events| && events[k].Halt? ==> run[k].block != child
    ensures Core(run[n], history[n]) && Waits(history[n], t, i, p, child, proc)
  {
    hide M.Next;
    hide Step;
    RunKeepsCore(files, run, history, events, n);
    if n > 0 {
      WaitsThroughout(files, run, history, events, n - 1, t, i, p, child, proc);
      assert MovesAt(files, history, events, n - 1);
      WaitsOn(files, history[n - 1], events[n - 1], t, i, p, child, proc);
    }
  }

  /** Process q is current, on its own kernel stack and image, with these registers and descriptors. */
  ghost predicate Resumes(h: State, q: nat, ctx: Regs, fds: seq<Fd>)
    requires Shape(h) && q < NUM_PROC
  {
    && h.block == q && h.pcbs[q].ctx == ctx && h.pcbs[q].fds == fds
    && h.esp0 == StackTop(q) && h.space[Paging.RegionOf(MB128)] == Paging.Big(ImageFrame(q), true)
  }

  /** Halts are last in, first out over whole runs. Take a process that has just started a child, then any run
      in which the child does not halt, with any number of other processes, terminals and switches between.
      When the child at last halts, the processor goes to that very process, with its registers as they were
      when it called execute except for the status in eax, its descriptors unchanged, and its own stack and image. */
  lemma HaltReturnsToCaller(files: Files, run: seq<State>, events: seq<Event>, m: M.Machine, child: nat,
                            caller: nat, status: int, start: Start)
    requires ShellLoads(files) && IsRun(files, run, events) && Core(run[0], m)
    requires child == run[0].block && caller == run[0].pcbs[child].parent && caller != 0
    requires forall k :: 0 <= k < |events| && events[k].Halt? ==> run[k].block != child
    requires run[|events|].block == child
    ensures 0 < caller < NUM_PROC && Steppable(run[|events|])
    ensures Resumes(HaltStep(files, run[|events|], status, start), caller,
                    run[0].pcbs[caller].ctx.(eax := status), run[0].pcbs[caller].fds)
  {
    hide M.Next;
    hide Step;
    hide HaltStep;
    var n := |events|;
    var history := HistoryExists(files, m, events);
    var t, i := m.cur, |m.stacks[m.cur]| - 2;
    CallerTerm(run[0], m);
    WaitingPcb(run[0], m, t, i);
    WaitsThroughout(files, run, history, events, n, t, i, caller, child, m.procs[caller]);
    HaltHandsBack(files, run[n], history[n], t, i, caller, child, status, start);
  }

  lemma WaitingPcb(s: State, m: M.Machine, t: nat, i: nat)
    requires Core(s, m) && t < TERM_NUM && i < |m.stacks[t]|
    ensures 0 < m.stacks[t][i] < NUM_PROC
    ensures m.procs[m.stacks[t][i]] == M.Proc(s.pcbs[m.stacks[t][i]].ctx, s.pcbs[m.stacks[t][i]].fds)
    ensures s.block == M.Last(m.stacks[m.cur])
  {
  }

  /** The state right after the halt of a child whose caller waits below it. */
  lemma HaltHandsBack(files: Files, s: State, m: M.Machine, t: nat, i: nat, q: nat, child: nat, status: int,
                      start: Start)
    requires Core(s, m) && t < TERM_NUM && s.block == child && q < NUM_PROC && Waits(m, t, i, q, child, m.procs[q])
    ensures Steppable(s)
    ensures Resumes(HaltStep(files, s, status, start), q, m.procs[q].ctx.(eax := status), m.procs[q].fds)
  {
    CoreSteppable(s, m);
    ChildIsTop(m, t, i + 1);
    ParentPlace(s, m);
    WaitingPcb(s, m, t, i);
    Windows(s.space, q, s.curTerm, m.cur, 0);
    assert HaltStep(files, s, status, start) == ReturnTo(Release(s), q, status);
  }

  /** Flag 1 is on at most one process, and not always on one: after a return to a parent some process carries
      it exactly when the parent's terminal is the one on display. */
  lemma ReturnMayLeaveNoneRunning(files: Files, s: State, m: M.Machine, status: int, start: Start)
    requires Core(s, m) && ShellLoads(files) && |m.stacks[m.cur]| > 1
    ensures Steppable(s)
    ensures var r := HaltStep(files, s, status, start);
      (exists p :: 0 < p < NUM_PROC && r.flags[p] == RUNNING) <==> m.cur == m.shown
  {
    CoreSteppable(s, m);
    ParentPlace(s, m);
    StepKeepsCore(files, s, m, Halt(status, start));
    var r := HaltStep(files, s, status, start);
    forall p | 0 < p < NUM_PROC
      ensures r.flags[p] == RUNNING ==> p == r.block
    {
      FlagSays(r, M.Halt(m, status), p);
    }
    assert r.flags[r.block] == if m.cur == m.shown then RUNNING else READY;
  }

  predicate CurrentIsRunning(s: State)
    requires Shape(s)
  {
    s.flags[s.block] == 1
  }

  /** When the current process carries flag 1 after a step: always if the step started a program or a shell or changed
      the process by a tick; after a return to a parent, if the parent's terminal is on display; and otherwise if it
      did before. */
  lemma FlagOneAfter(files: Files, s: State, m: M.Machine, e: Event)
    requires Core(s, m) && ShellLoads(files)
    ensures Steppable(s)
    ensures var r := Step(files, s, e);
      CurrentIsRunning(r) <==> match e
        case Execute(ask, line) => StartsProgram(files, s, ask, CommandLine.Word(line)) || CurrentIsRunning(s)
        case Halt(_, _) =>
          var parent := s.pcbs[s.block].parent;
          parent == 0 || (parent < NUM_PROC && s.pcbs[parent].term == s.curTerm)
        case Tick => r.block != s.block || CurrentIsRunning(s)
        case Switch(term, _) => (0 <= term < TERM_NUM && !s.started[term]) || CurrentIsRunning(s)
        case _ => CurrentIsRunning(s)
  {
    hide CommandLine.Word, StartsProgram, HaltStep, SwitchStep;
    CoreSteppable(s, m);
    CallerTerm(s, m);
    match e
    case Execute(ask, line) => ExecuteRuns(files, s, m, ask, line);
    case Halt(status, start) => HaltRuns(files, s, m, status, start);
    case Switch(term, start) => SwitchRuns(files, s, m, term, start);
    case _ =>
  }

  lemma ExecuteRuns(files: Files, s: State, m: M.Machine, ask: Ask, line: CommandLine.Line)
    requires Core(s, m) && Steppable(s)
    ensures CurrentIsRunning(ExecuteLine(files, s, ask, line)) <==>
      StartsProgram(files, s, ask, CommandLine.Word(line)) || CurrentIsRunning(s)
  {
    hide CommandLine.Word, StartsProgram;
    var a := Stored(s, ask, line);
    LaunchedExactly(files, s, ask, CommandLine.Word(line));
    SameOutcome(files, s, a, ask, CommandLine.Word(line));
  }

  lemma ShellRuns(files: Files, s: State, start: Start)
    requires ShellLoads(files) && Shape(s) && Turnable(s) && s.block == 0 && -1 != LowestFree(s.flags) <= 3
    requires s.pcbs[0].fds[2] == Closed
    ensures CurrentIsRunning(StartShell(files, s, start))
  {
    hide ShellLine;
    var ask := Ask(true, start.stale);
    var b := Stored(s, ask, ShellLine(start.junk));
    FreeSlotExists(b.pcbs[0].fds);
    assert ExecuteOutcome(files, b, ask, SHELL) == Launched;
  }

  lemma HaltRuns(files: Files, s: State, m: M.Machine, status: int, start: Start)
    requires Core(s, m) && Steppable(s) && ShellLoads(files)
    ensures var parent := s.pcbs[s.block].parent;
      CurrentIsRunning(HaltStep(files, s, status, start)) <==>
        parent == 0 || (parent < NUM_PROC && s.pcbs[parent].term == s.curTerm)
  {
    hide StartShell;
    if s.pcbs[s.block].parent == 0 {
      var b := Release(s);
      assert b.flags[s.block] == FREE;
      ShellRuns(files, b.(block := 0), start);
    }
  }

  lemma SwitchRuns(files: Files, s: State, m: M.Machine, term: int, start: Start)
    requires Core(s, m) && Steppable(s) && ShellLoads(files)
    ensures CurrentIsRunning(SwitchStep(files, s, term, start)) <==>
      (0 <= term < TERM_NUM && !s.started[term]) || CurrentIsRunning(s)
  {
    hide StartShell;
    if 0 <= term < TERM_NUM && !s.started[term] {
      var b := Opened(s, term);
      assert b.flags[term + 1] == FREE;
      ShellRuns(files, b, start);
    }
  }

  predicate NoneRunning(s: State) {
    Shape(s) && forall p :: 0 < p < NUM_PROC ==> s.flags[p] != RUNNING
  }

  /** Such a state is reached: open a second terminal, start a shell from its shell, show the first terminal
      again, and let the started shell halt. */
  lemma NoneRunningIsReached(files: Files, boot: State)
    requires FreshBoot(boot) && ShellLoads(files)
    ensures exists run: seq<State> ::
      IsBootRun(files, boot, run, [SHOW1, START, SHOW0, Halt(0, PLAIN)]) && |run| == 5 && NoneRunning(run[4])
  {
    hide M.Next, Step, StartShell, FreshBoot;
    ChildRunsInBackground(files, boot);
    var run, m :| Reaches(files, boot, run, [SHOW1, START, SHOW0], m) && |m.stacks[m.cur]| > 1 && m.cur != m.shown;
    var halt := Halt(0, PLAIN);
    var longer := ReachNext(files, boot, run, [SHOW1, START, SHOW0], m, halt);
    assert [SHOW1, START, SHOW0] + [halt] == [SHOW1, START, SHOW0, halt];
    ReturnMayLeaveNoneRunning(files, run[3], m, 0, PLAIN);
    assert StepsAt(files, longer, [SHOW1, START, SHOW0, halt], 3);
    assert longer[3] == longer[..4][3];
    StepIsHalt(files, run[3], 0, PLAIN);
  }

  lemma StepIsHalt(files: Files, s: State, status: int, start: Start)
    requires Steppable(s)
    ensures Step(files, s, Halt(status, start)) == HaltStep(files, s, status, start)
  {
  }

  // ------------------------------------------------------------------ a failed execute

  /** An execute that returns -1, in any state of any run from boot, changes nothing but these: it keeps the line for
      getargs as soon as a slot was free and the page present, and for a program without the magic number it maps
      the caller's own text page behind the text window, for the kernel only. So the frame behind the window stays
      the same if and only if the program was refused before it was loaded or the window showed the caller's own
      page, which it does unless the caller has asked for vidmap off display. */
  lemma FailedExecuteChangesNothing(files: Files, boot: State, run: seq<State>, events: seq<Event>, i: nat, ask: Ask,
                                    line: CommandLine.Line)
    requires IsBootRun(files, boot, run, events) && i < |run|
    requires Shape(run[i]) && ExecuteOutcome(files, run[i], ask, CommandLine.Word(line)) != Launched
    ensures Steppable(run[i]) && FailsCleanly(files, run[i], ask, line)
  {
    hide Step, FirstShell, FailsCleanly;
    var m := BootRunKeepsCore(files, boot, run, events, i);
    FailedExecute(files, run[i], m, ask, line);
  }

  ghost predicate FailsCleanly(files: Files, s: State, ask: Ask, line: CommandLine.Line)
    requires Steppable(s)
  {
    var outcome := ExecuteOutcome(files, s, ask, CommandLine.Word(line));
    var r, w := ExecuteLine(files, s, ask, line), Paging.RegionOf(MB132);
    var own := TextFrame(s.curTerm, s.pcbs[s.block].term);
    && r == s.(space := r.space, shellBuf := if Stores(s, ask) then line else s.shellBuf)
    && (forall i :: 0 <= i < Paging.ENTRIES && i != w ==> r.space[i] == s.space[i])
    && (outcome == Refused ==> r.space == s.space)
    && (outcome == NotExecutable ==> r.space[w] == KernelOnly(s.space[w], own))
    && (WindowFrame(r.space) == WindowFrame(s.space) <==> outcome == Refused || WindowFrame(s.space) == own)
  }

  lemma FailedExecute(files: Files, s: State, m: M.Machine, ask: Ask, line: CommandLine.Line)
    requires Core(s, m) && Steppable(s) && WindowHeld(s)
    requires ExecuteOutcome(files, s, ask, CommandLine.Word(line)) != Launched
    ensures FailsCleanly(files, s, ask, line)
  {
    hide CommandLine.Word;
    CallerTerm(s, m);
    var a := Stored(s, ask, line);
    if ExecuteOutcome(files, s, ask, CommandLine.Word(line)) == NotExecutable {
      ExecuteOutcomes(files, s, m, ask, CommandLine.Word(line));
      RejectedSpace(a, LowestFree(s.flags), m.cur);
    }
  }

  /** The text region with this frame behind its first page, out of reach for user code. */
  function KernelOnly(r: Paging.Region, frame: Paging.Word): Paging.Region {
    Paging.Small(false, Paging.PagesOf(r)[0 := Paging.Page(frame, false)])
  }

  lemma RejectedSpace(s: State, p: nat, t: nat)
    requires Shape(s) && 0 < s.block && 0 < p < NUM_PROC && t < TERM_NUM && TermFor(s, p) == t
    requires ImageOk(s, s.block) && s.pcbs[s.block].term == t && WindowHeld(s)
    ensures var r := Reject(s, p).space; var w := Paging.RegionOf(MB132); var own := TextFrame(s.curTerm, t);
      && r == s.space[w := KernelOnly(s.space[w], own)]
      && WindowFrame(r) == own && WindowFrame(s.space) != -1
  {
    var w := Paging.RegionOf(MB132);
    assert ImageFrame(s.block) % Paging.MB4 == 0 && TextFrame(s.curTerm, t) % Paging.KB4 == 0;
    assert Paging.PageOf(MB132) == 0 && MB132 % Paging.KB4 == 0;
    assert Reject(s, p).space[w] == KernelOnly(s.space[w], TextFrame(s.curTerm, t));
    assert Reject(s, p).space == s.space[w := KernelOnly(s.space[w], TextFrame(s.curTerm, t))];
  }

  /** The window does move in a run from boot: a second terminal is opened, the first shown again, and the shell of
      the second, still running, asks for vidmap and then for a data file that is no program. */
  lemma FailedExecuteMovesWindow(files: Files, boot: State, line: CommandLine.Line)
    requires FreshBoot(boot) && ShellLoads(files) && NoProgram(files, line)
    ensures exists run: seq<State> :: IsBootRun(files, boot, run, Moving(line)) && |run| == 5 && WindowMoves(run)
  {
    hide Step, M.Next, StartShell, FreshBoot, CommandLine.Word, Refines, InBackground, NoProgram, WindowMoves;
    BackgroundProcessRuns(files, boot);
    var run, m :| Reaches(files, boot, run, [SHOW1, SHOW0], m) && InBackground(m);
    BootRunGoesOn(files, boot, run, [SHOW1, SHOW0], Vidmap);
    var r3 := run + [Step(files, run[2], Vidmap)];
    BackgroundMoves(files, boot, run, r3, m, line);
  }

  lemma BackgroundMoves(files: Files, boot: State, run: seq<State>, r3: seq<State>, m: M.Machine,
                        line: CommandLine.Line)
    requires IsBootRun(files, boot, run, [SHOW1, SHOW0]) && Refines(run[2], m) && InBackground(m) && Steppable(run[2])
    requires NoProgram(files, line) && r3 == run + [Step(files, run[2], Vidmap)]
    ensures exists r: seq<State> :: IsBootRun(files, boot, r, Moving(line)) && |r| == 5 && WindowMoves(r)
  {
    hide Step, M.Next, StartShell, FreshBoot, CommandLine.Word, Refines, InBackground, NoProgram;
    var e := Execute(Ask(true, false), line);
    BootRunGoesOn(files, boot, run, [SHOW1, SHOW0], Vidmap);
    assert [SHOW1, SHOW0] + [Vidmap] == [SHOW1, SHOW0, Vidmap];
    BootRunGoesOn(files, boot, r3, [SHOW1, SHOW0, Vidmap], e);
    assert [SHOW1, SHOW0, Vidmap] + [e] == Moving(line);
    VidmapThenRefused(files, run[2], m, line);
    var r4 := r3 + [Step(files, r3[3], e)];
    assert r4[3] == Step(files, run[2], Vidmap) && r4[4] == Step(files, r3[3], e);
    assert IsBootRun(files, boot, r4, Moving(line)) && WindowMoves(r4);
  }

  function Moving(line: CommandLine.Line): seq<Event> {
    [SHOW1, SHOW0, Vidmap, Execute(Ask(true, false), line)]
  }

  predicate NoProgram(files: Files, line: CommandLine.Line) {
    var name := CommandLine.Word(line);
    && name in files && files[name].kind == 2 && AsInt(files[name].size) >= ENTRY_POS_OFFSET
    && files[name].readable && !files[name].elf
  }

  predicate WindowMoves(run: seq<State>)
    requires |run| == 5
  {
    WindowFrame(run[3].space) == VIDEO && WindowFrame(run[4].space) == DumpFrame(1)
  }

  lemma VidmapThenRefused(files: Files, s: State, m: M.Machine, line: CommandLine.Line)
    requires Refines(s, m) && Steppable(s) && ShellLoads(files) && NoProgram(files, line) && InBackground(m)
    ensures var r := Step(files, s, Vidmap);
      && Steppable(r) && WindowFrame(r.space) == VIDEO
      && WindowFrame(Step(files, r, Execute(Ask(true, false), line)).space) == DumpFrame(1)
  {
    hide CommandLine.Word, Core, ExecuteLine, WindowHeld;
    var r := VidmapStep(s);
    RefinesCore(s, m);
    RefinesWindow(s, m);
    StepKeepsCore(files, s, m, Vidmap);
    StepKeepsWindow(files, s, m, Vidmap);
    assert Core(r, m);
    CoreSteppable(r, m);
    VidmapWindow(s.space);
    RefusedOnSecond(files, r, m, line);
  }

  lemma RefusedOnSecond(files: Files, r: State, m: M.Machine, line: CommandLine.Line)
    requires Core(r, m) && Steppable(r) && WindowHeld(r) && NoProgram(files, line) && InBackground(m)
    ensures WindowFrame(ExecuteLine(files, r, Ask(true, false), line).space) == DumpFrame(1)
  {
    hide CommandLine.Word;
    CallerTerm(r, m);
    FreeSlotChoice(r.flags, m.stacks, m.cur);
    FreeSlotExists(r.pcbs[r.block].fds);
    assert r.pcbs[r.block].fds[2] == Closed;
    var a := Stored(r, Ask(true, false), line);
    assert ExecuteOutcome(files, a, Ask(true, false), CommandLine.Word(line)) == NotExecutable;
    RejectedSpace(a, LowestFree(a.flags), 1);
  }
}
