/** What a program finds in its descriptors, and what it gets back from a call that starts another program. */
module Descriptors {
  import opened Screens
  import opened Processes
  import opened Refinement
  import opened Background
  import opened Runs
  import opened Halts
  import CommandLine
  import M = Machine

  // ------------------------------------------------------------------ the terminal's descriptors

  /** Descriptor 0 reads from the terminal and descriptor 1 writes to it. */
  predicate HasTerminal(fds: seq<Fd>) {
    |fds| == 8 && fds[0] == Open(StdIn, 0, 0) && fds[1] == Open(StdOut, 0, 0)
  }

  /** So it is for every process on a stack. */
  ghost predicate AllHaveTerminal(m: M.Machine)
    requires M.Ok(m)
  {
    forall t, i {:trigger m.stacks[t][i]} ::
      0 <= t < TERM_NUM && 0 <= i < |m.stacks[t]| ==>
      m.stacks[t][i] < NUM_PROC && HasTerminal(m.procs[m.stacks[t][i]].fds)
  }

  lemma SlotsInRange(m: M.Machine)
    requires M.Ok(m)
    ensures forall t, i {:trigger m.stacks[t][i]} ::
      0 <= t < TERM_NUM && 0 <= i < |m.stacks[t]| ==> 0 < m.stacks[t][i] < NUM_PROC
  {
    forall t, i {:trigger m.stacks[t][i]} | 0 <= t < TERM_NUM && 0 <= i < |m.stacks[t]|
      ensures 0 < m.stacks[t][i] < NUM_PROC
    {
      assert M.SlotFits(m.stacks[t][i], t, i);
    }
  }

  /** Open, close and read leave them alone, and so does a close of all files. */
  lemma FilesKeepTerminal(files: Files, fds: seq<Fd>, present: bool, name: seq<Byte>, fd: int, moved: int)
    requires HasTerminal(fds)
    ensures HasTerminal(AfterOpen(files, fds, present, name)) && HasTerminal(AfterClose(fds, fd))
    ensures HasTerminal(AfterRead(fds, fd, moved)) && HasTerminal(CloseFiles(fds)) && HasTerminal(StdFds())
  {
  }

  lemma ProcKeepsTerminal(m: M.Machine, proc: M.Proc)
    requires M.Ok(m) && AllHaveTerminal(m) && HasTerminal(proc.fds)
    ensures M.Ok(M.SetProc(m, proc)) ==> AllHaveTerminal(M.SetProc(m, proc))
  {
    SlotsInRange(m);
  }

  lemma HaltKeepsTerminal(m: M.Machine, status: int)
    requires M.Ok(m) && AllHaveTerminal(m) && M.Ok(M.Halt(m, status))
    ensures AllHaveTerminal(M.Halt(m, status))
  {
    SlotsInRange(m);
    var n := |m.stacks[m.cur]| - 1;
    assert HasTerminal(m.procs[m.stacks[m.cur][n]].fds);
    if n > 0 {
      assert HasTerminal(m.procs[m.stacks[m.cur][n - 1]].fds);
    }
  }

  lemma NextKeepsTerminal(files: Files, m: M.Machine, e: Event)
    requires M.Ok(m) && AllHaveTerminal(m) && M.Ok(M.Next(files, m, e))
    ensures AllHaveTerminal(M.Next(files, m, e))
  {
    hide AfterOpen, AfterClose, AfterRead, M.Halt, M.Starts, StdFds;
    SlotsInRange(m);
    var fds := m.procs[M.Running(m)].fds;
    assert M.Running(m) == m.stacks[m.cur][|m.stacks[m.cur]| - 1];
    FilesKeepTerminal(files, fds, false, [], 0, 0);
    match e
    case Trap(regs) => ProcKeepsTerminal(m, m.procs[M.Running(m)].(ctx := regs));
    case Halt(status, _) => HaltKeepsTerminal(m, status);
    case OpenFile(present, name) =>
      FilesKeepTerminal(files, fds, present, name, 0, 0);
      ProcKeepsTerminal(m, m.procs[M.Running(m)].(fds := AfterOpen(files, fds, present, name)));
    case CloseFile(fd) =>
      FilesKeepTerminal(files, fds, false, [], fd, 0);
      ProcKeepsTerminal(m, m.procs[M.Running(m)].(fds := AfterClose(fds, fd)));
    case ReadFile(fd, moved) =>
      FilesKeepTerminal(files, fds, false, [], fd, moved);
      ProcKeepsTerminal(m, m.procs[M.Running(m)].(fds := AfterRead(fds, fd, moved)));
    case _ =>
  }

  lemma {:induction false} HistoryKeepsTerminal(files: Files, history: seq<M.Machine>, events: seq<Event>, i: nat)
    requires IsHistory(files, history, events) && i < |history|
    requires M.Ok(history[0]) && AllHaveTerminal(history[0])
    ensures M.Ok(history[i]) && AllHaveTerminal(history[i])
  {
    hide M.Next, M.Ok, AllHaveTerminal;
    if i > 0 {
      HistoryKeepsTerminal(files, history, events, i - 1);
      assert MovesAt(files, history, events, i - 1);
      M.NextOk(files, history[i - 1], events[i - 1]);
      NextKeepsTerminal(files, history[i - 1], events[i - 1]);
    }
  }

  /** The slot is taken: by the shell of a terminal in use, or by a program started from one. */
  predicate InUse(s: State, p: nat)
    requires Shape(s)
  {
    if 1 <= p <= 3 then s.started[p - 1] else 4 <= p < NUM_PROC && s.flags[p] != FREE
  }

  /** In every state of every run from boot, whatever the programs open, close, read and ask for, descriptor 0 of every
      process reads from its terminal and descriptor 1 writes to it. */
  lemma TerminalIsThere(files: Files, boot: State, run: seq<State>, events: seq<Event>, i: nat, p: nat)
    requires IsBootRun(files, boot, run, events) && i < |run| && Shape(run[i]) && InUse(run[i], p)
    ensures p < NUM_PROC && |run[i].pcbs[p].fds| == 8
    ensures run[i].pcbs[p].fds[0] == Open(StdIn, 0, 0) && run[i].pcbs[p].fds[1] == Open(StdOut, 0, 0)
  {
    hide M.Next, Step, FirstShell, AllHaveTerminal;
    BootAgrees(files, boot, run[0]);
    var m := BootMachine(boot);
    RefinesCore(run[0], m);
    var history := HistoryExists(files, m, events);
    RunKeepsCore(files, run, history, events, i);
    BootHasTerminal(boot);
    HistoryKeepsTerminal(files, history, events, i);
    UsedHasTerminal(run[i], history[i], p);
  }

  lemma BootHasTerminal(boot: State)
    requires Shape(boot) && M.Ok(BootMachine(boot))
    ensures AllHaveTerminal(BootMachine(boot))
  {
  }

  lemma UsedHasTerminal(s: State, m: M.Machine, p: nat)
    requires Core(s, m) && AllHaveTerminal(m) && InUse(s, p)
    ensures p < NUM_PROC && HasTerminal(s.pcbs[p].fds)
  {
    if p <= 3 {
      assert M.SlotFits(m.stacks[p - 1][0], p - 1, 0);
    } else {
      assert FlagFits(s.flags[p], m.stacks, p, m.cur);
      var r := M.PlaceOf(m.stacks, p);
      assert m.stacks[r.t][r.i] == p;
    }
  }

  // ------------------------------------------------------------------ the call that starts a program

  lemma LaunchKeepsCaller(files: Files, s: State, m: M.Machine, ask: Ask, line: CommandLine.Line)
    requires Core(s, m) && Steppable(s) && StartsProgram(files, s, ask, CommandLine.Word(line))
    ensures var r := Step(files, s, Execute(ask, line));
      && 0 < r.block < NUM_PROC && r.block != s.block && r.pcbs[r.block].parent == s.block
      && r.pcbs[s.block] == s.pcbs[s.block]
  {
    hide CommandLine.Word, StartsProgram;
    var a := Stored(s, ask, line);
    LaunchedExactly(files, s, ask, CommandLine.Word(line));
    LaunchedExactly(files, a, ask, CommandLine.Word(line));
    SameOutcome(files, s, a, ask, CommandLine.Word(line));
    assert FlagFits(s.flags[s.block], m.stacks, s.block, m.cur) by {
      CallerTerm(s, m);
    }
  }

  lemma RunFrom(files: Files, run: seq<State>, events: seq<Event>, k: nat)
    requires IsRun(files, run, events) && k <= |events|
    ensures k < |run| == |events| + 1 && IsRun(files, run[k..], events[k..])
  {
    hide Step;
    forall i | 0 <= i < |events[k..]| ensures StepsAt(files, run[k..], events[k..], i) {
      assert StepsAt(files, run, events, k + i);
    }
  }

  /** Execute as its caller sees it, over whole runs. A process enters the kernel with these registers and starts a
      program; anything may happen, at any terminal, for any length of time; and when that program halts, the caller
      runs again with the same registers but for the program's status in eax, and with the same descriptors. */
  lemma ExecuteReturns(files: Files, run: seq<State>, events: seq<Event>, m: M.Machine, regs: Regs, ask: Ask,
                       line: CommandLine.Line, status: int, start: Start)
    requires ShellLoads(files) && IsRun(files, run, events) && Core(run[0], m) && |events| >= 2
    requires events[0] == Trap(regs) && events[1] == Execute(ask, line)
    requires Shape(run[1]) && StartsProgram(files, run[1], ask, CommandLine.Word(line))
    requires var child, n := run[2].block, |events|;
      run[n].block == child && forall k :: 2 <= k < n && events[k].Halt? ==> run[k].block != child
    ensures Steppable(run[|events|])
    ensures var caller := run[0].block; var r := Step(files, run[|events|], Halt(status, start));
      && 0 < caller < NUM_PROC && r.block == caller && |r.pcbs| == NUM_PROC && |run[0].pcbs| == NUM_PROC
      && r.pcbs[caller].ctx == Regs(status, regs.rest) && r.pcbs[caller].fds == run[0].pcbs[caller].fds
  {
    hide M.Next, HaltStep, CommandLine.Word, StartsProgram, ExecuteLine, IsRun;
    var n := |events|;
    var history := HistoryExists(files, m, events);
    StepsFrom(files, run, events, 0);
    StepsFrom(files, run, events, 1);
    RunKeepsCore(files, run, history, events, 1);
    RunKeepsCore(files, run, history, events, 2);
    CoreSteppable(run[0], m);
    CoreSteppable(run[1], history[1]);
    LaunchKeepsCaller(files, run[1], history[1], ask, line);
    RunFrom(files, run, events, 2);
    var later, more := run[2..], events[2..];
    assert later[|more|] == run[n];
    assert forall k :: 0 <= k < |more| ==> more[k] == events[k + 2] && later[k] == run[k + 2];
    HaltReturnsToCaller(files, later, more, history[2], run[2].block, run[0].block, status, start);
    StepIsHalt(files, run[n], status, start);
  }

  lemma StepsFrom(files: Files, run: seq<State>, events: seq<Event>, i: nat)
    requires IsRun(files, run, events) && i < |events|
    ensures |run| == |events| + 1 && Steppable(run[i]) && run[i + 1] == Step(files, run[i], events[i])
  {
    assert StepsAt(files, run, events, i);
  }
}
