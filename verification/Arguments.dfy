/** Execute keeps the line, a later getargs takes the argument from it: one buffer serves the whole machine. */
module Arguments {
  import opened Screens
  import opened Processes
  import opened Refinement
  import opened Runs
  import CommandLine
  import M = Machine

  datatype Keep = Nothing | Kept(line: CommandLine.Line)

  /** The line a step puts into the buffer: that of an execute for which a slot is free and the page is there,
      whether it fails later or not; or that of the shell the kernel starts itself. */
  function KeptBy(s: State, e: Event): Keep
    requires Shape(s)
  {
    match e
    case Execute(ask, line) =>
      if ask.present && exists p :: 0 <= p < 7 && s.flags[p] == 0 then Kept(line) else Nothing
    case Halt(_, start) => if s.pcbs[s.block].parent == 0 then Kept(ShellLine(start.junk)) else Nothing
    case Switch(term, start) =>
      if 0 <= term < TERM_NUM && !s.started[term] then Kept(ShellLine(start.junk)) else Nothing
    case _ => Nothing
  }

  function Contents(k: Keep, before: CommandLine.Line): CommandLine.Line {
    if k.Kept? then k.line else before
  }

  lemma ExecuteKeeps(files: Files, s: State, ask: Ask, line: CommandLine.Line)
    requires Shape(s) && Turnable(s) && (s.block == 0 ==> LowestFree(s.flags) <= 3)
    ensures ExecuteLine(files, s, ask, line).shellBuf == if Stores(s, ask) then line else s.shellBuf
  {
  }

  lemma ShellKeeps(files: Files, s: State, start: Start)
    requires Shape(s) && Turnable(s) && s.block == 0 && -1 != LowestFree(s.flags) <= 3
    ensures StartShell(files, s, start).shellBuf == ShellLine(start.junk)
  {
  }

  lemma StepKeeps(files: Files, s: State, e: Event)
    requires Steppable(s)
    ensures Step(files, s, e).shellBuf == Contents(KeptBy(s, e), s.shellBuf)
  {
    hide ExecuteLine, StartShell, ShellLine;
    match e
    case Execute(ask, line) => ExecuteKeeps(files, s, ask, line);
    case Halt(_, start) =>
      if s.pcbs[s.block].parent == 0 {
        var a := Release(s);
        assert a.flags[s.block] == FREE;
        ShellKeeps(files, a.(block := 0), start);
      }
    case Switch(term, start) =>
      if 0 <= term < TERM_NUM && !s.started[term] {
        var a := ShowTerminal(s, term);
        var b := a.(video := Zeros(CELLS), flags := a.flags[term + 1 := FREE], block := 0,
                    started := a.started[term := true]);
        assert b.flags[term + 1] == FREE;
        ShellKeeps(files, b, start);
      }
    case _ =>
  }

  // ------------------------------------------------------------------ over runs

  /** What step i of a run put into the buffer. */
  function KeptAt(run: seq<State>, events: seq<Event>, i: nat): Keep
    requires i < |events| < |run|
  {
    if Shape(run[i]) then KeptBy(run[i], events[i]) else Nothing
  }

  /** The last step before step n that kept a line, or -1. */
  function LastKept(run: seq<State>, events: seq<Event>, n: nat): (k: int)
    requires n <= |events| < |run|
    ensures -1 <= k < n
    ensures k >= 0 ==> KeptAt(run, events, k).Kept?
    ensures forall i :: k < i < n ==> KeptAt(run, events, i).Nothing?
  {
    if n == 0 then -1
    else if KeptAt(run, events, n - 1).Kept? then n - 1
    else LastKept(run, events, n - 1)
  }

  /** In any run the buffer holds the line of the last step that kept one. */
  lemma {:induction false} BufferIsLastKept(files: Files, run: seq<State>, events: seq<Event>, n: nat)
    requires IsRun(files, run, events) && n <= |events|
    ensures var k := LastKept(run, events, n);
      run[n].shellBuf == if k == -1 then run[0].shellBuf else KeptAt(run, events, k).line
  {
    hide Step, KeptBy;
    if n > 0 {
      BufferIsLastKept(files, run, events, n - 1);
      assert StepsAt(files, run, events, n - 1);
      StepKeeps(files, run[n - 1], events[n - 1]);
    }
  }

  /** The argument getargs can give from a line, if any. */
  datatype Answer = None | Some(arg: seq<Byte>)

  function AnswerOf(line: CommandLine.Line): Answer {
    if 0 in line && CommandLine.Argument(line) != [] then Some(CommandLine.Argument(line)) else None
  }

  /** The link between the two calls, over whole runs. A program started at step k with this line that asks for
      its argument at any later state of the run is answered from the line of the last step that kept one, and
      this is its own line if no step in between kept one. In general it is its own line, with its own argument,
      if and only if the last line kept in between was the same. */
  lemma GetargsAnswers(files: Files, run: seq<State>, events: seq<Event>, k: nat, n: nat, ask: Ask,
                       line: CommandLine.Line)
    requires IsRun(files, run, events) && k < n <= |events| && events[k] == Execute(ask, line)
    requires Shape(run[k]) && ExecuteOutcome(files, run[k], ask, CommandLine.Word(line)) == Launched
    ensures var last := LastKept(run, events, n);
      && k <= last && run[n].shellBuf == KeptAt(run, events, last).line
      && (last == k ==> run[n].shellBuf == line && AnswerOf(run[n].shellBuf) == AnswerOf(line))
      && (run[n].shellBuf == line <==> KeptAt(run, events, last) == Kept(line))
  {
    assert Stores(run[k], ask);
    assert KeptAt(run, events, k) == Kept(line);
    BufferIsLastKept(files, run, events, n);
  }

  /** Command line round trip across the two calls: a line of spaces, a command, spaces, an argument and a NUL
      starts exactly that command, and if no line was kept since, getargs finds exactly that argument. */
  lemma ExecuteThenGetargs(files: Files, run: seq<State>, events: seq<Event>, k: nat, n: nat, ask: Ask,
                           line: CommandLine.Line, before: nat, cmd: seq<Byte>, between: nat, arg: seq<Byte>,
                           junk: seq<Byte>)
    requires IsRun(files, run, events) && k < n <= |events| && events[k] == Execute(ask, line)
    requires line == CommandLine.Spaces(before) + cmd + CommandLine.Spaces(between) + arg + [0] + junk
    requires cmd != [] && 0 !in cmd && CommandLine.SPACE !in cmd
    requires 0 !in arg && (arg == [] || arg[0] != CommandLine.SPACE) && (arg != [] ==> between >= 1)
    requires Shape(run[k]) && ExecuteOutcome(files, run[k], ask, cmd) == Launched && LastKept(run, events, n) == k
    ensures CommandLine.Word(line) == cmd
    ensures AnswerOf(run[n].shellBuf) == if arg == [] then None else Some(arg)
  {
    CommandLine.CommandLineRoundTrip(before, cmd, between, arg, junk);
    GetargsAnswers(files, run, events, k, n, ask, line);
    assert line[before + |cmd| + between + |arg|] == 0;
  }

  /** The buffer is shared by all terminals: when a terminal is opened, or a root shell restarted, nobody's
      argument is left. */
  lemma NewShellTakesTheBuffer(files: Files, s: State, e: Event)
    requires Steppable(s)
    requires (e.Switch? && 0 <= e.term < TERM_NUM && !s.started[e.term]) || (e.Halt? && s.pcbs[s.block].parent == 0)
    ensures AnswerOf(Step(files, s, e).shellBuf) == None
  {
    hide Step, ShellLine;
    StepKeeps(files, s, e);
    ShellLineNamesShell(e.start.junk);
  }

  /** So it can happen that a program is started with an argument and finds none when it asks: between the two
      calls a key opens a second terminal. */
  lemma ArgumentCanBeLost(files: Files, boot: State, line: CommandLine.Line)
    requires FreshBoot(boot) && ShellLoads(files) && CommandLine.Word(line) == SHELL && AnswerOf(line).Some?
    ensures exists run: seq<State>, m ::
      Reaches(files, boot, run, [Execute(Ask(true, false), line), SHOW1], m) && |run| == 3 && Loses(files, run, line)
  {
    hide M.Next, Step, StartShell, AnswerOf, CommandLine.Word, KeptBy;
    var e := Execute(Ask(true, false), line);
    var m := BootMachine(boot);
    var r0 := ReachBoot(files, boot);
    StartedOnFirst(files, m, line);
    ExecuteOutcomes(files, r0[0], m, Ask(true, false), SHELL);
    var r1 := ReachNext(files, boot, r0, [], m, e);
    assert [] + [e] == [e];
    var m1 := M.Next(files, m, e);
    var r2 := ReachNext(files, boot, r1, [e], m1, SHOW1);
    assert [e] + [SHOW1] == [e, SHOW1];
    assert StepsAt(files, r2, [e, SHOW1], 0) && StepsAt(files, r2, [e, SHOW1], 1);
    assert r2[1] == r2[..2][1] && r2[0] == r2[..2][0] && r1[0] == r1[..1][0];
    NotStarted(r2[1], m1);
    NewShellTakesTheBuffer(files, r2[1], SHOW1);
    StartKeeps(files, r2[0], Ask(true, false), line);
  }

  /** The program was started, its line was kept, and then it was gone. */
  ghost predicate Loses(files: Files, run: seq<State>, line: CommandLine.Line)
    requires |run| == 3
  {
    && Shape(run[0]) && ExecuteOutcome(files, run[0], Ask(true, false), SHELL) == Launched
    && AnswerOf(run[1].shellBuf) == AnswerOf(line) != None && AnswerOf(run[2].shellBuf) == None
  }

  lemma StartKeeps(files: Files, s: State, ask: Ask, line: CommandLine.Line)
    requires Steppable(s) && ExecuteOutcome(files, s, ask, CommandLine.Word(line)) == Launched
    ensures Step(files, s, Execute(ask, line)).shellBuf == line
  {
    hide Step, CommandLine.Word;
    StepKeeps(files, s, Execute(ask, line));
  }

  lemma StartedOnFirst(files: Files, m: M.Machine, line: CommandLine.Line)
    requires ShellLoads(files) && M.Ok(m) && m.stacks == [[1], [], []] && m.cur == 0 && m.procs[1].fds == StdFds()
    ensures M.Starts(files, m, Ask(true, false), SHELL)
    ensures M.Next(files, m, Execute(Ask(true, false), line)).stacks[1] == []
  {
    assert m.procs[M.Running(m)].fds[2] == Closed;
  }

  lemma NotStarted(s: State, m: M.Machine)
    requires Refines(s, m) && m.stacks[1] == []
    ensures !s.started[1]
  {
  }
}
