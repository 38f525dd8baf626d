/** What the kernel promises its users: three terminals, each with a stack of processes of which only the
    top one may run, and each with a screen of its own. */
module Machine {
  import opened Screens
  import opened Processes
  import CommandLine

  datatype Proc = Proc(ctx: Regs, fds: seq<Fd>)

  /** cur is the terminal of the running process, shown the one on display. */
  datatype Machine = Machine(stacks: seq<seq<nat>>, cur: nat, shown: nat, screens: seq<Screen>, procs: seq<Proc>)

  /** Where a process slot sits: on no stack, or at height i of terminal t's. */
  datatype Place = Off | On(t: nat, i: nat)

  function Find(stack: seq<nat>, p: nat): (i: nat)
    requires p in stack
    ensures i < |stack| && stack[i] == p && p !in stack[..i]
  {
    if stack[0] == p then 0 else 1 + Find(stack[1..], p)
  }

  function PlaceOf(stacks: seq<seq<nat>>, p: nat): (r: Place)
    requires |stacks| == TERM_NUM
    ensures r.On? ==> r.t < TERM_NUM && r.i < |stacks[r.t]| && stacks[r.t][r.i] == p
    ensures r.Off? ==> p !in stacks[0] && p !in stacks[1] && p !in stacks[2]
  {
    if p in stacks[0] then On(0, Find(stacks[0], p))
    else if p in stacks[1] then On(1, Find(stacks[1], p))
    else if p in stacks[2] then On(2, Find(stacks[2], p))
    else Off
  }

  function Last(s: seq<nat>): nat
    requires s != []
  {
    s[|s| - 1]
  }

  /** No slot appears twice; a stack in use starts with its terminal's own slot, and only shells use those. */
  ghost predicate StacksOk(stacks: seq<seq<nat>>) {
    && |stacks| == TERM_NUM
    && (forall t, i :: 0 <= t < TERM_NUM && 0 <= i < |stacks[t]| ==> SlotFits(stacks[t][i], t, i))
    && (forall t, i {:trigger PlaceOf(stacks, stacks[t][i])} ::
          0 <= t < TERM_NUM && 0 <= i < |stacks[t]| ==> PlaceOf(stacks, stacks[t][i]) == On(t, i))
  }

  predicate SlotFits(p: nat, t: nat, i: nat) {
    if i == 0 then p == t + 1 else 4 <= p < NUM_PROC
  }

  ghost predicate Ok(m: Machine) {
    && StacksOk(m.stacks)
    && m.cur < TERM_NUM && m.stacks[m.cur] != []
    && m.shown < TERM_NUM && m.stacks[m.shown] != []
    && |m.screens| == TERM_NUM && (forall t :: 0 <= t < TERM_NUM ==> m.screens[t].Valid())
    && |m.procs| == NUM_PROC && (forall p :: 0 <= p < NUM_PROC ==> |m.procs[p].fds| == 8)
  }

  ghost function Running(m: Machine): nat
    requires Ok(m)
  {
    Last(m.stacks[m.cur])
  }

  /** The lowest of the slots 4 to 6 on no stack, or 7. */
  function Spare(stacks: seq<seq<nat>>): (p: nat)
    requires |stacks| == TERM_NUM
    ensures 4 <= p <= 7 && (p <= 6 ==> PlaceOf(stacks, p) == Off)
  {
    if PlaceOf(stacks, 4) == Off then 4
    else if PlaceOf(stacks, 5) == Off then 5
    else if PlaceOf(stacks, 6) == Off then 6
    else 7
  }

  ghost function Push(m: Machine, p: nat): Machine
    requires Ok(m) && p < NUM_PROC
  {
    m.(stacks := m.stacks[m.cur := m.stacks[m.cur] + [p]],
       procs := m.procs[p := Proc(m.procs[p].ctx, StdFds())])
  }

  /** A program starts on top of its caller exactly when a slot, a descriptor and a sound program are there. */
  ghost predicate Starts(files: Files, m: Machine, ask: Ask, name: seq<Byte>)
    requires Ok(m)
  {
    && Spare(m.stacks) <= 6 && ask.present
    && name in files && files[name].kind == 2 && 24 <= files[name].size < 0x8000_0000
    && (if files[name].readable then files[name].elf else ask.stale)
    && (exists fd :: 2 <= fd <= 7 && m.procs[Running(m)].fds[fd] == Closed)
  }

  ghost function Execute(files: Files, m: Machine, ask: Ask, name: seq<Byte>): Machine
    requires Ok(m)
  {
    if Starts(files, m, ask, name) then Push(m, Spare(m.stacks)) else m
  }

  /** The running process leaves its stack and its status goes into eax of the process below. */
  ghost function Pop(m: Machine, status: int): Machine
    requires Ok(m) && |m.stacks[m.cur]| > 1
  {
    var stack := m.stacks[m.cur];
    var n := |stack| - 1;
    var p, q := stack[n], stack[n - 1];
    m.(stacks := m.stacks[m.cur := stack[..n]],
       procs := m.procs[p := Proc(m.procs[p].ctx, CloseFiles(m.procs[p].fds))]
                       [q := Proc(m.procs[q].ctx.(eax := status), m.procs[q].fds)])
  }

  /** Terminal t gets a fresh shell in its own slot, and the processor. */
  ghost function FreshShell(m: Machine, t: nat): Machine
    requires |m.stacks| == TERM_NUM && t < TERM_NUM && |m.procs| == NUM_PROC
  {
    m.(stacks := m.stacks[t := [t + 1]], cur := t,
       procs := m.procs[t + 1 := Proc(m.procs[t + 1].ctx, StdFds())])
  }

  /** A program that halts returns to its parent; a shell that halts is replaced by a fresh one. */
  ghost function Halt(m: Machine, status: int): Machine
    requires Ok(m)
  {
    if |m.stacks[m.cur]| > 1 then Pop(m, status) else FreshShell(m, m.cur)
  }

  /** Of two terminals, the one whose top process comes sooner after slot p; an empty one loses. */
  ghost function Sooner(stacks: seq<seq<nat>>, p: nat, a: nat, b: nat): nat
    requires StacksOk(stacks) && p < NUM_PROC && a < TERM_NUM && b < TERM_NUM
  {
    if stacks[b] == [] then a
    else if stacks[a] == [] then b
    else if Ahead(p, Last(stacks[a])) <= Ahead(p, Last(stacks[b])) then a else b
  }

  /** The running process gives way to the top process that follows it in slot order. */
  ghost function Tick(m: Machine): Machine
    requires Ok(m)
  {
    var next := Sooner(m.stacks, Running(m), (m.cur + 1) % TERM_NUM, (m.cur + 2) % TERM_NUM);
    if m.stacks[next] == [] then m else m.(cur := next)
  }

  /** Showing a terminal changes no screen, except that a terminal never used before starts blank with a shell. */
  ghost function Switch(m: Machine, term: int): Machine
    requires Ok(m)
  {
    if !(0 <= term < TERM_NUM) then m
    else if m.stacks[term] != [] then m.(shown := term)
    else
      FreshShell(m.(shown := term,
                    screens := m.screens[term := Screen(Zeros(CELLS), m.screens[term].x, m.screens[term].y)]), term)
  }

  ghost function Draw(m: Machine, t: nat, scr: Screen): Machine
    requires Ok(m) && t < TERM_NUM && scr.Valid()
  {
    m.(screens := m.screens[t := scr])
  }

  ghost function SetProc(m: Machine, proc: Proc): Machine
    requires Ok(m)
  {
    m.(procs := m.procs[Running(m) := proc])
  }

  ghost function Next(files: Files, m: Machine, e: Event): Machine
    requires Ok(m)
  {
    match e
    case Trap(regs) => SetProc(m, m.procs[Running(m)].(ctx := regs))
    case Execute(ask, line) => Execute(files, m, ask, CommandLine.Word(line))
    case Halt(status, _) => Halt(m, status)
    case Tick => Tick(m)
    case Switch(term, _) => Switch(m, term)
    case Print(c) => Draw(m, m.cur, PutChar(m.screens[m.cur], c))
    case Echo(c) => Draw(m, m.shown, PutChar(m.screens[m.shown], c))
    case Erase => Draw(m, m.shown, EraseBack(m.screens[m.shown]))
    case ClearScreen => Draw(m, m.shown, Blank())
    case OpenFile(present, name) =>
      SetProc(m, m.procs[Running(m)].(fds := AfterOpen(files, m.procs[Running(m)].fds, present, name)))
    case CloseFile(fd) => SetProc(m, m.procs[Running(m)].(fds := AfterClose(m.procs[Running(m)].fds, fd)))
    case ReadFile(fd, moved) =>
      SetProc(m, m.procs[Running(m)].(fds := AfterRead(m.procs[Running(m)].fds, fd, moved)))
    case Vidmap => m
  }

  lemma {:induction false} FindInLonger(stack: seq<nat>, p: nat, q: nat)
    requires q in stack
    ensures Find(stack + [p], q) == Find(stack, q)
  {
    if stack[0] != q {
      assert (stack + [p])[1..] == stack[1..] + [p];
      FindInLonger(stack[1..], p, q);
    }
  }

  lemma PlacePushed(stacks: seq<seq<nat>>, t: nat, p: nat, q: nat)
    requires |stacks| == TERM_NUM && t < TERM_NUM && PlaceOf(stacks, p) == Off
    ensures PlaceOf(stacks[t := stacks[t] + [p]], q) == if q == p then On(t, |stacks[t]|) else PlaceOf(stacks, q)
  {
    if q in stacks[t] {
      FindInLonger(stacks[t], p, q);
    }
  }

  lemma PlacePopped(stacks: seq<seq<nat>>, t: nat, q: nat)
    requires StacksOk(stacks) && t < TERM_NUM && stacks[t] != []
    ensures PlaceOf(stacks[t := stacks[t][..|stacks[t]| - 1]], q) ==
      if q == Last(stacks[t]) then Off else PlaceOf(stacks, q)
  {
    var n := |stacks[t]| - 1;
    var less := stacks[t := stacks[t][..n]];
    assert stacks[t] == less[t] + [stacks[t][n]];
    assert PlaceOf(stacks, stacks[t][n]) == On(t, n);
    assert stacks[t][n] !in less[t];
    assert PlaceOf(less, stacks[t][n]) == Off by {
      forall u | 0 <= u < TERM_NUM && u != t ensures stacks[t][n] !in stacks[u] {
        OnlyPlace(stacks, t, n, u);
      }
    }
    PlacePushed(less, t, stacks[t][n], q);
    assert less[t := less[t] + [stacks[t][n]]] == stacks;
  }

  lemma OnlyPlace(stacks: seq<seq<nat>>, t: nat, i: nat, u: nat)
    requires StacksOk(stacks) && t < TERM_NUM && i < |stacks[t]| && u < TERM_NUM && u != t
    ensures stacks[t][i] !in stacks[u]
  {
    assert forall j :: 0 <= j < |stacks[u]| ==> PlaceOf(stacks, stacks[u][j]) == On(u, j);
  }

  lemma PushStacks(stacks: seq<seq<nat>>, t: nat, p: nat)
    requires StacksOk(stacks) && t < TERM_NUM && PlaceOf(stacks, p) == Off && SlotFits(p, t, |stacks[t]|)
    ensures StacksOk(stacks[t := stacks[t] + [p]])
  {
    var more := stacks[t := stacks[t] + [p]];
    forall u, i | 0 <= u < TERM_NUM && 0 <= i < |more[u]|
      ensures PlaceOf(more, more[u][i]) == On(u, i) && SlotFits(more[u][i], u, i)
    {
      PlacePushed(stacks, t, p, more[u][i]);
      if u != t || i < |stacks[t]| {
        assert PlaceOf(stacks, stacks[u][i]) == On(u, i);
      }
    }
  }

  lemma PopStacks(stacks: seq<seq<nat>>, t: nat)
    requires StacksOk(stacks) && t < TERM_NUM && stacks[t] != []
    ensures StacksOk(stacks[t := stacks[t][..|stacks[t]| - 1]])
  {
    var less := stacks[t := stacks[t][..|stacks[t]| - 1]];
    forall u, i | 0 <= u < TERM_NUM && 0 <= i < |less[u]|
      ensures PlaceOf(less, less[u][i]) == On(u, i) && SlotFits(less[u][i], u, i)
    {
      PlacePopped(stacks, t, less[u][i]);
      assert PlaceOf(stacks, stacks[u][i]) == On(u, i);
      assert PlaceOf(stacks, Last(stacks[t])) == On(t, |stacks[t]| - 1);
    }
  }

  /** The slot of a terminal never used is on no stack. */
  lemma ShellSlotOff(stacks: seq<seq<nat>>, t: nat)
    requires StacksOk(stacks) && t < TERM_NUM && stacks[t] == []
    ensures PlaceOf(stacks, t + 1) == Off
  {
  }

  lemma OpenStacks(stacks: seq<seq<nat>>, t: nat)
    requires StacksOk(stacks) && t < TERM_NUM && stacks[t] == []
    ensures StacksOk(stacks[t := [t + 1]])
  {
    ShellSlotOff(stacks, t);
    PushStacks(stacks, t, t + 1);
    assert stacks[t] + [t + 1] == [t + 1];
  }

  lemma ExecuteOk(files: Files, m: Machine, ask: Ask, name: seq<Byte>)
    requires Ok(m)
    ensures Ok(Execute(files, m, ask, name))
  {
    if Starts(files, m, ask, name) {
      PushStacks(m.stacks, m.cur, Spare(m.stacks));
    }
  }

  lemma PopOk(m: Machine, status: int)
    requires Ok(m) && |m.stacks[m.cur]| > 1
    ensures Ok(Pop(m, status))
  {
    var stack := m.stacks[m.cur];
    var n := |stack| - 1;
    var less := m.stacks[m.cur := stack[..n]];
    PopStacks(m.stacks, m.cur);
    assert less[m.cur] != [] && (less[m.shown] == m.stacks[m.shown] || m.shown == m.cur);
  }

  lemma RestartOk(m: Machine)
    requires Ok(m) && |m.stacks[m.cur]| == 1
    ensures Ok(FreshShell(m, m.cur)) && FreshShell(m, m.cur).stacks == m.stacks
  {
    assert SlotFits(m.stacks[m.cur][0], m.cur, 0);
    assert m.stacks[m.cur] == [m.cur + 1];
    assert m.stacks[m.cur := [m.cur + 1]] == m.stacks;
  }

  lemma HaltOk(m: Machine, status: int)
    requires Ok(m)
    ensures Ok(Halt(m, status))
  {
    if |m.stacks[m.cur]| > 1 { PopOk(m, status); } else { RestartOk(m); }
  }

  lemma SwitchOk(m: Machine, term: int)
    requires Ok(m)
    ensures Ok(Switch(m, term))
  {
    if 0 <= term < TERM_NUM && m.stacks[term] == [] {
      OpenStacks(m.stacks, term);
    }
  }

  /** Every step keeps the stacks and screens in order. */
  lemma NextOk(files: Files, m: Machine, e: Event)
    requires Ok(m)
    ensures Ok(Next(files, m, e))
  {
    match e
    case Execute(ask, line) => ExecuteOk(files, m, ask, CommandLine.Word(line));
    case Halt(status, _) => HaltOk(m, status);
    case Switch(term, _) => SwitchOk(m, term);
    case _ =>
  }
}
