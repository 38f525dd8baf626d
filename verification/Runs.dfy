/** What holds over whole runs of the kernel, from boot, under any order of interrupts and system calls. */
module Runs {
  import opened Screens
  import opened Processes
  import opened Refinement
  import opened Background
  import Paging
  import CommandLine
  import M = Machine

  // ------------------------------------------------------------------ runs

  /** Step i of a run is the kernel's step for event i. */
  ghost predicate StepsAt(files: Files, run: seq<State>, events: seq<Event>, i: nat)
    requires i < |events| && |run| == |events| + 1
  {
    Steppable(run[i]) && run[i + 1] == Step(files, run[i], events[i])
  }

  /** Any order of system calls and interrupts, one kernel step for each. */
  ghost predicate IsRun(files: Files, run: seq<State>, events: seq<Event>) {
    |run| == |events| + 1 &&
    forall i {:trigger StepsAt(files, run, events, i)} :: 0 <= i < |events| ==> StepsAt(files, run, events, i)
  }

  /** Every event but a vidmap call from a program off display, which is given the displayed terminal's page. */
  predicate Allowed(s: State, e: Event) {
    e.Vidmap? ==> s.block < |s.pcbs| && s.pcbs[s.block].term == s.curTerm
  }

  /** No program asks for vidmap while it is off display. Only what is said about the text window and the screens
      depends on this. */
  ghost predicate AllAllowed(run: seq<State>, events: seq<Event>) {
    forall i {:trigger Allowed(run[i], events[i])} :: 0 <= i < |events| && i < |run| ==> Allowed(run[i], events[i])
  }

  ghost predicate MovesAt(files: Files, history: seq<M.Machine>, events: seq<Event>, i: nat)
    requires i < |events| && |history| == |events| + 1
  {
    M.Ok(history[i]) && history[i + 1] == M.Next(files, history[i], events[i])
  }

  /** The machine's side of a run. */
  ghost predicate IsHistory(files: Files, history: seq<M.Machine>, events: seq<Event>) {
    |history| == |events| + 1 &&
    forall i {:trigger MovesAt(files, history, events, i)} :: 0 <= i < |events| ==> MovesAt(files, history, events, i)
  }

  lemma {:induction false} HistoryExists(files: Files, m: M.Machine, events: seq<Event>)
    returns (history: seq<M.Machine>)
    requires M.Ok(m)
    ensures IsHistory(files, history, events) && history[0] == m
    ensures forall i :: 0 <= i < |history| ==> M.Ok(history[i])
  {
    hide M.Next;
    if events == [] {
      history := [m];
    } else {
      var n := |events| - 1;
      var front := HistoryExists(files, m, events[..n]);
      var last := ExtendHistory(files, front[n], events[n]);
      history := front + [last];
      forall i | 0 <= i < |events| ensures MovesAt(files, history, events, i) {
        if i < n {
          assert MovesAt(files, front, events[..n], i);
        }
      }
    }
  }

  lemma ExtendHistory(files: Files, m: M.Machine, e: Event) returns (r: M.Machine)
    requires M.Ok(m)
    ensures M.Ok(r) && r == M.Next(files, m, e)
  {
    M.NextOk(files, m, e);
    r := M.Next(files, m, e);
  }

  /** Whole-run simulation: whatever the programs ask, the kernel's processes do throughout what the machine's do. */
  lemma {:induction false} RunKeepsCore(files: Files, run: seq<State>, history: seq<M.Machine>, events: seq<Event>,
                                        i: nat)
    requires ShellLoads(files) && IsRun(files, run, events) && IsHistory(files, history, events)
    requires Core(run[0], history[0]) && i < |run|
    ensures Core(run[i], history[i])
    ensures WindowHeld(run[0]) ==> WindowHeld(run[i])
  {
    hide M.Next, Step, WindowHeld;
    if i > 0 {
      RunKeepsCore(files, run, history, events, i - 1);
      assert StepsAt(files, run, events, i - 1);
      assert MovesAt(files, history, events, i - 1);
      StepKeepsCore(files, run[i - 1], history[i - 1], events[i - 1]);
      if WindowHeld(run[0]) {
        StepKeepsWindow(files, run[i - 1], history[i - 1], events[i - 1]);
      }
    }
  }

  /** And if all their requests are allowed, kernel and machine agree on windows and screens as well. */
  lemma {:induction false} RunRefines(files: Files, run: seq<State>, history: seq<M.Machine>, events: seq<Event>,
                                      i: nat)
    requires ShellLoads(files) && IsRun(files, run, events) && IsHistory(files, history, events)
    requires Refines(run[0], history[0]) && AllAllowed(run, events) && i < |run|
    ensures Refines(run[i], history[i])
  {
    hide M.Next, Step;
    if i > 0 {
      RunRefines(files, run, history, events, i - 1);
      assert StepsAt(files, run, events, i - 1);
      assert MovesAt(files, history, events, i - 1);
      CallerTerm(run[i - 1], history[i - 1]);
      assert Allowed(run[i - 1], events[i - 1]);
      StepRefines(files, run[i - 1], history[i - 1], events[i - 1]);
    }
  }

  /** No state of a run is stuck: every event has its step. */
  lemma RunGoesOn(files: Files, run: seq<State>, events: seq<Event>, m: M.Machine, e: Event)
    requires ShellLoads(files) && IsRun(files, run, events) && Core(run[0], m)
    ensures Steppable(run[|events|])
    ensures IsRun(files, run + [Step(files, run[|events|], e)], events + [e])
  {
    hide Step, M.Next;
    var n := |events|;
    var history := HistoryExists(files, m, events);
    RunKeepsCore(files, run, history, events, n);
    CoreSteppable(run[n], history[n]);
    var longer, more := run + [Step(files, run[n], e)], events + [e];
    forall i | 0 <= i < |more| ensures StepsAt(files, longer, more, i) {
      if i < n {
        assert StepsAt(files, run, events, i);
      }
    }
  }

  /** The kernel's own mappings: its code and stacks, its page tables, and video memory. */
  function KernelSpace(): Paging.Space {
    var none := Paging.NothingMapped();
    Paging.MapSmall(Paging.MapBig(Paging.MapBig(none, Paging.MB4, Paging.MB4, 0), MB8, MB8, 0), VIDEO, VIDEO, 0)
  }

  function MapDump(space: Paging.Space, t: nat): Paging.Space
    requires t < TERM_NUM
  {
    Paging.MapSmall(space, DumpFrame(t), DumpFrame(t), 0)
  }

  /** With the dump pages of the three terminals, which their initialization maps. */
  function BootSpace(): Paging.Space {
    MapDump(MapDump(MapDump(KernelSpace(), 0), 1), 2)
  }

  /** Memory as it is when the kernel starts its first shell. */
  ghost predicate FreshBoot(s: State) {
    && Shape(s) && s == PowerOn(s.shellBuf, BootSpace(), s.dumps, s.pcbs, s.esp0)
    && s.pcbs[0].fds == StdFds() && s.pcbs[0].pid == 0
  }

  ghost function BootMachine(s: State): M.Machine
    requires Shape(s)
  {
    M.Machine([[1], [], []], 0, 0, [Blank(), Screen(s.dumps[1], 0, 0), Screen(s.dumps[2], 0, 0)],
      seq(NUM_PROC, p requires 0 <= p < NUM_PROC =>
        if p == 1 then M.Proc(s.pcbs[1].ctx, StdFds()) else M.Proc(s.pcbs[p].ctx, s.pcbs[p].fds)))
  }

  /** The first shell takes slot 1 and terminal 0, and the other two shell slots are held for later. */
  lemma BootRefines(files: Files, s: State, start: Start)
    requires FreshBoot(s) && ShellLoads(files)
    ensures LowestFree(s.flags) == 1
    ensures Refines(StartShell(files, s, start), BootMachine(s))
  {
    hide StartShell;
    BootFlags(files, s, start);
    HeldBootRefines(files, Held(s), start);
    assert BootMachine(Held(s)) == BootMachine(s);
  }

  /** At boot slots 2 and 3 are free rather than held; the start of the first shell holds them. */
  function Held(s: State): (r: State)
    requires Shape(s)
    ensures Shape(r)
  {
    s.(flags := [HELD, FREE, HELD, HELD, FREE, FREE, FREE])
  }

  lemma BootFlags(files: Files, s: State, start: Start)
    requires FreshBoot(s) && ShellLoads(files)
    ensures LowestFree(s.flags) == LowestFree(Held(s).flags) == 1
    ensures StartShell(files, s, start) == StartShell(files, Held(s), start)
  {
    LowestIsFreed([HELD, HELD, FREE, FREE, FREE, FREE, FREE], 1);
    LowestIsFreed([HELD, HELD, HELD, HELD, FREE, FREE, FREE], 1);
    assert s.flags == [HELD, HELD, FREE, FREE, FREE, FREE, FREE][1 := FREE];
    assert Held(s).flags == [HELD, HELD, HELD, HELD, FREE, FREE, FREE][1 := FREE];
    FreeSlotExists(s.pcbs[0].fds);
    assert s.pcbs[0].fds[2] == Closed;
    assert LaunchFlags(s.flags, 0, 1) == LaunchFlags(Held(s).flags, 0, 1);
  }

  lemma HeldBootRefines(files: Files, b: State, start: Start)
    requires Shape(b) && Turnable(b) && ShellLoads(files) && b.pcbs[0].fds == StdFds() && b.pcbs[0].pid == 0
    requires b == PowerOn(b.shellBuf, BootSpace(), b.dumps, b.pcbs, b.esp0).(flags := b.flags)
    requires b.flags == [HELD, FREE, HELD, HELD, FREE, FREE, FREE] && LowestFree(b.flags) == 1
    ensures Refines(StartShell(files, b, start), BootMachine(b))
  {
    hide StartShell, BootSpace;
    var m := BootMachine(b).(stacks := [[], [], []]);
    var held := [HELD, HELD, HELD, HELD, FREE, FREE, FREE];
    BootStacks();
    assert M.FreshShell(m, 0) == BootMachine(b);
    forall p | 0 < p < NUM_PROC ensures FlagFits(held[p], m.stacks, p, 0) {}
    forall u | 0 <= u < TERM_NUM ensures m.screens[u] == LogicalScreen(b, u) {}
    ShellRefines(files, b, held, m, 0, start);
  }

  lemma BootStacks()
    ensures M.StacksOk([[], [], []]) && M.StacksOk([[1], [], []])
    ensures var none: seq<seq<nat>> := [[], [], []]; none[0 := [1]] == [[1], [], []]
  {
  }

  /** A run from boot: the first state is the one with the first shell started. */
  ghost predicate IsBootRun(files: Files, boot: State, run: seq<State>, events: seq<Event>) {
    FreshBoot(boot) && ShellLoads(files) && IsRun(files, run, events) && FirstShell(files, boot, run[0])
  }

  ghost predicate FirstShell(files: Files, boot: State, s: State)
    requires FreshBoot(boot) && ShellLoads(files)
  {
    BootRefines(files, boot, PLAIN);
    exists start :: s == StartShell(files, boot, start)
  }

  const PLAIN: Start := Start(false, Zeros(122))

  lemma BootAgrees(files: Files, boot: State, s: State)
    requires FreshBoot(boot) && ShellLoads(files) && FirstShell(files, boot, s)
    ensures Refines(s, BootMachine(boot))
  {
    hide StartShell;
    BootRefines(files, boot, PLAIN);
    var start :| s == StartShell(files, boot, start);
    BootRefines(files, boot, start);
  }

  // ------------------------------------------------------------------ the state between any two steps

  /** The parent chain of a terminal, as the flags and control blocks show it. */
  ghost predicate IsChain(s: State, t: nat, chain: seq<nat>)
    requires Shape(s)
  {
    && chain != [] && chain[0] == t + 1
    && (forall i :: 0 <= i < |chain| ==> 0 < chain[i] < NUM_PROC && s.pcbs[chain[i]].term == t)
    && s.pcbs[chain[0]].parent == 0
    && (forall i :: 0 < i < |chain| ==> chain[i] >= 4 && s.pcbs[chain[i]].parent == chain[i - 1])
    && (forall i :: 0 <= i < |chain| - 1 ==> s.flags[chain[i]] == HELD)
    && (s.flags[chain[|chain| - 1]] == RUNNING || s.flags[chain[|chain| - 1]] == READY)
  }

  /** The processes of each started terminal form one chain from its shell to a runnable leaf, chains share no
      slot and cover every slot in use, shell slots are never free, the running process is the leaf of its own
      terminal's chain, and flag 1 is carried by the running process or by nobody. */
  ghost predicate Chained(s: State, chains: seq<seq<nat>>)
    requires Shape(s)
  {
    && |chains| == TERM_NUM
    && (forall t :: 0 <= t < TERM_NUM ==> if s.started[t] then IsChain(s, t, chains[t]) else chains[t] == [])
    && (forall t, u, p :: 0 <= t < u < TERM_NUM && p in chains[t] ==> p !in chains[u])
    && (forall p :: 4 <= p < NUM_PROC ==> (s.flags[p] != FREE <==> exists t :: 0 <= t < TERM_NUM && p in chains[t]))
    && s.flags[1] != FREE && s.flags[2] != FREE && s.flags[3] != FREE
    && (forall p :: 0 < p < NUM_PROC && s.flags[p] == RUNNING ==> p == s.block)
    && s.pcbs[s.block].term < TERM_NUM && s.started[s.pcbs[s.block].term]
    && s.block == M.Last(chains[s.pcbs[s.block].term])
  }

  /** Every state that agrees with the machine on the processes is chained, by the machine's stacks. */
  lemma ChainsHold(s: State, m: M.Machine)
    requires Core(s, m)
    ensures Chained(s, m.stacks)
    ensures s.pcbs[s.block].term == m.cur
  {
    forall t | 0 <= t < TERM_NUM && s.started[t] ensures IsChain(s, t, m.stacks[t]) {
      StackIsChain(s, m, t);
    }
    StacksDisjoint(m.stacks);
    forall p | 0 < p < NUM_PROC
      ensures p >= 4 ==> (s.flags[p] != FREE <==> exists t :: 0 <= t < TERM_NUM && p in m.stacks[t])
      ensures p < 4 ==> s.flags[p] != FREE
      ensures s.flags[p] == RUNNING ==> p == s.block
    {
      FlagSays(s, m, p);
    }
    CallerTerm(s, m);
  }

  lemma StacksDisjoint(stacks: seq<seq<nat>>)
    requires M.StacksOk(stacks)
    ensures forall t, u, p :: 0 <= t < u < TERM_NUM && p in stacks[t] ==> p !in stacks[u]
  {
    forall t, u, p | 0 <= t < u < TERM_NUM && p in stacks[t] ensures p !in stacks[u] {
      var i :| 0 <= i < |stacks[t]| && stacks[t][i] == p;
      M.OnlyPlace(stacks, t, i, u);
    }
  }

  lemma FlagSays(s: State, m: M.Machine, p: nat)
    requires Core(s, m) && 0 < p < NUM_PROC
    ensures p >= 4 ==> (s.flags[p] != FREE <==> exists t :: 0 <= t < TERM_NUM && p in m.stacks[t])
    ensures p < 4 ==> s.flags[p] != FREE
    ensures s.flags[p] == RUNNING ==> p == s.block
  {
    assert FlagFits(s.flags[p], m.stacks, p, m.cur);
    var r := M.PlaceOf(m.stacks, p);
    if r.On? {
      assert p in m.stacks[r.t];
    }
  }

  lemma StackIsChain(s: State, m: M.Machine, t: nat)
    requires Core(s, m) && t < TERM_NUM && m.stacks[t] != []
    ensures IsChain(s, t, m.stacks[t])
  {
    forall i | 0 <= i < |m.stacks[t]|
      ensures 0 < m.stacks[t][i] < NUM_PROC && s.pcbs[m.stacks[t][i]].term == t
      ensures if i == 0 then m.stacks[t][i] == t + 1 && s.pcbs[m.stacks[t][i]].parent == 0
        else m.stacks[t][i] >= 4 && s.pcbs[m.stacks[t][i]].parent == m.stacks[t][i - 1]
      ensures if i + 1 < |m.stacks[t]| then s.flags[m.stacks[t][i]] == HELD
        else s.flags[m.stacks[t][i]] == READY || s.flags[m.stacks[t][i]] == RUNNING
    {
      ChainLink(s, m, t, i);
    }
    ChainLink(s, m, t, 0);
  }

  lemma ChainLink(s: State, m: M.Machine, t: nat, i: nat)
    requires Core(s, m) && t < TERM_NUM && i < |m.stacks[t]|
    ensures 0 < m.stacks[t][i] < NUM_PROC && s.pcbs[m.stacks[t][i]].term == t
    ensures if i == 0 then m.stacks[t][i] == t + 1 && s.pcbs[m.stacks[t][i]].parent == 0
      else m.stacks[t][i] >= 4 && s.pcbs[m.stacks[t][i]].parent == m.stacks[t][i - 1]
    ensures if i + 1 < |m.stacks[t]| then s.flags[m.stacks[t][i]] == HELD
      else s.flags[m.stacks[t][i]] == READY || s.flags[m.stacks[t][i]] == RUNNING
  {
    var p := m.stacks[t][i];
    assert M.SlotFits(p, t, i);
    assert M.PlaceOf(m.stacks, m.stacks[t][i]) == M.On(t, i);
    assert FlagFits(s.flags[p], m.stacks, p, m.cur);
    assert LinkFits(s.pcbs[m.stacks[t][i]], m.stacks[t], t, i);
  }

  /** The machine context is the running process's: kernel stack and program image. */
  lemma ContextHolds(s: State, m: M.Machine, offset: nat)
    requires Core(s, m)
    ensures s.pcbs[s.block].term < TERM_NUM
    ensures s.esp0 == StackTop(s.block)
    ensures offset < Paging.MB4 ==>
      Paging.Lookup(s.space, MB128 + offset) == Paging.At(ImageFrame(s.block) + offset, true)
  {
    CallerTerm(s, m);
    if offset < Paging.MB4 {
      var v: Paging.Word := MB128 + offset;
      assert Paging.RegionOf(v) == Paging.RegionOf(MB128) && v % Paging.MB4 == offset;
    }
  }

  /** What a window on a page shows at an offset. */
  lemma WindowShows(space: Paging.Space, frame: int, offset: nat)
    requires WindowOk(space, frame) && offset < 0x1000
    ensures var a := Paging.Lookup(space, MB132 + offset); a.At? && a.phys == frame + offset
  {
    var v: Paging.Word := MB132 + offset;
    assert Paging.RegionOf(v) == Paging.RegionOf(MB132) && Paging.PageOf(v) == Paging.PageOf(MB132);
    assert v % Paging.KB4 == offset;
  }

  /** From boot, through any run and whatever the programs ask: chains and machine context hold in every state, and
      the text window shows the caller's own page or, after a vidmap, the displayed one. If no program asks for
      vidmap while it is off display, it always shows the caller's own. */
  lemma EveryReachableState(files: Files, boot: State, run: seq<State>, events: seq<Event>, i: nat, offset: nat)
    requires IsBootRun(files, boot, run, events) && i < |run|
    ensures Shape(run[i]) && exists chains :: Chained(run[i], chains)
    ensures run[i].esp0 == 0x80_0000 - 0x2000 * run[i].block && run[i].pcbs[run[i].block].term < TERM_NUM
    ensures offset < 0x40_0000 ==>
      Paging.Lookup(run[i].space, 0x800_0000 + offset) ==
        Paging.At(0x80_0000 + 0x40_0000 * run[i].block + offset, true)
    ensures offset < 0x1000 ==>
      var s := run[i]; var t := s.pcbs[s.block].term;
      var own := if t == s.curTerm then 0xB8000 else 0x240_0000 + 0x1000 * t;
      var a := Paging.Lookup(s.space, 0x840_0000 + offset);
      && a.At? && (a.phys == own + offset || a.phys == 0xB8000 + offset)
      && (AllAllowed(run, events) ==> a.phys == own + offset)
  {
    hide Chained, IsBootRun, Core, WindowHeld;
    var m := BootRunKeepsCore(files, boot, run, events, i);
    ChainsHold(run[i], m);
    ContextHolds(run[i], m, offset);
    if offset < 0x1000 {
      EveryWindow(files, boot, run, events, i, offset);
    }
  }

  /** The text window in every state of a run. */
  lemma EveryWindow(files: Files, boot: State, run: seq<State>, events: seq<Event>, i: nat, offset: nat)
    requires IsBootRun(files, boot, run, events) && i < |run| && offset < 0x1000
    ensures run[i].block < |run[i].pcbs| && run[i].pcbs[run[i].block].term < TERM_NUM
    ensures var s := run[i];
      var a, own := Paging.Lookup(s.space, MB132 + offset), TextFrame(s.curTerm, s.pcbs[s.block].term);
      && a.At? && (a.phys == own + offset || a.phys == VIDEO + offset)
      && (AllAllowed(run, events) ==> a.phys == own + offset)
  {
    hide WindowOk, IsBootRun, AllAllowed, Core;
    var m := BootRunKeepsCore(files, boot, run, events, i);
    CallerTerm(run[i], m);
    var own := TextFrame(run[i].curTerm, run[i].pcbs[run[i].block].term);
    if AllAllowed(run, events) {
      OwnWindow(files, boot, run, events, i);
    }
    WindowShows(run[i].space, if WindowOk(run[i].space, own) then own else VIDEO, offset);
  }

  lemma OwnWindow(files: Files, boot: State, run: seq<State>, events: seq<Event>, i: nat)
    requires IsBootRun(files, boot, run, events) && AllAllowed(run, events) && i < |run|
    ensures Shape(run[i]) && run[i].pcbs[run[i].block].term < TERM_NUM
    ensures WindowOk(run[i].space, TextFrame(run[i].curTerm, run[i].pcbs[run[i].block].term))
  {
    var m := BootRunRefines(files, boot, run, events, i);
    CallerTerm(run[i], m);
  }

  /** Every state of a run from boot agrees with some state of the machine on the processes. */
  lemma BootRunKeepsCore(files: Files, boot: State, run: seq<State>, events: seq<Event>, i: nat) returns (m: M.Machine)
    requires IsBootRun(files, boot, run, events) && i < |run|
    ensures Core(run[i], m) && Steppable(run[i]) && WindowHeld(run[i])
  {
    hide M.Next, Step, StartShell, WindowHeld;
    BootAgrees(files, boot, run[0]);
    RefinesCore(run[0], BootMachine(boot));
    RefinesWindow(run[0], BootMachine(boot));
    var history := HistoryExists(files, BootMachine(boot), events);
    RunKeepsCore(files, run, history, events, i);
    m := history[i];
    CoreSteppable(run[i], m);
  }

  /** If all requests are allowed, on the windows and screens as well. */
  lemma BootRunRefines(files: Files, boot: State, run: seq<State>, events: seq<Event>, i: nat) returns (m: M.Machine)
    requires IsBootRun(files, boot, run, events) && AllAllowed(run, events) && i < |run|
    ensures Refines(run[i], m) && (i == 0 ==> m == BootMachine(boot))
  {
    hide M.Next, Step, StartShell;
    BootAgrees(files, boot, run[0]);
    var history := HistoryExists(files, BootMachine(boot), events);
    RunRefines(files, run, history, events, i);
    m := history[i];
  }

  /** Every run from boot goes on with every event. */
  lemma BootRunGoesOn(files: Files, boot: State, run: seq<State>, events: seq<Event>, e: Event)
    requires IsBootRun(files, boot, run, events)
    ensures Steppable(run[|events|])
    ensures IsBootRun(files, boot, run + [Step(files, run[|events|], e)], events + [e])
  {
    hide Step, StartShell;
    var m := BootRunKeepsCore(files, boot, run, events, 0);
    RunGoesOn(files, run, events, m, e);
  }

  // ------------------------------------------------------------------ runs that get somewhere

  /** A run from boot, the machine at its end, and that all its requests were allowed. */
  ghost predicate Reaches(files: Files, boot: State, run: seq<State>, events: seq<Event>, m: M.Machine) {
    IsBootRun(files, boot, run, events) && AllAllowed(run, events) && Refines(run[|events|], m)
  }

  lemma ReachBoot(files: Files, boot: State) returns (run: seq<State>)
    requires FreshBoot(boot) && ShellLoads(files)
    ensures Reaches(files, boot, run, [], BootMachine(boot))
  {
    BootRefines(files, boot, PLAIN);
    run := [StartShell(files, boot, PLAIN)];
  }

  lemma ReachNext(files: Files, boot: State, run: seq<State>, events: seq<Event>, m: M.Machine, e: Event)
    returns (longer: seq<State>)
    requires Reaches(files, boot, run, events, m) && !e.Vidmap?
    ensures |longer| > |run| && longer[..|run|] == run
    ensures Reaches(files, boot, longer, events + [e], M.Next(files, m, e))
  {
    hide Step, M.Next, StartShell;
    var n := |events|;
    BootAgrees(files, boot, run[0]);
    RefinesCore(run[0], BootMachine(boot));
    RunGoesOn(files, run, events, BootMachine(boot), e);
    longer := run + [Step(files, run[n], e)];
    forall i | 0 <= i < |events + [e]| ensures Allowed(longer[i], (events + [e])[i]) {
      if i < n {
        assert Allowed(run[i], events[i]);
      }
    }
    StepRefines(files, run[n], m, e);
  }

  const SHOW1: Event := Switch(1, PLAIN)
  const SHOW0: Event := Switch(0, PLAIN)

  /** The machine after a second terminal has been opened and the first is shown again. */
  lemma OpenedAndLeft(files: Files, m: M.Machine)
    requires M.Ok(m) && m.stacks == [[1], [], []] && m.cur == 0 && m.shown == 0
    ensures M.Ok(M.Next(files, m, SHOW1))
    ensures var r := M.Next(files, m, SHOW1);
      r.stacks == [[1], [2], []] && r.cur == 1 && r.shown == 1 && r.procs[2].fds == StdFds()
  {
    M.NextOk(files, m, SHOW1);
  }

  /** The case that vidmap gets wrong is reached by two keys: a second terminal is opened, the first one is shown
      again, and the shell of the second is still the running process. */
  lemma BackgroundProcessRuns(files: Files, boot: State)
    requires FreshBoot(boot) && ShellLoads(files)
    ensures exists run, m ::
      Reaches(files, boot, run, [SHOW1, SHOW0], m) && InBackground(m) && !Refines(VidmapStep(run[2]), m)
  {
    hide Step, M.Next, StartShell;
    var m := BootMachine(boot);
    var r0 := ReachBoot(files, boot);
    OpenedAndLeft(files, m);
    var r1 := ReachNext(files, boot, r0, [], m, SHOW1);
    assert [] + [SHOW1] == [SHOW1];
    var m1 := M.Next(files, m, SHOW1);
    ShownAgain(files, m1);
    var r2 := ReachNext(files, boot, r1, [SHOW1], m1, SHOW0);
    assert [SHOW1] + [SHOW0] == [SHOW1, SHOW0];
    VidmapRefines(r2[2], M.Next(files, m1, SHOW0));
  }

  /** The shell of the second terminal is running, and the first terminal is shown. */
  ghost predicate InBackground(m: M.Machine) {
    m.cur == 1 && m.shown == 0 && m.stacks == [[1], [2], []] && |m.procs| == NUM_PROC && m.procs[2].fds == StdFds()
  }

  lemma ShownAgain(files: Files, m: M.Machine)
    requires M.Ok(m) && m.stacks[0] != []
    ensures M.Next(files, m, SHOW0) == m.(shown := 0)
  {
  }

  const START: Event := Execute(Ask(true, false), ShellLine(PLAIN.junk))

  /** A shell started from the shell of the second terminal. */
  lemma StartedOnSecond(files: Files, m: M.Machine)
    requires ShellLoads(files) && M.Ok(m) && m.stacks == [[1], [2], []] && m.cur == 1 && m.procs[2].fds == StdFds()
    ensures M.Ok(M.Next(files, m, START))
    ensures var r := M.Next(files, m, START); r.stacks == [[1], [2, 4], []] && r.cur == 1
  {
    hide CommandLine.Word, ShellLine;
    M.NextOk(files, m, START);
    ShellLineNamesShell(PLAIN.junk);
    assert m.procs[M.Running(m)].fds[2] == Closed;
    assert M.Starts(files, m, Ask(true, false), SHELL);
    assert m.stacks[1] + [4] == [2, 4];
    assert m.stacks[1 := [2, 4]] == [[1], [2, 4], []];
  }

  /** The line the kernel starts its shells with names the shell and has no argument, whatever follows it. */
  lemma ShellLineNamesShell(junk: Junk)
    ensures CommandLine.Word(ShellLine(junk)) == SHELL
    ensures CommandLine.Argument(ShellLine(junk)) == [] && 0 in ShellLine(junk)
  {
    CommandLine.CommandLineRoundTrip(0, SHELL, 0, [], junk);
    assert CommandLine.Spaces(0) + SHELL + CommandLine.Spaces(0) + [] + [0] + junk == ShellLine(junk);
    assert ShellLine(junk)[5] == 0;
  }

  /** Two shells on the second terminal, the first one on display: the state from which a halt leaves flag 1 on
      no process at all. */
  lemma ChildRunsInBackground(files: Files, boot: State)
    requires FreshBoot(boot) && ShellLoads(files)
    ensures exists run, m ::
      Reaches(files, boot, run, [SHOW1, START, SHOW0], m) && |m.stacks[m.cur]| > 1 && m.cur != m.shown
  {
    hide Step, M.Next, StartShell;
    var m := BootMachine(boot);
    var r0 := ReachBoot(files, boot);
    OpenedAndLeft(files, m);
    var r1 := ReachNext(files, boot, r0, [], m, SHOW1);
    assert [] + [SHOW1] == [SHOW1];
    var m1 := M.Next(files, m, SHOW1);
    StartedOnSecond(files, m1);
    var r2 := ReachNext(files, boot, r1, [SHOW1], m1, START);
    assert [SHOW1] + [START] == [SHOW1, START];
    var m2 := M.Next(files, m1, START);
    ShownAgain(files, m2);
    var r3 := ReachNext(files, boot, r2, [SHOW1, START], m2, SHOW0);
    assert [SHOW1, START] + [SHOW0] == [SHOW1, START, SHOW0];
    assert Reaches(files, boot, r3, [SHOW1, START, SHOW0], M.Next(files, m2, SHOW0));
  }
}
