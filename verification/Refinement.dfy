/** Every kernel step, from every state the kernel can reach, does what the machine of three terminals does. */
module Refinement {
  import opened Screens
  import opened Processes
  import Paging
  import CommandLine
  import M = Machine

  // ------------------------------------------------------------------ the relation

  /** Flags against stacks: an unused shell slot is held back, any other unused slot is free, only the top of
      a stack can run, what lies below waits, and only the running process's terminal can carry flag 1. */
  predicate FlagFits(flag: nat, stacks: seq<seq<nat>>, p: nat, cur: nat)
    requires |stacks| == TERM_NUM
  {
    match M.PlaceOf(stacks, p)
    case Off => flag == if p <= 3 then HELD else FREE
    case On(t, i) => if i + 1 < |stacks[t]| then flag == HELD else flag == READY || (flag == RUNNING && t == cur)
  }

  ghost predicate FlagsOk(flags: seq<nat>, stacks: seq<seq<nat>>, cur: nat)
    requires |stacks| == TERM_NUM
  {
    |flags| == NUM_PROC && flags[0] == HELD &&
    forall p {:trigger FlagFits(flags[p], stacks, p, cur)} :: 0 < p < NUM_PROC ==> FlagFits(flags[p], stacks, p, cur)
  }

  /** Parent links follow the stacks, down to slot 0. */
  ghost predicate LinksOk(pcbs: seq<Pcb>, stacks: seq<seq<nat>>)
    requires M.StacksOk(stacks) && |pcbs| == NUM_PROC
  {
    forall t, i {:trigger LinkFits(pcbs[stacks[t][i]], stacks[t], t, i)} ::
      0 <= t < TERM_NUM && 0 <= i < |stacks[t]| ==> LinkFits(pcbs[stacks[t][i]], stacks[t], t, i)
  }

  predicate LinkFits(pcb: Pcb, stack: seq<nat>, t: nat, i: nat)
    requires i < |stack|
  {
    pcb.pid == stack[i] && pcb.term == t && pcb.parent == if i == 0 then 0 else stack[i - 1]
  }

  /** Stack pointer, kernel stack and image window are those of process p. */
  ghost predicate ImageOk(s: State, p: nat)
    requires 0 < p < NUM_PROC
  {
    && s.block == p && s.esp0 == StackTop(p)
    && s.space[Paging.RegionOf(MB128)] == Paging.Big(ImageFrame(p), true)
  }

  /** So are both user windows, on terminal t. */
  ghost predicate ContextOk(s: State, p: nat, t: nat)
    requires 0 < p < NUM_PROC && t < TERM_NUM
  {
    && ImageOk(s, p)
    && WindowOk(s.space, TextFrame(s.curTerm, t))
  }

  ghost predicate WindowOk(space: Paging.Space, frame: int) {
    var r := space[Paging.RegionOf(MB132)];
    r.Small? && Paging.PageOf(MB132) in r.pages && r.pages[Paging.PageOf(MB132)].frame == frame
  }

  /** Terminal t's screen is real video memory when t is shown, else its dump page. */
  function LogicalScreen(s: State, t: nat): Screen
    requires Shape(s) && t < TERM_NUM
  {
    Screen(if t == s.curTerm then s.video else s.dumps[t], s.xs[t], s.ys[t])
  }

  /** The terminal on display and the terminals in use are the same on both sides. */
  ghost predicate TerminalsOk(s: State, m: M.Machine)
    requires Shape(s) && M.Ok(m)
  {
    && s.curTerm == m.shown
    && (forall t :: 0 <= t < TERM_NUM ==> (s.started[t] <==> m.stacks[t] != []))
  }

  ghost predicate ScreensOk(s: State, m: M.Machine)
    requires Shape(s) && M.Ok(m)
  {
    && TerminalsOk(s, m)
    && (forall t :: 0 <= t < TERM_NUM ==> m.screens[t] == LogicalScreen(s, t))
  }

  ghost predicate ProcsOk(pcbs: seq<Pcb>, procs: seq<M.Proc>) {
    && |pcbs| == NUM_PROC && |procs| == NUM_PROC
    && pcbs[0].fds == StdFds() && pcbs[0].pid == 0
    && (forall p :: 0 < p < NUM_PROC ==> procs[p] == M.Proc(pcbs[p].ctx, pcbs[p].fds))
  }

  ghost predicate Refines(s: State, m: M.Machine) {
    && Shape(s) && M.Ok(m)
    && FlagsOk(s.flags, m.stacks, m.cur)
    && LinksOk(s.pcbs, m.stacks)
    && ContextOk(s, M.Running(m), m.cur)
    && ScreensOk(s, m)
    && ProcsOk(s.pcbs, m.procs)
  }

  /** All of this but what the text window shows and what is on the screens: the part that no request of any
      program can upset. */
  ghost predicate Core(s: State, m: M.Machine) {
    && Shape(s) && M.Ok(m)
    && FlagsOk(s.flags, m.stacks, m.cur)
    && LinksOk(s.pcbs, m.stacks)
    && ImageOk(s, M.Running(m))
    && TerminalsOk(s, m)
    && ProcsOk(s.pcbs, m.procs)
  }

  lemma CoreSteppable(s: State, m: M.Machine)
    requires Core(s, m)
    ensures Steppable(s)
  {
    var stack := m.stacks[m.cur];
    var n := |stack| - 1;
    assert M.SlotFits(stack[n], m.cur, n);
    assert LinkFits(s.pcbs[stack[n]], stack, m.cur, n);
    if n > 0 { assert M.SlotFits(stack[n - 1], m.cur, n - 1) && LinkFits(s.pcbs[stack[n - 1]], stack, m.cur, n - 1); }
    forall p | 0 < p < NUM_PROC && (s.flags[p] == READY || s.flags[p] == RUNNING)
      ensures s.pcbs[p].term < TERM_NUM
    {
      assert FlagFits(s.flags[p], m.stacks, p, m.cur);
      var r := M.PlaceOf(m.stacks, p);
      assert LinkFits(s.pcbs[m.stacks[r.t][r.i]], m.stacks[r.t], r.t, r.i);
    }
  }

  /** The line kept for getargs is no part of the machine. */
  lemma BufferIsApart(s: State, m: M.Machine, line: CommandLine.Line)
    requires Refines(s, m)
    ensures Refines(s.(shellBuf := line), m)
  {
  }

  // ------------------------------------------------------------------ flags

  lemma FreeSlotChoice(flags: seq<nat>, stacks: seq<seq<nat>>, cur: nat)
    requires M.StacksOk(stacks) && FlagsOk(flags, stacks, cur)
    ensures LowestFree(flags) == if M.Spare(stacks) <= 6 then M.Spare(stacks) else -1
  {
    forall p | 0 < p < NUM_PROC ensures flags[p] == FREE <==> p >= 4 && M.PlaceOf(stacks, p) == M.Off {
      assert FlagFits(flags[p], stacks, p, cur);
    }
  }

  lemma LowestIsFreed(flags: seq<nat>, k: nat)
    requires k < |flags| && forall q :: 0 <= q < k ==> flags[q] != FREE
    ensures LowestFree(flags[k := FREE]) == k
  {
    var freed := flags[k := FREE];
    assert freed[k] == FREE;
    assert forall q :: 0 <= q < k ==> freed[q] == flags[q];
  }

  lemma PushFlags(flags: seq<nat>, stacks: seq<seq<nat>>, cur: nat, p: nat)
    requires M.StacksOk(stacks) && FlagsOk(flags, stacks, cur)
    requires cur < TERM_NUM && stacks[cur] != [] && 4 <= p < NUM_PROC && M.PlaceOf(stacks, p) == M.Off
    ensures FlagsOk(LaunchFlags(flags, M.Last(stacks[cur]), p), stacks[cur := stacks[cur] + [p]], cur)
  {
    var more := stacks[cur := stacks[cur] + [p]];
    var n := |stacks[cur]| - 1;
    var launched := LaunchFlags(flags, M.Last(stacks[cur]), p);
    assert M.PlaceOf(stacks, stacks[cur][n]) == M.On(cur, n);
    forall q | 0 < q < NUM_PROC ensures FlagFits(launched[q], more, q, cur) {
      assert FlagFits(flags[q], stacks, q, cur);
      M.PlacePushed(stacks, cur, p, q);
    }
  }

  lemma PopFlags(flags: seq<nat>, stacks: seq<seq<nat>>, cur: nat, flag: nat)
    requires M.StacksOk(stacks) && FlagsOk(flags, stacks, cur)
    requires cur < TERM_NUM && |stacks[cur]| > 1 && (flag == RUNNING || flag == READY)
    ensures var n := |stacks[cur]| - 1;
      FlagsOk(flags[stacks[cur][n] := FREE][stacks[cur][n - 1] := flag], stacks[cur := stacks[cur][..n]], cur)
  {
    hide FlagFits;
    var n := |stacks[cur]| - 1;
    assert M.SlotFits(stacks[cur][n], cur, n) && M.SlotFits(stacks[cur][n - 1], cur, n - 1);
    var less := stacks[cur := stacks[cur][..n]];
    var popped := flags[stacks[cur][n] := FREE][stacks[cur][n - 1] := flag];
    forall q | 0 < q < NUM_PROC ensures FlagFits(popped[q], less, q, cur) {
      PopFlag(flags, stacks, cur, flag, q);
    }
  }

  lemma PopFlag(flags: seq<nat>, stacks: seq<seq<nat>>, cur: nat, flag: nat, q: nat)
    requires M.StacksOk(stacks) && FlagsOk(flags, stacks, cur) && 0 < q < NUM_PROC
    requires cur < TERM_NUM && |stacks[cur]| > 1 && (flag == RUNNING || flag == READY)
    ensures var n := |stacks[cur]| - 1; var p, r := stacks[cur][n], stacks[cur][n - 1];
      FlagFits(if q == r then flag else if q == p then FREE else flags[q], stacks[cur := stacks[cur][..n]], q, cur)
  {
    var n := |stacks[cur]| - 1;
    assert M.SlotFits(stacks[cur][n], cur, n);
    assert M.PlaceOf(stacks, stacks[cur][n]) == M.On(cur, n);
    assert M.PlaceOf(stacks, stacks[cur][n - 1]) == M.On(cur, n - 1);
    assert FlagFits(flags[q], stacks, q, cur);
    M.PlacePopped(stacks, cur, q);
  }

  /** Starting a shell for terminal t from slot 0, whether t had one before or not: the slot found is t's own. */
  lemma ShellFlags(flags: seq<nat>, stacks: seq<seq<nat>>, cur: nat, t: nat)
    requires M.StacksOk(stacks) && FlagsOk(flags, stacks, cur)
    requires t < TERM_NUM && |stacks[t]| <= 1
    ensures LowestFree(flags[t + 1 := FREE]) == t + 1
    ensures FlagsOk(LaunchFlags(flags[t + 1 := FREE], 0, t + 1), stacks[t := [t + 1]], t)
  {
    var more := stacks[t := [t + 1]];
    var freed := flags[t + 1 := FREE];
    var launched := LaunchFlags(freed, 0, t + 1);
    forall q | 0 <= q <= t ensures flags[q] != FREE {
      assert q > 0 ==> FlagFits(flags[q], stacks, q, cur);
    }
    LowestIsFreed(flags, t + 1);
    if stacks[t] == [] {
      M.ShellSlotOff(stacks, t);
      assert stacks[t] + [t + 1] == [t + 1];
    } else {
      assert M.SlotFits(stacks[t][0], t, 0);
      assert stacks[t] == [t + 1];
      assert M.PlaceOf(stacks, stacks[t][0]) == M.On(t, 0);
    }
    forall q | 0 < q < NUM_PROC ensures FlagFits(launched[q], more, q, t) {
      assert FlagFits(flags[q], stacks, q, cur);
      if stacks[t] == [] {
        M.PlacePushed(stacks, t, t + 1, q);
      }
      assert launched[q] == if q == t + 1 then RUNNING else SettledFlag(flags[q], q);
    }
  }

  lemma TickFlags(flags: seq<nat>, stacks: seq<seq<nat>>, cur: nat, next: nat)
    requires M.StacksOk(stacks) && FlagsOk(flags, stacks, cur)
    requires cur < TERM_NUM && stacks[cur] != [] && next < TERM_NUM && stacks[next] != [] && next != cur
    ensures FlagsOk(flags[M.Last(stacks[cur]) := READY][M.Last(stacks[next]) := RUNNING], stacks, next)
  {
    var a, b := |stacks[cur]| - 1, |stacks[next]| - 1;
    assert M.PlaceOf(stacks, stacks[cur][a]) == M.On(cur, a);
    assert M.PlaceOf(stacks, stacks[next][b]) == M.On(next, b);
    var ticked := flags[M.Last(stacks[cur]) := READY][M.Last(stacks[next]) := RUNNING];
    forall q | 0 < q < NUM_PROC ensures FlagFits(ticked[q], stacks, q, next) {
      assert FlagFits(flags[q], stacks, q, cur);
    }
  }

  // ------------------------------------------------------------------ which process comes next

  /** The search order of get_next_schedule, slot by slot. */
  lemma {:induction false} FirstReadyIsNearest(flags: seq<nat>, cur: nat, d: nat)
    requires |flags| == NUM_PROC && cur < NUM_PROC && 1 <= d <= NUM_PROC
    ensures var r := FirstReadyFrom(flags, cur, d);
      (r == -1 ==> forall q :: 0 < q < NUM_PROC && Ahead(cur, q) >= d ==> flags[q] != READY) &&
      (r != -1 ==> Ahead(cur, r) >= d) &&
      (r != -1 ==> forall q :: 0 < q < NUM_PROC && d <= Ahead(cur, q) < Ahead(cur, r) ==> flags[q] != READY)
    decreases NUM_PROC - d
  {
    if d < NUM_PROC {
      assert Ahead(cur, NthAfter(cur, d)) == d;
      forall q | 0 < q < NUM_PROC && Ahead(cur, q) == d ensures q == NthAfter(cur, d) {}
      if NthAfter(cur, d) == 0 || flags[NthAfter(cur, d)] != READY {
        FirstReadyIsNearest(flags, cur, d + 1);
      }
    }
  }

  /** The scheduler's choice is the first ready slot after the current one in cyclic order. */
  lemma NextReadyIsNearest(flags: seq<nat>, cur: nat)
    requires |flags| == NUM_PROC && 0 < cur < NUM_PROC
    ensures var r := NextReady(flags, cur);
      (r == -1 <==> forall q :: 0 < q < NUM_PROC && q != cur ==> flags[q] != READY) &&
      (r != -1 ==> forall q :: 0 < q < NUM_PROC && q != cur && flags[q] == READY ==> Ahead(cur, r) <= Ahead(cur, q)) &&
      (r != -1 ==> forall q :: 0 < q < NUM_PROC && q != cur && flags[q] == READY ==> (r - cur) % 7 <= (q - cur) % 7)
  {
    FirstReadyIsNearest(flags, cur, 1);
    forall q | 0 < q < NUM_PROC && q != cur ensures Ahead(cur, q) >= 1 {}
  }

  /** Every ready process other than the running one is the top of another terminal's stack. */
  lemma ReadyAreTops(flags: seq<nat>, stacks: seq<seq<nat>>, cur: nat, q: nat)
    requires M.StacksOk(stacks) && FlagsOk(flags, stacks, cur) && cur < TERM_NUM && stacks[cur] != []
    requires 0 < q < NUM_PROC && q != M.Last(stacks[cur])
    ensures flags[q] == READY <==>
      exists t :: 0 <= t < TERM_NUM && t != cur && stacks[t] != [] && M.Last(stacks[t]) == q
  {
    assert FlagFits(flags[q], stacks, q, cur);
    var r := M.PlaceOf(stacks, q);
    if t :| 0 <= t < TERM_NUM && t != cur && stacks[t] != [] && M.Last(stacks[t]) == q {
      assert M.PlaceOf(stacks, stacks[t][|stacks[t]| - 1]) == M.On(t, |stacks[t]| - 1);
    }
    if flags[q] == READY {
      assert M.Last(stacks[r.t]) == q;
    }
  }

  /** The scheduler picks the top process of the terminal the machine picks. */
  lemma TickChoice(flags: seq<nat>, stacks: seq<seq<nat>>, cur: nat)
    requires M.StacksOk(stacks) && FlagsOk(flags, stacks, cur) && cur < TERM_NUM && stacks[cur] != []
    ensures var p := M.Last(stacks[cur]);
      var next := M.Sooner(stacks, p, (cur + 1) % TERM_NUM, (cur + 2) % TERM_NUM);
      next != cur && NextReady(flags, p) == if stacks[next] == [] then -1 else M.Last(stacks[next])
  {
    TickPick(flags, stacks, cur, (cur + 1) % TERM_NUM, (cur + 2) % TERM_NUM);
  }

  /** A ready slot nearer than every other ready slot is the scheduler's choice. */
  lemma NearestIsChosen(flags: seq<nat>, cur: nat, q: nat)
    requires |flags| == NUM_PROC && 0 < cur < NUM_PROC && 0 < q < NUM_PROC && q != cur && flags[q] == READY
    requires forall r :: 0 < r < NUM_PROC && r != cur && flags[r] == READY ==> Ahead(cur, q) <= Ahead(cur, r)
    ensures NextReady(flags, cur) == q
  {
  }

  lemma TickPick(flags: seq<nat>, stacks: seq<seq<nat>>, cur: nat, a: nat, b: nat)
    requires M.StacksOk(stacks) && FlagsOk(flags, stacks, cur) && cur < TERM_NUM && stacks[cur] != []
    requires a < TERM_NUM && b < TERM_NUM && a != b && a != cur && b != cur
    ensures 0 < M.Last(stacks[cur]) < NUM_PROC
    ensures var p := M.Last(stacks[cur]);
      var next := M.Sooner(stacks, p, a, b);
      NextReady(flags, p) == if stacks[next] == [] then -1 else M.Last(stacks[next])
  {
    var p := M.Last(stacks[cur]);
    assert M.SlotFits(stacks[cur][|stacks[cur]| - 1], cur, |stacks[cur]| - 1);
    var next := M.Sooner(stacks, p, a, b);
    TopReady(flags, stacks, cur, next);
    forall r | 0 < r < NUM_PROC && r != p && flags[r] == READY
      ensures stacks[next] != [] && Ahead(p, M.Last(stacks[next])) <= Ahead(p, r)
    {
      ReadyAreTops(flags, stacks, cur, r);
    }
    if stacks[next] == [] {
      NextReadyIsNearest(flags, p);
    } else {
      NearestIsChosen(flags, p, M.Last(stacks[next]));
    }
  }

  lemma TopReady(flags: seq<nat>, stacks: seq<seq<nat>>, cur: nat, t: nat)
    requires M.StacksOk(stacks) && FlagsOk(flags, stacks, cur) && cur < TERM_NUM && stacks[cur] != []
    requires t < TERM_NUM && t != cur
    ensures stacks[t] != [] ==>
      var p := M.Last(stacks[t]);
      0 < p < NUM_PROC && p != M.Last(stacks[cur]) && flags[p] == READY
  {
    if stacks[t] != [] {
      var i, j := |stacks[t]| - 1, |stacks[cur]| - 1;
      assert M.PlaceOf(stacks, stacks[t][i]) == M.On(t, i);
      assert M.PlaceOf(stacks, stacks[cur][j]) == M.On(cur, j);
      assert FlagFits(flags[stacks[t][i]], stacks, stacks[t][i], cur);
    }
  }

  lemma AheadDistinct(cur: nat, q: nat)
    requires cur < NUM_PROC && q < NUM_PROC
    ensures forall r :: 0 <= r < NUM_PROC && Ahead(cur, r) == Ahead(cur, q) ==> r == q
  {
  }

  // ------------------------------------------------------------------ windows

  lemma Windows(space: Paging.Space, p: nat, cur: nat, t: nat, level: nat)
    requires 0 < p < NUM_PROC && t < TERM_NUM
    ensures MapImage(space, p)[Paging.RegionOf(MB128)] == Paging.Big(ImageFrame(p), true)
    ensures MapImage(space, p)[Paging.RegionOf(MB132)] == space[Paging.RegionOf(MB132)]
    ensures MapText(space, cur, t, level)[Paging.RegionOf(MB128)] == space[Paging.RegionOf(MB128)]
    ensures WindowOk(MapText(space, cur, t, level), TextFrame(cur, t))
  {
  }

  // ------------------------------------------------------------------ steps that start a program

  /** The terminal of the running process, read off its control block. */
  lemma CallerTerm(s: State, m: M.Machine)
    requires Core(s, m)
    ensures s.block != 0 && s.pcbs[s.block].term == m.cur
    ensures s.pcbs[s.block].parent == if |m.stacks[m.cur]| == 1 then 0 else m.stacks[m.cur][|m.stacks[m.cur]| - 2]
  {
    var stack := m.stacks[m.cur];
    var n := |stack| - 1;
    assert M.SlotFits(stack[n], m.cur, n);
    assert LinkFits(s.pcbs[stack[n]], stack, m.cur, n);
  }

  lemma FreeSlotExists(fds: seq<Fd>)
    requires |fds| == 8
    ensures FreeSlot(fds) != -1 <==> exists fd :: 2 <= fd <= 7 && fds[fd] == Closed
  {
  }

  /** When execute starts a program, and why it does not: of a file that can be read only the magic number in it
      counts, whatever the memory it goes to held before; of one that cannot, only what that memory held. */
  lemma LaunchedExactly(files: Files, s: State, ask: Ask, name: seq<Byte>)
    requires Shape(s)
    ensures ExecuteOutcome(files, s, ask, name) == Refused <==> !Loadable(files, s, ask, name)
    ensures ExecuteOutcome(files, s, ask, name) == Launched <==> StartsProgram(files, s, ask, name)
    ensures name in files && files[name].readable ==>
      forall stale :: ExecuteOutcome(files, s, ask.(stale := stale), name) == ExecuteOutcome(files, s, ask, name)
  {
    FreeSlotExists(s.pcbs[s.block].fds);
  }

  /** What is in the kept line has no part in it. */
  lemma SameOutcome(files: Files, s: State, a: State, ask: Ask, name: seq<Byte>)
    requires Shape(s) && Shape(a) && a == s.(shellBuf := a.shellBuf)
    ensures ExecuteOutcome(files, a, ask, name) == ExecuteOutcome(files, s, ask, name)
  {
  }

  lemma RefusedStays(files: Files, s: State, ask: Ask, name: seq<Byte>)
    requires Shape(s) && Turnable(s) && (s.block == 0 ==> LowestFree(s.flags) <= 3)
    requires LowestFree(s.flags) == -1 || !ask.present
    ensures ExecuteOutcome(files, s, ask, name) == Refused && ExecuteStep(files, s, ask, name) == s
  {
  }

  lemma ExecuteOutcomes(files: Files, s: State, m: M.Machine, ask: Ask, name: seq<Byte>)
    requires Core(s, m)
    ensures ExecuteOutcome(files, s, ask, name) == Launched <==> M.Starts(files, m, ask, name)
    ensures ExecuteOutcome(files, s, ask, name) != Refused ==> LowestFree(s.flags) == M.Spare(m.stacks) <= 6
  {
    CallerTerm(s, m);
    FreeSlotChoice(s.flags, m.stacks, m.cur);
    FreeSlotExists(s.pcbs[s.block].fds);
    assert m.procs[s.block].fds == s.pcbs[s.block].fds;
  }

  lemma PushLinks(pcbs: seq<Pcb>, stacks: seq<seq<nat>>, t: nat, p: nat, pcb: Pcb)
    requires M.StacksOk(stacks) && |pcbs| == NUM_PROC && LinksOk(pcbs, stacks)
    requires t < TERM_NUM && p < NUM_PROC && M.PlaceOf(stacks, p) == M.Off
    requires pcb.pid == p && pcb.term == t && pcb.parent == if stacks[t] == [] then 0 else M.Last(stacks[t])
    requires M.StacksOk(stacks[t := stacks[t] + [p]])
    ensures LinksOk(pcbs[p := pcb], stacks[t := stacks[t] + [p]])
  {
    var more := stacks[t := stacks[t] + [p]];
    forall u, i | 0 <= u < TERM_NUM && 0 <= i < |more[u]|
      ensures LinkFits(pcbs[p := pcb][more[u][i]], more[u], u, i)
    {
      if u != t || i < |stacks[t]| {
        assert M.PlaceOf(stacks, stacks[u][i]) == M.On(u, i);
        assert LinkFits(pcbs[stacks[u][i]], stacks[u], u, i);
      }
    }
  }

  lemma LaunchScreens(s: State, m: M.Machine, p: nat)
    requires Refines(s, m) && 0 < p < NUM_PROC && TermFor(s, p) == m.cur && M.Ok(M.Push(m, p))
    ensures ScreensOk(Launch(s, p), M.Push(m, p))
  {
  }

  lemma LaunchRefines(s: State, m: M.Machine)
    requires Refines(s, m) && M.Spare(m.stacks) <= 6
    ensures TermFor(s, M.Spare(m.stacks)) == m.cur
    ensures Refines(Launch(s, M.Spare(m.stacks)), M.Push(m, M.Spare(m.stacks)))
  {
    var p := M.Spare(m.stacks);
    CallerTerm(s, m);
    PushFlags(s.flags, m.stacks, m.cur, p);
    M.PushStacks(m.stacks, m.cur, p);
    var r := Launch(s, p);
    var q := M.Push(m, p);
    assert M.Ok(q);
    assert ProcsOk(r.pcbs, q.procs);
    assert ScreensOk(r, q) by { LaunchScreens(s, m, p); }
    PushLinks(s.pcbs, m.stacks, m.cur, p, r.pcbs[p]);
    Windows(s.space, p, s.curTerm, m.cur, 0);
    Windows(MapImage(s.space, p), p, s.curTerm, m.cur, 0);
  }

  /** A refused program leaves the whole machine as it was: image window put back, same text page. */
  lemma RejectRefines(s: State, m: M.Machine)
    requires Refines(s, m) && M.Spare(m.stacks) <= 6
    ensures TermFor(s, M.Spare(m.stacks)) == m.cur
    ensures Refines(Reject(s, M.Spare(m.stacks)), m)
  {
    var p := M.Spare(m.stacks);
    CallerTerm(s, m);
    Windows(s.space, p, s.curTerm, m.cur, 0);
    Windows(MapImage(s.space, p), p, s.curTerm, m.cur, 0);
    Windows(MapText(MapImage(s.space, p), s.curTerm, m.cur, 0), s.block, s.curTerm, m.cur, 0);
  }

  lemma ExecuteRefines(files: Files, s: State, m: M.Machine, ask: Ask, name: seq<Byte>)
    requires Refines(s, m)
    ensures Steppable(s) && Refines(ExecuteStep(files, s, ask, name), M.Execute(files, m, ask, name))
  {
    CoreSteppable(s, m);
    CallerTerm(s, m);
    ExecuteOutcomes(files, s, m, ask, name);
    match ExecuteOutcome(files, s, ask, name)
    case Refused =>
    case NotExecutable => RejectRefines(s, m);
    case Launched => LaunchRefines(s, m);
  }

  lemma ShellStacks(stacks: seq<seq<nat>>, t: nat)
    requires M.StacksOk(stacks) && t < TERM_NUM && |stacks[t]| <= 1
    ensures M.StacksOk(stacks[t := [t + 1]])
  {
    if stacks[t] == [] {
      M.OpenStacks(stacks, t);
    } else {
      assert M.SlotFits(stacks[t][0], t, 0);
      assert stacks[t] == [t + 1];
      assert stacks[t := [t + 1]] == stacks;
    }
  }

  lemma ShellLinks(pcbs: seq<Pcb>, stacks: seq<seq<nat>>, t: nat, pcb: Pcb)
    requires M.StacksOk(stacks) && |pcbs| == NUM_PROC && LinksOk(pcbs, stacks) && t < TERM_NUM && |stacks[t]| <= 1
    requires pcb.pid == t + 1 && pcb.term == t && pcb.parent == 0
    requires M.StacksOk(stacks[t := [t + 1]])
    ensures LinksOk(pcbs[t + 1 := pcb], stacks[t := [t + 1]])
  {
  }

  /** Execute of the shell from slot 0, with terminal t's own slot just freed, takes exactly that slot. */
  lemma ShellRefines(files: Files, s: State, flags: seq<nat>, m: M.Machine, t: nat, start: Start)
    requires ShellLoads(files) && Shape(s) && Turnable(s) && s.block == 0 && t < TERM_NUM
    requires M.StacksOk(m.stacks) && |m.stacks[t]| <= 1 && |m.procs| == NUM_PROC && M.Ok(M.FreshShell(m, t))
    requires FlagsOk(flags, m.stacks, m.cur) && s.flags == flags[t + 1 := FREE]
    requires LinksOk(s.pcbs, m.stacks)
    requires ProcsOk(s.pcbs, m.procs[t + 1 := M.Proc(s.pcbs[t + 1].ctx, s.pcbs[t + 1].fds)])
    requires m.procs[t + 1].ctx == s.pcbs[t + 1].ctx
    requires s.curTerm == m.shown
    requires forall u :: 0 <= u < TERM_NUM ==>
      (u != t ==> (s.started[u] <==> m.stacks[u] != [])) && m.screens[u] == LogicalScreen(s, u)
    ensures LowestFree(s.flags) == t + 1
    ensures Refines(StartShell(files, s, start), M.FreshShell(m, t))
  {
    var q := M.FreshShell(m, t);
    ShellFlags(flags, m.stacks, m.cur, t);
    ShellStacks(m.stacks, t);
    FreeSlotExists(s.pcbs[0].fds);
    assert s.pcbs[0].fds[2] == Closed;
    var r := StartShell(files, s, start);
    assert r == Launch(Stored(s, Ask(true, start.stale), ShellLine(start.junk)), t + 1);
    ShellLinks(s.pcbs, m.stacks, t, r.pcbs[t + 1]);
    Windows(s.space, t + 1, s.curTerm, t, 0);
    Windows(MapImage(s.space, t + 1), t + 1, s.curTerm, t, 0);
  }

  // ------------------------------------------------------------------ halt, tick, switch

  lemma PopLinks(pcbs: seq<Pcb>, stacks: seq<seq<nat>>, t: nat)
    requires M.StacksOk(stacks) && |pcbs| == NUM_PROC && LinksOk(pcbs, stacks) && t < TERM_NUM && stacks[t] != []
    requires M.StacksOk(stacks[t := stacks[t][..|stacks[t]| - 1]])
    ensures LinksOk(pcbs, stacks[t := stacks[t][..|stacks[t]| - 1]])
  {
    var less := stacks[t := stacks[t][..|stacks[t]| - 1]];
    forall u, i | 0 <= u < TERM_NUM && 0 <= i < |less[u]| ensures LinkFits(pcbs[less[u][i]], less[u], u, i) {
      assert LinkFits(pcbs[stacks[u][i]], stacks[u], u, i);
    }
  }

  /** Changes of saved contexts and descriptors leave the links alone. */
  lemma SameLinks(a: seq<Pcb>, b: seq<Pcb>, stacks: seq<seq<nat>>)
    requires M.StacksOk(stacks) && |a| == NUM_PROC && |b| == NUM_PROC && LinksOk(a, stacks)
    requires forall p :: 0 <= p < NUM_PROC ==>
      a[p].pid == b[p].pid && a[p].term == b[p].term && a[p].parent == b[p].parent
    ensures LinksOk(b, stacks)
  {
    forall u, i | 0 <= u < TERM_NUM && 0 <= i < |stacks[u]| ensures LinkFits(b[stacks[u][i]], stacks[u], u, i) {
      assert LinkFits(a[stacks[u][i]], stacks[u], u, i);
    }
  }

  /** Where the running process and its parent sit. */
  lemma ParentPlace(s: State, m: M.Machine)
    requires Core(s, m) && |m.stacks[m.cur]| > 1
    ensures var stack := m.stacks[m.cur]; var p := stack[|stack| - 1]; var q := stack[|stack| - 2];
      s.block == p && 0 < p < NUM_PROC && 0 < q < NUM_PROC && p != q &&
      s.pcbs[p].term == m.cur && s.pcbs[p].parent == q && s.pcbs[q].term == m.cur
  {
    var stack := m.stacks[m.cur];
    var n := |stack| - 1;
    CallerTerm(s, m);
    assert M.PlaceOf(m.stacks, stack[n]) == M.On(m.cur, n);
    assert M.PlaceOf(m.stacks, stack[n - 1]) == M.On(m.cur, n - 1);
    assert M.SlotFits(stack[n], m.cur, n) && M.SlotFits(stack[n - 1], m.cur, n - 1);
    assert LinkFits(s.pcbs[stack[n - 1]], stack, m.cur, n - 1);
  }

  lemma HaltProcs(pcbs: seq<Pcb>, procs: seq<M.Proc>, p: nat, q: nat, status: int)
    requires ProcsOk(pcbs, procs) && 0 < p < NUM_PROC && 0 < q < NUM_PROC && p != q && |pcbs[p].fds| == 8
    ensures ProcsOk(
      pcbs[p := pcbs[p].(fds := CloseFiles(pcbs[p].fds))][q := pcbs[q].(ctx := pcbs[q].ctx.(eax := status))],
      procs[p := M.Proc(procs[p].ctx, CloseFiles(procs[p].fds))]
           [q := M.Proc(procs[q].ctx.(eax := status), procs[q].fds)])
  {
  }

  lemma ReturnFlags(s: State, m: M.Machine, q: nat, status: int)
    requires Refines(s, m) && |m.stacks[m.cur]| > 1
    requires s.block != 0 && q == m.stacks[m.cur][|m.stacks[m.cur]| - 2] && 0 < q < NUM_PROC
    ensures FlagsOk(ReturnTo(Release(s), q, status).flags, M.Pop(m, status).stacks, m.cur)
  {
    ParentPlace(s, m);
    PopFlags(s.flags, m.stacks, m.cur, if m.cur == s.curTerm then RUNNING else READY);
  }

  lemma ReturnLinks(s: State, m: M.Machine, q: nat, status: int)
    requires Refines(s, m) && |m.stacks[m.cur]| > 1
    requires s.block != 0 && q == m.stacks[m.cur][|m.stacks[m.cur]| - 2] && 0 < q < NUM_PROC
    requires M.StacksOk(M.Pop(m, status).stacks)
    ensures LinksOk(ReturnTo(Release(s), q, status).pcbs, M.Pop(m, status).stacks)
  {
    var r := ReturnTo(Release(s), q, status);
    SameLinks(s.pcbs, r.pcbs, m.stacks);
    PopLinks(r.pcbs, m.stacks, m.cur);
  }

  lemma ReturnRefines(s: State, m: M.Machine, status: int)
    requires Refines(s, m) && s.block != 0 && |m.stacks[m.cur]| > 1
    ensures 0 < m.stacks[m.cur][|m.stacks[m.cur]| - 2] < NUM_PROC
    ensures Refines(ReturnTo(Release(s), m.stacks[m.cur][|m.stacks[m.cur]| - 2], status), M.Pop(m, status))
  {
    var q := m.stacks[m.cur][|m.stacks[m.cur]| - 2];
    ParentPlace(s, m);
    M.PopOk(m, status);
    ReturnFlags(s, m, q, status);
    ReturnLinks(s, m, q, status);
    HaltProcs(s.pcbs, m.procs, s.block, q, status);
    Windows(s.space, q, s.curTerm, m.cur, 0);
    SameScreens(s, ReturnTo(Release(s), q, status), m, M.Pop(m, status));
  }

  /** Steps that touch no page, no cursor and no terminal keep every screen. */
  lemma SameScreens(s: State, r: State, m: M.Machine, q: M.Machine)
    requires Shape(s) && Shape(r) && M.Ok(m) && M.Ok(q) && ScreensOk(s, m)
    requires r.video == s.video && r.dumps == s.dumps && r.xs == s.xs && r.ys == s.ys && r.curTerm == s.curTerm
    requires r.started == s.started && q.shown == m.shown && q.screens == m.screens
    requires forall t :: 0 <= t < TERM_NUM ==> (m.stacks[t] != [] <==> q.stacks[t] != [])
    ensures ScreensOk(r, q)
  {
  }

  lemma HaltRefines(files: Files, s: State, m: M.Machine, status: int, start: Start)
    requires Refines(s, m) && ShellLoads(files)
    ensures Steppable(s) && Refines(HaltStep(files, s, status, start), M.Halt(m, status))
  {
    CoreSteppable(s, m);
    CallerTerm(s, m);
    if |m.stacks[m.cur]| > 1 {
      ReturnRefines(s, m, status);
    } else {
      RestartRefines(files, s, m, start);
    }
  }

  /** A halting shell is replaced in its own slot, on its own terminal. */
  lemma RestartRefines(files: Files, s: State, m: M.Machine, start: Start)
    requires Refines(s, m) && s.block != 0 && ShellLoads(files) && |m.stacks[m.cur]| == 1
    ensures Shape(Release(s).(block := 0)) && Turnable(Release(s).(block := 0))
    ensures LowestFree(Release(s).flags) == s.block == m.cur + 1
    ensures Refines(StartShell(files, Release(s).(block := 0), start), M.FreshShell(m, m.cur))
  {
    CoreSteppable(s, m);
    CallerTerm(s, m);
    var t := m.cur;
    assert M.SlotFits(m.stacks[t][0], t, 0);
    var a := Release(s).(block := 0);
    SameLinks(s.pcbs, a.pcbs, m.stacks);
    M.RestartOk(m);
    forall u | 0 <= u < TERM_NUM ensures LogicalScreen(a, u) == LogicalScreen(s, u) {}
    ShellRefines(files, a, s.flags, m, t, start);
  }

  lemma TickRefines(s: State, m: M.Machine)
    requires Refines(s, m)
    ensures Steppable(s) && Refines(TickStep(s), M.Tick(m))
  {
    CoreSteppable(s, m);
    TickChoice(s.flags, m.stacks, m.cur);
    var next := M.Sooner(m.stacks, M.Running(m), (m.cur + 1) % TERM_NUM, (m.cur + 2) % TERM_NUM);
    if m.stacks[next] != [] {
      TickTo(s, m, next);
      assert M.Tick(m) == m.(cur := next);
    } else {
      assert M.Tick(m) == m && TickStep(s) == s;
    }
  }

  lemma TickTo(s: State, m: M.Machine, next: nat)
    requires Refines(s, m) && Turnable(s) && next < TERM_NUM && next != m.cur && m.stacks[next] != []
    requires NextReady(s.flags, s.block) == M.Last(m.stacks[next])
    ensures Refines(TickStep(s), m.(cur := next))
  {
    var i := |m.stacks[next]| - 1;
    var p := m.stacks[next][i];
    assert M.SlotFits(p, next, i);
    assert LinkFits(s.pcbs[p], m.stacks[next], next, i);
    var r := TickStep(s);
    var q := m.(cur := next);
    TickFlags(s.flags, m.stacks, m.cur, next);
    SameScreens(s, r, m, q);
    Windows(s.space, p, s.curTerm, next, 3);
    Windows(MapImage(s.space, p), p, s.curTerm, next, 3);
    assert ContextOk(r, p, next);
  }

  lemma SwitchRefines(files: Files, s: State, m: M.Machine, term: int, start: Start)
    requires Refines(s, m) && ShellLoads(files)
    ensures Steppable(s) && Refines(SwitchStep(files, s, term, start), M.Switch(m, term))
  {
    CoreSteppable(s, m);
    if 0 <= term < TERM_NUM {
      CallerTerm(s, m);
      var a := ShowTerminal(s, term);
      forall u | 0 <= u < TERM_NUM ensures LogicalScreen(a, u) == LogicalScreen(s, u) {}
      if m.stacks[term] != [] {
        VideoRegion(s.space);
        Windows(Paging.MapSmall(s.space, VIDEO, VIDEO, 0), s.block, term, m.cur, 3);
      } else {
        OpenRefines(files, s, m, term, start);
      }
    }
  }

  /** Showing a terminal never used: its screen is blanked and a shell is started for it in its own slot. */
  lemma OpenRefines(files: Files, s: State, m: M.Machine, term: nat, start: Start)
    requires Refines(s, m) && Steppable(s) && ShellLoads(files) && term < TERM_NUM && m.stacks[term] == []
    ensures Refines(SwitchStep(files, s, term, start), M.Switch(m, term))
  {
    hide StartShell;
    CallerTerm(s, m);
    var a := ShowTerminal(s, term);
    forall u | 0 <= u < TERM_NUM ensures LogicalScreen(a, u) == LogicalScreen(s, u) {}
    var b := a.(video := Zeros(CELLS), flags := a.flags[term + 1 := FREE], block := 0,
                started := a.started[term := true]);
    var n := m.(shown := term,
                screens := m.screens[term := Screen(Zeros(CELLS), m.screens[term].x, m.screens[term].y)]);
    M.SwitchOk(m, term);
    assert M.FreshShell(n, term) == M.Switch(m, term);
    ShellRefines(files, b, s.flags, n, term, start);
  }

  lemma VideoRegion(space: Paging.Space)
    ensures Paging.MapSmall(space, VIDEO, VIDEO, 0)[Paging.RegionOf(MB128)] == space[Paging.RegionOf(MB128)]
  {
  }

  // ------------------------------------------------------------------ steps on one screen or one control block

  lemma WindowShowsCaller(s: State, m: M.Machine)
    requires Refines(s, m)
    ensures WindowFrame(s.space) == TextFrame(s.curTerm, m.cur)
    ensures PageAt(s, WindowFrame(s.space)) == m.screens[m.cur].cells
  {
  }

  lemma DrawRefines(s: State, m: M.Machine, t: nat, scr: Screen)
    requires Refines(s, m) && t < TERM_NUM && scr.Valid()
    ensures Refines(PutScreen(s, TextFrame(s.curTerm, t), t, scr), M.Draw(m, t, scr))
  {
    DrawnScreens(s, t, scr);
  }

  /** Writing the page behind terminal t's text changes terminal t's screen and no other. */
  lemma DrawnScreens(s: State, t: nat, scr: Screen)
    requires Shape(s) && t < TERM_NUM && scr.Valid()
    ensures var r := PutScreen(s, TextFrame(s.curTerm, t), t, scr);
      (forall u :: 0 <= u < TERM_NUM ==> LogicalScreen(r, u) == if u == t then scr else LogicalScreen(s, u)) &&
      r == s.(video := r.video, dumps := r.dumps, xs := r.xs, ys := r.ys)
  {
  }

  lemma SetProcRefines(s: State, m: M.Machine, pcb: Pcb)
    requires Refines(s, m) && |pcb.fds| == 8
    requires pcb == s.pcbs[s.block].(ctx := pcb.ctx, fds := pcb.fds)
    ensures Refines(s.(pcbs := s.pcbs[s.block := pcb]), M.SetProc(m, M.Proc(pcb.ctx, pcb.fds)))
  {
    CallerTerm(s, m);
    SameLinks(s.pcbs, s.pcbs[s.block := pcb], m.stacks);
  }

  // ------------------------------------------------------------------ every step, every run

  /** The one request the kernel grants wrongly: a program off display must not ask for the video page. */
  predicate Permitted(m: M.Machine, e: Event) {
    e.Vidmap? ==> m.cur == m.shown
  }

  lemma VidmapRefines(s: State, m: M.Machine)
    requires Refines(s, m)
    ensures Refines(VidmapStep(s), m) <==> m.cur == m.shown
  {
    VidmapWindow(s.space);
  }

  lemma VidmapWindow(space: Paging.Space)
    ensures var r := Paging.MapSmall(space, VIDEO, MB132, 3);
      WindowOk(r, VIDEO) && r[Paging.RegionOf(MB128)] == space[Paging.RegionOf(MB128)]
  {
    assert VIDEO % Paging.KB4 == 0;
  }

  lemma ScreenStepRefines(files: Files, s: State, m: M.Machine, e: Event)
    requires Refines(s, m) && Steppable(s) && (e.Print? || e.Echo? || e.Erase? || e.ClearScreen?)
    ensures Refines(Step(files, s, e), M.Next(files, m, e))
  {
    hide PutChar, EraseBack, Blank, PutScreen;
    match e
    case Print(c) =>
      CallerTerm(s, m);
      WindowShowsCaller(s, m);
      DrawRefines(s, m, m.cur, PutChar(m.screens[m.cur], c));
    case Echo(c) => DrawRefines(s, m, m.shown, PutChar(m.screens[m.shown], c));
    case Erase => DrawRefines(s, m, m.shown, EraseBack(m.screens[m.shown]));
    case ClearScreen => DrawRefines(s, m, m.shown, Blank());
  }

  /** One kernel step does what one machine step does. */
  lemma StepRefines(files: Files, s: State, m: M.Machine, e: Event)
    requires Refines(s, m) && ShellLoads(files) && Permitted(m, e)
    ensures Steppable(s) && Refines(Step(files, s, e), M.Next(files, m, e))
  {
    CoreSteppable(s, m);
    CallerTerm(s, m);
    match e
    case Trap(regs) => SetProcRefines(s, m, s.pcbs[s.block].(ctx := regs));
    case Execute(ask, line) =>
      BufferIsApart(s, m, Stored(s, ask, line).shellBuf);
      ExecuteRefines(files, Stored(s, ask, line), m, ask, CommandLine.Word(line));
    case Halt(status, start) => HaltRefines(files, s, m, status, start);
    case Tick => TickRefines(s, m);
    case Switch(term, start) => SwitchRefines(files, s, m, term, start);
    case Print(_) => ScreenStepRefines(files, s, m, e);
    case Echo(_) => ScreenStepRefines(files, s, m, e);
    case Erase => ScreenStepRefines(files, s, m, e);
    case ClearScreen => ScreenStepRefines(files, s, m, e);
    case OpenFile(present, name) =>
      SetProcRefines(s, m, s.pcbs[s.block].(fds := AfterOpen(files, s.pcbs[s.block].fds, present, name)));
    case CloseFile(fd) =>
      SetProcRefines(s, m, s.pcbs[s.block].(fds := AfterClose(s.pcbs[s.block].fds, fd)));
    case ReadFile(fd, moved) =>
      SetProcRefines(s, m, s.pcbs[s.block].(fds := AfterRead(s.pcbs[s.block].fds, fd, moved)));
    case Vidmap => VidmapRefines(s, m);
  }
}
