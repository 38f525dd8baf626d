/** Vidmap called by a program off display gives it the displayed terminal's page. What such a request cannot upset:
    processes, parent links, kernel stacks and program images stay as promised whatever the text window shows. */
module Background {
  import opened Screens
  import opened Processes
  import opened Refinement
  import Paging
  import CommandLine
  import M = Machine

  // ------------------------------------------------------------------ states that differ on the text side only

  /** The two states differ at most in the text pages and in mappings other than the image window. */
  ghost predicate Alike(s: State, r: State) {
    && Shape(s) && Shape(r)
    && r == s.(space := r.space, video := r.video, dumps := r.dumps)
    && r.space[Paging.RegionOf(MB128)] == s.space[Paging.RegionOf(MB128)]
  }

  lemma ExecuteAlike(files: Files, s: State, r: State, ask: Ask, name: seq<Byte>)
    requires Alike(s, r) && Turnable(s) && (s.block == 0 ==> LowestFree(s.flags) <= 3)
    ensures Turnable(r) && Alike(ExecuteStep(files, s, ask, name), ExecuteStep(files, r, ask, name))
  {
  }

  lemma StartAlike(files: Files, s: State, r: State, start: Start)
    requires Alike(s, r) && Turnable(s) && s.block == 0 && LowestFree(s.flags) <= 3
    ensures Turnable(r) && Alike(StartShell(files, s, start), StartShell(files, r, start))
  {
    hide ExecuteStep, ShellLine;
    var ask, line := Ask(true, start.stale), ShellLine(start.junk);
    ExecuteAlike(files, Stored(s, ask, line), Stored(r, ask, line), ask, SHELL);
  }

  lemma HaltAlike(files: Files, s: State, r: State, status: int, start: Start)
    requires Alike(s, r) && Steppable(s)
    ensures Steppable(r) && Alike(HaltStep(files, s, status, start), HaltStep(files, r, status, start))
  {
    hide StartShell;
    if s.pcbs[s.block].parent == 0 {
      var a, b := Release(s), Release(r);
      assert a.flags[s.block] == FREE;
      StartAlike(files, a.(block := 0), b.(block := 0), start);
    }
  }

  lemma SwitchAlike(files: Files, s: State, r: State, term: int, start: Start)
    requires Alike(s, r) && Steppable(s)
    ensures Steppable(r) && Alike(SwitchStep(files, s, term, start), SwitchStep(files, r, term, start))
  {
    hide StartShell;
    if 0 <= term < TERM_NUM && !s.started[term] {
      var a, b := Opened(s, term), Opened(r, term);
      assert a.flags[term + 1] == FREE && b.flags[term + 1] == FREE;
      StartAlike(files, a, b, start);
    }
  }

  /** The state in which the shell of a terminal never used is started. */
  function Opened(s: State, term: nat): (r: State)
    requires Shape(s) && term < TERM_NUM && s.pcbs[s.block].term < TERM_NUM
    ensures Shape(r)
  {
    var a := ShowTerminal(s, term);
    a.(video := Zeros(CELLS), flags := a.flags[term + 1 := FREE], block := 0, started := a.started[term := true])
  }

  lemma TickAlike(s: State, r: State)
    requires Alike(s, r) && Turnable(s)
    ensures Turnable(r) && Alike(TickStep(s), TickStep(r))
  {
  }

  /** What is printed where does not matter to where the cursor goes. */
  lemma PutAlike(a: seq<Byte>, b: seq<Byte>, x: nat, y: nat, c: Byte)
    requires Screen(a, x, y).Valid() && Screen(b, x, y).Valid()
    ensures PutChar(Screen(a, x, y), c).x == PutChar(Screen(b, x, y), c).x
    ensures PutChar(Screen(a, x, y), c).y == PutChar(Screen(b, x, y), c).y
    ensures EraseBack(Screen(a, x, y)).x == EraseBack(Screen(b, x, y)).x
    ensures EraseBack(Screen(a, x, y)).y == EraseBack(Screen(b, x, y)).y
  {
  }

  lemma DrawnAlike(s: State, r: State, f: int, g: int, t: nat, a: Screen, b: Screen)
    requires Alike(s, r) && t < TERM_NUM && a.Valid() && b.Valid() && a.x == b.x && a.y == b.y
    ensures Alike(PutScreen(s, f, t, a), PutScreen(r, g, t, b))
  {
  }

  lemma PrintAlike(s: State, r: State, c: Byte)
    requires Alike(s, r) && s.pcbs[s.block].term < TERM_NUM
    ensures Alike(PrintStep(s, c), PrintStep(r, c))
  {
    hide Alike, PutChar, PutScreen, WindowFrame;
    SameCursor(s, r);
    var t, f, g := s.pcbs[s.block].term, WindowFrame(s.space), WindowFrame(r.space);
    PutAlike(PageAt(s, f), PageAt(r, g), s.xs[t], s.ys[t], c);
    var drawn := PutChar(Screen(PageAt(s, f), s.xs[t], s.ys[t]), c);
    var shadow := PutChar(Screen(PageAt(r, g), s.xs[t], s.ys[t]), c);
    DrawnAlike(s, r, f, g, t, drawn, shadow);
  }

  lemma SameCursor(s: State, r: State)
    requires Alike(s, r)
    ensures Shape(s) && Shape(r) && r.xs == s.xs && r.ys == s.ys && r.curTerm == s.curTerm
    ensures r.pcbs == s.pcbs && r.block == s.block
  {
  }

  lemma DisplayAlike(s: State, r: State, c: Byte)
    requires Alike(s, r)
    ensures Alike(EchoStep(s, c), EchoStep(r, c))
    ensures Alike(EraseStep(s), EraseStep(r)) && Alike(ClearStep(s), ClearStep(r))
  {
    hide Alike, PutChar, EraseBack, PutScreen;
    SameCursor(s, r);
    var t := s.curTerm;
    PutAlike(s.video, r.video, s.xs[t], s.ys[t], c);
    DrawnAlike(s, r, VIDEO, VIDEO, t, PutChar(Shown(s), c), PutChar(Shown(r), c));
    DrawnAlike(s, r, VIDEO, VIDEO, t, EraseBack(Shown(s)), EraseBack(Shown(r)));
    DrawnAlike(s, r, VIDEO, VIDEO, t, Blank(), Blank());
  }

  /** Such states stay alike through every step. */
  lemma StepAlike(files: Files, s: State, r: State, e: Event)
    requires Alike(s, r) && Steppable(s)
    ensures Steppable(r) && Alike(Step(files, s, e), Step(files, r, e))
  {
    hide ExecuteStep, HaltStep, SwitchStep, TickStep, PrintStep, EchoStep, EraseStep, ClearStep;
    match e
    case Execute(ask, line) =>
      ExecuteAlike(files, Stored(s, ask, line), Stored(r, ask, line), ask, CommandLine.Word(line));
    case Halt(status, start) => HaltAlike(files, s, r, status, start);
    case Tick => TickAlike(s, r);
    case Switch(term, start) => SwitchAlike(files, s, r, term, start);
    case Print(c) => PrintAlike(s, r, c);
    case Echo(c) => DisplayAlike(s, r, c);
    case Erase => DisplayAlike(s, r, 0);
    case ClearScreen => DisplayAlike(s, r, 0);
    case _ =>
  }

  // ------------------------------------------------------------------ the core of the relation

  /** The state with the text window put right, and the machine with the screens as they are. */
  function Mended(s: State, t: nat): (r: State)
    requires Shape(s) && t < TERM_NUM
    ensures Alike(s, r)
  {
    var page := Paging.Page(TextFrame(s.curTerm, t), true);
    s.(space := s.space[Paging.RegionOf(MB132) := Paging.Small(true, map[Paging.PageOf(MB132) := page])])
  }

  function AsShown(s: State, m: M.Machine): M.Machine
    requires Shape(s)
  {
    m.(screens := [LogicalScreen(s, 0), LogicalScreen(s, 1), LogicalScreen(s, 2)])
  }

  lemma MendedRefines(s: State, m: M.Machine)
    requires Core(s, m)
    ensures Refines(Mended(s, m.cur), AsShown(s, m))
  {
    var r := Mended(s, m.cur);
    forall t | 0 <= t < TERM_NUM ensures LogicalScreen(r, t) == LogicalScreen(s, t) {}
  }

  lemma NextAlike(files: Files, m: M.Machine, q: M.Machine, e: Event)
    requires M.Ok(m) && M.Ok(q) && q == m.(screens := q.screens)
    ensures var a, b := M.Next(files, m, e), M.Next(files, q, e); b == a.(screens := b.screens)
  {
    match e
    case Execute(ask, line) => StartsAlike(files, m, q, ask, CommandLine.Word(line));
    case _ =>
  }

  lemma StartsAlike(files: Files, m: M.Machine, q: M.Machine, ask: Ask, name: seq<Byte>)
    requires M.Ok(m) && M.Ok(q) && q == m.(screens := q.screens)
    ensures M.Starts(files, m, ask, name) == M.Starts(files, q, ask, name)
  {
    assert M.Running(m) == M.Running(q);
    assert m.procs[M.Running(m)].fds == q.procs[M.Running(q)].fds;
  }

  lemma AlikeCore(s: State, r: State, m: M.Machine, q: M.Machine)
    requires Alike(s, r) && M.Ok(m) && Core(r, q) && q == m.(screens := q.screens)
    ensures Core(s, m)
  {
  }

  lemma RefinesCore(s: State, m: M.Machine)
    requires Refines(s, m)
    ensures Core(s, m)
  {
  }

  /** Every step from every state, whatever was asked before and is asked now, keeps the core. */
  lemma StepKeepsCore(files: Files, s: State, m: M.Machine, e: Event)
    requires Core(s, m) && ShellLoads(files)
    ensures Steppable(s) && Core(Step(files, s, e), M.Next(files, m, e))
  {
    hide Step, M.Next, Mended, AsShown;
    CoreSteppable(s, m);
    M.NextOk(files, m, e);
    if e.Vidmap? {
      VidmapKeepsCore(files, s, m);
    } else {
      MendedRefines(s, m);
      var r, q := Mended(s, m.cur), AsShown(s, m);
      ShownAlike(s, m);
      StepRefines(files, r, q, e);
      StepAlike(files, s, r, e);
      NextAlike(files, m, q, e);
      RefinesCore(Step(files, r, e), M.Next(files, q, e));
      AlikeCore(Step(files, s, e), Step(files, r, e), M.Next(files, m, e), M.Next(files, q, e));
    }
  }

  lemma ShownAlike(s: State, m: M.Machine)
    requires Shape(s)
    ensures AsShown(s, m) == m.(screens := AsShown(s, m).screens)
  {
  }

  lemma VidmapKeepsCore(files: Files, s: State, m: M.Machine)
    requires Core(s, m) && Steppable(s)
    ensures Core(Step(files, s, Vidmap), M.Next(files, m, Vidmap))
  {
  }

  // ------------------------------------------------------------------ the text window

  /** Every step keeps the text window on the caller's own page or on the displayed page. */
  ghost predicate WindowHeld(s: State)
    requires Shape(s)
  {
    && s.pcbs[s.block].term < TERM_NUM
    && (WindowOk(s.space, TextFrame(s.curTerm, s.pcbs[s.block].term)) || WindowOk(s.space, VIDEO))
  }

  lemma RefinesWindow(s: State, m: M.Machine)
    requires Refines(s, m)
    ensures WindowHeld(s)
  {
    CallerTerm(s, m);
  }

  /** A step that is no vidmap and leaves the text window alone also leaves the caller and the display. */
  lemma WindowLeft(s: State, r: State)
    requires Shape(s) && Shape(r) && WindowHeld(s)
    requires r.space[Paging.RegionOf(MB132)] == s.space[Paging.RegionOf(MB132)]
    requires r.curTerm == s.curTerm && r.pcbs[r.block].term == s.pcbs[s.block].term
    ensures WindowHeld(r)
  {
  }

  lemma ExecuteHeld(files: Files, s: State, ask: Ask, name: seq<Byte>)
    requires Shape(s) && Turnable(s) && s.block != 0 && WindowHeld(s)
    ensures WindowHeld(ExecuteStep(files, s, ask, name))
  {
    if ExecuteOutcome(files, s, ask, name) != Refused {
      var p := LowestFree(s.flags);
      var t := TermFor(s, p);
      Windows(s.space, p, s.curTerm, t, 0);
      Windows(MapImage(s.space, p), p, s.curTerm, t, 0);
      Windows(MapText(MapImage(s.space, p), s.curTerm, t, 0), s.block, s.curTerm, t, 0);
    }
  }

  lemma StartHeld(files: Files, s: State, start: Start)
    requires ShellLoads(files) && Shape(s) && Turnable(s) && s.block == 0 && 1 <= LowestFree(s.flags) <= 3
    requires s.pcbs[0].fds == StdFds()
    ensures WindowHeld(StartShell(files, s, start))
  {
    var p := LowestFree(s.flags);
    FreeSlotExists(s.pcbs[0].fds);
    assert s.pcbs[0].fds[2] == Closed;
    assert StartShell(files, s, start) == Launch(Stored(s, Ask(true, start.stale), ShellLine(start.junk)), p);
    Windows(MapImage(s.space, p), p, s.curTerm, p - 1, 0);
  }

  lemma SwitchHeld(files: Files, s: State, m: M.Machine, term: int, start: Start)
    requires Core(s, m) && Steppable(s) && ShellLoads(files) && WindowHeld(s)
    ensures WindowHeld(SwitchStep(files, s, term, start))
  {
    hide StartShell;
    if 0 <= term < TERM_NUM {
      CallerTerm(s, m);
      Windows(Paging.MapSmall(s.space, VIDEO, VIDEO, 0), s.block, term, m.cur, 3);
      if !s.started[term] {
        ShellFlags(s.flags, m.stacks, m.cur, term);
        StartHeld(files, Opened(s, term), start);
      }
    }
  }

  lemma HaltHeld(files: Files, s: State, m: M.Machine, status: int, start: Start)
    requires Core(s, m) && Steppable(s) && ShellLoads(files) && WindowHeld(s)
    ensures WindowHeld(HaltStep(files, s, status, start))
  {
    hide StartShell;
    CallerTerm(s, m);
    if |m.stacks[m.cur]| > 1 {
      ParentPlace(s, m);
      var q := s.pcbs[s.block].parent;
      Windows(s.space, q, s.curTerm, m.cur, 0);
      WindowLeft(s, HaltStep(files, s, status, start));
    } else {
      assert M.SlotFits(m.stacks[m.cur][0], m.cur, 0);
      ShellFlags(s.flags, m.stacks, m.cur, m.cur);
      StartHeld(files, Release(s).(block := 0), start);
    }
  }

  lemma TickHeld(s: State)
    requires Shape(s) && Turnable(s) && WindowHeld(s)
    ensures WindowHeld(TickStep(s))
  {
    var next := NextReady(s.flags, s.block);
    if next != -1 {
      Windows(MapImage(s.space, next), next, s.curTerm, s.pcbs[next].term, 3);
    }
  }

  lemma StepKeepsWindow(files: Files, s: State, m: M.Machine, e: Event)
    requires Core(s, m) && ShellLoads(files) && WindowHeld(s)
    ensures Steppable(s) && WindowHeld(Step(files, s, e))
  {
    hide ExecuteStep, HaltStep, SwitchStep, TickStep;
    CoreSteppable(s, m);
    match e
    case Execute(ask, line) => ExecuteHeld(files, Stored(s, ask, line), ask, CommandLine.Word(line));
    case Halt(status, start) => HaltHeld(files, s, m, status, start);
    case Tick => TickHeld(s);
    case Switch(term, start) => SwitchHeld(files, s, m, term, start);
    case Vidmap => VidmapWindow(s.space);
    case _ => WindowLeft(s, Step(files, s, e));
  }
}
