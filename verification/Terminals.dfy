/** Three independent screens behind one display. */
module Terminals {
  import opened Screens
  import opened Processes
  import opened Refinement
  import opened Runs
  import M = Machine

  /** What a terminal can be sent: a byte, or a backspace. */
  datatype Op = Put(c: Byte) | Back

  /** A screen of its own, on which this and nothing else was done. */
  function Replay(ops: seq<Op>): (s: Screen)
    ensures s.Valid()
  {
    if ops == [] then Blank() else Done(Replay(ops[..|ops| - 1]), ops[|ops| - 1])
  }

  function Done(s: Screen, op: Op): (r: Screen)
    requires s.Valid()
    ensures r.Valid()
  {
    match op
    case Put(c) => PutChar(s, c)
    case Back => EraseBack(s)
  }

  /** One step's effect on what terminal t has been sent since its screen was last cleared. */
  function OpsAfter(s: State, e: Event, t: nat, ops: seq<Op>): seq<Op>
    requires Shape(s) && t < TERM_NUM
  {
    match e
    case Print(c) => if s.pcbs[s.block].term == t then ops + [Put(c)] else ops
    case Echo(c) => if s.curTerm == t then ops + [Put(c)] else ops
    case Erase => if s.curTerm == t then ops + [Back] else ops
    case ClearScreen => if s.curTerm == t then [] else ops
    case Switch(term, _) => if term == t && !s.started[t] then [] else ops
    case _ => ops
  }

  /** What terminal t has been sent in the first n steps of a run, since its screen was last cleared. */
  ghost function OpsSent(run: seq<State>, events: seq<Event>, t: nat, n: nat): seq<Op>
    requires n <= |events| < |run| && t < TERM_NUM && forall i :: 0 <= i < |events| ==> Shape(run[i])
  {
    if n == 0 then [] else OpsAfter(run[n - 1], events[n - 1], t, OpsSent(run, events, t, n - 1))
  }

  /** A terminal never used keeps its cursor at the origin; one in use shows what it was sent. */
  ghost predicate ShowsOps(m: M.Machine, t: nat, ops: seq<Op>)
    requires M.Ok(m) && t < TERM_NUM
  {
    if m.stacks[t] == [] then m.screens[t].x == 0 && m.screens[t].y == 0
    else m.screens[t] == Replay(ops)
  }

  lemma ReplayMore(ops: seq<Op>, op: Op)
    ensures Replay(ops + [op]) == Done(Replay(ops), op)
  {
    assert (ops + [op])[..|ops + [op]| - 1] == ops;
  }

  lemma DrawnOps(m: M.Machine, d: nat, scr: Screen, t: nat, before: seq<Op>, ops: seq<Op>)
    requires M.Ok(m) && t < TERM_NUM && d < TERM_NUM && m.stacks[d] != [] && scr.Valid()
    requires ShowsOps(m, t, before)
    requires if t == d then scr == Replay(ops) else ops == before
    ensures M.Ok(M.Draw(m, d, scr)) && ShowsOps(M.Draw(m, d, scr), t, ops)
  {
  }

  lemma OpsDrawn(files: Files, s: State, m: M.Machine, e: Event, t: nat, ops: seq<Op>)
    requires Refines(s, m) && t < TERM_NUM && ShowsOps(m, t, ops)
    requires e.Print? || e.Echo? || e.ClearScreen? || e.Erase?
    ensures M.Ok(M.Next(files, m, e)) && ShowsOps(M.Next(files, m, e), t, OpsAfter(s, e, t, ops))
  {
    hide Replay, PutChar, EraseBack;
    var more := OpsAfter(s, e, t, ops);
    CallerTerm(s, m);
    match e
    case Print(c) =>
      ReplayMore(ops, Put(c));
      DrawnOps(m, m.cur, PutChar(m.screens[m.cur], c), t, ops, more);
    case Echo(c) =>
      ReplayMore(ops, Put(c));
      DrawnOps(m, m.shown, PutChar(m.screens[m.shown], c), t, ops, more);
    case Erase =>
      ReplayMore(ops, Back);
      DrawnOps(m, m.shown, EraseBack(m.screens[m.shown]), t, ops, more);
    case ClearScreen =>
      ReplayNothing();
      DrawnOps(m, m.shown, Blank(), t, ops, more);
  }

  lemma ReplayNothing()
    ensures Replay([]) == Blank()
  {
  }

  lemma OpsKept(files: Files, s: State, m: M.Machine, e: Event, t: nat, ops: seq<Op>)
    requires Refines(s, m) && M.Ok(M.Next(files, m, e)) && t < TERM_NUM && ShowsOps(m, t, ops)
    requires !e.Print? && !e.Echo? && !e.ClearScreen? && !e.Erase?
    ensures ShowsOps(M.Next(files, m, e), t, OpsAfter(s, e, t, ops))
  {
    ScreenIsMachines(s, m, t);
    if e.Switch? {
      ReplayNothing();
    } else {
      KeepsScreens(files, m, e, t);
    }
  }

  lemma KeepsScreens(files: Files, m: M.Machine, e: Event, t: nat)
    requires M.Ok(m) && t < TERM_NUM
    requires !e.Print? && !e.Echo? && !e.ClearScreen? && !e.Erase? && !e.Switch?
    ensures var r := M.Next(files, m, e);
      r.screens == m.screens && |r.stacks| == TERM_NUM && (r.stacks[t] == [] <==> m.stacks[t] == [])
  {
  }

  lemma OpsStep(files: Files, s: State, m: M.Machine, e: Event, t: nat, ops: seq<Op>)
    requires Refines(s, m) && M.Ok(M.Next(files, m, e)) && t < TERM_NUM && ShowsOps(m, t, ops)
    ensures ShowsOps(M.Next(files, m, e), t, OpsAfter(s, e, t, ops))
  {
    hide M.Next, ShowsOps, OpsAfter;
    if e.Print? || e.Echo? || e.ClearScreen? || e.Erase? {
      OpsDrawn(files, s, m, e, t, ops);
    } else {
      OpsKept(files, s, m, e, t, ops);
    }
  }

  lemma {:induction false} OpsHold(files: Files, run: seq<State>, history: seq<M.Machine>, events: seq<Event>, t: nat,
                                   n: nat)
    requires ShellLoads(files) && IsRun(files, run, events) && IsHistory(files, history, events)
    requires AllAllowed(run, events) && Refines(run[0], history[0]) && n <= |events| && t < TERM_NUM
    requires forall i :: 0 <= i < |events| ==> Shape(run[i])
    requires ShowsOps(history[0], t, [])
    ensures Refines(run[n], history[n]) && ShowsOps(history[n], t, OpsSent(run, events, t, n))
  {
    hide M.Next, Step, OpsAfter, ShowsOps;
    RunRefines(files, run, history, events, n);
    if n > 0 {
      OpsHold(files, run, history, events, t, n - 1);
      RunRefines(files, run, history, events, n - 1);
      assert MovesAt(files, history, events, n - 1);
      OpsStep(files, run[n - 1], history[n - 1], events[n - 1], t, OpsSent(run, events, t, n - 1));
    }
  }

  /** Display multiplexing keeps three independent screens. After any run from boot in which vidmap is asked for only
      on display, the logical screen of a started terminal, wherever it is kept, is the screen of a machine on which
      exactly what this terminal was sent since its last clear, bytes and backspaces, was done and nothing else. */
  lemma ScreensAreIndependent(files: Files, boot: State, run: seq<State>, events: seq<Event>, t: nat)
    requires IsBootRun(files, boot, run, events) && AllAllowed(run, events) && t < TERM_NUM
    ensures |run| == |events| + 1 && Shape(run[|events|]) && forall i :: 0 <= i < |events| ==> Shape(run[i])
    ensures run[|events|].started[t] ==>
      LogicalScreen(run[|events|], t) == Replay(OpsSent(run, events, t, |events|))
  {
    hide M.Next, Step, StartShell;
    BootAgrees(files, boot, run[0]);
    var history := HistoryExists(files, BootMachine(boot), events);
    forall i | 0 <= i <= |events| ensures Shape(run[i]) {
      RunRefines(files, run, history, events, i);
    }
    ReplayNothing();
    OpsHold(files, run, history, events, t, |events|);
    ScreenIsMachines(run[|events|], history[|events|], t);
  }

  lemma ScreenIsMachines(s: State, m: M.Machine, t: nat)
    requires Refines(s, m) && t < TERM_NUM
    ensures LogicalScreen(s, t) == m.screens[t] && (s.started[t] <==> m.stacks[t] != [])
  {
  }

  // ------------------------------------------------------------------ the layout of what was sent

  function Bytes(ops: seq<Op>): (text: seq<Byte>)
    requires Back !in ops
    ensures |text| == |ops|
  {
    seq(|ops|, i requires 0 <= i < |ops| => ByteOf(ops, i))
  }

  function ByteOf(ops: seq<Op>, i: nat): Byte
    requires i < |ops| && Back !in ops
  {
    assert ops[i] in ops;
    ops[i].c
  }

  lemma {:induction false} ReplayIsFeed(ops: seq<Op>)
    requires Back !in ops
    ensures Replay(ops) == Feed(Blank(), Bytes(ops))
  {
    if ops != [] {
      var n := |ops| - 1;
      ReplayIsFeed(ops[..n]);
      assert ops[n] in ops;
      assert Bytes(ops)[..n] == Bytes(ops[..n]);
    }
  }

  /** As long as no backspace is among what it was sent, a terminal shows the last 25 rows of the layout of it. */
  lemma ScreensShowTheirText(files: Files, boot: State, run: seq<State>, events: seq<Event>, t: nat)
    requires IsBootRun(files, boot, run, events) && AllAllowed(run, events) && t < TERM_NUM
    ensures |run| == |events| + 1 && Shape(run[|events|]) && forall i :: 0 <= i < |events| ==> Shape(run[i])
    ensures var ops := OpsSent(run, events, t, |events|);
      run[|events|].started[t] && Back !in ops ==> LogicalScreen(run[|events|], t) == Render(Rows(Bytes(ops)))
  {
    ScreensAreIndependent(files, boot, run, events, t);
    var ops := OpsSent(run, events, t, |events|);
    if Back !in ops {
      ReplayIsFeed(ops);
      ScreenShowsLastRows(Bytes(ops));
    }
  }

  /** Only a backspace typed while the terminal itself is on display is among what it was sent. */
  lemma {:induction false} BackspacesGoToTheDisplay(run: seq<State>, events: seq<Event>, t: nat, n: nat)
    requires n <= |events| < |run| && t < TERM_NUM && forall i :: 0 <= i < |events| ==> Shape(run[i])
    requires forall k :: 0 <= k < n && events[k].Erase? ==> run[k].curTerm != t
    ensures Back !in OpsSent(run, events, t, n)
  {
    if n > 0 {
      BackspacesGoToTheDisplay(run, events, t, n - 1);
    }
  }

  /** Showing a terminal that is in use changes where the screens are kept, and none of the three screens. */
  lemma SwitchKeepsScreens(files: Files, s: State, m: M.Machine, term: nat, t: nat, start: Start)
    requires Refines(s, m) && ShellLoads(files) && term < TERM_NUM && t < TERM_NUM && s.started[term]
    ensures Steppable(s)
    ensures var r := SwitchStep(files, s, term, start);
      && r.curTerm == term && r.video == LogicalScreen(s, term).cells
      && LogicalScreen(r, t) == LogicalScreen(s, t) && r.block == s.block
  {
    SwitchRefines(files, s, m, term, start);
  }
}
