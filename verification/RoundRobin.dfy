/** Bounded waiting under the timer. */
module RoundRobin {
  import opened Processes
  import opened Refinement
  import opened Runs
  import M = Machine

  /** The processes that take turns: the ready ones and the current one. */
  function Turns(s: State): set<nat>
    requires Shape(s)
  {
    set q: nat | 0 < q < NUM_PROC && (s.flags[q] == READY || q == s.block)
  }

  /** Those passed on the way from the current process to q, q included. */
  function Between(s: State, q: nat): set<nat>
    requires Shape(s) && q < NUM_PROC
  {
    set r | r in Turns(s) && 0 < Ahead(s.block, r) <= Ahead(s.block, q)
  }

  function Ticks(s: State, n: nat): (r: State)
    requires Shape(s) && Turnable(s)
    ensures Shape(r)
    decreases n
  {
    if n == 0 then s else Ticks(TickStep(s), n - 1)
  }

  lemma TickKeepsTurns(s: State)
    requires Shape(s) && Turnable(s) && s.block != 0
    ensures TickStep(s).block != 0 && Turns(TickStep(s)) == Turns(s)
  {
  }

  lemma NextIsOnTheWay(s: State, q: nat)
    requires Shape(s) && Turnable(s) && s.block != 0 && q in Turns(s) && q != s.block
    ensures var next := NextReady(s.flags, s.block);
      next != -1 && next in Turns(s) && 0 < Ahead(s.block, next) <= Ahead(s.block, q) &&
      forall r :: r in Turns(s) ==> r == s.block || Ahead(s.block, next) <= Ahead(s.block, r)
  {
    NextReadyIsNearest(s.flags, s.block);
    AheadDistinct(s.block, s.block);
  }

  lemma TickPassesOne(s: State, q: nat)
    requires Shape(s) && Turnable(s) && s.block != 0 && q in Turns(s) && q != s.block
    ensures TickStep(s).block in Between(s, q)
    ensures Between(TickStep(s), q) == Between(s, q) - {TickStep(s).block}
  {
    NextIsOnTheWay(s, q);
    TickKeepsTurns(s);
    var next := NextReady(s.flags, s.block);
    assert TickStep(s).block == next;
    forall r | r in Turns(s)
      ensures 0 < Ahead(next, r) <= Ahead(next, q) <==> 0 < Ahead(s.block, r) <= Ahead(s.block, q) && r != next
    {
      PassedOnTheWay(s.block, next, q, r);
    }
  }

  /** Stepping to the nearest slot takes that slot, and only that one, off the way to q. */
  lemma PassedOnTheWay(cur: nat, next: nat, q: nat, r: nat)
    requires cur < NUM_PROC && next < NUM_PROC && q < NUM_PROC && r < NUM_PROC
    requires 0 < Ahead(cur, next) <= Ahead(cur, q)
    requires r == cur || Ahead(cur, next) <= Ahead(cur, r)
    ensures 0 < Ahead(next, r) <= Ahead(next, q) <==> 0 < Ahead(cur, r) <= Ahead(cur, q) && r != next
  {
  }

  lemma FewBetween(s: State, q: nat)
    requires Shape(s) && s.block != 0 && q < NUM_PROC
    ensures |Between(s, q)| <= |Turns(s)| - 1
  {
    var others := Turns(s) - {s.block};
    SubsetSize(Between(s, q), others);
    assert |others| == |Turns(s)| - 1;
  }

  /** Bounded waiting: a process whose turn it is to come runs after exactly as many ticks as there are
      processes on the way to it, so within k - 1 ticks when k processes take turns. */
  lemma {:induction false} TurnComes(s: State, q: nat)
    requires Shape(s) && Turnable(s) && s.block != 0 && q in Turns(s)
    ensures Ticks(s, |Between(s, q)|).block == q
    ensures |Between(s, q)| <= |Turns(s)| - 1
    decreases |Between(s, q)|
  {
    hide TickStep;
    FewBetween(s, q);
    if q == s.block {
      assert Between(s, q) == {};
    } else {
      TickPassesOne(s, q);
      TickKeepsTurns(s);
      TurnComes(TickStep(s), q);
    }
  }

  lemma {:induction false} SubsetSize(a: set<nat>, b: set<nat>)
    requires a <= b
    ensures |a| <= |b|
    decreases |a|
  {
    if a != {} {
      var x :| x in a;
      SubsetSize(a - {x}, b - {x});
    }
  }

  /** Besides the running process, only the tops of the other two terminals take turns. */
  lemma OthersAreTops(s: State, m: M.Machine)
    requires Core(s, m)
    ensures |Turns(s) - {s.block}| <= 2
  {
    CallerTerm(s, m);
    var a, b := (m.cur + 1) % TERM_NUM, (m.cur + 2) % TERM_NUM;
    var p := if m.stacks[a] == [] then 0 else M.Last(m.stacks[a]);
    var q := if m.stacks[b] == [] then 0 else M.Last(m.stacks[b]);
    forall r | r in Turns(s) - {s.block} ensures r in {p, q} {
      ReadyAreTops(s.flags, m.stacks, m.cur, r);
    }
    SubsetSize(Turns(s) - {s.block}, {p, q});
  }

  /** In every state of every run from boot, whatever the programs ask, no process waits more than two ticks for
      its turn. */
  lemma AtMostTwoTicks(files: Files, boot: State, run: seq<State>, events: seq<Event>, i: nat, q: nat)
    requires IsBootRun(files, boot, run, events) && i < |run| && 0 < q < NUM_PROC
    ensures Steppable(run[i])
    ensures var s := run[i];
      s.flags[q] == READY || s.flags[q] == RUNNING ==>
        q in Turns(s) && |Between(s, q)| <= 2 && Ticks(s, |Between(s, q)|).block == q
  {
    hide Step, FirstShell;
    var m := BootRunKeepsCore(files, boot, run, events, i);
    if run[i].flags[q] == READY || run[i].flags[q] == RUNNING {
      AtMostTwoBefore(run[i], m, q);
      TurnComes(run[i], q);
    }
  }

  lemma AtMostTwoBefore(s: State, m: M.Machine, q: nat)
    requires Core(s, m) && 0 < q < NUM_PROC && (s.flags[q] == READY || s.flags[q] == RUNNING)
    ensures Steppable(s) && q in Turns(s) && |Between(s, q)| <= 2
  {
    CoreSteppable(s, m);
    assert FlagFits(s.flags[q], m.stacks, q, m.cur);
    OthersAreTops(s, m);
    SubsetSize(Between(s, q), Turns(s) - {s.block});
  }
}
