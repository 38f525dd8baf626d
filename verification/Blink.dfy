/** Blinking characters: a linked list of elements inside a fixed pool, driven by a countdown tick. */
module Blink {
  import opened Arithmetic
  import opened Screens

  const POOL := 2000
  const NULL := -1

  type Short = n: nat | n < 0x1_0000

  /** One pool structure; next is a pool index or NULL. */
  datatype Slot = Slot(location: Short, onChar: Byte, offChar: Byte, onLength: Short, offLength: Short,
                       countdown: Short, status: Short, next: int)

  const CLEARED := Slot(0, 0, 0, 0, 0, 0, 0, NULL)

  // ------------------------------------------------------------------ one element's clock

  /** Ticks a length lasts: the countdown is decremented before a signed test, so 0 and anything above 32768
      last one tick. */
  function Lasting(length: Short): (n: nat)
    ensures n > 0
  {
    if 1 <= length <= 0x8000 then length else 1
  }

  function Decremented(c: Short): Short {
    if c == 0 then 0xFFFF else c - 1
  }

  predicate SignedPositive(c: Short) {
    1 <= c < 0x8000
  }

  function Flipped(status: Short): Short {
    if status % 2 == 1 then status - 1 else status + 1
  }

  /** What one tick does to one element. */
  function Ticked(x: Slot): (r: Slot)
    ensures r == x.(countdown := r.countdown, status := r.status)
  {
    var c := Decremented(x.countdown);
    if SignedPositive(c) then x.(countdown := c)
    else if x.status % 2 == 1 then x.(countdown := x.offLength, status := Flipped(x.status))
    else x.(countdown := x.onLength, status := Flipped(x.status))
  }

  function Shown(x: Slot): Byte {
    if x.status % 2 == 1 then x.onChar else x.offChar
  }

  /** The element is where it must be n ticks after it was added. */
  predicate InPhase(x: Slot, n: nat) {
    var on, off := Lasting(x.onLength), Lasting(x.offLength);
    var r := n % (on + off);
    if r < on then x.status == 1 && x.countdown == x.onLength - r
    else x.status == 0 && x.countdown == x.offLength - (r - on)
  }

  lemma NextRemainder(n: nat, p: nat)
    requires p > 0
    ensures (n + 1) % p == if n % p + 1 == p then 0 else n % p + 1
  {
    var q, r := n / p, n % p;
    assert n == p * q + r;
    if r + 1 == p {
      assert n + 1 == p * (q + 1);
      QuotientIs(n + 1, p, q + 1, 0);
    } else {
      QuotientIs(n + 1, p, q, r + 1);
    }
  }

  lemma TickKeepsPhase(x: Slot, n: nat)
    requires InPhase(x, n)
    ensures InPhase(Ticked(x), n + 1)
  {
    NextRemainder(n, Lasting(x.onLength) + Lasting(x.offLength));
  }

  function After(x: Slot, n: nat): Slot {
    if n == 0 then x else Ticked(After(x, n - 1))
  }

  /** Closed form, for all lengths: n ticks after it was added, an element shows its on-character exactly when
      n modulo the whole period falls into the on part, and its countdown says how much of the part is left. */
  lemma {:induction false} BlinkClosedForm(x: Slot, n: nat)
    requires x.status == 1 && x.countdown == x.onLength
    ensures InPhase(After(x, n), n)
    ensures var on, off := Lasting(x.onLength), Lasting(x.offLength);
      Shown(After(x, n)) == if n % (on + off) < on then x.onChar else x.offChar
    ensures After(x, n) == x.(countdown := After(x, n).countdown, status := After(x, n).status)
  {
    if n > 0 {
      BlinkClosedForm(x, n - 1);
      TickKeepsPhase(After(x, n - 1), n - 1);
    }
  }

  predicate LitBy(on: nat, off: nat, n: nat) {
    on + off > 0 && n % (on + off) < on
  }

  /** The element follows the two lengths as they were given exactly when both lie in 1..32768. */
  lemma LengthsAsGiven(on: Short, off: Short)
    ensures (forall n: nat :: LitBy(on, off, n) == LitBy(Lasting(on), Lasting(off), n)) <==>
      1 <= on <= 0x8000 && 1 <= off <= 0x8000
  {
    if !(1 <= on <= 0x8000) {
      OnLengthCutShort(on, off);
    } else if !(1 <= off <= 0x8000) {
      OffLengthCutShort(on, off);
    }
  }

  lemma OnLengthCutShort(on: Short, off: Short)
    requires on == 0 || on > 0x8000
    ensures exists n: nat :: LitBy(on, off, n) != LitBy(Lasting(on), Lasting(off), n)
  {
    var n := if on == 0 then 0 else 1;
    QuotientIs(n, 1 + Lasting(off), 0, n);
    if on > 0 {
      QuotientIs(n, on + off, 0, n);
    }
    assert LitBy(on, off, n) != LitBy(Lasting(on), Lasting(off), n);
  }

  lemma OffLengthCutShort(on: Short, off: Short)
    requires 1 <= on <= 0x8000 && (off == 0 || off > 0x8000)
    ensures exists n: nat :: LitBy(on, off, n) != LitBy(Lasting(on), Lasting(off), n)
  {
    var n := if off == 0 then on else on + 1;
    QuotientIs(n, on + off, if off == 0 then 1 else 0, if off == 0 then 0 else n);
    QuotientIs(n, on + 1, if off == 0 then 0 else 1, if off == 0 then n else 0);
    assert LitBy(on, off, n) != LitBy(Lasting(on), Lasting(off), n);
  }

  // ------------------------------------------------------------------ the list and the pool, as values

  ghost predicate InPool(nodes: seq<nat>) {
    forall k :: 0 <= k < |nodes| ==> nodes[k] < POOL
  }

  ghost predicate Once(nodes: seq<nat>) {
    forall j, k :: 0 <= j < k < |nodes| ==> nodes[j] != nodes[k]
  }

  predicate LinkAt(pool: seq<Slot>, nodes: seq<nat>, k: nat)
    requires |pool| == POOL && k < |nodes| && nodes[k] < POOL
  {
    pool[nodes[k]].next == NodeAt(nodes, k + 1)
  }

  /** The list starting at head runs through the nodes, in order and once each, and ends. */
  ghost predicate Chain(pool: seq<Slot>, head: int, nodes: seq<nat>) {
    && |pool| == POOL
    && head == NodeAt(nodes, 0)
    && InPool(nodes) && Once(nodes)
    && (forall k {:trigger LinkAt(pool, nodes, k)} :: 0 <= k < |nodes| ==> LinkAt(pool, nodes, k))
  }

  function NodeAt(nodes: seq<nat>, k: nat): int {
    if k < |nodes| then nodes[k] else NULL
  }

  ghost predicate Ends(pool: seq<Slot>, head: int) {
    exists nodes :: Chain(pool, head, nodes)
  }

  /** The element is where, with which characters and for how long the caller asked. */
  predicate AsAsked(x: Slot, b: Slot) {
    && x.location == b.location && x.onChar == b.onChar && x.offChar == b.offChar
    && x.onLength == b.onLength && x.offLength == b.offLength
  }

  /** A slot is free exactly when it is off the list; every element on the list is as its caller asked and keeps
      time. */
  ghost predicate Keeps(pool: seq<Slot>, nodes: seq<nat>, age: map<nat, nat>, asked: map<nat, Slot>)
    requires |pool| == POOL
  {
    && (forall i: nat :: i < POOL ==> (pool[i].location != 0 <==> i in nodes))
    && (forall i: nat :: i in nodes ==> i < POOL && pool[i].location < POOL && i in age && InPhase(pool[i], age[i]))
    && (forall i: nat :: i in nodes ==> i < POOL && i in asked && AsAsked(pool[i], asked[i]))
  }

  /** No two elements share a location, and each is what the screen shows at its own. */
  ghost predicate Displayed(pool: seq<Slot>, nodes: seq<nat>, cells: seq<Byte>)
    requires |pool| == |cells| == POOL
    requires forall k :: 0 <= k < |nodes| ==> nodes[k] < POOL && pool[nodes[k]].location < POOL
  {
    && (forall j, k :: 0 <= j < k < |nodes| ==> pool[nodes[j]].location != pool[nodes[k]].location)
    && (forall k :: 0 <= k < |nodes| ==> cells[pool[nodes[k]].location] == Shown(pool[nodes[k]]))
  }

  predicate FirstFree(pool: seq<Slot>, i: int) {
    if i == NULL then forall k :: 0 <= k < |pool| ==> pool[k].location != 0
    else 0 <= i < |pool| && pool[i].location == 0 && forall k :: 0 <= k < i ==> pool[k].location != 0
  }

  /** The element a caller asked for, as it is put into the pool in front of the old head. */
  function Entered(b: Slot, head: int): Slot {
    b.(status := 1, countdown := b.onLength, next := head)
  }

  lemma EnteredKeeps(pool: seq<Slot>, head: int, nodes: seq<nat>, age: map<nat, nat>, asked: map<nat, Slot>, i: nat,
                     b: Slot)
    requires Chain(pool, head, nodes) && Keeps(pool, nodes, age, asked)
    requires i < POOL && pool[i].location == 0 && b.location < POOL
    ensures Chain(pool[i := Entered(b, head)], i, [i] + nodes)
    ensures Keeps(pool[i := Entered(b, head)], [i] + nodes, age[i := 0], asked[i := b]) <==> b.location != 0
  {
    EnteredIsInPhase(b, head);
    hide InPhase, LinkAt, Once;
    assert i !in nodes;
    EnteredChains(pool, head, nodes, i, Entered(b, head));
    var pool', nodes' := pool[i := Entered(b, head)], [i] + nodes;
    assert nodes'[0] == i;
    assert forall j: nat :: j in nodes' <==> j == i || j in nodes;
    assert pool'[i].location != 0 <==> b.location != 0;
  }

  lemma EnteredIsDisplayed(pool: seq<Slot>, head: int, nodes: seq<nat>, i: nat, b: Slot, cells: seq<Byte>)
    requires |pool| == |cells| == POOL && i < POOL && i !in nodes && b.location < POOL
    requires forall k :: 0 <= k < |nodes| ==> nodes[k] < POOL && pool[nodes[k]].location < POOL
    requires Displayed(pool, nodes, cells)
    requires forall k :: 0 <= k < |nodes| ==> pool[nodes[k]].location != b.location
    ensures Displayed(pool[i := Entered(b, head)], [i] + nodes, cells[b.location := b.onChar])
  {
  }

  lemma EnteredIsInPhase(b: Slot, head: int)
    ensures InPhase(Entered(b, head), 0)
  {
  }

  lemma EnteredChains(pool: seq<Slot>, head: int, nodes: seq<nat>, i: nat, x: Slot)
    requires Chain(pool, head, nodes) && i < POOL && i !in nodes && x.next == head
    ensures Chain(pool[i := x], i, [i] + nodes)
  {
    var pool', nodes' := pool[i := x], [i] + nodes;
    forall k | 0 <= k < |nodes'|
      ensures nodes'[k] < POOL && LinkAt(pool', nodes', k)
    {
      if k > 0 {
        assert nodes'[k] == nodes[k - 1] && LinkAt(pool, nodes, k - 1);
      }
    }
  }

  /** Why the location must not be 0: a slot filled with it still counts as free, the next element is put into
      the same slot, and the list becomes a loop that no run through the nodes can end. */
  lemma LocationZeroLoops(pool: seq<Slot>, head: int, i: nat, b: Slot, c: Slot)
    requires |pool| == POOL && i < POOL && FirstFree(pool, i) && b.location == 0
    ensures var once := pool[i := Entered(b, head)];
      var twice := once[i := Entered(c, i)];
      FirstFree(once, i) && !Ends(twice, i)
  {
    var once := pool[i := Entered(b, head)];
    var twice := once[i := Entered(c, i)];
    forall nodes: seq<nat>
      ensures !Chain(twice, i, nodes)
    {
      NeverReturnsToHead(twice, i, nodes);
    }
  }

  lemma NeverReturnsToHead(pool: seq<Slot>, i: nat, nodes: seq<nat>)
    requires i < |pool|
    ensures Chain(pool, i, nodes) ==> pool[i].next != i
  {
    if Chain(pool, i, nodes) {
      assert LinkAt(pool, nodes, 0);
    }
  }

  /** The list without its k-th element: its predecessor (or the head) points past it, and the slot is wiped. */
  function Bypassed(pool: seq<Slot>, nodes: seq<nat>, k: nat): (r: seq<Slot>)
    requires k < |nodes| && forall j :: 0 <= j < |nodes| ==> nodes[j] < |pool|
    ensures |r| == |pool|
  {
    var p := nodes[k];
    (if k == 0 then pool else pool[nodes[k - 1] := pool[nodes[k - 1]].(next := pool[p].next)])[p := CLEARED]
  }

  lemma BypassedKeeps(pool: seq<Slot>, head: int, nodes: seq<nat>, age: map<nat, nat>, asked: map<nat, Slot>, k: nat)
    requires Chain(pool, head, nodes) && Keeps(pool, nodes, age, asked) && k < |nodes|
    ensures var pool', nodes' := Bypassed(pool, nodes, k), nodes[..k] + nodes[k + 1..];
      && Chain(pool', if k == 0 then pool[head].next else head, nodes')
      && Keeps(pool', nodes', age, asked)
  {
    hide InPhase, LinkAt, AsAsked;
    var pool', nodes' := Bypassed(pool, nodes, k), nodes[..k] + nodes[k + 1..];
    BypassedChains(pool, head, nodes, k);
    OthersStay(nodes, k);
    forall i: nat | i < POOL && i != nodes[k]
      ensures pool'[i].location == pool[i].location
      ensures forall n: nat :: InPhase(pool'[i], n) == InPhase(pool[i], n)
      ensures forall b: Slot :: AsAsked(pool'[i], b) == AsAsked(pool[i], b)
    {
      NextIsNoPhase(pool'[i], pool[i]);
    }
  }

  lemma BypassedIsDisplayed(pool: seq<Slot>, nodes: seq<nat>, k: nat, cells: seq<Byte>)
    requires |pool| == |cells| == POOL && k < |nodes| && Once(nodes)
    requires forall j :: 0 <= j < |nodes| ==> nodes[j] < POOL && pool[nodes[j]].location < POOL
    requires Displayed(pool, nodes, cells)
    ensures Displayed(Bypassed(pool, nodes, k), nodes[..k] + nodes[k + 1..], cells)
  {
  }

  lemma NextIsNoPhase(x: Slot, y: Slot)
    requires x == y.(next := x.next)
    ensures forall n: nat :: InPhase(x, n) == InPhase(y, n)
    ensures forall b: Slot :: AsAsked(x, b) == AsAsked(y, b)
  {
  }

  lemma OthersStay(nodes: seq<nat>, k: nat)
    requires k < |nodes| && Once(nodes)
    ensures Once(nodes[..k] + nodes[k + 1..])
    ensures forall i: nat :: i in nodes[..k] + nodes[k + 1..] <==> i in nodes && i != nodes[k]
  {
  }

  lemma BypassedChains(pool: seq<Slot>, head: int, nodes: seq<nat>, k: nat)
    requires Chain(pool, head, nodes) && k < |nodes|
    ensures Chain(Bypassed(pool, nodes, k), if k == 0 then pool[head].next else head, nodes[..k] + nodes[k + 1..])
  {
    var pool', nodes' := Bypassed(pool, nodes, k), nodes[..k] + nodes[k + 1..];
    OthersStay(nodes, k);
    assert LinkAt(pool, nodes, k);
    forall j | 0 <= j < |nodes'|
      ensures nodes'[j] < POOL && LinkAt(pool', nodes', j)
    {
      var m := if j < k then j else j + 1;
      assert nodes'[j] == nodes[m] && LinkAt(pool, nodes, m);
    }
  }

  /** The screen after the tasklet has passed the first k elements: only those whose part of the period just
      ended write their cell. */
  function Poked(pool: seq<Slot>, nodes: seq<nat>, cells: seq<Byte>, k: nat): (r: seq<Byte>)
    requires |pool| == |cells| == POOL && k <= |nodes|
    requires forall j :: 0 <= j < |nodes| ==> nodes[j] < POOL && pool[nodes[j]].location < POOL
    ensures |r| == POOL
  {
    if k == 0 then cells
    else
      var before, x := Poked(pool, nodes, cells, k - 1), pool[nodes[k - 1]];
      if SignedPositive(Decremented(x.countdown)) then before else before[x.location := Shown(Ticked(x))]
  }

  lemma {:induction false} PokedShows(pool: seq<Slot>, nodes: seq<nat>, cells: seq<Byte>, k: nat)
    requires |pool| == |cells| == POOL && k <= |nodes|
    requires forall j :: 0 <= j < |nodes| ==> nodes[j] < POOL && pool[nodes[j]].location < POOL
    requires Displayed(pool, nodes, cells)
    ensures forall j :: 0 <= j < |nodes| ==>
      var x := pool[nodes[j]];
      Poked(pool, nodes, cells, k)[x.location] == Shown(if j < k then Ticked(x) else x)
  {
    if k > 0 {
      PokedShows(pool, nodes, cells, k - 1);
    }
  }

  /** One pass of the tasklet over the whole list. */
  ghost predicate AllTicked(before: seq<Slot>, after: seq<Slot>, nodes: seq<nat>, k: nat)
    requires |before| == |after| == POOL && k <= |nodes|
    requires forall j :: 0 <= j < |nodes| ==> nodes[j] < POOL
  {
    && (forall j :: 0 <= j < |nodes| ==>
          after[nodes[j]] == if j < k then Ticked(before[nodes[j]]) else before[nodes[j]])
    && (forall i: nat :: i < POOL && i !in nodes ==> after[i] == before[i])
  }

  lemma FollowsLink(pool: seq<Slot>, head: int, nodes: seq<nat>, k: nat)
    requires Chain(pool, head, nodes) && k < |nodes|
    ensures pool[nodes[k]].next == NodeAt(nodes, k + 1)
  {
    assert LinkAt(pool, nodes, k);
  }

  lemma TickedOneMore(before: seq<Slot>, after: seq<Slot>, nodes: seq<nat>, k: nat)
    requires |before| == |after| == POOL && k < |nodes| && InPool(nodes) && Once(nodes)
    requires AllTicked(before, after, nodes, k)
    ensures AllTicked(before, after[nodes[k] := Ticked(after[nodes[k]])], nodes, k + 1)
  {
  }

  function Aged(nodes: seq<nat>, age: map<nat, nat>): (r: map<nat, nat>) {
    map i | i in age :: if i in nodes then age[i] + 1 else age[i]
  }

  lemma TickedKeeps(before: seq<Slot>, after: seq<Slot>, head: int, nodes: seq<nat>, age: map<nat, nat>,
                    asked: map<nat, Slot>)
    requires Chain(before, head, nodes) && Keeps(before, nodes, age, asked)
    requires |after| == POOL && AllTicked(before, after, nodes, |nodes|)
    ensures Chain(after, head, nodes) && Keeps(after, nodes, Aged(nodes, age), asked)
  {
    hide InPhase, Ticked;
    assert forall k :: 0 <= k < |nodes| ==> LinkAt(before, nodes, k) && LinkAt(after, nodes, k);
    forall i: nat | i in nodes
      ensures after[i] == Ticked(before[i]) && InPhase(after[i], age[i] + 1)
    {
      var j :| 0 <= j < |nodes| && nodes[j] == i;
      TickKeepsPhase(before[i], age[i]);
    }
  }

  predicate AloneAt(pool: seq<Slot>, nodes: seq<nat>, location: Short) {
    forall k :: 0 <= k < |nodes| && nodes[k] < |pool| ==> pool[nodes[k]].location != location
  }

  // ------------------------------------------------------------------ the list and the pool, in place

  class BlinkList {
    const pool: array<Slot>
    const cells: array<Byte>
    var head: int
    /** The slots on the list, front first; how many ticks each has seen, and what its caller asked for. */
    ghost var nodes: seq<nat>
    ghost var age: map<nat, nat>
    ghost var asked: map<nat, Slot>

    ghost predicate Valid()
      reads this, pool, cells
    {
      pool.Length == cells.Length == POOL && Chain(pool[..], head, nodes) && Keeps(pool[..], nodes, age, asked)
    }

    ghost predicate Lit()
      requires Valid()
      reads this, pool, cells
    {
      Displayed(pool[..], nodes, cells[..])
    }

    /** An element alone at its location shows the on-character its caller gave, n ticks after it was added, exactly
        when n modulo the period of the lengths its caller gave falls into the on part, and otherwise the
        off-character. */
    lemma CellFollowsClock(i: nat)
      requires Valid() && Lit() && i in nodes
      ensures i in asked && i in age && asked[i].location < POOL
      ensures var b := asked[i];
        var on, off := Lasting(b.onLength), Lasting(b.offLength);
        cells[b.location] == if age[i] % (on + off) < on then b.onChar else b.offChar
    {
      var k :| 0 <= k < |nodes| && nodes[k] == i;
      assert InPhase(pool[i], age[i]) && AsAsked(pool[i], asked[i]);
    }

    constructor ()
      ensures Valid() && nodes == [] && Lit() && fresh(pool) && fresh(cells)
    {
      pool := new Slot[POOL](_ => CLEARED);
      cells := new Byte[POOL](_ => 0);
      head := NULL;
      nodes, age, asked := [], map[], map[];
    }

    method Malloc() returns (i: int)
      requires pool.Length == POOL
      ensures FirstFree(pool[..], i)
    {
      i := 0;
      while i < POOL
        invariant 0 <= i <= POOL && forall k :: 0 <= k < i ==> pool[k].location != 0
      {
        if pool[i].location == 0 {
          return;
        }
        i := i + 1;
      }
      i := NULL;
    }

    /** mp1_ioctl_add. The new element is first on the list and lit; nothing else on the list changes. The
        invariant survives exactly when the location is not 0. */
    method Add(b: Slot) returns (ret: int)
      requires Valid()
      modifies this, pool, cells
      ensures ret == if b.location < POOL && exists k :: 0 <= k < POOL && old(pool[..])[k].location == 0 then 0 else -1
      ensures ret == -1 ==> Valid() && nodes == old(nodes) && age == old(age) && asked == old(asked)
      ensures ret == -1 ==> pool[..] == old(pool[..]) && cells[..] == old(cells[..])
      ensures ret == 0 ==> FirstFree(old(pool[..]), head) && pool[..] == old(pool[..])[head := Entered(b, old(head))]
      ensures ret == 0 ==> nodes == [head] + old(nodes) && age == old(age)[head := 0] && asked == old(asked)[head := b]
      ensures ret == 0 ==> cells[..] == old(cells[..])[b.location := b.onChar]
      ensures ret == 0 ==> (Valid() <==> b.location != 0)
      ensures ret == 0 && Valid() && old(Lit()) && AloneAt(old(pool[..]), old(nodes), b.location) ==> Lit()
    {
      if b.location >= POOL {
        return -1;
      }
      var i := Malloc();
      if i == NULL {
        return -1;
      }
      Enter(i, b);
      ret := 0;
    }

    /** The element goes into a free slot and to the front of the list, and on the screen. */
    method Enter(i: nat, b: Slot)
      requires Valid() && i < POOL && pool[i].location == 0 && b.location < POOL
      modifies this, pool, cells
      ensures head == i && pool[..] == old(pool[..])[i := Entered(b, old(head))]
      ensures nodes == [i] + old(nodes) && age == old(age)[i := 0] && asked == old(asked)[i := b]
      ensures cells[..] == old(cells[..])[b.location := b.onChar]
      ensures Valid() <==> b.location != 0
      ensures Valid() && old(Lit()) && AloneAt(old(pool[..]), old(nodes), b.location) ==> Lit()
    {
      hide InPhase, Once, LinkAt, Displayed, AsAsked, Entered;
      ghost var was, shown, lit := pool[..], cells[..], Lit();
      EnteredKeeps(pool[..], head, nodes, age, asked, i, b);
      pool[i] := Entered(b, head);
      head := i;
      cells[b.location] := b.onChar;
      if lit && AloneAt(was, nodes, b.location) {
        EnteredIsDisplayed(was, old(head), nodes, i, b, shown);
      }
      nodes, age, asked := [i] + nodes, age[i := 0], asked[i := b];
    }

    /** mp1_find_helper: the first element on the list at that location. */
    method Find(location: Short) returns (p: int, ghost k: nat)
      requires Valid()
      ensures k <= |nodes| && p == NodeAt(nodes, k)
      ensures forall j :: 0 <= j < k ==> pool[nodes[j]].location != location
      ensures p != NULL ==> 0 <= p < POOL && pool[p].location == location
    {
      p, k := head, 0;
      while p != NULL
        invariant k <= |nodes| && p == NodeAt(nodes, k)
        invariant forall j :: 0 <= j < k ==> pool[nodes[j]].location != location
        decreases |nodes| - k
      {
        if pool[p].location == location {
          return;
        }
        assert LinkAt(pool[..], nodes, k);
        p, k := pool[p].next, k + 1;
      }
    }

    /** mp1_ioctl_remove: unlinks the first element at the location, and only that one, and wipes its slot. */
    method Remove(location: Short) returns (ret: int, ghost k: nat)
      requires Valid()
      modifies this, pool
      ensures Valid() && cells[..] == old(cells[..]) && age == old(age) && asked == old(asked)
      ensures k <= |old(nodes)| && forall j :: 0 <= j < k ==> old(pool[..])[old(nodes)[j]].location != location
      ensures ret == if k < |old(nodes)| then 0 else -1
      ensures ret == -1 ==> nodes == old(nodes) && pool[..] == old(pool[..])
      ensures ret == 0 ==> old(pool[..])[old(nodes)[k]].location == location
      ensures ret == 0 ==> nodes == old(nodes)[..k] + old(nodes)[k + 1..]
      ensures ret == 0 ==> pool[..] == Bypassed(old(pool[..]), old(nodes), k)
      ensures old(Lit()) ==> Lit()
    {
      hide InPhase, LinkAt, Displayed;
      var p;
      p, k := Find(location);
      if p == NULL {
        return -1, k;
      }
      BypassedKeeps(pool[..], head, nodes, age, asked, k);
      if Lit() {
        BypassedIsDisplayed(pool[..], nodes, k, cells[..]);
      }
      Unlink(p, k);
      nodes := nodes[..k] + nodes[k + 1..];
      pool[p] := CLEARED;
      ret := 0;
    }

    /** The search for the pointer to the element, which may be the list head itself, ends because the element
        is on the list. */
    method Unlink(p: nat, ghost k: nat)
      requires Valid() && k < |nodes| && nodes[k] == p
      modifies this`head, pool
      ensures head == if k == 0 then old(pool[p]).next else old(head)
      ensures pool[..] == if k == 0 then old(pool[..])
                          else old(pool[..])[nodes[k - 1] := old(pool[nodes[k - 1]]).(next := old(pool[p]).next)]
    {
      var prev, points := NULL, head;
      ghost var j: nat := 0;
      while points != p
        invariant j <= k && points == nodes[j]
        invariant prev == if j == 0 then NULL else nodes[j - 1]
        decreases k - j
      {
        assert LinkAt(pool[..], nodes, j);
        prev, points := points, pool[points].next;
        j := j + 1;
      }
      if prev == NULL {
        head := pool[p].next;
      } else {
        pool[prev] := pool[prev].(next := pool[p].next);
      }
    }

    /** mp1_rtc_tasklet: every element on the list ticks once. An element alone at its location stays what the
        screen shows there. */
    method Tick()
      requires Valid()
      modifies this`age, pool, cells
      ensures Valid() && AllTicked(old(pool[..]), pool[..], nodes, |nodes|) && age == Aged(nodes, old(age))
      ensures cells[..] == Poked(old(pool[..]), nodes, old(cells[..]), |nodes|)
      ensures old(Lit()) ==> Lit()
    {
      hide InPhase, Ticked, Shown, Poked;
      ghost var was, shown, lit := pool[..], cells[..], Lit();
      TickAll();
      TickedKeeps(was, pool[..], head, nodes, age, asked);
      age := Aged(nodes, age);
      if lit {
        PokedShows(was, nodes, shown, |nodes|);
      }
    }

    /** An element alone at its location, from the call that adds it through any number of ticks: the cell shows the
        caller's on-character and off-character by turns, for as long as the caller asked. */
    method AddAndTick(b: Slot, n: nat) returns (ret: int)
      requires Valid() && Lit() && b.location != 0 && AloneAt(pool[..], nodes, b.location)
      modifies this, pool, cells
      ensures Valid() && Lit()
      ensures ret == if b.location < POOL && exists k :: 0 <= k < POOL && old(pool[..])[k].location == 0 then 0 else -1
      ensures ret == 0 ==>
        var on, off := Lasting(b.onLength), Lasting(b.offLength);
        cells[b.location] == if n % (on + off) < on then b.onChar else b.offChar
    {
      hide Chain, Keeps, Displayed;
      ret := Add(b);
      if ret == -1 {
        return;
      }
      var k := 0;
      while k < n
        invariant 0 <= k <= n && Valid() && Lit()
        invariant head >= 0 && head in nodes && head in age && age[head] == k && head in asked && asked[head] == b
      {
        Tick();
        k := k + 1;
      }
      CellFollowsClock(head);
    }

    method TickAll()
      requires Valid()
      modifies pool, cells
      ensures AllTicked(old(pool[..]), pool[..], nodes, |nodes|)
      ensures cells[..] == Poked(old(pool[..]), nodes, old(cells[..]), |nodes|)
    {
      hide InPhase, Ticked, Shown, LinkAt, AsAsked, Once;
      ghost var was, shown := pool[..], cells[..];
      var p := head;
      ghost var k: nat := 0;
      while p != NULL
        invariant k <= |nodes| && p == NodeAt(nodes, k)
        invariant AllTicked(was, pool[..], nodes, k)
        invariant cells[..] == Poked(was, nodes, shown, k)
        decreases |nodes| - k
      {
        FollowsLink(was, head, nodes, k);
        TickedOneMore(was, pool[..], nodes, k);
        TickOne(p);
        p, k := pool[p].next, k + 1;
      }
    }

    method TickOne(p: nat)
      requires p < POOL == pool.Length == cells.Length && pool[p].location < POOL
      modifies pool, cells
      ensures pool[..] == old(pool[..])[p := Ticked(old(pool[p]))]
      ensures cells[..] == if SignedPositive(Decremented(old(pool[p]).countdown)) then old(cells[..])
                           else old(cells[..])[pool[p].location := Shown(pool[p])]
    {
      pool[p] := pool[p].(countdown := Decremented(pool[p].countdown));
      if !SignedPositive(pool[p].countdown) {
        var length;
        if pool[p].status % 2 == 1 {
          cells[pool[p].location] := pool[p].offChar;
          length := pool[p].offLength;
        } else {
          cells[pool[p].location] := pool[p].onChar;
          length := pool[p].onLength;
        }
        pool[p] := pool[p].(countdown := length, status := Flipped(pool[p].status));
      }
    }
  }
}
