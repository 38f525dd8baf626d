/** The line being typed at each terminal: keys, backspace, and the read that takes the line. */
module LineBuffer {
  import opened CommandLine
  import opened Screens

  const TERMS := 3
  const TERM_EOF: Byte := 0xFF

  // ------------------------------------------------------------------ the abstract line

  /** The line of the displayed terminal and its screen. */
  datatype Typing = Typing(line: seq<Byte>, screen: Screen) {
    predicate Valid() {
      screen.Valid()
    }
  }

  predicate Accepts(line: seq<Byte>, c: Byte) {
    |line| < BUF_SIZE - 1 || c == NEWLINE
  }

  function Type(t: Typing, c: Byte): (r: Typing)
    requires t.Valid()
    ensures r.Valid()
  {
    if Accepts(t.line, c) then Typing(t.line + [c], PutChar(t.screen, c)) else t
  }

  function Erase(t: Typing): (r: Typing)
    requires t.Valid()
    ensures r.Valid()
  {
    if t.line == [] then t else Typing(t.line[..|t.line| - 1], EraseBack(t.screen))
  }

  function TypeAll(t: Typing, text: seq<Byte>): (r: Typing)
    requires t.Valid()
    ensures r.Valid()
  {
    if text == [] then t else Type(TypeAll(t, text[..|text| - 1]), text[|text| - 1])
  }

  function EraseTimes(t: Typing, k: nat): (r: Typing)
    requires t.Valid()
    ensures r.Valid()
    decreases k
  {
    if k == 0 then t else EraseTimes(Erase(t), k - 1)
  }

  /** The cursor as one number: column 80 of a row and column 0 of the next are the same place. */
  function Linear(s: Screen): nat {
    COLS * s.y + s.x
  }

  predicate NoBreaks(text: seq<Byte>) {
    forall i :: 0 <= i < |text| ==> !IsBreak(text[i])
  }

  // ------------------------------------------------------------------ what a line holds

  /** Whatever is typed on an empty line before a newline, the line keeps the first 127 bytes of it, and the
      newline always gets in. */
  lemma {:induction false} LineKeepsFirst127(t: Typing, text: seq<Byte>)
    requires t.Valid() && t.line == [] && NEWLINE !in text
    ensures TypeAll(t, text).line == text[..if |text| < BUF_SIZE then |text| else BUF_SIZE - 1]
    ensures TypeAll(t, text + [NEWLINE]).line == TypeAll(t, text).line + [NEWLINE]
  {
    hide PutChar;
    assert (text + [NEWLINE])[..|text + [NEWLINE]| - 1] == text;
    if text != [] {
      LineKeepsFirst127(t, text[..|text| - 1]);
    }
  }

  // ------------------------------------------------------------------ backspace undoes typing

  /** On the linear cursor a character that does not scroll fills one cell and moves one place on. */
  lemma PutIsLinear(s: Screen, c: Byte)
    requires s.Valid() && !IsBreak(c) && Linear(s) < CELLS
    ensures PutChar(s, c).cells == s.cells[Linear(s) := c] && Linear(PutChar(s, c)) == Linear(s) + 1
  {
  }

  lemma EraseIsLinear(s: Screen)
    requires s.Valid() && Linear(s) > 0
    ensures EraseBack(s).cells == s.cells[Linear(s) - 1 := 0] && Linear(EraseBack(s)) == Linear(s) - 1
  {
  }

  /** The cells with a text written from a place on. */
  function Written(cells: seq<Byte>, p: nat, text: seq<Byte>): (r: seq<Byte>)
    requires p + |text| <= |cells|
    ensures |r| == |cells|
  {
    cells[..p] + text + cells[p + |text|..]
  }

  lemma {:induction false} TypingIsLinear(t: Typing, text: seq<Byte>)
    requires t.Valid() && NoBreaks(text) && |t.line| + |text| < BUF_SIZE && Linear(t.screen) + |text| <= CELLS
    ensures var r := TypeAll(t, text);
      && r.line == t.line + text
      && r.screen.cells == Written(t.screen.cells, Linear(t.screen), text)
      && Linear(r.screen) == Linear(t.screen) + |text|
  {
    if text == [] {
      assert Written(t.screen.cells, Linear(t.screen), text) == t.screen.cells;
    } else {
      var front, c := text[..|text| - 1], text[|text| - 1];
      TypingIsLinear(t, front);
      PutIsLinear(TypeAll(t, front).screen, c);
      assert front + [c] == text;
    }
  }

  lemma {:induction false} ErasingIsLinear(t: Typing, k: nat)
    requires t.Valid() && k <= |t.line|
    ensures var r, p := EraseTimes(t, k), Linear(t.screen);
      && r.line == t.line[..|t.line| - k]
      && Linear(r.screen) == (if k <= p then p - k else 0)
      && (k <= p ==> r.screen.cells == Written(t.screen.cells, p - k, Zeros(k)))
    decreases k
  {
    var p := Linear(t.screen);
    if k == 0 {
      assert Written(t.screen.cells, p, Zeros(0)) == t.screen.cells;
    } else {
      ErasingIsLinear(Erase(t), k - 1);
      if p > 0 {
        EraseIsLinear(t.screen);
      }
    }
  }

  /** The characters typed fit on the screen without scrolling, on cells that were blank. */
  predicate FitsBlank(s: Screen, k: nat) {
    Linear(s) + k <= CELLS && forall i :: Linear(s) <= i < Linear(s) + k && i < |s.cells| ==> s.cells[i] == 0
  }

  /** Typing k characters that fit on the line and then k backspaces always gives back the line; it gives back
      the screen and the place of the cursor, across any row ends, exactly when nothing scrolled and the cells
      written were blank before. */
  lemma BackspacesUndoTyping(t: Typing, text: seq<Byte>)
    requires t.Valid() && NoBreaks(text) && |t.line| + |text| < BUF_SIZE
    ensures var r := EraseTimes(TypeAll(t, text), |text|);
      && r.line == t.line
      && (r.screen.cells == t.screen.cells && Linear(r.screen) == Linear(t.screen) <==> FitsBlank(t.screen, |text|))
  {
    hide Type, Erase;
    var typed, k, p := TypeAll(t, text), |text|, Linear(t.screen);
    TypedLine(t, text);
    ErasingIsLinear(typed, k);
    if p + k <= CELLS {
      TypingIsLinear(t, text);
      var cells := t.screen.cells;
      assert Written(Written(cells, p, text), p, Zeros(k)) == Written(cells, p, Zeros(k));
      BlankIffUnchanged(cells, p, k);
    }
  }

  lemma BlankIffUnchanged(cells: seq<Byte>, p: nat, k: nat)
    requires p + k <= |cells|
    ensures Written(cells, p, Zeros(k)) == cells <==> forall i :: p <= i < p + k ==> cells[i] == 0
  {
  }

  lemma {:induction false} TypedLine(t: Typing, text: seq<Byte>)
    requires t.Valid() && |t.line| + |text| < BUF_SIZE
    ensures TypeAll(t, text).line == t.line + text
  {
    if text != [] {
      TypedLine(t, text[..|text| - 1]);
      assert text[..|text| - 1] + [text[|text| - 1]] == text;
    }
  }

  // ------------------------------------------------------------------ one keyboard, three terminals

  type Term = t: nat | t < TERMS

  /** What happens to the lines: a key that gives a character (or none), backspace, the key that shows a terminal,
      and a read by a program of a terminal. */
  datatype Deed = Key(c: Byte) | Back | Show(t: Term) | Read(t: Term, nbytes: nat)

  datatype Desk = Desk(lines: seq<seq<Byte>>, enters: seq<bool>, current: Term) {
    predicate Valid() {
      |lines| == |enters| == TERMS
    }
  }

  /** A read waits for the enter flag; then it gets the start of the line, padded with zeros, and their number. */
  datatype Answer = Waits | Gives(bytes: seq<Byte>, count: nat)

  function FirstBytes(line: seq<Byte>, nbytes: nat): (a: Answer) {
    var n := if |line| < nbytes then |line| else nbytes;
    Gives(line[..n] + Zeros(nbytes - n), n)
  }

  /** What a read of nbytes promises about a line: the whole line if there is room, else as much as there is room for;
      the count says how much of it that is, and zeros follow. */
  predicate IsStartOf(a: Answer, line: seq<Byte>, nbytes: nat) {
    && a.Gives? && |a.bytes| == nbytes
    && (|line| <= nbytes ==> a.count == |line|) && (|line| > nbytes ==> a.count == nbytes)
    && (forall k :: 0 <= k < nbytes ==> a.bytes[k] == if k < |line| then line[k] else 0)
  }

  function AnswerTo(d: Desk, t: Term, nbytes: nat): (a: Answer)
    requires d.Valid()
  {
    if d.enters[t] then FirstBytes(d.lines[t], nbytes) else Waits
  }

  function Edit(line: seq<Byte>, e: Deed): (r: seq<Byte>) {
    match e
    case Key(c) => if c != 0 && Accepts(line, c) then line + [c] else line
    case Back => if line == [] then line else line[..|line| - 1]
    case _ => line
  }

  /** Keys go to the displayed terminal, whichever program is running; a read that gets its answer takes the whole
      line of its own terminal. */
  function After(d: Desk, e: Deed): (r: Desk)
    requires d.Valid()
    ensures r.Valid()
  {
    match e
    case Show(t) => d.(current := t)
    case Read(t, _) =>
      if d.enters[t] then d.(lines := d.lines[t := []], enters := d.enters[t := false]) else d
    case Key(c) =>
      var typed := d.(lines := d.lines[d.current := Edit(d.lines[d.current], e)]);
      if c == NEWLINE then typed.(enters := d.enters[d.current := true]) else typed
    case Back => d.(lines := d.lines[d.current := Edit(d.lines[d.current], e)])
  }

  const ATSTART: Desk := Desk([[], [], []], [false, false, false], 0)

  function AfterAll(deeds: seq<Deed>): (r: Desk)
    ensures r.Valid()
  {
    if deeds == [] then ATSTART else After(AfterAll(deeds[..|deeds| - 1]), deeds[|deeds| - 1])
  }

  /** The terminal displayed: the one last shown. */
  function Displayed(deeds: seq<Deed>): Term {
    if deeds == [] then 0
    else if deeds[|deeds| - 1].Show? then deeds[|deeds| - 1].t
    else Displayed(deeds[..|deeds| - 1])
  }

  /** The keys and backspaces made while terminal t was displayed, since a read there last got its answer: since
      a read that found a newline among them. */
  function KeysFor(deeds: seq<Deed>, t: Term): seq<Deed> {
    if deeds == [] then []
    else
      var front, e := deeds[..|deeds| - 1], deeds[|deeds| - 1];
      var keys := KeysFor(front, t);
      match e
      case Show(_) => keys
      case Read(u, _) => if u == t && Key(NEWLINE) in keys then [] else keys
      case _ => if Displayed(front) == t then keys + [e] else keys
  }

  /** What keys and backspaces alone make of an empty line. */
  function Edited(keys: seq<Deed>): seq<Byte> {
    if keys == [] then [] else Edit(Edited(keys[..|keys| - 1]), keys[|keys| - 1])
  }

  /** Over any keys, switches and reads, in any order: what a program that reads at terminal t is given is the line
      made by the keys that were pressed while t was displayed since the last read there, and it is given once a
      newline is among them. Nothing done at another terminal has a part in it. */
  lemma {:induction false} ReaderGetsItsOwnLine(deeds: seq<Deed>, t: Term, nbytes: nat)
    ensures var keys := KeysFor(deeds, t);
      && AfterAll(deeds).lines[t] == Edited(keys)
      && if Key(NEWLINE) in keys then IsStartOf(AnswerTo(AfterAll(deeds), t, nbytes), Edited(keys), nbytes)
         else AnswerTo(AfterAll(deeds), t, nbytes) == Waits
  {
    LinesAreKept(deeds, t);
  }

  lemma {:induction false} LinesAreKept(deeds: seq<Deed>, t: Term)
    ensures AfterAll(deeds).current == Displayed(deeds)
    ensures AfterAll(deeds).lines[t] == Edited(KeysFor(deeds, t))
    ensures AfterAll(deeds).enters[t] <==> Key(NEWLINE) in KeysFor(deeds, t)
  {
    if deeds != [] {
      var front, e := deeds[..|deeds| - 1], deeds[|deeds| - 1];
      LinesAreKept(front, t);
      var keys := KeysFor(front, t);
      if (e.Key? || e.Back?) && Displayed(front) == t {
        assert (keys + [e])[..|keys|] == keys;
      }
    }
  }

  function KeysOf(text: seq<Byte>): (r: seq<Deed>)
    ensures |r| == |text| && forall i :: 0 <= i < |text| ==> r[i] == Key(text[i])
  {
    seq(|text|, i requires 0 <= i < |text| => Key(text[i]))
  }

  lemma {:induction false} EditedText(text: seq<Byte>)
    requires NEWLINE !in text && 0 !in text
    ensures Edited(KeysOf(text)) == text[..if |text| < BUF_SIZE then |text| else BUF_SIZE - 1]
  {
    if text != [] {
      var front := text[..|text| - 1];
      EditedText(front);
      assert KeysOf(text)[..|text| - 1] == KeysOf(front);
    }
  }

  /** So a text typed at terminal t and ended by the enter key, with whatever was done at the other terminals in
      between, comes through to the reader there: its first 127 bytes, and the newline. */
  lemma TextComesThrough(deeds: seq<Deed>, t: Term, text: seq<Byte>, nbytes: nat)
    requires NEWLINE !in text && 0 !in text && KeysFor(deeds, t) == KeysOf(text) + [Key(NEWLINE)]
    ensures IsStartOf(AnswerTo(AfterAll(deeds), t, nbytes), text[..if |text| < 128 then |text| else 127] + [10], nbytes)
  {
    ReaderGetsItsOwnLine(deeds, t, nbytes);
    EditedText(text);
    var keys := KeysOf(text) + [Key(NEWLINE)];
    assert keys[..|text|] == KeysOf(text) && keys[|text|] == Key(NEWLINE);
  }

  // ------------------------------------------------------------------ the buffers, in place

  /** Row t of the buffers holds a line of n bytes and end-of-file marks after it. */
  ghost predicate RowHolds(buf: seq<Byte>, t: nat, n: nat)
    requires |buf| == TERMS * BUF_SIZE && t < TERMS
  {
    && n <= BUF_SIZE
    && (forall i :: BUF_SIZE * t <= i < BUF_SIZE * t + n ==> buf[i] != TERM_EOF)
    && (forall i :: BUF_SIZE * t + n <= i < BUF_SIZE * (t + 1) ==> buf[i] == TERM_EOF)
  }

  function Row(buf: seq<Byte>, t: nat, n: nat): (r: seq<Byte>)
    requires |buf| == TERMS * BUF_SIZE && t < TERMS
    ensures |r| == if n <= BUF_SIZE then n else 0
  {
    if n <= BUF_SIZE then buf[BUF_SIZE * t..BUF_SIZE * t + n] else []
  }

  lemma RowStays(before: seq<Byte>, after: seq<Byte>, t: nat, n: nat)
    requires |before| == |after| == TERMS * BUF_SIZE && t < TERMS && n <= BUF_SIZE
    requires forall i :: BUF_SIZE * t <= i < BUF_SIZE * (t + 1) ==> after[i] == before[i]
    ensures RowHolds(after, t, n) == RowHolds(before, t, n) && Row(after, t, n) == Row(before, t, n)
  {
  }

  lemma RowGrows(buf: seq<Byte>, t: nat, n: nat, c: Byte)
    requires |buf| == TERMS * BUF_SIZE && t < TERMS && n < BUF_SIZE && c != TERM_EOF && RowHolds(buf, t, n)
    ensures RowHolds(buf[BUF_SIZE * t + n := c], t, n + 1)
    ensures Row(buf[BUF_SIZE * t + n := c], t, n + 1) == Row(buf, t, n) + [c]
  {
  }

  lemma RowShrinks(buf: seq<Byte>, t: nat, n: nat)
    requires |buf| == TERMS * BUF_SIZE && t < TERMS && 0 < n && RowHolds(buf, t, n)
    ensures RowHolds(buf[BUF_SIZE * t + n - 1 := TERM_EOF], t, n - 1)
    ensures Row(buf[BUF_SIZE * t + n - 1 := TERM_EOF], t, n - 1) == Row(buf, t, n)[..n - 1]
  {
  }

  /** The next byte of a row is the next of its line, or the end-of-file mark at its end. */
  lemma RowByte(buf: seq<Byte>, t: nat, n: nat, k: nat)
    requires |buf| == TERMS * BUF_SIZE && t < TERMS && RowHolds(buf, t, n) && k <= n && k < BUF_SIZE
    ensures n <= BUF_SIZE && |Row(buf, t, n)| == n
    ensures buf[BUF_SIZE * t + k] == TERM_EOF <==> k == n
    ensures k < n ==> Row(buf, t, n)[k] == buf[BUF_SIZE * t + k]
  {
  }

  /** The buffers of the three terminals lie one after the other in memory. */
  class TermLines {
    const buf: array<Byte>
    const index: array<nat>
    const enter: array<bool>
    const video: array<Byte>
    var current: nat
    var x: nat
    var y: nat

    ghost predicate Sized()
      reads this, video
    {
      && buf.Length == TERMS * BUF_SIZE && index.Length == enter.Length == TERMS
      && buf != video && current < TERMS && Screen(video[..], x, y).Valid()
    }

    ghost predicate Intact()
      reads this, video, buf, index
    {
      && Sized()
      && RowHolds(buf[..], 0, index[0]) && RowHolds(buf[..], 1, index[1]) && RowHolds(buf[..], 2, index[2])
    }

    ghost function Line(t: nat): seq<Byte>
      requires Sized() && t < TERMS
      reads this, video, buf, index
    {
      Row(buf[..], t, index[t])
    }

    ghost function Now(): (r: Typing)
      requires Intact()
      reads this, video, buf, index
      ensures r.Valid()
    {
      Typing(Line(current), Screen(video[..], x, y))
    }

    ghost function Lines(): (d: Desk)
      requires Sized()
      reads this, video, buf, index, enter
      ensures d.Valid()
    {
      Desk([Line(0), Line(1), Line(2)], enter[..], current)
    }

    constructor ()
      ensures Intact() && Lines() == ATSTART && Now() == Typing([], Blank())
      ensures fresh(buf) && fresh(index) && fresh(enter) && fresh(video)
    {
      buf := new Byte[TERMS * BUF_SIZE](_ => TERM_EOF);
      index := new nat[TERMS](_ => 0);
      enter := new bool[TERMS](_ => false);
      video := new Byte[CELLS](_ => 0);
      current, x, y := 0, 0, 0;
      new;
      assert video[..] == Zeros(CELLS);
    }

    /** A key. If it gives a character, that is appended and echoed when the line accepts it. The buffers survive
        unless a newline arrives with 128 bytes already there: then it is stored past the end of its row. */
    method Keypress(c: Byte)
      requires Intact() && c != TERM_EOF
      modifies this`x, this`y, buf, index, enter, video
      ensures Intact() <==> !(c == NEWLINE && old(index[current]) == BUF_SIZE)
      ensures Intact() ==> Now() == if c == 0 then old(Now()) else Type(old(Now()), c)
      ensures Intact() ==> Lines() == After(old(Lines()), Key(c))
      ensures enter[..] == if c == NEWLINE then old(enter[..])[current := true] else old(enter[..])
      ensures !Intact() && current + 1 < TERMS ==> buf[BUF_SIZE * (current + 1)] == NEWLINE
    {
      hide PutChar, Row;
      assert |Line(current)| == index[current];
      if c != 0 && (index[current] < BUF_SIZE - 1 || c == NEWLINE) {
        Store(c);
        x, y := Putc(video, x, y, c);
        if c == NEWLINE {
          enter[current] := true;
        }
      }
    }

    /** The byte is stored at the index and the index moves on, wherever that is in memory. */
    method Store(c: Byte)
      requires Intact() && c != TERM_EOF
      modifies buf, index
      ensures Sized() && index[..] == old(index[..])[current := old(index[current]) + 1]
      ensures Intact() <==> old(index[current]) < BUF_SIZE
      ensures Intact() ==> Line(current) == old(Line(current)) + [c]
      ensures Intact() ==> forall t :: 0 <= t < TERMS && t != current ==> Line(t) == old(Line(t))
      ensures !Intact() && current + 1 < TERMS ==> buf[BUF_SIZE * (current + 1)] == c
    {
      hide Row;
      ghost var was, n := buf[..], index[current];
      var at := BUF_SIZE * current + index[current];
      if at < buf.Length {
        buf[at] := c;
      }
      index[current] := index[current] + 1;
      if n < BUF_SIZE {
        RowGrows(was, current, n, c);
        OthersStay(was);
      }
    }

    /** The rows of the other terminals are what they were. */
    twostate lemma OthersStay(was: seq<Byte>)
      requires old(Intact()) && Sized() && was == old(buf[..]) && current == old(current)
      requires forall i :: 0 <= i < buf.Length && i / BUF_SIZE != current ==> buf[i] == was[i]
      requires forall t :: 0 <= t < TERMS && t != current ==> index[t] == old(index[t])
      ensures forall t :: 0 <= t < TERMS && t != current ==> RowHolds(buf[..], t, index[t]) && Line(t) == old(Line(t))
    {
      forall t | 0 <= t < TERMS && t != current
        ensures RowHolds(buf[..], t, index[t]) && Line(t) == old(Line(t))
      {
        RowStays(was, buf[..], t, index[t]);
      }
    }

    /** term_del: an empty line is left alone; otherwise its last byte goes, and the screen steps back. */
    method Backspace()
      requires Intact()
      modifies this`x, this`y, buf, index, video
      ensures Intact() && Now() == Erase(old(Now())) && Lines() == After(old(Lines()), Back)
    {
      hide EraseBack, Row;
      if index[current] == 0 {
        return;
      }
      x, y := TermDelete(video, x, y);
      Unstore();
    }

    method Unstore()
      requires Intact() && index[current] > 0
      modifies buf, index
      ensures Intact() && index[..] == old(index[..])[current := old(index[current]) - 1]
      ensures Line(current) == old(Line(current))[..old(index[current]) - 1]
      ensures forall t :: 0 <= t < TERMS && t != current ==> Line(t) == old(Line(t))
    {
      hide Row;
      ghost var was := buf[..];
      RowShrinks(was, current, index[current]);
      buf[BUF_SIZE * current + index[current] - 1] := TERM_EOF;
      index[current] := index[current] - 1;
      OthersStay(was);
    }

    /** The part of a switch that the lines see: the keyboard goes to another terminal, whose page and cursor come
        into view. */
    method SwitchTo(t: Term, page: array<Byte>, col: nat, row: nat)
      requires Intact() && page != video && page != buf && Screen(page[..], col, row).Valid()
      modifies this`current, this`x, this`y, video
      ensures Intact() && Lines() == After(old(Lines()), Show(t))
      ensures Now() == Typing(old(Line(t)), Screen(page[..], col, row))
    {
      var i := 0;
      while i < CELLS
        invariant 0 <= i <= CELLS && video[..i] == page[..i]
        invariant page[..] == old(page[..]) && buf[..] == old(buf[..]) && index[..] == old(index[..])
      {
        video[i] := page[i];
        i := i + 1;
      }
      assert video[..] == page[..];
      current, x, y := t, col, row;
    }

    method ClearBuf(t: nat)
      requires Intact() && t < TERMS
      modifies buf, index
      ensures Intact() && Line(t) == []
      ensures forall u :: 0 <= u < TERMS && u != t ==> Line(u) == old(Line(u))
    {
      FillRow(t);
      index[t] := 0;
      forall u | 0 <= u < TERMS && u != t
        ensures RowHolds(buf[..], u, index[u]) && Line(u) == old(Line(u))
      {
        RowStays(old(buf[..]), buf[..], u, index[u]);
      }
      assert RowHolds(buf[..], t, 0);
    }

    method FillRow(t: nat)
      requires Sized() && t < TERMS
      modifies buf
      ensures forall k :: 0 <= k < buf.Length ==>
        buf[k] == if BUF_SIZE * t <= k < BUF_SIZE * (t + 1) then TERM_EOF else old(buf[k])
    {
      var i := 0;
      while i < BUF_SIZE
        invariant 0 <= i <= BUF_SIZE
        invariant forall k :: 0 <= k < buf.Length ==>
          buf[k] == if BUF_SIZE * t <= k < BUF_SIZE * t + i then TERM_EOF else old(buf[k])
      {
        buf[BUF_SIZE * t + i] := TERM_EOF;
        i := i + 1;
      }
    }

    /** stdin_read, once the enter flag is up: the reader gets the start of the line, padded with zeros, and
        the line is gone whether or not it was read to its end. */
    method StdinRead(t: Term, target: array?<Byte>, nbytes: nat) returns (n: int)
      requires Intact()
      requires target != null ==> enter[t] && nbytes <= target.Length && target != buf && target != video
      modifies buf, index, enter, target
      ensures Intact()
      ensures target == null ==> n == -1 && Lines() == old(Lines())
      ensures target != null ==> Lines() == After(old(Lines()), Read(t, nbytes))
      ensures target != null ==> n >= 0 && Gives(target[..nbytes], n) == old(AnswerTo(Lines(), t, nbytes))
      ensures target != null ==> n == (if |old(Line(t))| < nbytes then |old(Line(t))| else nbytes)
      ensures target != null ==>
        target[..n] == old(Line(t))[..n] && forall k :: n <= k < nbytes ==> target[k] == 0
      ensures target != null ==> target[nbytes..] == old(target[nbytes..])
    {
      hide RowHolds, Row;
      if target == null {
        return -1;
      }
      n := CopyLine(t, target, nbytes);
      assert target[..nbytes] == Line(t)[..n] + Zeros(nbytes - n);
      DropLine(t, nbytes);
    }

    /** The line and its enter flag go. */
    method DropLine(t: Term, nbytes: nat)
      requires Intact() && enter[t]
      modifies buf, index, enter
      ensures Intact() && Lines() == After(old(Lines()), Read(t, nbytes))
    {
      hide RowHolds, Row;
      enter[t] := false;
      ClearBuf(t);
    }

    method CopyLine(t: nat, target: array<Byte>, nbytes: nat) returns (n: nat)
      requires Intact() && t < TERMS && nbytes <= target.Length && target != buf && target != video
      modifies target
      ensures n == if |Line(t)| < nbytes then |Line(t)| else nbytes
      ensures target[..] == Line(t)[..n] + Zeros(nbytes - n) + old(target[..])[nbytes..]
    {
      hide Row, RowHolds;
      ghost var line, rest := Line(t), target[nbytes..];
      RowByte(buf[..], t, index[t], 0);
      ZeroTarget(target, nbytes);
      n := 0;
      while n < BUF_SIZE
        invariant n <= |line| && n <= nbytes
        invariant target[..n] == line[..n]
        invariant forall k :: n <= k < nbytes ==> target[k] == 0
        invariant target[nbytes..] == rest
      {
        RowByte(buf[..], t, index[t], n);
        if buf[BUF_SIZE * t + n] == TERM_EOF {
          break;
        }
        if n >= nbytes {
          break;
        }
        target[n] := buf[BUF_SIZE * t + n];
        n := n + 1;
      }
      assert target[..] == target[..n] + target[n..nbytes] + target[nbytes..];
      assert target[n..nbytes] == Zeros(nbytes - n);
    }

    method ZeroTarget(target: array<Byte>, nbytes: nat)
      requires nbytes <= target.Length
      modifies target
      ensures forall k :: 0 <= k < nbytes ==> target[k] == 0
      ensures target[nbytes..] == old(target[nbytes..])
    {
      var i: nat := 0;
      while i < nbytes
        invariant i <= nbytes
        invariant forall k :: 0 <= k < i ==> target[k] == 0
        invariant target[nbytes..] == old(target[nbytes..])
      {
        target[i] := 0;
        i := i + 1;
      }
    }
  }
}
