/** The text screen of one terminal: character cells, a cursor, and what printing a byte does to them.
    Attribute bytes are not modelled; a cell is its character byte. */
module Screens {

  type Byte = b: int | 0 <= b < 256

  const COLS := 80
  const ROWS := 25
  const CELLS := 2000

  const NEWLINE: Byte := 10
  const RETURN: Byte := 13

  datatype Screen = Screen(cells: seq<Byte>, x: nat, y: nat) {
    /** The cursor may rest at column 80: the wrap is deferred until the next byte. */
    predicate Valid() {
      |cells| == CELLS && x <= COLS && y < ROWS
    }
  }

  predicate IsBreak(c: Byte) {
    c == NEWLINE || c == RETURN
  }

  /** What a byte is when it is read as a plain char, which is signed. */
  function AsChar(b: Byte): int {
    if b < 128 then b else b - 256
  }

  function Zeros(n: nat): (z: seq<Byte>)
    ensures |z| == n
    ensures forall i :: 0 <= i < n ==> z[i] == 0
  {
    seq(n, _ => 0)
  }

  function Blank(): (s: Screen)
    ensures s.Valid()
  {
    Screen(Zeros(CELLS), 0, 0)
  }

  function Scroll(cells: seq<Byte>): (r: seq<Byte>)
    requires |cells| == CELLS
    ensures |r| == CELLS
  {
    cells[COLS..] + Zeros(COLS)
  }

  /** The effect of putc or kbd_putc on the screen it writes to. */
  function PutChar(s: Screen, c: Byte): (r: Screen)
    requires s.Valid()
    ensures r.Valid()
  {
    if IsBreak(c) then
      if s.y == ROWS - 1 then Screen(Scroll(s.cells), 0, s.y) else Screen(s.cells, 0, s.y + 1)
    else if s.x < COLS then
      Screen(s.cells[COLS * s.y + s.x := c], s.x + 1, s.y)
    else if s.y == ROWS - 1 then
      Screen(Scroll(s.cells)[COLS * s.y := c], 1, s.y)
    else
      Screen(s.cells[COLS * (s.y + 1) := c], 1, s.y + 1)
  }

  function Feed(s: Screen, text: seq<Byte>): (r: Screen)
    requires s.Valid()
    ensures r.Valid()
  {
    if text == [] then s else PutChar(Feed(s, text[..|text| - 1]), text[|text| - 1])
  }

  /** The screen part of a backspace: the cell before the cursor becomes 0 and the cursor moves onto it. */
  function EraseBack(s: Screen): (r: Screen)
    requires s.Valid()
    ensures r.Valid()
  {
    var pos := COLS * s.y + s.x;
    if pos == 0 then s else Screen(s.cells[pos - 1 := 0], (pos - 1) % COLS, (pos - 1) / COLS)
  }

  // ---------------------------------------------------------------- in place

  /** Moves every row up by one and blanks the bottom row. */
  method ScrollDown(video: array<Byte>) returns (x: nat, y: nat)
    requires video.Length == CELLS
    modifies video
    ensures video[..] == Scroll(old(video[..]))
    ensures x == 0 && y == ROWS - 1
  {
    var i := 1;
    while i < ROWS
      invariant 1 <= i <= ROWS
      invariant forall k :: 0 <= k < COLS * (i - 1) ==> video[k] == old(video[k + COLS])
      invariant forall k :: COLS * (i - 1) <= k < CELLS ==> video[k] == old(video[k])
    {
      MoveRow(video, COLS * (i - 1), COLS * i);
      i := i + 1;
    }
    y := ROWS - 1;
    i := 0;
    while i < COLS
      invariant 0 <= i <= COLS
      invariant forall k :: 0 <= k < COLS * y ==> video[k] == old(video[k + COLS])
      invariant forall k :: COLS * y <= k < COLS * y + i ==> video[k] == 0
    {
      video[COLS * y + i] := 0;
      i := i + 1;
    }
    x := 0;
  }

  /** memmove of one row to the row above it. */
  method MoveRow(video: array<Byte>, dst: nat, src: nat)
    requires dst + COLS == src && src + COLS <= video.Length
    modifies video
    ensures forall k :: 0 <= k < video.Length ==>
      video[k] == if dst <= k < src then old(video[k + COLS]) else old(video[k])
  {
    var j := 0;
    while j < COLS
      invariant 0 <= j <= COLS
      invariant forall k :: 0 <= k < video.Length ==>
        video[k] == if dst <= k < dst + j then old(video[k + COLS]) else old(video[k])
    {
      video[dst + j] := video[src + j];
      j := j + 1;
    }
  }

  /** putc and kbd_putc: the two differ only in the memory and the cursor they are given. */
  method Putc(video: array<Byte>, x0: nat, y0: nat, c: Byte) returns (x: nat, y: nat)
    requires Screen(video[..], x0, y0).Valid()
    modifies video
    ensures Screen(video[..], x, y) == PutChar(Screen(old(video[..]), x0, y0), c)
  {
    x, y := x0, y0;
    if c == NEWLINE || c == RETURN {
      if y == ROWS - 1 {
        x, y := ScrollDown(video);
      } else {
        y := y + 1;
        x := 0;
      }
      return;
    }
    if x == COLS {
      if y == ROWS - 1 {
        x, y := ScrollDown(video);
      } else {
        y := y + 1;
        x := 0;
      }
    }
    video[COLS * y + x] := c;
    x := x + 1;
    x := x % (COLS + 1);
    y := (y + x / (COLS + 1)) % ROWS;
  }

  /** The screen part of term_del: step back, overprint with 0, step back again. */
  method TermDelete(video: array<Byte>, x0: nat, y0: nat) returns (x: nat, y: nat)
    requires Screen(video[..], x0, y0).Valid()
    modifies video
    ensures Screen(video[..], x, y) == EraseBack(Screen(old(video[..]), x0, y0))
  {
    x, y := x0, y0;
    var pos := y * COLS + x;
    if pos != 0 {
      pos := pos - 1;
      x := pos % COLS;
      y := pos / COLS;
      var _, _ := Putc(video, x, y, 0);
    }
  }

  /** clear: every character cell becomes 0. */
  method Clear(video: array<Byte>)
    requires video.Length == CELLS
    modifies video
    ensures video[..] == Zeros(CELLS)
  {
    var i := 0;
    while i < ROWS * COLS
      invariant 0 <= i <= CELLS
      invariant forall k :: 0 <= k < i ==> video[k] == 0
    {
      video[i] := 0;
      i := i + 1;
    }
  }

  // ------------------------------------------------- the layout of a whole text

  /** The text cut at each newline (10) and return (13); a trailing break leaves an empty last paragraph. */
  function Paragraphs(text: seq<Byte>): (ps: seq<seq<Byte>>)
    ensures |ps| >= 1
  {
    if text == [] then [[]]
    else
      var rest := Paragraphs(text[1..]);
      if text[0] == 10 || text[0] == 13 then [[]] + rest else [[text[0]] + rest[0]] + rest[1..]
  }

  /** One paragraph cut into rows of 80; a full row is not followed by an empty one. */
  function Chunks(p: seq<Byte>): (rows: seq<seq<Byte>>)
    ensures |rows| >= 1
    ensures forall i :: 0 <= i < |rows| ==> |rows[i]| <= COLS
  {
    if |p| <= COLS then [p] else [p[..COLS]] + Chunks(p[COLS..])
  }

  function AllChunks(ps: seq<seq<Byte>>): (rows: seq<seq<Byte>>)
    ensures |rows| >= |ps|
    ensures forall i :: 0 <= i < |rows| ==> |rows[i]| <= COLS
  {
    if ps == [] then [] else Chunks(ps[0]) + AllChunks(ps[1..])
  }

  /** The 80-column layout of a whole text, however long. */
  function Rows(text: seq<Byte>): (rows: seq<seq<Byte>>)
    ensures |rows| >= 1
    ensures forall i :: 0 <= i < |rows| ==> |rows[i]| <= COLS
  {
    AllChunks(Paragraphs(text))
  }

  function Top(rows: seq<seq<Byte>>): nat {
    if |rows| <= ROWS then 0 else |rows| - ROWS
  }

  function CellAt(rows: seq<seq<Byte>>, r: nat, col: nat): Byte {
    if r < |rows| && col < |rows[r]| then rows[r][col] else 0
  }

  /** The last 25 rows of a layout, with the cursor after its last byte. */
  function Render(rows: seq<seq<Byte>>): (s: Screen)
    requires |rows| >= 1
    requires forall i :: 0 <= i < |rows| ==> |rows[i]| <= COLS
    ensures s.Valid()
  {
    Screen(seq(CELLS, i requires 0 <= i => CellAt(rows, Top(rows) + i / COLS, i % COLS)), |rows[|rows| - 1]|,
           |rows| - 1 - Top(rows))
  }

  function AppendByte(rows: seq<seq<Byte>>, c: Byte): (r: seq<seq<Byte>>)
    requires |rows| >= 1
    requires forall i :: 0 <= i < |rows| ==> |rows[i]| <= COLS
    ensures |r| >= 1
    ensures forall i :: 0 <= i < |r| ==> |r[i]| <= COLS
  {
    var n := |rows| - 1;
    if IsBreak(c) then rows + [[]]
    else if |rows[n]| < COLS then rows[..n] + [rows[n] + [c]]
    else rows + [[c]]
  }

  function SnocParagraph(ps: seq<seq<Byte>>, c: Byte): (r: seq<seq<Byte>>)
    requires |ps| >= 1
    ensures |r| >= 1
  {
    var n := |ps| - 1;
    if IsBreak(c) then ps + [[]] else ps[..n] + [ps[n] + [c]]
  }

  lemma SnocAfterCons(b: Byte, rest: seq<seq<Byte>>, c: Byte)
    requires |rest| >= 1
    ensures SnocParagraph([[]] + rest, c) == [[]] + SnocParagraph(rest, c)
    ensures var more := SnocParagraph(rest, c);
      SnocParagraph([[b] + rest[0]] + rest[1..], c) == [[b] + more[0]] + more[1..]
  {
    if !IsBreak(c) && |rest| == 1 {
      assert [b] + (rest[0] + [c]) == [b] + rest[0] + [c];
    }
  }

  lemma {:induction false} ParagraphsSnoc(text: seq<Byte>, c: Byte)
    ensures Paragraphs(text + [c]) == SnocParagraph(Paragraphs(text), c)
  {
    if text == [] {
      var none: seq<Byte> := [];
      assert text + [c] == [c] && [c][1..] == none;
      assert [c] + none == none + [c];
      assert Paragraphs(none) == [none];
    } else {
      ParagraphsSnoc(text[1..], c);
      assert (text + [c])[1..] == text[1..] + [c];
      SnocAfterCons(text[0], Paragraphs(text[1..]), c);
    }
  }

  lemma {:induction false} ChunksSnoc(p: seq<Byte>, c: Byte)
    requires !IsBreak(c)
    ensures Chunks(p + [c]) == AppendByte(Chunks(p), c)
  {
    if |p| < COLS {
    } else if |p| == COLS {
      assert (p + [c])[..COLS] == p && (p + [c])[COLS..] == [c];
    } else {
      ChunksSnoc(p[COLS..], c);
      assert (p + [c])[..COLS] == p[..COLS];
      assert (p + [c])[COLS..] == p[COLS..] + [c];
    }
  }

  lemma {:induction false} AllChunksSnoc(ps: seq<seq<Byte>>, q: seq<Byte>)
    ensures AllChunks(ps + [q]) == AllChunks(ps) + Chunks(q)
  {
    if ps == [] {
      assert ps + [q] == [q] && [q][1..] == [];
      assert AllChunks([q]) == Chunks(q) + AllChunks([]);
    } else {
      AllChunksSnoc(ps[1..], q);
      assert (ps + [q])[1..] == ps[1..] + [q];
    }
  }

  lemma AppendByteRight(above: seq<seq<Byte>>, below: seq<seq<Byte>>, c: Byte)
    requires |below| >= 1
    requires forall i :: 0 <= i < |above| ==> |above[i]| <= COLS
    requires forall i :: 0 <= i < |below| ==> |below[i]| <= COLS
    ensures AppendByte(above + below, c) == above + AppendByte(below, c)
  {
  }

  lemma LastParagraphGrows(front: seq<seq<Byte>>, last: seq<Byte>, c: Byte)
    requires !IsBreak(c)
    ensures AllChunks(front + [last + [c]]) == AppendByte(AllChunks(front + [last]), c)
  {
    AllChunksSnoc(front, last);
    AllChunksSnoc(front, last + [c]);
    ChunksSnoc(last, c);
    AppendByteRight(AllChunks(front), Chunks(last), c);
  }

  /** The layout of a text with one more byte changes only at its end. */
  lemma RowsSnoc(text: seq<Byte>, c: Byte)
    ensures Rows(text + [c]) == AppendByte(Rows(text), c)
  {
    var ps := Paragraphs(text);
    var n := |ps| - 1;
    ParagraphsSnoc(text, c);
    if IsBreak(c) {
      AllChunksSnoc(ps, []);
    } else {
      assert ps == ps[..n] + [ps[n]];
      LastParagraphGrows(ps[..n], ps[n], c);
    }
  }

  lemma CellAfterAppend(rows: seq<seq<Byte>>, c: Byte, r: nat, col: nat)
    requires |rows| >= 1 && col < COLS
    requires forall i :: 0 <= i < |rows| ==> |rows[i]| <= COLS
    ensures var n := |rows| - 1;
      CellAt(AppendByte(rows, c), r, col) ==
        if !IsBreak(c) && |rows[n]| < COLS && r == n && col == |rows[n]| then c
        else if !IsBreak(c) && |rows[n]| == COLS && r == n + 1 && col == 0 then c
        else CellAt(rows, r, col)
  {
  }

  lemma RenderedCell(rows: seq<seq<Byte>>, q: nat, col: nat)
    requires |rows| >= 1 && q < ROWS && col < COLS
    requires forall i :: 0 <= i < |rows| ==> |rows[i]| <= COLS
    ensures COLS * q + col < CELLS
    ensures Render(rows).cells[COLS * q + col] == CellAt(rows, Top(rows) + q, col)
  {
  }

  /** The cells of a screen after PutChar, row by row. */
  lemma PrintedCell(s: Screen, c: Byte, q: nat, col: nat)
    requires s.Valid() && q < ROWS && col < COLS
    ensures var scrolls := s.y == ROWS - 1 && (IsBreak(c) || s.x == COLS);
      var above := if q + 1 < ROWS then s.cells[COLS * (q + 1) + col] else 0;
      var kept := if scrolls then above else s.cells[COLS * q + col];
      PutChar(s, c).cells[COLS * q + col] ==
        if !IsBreak(c) && s.x < COLS && q == s.y && col == s.x then c
        else if !IsBreak(c) && s.x == COLS && (q == s.y + 1 || (scrolls && q == s.y)) && col == 0 then c
        else kept
  {
  }

  /** Printing one byte on a rendered layout renders the extended layout. */
  lemma PutCharRenders(rows: seq<seq<Byte>>, c: Byte)
    requires |rows| >= 1
    requires forall i :: 0 <= i < |rows| ==> |rows[i]| <= COLS
    ensures PutChar(Render(rows), c) == Render(AppendByte(rows, c))
  {
    var a := PutChar(Render(rows), c);
    var b := Render(AppendByte(rows, c));
    forall i | 0 <= i < CELLS ensures a.cells[i] == b.cells[i] {
      assert i == COLS * (i / COLS) + i % COLS;
      CellStep(rows, c, i / COLS, i % COLS);
    }
    assert a.cells == b.cells;
  }

  lemma CellStep(rows: seq<seq<Byte>>, c: Byte, q: nat, col: nat)
    requires |rows| >= 1 && q < ROWS && col < COLS
    requires forall i :: 0 <= i < |rows| ==> |rows[i]| <= COLS
    ensures PutChar(Render(rows), c).cells[COLS * q + col] == Render(AppendByte(rows, c)).cells[COLS * q + col]
  {
    RenderedCell(rows, q, col);
    RenderedCell(AppendByte(rows, c), q, col);
    if q + 1 < ROWS { RenderedCell(rows, q + 1, col); }
    PrintedCell(Render(rows), c, q, col);
    CellAfterAppend(rows, c, Top(AppendByte(rows, c)) + q, col);
  }

  /** After any text printed on a cleared screen, the screen shows the last 25 rows of the text's layout. */
  lemma {:induction false} ScreenShowsLastRows(text: seq<Byte>)
    ensures Feed(Blank(), text) == Render(Rows(text))
  {
    if text == [] {
      assert Rows([]) == [[]] by {
        assert AllChunks([[]]) == Chunks([]) + AllChunks([]);
      }
      assert Render([[]]).cells == Blank().cells;
    } else {
      var n := |text| - 1;
      ScreenShowsLastRows(text[..n]);
      assert text == text[..n] + [text[n]];
      RowsSnoc(text[..n], text[n]);
      PutCharRenders(Rows(text[..n]), text[n]);
    }
  }

  lemma {:induction false} FeedSplit(s: Screen, a: seq<Byte>, b: seq<Byte>)
    requires s.Valid()
    ensures Feed(s, a + b) == Feed(Feed(s, a), b)
  {
    if b == [] {
      assert a + b == a;
    } else {
      FeedSplit(s, a, b[..|b| - 1]);
      assert (a + b)[..|a + b| - 1] == a + b[..|b| - 1];
    }
  }
}
