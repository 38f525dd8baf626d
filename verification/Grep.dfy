/** grep over one file: a 1024-byte buffer, lines found in it one by one, and the unfinished last line carried
    over to the front of the buffer before the next read. */
module Grep {
  import opened Screens
  import FileSystem

  const BUFSIZE := 1024

  // ------------------------------------------------------------------ what the whole file says

  /** The file cut at its newlines. */
  function Lines(text: seq<Byte>): (ls: seq<seq<Byte>>)
    ensures |ls| >= 1
  {
    if text == [] then [[]]
    else
      var rest := Lines(text[1..]);
      if text[0] == NEWLINE then [[]] + rest else [[text[0]] + rest[0]] + rest[1..]
  }

  /** A line in pieces of 1024 bytes; the last piece is shorter. */
  function Pieces(line: seq<Byte>): (ps: seq<seq<Byte>>)
    ensures |ps| >= 1
  {
    if |line| < BUFSIZE then [line] else [line[..BUFSIZE]] + Pieces(line[BUFSIZE..])
  }

  function AllPieces(lines: seq<seq<Byte>>): seq<seq<Byte>> {
    if lines == [] then [] else Pieces(lines[0]) + AllPieces(lines[1..])
  }

  predicate OccursAt(s: seq<Byte>, line: seq<Byte>, i: nat) {
    i + |s| <= |line| && line[i..i + |s|] == s
  }

  predicate Occurs(s: seq<Byte>, line: seq<Byte>) {
    exists i :: 0 <= i <= |line| && OccursAt(s, line, i)
  }

  /** The lines in which the pattern occurs, once each, in order. */
  function Containing(s: seq<Byte>, lines: seq<seq<Byte>>): seq<seq<Byte>> {
    if lines == [] then [] else (if Occurs(s, lines[0]) then [lines[0]] else []) + Containing(s, lines[1..])
  }

  /** The first byte of the pattern is compared as signed with an unsigned byte of the file, so it must be below
      128 to be found; and an empty pattern is never found. */
  predicate Searchable(s: seq<Byte>) {
    s != [] && s[0] < 128
  }

  predicate Hits(s: seq<Byte>, line: seq<Byte>) {
    Searchable(s) && Occurs(s, line)
  }

  /** The lines that grep takes to match. */
  function Matching(s: seq<Byte>, lines: seq<seq<Byte>>): seq<seq<Byte>> {
    if lines == [] then [] else (if Hits(s, lines[0]) then [lines[0]] else []) + Matching(s, lines[1..])
  }

  /** What is still to be printed when this much of the file is left. */
  function Due(s: seq<Byte>, text: seq<Byte>): seq<seq<Byte>> {
    Matching(s, AllPieces(Lines(text)))
  }

  /** The lines put together again, with a newline between each two. */
  function Joined(lines: seq<seq<Byte>>): seq<Byte>
    requires lines != []
  {
    if |lines| == 1 then lines[0] else lines[0] + [10] + Joined(lines[1..])
  }

  /** A file and its lines say the same: none of them has a newline in it, and with newlines between them they are the
      file. */
  lemma {:induction false} LinesRoundTrip(text: seq<Byte>)
    ensures Joined(Lines(text)) == text && forall l :: l in Lines(text) ==> 10 !in l
  {
    if text != [] {
      var rest := Lines(text[1..]);
      LinesRoundTrip(text[1..]);
      assert text == [text[0]] + text[1..];
      if text[0] == NEWLINE {
        assert ([[]] + rest)[1..] == rest && [] + [NEWLINE] + text[1..] == text;
      } else {
        assert ([[text[0]] + rest[0]] + rest[1..])[1..] == rest[1..];
        assert rest[0] in rest;
        if |rest| > 1 {
          assert [text[0]] + (rest[0] + [10] + Joined(rest[1..])) == [text[0]] + rest[0] + [10] + Joined(rest[1..]);
        }
      }
    }
  }

  /** The pieces of a line are all of it, in order: 1024 bytes each, and the last one shorter. */
  lemma {:induction false} PiecesRoundTrip(line: seq<Byte>)
    ensures var ps := Pieces(line);
      && Flat(ps) == line && |ps[|ps| - 1]| < 1024
      && forall i :: 0 <= i < |ps| - 1 ==> |ps[i]| == 1024
  {
    if |line| >= BUFSIZE {
      PiecesRoundTrip(line[BUFSIZE..]);
      assert Pieces(line)[1..] == Pieces(line[BUFSIZE..]);
      assert line == line[..BUFSIZE] + line[BUFSIZE..];
    } else {
      assert Flat([line]) == line + Flat([]);
    }
  }

  function Flat(ps: seq<seq<Byte>>): seq<Byte> {
    if ps == [] then [] else ps[0] + Flat(ps[1..])
  }

  lemma {:induction false} MatchingJoin(s: seq<Byte>, a: seq<seq<Byte>>, b: seq<seq<Byte>>)
    ensures Matching(s, a + b) == Matching(s, a) + Matching(s, b)
  {
    if a == [] {
      assert a + b == b;
    } else {
      assert (a + b)[1..] == a[1..] + b;
      MatchingJoin(s, a[1..], b);
    }
  }

  lemma {:induction false} LinesOfLine(line: seq<Byte>, rest: seq<Byte>)
    requires NEWLINE !in line
    ensures Lines(line + rest) == [line + Lines(rest)[0]] + Lines(rest)[1..]
  {
    if line == [] {
      assert line + rest == rest && line + Lines(rest)[0] == Lines(rest)[0];
    } else {
      assert (line + rest)[1..] == line[1..] + rest;
      LinesOfLine(line[1..], rest);
      assert [line[0]] + (line[1..] + Lines(rest)[0]) == line + Lines(rest)[0];
    }
  }

  /** A newline-terminated line at the front is matched by itself. */
  lemma DueLine(s: seq<Byte>, line: seq<Byte>, rest: seq<Byte>)
    requires NEWLINE !in line && |line| < BUFSIZE
    ensures Due(s, line + [NEWLINE] + rest) == Matching(s, [line]) + Due(s, rest)
  {
    assert line + [NEWLINE] + rest == line + ([NEWLINE] + rest);
    assert ([NEWLINE] + rest)[1..] == rest;
    LinesOfLine(line, [NEWLINE] + rest);
    assert Lines([NEWLINE] + rest) == [[]] + Lines(rest);
    assert line + [] == line;
    assert ([line] + Lines(rest))[1..] == Lines(rest);
    MatchingJoin(s, [line], AllPieces(Lines(rest)));
  }

  /** A full buffer without a newline is matched as a piece of its line. */
  lemma DuePiece(s: seq<Byte>, piece: seq<Byte>, rest: seq<Byte>)
    requires NEWLINE !in piece && |piece| == BUFSIZE
    ensures Due(s, piece + rest) == Matching(s, [piece]) + Due(s, rest)
  {
    LinesOfLine(piece, rest);
    var ls := Lines(rest);
    assert ls == [ls[0]] + ls[1..];
    assert (piece + ls[0])[..BUFSIZE] == piece && (piece + ls[0])[BUFSIZE..] == ls[0];
    assert AllPieces([piece + ls[0]] + ls[1..]) == [piece] + AllPieces(ls) by {
      assert ([piece + ls[0]] + ls[1..])[1..] == ls[1..];
      assert Pieces(piece + ls[0]) + AllPieces(ls[1..]) == [piece] + (Pieces(ls[0]) + AllPieces(ls[1..]));
    }
    MatchingJoin(s, [piece], AllPieces(ls));
  }

  /** The unterminated end of the file is matched by itself. */
  lemma DueLast(s: seq<Byte>, line: seq<Byte>)
    requires NEWLINE !in line && |line| < BUFSIZE
    ensures Due(s, line) == Matching(s, [line])
  {
    LinesOfLine(line, []);
    assert line + [] == line;
    assert Lines([]) == [[]];
    assert AllPieces([line]) == [line] + AllPieces([]);
  }

  lemma NothingDue(s: seq<Byte>)
    ensures Due(s, []) == []
  {
    DueLast(s, []);
  }

  // ------------------------------------------------------------------ the buffer

  /** How a text comes to be read when the byte after the buffer still holds a newline from before: the first
      buffer that is full and does not end in a newline is taken to end in one, which then overwrites that byte. */
  function Heard(text: seq<Byte>): seq<Byte> {
    if |text| < BUFSIZE then text
    else if text[BUFSIZE - 1] == NEWLINE then text[..BUFSIZE] + Heard(text[BUFSIZE..])
    else text[..BUFSIZE] + [NEWLINE] + text[BUFSIZE..]
  }

  function Seen(stale: bool, text: seq<Byte>): seq<Byte> {
    if stale then Heard(text) else text
  }

  /** The same for the rest of a buffer and what follows it in the file. */
  function View(stale: bool, full: bool, rest: seq<Byte>, tail: seq<Byte>): seq<Byte> {
    if !stale || !full then rest + tail
    else if rest != [] && rest[|rest| - 1] == NEWLINE then rest + Heard(tail)
    else rest + [NEWLINE] + tail
  }

  lemma ViewIsSeen(stale: bool, text: seq<Byte>, tail: seq<Byte>)
    requires |text| <= BUFSIZE && (|text| < BUFSIZE ==> tail == [])
    ensures View(stale, |text| == BUFSIZE, text, tail) == Seen(stale, text + tail)
  {
    if |text| == BUFSIZE {
      assert (text + tail)[..BUFSIZE] == text && (text + tail)[BUFSIZE..] == tail;
    }
  }

  /** A terminated line in the buffer is matched by itself. */
  lemma LineInView(s: seq<Byte>, stale: bool, full: bool, line: seq<Byte>, rest: seq<Byte>, tail: seq<Byte>)
    requires NEWLINE !in line && |line| < BUFSIZE && (!full ==> tail == [])
    ensures Due(s, View(stale, full, line + [NEWLINE] + rest, tail)) ==
      Matching(s, [line]) + Due(s, if rest == [] then Seen(stale, tail) else View(stale, full, rest, tail))
  {
    hide Due, Heard;
    var after := if rest == [] then Seen(stale, tail) else View(stale, full, rest, tail);
    if rest == [] && !full {
      EmptySeen(stale);
    }
    assert View(stale, full, line + [NEWLINE] + rest, tail) == line + [NEWLINE] + after;
    DueLine(s, line, after);
  }

  lemma EmptySeen(stale: bool)
    ensures Seen(stale, []) == []
  {
  }

  /** What is left in the buffer without a newline is matched by itself, if the buffer held nothing else, if the
      file is at its end, or if a stale newline follows. */
  lemma EndInView(s: seq<Byte>, stale: bool, full: bool, line: seq<Byte>, tail: seq<Byte>)
    requires NEWLINE !in line && |line| <= BUFSIZE
    requires if full then line != [] && (stale || |line| == BUFSIZE) else tail == [] && |line| < BUFSIZE
    ensures Due(s, View(stale, full, line, tail)) == Matching(s, [line]) + Due(s, tail)
  {
    hide Due;
    if !full {
      assert line + tail == line;
      DueLast(s, line);
      NothingDue(s);
    } else if !stale {
      DuePiece(s, line, tail);
    } else if |line| < BUFSIZE {
      assert line[|line| - 1] in line;
      DueLine(s, line, tail);
    } else {
      assert line[|line| - 1] in line;
      assert line + [NEWLINE] + tail == line + ([] + [NEWLINE] + tail);
      DuePiece(s, line, [] + [NEWLINE] + tail);
      DueLine(s, [], tail);
      assert Matching(s, [[]]) == [] + Matching(s, []);
    }
  }

  /** ece391_strncmp against the pattern, on text that a NUL ends. */
  method Strncmp(data: array<Byte>, at: nat, s: seq<Byte>, ghost end: nat) returns (diff: int)
    requires at <= end < data.Length && data[end] == 0 && 0 !in data[at..end]
    requires 0 !in s && s != []
    ensures diff == 0 <==> OccursAt(s, data[at..end], 0)
  {
    var n, k := |s|, 0;
    ghost var text := data[at..end];
    while data[at + k] == s[k]
      invariant n == |s| - k && 0 <= k < |s| && at + k <= end
      invariant text[..k] == s[..k]
      decreases |s| - k
    {
      assert s[k] in s;
      assert at + k < end && text[k] == s[k];
      assert text[..k + 1] == text[..k] + [text[k]] && s[..k + 1] == s[..k] + [s[k]];
      n := n - 1;
      if n == 0 {
        assert s[..k + 1] == s;
        return 0;
      }
      k := k + 1;
    }
    var a: int, b: int := data[at + k], s[k];
    diff := a - b;
    assert at + k < end ==> text[k] == data[at + k];
    assert |s| <= |text| ==> text[0..|s|][k] == text[k];
  }

  /** The search of one line: true at the first place where the pattern begins. */
  method SearchLine(data: array<Byte>, start: nat, end: nat, s: seq<Byte>) returns (found: bool)
    requires start <= end < data.Length && data[end] == 0 && 0 !in data[start..end]
    requires 0 !in s
    ensures found <==> Hits(s, data[start..end])
  {
    ghost var line := data[start..end];
    var first := if s == [] then 0 else AsChar(s[0]);
    var check := start;
    while check < end
      invariant start <= check <= end
      invariant Searchable(s) ==> forall i :: 0 <= i < check - start ==> !OccursAt(s, line, i)
    {
      assert data[check..end] == line[check - start..];
      assert data[check] == line[check - start] && line[check - start] in line;
      if s != [] {
        ShiftedMatch(s, line, check - start);
      }
      if first == data[check] {
        var diff := Strncmp(data, check, s, end);
        if diff == 0 {
          return true;
        }
      }
      check := check + 1;
    }
    found := false;
  }

  lemma ShiftedMatch(s: seq<Byte>, line: seq<Byte>, i: nat)
    requires i < |line| && s != []
    ensures OccursAt(s, line, i) <==> OccursAt(s, line[i..], 0)
    ensures OccursAt(s, line, i) ==> s[0] == line[i]
  {
  }

  /** ece391_strcpy moving a NUL-terminated text down in the same buffer. */
  method CopyDown(data: array<Byte>, from: nat, ghost end: nat)
    requires 0 < from <= end < data.Length && data[end] == 0 && 0 !in data[from..end]
    modifies data
    ensures data[..end - from] == old(data[from..end]) && data[end - from] == 0
    ensures data[end - from + 1..] == old(data[end - from + 1..])
  {
    var i := 0;
    ghost var text := data[from..end];
    while true
      invariant 0 <= i <= end - from
      invariant data[..i] == text[..i] && data[i..] == old(data[i..])
      decreases end - from - i
    {
      var c := data[from + i];
      assert i < end - from ==> c == text[i] && text[i] in text;
      data[i] := c;
      if c == 0 {
        break;
      }
      i := i + 1;
    }
  }

  method FindLineEnd(data: array<Byte>, start: nat, last: nat) returns (end: nat)
    requires start <= last < data.Length
    ensures start <= end <= last && NEWLINE !in data[start..end] && (end < last ==> data[end] == NEWLINE)
  {
    end := start;
    while end < last && data[end] != NEWLINE
      invariant start <= end <= last && NEWLINE !in data[start..end]
    {
      assert data[start..end + 1] == data[start..end] + [data[end]];
      end := end + 1;
    }
  }

  /** Terminates, searches and reports the line between two places of the buffer. */
  method ReportLine(s: seq<Byte>, data: array<Byte>, start: nat, end: nat) returns (found: seq<seq<Byte>>)
    requires start <= end < data.Length && 0 !in data[start..end] && 0 !in s
    modifies data
    ensures found == Matching(s, [old(data[start..end])])
    ensures data[..end] == old(data[..end]) && data[end] == 0 && data[end + 1..] == old(data[end + 1..])
  {
    data[end] := 0;
    assert data[start..end] == old(data[start..end]);
    var yes := SearchLine(data, start, end, s);
    found := if yes then [data[start..end]] else [];
    assert Matching(s, [data[start..end]]) == found + Matching(s, []);
  }

  /** Moves the unfinished line to the front of the buffer. */
  method CarryOver(data: array<Byte>, start: nat, last: nat)
    requires 0 < start <= last <= BUFSIZE < data.Length && 0 !in data[start..last]
    modifies data
    ensures data[..last - start] == old(data[start..last])
    ensures data[BUFSIZE] == if last == BUFSIZE then 0 else old(data[BUFSIZE])
  {
    data[last] := 0;
    assert data[start..last] == old(data[start..last]);
    ghost var byte := data[BUFSIZE];
    CopyDown(data, start, last);
    assert byte == data[last - start + 1..][BUFSIZE - (last - start) - 1];
  }

  /** One round of the inner loop, on the text between start and last. */
  method ScanLine(s: seq<Byte>, data: array<Byte>, start: nat, last: nat, more: bool, ghost tail: seq<Byte>)
    returns (done: bool, next: nat, hit: seq<seq<Byte>>)
    requires data.Length == BUFSIZE + 1 && start <= last <= BUFSIZE && 0 !in s
    requires 0 !in data[start..last] && (last == BUFSIZE ==> start < last)
    requires last < BUFSIZE ==> tail == []
    requires !more ==> last < BUFSIZE
    modifies data
    ensures done ==> next < BUFSIZE && 0 !in data[..next] && (!more ==> next == 0)
    ensures done ==> (data[BUFSIZE] == NEWLINE ==> old(data[BUFSIZE]) == NEWLINE)
    ensures done ==> hit + Due(s, Seen(data[BUFSIZE] == NEWLINE, data[..next] + tail)) ==
                     Due(s, View(old(data[BUFSIZE]) == NEWLINE, last == BUFSIZE, old(data[start..last]), tail))
    ensures !done ==> start < next < last && 0 !in data[next..last] && data[BUFSIZE] == old(data[BUFSIZE])
    ensures !done ==> hit + Due(s, View(data[BUFSIZE] == NEWLINE, last == BUFSIZE, data[next..last], tail)) ==
                      Due(s, View(data[BUFSIZE] == NEWLINE, last == BUFSIZE, old(data[start..last]), tail))
  {
    hide Due, View, Heard, Seen;
    // Nothing is kept of a buffer that is done with.
    assert forall none: seq<Byte> :: none == [] ==> none + tail == tail;
    var end := FindLineEnd(data, start, last);
    if end < last {
      done, next, hit := PassLine(s, data, start, end, last, tail);
    } else if data[end] != NEWLINE && more && start != 0 {
      KeepLine(s, data, start, last, tail);
      done, next, hit := true, last - start, [];
    } else {
      hit := ReportEnd(s, data, start, last, tail);
      done, next := true, 0;
    }
  }

  /** A terminated line is reported and passed; the buffer is done if it was the last. */
  method PassLine(s: seq<Byte>, data: array<Byte>, start: nat, end: nat, last: nat, ghost tail: seq<Byte>)
    returns (done: bool, next: nat, hit: seq<seq<Byte>>)
    requires data.Length == BUFSIZE + 1 && start <= end < last <= BUFSIZE && 0 !in s
    requires 0 !in data[start..last] && NEWLINE !in data[start..end] && data[end] == NEWLINE
    requires last < BUFSIZE ==> tail == []
    modifies data
    ensures data[BUFSIZE] == old(data[BUFSIZE])
    ensures if done then next == 0 else start < next < last && 0 !in data[next..last]
    ensures var stale := data[BUFSIZE] == NEWLINE;
      hit + Due(s, if done then Seen(stale, tail) else View(stale, last == BUFSIZE, data[next..last], tail)) ==
      Due(s, View(stale, last == BUFSIZE, old(data[start..last]), tail))
  {
    hide Due, View, Heard, Seen;
    hit := ReportFound(s, data, start, end, last, tail);
    next := end + 1;
    done := next >= last;
    assert done <==> data[end + 1..last] == [];
    if done {
      next := 0;
    }
  }

  /** A line that is carried over: no stale newline follows it in the buffer. */
  lemma KeptInView(stale: bool, full: bool, line: seq<Byte>, tail: seq<Byte>)
    requires |line| < BUFSIZE && (full ==> !stale) && (!full ==> tail == [])
    ensures View(stale, full, line, tail) == line + tail
    ensures Seen(stale, line + tail) == line + tail && Seen(false, line + tail) == line + tail
  {
    if !full {
      assert line + tail == line;
    }
  }

  /** The unfinished line is kept for the next round; with no stale newline behind it, nothing of it is lost. */
  method KeepLine(s: seq<Byte>, data: array<Byte>, start: nat, last: nat, ghost tail: seq<Byte>)
    requires data.Length == BUFSIZE + 1 && 0 < start <= last <= BUFSIZE && 0 !in data[start..last]
    requires last < BUFSIZE ==> tail == []
    requires last == BUFSIZE ==> data[BUFSIZE] != NEWLINE
    modifies data
    ensures data[..last - start] == old(data[start..last])
    ensures data[BUFSIZE] == NEWLINE ==> old(data[BUFSIZE]) == NEWLINE
    ensures Due(s, Seen(data[BUFSIZE] == NEWLINE, data[..last - start] + tail)) ==
            Due(s, View(old(data[BUFSIZE]) == NEWLINE, last == BUFSIZE, old(data[start..last]), tail))
  {
    hide Due, View, Heard, Seen;
    KeptInView(data[BUFSIZE] == NEWLINE, last == BUFSIZE, data[start..last], tail);
    CarryOver(data, start, last);
  }

  method ReportFound(s: seq<Byte>, data: array<Byte>, start: nat, end: nat, last: nat, ghost tail: seq<Byte>)
    returns (hit: seq<seq<Byte>>)
    requires data.Length == BUFSIZE + 1 && start <= end < last <= BUFSIZE && 0 !in s
    requires 0 !in data[start..last] && NEWLINE !in data[start..end] && data[end] == NEWLINE
    requires last < BUFSIZE ==> tail == []
    modifies data
    ensures 0 !in data[end + 1..last] && data[BUFSIZE] == old(data[BUFSIZE])
    ensures var stale, rest := data[BUFSIZE] == NEWLINE, data[end + 1..last];
      hit + Due(s, if rest == [] then Seen(stale, tail) else View(stale, last == BUFSIZE, rest, tail)) ==
      Due(s, View(stale, last == BUFSIZE, old(data[start..last]), tail))
  {
    hide Due, View, Heard;
    ghost var line, rest := data[start..end], data[end + 1..last];
    ghost var whole := data[..];
    assert data[start..last] == line + [NEWLINE] + rest;
    hit := ReportLine(s, data, start, end);
    assert data[end + 1..last] == data[end + 1..][..last - end - 1];
    assert whole[end + 1..last] == whole[end + 1..][..last - end - 1];
    assert data[BUFSIZE] == data[end + 1..][BUFSIZE - end - 1];
    LineInView(s, data[BUFSIZE] == NEWLINE, last == BUFSIZE, line, rest, tail);
  }

  method ReportEnd(s: seq<Byte>, data: array<Byte>, start: nat, last: nat, ghost tail: seq<Byte>)
    returns (hit: seq<seq<Byte>>)
    requires data.Length == BUFSIZE + 1 && start <= last <= BUFSIZE && 0 !in s
    requires 0 !in data[start..last] && NEWLINE !in data[start..last]
    requires last < BUFSIZE ==> tail == []
    requires last == BUFSIZE ==> start < last && (data[BUFSIZE] == NEWLINE || start == 0)
    modifies data
    ensures data[BUFSIZE] == if last == BUFSIZE then 0 else old(data[BUFSIZE])
    ensures hit + Due(s, Seen(data[BUFSIZE] == NEWLINE, tail)) ==
            Due(s, View(old(data[BUFSIZE]) == NEWLINE, last == BUFSIZE, old(data[start..last]), tail))
  {
    hide Due, View, Heard;
    ghost var line, stale := data[start..last], data[BUFSIZE] == NEWLINE;
    hit := ReportLine(s, data, start, last);
    if last < BUFSIZE {
      assert data[BUFSIZE] == data[last + 1..][BUFSIZE - last - 1];
    }
    EmptySeen(stale);
    EndInView(s, stale, last == BUFSIZE, line, tail);
  }

  /** One pass over the buffer: whole lines are reported, an unfinished one is moved to the front. */
  method ScanBuffer(s: seq<Byte>, data: array<Byte>, last0: nat, more: bool, ghost tail: seq<Byte>)
    returns (last: nat, found: seq<seq<Byte>>)
    requires data.Length == BUFSIZE + 1 && last0 <= BUFSIZE && 0 !in s && 0 !in data[..last0]
    requires last0 < BUFSIZE ==> tail == []
    requires !more ==> last0 < BUFSIZE
    modifies data
    ensures last < BUFSIZE && 0 !in data[..last] && (!more ==> last == 0)
    ensures data[BUFSIZE] == NEWLINE ==> old(data[BUFSIZE]) == NEWLINE
    ensures found + Due(s, Seen(data[BUFSIZE] == NEWLINE, data[..last] + tail)) ==
            Due(s, Seen(old(data[BUFSIZE]) == NEWLINE, old(data[..last0]) + tail))
  {
    hide Due, View, Heard, Seen;
    found := [];
    var start := 0;
    ghost var stale, text := data[BUFSIZE] == NEWLINE, data[..last0];
    ghost var goal := Due(s, Seen(stale, text + tail));
    ViewIsSeen(stale, text, tail);
    assert data[0..last0] == data[..last0];
    while true
      invariant 0 <= start <= last0 && (last0 == BUFSIZE ==> start < last0)
      invariant 0 !in data[start..last0] && data[BUFSIZE] == old(data[BUFSIZE])
      invariant found + Due(s, View(stale, last0 == BUFSIZE, data[start..last0], tail)) == goal
      decreases last0 - start
    {
      var done, next, hit := ScanLine(s, data, start, last0, more, tail);
      found := found + hit;
      if done {
        last := next;
        return;
      }
      start := next;
    }
  }

  // ------------------------------------------------------------------ the whole file

  /** The read system call on a file that does not end on a block boundary: as many bytes as asked for and left.
      On a file that does, it never gives 0. */
  method Read(mem: FileSystem.Memory, inode: nat, pos: nat, data: array<Byte>, at: nat, request: nat)
    returns (cnt: int, next: nat)
    requires pos <= FileSystem.FileSize(mem, inode) && at + request <= data.Length && request <= FileSystem.BLOCK
    requires FileSystem.Readable(mem, inode) ==> FileSystem.FileSize(mem, inode) % FileSystem.BLOCK != 0
    modifies data
    ensures !FileSystem.Readable(mem, inode) ==> cnt == -1 && data[..] == old(data[..])
    ensures FileSystem.Readable(mem, inode) ==>
      var file := FileSystem.Content(mem, inode);
      && cnt == (if request <= |file| - pos then request else |file| - pos) && next == pos + cnt
      && data[..] == old(data[..at]) + file[pos..next] + old(data[at + cnt..])
  {
    hide FileSystem.Positions, FileSystem.BytesAt, FileSystem.Content, FileSystem.Readable;
    if FileSystem.Readable(mem, inode) {
      FileSystem.OneRead(mem, FileSystem.Desc(inode, pos), request);
    }
    cnt := FileSystem.ReadData(mem, inode, pos, data, at, request);
    next := FileSystem.Wrap(pos + cnt);
  }

  /** One read behind the text that was kept: what is in the buffer and what is left of the file are what they were
      together. */
  method FillUp(mem: FileSystem.Memory, inode: nat, pos: nat, data: array<Byte>, last: nat)
    returns (cnt: int, next: nat)
    requires data.Length == BUFSIZE + 1 && last < BUFSIZE && pos <= FileSystem.FileSize(mem, inode)
    requires FileSystem.Readable(mem, inode) ==>
      FileSystem.FileSize(mem, inode) % FileSystem.BLOCK != 0 && 0 !in FileSystem.Content(mem, inode)
    requires 0 !in data[..last]
    modifies data
    ensures data[BUFSIZE] == old(data[BUFSIZE])
    ensures cnt == -1 <==> !FileSystem.Readable(mem, inode)
    ensures cnt != -1 ==>
      var file := FileSystem.Content(mem, inode);
      && 0 <= cnt && next == pos + cnt <= |file| && last + cnt <= BUFSIZE && 0 !in data[..last + cnt]
      && (last + cnt < BUFSIZE ==> next == |file|) && (cnt == 0 ==> next == |file|)
      && old(data[..last]) + file[pos..] == data[..last + cnt] + file[next..]
  {
    hide FileSystem.Content, FileSystem.Readable;
    ghost var pending, byte := data[..last], data[BUFSIZE];
    cnt, next := Read(mem, inode, pos, data, last, BUFSIZE - last);
    if cnt != -1 {
      assert data[..last + cnt] == pending + FileSystem.Content(mem, inode)[pos..next] && data[BUFSIZE] == byte;
    }
  }

  /** do_one_file, for every pattern, every buffer it is given, and every file that is free of zero bytes and does
      not end on a block boundary, ends and prints exactly the pieces of lines in which the pattern occurs, once
      each and in order; a newline left in the byte after the buffer is read as Heard says. */
  method DoOneFile(s: seq<Byte>, mem: FileSystem.Memory, inode: nat, opens: bool, data: array<Byte>)
    returns (ret: int, printed: seq<seq<Byte>>)
    requires data.Length == BUFSIZE + 1 && 0 !in s
    requires FileSystem.Readable(mem, inode) ==>
      FileSystem.FileSize(mem, inode) % FileSystem.BLOCK != 0 && 0 !in FileSystem.Content(mem, inode)
    modifies data
    ensures ret == if opens && FileSystem.Readable(mem, inode) then 0 else -1
    ensures printed ==
      if ret == 0 then Due(s, Seen(old(data[BUFSIZE]) == NEWLINE, FileSystem.Content(mem, inode))) else []
    ensures data[BUFSIZE] == NEWLINE ==> old(data[BUFSIZE]) == NEWLINE
  {
    hide Due, Heard, Seen, FileSystem.Content, FileSystem.Readable;
    printed := [];
    if !opens {
      return -1, [];
    }
    var pos: nat, last: nat := 0, 0;
    ghost var file, stale := FileSystem.Content(mem, inode), data[BUFSIZE] == NEWLINE;
    assert data[..0] + file[0..] == file;
    while true
      invariant 0 <= pos <= |file| && last < BUFSIZE && 0 !in data[..last]
      invariant data[BUFSIZE] == NEWLINE ==> stale
      invariant printed + Due(s, Seen(data[BUFSIZE] == NEWLINE, data[..last] + file[pos..])) ==
                Due(s, Seen(stale, file))
      invariant !FileSystem.Readable(mem, inode) ==> printed == []
      decreases |file| - pos
    {
      var cnt, next := FillUp(mem, inode, pos, data, last);
      if cnt == -1 {
        return -1, printed;
      }
      last, pos := last + cnt, next;
      var found;
      last, found := ScanBuffer(s, data, last, cnt != 0, file[pos..]);
      printed := printed + found;
      if cnt == 0 {
        assert data[..0] + file[pos..] == [];
        EmptySeen(data[BUFSIZE] == NEWLINE);
        NothingDue(s);
        break;
      }
    }
    ret := 0;
  }

  /** A newline left there does harm: an empty line, then 1023 bytes a and a byte b that should be printed whole,
      but of which only the b is. */
  lemma StaleNewlineCutsALine()
    ensures exists s, file :: 0 !in file && Searchable(s) && Due(s, Heard(file)) != Due(s, file)
  {
    var a: seq<Byte> := seq(BUFSIZE - 1, _ => 97);
    var b: seq<Byte> := [98];
    var file := [] + [NEWLINE] + (a + b);
    CutLine(a);
    assert Searchable(b) && Due(b, Heard(file)) != Due(b, file);
  }

  lemma CutLine(a: seq<Byte>)
    requires |a| == BUFSIZE - 1 && forall i :: 0 <= i < |a| ==> a[i] == 97
    ensures var b: seq<Byte> := [98]; var file := [] + [NEWLINE] + (a + b);
      0 !in file && Due(b, Heard(file)) == [b] && Due(b, file) == [a + b]
  {
    hide Due;
    var b: seq<Byte> := [98];
    var file := [] + [NEWLINE] + (a + b);
    var none: seq<seq<Byte>> := [];
    assert Matching(b, none) == none;
    forall i | 0 <= i <= |a|
      ensures !OccursAt(b, a, i)
    {
      assert i < |a| ==> a[i..i + 1][0] == 97;
    }
    assert OccursAt(b, b, 0) && OccursAt(b, a + b, |a|);
    assert Matching(b, [[]]) == none + none && Matching(b, [a]) == none + none;
    assert Matching(b, [b]) == [b] + none && Matching(b, [a + b]) == [a + b] + none;
    DueLine(b, [], a + b);
    assert a + b + [] == a + b;
    DuePiece(b, a + b, []);
    NothingDue(b);
    assert Heard(file) == [] + [NEWLINE] + (a + [NEWLINE] + b);
    DueLine(b, [], a + [NEWLINE] + b);
    DueLine(b, a, b);
    DueLast(b, b);
  }

  // ------------------------------------------------------------------ grep as a filter on lines

  /** A pattern that starts with a byte of 128 or more, like the empty one, is never found. */
  lemma {:induction false} NeverFound(s: seq<Byte>, lines: seq<seq<Byte>>)
    requires !Searchable(s)
    ensures Matching(s, lines) == []
  {
    if lines != [] {
      NeverFound(s, lines[1..]);
    }
  }

  /** A line in which the pattern does not occur has no piece in which it does. */
  lemma {:induction false} NotInPieces(s: seq<Byte>, line: seq<Byte>)
    requires !Occurs(s, line)
    ensures Matching(s, Pieces(line)) == []
  {
    if |line| >= BUFSIZE {
      PartHasNone(s, line, 0, BUFSIZE);
      PartHasNone(s, line, BUFSIZE, |line|);
      assert line[BUFSIZE..|line|] == line[BUFSIZE..];
      NotInPieces(s, line[BUFSIZE..]);
      assert Pieces(line)[1..] == Pieces(line[BUFSIZE..]);
    } else {
      assert Matching(s, [line]) == [] + Matching(s, []);
    }
  }

  lemma PartHasNone(s: seq<Byte>, line: seq<Byte>, from: nat, to: nat)
    requires from <= to <= |line| && !Occurs(s, line)
    ensures !Occurs(s, line[from..to])
  {
    if Occurs(s, line[from..to]) {
      var i :| 0 <= i <= to - from && OccursAt(s, line[from..to], i);
      assert line[from..to] == line[from..][..to - from];
      assert line[from..to][i..i + |s|] == line[from + i..from + i + |s|];
      assert OccursAt(s, line, from + i);
    }
  }

  /** A line of at most 1024 bytes is matched as a whole. */
  lemma ShortLine(s: seq<Byte>, line: seq<Byte>)
    requires Searchable(s) && |line| <= BUFSIZE
    ensures Matching(s, Pieces(line)) == if Occurs(s, line) then [line] else []
  {
    assert Matching(s, [line]) == (if Occurs(s, line) then [line] else []) + Matching(s, []);
    if |line| == BUFSIZE {
      assert line[..BUFSIZE] == line && line[BUFSIZE..] == [];
      assert Pieces(line) == [line] + [[]];
      MatchingJoin(s, [line], [[]]);
      assert Matching(s, [[]]) == [] + Matching(s, []);
    }
  }

  /** The pattern can be found in the line, and the line fits the buffer, if the pattern occurs in it at all. */
  predicate FoundWhole(s: seq<Byte>, line: seq<Byte>) {
    Occurs(s, line) ==> Searchable(s) && |line| <= BUFSIZE
  }

  lemma {:induction false} WholeLines(s: seq<Byte>, lines: seq<seq<Byte>>)
    requires forall l :: l in lines ==> FoundWhole(s, l)
    ensures Matching(s, AllPieces(lines)) == Containing(s, lines)
  {
    if lines != [] {
      var l := lines[0];
      assert l in lines;
      WholeLines(s, lines[1..]);
      MatchingJoin(s, Pieces(l), AllPieces(lines[1..]));
      if Occurs(s, l) {
        ShortLine(s, l);
      } else {
        NotInPieces(s, l);
      }
    }
  }

  lemma {:induction false} PiecesAreShort(lines: seq<seq<Byte>>)
    ensures forall p :: p in AllPieces(lines) ==> |p| <= BUFSIZE
  {
    if lines != [] {
      PiecesAreShort(lines[1..]);
      LinePiecesAreShort(lines[0]);
    }
  }

  lemma {:induction false} LinePiecesAreShort(line: seq<Byte>)
    ensures forall p :: p in Pieces(line) ==> |p| <= BUFSIZE
  {
    if |line| >= BUFSIZE {
      LinePiecesAreShort(line[BUFSIZE..]);
    }
  }

  lemma {:induction false} MatchingAreGiven(s: seq<Byte>, ps: seq<seq<Byte>>)
    ensures forall p :: p in Matching(s, ps) ==> p in ps
  {
    if ps != [] {
      MatchingAreGiven(s, ps[1..]);
    }
  }

  lemma {:induction false} ContainingHas(s: seq<Byte>, lines: seq<seq<Byte>>, l: seq<Byte>)
    requires l in lines && Occurs(s, l)
    ensures l in Containing(s, lines)
  {
    if lines[0] != l {
      assert l in lines[1..];
      ContainingHas(s, lines[1..], l);
    }
  }

  /** For every pattern and every file, grep agrees with "split into lines, keep those that contain the pattern"
      if and only if every line that contains it is at most 1024 bytes long, and the pattern starts with a byte
      below 128 if any line contains it. */
  lemma GrepIsLineFilter(s: seq<Byte>, file: seq<Byte>)
    ensures Due(s, file) == Containing(s, Lines(file)) <==> forall l :: l in Lines(file) ==> FoundWhole(s, l)
  {
    var lines := Lines(file);
    if forall l :: l in lines ==> FoundWhole(s, l) {
      WholeLines(s, lines);
    } else {
      var l :| l in lines && !FoundWhole(s, l);
      ContainingHas(s, lines, l);
      if Searchable(s) {
        PiecesAreShort(lines);
        MatchingAreGiven(s, AllPieces(lines));
      } else {
        NeverFound(s, AllPieces(lines));
      }
      assert l !in Due(s, file);
    }
  }

  /** Nothing is ever printed for an empty pattern or one that starts with a byte of 128 or more. */
  lemma UnsearchablePrintsNothing(s: seq<Byte>, file: seq<Byte>)
    requires !Searchable(s)
    ensures Due(s, file) == []
  {
    NeverFound(s, AllPieces(Lines(file)));
  }

  // ------------------------------------------------------------------ when a stale newline does harm

  /** The place of the last newline. */
  function LastBreak(text: seq<Byte>): (p: nat)
    requires NEWLINE in text
    ensures p < |text| && text[p] == NEWLINE && NEWLINE !in text[p + 1..]
  {
    var n := |text| - 1;
    if text[n] == NEWLINE then n
    else
      assert text == text[..n] + [text[n]];
      var p := LastBreak(text[..n]);
      assert text[p + 1..] == text[..n][p + 1..] + [text[n]];
      p
  }

  predicate HasLow(line: seq<Byte>) {
    exists i :: 0 <= i < |line| && line[i] < 128
  }

  /** The line that the end of the first buffer cuts: its part in the buffer and its part behind it. */
  function CutLeft(text: seq<Byte>): (line: seq<Byte>)
    requires |text| >= BUFSIZE && text[BUFSIZE - 1] != NEWLINE && NEWLINE in text[..BUFSIZE]
    ensures 0 < |line| < BUFSIZE && NEWLINE !in line
    ensures text[..BUFSIZE] == text[..LastBreak(text[..BUFSIZE])] + [NEWLINE] + line
  {
    text[..BUFSIZE][LastBreak(text[..BUFSIZE]) + 1..]
  }

  function CutRight(text: seq<Byte>): seq<Byte>
    requires |text| >= BUFSIZE
  {
    Lines(text[BUFSIZE..])[0]
  }

  /** The first full buffer that does not end in a newline holds the end of an earlier line, and the line that it
      cuts goes on behind it and has a byte that a pattern can start with. */
  predicate Harmed(text: seq<Byte>) {
    if |text| < BUFSIZE then false
    else if text[BUFSIZE - 1] == NEWLINE then Harmed(text[BUFSIZE..])
    else NEWLINE in text[..BUFSIZE] && CutRight(text) != [] && HasLow(CutLeft(text) + CutRight(text))
  }

  lemma {:induction false} LinesJoin(a: seq<Byte>, b: seq<Byte>)
    ensures Lines(a + [NEWLINE] + b) == Lines(a) + Lines(b)
  {
    if a == [] {
      assert [] + [NEWLINE] + b == [NEWLINE] + b && ([NEWLINE] + b)[1..] == b;
    } else {
      assert (a + [NEWLINE] + b)[1..] == a[1..] + [NEWLINE] + b;
      LinesJoin(a[1..], b);
    }
  }

  lemma {:induction false} AllPiecesJoin(a: seq<seq<Byte>>, b: seq<seq<Byte>>)
    ensures AllPieces(a + b) == AllPieces(a) + AllPieces(b)
  {
    if a == [] {
      assert a + b == b;
    } else {
      assert (a + b)[1..] == a[1..] + b;
      AllPiecesJoin(a[1..], b);
    }
  }

  /** What is due of a file is due of its parts, wherever a newline parts them. */
  lemma DueJoin(s: seq<Byte>, a: seq<Byte>, b: seq<Byte>)
    ensures Due(s, a + [NEWLINE] + b) == Due(s, a) + Due(s, b)
  {
    LinesJoin(a, b);
    AllPiecesJoin(Lines(a), Lines(b));
    MatchingJoin(s, AllPieces(Lines(a)), AllPieces(Lines(b)));
  }

  /** The lines after the first. */
  function Later(s: seq<Byte>, text: seq<Byte>): seq<seq<Byte>> {
    Matching(s, AllPieces(Lines(text)[1..]))
  }

  lemma DueFirst(s: seq<Byte>, line: seq<Byte>, rest: seq<Byte>)
    requires NEWLINE !in line
    ensures Due(s, line + rest) == Matching(s, Pieces(line + Lines(rest)[0])) + Later(s, rest)
  {
    LinesOfLine(line, rest);
    var first, later := line + Lines(rest)[0], Lines(rest)[1..];
    assert ([first] + later)[1..] == later;
    MatchingJoin(s, Pieces(first), AllPieces(later));
  }

  /** A line cut in two, against the line as it is in the file. */
  lemma CutIff(s: seq<Byte>, line: seq<Byte>, rest: seq<Byte>)
    requires NEWLINE !in line && |line| < BUFSIZE
    ensures var more := Lines(rest)[0];
      Due(s, line + [NEWLINE] + rest) == Due(s, line + rest) <==>
      Matching(s, [line]) + Matching(s, Pieces(more)) == Matching(s, Pieces(line + more))
  {
    hide Due, Matching, Pieces, Lines;
    var more := Lines(rest)[0];
    var cut := Matching(s, [line]) + Matching(s, Pieces(more));
    var whole := Matching(s, Pieces(line + more));
    DueLine(s, line, rest);
    DueFirst(s, [], rest);
    assert [] + rest == rest && [] + more == more;
    DueFirst(s, line, rest);
    SameSuffix(cut, whole, Later(s, rest));
  }

  lemma SamePrefix(a: seq<seq<Byte>>, b: seq<seq<Byte>>, c: seq<seq<Byte>>)
    ensures a + b == a + c <==> b == c
  {
    if a + b == a + c {
      assert (a + b)[|a|..] == b && (a + c)[|a|..] == c;
    }
  }

  lemma SameSuffix(a: seq<seq<Byte>>, b: seq<seq<Byte>>, c: seq<seq<Byte>>)
    ensures a + c == b + c <==> a == b
  {
    if a + c == b + c {
      assert (a + c)[..|a|] == a && (b + c)[..|b|] == b;
    }
  }

  /** The first place of a byte. */
  predicate FirstAt(c: Byte, line: seq<Byte>, k: nat) {
    k < |line| && line[k] == c && forall i :: 0 <= i < k ==> line[i] != c
  }

  function FirstPlace(c: Byte, line: seq<Byte>): (k: nat)
    requires c in line
    ensures FirstAt(c, line, k)
  {
    if line[0] == c then 0 else FirstPlace(c, line[1..]) + 1
  }

  /** Where the pattern of one byte is first found in a line, within the piece that is printed first. */
  lemma {:induction false} FirstHit(c: Byte, line: seq<Byte>, k: nat)
    requires c < 128 && FirstAt(c, line, k)
    ensures var hits := Matching([c], Pieces(line));
      && hits != [] && FirstAt(c, hits[0], k % BUFSIZE)
      && (k < BUFSIZE ==> |hits[0]| == if |line| < BUFSIZE then |line| else BUFSIZE)
  {
    if |line| < BUFSIZE {
      assert OccursAt([c], line, k);
      assert Matching([c], [line]) == [line] + Matching([c], []);
    } else {
      var piece, rest := line[..BUFSIZE], line[BUFSIZE..];
      assert Pieces(line)[1..] == Pieces(rest);
      if k < BUFSIZE {
        assert OccursAt([c], piece, k);
      } else {
        NoByte(c, piece);
        FirstHit(c, rest, k - BUFSIZE);
      }
    }
  }

  lemma NoByte(c: Byte, line: seq<Byte>)
    requires c !in line
    ensures !Occurs([c], line)
  {
    forall i | 0 <= i < |line| ensures !OccursAt([c], line, i) {
      assert line[i] in line && line[i..i + 1] == [line[i]];
    }
  }

  /** Cutting a line shows: every byte below 128 in it is a pattern whose first hit is another piece than before. */
  lemma CutShows(c: Byte, line: seq<Byte>, more: seq<Byte>)
    requires c < 128 && c in line + more && 0 < |line| < BUFSIZE && more != []
    ensures Matching([c], [line]) + Matching([c], Pieces(more)) != Matching([c], Pieces(line + more))
  {
    hide Matching;
    assert Pieces(line) == [line];
    if c in line {
      var j := FirstPlace(c, line);
      FirstHit(c, line, j);
      FirstHit(c, line + more, j);
    } else {
      CutMoves(c, line, more);
    }
  }

  lemma MissedLine(c: Byte, line: seq<Byte>)
    requires c !in line
    ensures Matching([c], [line]) == []
  {
    NoByte(c, line);
    assert Matching([c], [line]) == [] + Matching([c], []);
  }

  lemma CutMoves(c: Byte, line: seq<Byte>, more: seq<Byte>)
    requires c < 128 && c !in line && c in more && 0 < |line| < BUFSIZE
    ensures Matching([c], [line]) + Matching([c], Pieces(more)) != Matching([c], Pieces(line + more))
  {
    hide Pieces, Matching, FirstAt;
    MissedLine(c, line);
    var j := FirstPlace(c, more);
    FirstHit(c, more, j);
    FirstBehind(c, line, more, j);
    FirstHit(c, line + more, |line| + j);
    var a, b := Matching([c], Pieces(more)), Matching([c], Pieces(line + more));
    if a == b {
      OneFirst(c, a[0], j % BUFSIZE, (|line| + j) % BUFSIZE);
    }
  }

  lemma FirstBehind(c: Byte, line: seq<Byte>, more: seq<Byte>, j: nat)
    requires c !in line && FirstAt(c, more, j)
    ensures FirstAt(c, line + more, |line| + j)
  {
  }

  lemma OneFirst(c: Byte, line: seq<Byte>, i: nat, j: nat)
    requires FirstAt(c, line, i) && FirstAt(c, line, j)
    ensures i == j
  {
  }

  /** A line without a byte below 128 is never printed. */
  lemma HighLine(s: seq<Byte>, line: seq<Byte>)
    requires !HasLow(line)
    ensures Matching(s, Pieces(line)) == []
  {
    if !Searchable(s) {
      NeverFound(s, Pieces(line));
    } else {
      forall i | 0 <= i <= |line| ensures !OccursAt(s, line, i) {
        if i + |s| <= |line| {
          assert line[i..i + |s|][0] == line[i];
        }
      }
      NotInPieces(s, line);
    }
  }

  /** The file read with the stale newline, in the three cases. */
  lemma HeardCut(s: seq<Byte>, text: seq<Byte>)
    requires |text| >= BUFSIZE && text[BUFSIZE - 1] != NEWLINE
    ensures NEWLINE !in text[..BUFSIZE] ==> Due(s, Heard(text)) == Due(s, text)
    ensures NEWLINE in text[..BUFSIZE] ==>
      var line, more := CutLeft(text), CutRight(text);
      Due(s, Heard(text)) == Due(s, text) <==>
      Matching(s, [line]) + Matching(s, Pieces(more)) == Matching(s, Pieces(line + more))
  {
    hide Due;
    var piece, rest := text[..BUFSIZE], text[BUFSIZE..];
    assert text == piece + rest;
    if NEWLINE !in piece {
      var none: seq<Byte> := [];
      assert piece + [NEWLINE] + rest == piece + (none + [NEWLINE] + rest);
      DuePiece(s, piece, none + [NEWLINE] + rest);
      DuePiece(s, piece, rest);
      DueLine(s, none, rest);
      assert Matching(s, [none]) == [] + Matching(s, []);
    } else {
      var line, front := CutLeft(text), piece[..LastBreak(piece)];
      assert piece + [NEWLINE] + rest == front + [NEWLINE] + (line + [NEWLINE] + rest);
      assert piece + rest == front + [NEWLINE] + (line + rest);
      DueJoin(s, front, line + [NEWLINE] + rest);
      DueJoin(s, front, line + rest);
      SamePrefix(Due(s, front), Due(s, line + [NEWLINE] + rest), Due(s, line + rest));
      CutIff(s, line, rest);
    }
  }

  lemma HeardParts(front: seq<Byte>, rest: seq<Byte>)
    requires |front| == BUFSIZE - 1
    ensures Heard(front + [NEWLINE] + rest) == front + [NEWLINE] + Heard(rest)
  {
    var first := front + [NEWLINE];
    assert (first + rest)[..BUFSIZE] == first && (first + rest)[BUFSIZE..] == rest;
    assert first[BUFSIZE - 1] == NEWLINE;
  }

  /** A full buffer that ends in a newline: nothing is different so far. */
  lemma HeardOn(s: seq<Byte>, text: seq<Byte>)
    requires |text| >= BUFSIZE && text[BUFSIZE - 1] == NEWLINE
    ensures Due(s, Heard(text)) == Due(s, text) <==> Due(s, Heard(text[BUFSIZE..])) == Due(s, text[BUFSIZE..])
  {
    hide Due, Heard;
    var front, rest := text[..BUFSIZE - 1], text[BUFSIZE..];
    assert text == front + [NEWLINE] + rest;
    HeardParts(front, rest);
    DueJoin(s, front, rest);
    DueJoin(s, front, Heard(rest));
    SamePrefix(Due(s, front), Due(s, Heard(rest)), Due(s, rest));
  }

  lemma {:induction false} UnharmedSame(s: seq<Byte>, text: seq<Byte>)
    requires !Harmed(text)
    ensures Due(s, Heard(text)) == Due(s, text)
  {
    hide Due;
    if |text| < BUFSIZE {
    } else if text[BUFSIZE - 1] == NEWLINE {
      HeardOn(s, text);
      UnharmedSame(s, text[BUFSIZE..]);
    } else {
      HeardCut(s, text);
      if NEWLINE in text[..BUFSIZE] {
        CutHidden(s, CutLeft(text), CutRight(text));
      }
    }
  }

  /** Cutting a line does not show if nothing was behind the cut, or if no pattern can be found in it. */
  lemma CutHidden(s: seq<Byte>, line: seq<Byte>, more: seq<Byte>)
    requires |line| < BUFSIZE && (more == [] || !HasLow(line + more))
    ensures Matching(s, [line]) + Matching(s, Pieces(more)) == Matching(s, Pieces(line + more))
  {
    assert Pieces(line) == [line];
    if more == [] {
      assert line + more == line;
      assert Matching(s, [more]) == [] + Matching(s, []);
    } else {
      forall i | 0 <= i < |line| ensures line[i] >= 128 {
        assert (line + more)[i] == line[i];
      }
      forall i | 0 <= i < |more| ensures more[i] >= 128 {
        assert (line + more)[|line| + i] == more[i];
      }
      HighLine(s, line);
      HighLine(s, more);
      HighLine(s, line + more);
    }
  }

  lemma {:induction false} HarmedDiffers(text: seq<Byte>) returns (c: Byte)
    requires Harmed(text)
    ensures c in text && Due([c], Heard(text)) != Due([c], text)
  {
    hide Due;
    if text[BUFSIZE - 1] == NEWLINE {
      c := HarmedDiffers(text[BUFSIZE..]);
      HeardOn([c], text);
    } else {
      var line, more := CutLeft(text), CutRight(text);
      var i :| 0 <= i < |line + more| && (line + more)[i] < 128;
      c := (line + more)[i];
      CutShows(c, line, more);
      HeardCut([c], text);
      CutBytes(text, c);
    }
  }

  lemma CutBytes(text: seq<Byte>, c: Byte)
    requires |text| >= BUFSIZE && text[BUFSIZE - 1] != NEWLINE && NEWLINE in text[..BUFSIZE]
    requires c in CutLeft(text) + CutRight(text)
    ensures c in text
  {
    FirstLineBytes(text[BUFSIZE..]);
    assert text == text[..BUFSIZE] + text[BUFSIZE..];
    if c in CutLeft(text) {
      assert c in text[..BUFSIZE];
    }
  }

  lemma {:induction false} FirstLineBytes(text: seq<Byte>)
    ensures forall c :: c in Lines(text)[0] ==> c in text
  {
    if text != [] {
      FirstLineBytes(text[1..]);
    }
  }

  /** A newline left behind the buffer changes nothing, for any pattern, exactly unless the file is harmed as above:
      a line that begins in the first full buffer not ending in a newline, but not at its start, goes on behind it. */
  lemma StaleNewlineHarm(file: seq<Byte>)
    requires 0 !in file
    ensures (forall s :: 0 !in s ==> Due(s, Seen(true, file)) == Due(s, file)) <==> !Harmed(file)
  {
    hide Due, Heard, Harmed;
    if Harmed(file) {
      var c := HarmedDiffers(file);
      assert 0 !in [c];
      assert Due([c], Seen(true, file)) != Due([c], file);
    } else {
      forall s: seq<Byte> | 0 !in s ensures Due(s, Seen(true, file)) == Due(s, file) {
        UnharmedSame(s, file);
      }
    }
  }
}
