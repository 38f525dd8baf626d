/** The two scanners of the shell line: system_execute takes the first word as the program's name,
    system_getargs later takes what follows it. */
module CommandLine {
  import opened Screens

  const BUF_SIZE := 128

  /** A line as the kernel copies it: 128 bytes, of which those after the first NUL mean nothing. */
  type Line = s: seq<Byte> | |s| == BUF_SIZE witness seq(BUF_SIZE, _ => 0)

  const SPACE: Byte := 32

  /** The bytes before the first NUL. */
  function TextOf(line: seq<Byte>): (text: seq<Byte>)
    ensures |text| <= |line| && text == line[..|text|] && 0 !in text
    ensures |text| < |line| ==> line[|text|] == 0
  {
    if line == [] || line[0] == 0 then [] else [line[0]] + TextOf(line[1..])
  }

  function DropSpaces(s: seq<Byte>): (r: seq<Byte>)
    ensures r == [] || r[0] != SPACE
  {
    if s != [] && s[0] == SPACE then DropSpaces(s[1..]) else s
  }

  function TakeWord(s: seq<Byte>): (r: seq<Byte>)
    ensures |r| <= |s| && SPACE !in r
  {
    if s == [] || s[0] == SPACE then [] else [s[0]] + TakeWord(s[1..])
  }

  function DropWord(s: seq<Byte>): seq<Byte> {
    if s == [] || s[0] == SPACE then s else DropWord(s[1..])
  }

  /** The program named by a line. */
  function Word(line: seq<Byte>): seq<Byte> {
    TakeWord(DropSpaces(TextOf(line)))
  }

  /** The argument text of a line: everything from the second word to the NUL. */
  function Argument(line: seq<Byte>): seq<Byte> {
    DropSpaces(DropWord(DropSpaces(TextOf(line))))
  }

  function Spaces(n: nat): (r: seq<Byte>)
    ensures |r| == n
    ensures forall i :: 0 <= i < n ==> r[i] == SPACE
  {
    seq(n, _ => SPACE)
  }

  // ------------------------------------------------------------------ the scanners

  /** What one more byte of the text means to either scanner. */
  lemma ScanStep(text: seq<Byte>, i: nat)
    requires i < |text|
    ensures var t := text[i..]; var u := text[i + 1..];
      if text[i] == SPACE then
        DropSpaces(t) == DropSpaces(u) && TakeWord(t) == [] && DropWord(t) == t
      else
        DropSpaces(t) == t && TakeWord(t) == [text[i]] + TakeWord(u) && DropWord(t) == DropWord(u)
  {
  }

  /** While a scanner is inside the text it sees no NUL, and at the end of the text it sees one. */
  lemma NulEndsText(line: seq<Byte>, i: nat)
    requires i < |line| && i <= |TextOf(line)|
    ensures line[i] == 0 <==> i == |TextOf(line)|
    ensures i < |TextOf(line)| ==> line[i] == TextOf(line)[i]
  {
  }

  /** At the end of the text, or at a space, the word is over. */
  lemma EndOfWord(text: seq<Byte>, i: nat)
    requires i <= |text| && (i == |text| || text[i] == SPACE)
    ensures TakeWord(text[i..]) == [] && (i == |text| ==> TakeWord(DropSpaces(text[i..])) == [])
  {
  }

  lemma Peel(word: seq<Byte>, j: nat, c: Byte, rest: seq<Byte>)
    requires j <= |word| && word[j..] == [c] + rest
    ensures j < |word| && word[j] == c && word[j + 1..] == rest
  {
  }

  lemma PaddedWord(command: seq<Byte>, word: seq<Byte>, j: nat)
    requires |command| == BUF_SIZE && j <= |word| && j <= BUF_SIZE && word[j..] == []
    requires forall k :: 0 <= k < j ==> command[k] == word[k]
    requires forall k :: j <= k < BUF_SIZE ==> command[k] == 0
    ensures |word| == j && command == word + Zeros(BUF_SIZE - |word|)
  {
  }

  /** The first loop of system_execute: the 128 bytes it was given go into the buffer kept for getargs. */
  method KeepLine(fileName: Line, shellBuf: array<Byte>)
    requires shellBuf.Length == BUF_SIZE
    modifies shellBuf
    ensures shellBuf[..] == fileName
  {
    var i := 0;
    while i < BUF_SIZE
      invariant 0 <= i <= BUF_SIZE && shellBuf[..i] == fileName[..i]
    {
      shellBuf[i] := fileName[i];
      i := i + 1;
    }
    assert shellBuf[..i] == shellBuf[..] && fileName[..i] == fileName;
  }

  /** The command loop of system_execute over the same bytes. */
  method ExtractCommand(fileName: Line) returns (command: array<Byte>)
    ensures fresh(command) && command.Length == BUF_SIZE
    ensures |Word(fileName)| <= BUF_SIZE
    ensures command[..] == Word(fileName) + Zeros(BUF_SIZE - |Word(fileName)|)
  {
    hide DropSpaces;
    hide TakeWord;
    hide TextOf;
    command := new Byte[BUF_SIZE](_ => 0);
    var cmdStarted := false;
    var i, j := 0, 0;
    ghost var text := TextOf(fileName);
    ghost var word := Word(fileName);
    assert text[0..] == text;
    while i < BUF_SIZE
      invariant 0 <= j <= i <= |text|
      invariant !cmdStarted ==> j == 0 && word == TakeWord(DropSpaces(text[i..]))
      invariant j <= |word|
      invariant cmdStarted ==> word[j..] == TakeWord(text[i..])
      invariant forall k :: 0 <= k < j ==> command[k] == word[k]
      invariant forall k :: j <= k < BUF_SIZE ==> command[k] == 0
    {
      NulEndsText(fileName, i);
      if fileName[i] == 0 {
        break;
      }
      ScanStep(text, i);
      if fileName[i] != SPACE {
        if !cmdStarted {
          cmdStarted := true;
        }
        Peel(word, j, fileName[i], TakeWord(text[i + 1..]));
        command[j] := fileName[i];
        j := j + 1;
      } else if fileName[i] == SPACE && cmdStarted {
        break;
      }
      i := i + 1;
    }
    EndOfWord(text, i);
    assert word[j..] == [];
    PaddedWord(command[..], word, j);
  }

  /** system_getargs: copies the argument of the stored shell line, zero-padded, or fails. */
  method GetArgs(shellBuf: Line, present: bool, buf: array<Byte>, nbytes: int) returns (ret: int)
    requires nbytes <= buf.Length
    modifies buf
    ensures ret == 0 || ret == -1
    ensures ret == 0 <==> present && 0 in shellBuf && Argument(shellBuf) != [] && |Argument(shellBuf)| + 1 <= nbytes
    ensures ret == 0 ==> buf[..nbytes] == Argument(shellBuf) + Zeros(nbytes - |Argument(shellBuf)|)
    ensures ret == 0 ==> buf[nbytes..] == old(buf[nbytes..])
    ensures ret == -1 ==> buf[..] == old(buf[..])
  {
    hide Argument, TextOf;
    if !present {
      return -1;
    }
    var start, finish := FindArgument(shellBuf);
    if start == -1 || finish < start {
      return -1;
    }
    if finish - start + 1 > nbytes {
      return -1;
    }
    var i := 0;
    while i < nbytes
      invariant 0 <= i <= nbytes
      invariant forall k :: 0 <= k < i ==> buf[k] == 0
      invariant buf[nbytes..] == old(buf[nbytes..])
    {
      buf[i] := 0;
      i := i + 1;
    }
    i := start;
    while i <= finish
      invariant start <= i <= finish + 1
      invariant forall k :: 0 <= k < i - start ==> buf[k] == shellBuf[start + k]
      invariant forall k :: i - start <= k < nbytes ==> buf[k] == 0
      invariant buf[nbytes..] == old(buf[nbytes..])
    {
      buf[i - start] := shellBuf[i];
      i := i + 1;
    }
    assert buf[..nbytes] == shellBuf[start..finish] + Zeros(nbytes - (finish - start));
    ret := 0;
  }

  /** The traversal of system_getargs: where the argument starts and where the NUL is. */
  method FindArgument(shellBuf: seq<Byte>) returns (start: int, finish: int)
    requires |shellBuf| == BUF_SIZE
    ensures -1 <= start && -1 <= finish < BUF_SIZE
    ensures finish == -1 <==> 0 !in shellBuf
    ensures finish != -1 ==> shellBuf[finish] == 0 && finish == |TextOf(shellBuf)|
    ensures finish != -1 ==> (start == -1 <==> Argument(shellBuf) == [])
    ensures finish != -1 && start != -1 ==> start < finish && Argument(shellBuf) == shellBuf[start..finish]
  {
    var cmdStarted, cmdFinished, argStarted := false, false, false;
    start, finish := -1, -1;
    var i := 0;
    ghost var text := TextOf(shellBuf);
    ghost var arg := Argument(shellBuf);
    assert text[0..] == text;
    while i < BUF_SIZE
      invariant 0 <= i <= |text| && finish == -1
      invariant argStarted ==> cmdFinished
      invariant cmdFinished ==> cmdStarted
      invariant !argStarted <==> start == -1
      invariant argStarted ==> 0 <= start < i
      invariant !cmdStarted ==> arg == DropSpaces(DropWord(DropSpaces(text[i..])))
      invariant cmdStarted && !cmdFinished ==> arg == DropSpaces(DropWord(text[i..]))
      invariant cmdFinished && !argStarted ==> arg == DropSpaces(text[i..])
      invariant argStarted ==> arg == text[start..]
    {
      NulEndsText(shellBuf, i);
      if shellBuf[i] == 0 {
        finish := i;
        break;
      }
      ScanStep(text, i);
      if !cmdStarted && shellBuf[i] != SPACE {
        cmdStarted := true;
      } else if cmdStarted && !cmdFinished && shellBuf[i] == SPACE {
        cmdFinished := true;
      } else if cmdFinished && !argStarted && shellBuf[i] != SPACE {
        argStarted := true;
        start := i;
      }
      i := i + 1;
    }
    if finish == -1 {
      assert text == shellBuf;
    } else {
      assert text[finish..] == [];
    }
  }

  // ------------------------------------------------------------------ round trip

  /** The zero-padded copy of the first word, read back as a C string, is the first word. */
  lemma ExtractedText(line: seq<Byte>)
    requires |Word(line)| <= BUF_SIZE
    ensures TextOf(Word(line) + Zeros(BUF_SIZE - |Word(line)|)) == Word(line)
  {
    WordHasNoNul(DropSpaces(TextOf(line)));
    TextHasNoNul(TextOf(line));
    var word := Word(line);
    if |word| < BUF_SIZE {
      assert Zeros(BUF_SIZE - |word|) == [0] + Zeros(BUF_SIZE - |word| - 1);
      assert word + Zeros(BUF_SIZE - |word|) == word + [0] + Zeros(BUF_SIZE - |word| - 1);
      TextBeforeNul(word, Zeros(BUF_SIZE - |word| - 1));
    } else {
      assert word + Zeros(0) == word;
      WholeText(word);
    }
  }

  lemma WholeText(text: seq<Byte>)
    requires 0 !in text
    ensures TextOf(text) == text
  {
  }

  lemma {:induction false} TextHasNoNul(text: seq<Byte>)
    requires 0 !in text
    ensures 0 !in DropSpaces(text)
  {
    if text != [] && text[0] == SPACE {
      TextHasNoNul(text[1..]);
    }
  }

  lemma {:induction false} WordHasNoNul(text: seq<Byte>)
    ensures 0 !in text ==> 0 !in TakeWord(text)
  {
    if text != [] && text[0] != SPACE {
      WordHasNoNul(text[1..]);
    }
  }

  lemma {:induction false} DropsSpaces(n: nat, rest: seq<Byte>)
    requires rest == [] || rest[0] != SPACE
    ensures DropSpaces(Spaces(n) + rest) == rest
  {
    if n == 0 {
      assert Spaces(0) + rest == rest;
    } else {
      DropsSpaces(n - 1, rest);
      assert (Spaces(n) + rest)[1..] == Spaces(n - 1) + rest;
    }
  }

  lemma {:induction false} SplitsWord(word: seq<Byte>, rest: seq<Byte>)
    requires SPACE !in word && (rest == [] || rest[0] == SPACE)
    ensures TakeWord(word + rest) == word && DropWord(word + rest) == rest
  {
    if word == [] {
      assert word + rest == rest;
    } else {
      SplitsWord(word[1..], rest);
      assert (word + rest)[1..] == word[1..] + rest;
    }
  }

  lemma {:induction false} TextBeforeNul(text: seq<Byte>, junk: seq<Byte>)
    requires 0 !in text
    ensures TextOf(text + [0] + junk) == text
  {
    if text == [] {
      assert text + [0] + junk == [0] + junk;
    } else {
      TextBeforeNul(text[1..], junk);
      assert (text + [0] + junk)[1..] == text[1..] + [0] + junk;
    }
  }

  /** A line typed as a command and an argument is taken apart into exactly that command and that argument. */
  lemma CommandLineRoundTrip(before: nat, cmd: seq<Byte>, between: nat, arg: seq<Byte>, junk: seq<Byte>)
    requires cmd != [] && 0 !in cmd && SPACE !in cmd
    requires 0 !in arg && (arg == [] || arg[0] != SPACE)
    requires arg != [] ==> between >= 1
    ensures var line := Spaces(before) + cmd + Spaces(between) + arg + [0] + junk;
      Word(line) == cmd && Argument(line) == arg
  {
    var text := Spaces(before) + cmd + Spaces(between) + arg;
    TextBeforeNul(text, junk);
    assert text == Spaces(before) + (cmd + (Spaces(between) + arg));
    DropsSpaces(before, cmd + (Spaces(between) + arg));
    SplitsWord(cmd, Spaces(between) + arg);
    DropsSpaces(between, arg);
  }
}
