/** Printing numbers: digits written backwards, reversed in place, and padded for the fixed-width form. */
module NumberPrinting {
  import opened Arithmetic
  import opened Screens

  const WORD := 0x1_0000_0000
  type U32 = n: nat | n < 0x1_0000_0000

  type Radix = r: nat | 2 <= r <= 36 witness 2

  // ------------------------------------------------------------------ digits and values

  function DigitChar(d: nat): (c: Byte)
    requires d < 36
    ensures c != 0
  {
    if d < 10 then 48 + d else 55 + d
  }

  predicate IsDigit(c: Byte, radix: Radix) {
    (48 <= c < 58 && c - 48 < radix) || 65 <= c < 55 + radix
  }

  function DigitOf(c: Byte): nat
    requires 48 <= c
  {
    if c < 65 then c - 48 else c - 55
  }

  predicate AllDigits(text: seq<Byte>, radix: Radix) {
    forall i :: 0 <= i < |text| ==> IsDigit(text[i], radix)
  }

  /** What a reader of the digits makes of them. */
  function ValueOf(text: seq<Byte>, radix: Radix): nat
    requires AllDigits(text, radix)
  {
    if text == [] then 0
    else ValueOf(text[..|text| - 1], radix) * radix + DigitOf(text[|text| - 1])
  }

  /** The digits of a value, most significant first. */
  function Digits(value: nat, radix: Radix): (text: seq<Byte>)
    ensures |text| > 0 && AllDigits(text, radix)
    decreases value
  {
    if value < radix then [DigitChar(value)]
    else
      ShrinksByDivision(value, radix);
      Digits(value / radix, radix) + [DigitChar(value % radix)]
  }

  lemma ShrinksByDivision(value: nat, radix: Radix)
    ensures value == value / radix * radix + value % radix
    ensures value > 0 ==> value / radix < value
    ensures value >= radix ==> value / radix > 0
  {
  }

  predicate Canonical(text: seq<Byte>, radix: Radix) {
    |text| > 0 && AllDigits(text, radix) && (|text| > 1 ==> text[0] != 48)
  }

  function Power(radix: Radix, k: nat): (p: nat)
    ensures p > 0
  {
    if k == 0 then 1
    else
      var p: int := Power(radix, k - 1) * radix;
      assert p >= Power(radix, k - 1);
      p
  }

  /** Reading the digits gives the value back; they have no leading zero, and no more of them than needed. */
  lemma {:induction false} DigitsRoundTrip(value: nat, radix: Radix)
    ensures ValueOf(Digits(value, radix), radix) == value
    ensures Canonical(Digits(value, radix), radix)
    ensures value < Power(radix, |Digits(value, radix)|)
    ensures |Digits(value, radix)| > 1 ==> Power(radix, |Digits(value, radix)| - 1) <= value
    ensures value > 0 ==> Digits(value, radix)[0] != 48
    decreases value
  {
    var text := Digits(value, radix);
    if value < radix {
      assert text[..0] == [];
      assert Power(radix, 1) == Power(radix, 0) * radix;
    } else {
      ShrinksByDivision(value, radix);
      var q, r := value / radix, value % radix;
      DigitsRoundTrip(q, radix);
      var front := Digits(q, radix);
      assert text[..|text| - 1] == front;
      BetweenPowers(q, r, radix, Power(radix, |front|), Power(radix, |front| - 1));
      assert Power(radix, |front| - 1) * radix == Power(radix, |front|);
    }
  }

  lemma BetweenPowers(q: nat, r: nat, radix: Radix, above: nat, below: nat)
    requires q < above && r < radix
    ensures q * radix + r < above * radix
    ensures below <= q ==> below * radix <= q * radix + r
  {
    var d: int := above - 1 - q;
    assert d * radix >= 0;
    assert above * radix == q * radix + d * radix + radix;
    if below <= q {
      var e: int := q - below;
      assert e * radix >= 0;
      assert q * radix == below * radix + e * radix;
    }
  }

  /** The other direction: a text of digits without a leading zero is what its value prints as. */
  lemma {:induction false} TextRoundTrip(text: seq<Byte>, radix: Radix)
    requires Canonical(text, radix)
    ensures Digits(ValueOf(text, radix), radix) == text
    ensures text[0] != 48 ==> ValueOf(text, radix) > 0
  {
    hide Digits, ValueOf;
    var front, c := text[..|text| - 1], text[|text| - 1];
    assert front + [c] == text && IsDigit(c, radix);
    LastDigit(text, radix);
    if front != [] {
      TextRoundTrip(front, radix);
      DigitsSnoc(ValueOf(front, radix), DigitOf(c), radix);
    }
  }

  lemma LastDigit(text: seq<Byte>, radix: Radix)
    requires text != [] && AllDigits(text, radix)
    ensures var front, d := text[..|text| - 1], DigitOf(text[|text| - 1]);
      && d < radix && DigitChar(d) == text[|text| - 1]
      && ValueOf(text, radix) == ValueOf(front, radix) * radix + d
      && (front == [] ==> ValueOf(text, radix) == d && Digits(d, radix) == text)
  {
    assert IsDigit(text[|text| - 1], radix);
  }

  lemma DigitsSnoc(q: nat, d: nat, radix: Radix)
    requires q > 0 && d < radix
    ensures Digits(q * radix + d, radix) == Digits(q, radix) + [DigitChar(d)] && q * radix + d > 0
  {
    DividesBack(q, d, radix);
  }

  lemma DividesBack(q: nat, d: nat, radix: Radix)
    requires d < radix
    ensures (q * radix + d) / radix == q && (q * radix + d) % radix == d
    ensures q > 0 ==> q * radix + d >= radix
  {
    QuotientIs(q * radix + d, radix, q, d);
    assert q > 0 ==> (q - 1) * radix >= 0;
  }

  lemma TimesKeepsOrder(a: int, b: int, m: int)
    requires 0 <= a <= b && 2 <= m
    ensures a * 2 <= b * m
  {
  }

  lemma {:induction false} PowersGrow(radix: Radix, k: nat)
    ensures Power(2, k) <= Power(radix, k)
  {
    if k > 0 {
      PowersGrow(radix, k - 1);
      TimesKeepsOrder(Power(2, k - 1), Power(radix, k - 1), radix);
    }
  }

  lemma {:induction false} PowerIsMonotone(radix: Radix, j: nat, k: nat)
    requires j <= k
    ensures Power(radix, j) <= Power(radix, k)
  {
    if j < k {
      PowerIsMonotone(radix, j, k - 1);
      var a: int := Power(radix, k - 1);
      assert a * radix >= a;
    }
  }

  /** A value takes at most k digits exactly when it is below the k-th power of the radix. */
  lemma LengthOfDigits(value: nat, radix: Radix, k: nat)
    requires k > 0
    ensures |Digits(value, radix)| <= k <==> value < Power(radix, k)
  {
    DigitsRoundTrip(value, radix);
    var n := |Digits(value, radix)|;
    if n <= k {
      PowerIsMonotone(radix, n, k);
    } else {
      PowerIsMonotone(radix, k, n - 1);
    }
  }

  lemma TwoPower32()
    ensures Power(2, 32) == WORD && Power(16, 8) == WORD
  {
    assert Power(2, 8) == 256;
    assert Power(2, 16) == 0x1_0000;
    assert Power(2, 24) == 0x100_0000;
    assert Power(16, 4) == 0x1_0000;
  }

  /** A 32-bit value fits the buffers it is printed into: at most 32 digits, and 8 in hexadecimal. */
  lemma WordDigits(value: U32, radix: Radix)
    ensures |Digits(value, radix)| <= 32
    ensures |Digits(value, 16)| <= 8
  {
    TwoPower32();
    PowersGrow(radix, 32);
    LengthOfDigits(value, radix, 32);
    LengthOfDigits(value, 16, 8);
  }

  // ------------------------------------------------------------------ in place

  function Reversed(s: seq<Byte>): (r: seq<Byte>)
    ensures |r| == |s|
    ensures forall i :: 0 <= i < |s| ==> r[i] == s[|s| - 1 - i]
  {
    if s == [] then [] else Reversed(s[1..]) + [s[0]]
  }

  lemma ReversedTwice(s: seq<Byte>)
    ensures Reversed(Reversed(s)) == s
  {
  }

  /** The C string at a place of the buffer: the bytes there up to the first zero byte. */
  ghost predicate StringAt(buf: seq<Byte>, at: nat, text: seq<Byte>) {
    at + |text| < |buf| && buf[at..at + |text|] == text && buf[at + |text|] == 0 && 0 !in text
  }

  /** Nothing outside the n bytes from a place on has changed. */
  ghost predicate Apart(before: seq<Byte>, after: seq<Byte>, at: nat, n: nat) {
    |after| == |before| && forall j :: 0 <= j < |before| && !(at <= j < at + n) ==> after[j] == before[j]
  }

  method Strlen(buf: array<Byte>, at: nat, ghost text: seq<Byte>) returns (n: nat)
    requires StringAt(buf[..], at, text)
    ensures n == |text|
  {
    n := 0;
    assert forall k :: 0 <= k < |text| ==> buf[..][at..at + |text|][k] == text[k];
    while buf[at + n] != 0
      invariant n <= |text|
      decreases |text| - n
    {
      n := n + 1;
    }
  }

  method Strrev(buf: array<Byte>, at: nat, ghost text: seq<Byte>)
    requires StringAt(buf[..], at, text)
    modifies buf
    ensures StringAt(buf[..], at, Reversed(text)) && Apart(old(buf[..]), buf[..], at, |text|)
  {
    hide Reversed;
    var n: int := Strlen(buf, at, text);
    var beg: int, end: int := 0, n - 1;
    while beg < end
      invariant 0 <= beg && end == n - 1 - beg && beg <= end + 2
      invariant MirroredUpTo(old(buf[..]), buf[..], at, n, beg)
    {
      buf[at + beg], buf[at + end] := buf[at + end], buf[at + beg];
      beg, end := beg + 1, end - 1;
    }
    MirroredText(old(buf[..]), buf[..], at, text, beg);
    MirroredApart(old(buf[..]), buf[..], at, |text|, beg);
  }

  /** The outer beg bytes at both ends of the n bytes from a place on have changed places. */
  ghost predicate MirroredUpTo(before: seq<Byte>, after: seq<Byte>, at: nat, n: int, beg: int) {
    && |after| == |before| && at + n < |before|
    && (forall j :: at <= j < at + beg && j < at + n ==> after[j] == before[2 * at + n - 1 - j])
    && (forall j :: at + n - beg <= j < at + n && at <= j ==> after[j] == before[2 * at + n - 1 - j])
    && (forall j :: 0 <= j < |before| && !(at <= j < at + beg) && !(at + n - beg <= j < at + n) ==>
          after[j] == before[j])
  }

  lemma MirroredText(before: seq<Byte>, after: seq<Byte>, at: nat, text: seq<Byte>, beg: nat)
    requires |after| == |before| && StringAt(before, at, text) && MirroredUpTo(before, after, at, |text|, beg)
    requires |text| - 1 <= 2 * beg <= |text| + 1
    ensures after[at..at + |text|] == Reversed(text) && 0 !in Reversed(text)
  {
    hide MirroredUpTo, Reversed;
    var mirror := after[at..at + |text|];
    forall i | 0 <= i < |text|
      ensures mirror[i] == text[|text| - 1 - i]
    {
      MirroredAt(before, after, at, text, beg, i);
    }
    ReversedIs(text, mirror);
  }

  lemma MirroredAt(before: seq<Byte>, after: seq<Byte>, at: nat, text: seq<Byte>, beg: nat, i: nat)
    requires |after| == |before| && StringAt(before, at, text) && MirroredUpTo(before, after, at, |text|, beg)
    requires |text| - 1 <= 2 * beg <= |text| + 1 && i < |text|
    ensures after[at + i] == text[|text| - 1 - i]
  {
  }

  lemma ReversedIs(text: seq<Byte>, mirror: seq<Byte>)
    requires |mirror| == |text| && forall i :: 0 <= i < |text| ==> mirror[i] == text[|text| - 1 - i]
    ensures mirror == Reversed(text)
    ensures 0 !in text ==> 0 !in mirror
  {
  }

  lemma MirroredApart(before: seq<Byte>, after: seq<Byte>, at: nat, n: nat, beg: nat)
    requires MirroredUpTo(before, after, at, n, beg) && 2 * beg <= n + 1
    ensures Apart(before, after, at, n) && after[at + n] == before[at + n]
  {
  }

  /** itoa: the digits of the value, ended by a zero byte; the rest of the buffer is left alone. */
  method Itoa(value: U32, buf: array<Byte>, at: nat, radix: Radix)
    requires at + |Digits(value, radix)| < buf.Length
    modifies buf
    ensures StringAt(buf[..], at, Digits(value, radix))
    ensures Apart(old(buf[..]), buf[..], at, |Digits(value, radix)| + 1)
  {
    if value == 0 {
      buf[at] := 48;
      buf[at + 1] := 0;
      return;
    }
    ItoaPositive(value, buf, at, radix);
  }

  method ItoaPositive(value: U32, buf: array<Byte>, at: nat, radix: Radix)
    requires value > 0 && at + |Digits(value, radix)| < buf.Length
    modifies buf
    ensures StringAt(buf[..], at, Digits(value, radix))
    ensures Apart(old(buf[..]), buf[..], at, |Digits(value, radix)| + 1)
  {
    hide Digits, Reversed;
    ghost var text := Digits(value, radix);
    var n := Backwards(value, buf, at, radix);
    buf[at + n] := 0;
    NoZeroByte(text, radix);
    ReversedTwice(text);
    assert buf[at..at + n] == Reversed(text);
    Strrev(buf, at, Reversed(text));
  }

  function Remaining(value: nat, radix: Radix): (r: seq<Byte>)
    ensures r == if value == 0 then [] else Digits(value, radix)
  {
    if value == 0 then [] else Digits(value, radix)
  }

  method Peel(value: nat, radix: Radix) returns (c: Byte, rest: nat)
    requires value > 0
    ensures rest < value && Remaining(value, radix) == Remaining(rest, radix) + [c]
  {
    ShrinksByDivision(value, radix);
    if value < radix {
      DividesBack(0, value, radix);
    }
    c, rest := DigitChar(value % radix), value / radix;
  }

  /** The loop that peels digits off from the least significant end. */
  method Backwards(value: U32, buf: array<Byte>, at: nat, radix: Radix) returns (n: nat)
    requires value > 0 && at + |Digits(value, radix)| < buf.Length
    modifies buf
    ensures n == |Digits(value, radix)| && buf[at..at + n] == Reversed(Digits(value, radix))
    ensures Apart(old(buf[..]), buf[..], at, n)
  {
    hide Digits, Reversed, Remaining, DigitChar;
    ghost var tail: seq<Byte> := [];
    n := 0;
    var newval: nat := value;
    while newval > 0
      invariant n == |tail| && Remaining(value, radix) == Remaining(newval, radix) + tail
      invariant at + n <= buf.Length && buf[at..at + n] == Reversed(tail)
      invariant Apart(old(buf[..]), buf[..], at, n)
    {
      var c: Byte;
      c, newval := Peel(newval, radix);
      ReversedCons(c, tail);
      buf[at + n] := c;
      tail := [c] + tail;
      n := n + 1;
    }
  }

  lemma ReversedCons(c: Byte, tail: seq<Byte>)
    ensures Reversed([c] + tail) == Reversed(tail) + [c]
  {
  }

  lemma NoZeroByte(text: seq<Byte>, radix: Radix)
    requires AllDigits(text, radix)
    ensures 0 !in text && 0 !in Reversed(text)
  {
  }

  function Noughts(n: nat): (z: seq<Byte>)
    ensures |z| == n
  {
    seq(n, _ => 48)
  }

  lemma {:induction false} NoughtsAreNothing(n: nat, text: seq<Byte>, radix: Radix)
    requires AllDigits(text, radix)
    ensures AllDigits(Noughts(n) + text, radix) && ValueOf(Noughts(n) + text, radix) == ValueOf(text, radix)
    decreases n + |text|
  {
    var all := Noughts(n) + text;
    if text != [] {
      NoughtsAreNothing(n, text[..|text| - 1], radix);
      assert all[..|all| - 1] == Noughts(n) + text[..|text| - 1];
    } else if n > 0 {
      NoughtsAreNothing(n - 1, [], radix);
      assert all[..|all| - 1] == Noughts(n - 1) + [];
    }
  }

  /** The fixed-width hexadecimal form: always 8 digits, and they read back as the value. */
  method PrintHex(value: U32) returns (text: seq<Byte>)
    ensures |text| == 8 && AllDigits(text, 16) && ValueOf(text, 16) == value
  {
    hide Digits, ValueOf, Power;
    ghost var digits := Digits(value, 16);
    WordDigits(value, 16);
    var conv := new Byte[64](_ => 0);
    Itoa(value, conv, 8, 16);
    var start := Strlen(conv, 8, digits);
    ghost var padded := Noughts(8 - start) + digits;
    NoughtsAreNothing(8 - start, digits, 16);
    NoZeroByte(padded, 16);
    DigitsRoundTrip(value, 16);
    Pad(conv, start, digits);
    var n := Strlen(conv, start, padded);
    text := conv[start..start + n];
  }

  method Pad(conv: array<Byte>, start: nat, ghost digits: seq<Byte>)
    requires start == |digits| <= 8 && StringAt(conv[..], 8, digits)
    modifies conv
    ensures StringAt(conv[..], start, Noughts(8 - start) + digits)
  {
    var i: nat := start;
    while i < 8
      invariant start <= i <= 8
      invariant forall j :: start <= j < i ==> conv[j] == 48
      invariant forall j :: 8 <= j < conv.Length ==> conv[j] == old(conv[j])
    {
      conv[i] := 48;
      i := i + 1;
    }
    assert conv[8..8 + start] == digits;
    assert conv[start..start + 8] == conv[start..8] + conv[8..8 + start];
    assert conv[start..8] == Noughts(8 - start);
  }

  // ------------------------------------------------------------------ signed numbers

  type I32 = n: int | -0x8000_0000 <= n < 0x8000_0000

  /** Negation on 32 bits: the least value is its own negative. */
  function Negated(value: I32): I32 {
    if value == -0x8000_0000 then value else -value
  }

  function AsUnsigned(value: I32): U32 {
    if value < 0 then value + WORD else value
  }

  /** What a reader of a signed decimal text makes of it. */
  function SignedValue(text: seq<Byte>): int
    requires text != [] && AllDigits(if text[0] == 45 then text[1..] else text, 10)
  {
    if text[0] == 45 then 0 - ValueOf(text[1..], 10) else ValueOf(text, 10)
  }

  /** The signed decimal form reads back as the value, for the least one too. */
  method PrintSigned(value: I32) returns (text: seq<Byte>)
    ensures text != [] && AllDigits(if text[0] == 45 then text[1..] else text, 10)
    ensures SignedValue(text) == value
  {
    hide Digits, ValueOf, Power;
    var conv := new Byte[36](_ => 0);
    if value < 0 {
      ghost var digits := Digits(AsUnsigned(Negated(value)), 10);
      WordDigits(AsUnsigned(Negated(value)), 10);
      conv[0] := 45;
      Itoa(AsUnsigned(Negated(value)), conv, 1, 10);
      NoZeroByte(digits, 10);
      DigitsRoundTrip(AsUnsigned(Negated(value)), 10);
      assert conv[0..1 + |digits|] == [45] + digits;
      var n := Strlen(conv, 0, [45] + digits);
      text := conv[..n];
      assert text[1..] == digits;
    } else {
      ghost var digits := Digits(AsUnsigned(value), 10);
      WordDigits(AsUnsigned(value), 10);
      Itoa(AsUnsigned(value), conv, 0, 10);
      DigitsRoundTrip(AsUnsigned(value), 10);
      var n := Strlen(conv, 0, digits);
      text := conv[..n];
      assert text == digits && IsDigit(text[0], 10);
    }
  }
}
