/** The text primitives the mapfile format is read and written with: Python's `splitlines`, `strip`
    and `split`, `int(s, 0)`, and the `X` and `d` integer formats. */
module Words {
  import opened Basics

  // ---------- Lines, strip, split ----------

  predicate IsSpace(c: char) {
    var n := c as int;
    9 <= n <= 13 || 28 <= n <= 32 || n == 0x85 || n == 0xA0 || n == 0x1680 || 0x2000 <= n <= 0x200A
    || n == 0x2028 || n == 0x2029 || n == 0x202F || n == 0x205F || n == 0x3000
  }

  predicate IsLineBreak(c: char) {
    var n := c as int;
    10 <= n <= 13 || 28 <= n <= 30 || n == 0x85 || n == 0x2028 || n == 0x2029
  }

  /** `splitlines`, with the line read so far in `cur`. */
  function Lines(s: string, cur: string): seq<string>
    decreases |s|
  {
    if s == [] then (if cur == [] then [] else [cur])
    else if s[0] == '\r' && |s| > 1 && s[1] == '\n' then [cur] + Lines(s[2..], [])
    else if IsLineBreak(s[0]) then [cur] + Lines(s[1..], [])
    else Lines(s[1..], cur + [s[0]])
  }

  function Unlines(lines: seq<string>): string {
    if lines == [] then [] else lines[0] + ['\n'] + Unlines(lines[1..])
  }

  function StripLeft(s: string): string {
    if s != [] && IsSpace(s[0]) then StripLeft(s[1..]) else s
  }

  function StripRight(s: string): string {
    if s != [] && IsSpace(s[|s| - 1]) then StripRight(s[..|s| - 1]) else s
  }

  function Strip(s: string): string { StripRight(StripLeft(s)) }

  /** `split()`, with the word read so far in `cur`. */
  function Tokens(s: string, cur: string): seq<string> {
    if s == [] then (if cur == [] then [] else [cur])
    else if IsSpace(s[0]) then (if cur == [] then [] else [cur]) + Tokens(s[1..], [])
    else Tokens(s[1..], cur + [s[0]])
  }

  function Split(s: string): seq<string> { Tokens(s, []) }

  function Spaces(n: nat): string {
    if n == 0 then [] else [' '] + Spaces(n - 1)
  }

  predicate IsWord(s: string) {
    s != [] && forall c <- s :: !IsSpace(c)
  }

  predicate NoBreak(s: string) {
    forall c <- s :: !IsLineBreak(c)
  }

  lemma {:induction false} LinesStep(line: string, rest: string, cur: string)
    requires NoBreak(line)
    ensures Lines(line + ['\n'] + rest, cur) == [cur + line] + Lines(rest, [])
    decreases |line|
  {
    var s := line + ['\n'] + rest;
    if line == [] {
      assert s[1..] == rest && cur + line == cur;
    } else {
      assert line[0] in line && !IsLineBreak(line[0]);
      assert s[1..] == line[1..] + ['\n'] + rest;
      LinesStep(line[1..], rest, cur + [line[0]]);
      assert cur + [line[0]] + line[1..] == cur + line;
    }
  }

  lemma {:induction false} LinesOfUnlines(lines: seq<string>)
    requires forall l <- lines :: NoBreak(l)
    ensures Lines(Unlines(lines), []) == lines
  {
    if lines != [] {
      LinesStep(lines[0], Unlines(lines[1..]), []);
      LinesOfUnlines(lines[1..]);
      assert [] + lines[0] == lines[0];
    }
  }

  lemma StripNothing(s: string)
    requires s != [] && !IsSpace(s[0]) && !IsSpace(s[|s| - 1])
    ensures Strip(s) == s
  {}

  lemma {:induction false} TokensWord(w: string, rest: string, cur: string)
    requires forall c <- w :: !IsSpace(c)
    ensures Tokens(w + rest, cur) == Tokens(rest, cur + w)
  {
    if w == [] {
      assert w + rest == rest && cur + w == cur;
    } else {
      assert w[0] in w && (w + rest)[1..] == w[1..] + rest;
      TokensWord(w[1..], rest, cur + [w[0]]);
      assert cur + [w[0]] + w[1..] == cur + w;
    }
  }

  lemma {:induction false} TokensSpaces(n: nat, rest: string)
    ensures Tokens(Spaces(n) + rest, []) == Tokens(rest, [])
  {
    if n == 0 {
      assert Spaces(0) + rest == rest;
    } else {
      assert (Spaces(n) + rest)[1..] == Spaces(n - 1) + rest;
      TokensSpaces(n - 1, rest);
    }
  }

  lemma SplitWord(w: string)
    requires IsWord(w)
    ensures Split(w) == [w]
  {
    TokensWord(w, [], []);
    assert w + [] == w && [] + w == w;
  }

  lemma SplitFirst(w: string, n: nat, rest: string)
    requires IsWord(w) && n > 0
    ensures Split(w + Spaces(n) + rest) == [w] + Split(rest)
  {
    var tail := Spaces(n) + rest;
    assert w + Spaces(n) + rest == w + tail;
    TokensWord(w, tail, []);
    assert [] + w == w && tail[0] == ' ' && tail[1..] == Spaces(n - 1) + rest;
    TokensSpaces(n - 1, rest);
  }

  // ---------- Numerals ----------

  function DigitChar(d: nat): char
    requires d < 16
  {
    if d < 10 then '0' + d as char else 'A' + (d - 10) as char
  }

  /** The value of a digit in any base up to 36, or 99 for any other character. */
  function DigitValue(c: char): nat {
    if '0' <= c <= '9' then (c - '0') as nat
    else if 'a' <= c <= 'z' then (c - 'a') as nat + 10
    else if 'A' <= c <= 'Z' then (c - 'A') as nat + 10
    else 99
  }

  function Digits(n: nat, base: nat): string
    requires base == 10 || base == 16
  {
    if n < base then [DigitChar(n)] else Digits(n / base, base) + [DigitChar(n % base)]
  }

  function PadZeros(s: string, width: nat): string
    decreases width - |s|
  {
    if |s| >= width then s else PadZeros(['0'] + s, width)
  }

  /** `0x{n:08X}`: the padding counts the sign. */
  function Hex(n: int): string {
    "0x" + if n >= 0 then PadZeros(Digits(n, 16), 8) else ['-'] + PadZeros(Digits(-n, 16), 7)
  }

  function Decimal(n: int): string {
    if n >= 0 then Digits(n, 10) else ['-'] + Digits(-n, 10)
  }

  /** Digits of a literal, single underscores allowed between them. */
  function ReadDigits(s: string, base: nat, acc: int, afterDigit: bool): Option<int> {
    if s == [] then (if afterDigit then Some(acc) else None)
    else if s[0] == '_' then (if afterDigit then ReadDigits(s[1..], base, acc, false) else None)
    else if DigitValue(s[0]) < base then ReadDigits(s[1..], base, acc * base + DigitValue(s[0]), true)
    else None
  }

  function DropUnderscore(s: string): string {
    if s != [] && s[0] == '_' then s[1..] else s
  }

  function ReadMagnitude(s: string): Option<int> {
    if |s| >= 2 && s[0] == '0' && s[1] in "xX" then ReadDigits(DropUnderscore(s[2..]), 16, 0, false)
    else if |s| >= 2 && s[0] == '0' && s[1] in "oO" then ReadDigits(DropUnderscore(s[2..]), 8, 0, false)
    else if |s| >= 2 && s[0] == '0' && s[1] in "bB" then ReadDigits(DropUnderscore(s[2..]), 2, 0, false)
    else
      var r := ReadDigits(s, 10, 0, false);
      if r.Some? && r.value != 0 && s != [] && s[0] == '0' then None else r
  }

  /** `int(s, 0)`; `None` stands for the ValueError. */
  function ReadInt(s: string): Option<int> {
    if s != [] && s[0] == '-' then
      (match ReadMagnitude(s[1..]) case Some(v) => Some(-v) case None => None)
    else if s != [] && s[0] == '+' then
      (match ReadMagnitude(s[1..]) case Some(v) => Some(v) case None => None)
    else
      (match ReadMagnitude(s) case Some(v) => Some(v) case None => None)
  }

  // Literals of each base, signs, and what is not a literal: a leading zero, a digit beyond the base, underscores that
  // do not stand between digits.

  lemma HexLiterals()
    ensures ReadInt("0x1F") == ReadInt("0X1f") == Some(31)
  {}

  lemma OtherLiterals()
    ensures ReadInt("0o17") == Some(15) && ReadInt("0b101") == Some(5)
  {}

  lemma SignsMean()
    ensures ReadInt("-12") == Some(-12) && ReadInt("+7") == Some(7)
  {}

  lemma UnderscoresMean()
    ensures ReadInt("1_0") == Some(10) && ReadInt("1__0") == None && ReadInt("_1") == None
  {}

  lemma LeadingZerosMean()
    ensures ReadInt("00") == Some(0) && ReadInt("012") == None
  {
    assert ReadDigits("0", 10, 0, true) == Some(0);
    assert ReadDigits("2", 10, 1, true) == Some(12);
    assert ReadDigits("12", 10, 0, true) == ReadDigits("2", 10, 1, true);
  }

  lemma NoLiterals()
    ensures ReadInt("0x") == None && ReadInt("9a") == None && ReadInt("0b2") == None
  {
    assert ReadDigits("a", 10, 9, true) == None;
  }

  /** Non-empty and made of the given base's digits, as the formats above print them. */
  predicate IsNumeral(s: string, base: nat) {
    s != [] && forall c <- s :: ('0' <= c <= '9' || 'A' <= c <= 'F') && DigitValue(c) < base
  }

  lemma {:induction false} ReadDigitsSnoc(s: string, c: char, base: nat, acc: int, afterDigit: bool)
    requires IsNumeral(s, base) && IsNumeral([c], base)
    ensures var r := ReadDigits(s, base, acc, afterDigit);
            r.Some? && ReadDigits(s + [c], base, acc, afterDigit) == Some(r.value * base + DigitValue(c))
    decreases |s|
  {
    assert s[0] in s && c in [c] && s[0] != '_' && c != '_';
    var t := s + [c];
    assert t[0] == s[0] && t[1..] == s[1..] + [c];
    var next := acc * base + DigitValue(s[0]);
    assert ReadDigits(t, base, acc, afterDigit) == ReadDigits(t[1..], base, next, true);
    if |s| == 1 {
      assert t[1..] == [c] && [c][1..] == [] && s[1..] == [];
      assert ReadDigits(s, base, acc, afterDigit) == ReadDigits(s[1..], base, next, true) == Some(next);
      assert ReadDigits([c], base, next, true) == ReadDigits([c][1..], base, next * base + DigitValue(c), true);
    } else {
      assert forall d <- s[1..] :: d in s;
      ReadDigitsSnoc(s[1..], c, base, next, true);
    }
  }

  lemma DivMod(n: nat, base: nat)
    requires base > 0
    ensures (n / base) * base + n % base == n
  {}

  lemma SnocReads(s: string, c: char, base: nat, front: nat, digit: nat)
    requires IsNumeral(s, base) && IsNumeral([c], base) && DigitValue(c) == digit
    requires ReadDigits(s, base, 0, false) == Some(front)
    ensures IsNumeral(s + [c], base) && ReadDigits(s + [c], base, 0, false) == Some(front * base + digit)
  {
    ReadDigitsSnoc(s, c, base, 0, false);
  }

  lemma ReadsDigit(d: nat, base: nat)
    requires (base == 10 || base == 16) && d < base
    ensures IsNumeral([DigitChar(d)], base) && DigitValue(DigitChar(d)) == d
    ensures ReadDigits([DigitChar(d)], base, 0, false) == Some(d)
    ensures d > 0 ==> DigitChar(d) != '0'
  {
    assert [DigitChar(d)][1..] == [];
  }

  lemma {:induction false} ReadsPrintedDigits(n: nat, base: nat)
    requires base == 10 || base == 16
    ensures IsNumeral(Digits(n, base), base)
    ensures ReadDigits(Digits(n, base), base, 0, false) == Some(n)
    ensures n > 0 ==> Digits(n, base)[0] != '0'
  {
    hide ReadDigits, IsNumeral, DigitChar, DigitValue;
    if n < base {
      assert Digits(n, base) == [DigitChar(n)];
      ReadsDigit(n, base);
    } else {
      ReadsPrintedDigits(n / base, base);
      assert n / base > 0;
      var c := DigitChar(n % base);
      ReadsDigit(n % base, base);
      assert Digits(n, base) == Digits(n / base, base) + [c];
      hide Digits;
      DivMod(n, base);
      SnocReads(Digits(n / base, base), c, base, n / base, n % base);
    }
  }

  lemma {:induction false} PaddingKeepsValue(s: string, base: nat, width: nat)
    requires IsNumeral(s, base) && base > 0
    ensures IsNumeral(PadZeros(s, width), base)
    ensures |PadZeros(s, width)| == if |s| < width then width else |s|
    ensures ReadDigits(PadZeros(s, width), base, 0, false) == ReadDigits(s, base, 0, false)
    decreases width - |s|
  {
    if |s| < width {
      assert s[0] in s && (['0'] + s)[1..] == s;
      assert ReadDigits(['0'] + s, base, 0, false) == ReadDigits(s, base, 0, true) == ReadDigits(s, base, 0, false);
      PaddingKeepsValue(['0'] + s, base, width);
    }
  }

  /** What `int(s, 0)` makes of a text behind `0x`. */
  lemma ReadsHexLiteral(body: string)
    requires body != [] && body[0] != '_'
    ensures ReadInt("0x" + body) == ReadDigits(body, 16, 0, false)
  {
    hide ReadDigits;
    var s := "0x" + body;
    assert s[0] == '0' && s[1] == 'x' && s[2..] == body;
  }

  lemma HexIsWord(body: string)
    requires body != [] && forall c <- body :: !IsSpace(c)
    ensures var s := "0x" + body; IsWord(s) && s[0] == '0' && !IsSpace(s[|s| - 1])
  {
    var s := "0x" + body;
    assert s[|s| - 1] == body[|body| - 1] && body[|body| - 1] in body;
    forall c <- s ensures !IsSpace(c) {
      assert c in "0x" || c in body;
    }
  }

  lemma NumeralIsPlain(s: string, base: nat)
    requires IsNumeral(s, base)
    ensures s != [] && s[0] != '_' && forall c <- s :: !IsSpace(c)
  {
    assert s[0] in s;
  }

  /** A sign stands where no literal allows it. */
  lemma SignStops(s: string)
    ensures ReadDigits(['-'] + s, 16, 0, false) == None
  {}

  /** Zero-padded hexadecimal reads back exactly when the number is not negative: the sign of a
      negative one is printed behind the prefix, where no literal allows it. */
  lemma HexReadsBack(n: int)
    ensures IsWord(Hex(n)) && Hex(n)[0] == '0' && !IsSpace(Hex(n)[|Hex(n)| - 1])
    ensures ReadInt(Hex(n)) == if n >= 0 then Some(n) else None
  {
    hide Digits, PadZeros, IsNumeral, ReadInt, ReadDigits, IsWord;
    var magnitude: nat, width := if n >= 0 then n else -n, if n >= 0 then 8 else 7;
    var padded := PadZeros(Digits(magnitude, 16), width);
    ReadsPrintedDigits(magnitude, 16);
    PaddingKeepsValue(Digits(magnitude, 16), 16, width);
    NumeralIsPlain(padded, 16);
    var body := if n >= 0 then padded else ['-'] + padded;
    assert Hex(n) == "0x" + body;
    HexIsWord(body);
    ReadsHexLiteral(body);
    SignStops(padded);
  }

  lemma DecimalReadsBack(n: int)
    ensures IsWord(Decimal(n))
    ensures n >= 0 ==> ReadInt(Decimal(n)) == Some(n) && forall c <- Decimal(n) :: '0' <= c <= '9'
    ensures n < 0 ==> Decimal(n)[0] == '-'
  {
    var magnitude: nat := if n >= 0 then n else -n;
    var s := Digits(magnitude, 10);
    ReadsPrintedDigits(magnitude, 10);
    assert s[0] in s;
    if n >= 0 && |s| >= 2 {
      assert s[1] in s;
    }
    forall c <- Decimal(n) ensures !IsSpace(c) {
      assert c == '-' || c in s;
    }
  }
}
