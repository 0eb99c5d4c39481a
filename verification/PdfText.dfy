/** The text lines of the PDF writer of `certificate_engine.py`: escaping, Latin-1 encoding, and the reader that
    section 7.3.4.2 of ISO 32000-1 prescribes for literal strings. */
module PdfText {
  import opened Basics

  /** `s.replace(c, r)` for a single character. */
  function ReplaceChar(s: string, c: char, r: string): string {
    if s == [] then [] else (if s[0] == c then r else [s[0]]) + ReplaceChar(s[1..], c, r)
  }

  /** The writer's three replacements, in its order. */
  function Escape(text: string): string {
    ReplaceChar(ReplaceChar(ReplaceChar(text, '\\', "\\\\"), '(', "\\("), ')', "\\)")
  }

  /** `s.replace(w, "")`. */
  function Remove(s: string, w: string): string
    requires w != []
  {
    if s == [] then [] else if w <= s then Remove(s[|w|..], w) else [s[0]] + Remove(s[1..], w)
  }

  /** `encode("latin-1", errors="replace")`. */
  function Latin1(s: string): string {
    if s == [] then [] else [if s[0] as int < 256 then s[0] else '?'] + Latin1(s[1..])
  }

  // ---------- The literal-string reader ----------

  predicate IsOctal(c: char) { '0' <= c <= '7' }

  /** The value and the width of the one to three octal digits at the front of `s`. */
  function OctalPrefix(s: string, value: nat, width: nat): (nat, nat)
    decreases 3 - width
  {
    if width < 3 && s != [] && IsOctal(s[0])
    then OctalPrefix(s[1..], 8 * value + (s[0] as int - '0' as int), width + 1)
    else (value, width)
  }

  lemma OctalWidth(s: string, value: nat, width: nat)
    requires width <= 3
    ensures width <= OctalPrefix(s, value, width).1 <= width + |s|
    decreases 3 - width
  {}

  /** What the single character behind a backslash stands for. */
  function EscapedChar(c: char): char {
    if c == 'n' then '\n' else if c == 'r' then '\r' else if c == 't' then '\t'
    else if c == 'b' then 8 as char else if c == 'f' then 12 as char else c
  }

  function Prepend(c: char, r: Option<(string, string)>): Option<(string, string)> {
    if r.None? then None else Some(([c] + r.value.0, r.value.1))
  }

  /** Reads a literal string from behind its opening parenthesis, `depth` further ones being open: its text and
      what follows the closing one.  Balanced parentheses need no escape, an end-of-line marker reads as a line
      feed, and an escaped one as nothing. */
  function ReadLiteral(s: string, depth: nat): Option<(string, string)>
    decreases |s|
  {
    if s == [] then None
    else if s[0] == ')' then
      if depth == 0 then Some(([], s[1..])) else Prepend(')', ReadLiteral(s[1..], depth - 1))
    else if s[0] == '(' then Prepend('(', ReadLiteral(s[1..], depth + 1))
    else if s[0] == '\r' then Prepend('\n', ReadLiteral(AfterLineBreak(s), depth))
    else if s[0] != '\\' then Prepend(s[0], ReadLiteral(s[1..], depth))
    else if |s| == 1 then None
    else if s[1] == '\r' || s[1] == '\n' then ReadLiteral(AfterLineBreak(s[1..]), depth)
    else if IsOctal(s[1]) then
      OctalWidth(s[1..], 0, 0);
      var (value, width) := OctalPrefix(s[1..], 0, 0);
      Prepend((value % 256) as char, ReadLiteral(s[1 + width..], depth))
    else Prepend(EscapedChar(s[1]), ReadLiteral(s[2..], depth))
  }

  /** Drops the end-of-line marker at the front: CR, LF or CR LF. */
  function AfterLineBreak(s: string): string
    requires s != []
  {
    if s[0] == '\r' && |s| > 1 && s[1] == '\n' then s[2..] else s[1..]
  }

  /** Every end-of-line marker as a line feed. */
  function NormaliseEol(s: string): string
    decreases |s|
  {
    if s == [] then []
    else if s[0] == '\r' then ['\n'] + NormaliseEol(AfterLineBreak(s))
    else [s[0]] + NormaliseEol(s[1..])
  }

  // ---------- Escaping one character at a time ----------

  function EscapeChar(c: char): string {
    if c == '\\' || c == '(' || c == ')' then ['\\', c] else [c]
  }

  function EscapeEach(s: string): string {
    if s == [] then [] else EscapeChar(s[0]) + EscapeEach(s[1..])
  }

  lemma {:induction false} ReplaceConcat(a: string, b: string, c: char, r: string)
    ensures ReplaceChar(a + b, c, r) == ReplaceChar(a, c, r) + ReplaceChar(b, c, r)
  {
    if a == [] {
      assert a + b == b;
    } else {
      assert (a + b)[1..] == a[1..] + b;
      ReplaceConcat(a[1..], b, c, r);
    }
  }

  lemma ReplaceOne(x: char, c: char, r: string)
    ensures ReplaceChar([x], c, r) == if x == c then r else [x]
  {
    assert ReplaceChar([x], c, r) == (if x == c then r else [x]) + ReplaceChar([], c, r);
  }

  /** The three replacements in a row escape each character once: the backslashes that the later two put in
      are not escaped again, because the backslash is replaced first. */
  lemma {:induction false} EscapeIsPerCharacter(s: string)
    ensures Escape(s) == EscapeEach(s)
  {
    if s != [] {
      var head, tail := [s[0]], s[1..];
      assert s == head + tail;
      EscapeIsPerCharacter(tail);
      EscapeConcat(head, tail);
      EscapeOne(s[0]);
    }
  }

  lemma EscapeConcat(a: string, b: string)
    ensures Escape(a + b) == Escape(a) + Escape(b)
  {
    ReplaceConcat(a, b, '\\', "\\\\");
    var a1, b1 := ReplaceChar(a, '\\', "\\\\"), ReplaceChar(b, '\\', "\\\\");
    ReplaceConcat(a1, b1, '(', "\\(");
    ReplaceConcat(ReplaceChar(a1, '(', "\\("), ReplaceChar(b1, '(', "\\("), ')', "\\)");
  }

  lemma EscapeOne(c: char)
    ensures Escape([c]) == EscapeChar(c)
  {
    ReplaceOne(c, '\\', "\\\\");
    if c == '\\' {
      ReplacePair('\\', '\\', '(', "\\(");
      ReplacePair('\\', '\\', ')', "\\)");
    } else {
      ReplaceOne(c, '(', "\\(");
      if c == '(' {
        ReplacePair('\\', '(', ')', "\\)");
      } else {
        ReplaceOne(c, ')', "\\)");
      }
    }
  }

  lemma ReplacePair(x: char, y: char, c: char, r: string)
    requires x != c && y != c
    ensures ReplaceChar([x, y], c, r) == [x, y]
  {
    ReplaceOne(y, c, r);
    assert [x, y][1..] == [y];
  }

  // ---------- Reading back ----------

  /** Reading undoes escaping, up to the spelling of line breaks, and stops at the closing parenthesis that
      was put behind the text. */
  lemma {:induction false} EachReadsBack(text: string, rest: string)
    ensures ReadLiteral(EscapeEach(text) + [')'] + rest, 0) == Some((NormaliseEol(text), rest))
    decreases |text|
  {
    var s := EscapeEach(text) + [')'] + rest;
    if text == [] {
      assert s[1..] == rest;
    } else {
      var tail := EscapeEach(text[1..]) + [')'] + rest;
      assert s == EscapeChar(text[0]) + tail;
      EachReadsBack(text[1..], rest);
      if |EscapeChar(text[0])| == 2 {
        assert s[2..] == tail;
      } else {
        assert s[1..] == tail;
        if text[0] == '\r' { CarriageReturnReadsBack(text, rest, tail); }
      }
    }
  }

  lemma CarriageReturnReadsBack(text: string, rest: string, tail: string)
    requires text != [] && text[0] == '\r'
    requires tail == EscapeEach(text[1..]) + [')'] + rest
    requires ReadLiteral(tail, 0) == Some((NormaliseEol(text[1..]), rest))
    ensures ReadLiteral(['\r'] + tail, 0) == Some((NormaliseEol(text), rest))
  {
    var s := ['\r'] + tail;
    assert s[1..] == tail;
    if |text| > 1 && text[1] == '\n' {
      assert tail[0] == '\n' && s[2..] == tail[1..] && text[2..] == text[1..][1..];
      assert Prepend('\n', ReadLiteral(tail[1..], 0)) == ReadLiteral(tail, 0);
      assert NormaliseEol(text[1..]) == ['\n'] + NormaliseEol(text[2..]);
      assert NormaliseEol(text) == ['\n'] + NormaliseEol(text[2..]);
    } else {
      assert tail[0] != '\n';
    }
  }

  /** The literal-string reader inverts `add_line`'s escaping, up to the spelling of line breaks. */
  lemma EscapeReadsBack(text: string, rest: string)
    ensures ReadLiteral(Escape(text) + [')'] + rest, 0) == Some((NormaliseEol(text), rest))
  {
    EscapeIsPerCharacter(text);
    EachReadsBack(text, rest);
  }

  lemma {:induction false} NormaliseLosesCarriageReturns(s: string)
    ensures '\r' !in NormaliseEol(s)
    ensures '\r' !in s ==> NormaliseEol(s) == s
    decreases |s|
  {
    if s != [] {
      NormaliseLosesCarriageReturns(if s[0] == '\r' then AfterLineBreak(s) else s[1..]);
    }
  }

  // ---------- Latin-1 ----------

  lemma {:induction false} Latin1At(s: string)
    ensures |Latin1(s)| == |s|
    ensures forall i :: 0 <= i < |s| ==> Latin1(s)[i] == if s[i] as int < 256 then s[i] else '?'
  {
    if s != [] { Latin1At(s[1..]); }
  }

  lemma Latin1Concat(a: string, b: string)
    ensures Latin1(a + b) == Latin1(a) + Latin1(b)
  {
    Latin1At(a);
    Latin1At(b);
    Latin1At(a + b);
  }

  lemma {:induction false} Latin1OfEscape(s: string)
    ensures Latin1(EscapeEach(s)) == EscapeEach(Latin1(s))
  {
    if s != [] {
      Latin1OfEscape(s[1..]);
      Latin1Concat(EscapeChar(s[0]), EscapeEach(s[1..]));
      Latin1OfEscapeChar(s[0]);
      EscapeEachCons(Latin1([s[0]])[0], Latin1(s[1..]));
      assert Latin1(s) == Latin1([s[0]]) + Latin1(s[1..]);
    }
  }

  lemma EscapeEachCons(c: char, rest: string)
    ensures EscapeEach([c] + rest) == EscapeChar(c) + EscapeEach(rest)
  {
    assert ([c] + rest)[1..] == rest;
  }

  lemma Latin1OfEscapeChar(c: char)
    ensures |Latin1([c])| == 1 && Latin1(EscapeChar(c)) == EscapeChar(Latin1([c])[0])
  {
    Latin1At([c]);
    Latin1At(EscapeChar(c));
  }

  /** The encoded form of an escaped text reads back as the text with unencodable characters replaced and line
      breaks normalised. */
  lemma EncodedReadsBack(text: string, rest: string)
    ensures ReadLiteral(Latin1(Escape(text)) + [')'] + rest, 0) == Some((NormaliseEol(Latin1(text)), rest))
  {
    EscapeIsPerCharacter(text);
    Latin1OfEscape(text);
    EachReadsBack(Latin1(text), rest);
  }

  /** Nothing is lost exactly when the text has no carriage return and no character beyond Latin-1. */
  lemma LosslessIffPlainLatin1(text: string)
    ensures NormaliseEol(Latin1(text)) == text <==> '\r' !in text && forall c <- text :: c as int < 256
  {
    NormaliseLosesCarriageReturns(Latin1(text));
    Latin1KeepsPlain(text);
  }

  lemma Latin1KeepsPlain(text: string)
    ensures '\r' in text <==> '\r' in Latin1(text)
    ensures Latin1(text) == text <==> forall c <- text :: c as int < 256
  {
    Latin1At(text);
    forall c <- text | Latin1(text) == text ensures c as int < 256 {
      var i :| 0 <= i < |text| && text[i] == c;
      assert Latin1(text)[i] == c;
    }
    if forall c <- text :: c as int < 256 {
      assert forall i :: 0 <= i < |text| ==> text[i] in text;
      assert Latin1(text) == text;
    }
    if '\r' in text {
      var i :| 0 <= i < |text| && text[i] == '\r';
      assert Latin1(text)[i] == '\r';
    }
  }
}
