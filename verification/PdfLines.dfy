/** What a reader of the content stream sees of each page line and of the banner: the operators of
    `certificate_engine.py` against the literal-string reader of section 7.3.4.2 of ISO 32000-1. */
module PdfLines {
  import opened Basics
  import opened PdfText
  import opened PdfWriter
  import opened Words

  predicate Special(c: char) { c == '\\' || c == '(' || c == ')' }

  predicate Plain(s: string) { forall c <- s :: !Special(c) }

  const SECTION := "[SECTION]"

  /** The text a page line is shown with: a line that starts with dashes becomes the rule's text, a section loses
      its marker and the spaces around it, any other line is shown as it was added. */
  function ShownText(ruleText: string, text: string): string {
    if "---" <= text then ruleText
    else if SECTION <= text then NormaliseEol(Latin1(Strip(Remove(text, SECTION))))
    else NormaliseEol(Latin1(text))
  }

  predicate IsTextLine(text: string) { !("---" <= text) && !(SECTION <= text) }

  // ---------- Escaping commutes with what the writer does to a line ----------

  lemma {:induction false} EachConcat(a: string, b: string)
    ensures EscapeEach(a + b) == EscapeEach(a) + EscapeEach(b)
  {
    if a == [] {
      assert a + b == b;
    } else {
      assert (a + b)[1..] == a[1..] + b;
      EachConcat(a[1..], b);
    }
  }

  lemma {:induction false} EachPlain(s: string)
    requires Plain(s)
    ensures EscapeEach(s) == s
  {
    if s != [] {
      assert s[0] in s && s == [s[0]] + s[1..];
      EachPlain(s[1..]);
    }
  }

  lemma {:induction false} PlainPrefix(w: string, text: string)
    requires Plain(w)
    ensures w <= EscapeEach(text) <==> w <= text
  {
    if w != [] && text != [] {
      assert w[0] in w;
      PlainPrefix(w[1..], text[1..]);
      PrefixStep(w, text);
      PrefixStep(w, EscapeEach(text));
      if !Special(text[0]) { assert EscapeEach(text)[1..] == EscapeEach(text[1..]); }
    }
  }

  lemma PrefixStep(w: string, s: string)
    requires w != [] && s != []
    ensures w <= s <==> w[0] == s[0] && w[1..] <= s[1..]
  {
    if w[0] == s[0] && w[1..] <= s[1..] {
      assert w == [w[0]] + w[1..] && s == [s[0]] + s[1..];
    }
  }

  /** Removing a plain word finds the same places behind the escaping as before it. */
  lemma {:induction false} RemoveEscaped(text: string, w: string)
    requires Plain(w) && w != []
    ensures Remove(EscapeEach(text), w) == EscapeEach(Remove(text, w))
    decreases |text|
  {
    PlainPrefix(w, text);
    if w <= text {
      var rest := text[|w|..];
      assert text == w + rest;
      EachConcat(w, rest);
      EachPlain(w);
      assert EscapeEach(text)[|w|..] == EscapeEach(rest);
      RemoveEscaped(rest, w);
    } else if text != [] {
      RemoveEscaped(text[1..], w);
      RemoveChar(text[0], EscapeEach(text[1..]), w);
      EscapeEachCons(text[0], Remove(text[1..], w));
    }
  }

  lemma RemoveChar(c: char, rest: string, w: string)
    requires Plain(w) && w != [] && !(w <= EscapeChar(c) + rest)
    ensures Remove(EscapeChar(c) + rest, w) == EscapeChar(c) + Remove(rest, w)
  {
    var s := EscapeChar(c) + rest;
    if Special(c) {
      assert s[1..] == [c] + rest && ([c] + rest)[1..] == rest;
    } else {
      assert s[1..] == rest;
    }
  }

  lemma {:induction false} StripLeftEscaped(text: string)
    ensures StripLeft(EscapeEach(text)) == EscapeEach(StripLeft(text))
  {
    if text != [] && IsSpace(text[0]) {
      assert EscapeEach(text)[1..] == EscapeEach(text[1..]);
      StripLeftEscaped(text[1..]);
    }
  }

  lemma {:induction false} StripRightEscaped(text: string)
    ensures StripRight(EscapeEach(text)) == EscapeEach(StripRight(text))
    decreases |text|
  {
    if text != [] {
      var front, last := text[..|text| - 1], text[|text| - 1];
      assert text == front + [last];
      EachConcat(front, [last]);
      assert EscapeEach([last]) == EscapeChar(last) + EscapeEach([]);
      assert EscapeEach(text) == EscapeEach(front) + EscapeChar(last);
      if IsSpace(last) {
        assert EscapeEach(text)[..|EscapeEach(text)| - 1] == EscapeEach(front);
        StripRightEscaped(front);
      }
    }
  }

  /** The text behind which the operator of a page line stands, as it was before escaping. */
  function BodyOf(ruleText: string, text: string): string {
    if "---" <= text then ruleText else if SECTION <= text then Strip(Remove(text, SECTION)) else text
  }

  function HeadOf(text: string): string {
    if "---" <= text then "(" else if SECTION <= text then "/F1 10 Tf (" else "/F2 9 Tf ("
  }

  lemma MarkersArePlain()
    ensures Plain("---") && Plain(SECTION) && SECTION != []
  {}

  /** The operator that shows a page line holds the escaped form of the text it is to show. */
  lemma OperatorShowsBody(rule: string, ruleText: string, text: string)
    requires Plain(ruleText) && rule == "(" + ruleText + ") Tj"
    ensures LineOperators(rule, Escape(text))[1] == HeadOf(text) + Escape(BodyOf(ruleText, text)) + ") Tj"
  {
    MarkersArePlain();
    EscapeIsPerCharacter(text);
    EscapeIsPerCharacter(BodyOf(ruleText, text));
    PlainPrefix("---", text);
    PlainPrefix(SECTION, text);
    EachPlain(ruleText);
    RemoveEscaped(text, SECTION);
    StripLeftEscaped(Remove(text, SECTION));
    StripRightEscaped(StripLeft(Remove(text, SECTION)));
  }

  // ---------- Text lines in the stream ----------

  /** Where line `i` starts in the joined lines. */
  function LineStart(lines: seq<string>, i: nat): nat
    requires i < |lines|
  {
    if i == 0 then 0 else |lines[0]| + 1 + LineStart(lines[1..], i - 1)
  }

  lemma {:induction false} JoinedLineStands(lines: seq<string>, i: nat)
    requires i < |lines|
    ensures StandsAt(JoinLines(lines), LineStart(lines, i), lines[i])
    decreases |lines|
  {
    if |lines| > 1 {
      var rest := JoinLines(lines[1..]);
      if i == 0 {
        assert StandsAt(lines[0], 0, lines[0]);
        StandsInFront(lines[0], "\n", 0, lines[0]);
        StandsInFront(lines[0] + "\n", rest, 0, lines[0]);
      } else {
        JoinedLineStands(lines[1..], i - 1);
        StandsBehind(lines[0] + "\n", rest, LineStart(lines[1..], i - 1), lines[i]);
      }
    }
  }

  lemma {:induction false} OperatorsLength(rule: string, lines: seq<string>)
    ensures |Operators(rule, lines)| == 2 * |lines|
    decreases |lines|
  {
    if lines != [] { OperatorsLength(rule, lines[..|lines| - 1]); }
  }

  lemma {:induction false} OperatorsAt(rule: string, lines: seq<string>, i: nat)
    requires i < |lines|
    ensures |Operators(rule, lines)| == 2 * |lines|
      && Operators(rule, lines)[2 * i + 1] == LineOperators(rule, lines[i])[1]
    decreases |lines|
  {
    var last := |lines| - 1;
    OperatorsLength(rule, lines[..last]);
    if i < last { OperatorsAt(rule, lines[..last], i); }
    TwoMore(Operators(rule, lines[..last]), LineOperators(rule, lines[last]), i, last);
  }

  lemma TwoMore(front: seq<string>, two: seq<string>, i: nat, last: nat)
    requires |front| == 2 * last && |two| == 2 && i <= last
    ensures |front + two| == 2 * (last + 1)
    ensures (front + two)[2 * i + 1] == if i < last then front[2 * i + 1] else two[1]
  {}

  /** How far the text position moves in front of a page line: 14 units down, 18 in front of a section. */
  lemma LineMoves(prologue: seq<string>, rule: string, lines: seq<string>, i: nat, text: string)
    requires i < |lines| && lines[i] == Escape(text)
    ensures var all, at := StreamLines(prologue, rule, lines), |prologue| + 2 * i;
      && at + 1 < |all| == |prologue| + 2 * |lines| + 1 && all[|all| - 1] == "ET"
      && all[at] == if SECTION <= text then "0 -18 Td" else "0 -14 Td"
  {
    hide Operators, LineOperators, Escape;
    MoveOf(rule, text);
    MovesAt(rule, lines, i);
    var all := StreamLines(prologue, rule, lines);
    assert all[|prologue| + 2 * i] == Operators(rule, lines)[2 * i];
  }

  lemma MoveOf(rule: string, text: string)
    ensures LineOperators(rule, Escape(text))[0] == if SECTION <= text then "0 -18 Td" else "0 -14 Td"
  {
    hide Escape, Strip, Remove, Decimal;
    MarkersArePlain();
    EscapeIsPerCharacter(text);
    PlainPrefix("---", text);
    PlainPrefix(SECTION, text);
    Moves();
    MarkersDiffer(text);
  }

  lemma Moves()
    ensures "0 " + Decimal(Y_OFFSET) + " Td" == "0 -14 Td" && "0 " + Decimal(Y_OFFSET - 4) + " Td" == "0 -18 Td"
  {
    assert Digits(14, 10) == "14" && Digits(18, 10) == "18";
  }

  lemma MarkersDiffer(text: string)
    ensures !("---" <= text && SECTION <= text)
  {
    if text != [] {
      assert "---" <= text ==> text[0] == '-';
      assert SECTION <= text ==> text[0] == '[';
    }
  }

  lemma {:induction false} MovesAt(rule: string, lines: seq<string>, i: nat)
    requires i < |lines|
    ensures |Operators(rule, lines)| == 2 * |lines|
      && Operators(rule, lines)[2 * i] == LineOperators(rule, lines[i])[0]
    decreases |lines|
  {
    var last := |lines| - 1;
    OperatorsLength(rule, lines[..last]);
    if i < last { MovesAt(rule, lines[..last], i); }
    FirstOfTwoMore(Operators(rule, lines[..last]), LineOperators(rule, lines[last]), i, last);
  }

  lemma FirstOfTwoMore(front: seq<string>, two: seq<string>, i: nat, last: nat)
    requires |front| == 2 * last && |two| == 2 && i <= last
    ensures |front + two| == 2 * (last + 1)
    ensures (front + two)[2 * i] == if i < last then front[2 * i] else two[0]
  {}

  lemma EncodedStands(s: string, at: nat, piece: string)
    requires StandsAt(s, at, piece)
    ensures StandsAt(Latin1(s), at, Latin1(piece))
  {
    Latin1At(s);
    Latin1At(piece);
    forall k | 0 <= k < |piece| ensures Latin1(s)[at + k] == Latin1(piece)[k] {
      assert s[at..at + |piece|][k] == s[at + k];
    }
  }

  /** Where the text of page line `i` starts, behind its opening parenthesis. */
  function TextStart(prologue: seq<string>, rule: string, lines: seq<string>, i: nat, text: string): nat
    requires i < |lines|
  {
    OperatorsAt(rule, lines, i);
    LineStart(StreamLines(prologue, rule, lines), |prologue| + 2 * i + 1) + |HeadOf(text)|
  }

  /** A literal string read at `at` has this text and is followed by the show operator. */
  predicate ShowsAt(stream: string, at: nat, text: string) {
    at <= |stream| &&
    var shown := ReadLiteral(stream[at..], 0);
    shown.Some? && shown.value.0 == text && " Tj" <= shown.value.1
  }

  lemma TailStands(s: string, at: nat, head: string, body: string, tail: string)
    requires StandsAt(s, at, head + body + tail)
    ensures StandsAt(s, at + |head|, body + tail)
  {
    var whole := head + body + tail;
    assert s[at..at + |whole|][|head|..] == s[at + |head|..at + |whole|];
    assert whole[|head|..] == body + tail;
  }

  /** A show operator of the stream in its encoded form, from behind the opening parenthesis on. */
  lemma OperatorEncoded(s: string, at: nat, head: string, body: string)
    requires StandsAt(s, at, head + body + ") Tj")
    ensures StandsAt(Latin1(s), at + |head|, Latin1(body) + ") Tj")
  {
    hide StandsAt, Latin1;
    TailStands(s, at, head, body, ") Tj");
    EncodedStands(s, at + |head|, body + ") Tj");
    Latin1Concat(body, ") Tj");
    Latin1At(") Tj");
    assert Latin1(") Tj") == ") Tj";
  }

  /** What stands at `at` goes on with the rest of the stream. */
  lemma RestBehind(stream: string, at: nat, body: string) returns (rest: string)
    requires StandsAt(stream, at, body + ") Tj")
    ensures at + |body| < |stream| && stream[at..] == body + [')'] + (" Tj" + rest)
    ensures stream[at + |body| + 1..] == " Tj" + rest
  {
    var piece := body + ") Tj";
    rest := stream[at + |piece|..];
    assert stream[at..] == stream[at..at + |piece|] + rest;
    assert stream[at + |body| + 1..] == stream[at..][|body| + 1..];
  }

  lemma StandingTextReads(stream: string, at: nat, text: string)
    requires StandsAt(stream, at, Latin1(Escape(text)) + ") Tj")
    ensures ShowsAt(stream, at, NormaliseEol(Latin1(text)))
  {
    var rest := RestBehind(stream, at, Latin1(Escape(text)));
    EncodedReadsBack(text, " Tj" + rest);
  }

  /** The operator that shows page line `i` stands in the joined stream. */
  lemma ShowLineStands(prologue: seq<string>, rule: string, lines: seq<string>, i: nat)
    requires i < |lines|
    ensures var all, at := StreamLines(prologue, rule, lines), |prologue| + 2 * i + 1;
      at < |all| && StandsAt(JoinLines(all), LineStart(all, at), LineOperators(rule, lines[i])[1])
  {
    OperatorsAt(rule, lines, i);
    JoinedLineStands(StreamLines(prologue, rule, lines), |prologue| + 2 * i + 1);
  }

  lemma OperatorStands(s: string, at: nat, rule: string, ruleText: string, text: string)
    requires Plain(ruleText) && rule == "(" + ruleText + ") Tj"
    requires StandsAt(s, at, LineOperators(rule, Escape(text))[1])
    ensures StandsAt(Latin1(s), at + |HeadOf(text)|, Latin1(Escape(BodyOf(ruleText, text))) + ") Tj")
  {
    OperatorShowsBody(rule, ruleText, text);
    OperatorEncoded(s, at, HeadOf(text), Escape(BodyOf(ruleText, text)));
  }

  lemma BodyStands(prologue: seq<string>, rule: string, ruleText: string, lines: seq<string>, i: nat, text: string)
    requires i < |lines| && lines[i] == Escape(text) && Plain(ruleText) && rule == "(" + ruleText + ") Tj"
    ensures StandsAt(Latin1(JoinLines(StreamLines(prologue, rule, lines))), TextStart(prologue, rule, lines, i, text),
                     Latin1(Escape(BodyOf(ruleText, text))) + ") Tj")
  {
    hide StandsAt, Latin1, JoinLines, StreamLines, Escape, BodyOf, LineOperators, LineStart, HeadOf;
    var all := StreamLines(prologue, rule, lines);
    ShowLineStands(prologue, rule, lines, i);
    OperatorStands(JoinLines(all), LineStart(all, |prologue| + 2 * i + 1), rule, ruleText, text);
  }

  lemma PlainEncoding(s: string)
    requires forall c <- s :: c as int < 256 && c != '\r'
    ensures NormaliseEol(Latin1(s)) == s
  {
    LosslessIffPlainLatin1(s);
  }

  lemma RuleIsPlain()
    ensures Plain(RULE_TEXT) && RULE_TEXT != [] && RULE_TEXT[0] == '/' && NormaliseEol(Latin1(RULE_TEXT)) == RULE_TEXT
  {
    var head := "/F2 8 Tf ";
    assert forall c <- head :: c as int < 256 && c != '\r' && !Special(c);
    forall c <- RULE_TEXT ensures c in head || c == '-' {}
    PlainEncoding(RULE_TEXT);
  }

  /** In the compiled content stream every page line is shown with its `ShownText`. */
  lemma LineIsShown(banner: string, lines: seq<string>, i: nat, text: string)
    requires i < |lines| && lines[i] == Escape(text)
    ensures ShowsAt(ContentStream(banner, RULE, lines), TextStart(Prologue(banner), RULE, lines, i, text),
                    ShownText(RULE_TEXT, text))
  {
    RuleIsPlain();
    BodyStands(Prologue(banner), RULE, RULE_TEXT, lines, i, text);
    StandingTextReads(ContentStream(banner, RULE, lines), TextStart(Prologue(banner), RULE, lines, i, text),
                      BodyOf(RULE_TEXT, text));
    ShownIsBody(RULE_TEXT, text);
  }

  lemma ShownIsBody(ruleText: string, text: string)
    requires NormaliseEol(Latin1(ruleText)) == ruleText
    ensures ShownText(ruleText, text) == NormaliseEol(Latin1(BodyOf(ruleText, text)))
  {}

  // ---------- When a line is shown as the text it was added with ----------

  function Brackets(s: string): nat { if s == [] then 0 else (if s[0] == '[' then 1 else 0) + Brackets(s[1..]) }

  lemma {:induction false} BracketsConcat(a: string, b: string)
    ensures Brackets(a + b) == Brackets(a) + Brackets(b)
  {
    if a == [] {
      assert a + b == b;
    } else {
      assert (a + b)[1..] == a[1..] + b;
      BracketsConcat(a[1..], b);
    }
  }

  lemma {:induction false} BracketsShown(s: string)
    ensures Brackets(NormaliseEol(s)) == Brackets(s)
    decreases |s|
  {
    if s != [] {
      if s[0] == '\r' && |s| > 1 && s[1] == '\n' { assert s[2..] == s[1..][1..]; }
      BracketsShown(if s[0] == '\r' then AfterLineBreak(s) else s[1..]);
    }
  }

  lemma {:induction false} BracketsEncoded(s: string)
    ensures Brackets(Latin1(s)) == Brackets(s)
  {
    if s != [] { BracketsEncoded(s[1..]); }
  }

  lemma {:induction false} BracketsStripped(s: string)
    ensures Brackets(StripLeft(s)) <= Brackets(s) && Brackets(StripRight(s)) <= Brackets(s)
    decreases |s|
  {
    if s != [] {
      BracketsStripped(s[1..]);
      BracketsStripped(s[..|s| - 1]);
      assert s == s[..|s| - 1] + [s[|s| - 1]];
      BracketsConcat(s[..|s| - 1], [s[|s| - 1]]);
    }
  }

  lemma {:induction false} BracketsRemoved(s: string, w: string)
    requires w != []
    ensures Brackets(Remove(s, w)) <= Brackets(s)
    ensures w <= s ==> Brackets(Remove(s, w)) + Brackets(w) <= Brackets(s)
    decreases |s|
  {
    if w <= s {
      assert s == w + s[|w|..];
      BracketsConcat(w, s[|w|..]);
      BracketsRemoved(s[|w|..], w);
    } else if s != [] {
      BracketsRemoved(s[1..], w);
    }
  }

  /** A section line loses a bracket with its marker, so it never reads as it was added. */
  lemma SectionIsNotShown(text: string)
    requires SECTION <= text
    ensures Brackets(NormaliseEol(Latin1(Strip(Remove(text, SECTION))))) < Brackets(text)
  {
    var removed := Remove(text, SECTION);
    assert Brackets(SECTION) > 0;
    BracketsRemoved(text, SECTION);
    BracketsStripped(removed);
    BracketsStripped(StripLeft(removed));
    BracketsEncoded(Strip(removed));
    BracketsShown(Latin1(Strip(removed)));
  }

  /** A page line is shown as the text it was added with exactly when it is neither a rule nor a section and has
      neither a carriage return nor a character beyond Latin-1. */
  lemma ShownAsAddedIff(text: string)
    ensures ShownText(RULE_TEXT, text) == text <==>
      IsTextLine(text) && '\r' !in text && forall c <- text :: c as int < 256
  {
    RuleIsPlain();
    LosslessIffPlainLatin1(text);
    if !("---" <= text) && SECTION <= text { SectionIsNotShown(text); }
  }

  // ---------- The banner ----------

  /** Unescaped parentheses pair up, and no backslash is left over: `depth` further ones are open in front. */
  predicate Balanced(s: string, depth: nat) {
    if s == [] then depth == 0
    else if s[0] == ')' then depth > 0 && Balanced(s[1..], depth - 1)
    else if s[0] == '(' then Balanced(s[1..], depth + 1)
    else if s[0] != '\\' then Balanced(s[1..], depth)
    else |s| > 1 && Balanced(s[2..], depth)
  }

  /** Reading a literal string uses up at least its closing parenthesis. */
  lemma {:induction false} ReadingShortens(s: string, depth: nat)
    ensures ReadLiteral(s, depth).Some? ==> |ReadLiteral(s, depth).value.1| < |s|
    decreases |s|
  {
    if s == [] || (s[0] == ')' && depth == 0) {
    } else if s[0] == ')' {
      ReadingShortens(s[1..], depth - 1);
    } else if s[0] == '(' {
      ReadingShortens(s[1..], depth + 1);
    } else if s[0] == '\r' {
      ReadingShortens(AfterLineBreak(s), depth);
    } else if s[0] != '\\' {
      ReadingShortens(s[1..], depth);
    } else if |s| > 1 {
      EscapeShortens(s, depth);
    }
  }

  lemma {:induction false} EscapeShortens(s: string, depth: nat)
    requires |s| > 1 && s[0] == '\\'
    ensures ReadLiteral(s, depth).Some? ==> |ReadLiteral(s, depth).value.1| < |s|
    decreases |s|, 0
  {
    if s[1] == '\r' || s[1] == '\n' {
      ReadingShortens(AfterLineBreak(s[1..]), depth);
    } else if IsOctal(s[1]) {
      OctalWidth(s[1..], 0, 0);
      ReadingShortens(s[1 + OctalPrefix(s[1..], 0, 0).1..], depth);
    } else {
      ReadingShortens(s[2..], depth);
    }
  }

  // `b` is the front of a literal string, behind which its closing parenthesis and `rest` stand.

  predicate OctalRun(b: string, k: nat) {
    k == 0 || (b != [] && IsOctal(b[0]) && OctalRun(b[1..], k - 1))
  }

  lemma {:induction false} OctalInside(b: string, tail: string, value: nat, width: nat)
    requires width <= 3 && tail != [] && !IsOctal(tail[0])
    ensures var k := OctalPrefix(b + tail, value, width).1 - width; 0 <= k <= |b| && OctalRun(b, k)
    decreases 3 - width
  {
    if width < 3 && b != [] && IsOctal(b[0]) {
      assert (b + tail)[1..] == b[1..] + tail;
      OctalInside(b[1..], tail, 8 * value + (b[0] as int - '0' as int), width + 1);
    }
  }

  lemma {:induction false} SkipOctal(b: string, k: nat, depth: nat)
    requires OctalRun(b, k)
    ensures k <= |b| && Balanced(b[k..], depth) == Balanced(b, depth)
  {
    if k > 0 {
      SkipOctal(b[1..], k - 1, depth);
      assert b[1..][k - 1..] == b[k..];
    }
  }

  /** A literal string is read up to the parenthesis put behind it if and only if it is balanced. */
  lemma {:induction false} ClosesIff(b: string, rest: string, depth: nat)
    ensures var shown := ReadLiteral(b + [')'] + rest, depth);
      shown.Some? && shown.value.1 == rest <==> Balanced(b, depth)
    decreases |b|
  {
    var s := b + [')'] + rest;
    if b == [] {
      assert s[1..] == rest;
      if depth > 0 { ReadingShortens(rest, depth - 1); }
    } else {
      assert s[1..] == b[1..] + [')'] + rest;
      if b[0] == ')' {
        if depth > 0 { ClosesIff(b[1..], rest, depth - 1); }
      } else if b[0] == '(' {
        ClosesIff(b[1..], rest, depth + 1);
      } else if b[0] == '\r' {
        BreakClosesIff(b, rest, depth);
      } else if b[0] != '\\' {
        ClosesIff(b[1..], rest, depth);
      } else {
        EscapeClosesIff(b, rest, depth);
      }
    }
  }

  lemma {:induction false} BreakClosesIff(b: string, rest: string, depth: nat)
    requires b != [] && b[0] == '\r'
    ensures var shown := ReadLiteral(AfterLineBreak(b + [')'] + rest), depth);
      shown.Some? && shown.value.1 == rest <==> Balanced(b, depth)
    decreases |b|, 0
  {
    var s := b + [')'] + rest;
    if |b| > 1 && b[1] == '\n' {
      assert s[2..] == b[2..] + [')'] + rest && b[2..] == b[1..][1..];
      ClosesIff(b[2..], rest, depth);
    } else {
      assert s[1..] == b[1..] + [')'] + rest;
      ClosesIff(b[1..], rest, depth);
    }
  }

  lemma {:induction false} EscapeClosesIff(b: string, rest: string, depth: nat)
    requires b != [] && b[0] == '\\'
    ensures var shown := ReadLiteral(b + [')'] + rest, depth);
      shown.Some? && shown.value.1 == rest <==> Balanced(b, depth)
    decreases |b|, 0
  {
    var s := b + [')'] + rest;
    if |b| == 1 {
      assert s[2..] == rest;
      ReadingShortens(rest, depth);
    } else {
      assert s[1..] == b[1..] + [')'] + rest;
      assert s[2..] == b[2..] + [')'] + rest && b[2..] == b[1..][1..];
      if b[1] == '\r' {
        BreakClosesIff(b[1..], rest, depth);
      } else if IsOctal(b[1]) {
        var width := OctalPrefix(s[1..], 0, 0).1;
        assert s[1..] == b[1..] + ([')'] + rest);
        OctalInside(b[1..], [')'] + rest, 0, 0);
        SkipOctal(b[1..], width, depth);
        assert s[1 + width..] == b[1..][width..] + [')'] + rest;
        ClosesIff(b[1..][width..], rest, depth);
      } else {
        ClosesIff(b[2..], rest, depth);
      }
    }
  }

  lemma {:induction false} BalancedEncoded(s: string, depth: nat)
    ensures Balanced(Latin1(s), depth) == Balanced(s, depth)
    decreases |s|
  {
    if s != [] {
      Latin1At(s);
      if s[0] == ')' {
        if depth > 0 { BalancedEncoded(s[1..], depth - 1); }
      } else if s[0] == '(' {
        BalancedEncoded(s[1..], depth + 1);
      } else if s[0] != '\\' {
        BalancedEncoded(s[1..], depth);
      } else if |s| > 1 {
        assert Latin1(s)[2..] == Latin1(s[2..]) by { assert s[2..] == s[1..][1..]; }
        BalancedEncoded(s[2..], depth);
      }
    }
  }

  /** Where the banner's text starts in the stream, behind its opening parenthesis. */
  function BannerStart(banner: string, rule: string, lines: seq<string>): nat {
    LineStart(StreamLines(Prologue(banner), rule, lines), 6) + 1
  }

  /** The banner is inserted as it is: the literal string that shows it ends at its own parenthesis if and only if
      its unescaped parentheses pair up and it ends with no open escape. */
  lemma BannerClosesIff(banner: string, rule: string, lines: seq<string>)
    ensures var stream, at := ContentStream(banner, rule, lines), BannerStart(banner, rule, lines);
      at + |banner| < |stream| && (ClosesBehind(stream, at, |banner|) <==> Balanced(banner, 0))
  {
    BannerStands(StreamLines(Prologue(banner), rule, lines), banner);
    ClosesInStream(ContentStream(banner, rule, lines), BannerStart(banner, rule, lines), banner);
  }

  lemma BannerStands(all: seq<string>, banner: string)
    requires |all| > 6 && all[6] == "(" + banner + ") Tj"
    ensures StandsAt(Latin1(JoinLines(all)), LineStart(all, 6) + 1, Latin1(banner) + ") Tj")
  {
    JoinedLineStands(all, 6);
    OperatorEncoded(JoinLines(all), LineStart(all, 6), "(", banner);
  }

  /** Does the literal string that starts at `at` end `size` characters on? */
  predicate ClosesBehind(stream: string, at: nat, size: nat)
    requires at + size < |stream|
  {
    var shown := ReadLiteral(stream[at..], 0);
    shown.Some? && shown.value.1 == stream[at + size + 1..]
  }

  lemma ClosesInStream(stream: string, at: nat, text: string)
    requires StandsAt(stream, at, Latin1(text) + ") Tj")
    ensures at + |text| < |stream| && (ClosesBehind(stream, at, |text|) <==> Balanced(text, 0))
  {
    Latin1At(text);
    ClosesHere(stream, at, Latin1(text));
    BalancedEncoded(text, 0);
  }

  lemma ClosesHere(stream: string, at: nat, body: string)
    requires StandsAt(stream, at, body + ") Tj")
    ensures at + |body| < |stream| && (ClosesBehind(stream, at, |body|) <==> Balanced(body, 0))
  {
    var rest := RestBehind(stream, at, body);
    ClosesIff(body, " Tj" + rest, 0);
  }
}
