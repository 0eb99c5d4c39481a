/** The PDF writer of `certificate_engine.py`: escaped text lines, six numbered objects, a cross-reference table
    and a trailer.  A byte string is a `string` of characters below 256.

    What a reader relies on is proved about the emitted bytes: sections 7.3.4.2 (literal strings) and 7.5.4
    (cross-reference table) of ISO 32000-1. */
module PdfWriter {
  import opened Basics
  import opened PdfText
  import opened Words

  // ---------- Page lines ----------

  const Y_OFFSET := -14

  const RULE_TEXT := "/F2 8 Tf " + seq(99, _ => '-')

  const RULE := "(" + RULE_TEXT + ") Tj"

  /** The two stream operators of one page line; `rule` is the one that draws a rule. */
  function LineOperators(rule: string, line: string): seq<string> {
    if "---" <= line then ["0 " + Decimal(Y_OFFSET) + " Td", rule]
    else if "[SECTION]" <= line then
      ["0 " + Decimal(Y_OFFSET - 4) + " Td", "/F1 10 Tf (" + Strip(Remove(line, "[SECTION]")) + ") Tj"]
    else ["0 " + Decimal(Y_OFFSET) + " Td", "/F2 9 Tf (" + line + ") Tj"]
  }

  function Operators(rule: string, lines: seq<string>): seq<string> {
    if lines == [] then [] else Operators(rule, lines[..|lines| - 1]) + LineOperators(rule, lines[|lines| - 1])
  }

  function Prologue(banner: string): seq<string> {
    ["BT", "/F1 16 Tf", "50 780 Td", "(DREX-V2 FORENSIC SANITIZATION CERTIFICATE) Tj",
     "/F2 9 Tf", "0 -15 Td", "(" + banner + ") Tj", "0 -25 Td", "/F1 10 Tf"]
  }

  /** The stream's lines when the page lines stand behind `prologue`. */
  function StreamLines(prologue: seq<string>, rule: string, lines: seq<string>): seq<string> {
    prologue + Operators(rule, lines) + ["ET"]
  }

  function JoinLines(lines: seq<string>): string {
    if lines == [] then [] else if |lines| == 1 then lines[0] else lines[0] + "\n" + JoinLines(lines[1..])
  }

  function ContentStream(banner: string, rule: string, lines: seq<string>): string {
    Latin1(JoinLines(StreamLines(Prologue(banner), rule, lines)))
  }

  // ---------- Objects and file ----------

  const HEADER := "%PDF-1.4\n%" + ['\U{E2}', '\U{E3}', '\U{CF}', '\U{D3}'] + "\n"

  function StreamBody(content: string): string {
    "<< /Length " + Decimal(|content|) + " >>\nstream\n" + content + "\nendstream"
  }

  function Bodies(content: string): seq<string> {
    ["<< /Type /Catalog /Pages 2 0 R >>",
     "<< /Type /Pages /Kids [3 0 R] /Count 1 >>",
     "<< /Type /Page /Parent 2 0 R /MediaBox [0 0 595 842] "
     + "/Contents 4 0 R /Resources << /Font << /F1 5 0 R /F2 6 0 R >> >> >>",
     StreamBody(content),
     "<< /Type /Font /Subtype /Type1 /BaseFont /Helvetica-Bold >>",
     "<< /Type /Font /Subtype /Type1 /BaseFont /Helvetica >>"]
  }

  function ObjectHead(number: nat): string { Decimal(number) + " 0 obj\n" }

  function ObjectText(number: nat, body: string): string { ObjectHead(number) + body + "\nendobj\n" }

  /** The objects, numbered from 1. */
  function Objects(content: string): seq<string> {
    var bodies := Bodies(content);
    seq(|bodies|, i requires 0 <= i < |bodies| => ObjectText(i + 1, bodies[i]))
  }

  function Concat(objects: seq<string>): string {
    if objects == [] then [] else Concat(objects[..|objects| - 1]) + objects[|objects| - 1]
  }

  /** Where each object begins when the first one begins at `at`. */
  function Offsets(objects: seq<string>, at: nat): seq<nat> {
    if objects == [] then [] else
      var front := objects[..|objects| - 1];
      Offsets(front, at) + [at + |Concat(front)|]
  }

  function Entry(offset: nat): string { PadZeros(Digits(offset, 10), 10) + " 00000 n \n" }

  function Entries(offsets: seq<nat>): string {
    if offsets == [] then [] else Entries(offsets[..|offsets| - 1]) + Entry(offsets[|offsets| - 1])
  }

  const FREE_ENTRY := "0000000000 65535 f \n"

  function XrefHead(count: nat): string { "xref\n0 " + Decimal(count + 1) + "\n" }

  function Xref(offsets: seq<nat>): string { XrefHead(|offsets|) + FREE_ENTRY + Entries(offsets) }

  function TrailerHead(count: nat): string { "trailer\n<< /Size " + Decimal(count + 1) + " /Root 1 0 R >>\n" }

  function Trailer(count: nat, xrefStart: nat): string {
    TrailerHead(count) + "startxref\n" + (Decimal(xrefStart) + "\n%%EOF\n")
  }

  function Assemble(header: string, objects: seq<string>): string {
    var front := header + Concat(objects);
    front + Xref(Offsets(objects, |header|)) + Trailer(|objects|, |front|)
  }

  /** Put between parentheses, `line` is a literal string of this text and ends at its own parenthesis. */
  ghost predicate ShowsAs(line: string, text: string) {
    forall rest :: ReadLiteral(line + [')'] + rest, 0) == Some((text, rest))
  }

  lemma ShowsItsText(text: string)
    ensures ShowsAs(Escape(text), NormaliseEol(text))
  {
    forall rest ensures ReadLiteral(Escape(text) + [')'] + rest, 0) == Some((NormaliseEol(text), rest)) {
      EscapeReadsBack(text, rest);
    }
  }

  class PdfWriter {
    const standardBanner: string
    var pageContents: seq<string>

    constructor (standardBanner: string)
      ensures this.standardBanner == standardBanner && pageContents == []
    {
      this.standardBanner := standardBanner;
      pageContents := [];
    }

    method AddLine(text: string)
      modifies this
      ensures pageContents == old(pageContents) + [Escape(text)]
      ensures ShowsAs(pageContents[|old(pageContents)|], NormaliseEol(text))
    {
      pageContents := pageContents + [Escape(text)];
      ShowsItsText(text);
    }

    method CompilePdf() returns (out: string)
      ensures out == Assemble(HEADER, Objects(ContentStream(standardBanner, RULE, pageContents)))
    {
      var content := BuildStream(standardBanner, RULE, pageContents);
      out := Emit(HEADER, Objects(content));
    }
  }

  method BuildStream(banner: string, rule: string, lines: seq<string>) returns (content: string)
    ensures content == ContentStream(banner, rule, lines)
  {
    var streamLines := Prologue(banner);
    for i := 0 to |lines|
      invariant streamLines == Prologue(banner) + Operators(rule, lines[..i])
    {
      assert lines[..i + 1][..i] == lines[..i] && lines[..i + 1][i] == lines[i];
      streamLines := streamLines + LineOperators(rule, lines[i]);
    }
    assert lines[..|lines|] == lines;
    content := Latin1(JoinLines(streamLines + ["ET"]));
  }

  /** Writes the objects one behind the other, recording where each starts. */
  method EmitObjects(header: string, objects: seq<string>) returns (out: string, offsets: seq<nat>)
    ensures out == header + Concat(objects) && offsets == Offsets(objects, |header|)
  {
    out, offsets := header, [];
    for i := 0 to |objects|
      invariant out == header + Concat(objects[..i]) && offsets == Offsets(objects[..i], |header|)
    {
      assert objects[..i + 1][..i] == objects[..i] && objects[..i + 1][i] == objects[i];
      offsets := offsets + [|out|];
      out := out + objects[i];
    }
    assert objects[..|objects|] == objects;
  }

  method EmitXref(out: string, offsets: seq<nat>) returns (r: string)
    ensures r == out + Xref(offsets)
  {
    var head := XrefHead(|offsets|) + FREE_ENTRY;
    r := out + head;
    for i := 0 to |offsets|
      invariant r == out + (head + Entries(offsets[..i]))
    {
      assert offsets[..i + 1][..i] == offsets[..i] && offsets[..i + 1][i] == offsets[i];
      r := r + Entry(offsets[i]);
    }
    assert offsets[..|offsets|] == offsets;
  }

  method Emit(header: string, objects: seq<string>) returns (out: string)
    ensures out == Assemble(header, objects)
  {
    var front, offsets := EmitObjects(header, objects);
    out := EmitXref(front, offsets);
    OffsetsLength(objects, |header|);
    out := out + Trailer(|offsets|, |front|);
  }

  /** `text` is object `number`, given by its digit, with this body. */
  predicate IsObject(text: string, number: string, body: string) {
    text == number + " 0 obj\n" + body + "\nendobj\n"
  }

  /** The six objects as they are written: the trailer leads to the catalog, that to the page tree, that to the page,
      and the page to the content stream and to both fonts. */
  lemma DocumentTree(content: string)
    ensures |Objects(content)| == 6
    ensures IsObject(Objects(content)[0], "1", "<< /Type /Catalog /Pages 2 0 R >>")
    ensures IsObject(Objects(content)[1], "2", "<< /Type /Pages /Kids [3 0 R] /Count 1 >>")
    ensures IsObject(Objects(content)[2], "3", "<< /Type /Page /Parent 2 0 R /MediaBox [0 0 595 842] "
                     + "/Contents 4 0 R /Resources << /Font << /F1 5 0 R /F2 6 0 R >> >> >>")
    ensures IsObject(Objects(content)[4], "5", "<< /Type /Font /Subtype /Type1 /BaseFont /Helvetica-Bold >>")
    ensures IsObject(Objects(content)[5], "6", "<< /Type /Font /Subtype /Type1 /BaseFont /Helvetica >>")
    ensures TrailerHead(6) == "trailer\n<< /Size " + "7" + " /Root 1 0 R >>\n"
    ensures XrefHead(6) == "xref\n0 " + "7" + "\n"
  {
    OneDigit(1);
    OneDigit(2);
    OneDigit(3);
    OneDigit(5);
    OneDigit(6);
    OneDigit(7);
    ObjectsAre(content);
  }

  lemma OneDigit(n: nat)
    requires n < 10
    ensures Decimal(n) == [DigitChar(n)]
  {}

  lemma ObjectsAre(content: string)
    ensures |Objects(content)| == |Bodies(content)|
    ensures forall i :: 0 <= i < |Bodies(content)| ==> Objects(content)[i] == ObjectText(i + 1, Bodies(content)[i])
  {
    hide Bodies, ObjectText;
  }

  // ---------- The cross-reference table points at the objects ----------

  lemma StandsInFront(s: string, t: string, at: nat, piece: string)
    requires StandsAt(s, at, piece)
    ensures StandsAt(s + t, at, piece)
  {}

  lemma StandsBehind(s: string, t: string, at: nat, piece: string)
    requires StandsAt(t, at, piece)
    ensures StandsAt(s + t, |s| + at, piece)
  {
    assert (s + t)[|s| + at..|s| + at + |piece|] == t[at..at + |piece|];
  }

  lemma {:induction false} ObjectsStandAtOffsets(objects: seq<string>, at: nat, i: nat)
    requires i < |objects|
    ensures |Offsets(objects, at)| == |objects|
    ensures at <= Offsets(objects, at)[i]
    ensures StandsAt(Concat(objects), Offsets(objects, at)[i] - at, objects[i])
    decreases |objects|
  {
    var last := |objects| - 1;
    var front, text := objects[..last], objects[last];
    OffsetsLength(front, at);
    if i < last {
      ObjectsStandAtOffsets(front, at, i);
      StandsInFront(Concat(front), text, Offsets(front, at)[i] - at, objects[i]);
    } else {
      assert StandsAt(text, 0, text);
      StandsBehind(Concat(front), text, 0, text);
    }
  }

  lemma {:induction false} OffsetsLength(objects: seq<string>, at: nat)
    ensures |Offsets(objects, at)| == |objects|
  {
    if objects != [] { OffsetsLength(objects[..|objects| - 1], at); }
  }

  function Pow10(k: nat): nat { if k == 0 then 1 else 10 * Pow10(k - 1) }

  lemma {:induction false} DigitsLength(n: nat, k: nat)
    requires k > 0
    ensures |Digits(n, 10)| <= k <==> n < Pow10(k)
    decreases k
  {
    if k == 1 {
      assert Pow10(1) == 10;
      if n >= 10 { assert |Digits(n / 10, 10)| > 0; }
    } else if n >= 10 {
      DigitsLength(n / 10, k - 1);
      TenTimes(n, Pow10(k - 1));
    } else {
      PowPositive(k - 1);
    }
  }

  lemma TenTimes(n: nat, p: nat)
    ensures n / 10 < p <==> n < 10 * p
  {}

  lemma PowPositive(k: nat)
    ensures Pow10(k) >= 1
  {}

  const TEN_DIGITS := 10_000_000_000

  /** An entry takes the required 20 bytes exactly while the offset fits its ten digits, and its first ten
      bytes then read back as the offset. */
  lemma EntryIsTwentyBytes(offset: nat)
    ensures |Entry(offset)| == 20 <==> offset < TEN_DIGITS
    ensures offset < TEN_DIGITS ==> ReadDigits(Entry(offset)[..10], 10, 0, false) == Some(offset)
    ensures offset < TEN_DIGITS ==> Entry(offset)[10..] == " 00000 n \n"
  {
    assert Pow10(10) == TEN_DIGITS;
    DigitsLength(offset, 10);
    ReadsPrintedDigits(offset, 10);
    PaddingKeepsValue(Digits(offset, 10), 10, 10);
    assert |" 00000 n \n"| == 10;
    if offset < TEN_DIGITS {
      assert Entry(offset)[..10] == PadZeros(Digits(offset, 10), 10);
    }
  }

  lemma {:induction false} EntriesStandInOrder(offsets: seq<nat>, i: nat)
    requires i < |offsets| && forall k :: 0 <= k < |offsets| ==> offsets[k] < TEN_DIGITS
    ensures |Entries(offsets)| == 20 * |offsets|
    ensures StandsAt(Entries(offsets), 20 * i, Entry(offsets[i]))
    decreases |offsets|
  {
    var last := |offsets| - 1;
    var front, entry := offsets[..last], Entry(offsets[last]);
    EntryIsTwentyBytes(offsets[last]);
    if last > 0 {
      EntriesStandInOrder(front, if i < last then i else 0);
    }
    if i < last {
      StandsInFront(Entries(front), entry, 20 * i, Entry(offsets[i]));
    } else {
      assert StandsAt(entry, 0, entry);
      StandsBehind(Entries(front), entry, 0, entry);
    }
  }

  lemma PiecesStand(front: string, xref: string, trailer: string, at: nat, piece: string)
    ensures StandsAt(front, at, piece) ==> StandsAt(front + xref + trailer, at, piece)
    ensures StandsAt(xref, at, piece) ==> StandsAt(front + xref + trailer, |front| + at, piece)
  {
    if StandsAt(front, at, piece) {
      StandsInFront(front, xref, at, piece);
      StandsInFront(front + xref, trailer, at, piece);
    }
    if StandsAt(xref, at, piece) {
      StandsBehind(front, xref, at, piece);
      StandsInFront(front + xref, trailer, |front| + at, piece);
    }
  }

  /** Where the table starts, and where its entry for object `i + 1` starts. */
  function XrefStart(header: string, objects: seq<string>): nat { |header + Concat(objects)| }

  function EntryStart(header: string, objects: seq<string>, i: nat): nat {
    XrefStart(header, objects) + |XrefHead(|objects|) + FREE_ENTRY| + 20 * i
  }

  ghost predicate TenDigitOffsets(objects: seq<string>, at: nat) {
    forall k :: 0 <= k < |Offsets(objects, at)| ==> Offsets(objects, at)[k] < TEN_DIGITS
  }

  lemma ObjectBehindHeader(header: string, objects: seq<string>, i: nat, xref: string, trailer: string)
    requires i < |objects|
    ensures |Offsets(objects, |header|)| == |objects|
    ensures StandsAt(header + Concat(objects) + xref + trailer, Offsets(objects, |header|)[i], objects[i])
  {
    ObjectsStandAtOffsets(objects, |header|, i);
    var offset := Offsets(objects, |header|)[i];
    StandsBehind(header, Concat(objects), offset - |header|, objects[i]);
    PiecesStand(header + Concat(objects), xref, trailer, offset, objects[i]);
  }

  lemma EntryBehindHead(front: string, head: string, entries: string, trailer: string, at: nat, entry: string)
    requires StandsAt(entries, at, entry)
    ensures StandsAt(front + (head + entries) + trailer, |front| + |head| + at, entry)
  {
    StandsBehind(head, entries, at, entry);
    PiecesStand(front, head + entries, trailer, |head| + at, entry);
  }

  lemma EntryReadsBack(front: string, head: string, offsets: seq<nat>, trailer: string, i: nat)
    requires i < |offsets| && forall k :: 0 <= k < |offsets| ==> offsets[k] < TEN_DIGITS
    ensures var file, start := front + (head + Entries(offsets)) + trailer, |front| + |head| + 20 * i;
      start + 10 <= |file| && ReadDigits(file[start..start + 10], 10, 0, false) == Some(offsets[i])
  {
    hide Entries, Entry, ReadDigits;
    EntriesStandInOrder(offsets, i);
    EntryIsTwentyBytes(offsets[i]);
    EntryBehindHead(front, head, Entries(offsets), trailer, 20 * i, Entry(offsets[i]));
    FirstTen(front + (head + Entries(offsets)) + trailer, |front| + |head| + 20 * i, Entry(offsets[i]));
  }

  /** Every object stands in the file where its offset says. */
  lemma ObjectStands(header: string, objects: seq<string>, i: nat)
    requires i < |objects|
    ensures i < |Offsets(objects, |header|)|
    ensures StandsAt(Assemble(header, objects), Offsets(objects, |header|)[i], objects[i])
  {
    ObjectBehindHeader(header, objects, i, Xref(Offsets(objects, |header|)),
                       Trailer(|objects|, XrefStart(header, objects)));
  }

  /** A reader's way to an object: the ten digits of the table's entry for object `i + 1` read back as an offset,
      and that object stands there. */
  lemma ReaderFindsObject(header: string, objects: seq<string>, i: nat)
    requires i < |objects| && TenDigitOffsets(objects, |header|)
    ensures i < |Offsets(objects, |header|)| && EntryStart(header, objects, i) + 10 <= |Assemble(header, objects)|
    ensures ReadDigits(Assemble(header, objects)[EntryStart(header, objects, i)..EntryStart(header, objects, i) + 10],
                       10, 0, false)
         == Some(Offsets(objects, |header|)[i])
    ensures StandsAt(Assemble(header, objects), Offsets(objects, |header|)[i], objects[i])
  {
    hide ReadDigits, StandsAt, Offsets, Entries, Concat, Decimal, TrailerHead;
    ObjectStands(header, objects, i);
    OffsetsLength(objects, |header|);
    EntryReadsBack(header + Concat(objects), XrefHead(|objects|) + FREE_ENTRY, Offsets(objects, |header|),
                   Trailer(|objects|, XrefStart(header, objects)), i);
  }

  lemma FirstTen(s: string, at: nat, piece: string)
    requires StandsAt(s, at, piece) && |piece| >= 10
    ensures s[at..at + 10] == piece[..10]
  {
    assert s[at..at + |piece|][..10] == s[at..at + 10];
  }

  /** A reader's way to the table: the number behind the final `startxref` is where the table's head stands,
      and the head announces one entry more than there are objects. */
  lemma ReaderFindsTable(header: string, objects: seq<string>)
    ensures StandsAt(Assemble(header, objects), XrefStart(header, objects), XrefHead(|objects|))
    ensures StandsAt(Assemble(header, objects), XrefStart(header, objects) + |XrefHead(|objects|)|,
                     "0000000000 65535 f \n")
    ensures var pdf := Assemble(header, objects);
      var tail := "startxref\n" + (Decimal(XrefStart(header, objects)) + "\n%%EOF\n");
      |tail| <= |pdf| && pdf[|pdf| - |tail|..] == tail
    ensures ReadInt(Decimal(XrefStart(header, objects))) == Some(XrefStart(header, objects))
  {
    var front, offsets := header + Concat(objects), Offsets(objects, |header|);
    OffsetsLength(objects, |header|);
    DecimalReadsBack(|front|);
    TableStands(front, XrefHead(|objects|), FREE_ENTRY, Entries(offsets), Trailer(|objects|, |front|));
    TrailerEnds(front + Xref(offsets), |objects|, Decimal(|front|) + "\n%%EOF\n");
  }

  lemma TableStands(front: string, head: string, free: string, entries: string, trailer: string)
    ensures StandsAt(front + (head + free + entries) + trailer, |front|, head)
    ensures StandsAt(front + (head + free + entries) + trailer, |front| + |head|, free)
  {
    assert StandsAt(free, 0, free);
    StandsBehind(head, free, 0, free);
    StandsInFront(head + free, entries, |head|, free);
    PiecesStand(front, head + free + entries, trailer, |head|, free);
    assert StandsAt(head, 0, head);
    StandsInFront(head, free, 0, head);
    StandsInFront(head + free, entries, 0, head);
    PiecesStand(front, head + free + entries, trailer, 0, head);
  }

  lemma TrailerEnds(s: string, count: nat, number: string)
    ensures var tail := "startxref\n" + number;
      var all := s + (TrailerHead(count) + "startxref\n" + number);
      |tail| <= |all| && all[|all| - |tail|..] == tail
  {
    EndsWith(s, TrailerHead(count), "startxref\n", number);
  }

  lemma EndsWith(a: string, b: string, c: string, d: string)
    ensures (a + (b + c + d))[|a + (b + c + d)| - |c + d|..] == c + d
  {}

  // ---------- The stream length ----------

  /** Where the number behind `/Length` starts when the object that holds the stream starts at `at`, and where
      the stream's own bytes start. */
  function LengthStart(at: nat): nat { at + |ObjectHead(4) + "<< /Length "| }

  function StreamStart(at: nat, size: nat): nat { LengthStart(at) + |Decimal(size) + " >>\nstream\n"| }

  /** The compiled file's fourth object holds the stream. */
  lemma FourthObjectIsTheStream(content: string)
    ensures |Objects(content)| == 6 && Objects(content)[3] == ObjectText(4, StreamBody(content))
  {}

  /** In the compiled file the number behind `/Length` is exactly how many bytes stand between the `stream` and
      the `endstream` lines. */
  lemma LengthIsStreamSize(header: string, content: string)
    ensures ReadInt(Decimal(|content|)) == Some(|content|) && |Offsets(Objects(content), |header|)| > 3
    ensures var pdf, at := Assemble(header, Objects(content)), Offsets(Objects(content), |header|)[3];
      && StandsAt(pdf, LengthStart(at), Decimal(|content|) + " >>\nstream\n")
      && StandsAt(pdf, StreamStart(at, |content|), content)
      && StandsAt(pdf, StreamStart(at, |content|) + |content|, "\nendstream")
  {
    FourthObjectIsTheStream(content);
    StreamObject(header, Objects(content), content);
  }

  lemma StreamObject(header: string, objects: seq<string>, content: string)
    requires |objects| > 3 && objects[3] == ObjectText(4, StreamBody(content))
    ensures ReadInt(Decimal(|content|)) == Some(|content|) && |Offsets(objects, |header|)| > 3
    ensures var pdf, at := Assemble(header, objects), Offsets(objects, |header|)[3];
      && StandsAt(pdf, LengthStart(at), Decimal(|content|) + " >>\nstream\n")
      && StandsAt(pdf, StreamStart(at, |content|), content)
      && StandsAt(pdf, StreamStart(at, |content|) + |content|, "\nendstream")
  {
    hide *;
    DecimalReadsBack(|content|);
    ObjectStands(header, objects, 3);
    StreamParts(Assemble(header, objects), Offsets(objects, |header|)[3], content);
  }

  lemma StreamParts(pdf: string, at: nat, content: string)
    requires StandsAt(pdf, at, ObjectText(4, StreamBody(content)))
    ensures StandsAt(pdf, LengthStart(at), Decimal(|content|) + " >>\nstream\n")
    ensures StandsAt(pdf, StreamStart(at, |content|), content)
    ensures StandsAt(pdf, StreamStart(at, |content|) + |content|, "\nendstream")
  {
    StreamPartsStand(pdf, at, ObjectHead(4), "<< /Length ", Decimal(|content|), " >>\nstream\n", content, "\nendstream",
                     "\nendobj\n");
  }

  lemma StreamPartsStand(s: string, at: nat, a: string, b: string, c: string, d: string, e: string, f: string,
                         g: string)
    requires StandsAt(s, at, a + (b + c + d + e + f) + g)
    ensures StandsAt(s, at + |a + b|, c + d)
    ensures StandsAt(s, at + |a + b| + |c + d|, e)
    ensures StandsAt(s, at + |a + b| + |c + d| + |e|, f)
  {
    hide StandsAt;
    assert a + (b + c + d + e + f) + g == (a + b) + ((c + d) + (e + (f + g)));
    PartsStand(s, at, a + b, (c + d) + (e + (f + g)));
    PartsStand(s, at + |a + b|, c + d, e + (f + g));
    PartsStand(s, at + |a + b| + |c + d|, e, f + g);
    PartsStand(s, at + |a + b| + |c + d| + |e|, f, g);
  }
}
