/** The mapfile text format: `to_mapfile_text`, `parse_mapfile` and `MapBlockStatus.from_token`. */
module MapfileText {
  import opened Basics
  import opened Words
  import opened MapfileMerge

  // ---------- Printing ----------

  function StatusToken(s: Status): string {
    match s
    case NonTried => "?"
    case NonTrimmed => "*"
    case NonScraped => "/"
    case BadSector => "-"
    case Finished => "+"
  }

  function BlockLine(b: Block): string {
    Hex(b.pos) + Spaces(2) + (Hex(b.size) + Spaces(2) + StatusToken(b.status))
  }

  function BlockLines(bs: seq<Block>): seq<string> {
    if bs == [] then [] else [BlockLine(bs[0])] + BlockLines(bs[1..])
  }

  function PositionLine(m: Mapfile): string {
    Hex(m.currentPos) + Spaces(5) + StatusToken(m.currentStatus)
  }

  function PassLine(m: Mapfile): string {
    Decimal(m.currentPass) + Spaces(15) + StatusToken(m.currentStatus)
  }

  const BANNER := "# Mapfile generated " + "/ maintained by DREX-V2 " + "Damaged Media Engine"
  const STATUS_COMMENT := "# Current_status ?"
  const POSITION_COMMENT := "# pos_current   status"
  const PASS_COMMENT := "# current_pass   current_status"
  const BLOCKS_COMMENT := "#  pos        size        status"

  function WithComments(position: string, pass: string, blocks: seq<string>): seq<string> {
    [BANNER] + ([STATUS_COMMENT] + ([POSITION_COMMENT] + ([position] + ([PASS_COMMENT]
    + ([pass] + ([BLOCKS_COMMENT] + blocks))))))
  }

  function PrintedLines(m: Mapfile): seq<string> {
    WithComments(PositionLine(m), PassLine(m), BlockLines(m.blocks))
  }

  function Print(m: Mapfile): string { Unlines(PrintedLines(m)) }

  // ---------- Parsing; None stands for a ValueError ----------

  function ReadStatus(token: string): Option<Status> {
    var t := Strip(token);
    if t in ["?", "0x00", "0", "00"] then Some(NonTried)
    else if t in ["+", "0x01", "1", "01"] then Some(Finished)
    else if t in ["-", "0x02", "2"] then Some(BadSector)
    else if t in ["*", "0x03", "3"] then Some(NonTrimmed)
    else if t in ["/", "0x04", "4"] then Some(NonScraped)
    else None
  }

  predicate IsDataLine(l: string) { l != [] && l[0] != '#' }

  function DataLines(lines: seq<string>): seq<string> {
    if lines == [] then [] else
      var l := Strip(lines[0]);
      (if IsDataLine(l) then [l] else []) + DataLines(lines[1..])
  }

  /** What one line behind the header contributes; lines of fewer than three words contribute nothing. */
  function ReadBlockLine(line: string): Option<seq<Block>> {
    var parts := Split(line);
    if |parts| < 3 then Some([]) else
      match (ReadInt(parts[0]), ReadInt(parts[1]), ReadStatus(parts[2]))
      case (Some(pos), Some(size), Some(status)) => Some([Block(pos, size, status)])
      case _ => None
  }

  function Append(bs: seq<Block>, rest: Option<seq<Block>>): Option<seq<Block>> {
    match rest case Some(cs) => Some(bs + cs) case None => None
  }

  function ReadBlocks(lines: seq<string>): Option<seq<Block>> {
    if lines == [] then Some([]) else
      match ReadBlockLine(lines[0])
      case Some(bs) => Append(bs, ReadBlocks(lines[1..]))
      case None => None
  }

  predicate IsDigits(s: string) { s != [] && forall c <- s :: '0' <= c <= '9' }

  predicate IsPassLine(parts: seq<string>) {
    |parts| == 2 && (IsDigits(parts[0]) || "0x" <= parts[0])
  }

  /** Position, status and pass from the header lines, and the number of lines they take. */
  datatype Header = Header(pos: int, status: Status, pass: int, lineCount: nat)

  function ReadHeader(data: seq<string>): (r: Option<Header>)
    requires data != []
    ensures r.Some? ==> r.value.lineCount <= |data|
  {
    var parts0 := Split(data[0]);
    if |parts0| != 2 then Some(Header(0, NonTried, 1, 0)) else
      match (ReadInt(parts0[0]), ReadStatus(parts0[1]))
      case (Some(pos), Some(status)) =>
        if |data| > 1 && IsPassLine(Split(data[1])) then
          (match (ReadInt(Split(data[1])[0]), ReadStatus(Split(data[1])[1]))
           case (Some(pass), Some(status1)) => Some(Header(pos, status1, pass, 2))
           case _ => None)
        else Some(Header(pos, status, 1, 1))
      case _ => None
  }

  function WithBlocks(h: Header, blocks: Option<seq<Block>>): Option<Mapfile> {
    match blocks case Some(bs) => Some(Mapfile(h.pos, h.status, h.pass, bs)) case None => None
  }

  function Parse(text: string): Option<Mapfile> {
    var data := DataLines(Lines(text, []));
    if data == [] then None else
      match ReadHeader(data)
      case Some(h) => WithBlocks(h, ReadBlocks(data[h.lineCount..]))
      case None => None
  }

  /** The parser's loop over the lines behind the header. */
  method ParseBlockLines(lines: seq<string>) returns (r: Option<seq<Block>>)
    ensures r == ReadBlocks(lines)
  {
    var blocks: seq<Block> := [];
    assert lines[0..] == lines;
    AppendNothing(ReadBlocks(lines));
    for i := 0 to |lines|
      invariant ReadBlocks(lines) == Append(blocks, ReadBlocks(lines[i..]))
    {
      assert lines[i..][0] == lines[i] && lines[i..][1..] == lines[i + 1..];
      var line := ReadBlockLine(lines[i]);
      if line == None {
        return None;
      }
      AppendAppend(blocks, line.value, ReadBlocks(lines[i + 1..]));
      blocks := blocks + line.value;
    }
    assert blocks + [] == blocks;
    return Some(blocks);
  }

  method ParseMapfile(text: string) returns (r: Option<Mapfile>)
    ensures r == Parse(text)
  {
    var data := DataLines(Lines(text, []));
    if data == [] {
      return None;
    }
    var header := ReadHeader(data);
    if header == None {
      return None;
    }
    var blocks := ParseBlockLines(data[header.value.lineCount..]);
    r := WithBlocks(header.value, blocks);
  }

  lemma AppendAppend(bs: seq<Block>, cs: seq<Block>, rest: Option<seq<Block>>)
    ensures Append(bs, Append(cs, rest)) == Append(bs + cs, rest)
  {
    if rest.Some? {
      assert bs + (cs + rest.value) == bs + cs + rest.value;
    }
  }

  // ---------- What is read ----------

  predicate LooksLikeNumber(w: string) {
    (w != [] && forall i :: 0 <= i < |w| ==> '0' <= w[i] <= '9') || (|w| >= 2 && w[0] == '0' && w[1] == 'x')
  }

  /** Which header is read for every text: without two words on the first line the defaults, otherwise its position and
      status; and if the second line has two words as well, the first of them looking like a number, that line gives
      the pass and overrides the status. */
  lemma HeaderMeans(data: seq<string>)
    requires data != []
    ensures var first, second := Split(data[0]), if |data| > 1 then Split(data[1]) else [];
      var two := |first| == 2 && |second| == 2 && LooksLikeNumber(second[0]);
      var h := ReadHeader(data);
      && (|first| != 2 ==> h == Some(Header(0, NonTried, 1, 0)))
      && (|first| == 2 && !two ==>
            (h.Some? <==> ReadInt(first[0]).Some? && ReadStatus(first[1]).Some?)
            && (h.Some? ==> h.value.lineCount == 1 && h.value.pass == 1
                            && Some(h.value.pos) == ReadInt(first[0]) && Some(h.value.status) == ReadStatus(first[1])))
      && (two ==>
            (h.Some? <==> ReadInt(first[0]).Some? && ReadStatus(first[1]).Some?
                          && ReadInt(second[0]).Some? && ReadStatus(second[1]).Some?)
            && (h.Some? ==> h.value.lineCount == 2 && Some(h.value.pos) == ReadInt(first[0])
                            && Some(h.value.pass) == ReadInt(second[0])
                            && Some(h.value.status) == ReadStatus(second[1])))
  {
    hide Split, ReadInt, ReadStatus;
    if |data| > 1 && |Split(data[1])| == 2 {
      LooksMean(Split(data[1])[0]);
    }
    hide IsDigits, LooksLikeNumber;
  }

  lemma LooksMean(w: string)
    ensures LooksLikeNumber(w) <==> IsDigits(w) || "0x" <= w
  {
    assert "0x" <= w <==> |w| >= 2 && w[0] == '0' && w[1] == 'x';
    if IsDigits(w) {
      forall i | 0 <= i < |w| ensures '0' <= w[i] <= '9' {
        assert w[i] in w;
      }
    }
  }

  /** Which block a line gives: none with fewer than three words, otherwise the one its first three words spell. */
  lemma LineMeans(line: string)
    ensures var parts, r := Split(line), ReadBlockLine(line);
      && (|parts| < 3 ==> r == Some([]))
      && (|parts| >= 3 ==>
            (r.Some? <==> ReadInt(parts[0]).Some? && ReadInt(parts[1]).Some? && ReadStatus(parts[2]).Some?)
            && (r.Some? ==> |r.value| == 1 && Some(r.value[0].pos) == ReadInt(parts[0])
                            && Some(r.value[0].size) == ReadInt(parts[1])
                            && Some(r.value[0].status) == ReadStatus(parts[2])))
  {
    hide Split, ReadInt, ReadStatus;
  }

  // ---------- The round trip ----------

  lemma StatusReadsBack(s: Status)
    ensures IsWord(StatusToken(s)) && ReadStatus(StatusToken(s)) == Some(s)
  {
    StripNothing(StatusToken(s));
  }

  /** The letters of the statuses. */
  lemma TokensMean()
    ensures StatusToken(NonTried) == "?" && StatusToken(NonTrimmed) == "*" && StatusToken(NonScraped) == "/"
    ensures StatusToken(BadSector) == "-" && StatusToken(Finished) == "+"
  {}

  /** And the numbers that may stand in their place. */
  lemma NumbersMean()
    ensures ReadStatus("0") == ReadStatus("00") == ReadStatus("0x00") == Some(NonTried)
    ensures ReadStatus("1") == ReadStatus("01") == ReadStatus("0x01") == Some(Finished)
    ensures ReadStatus("2") == ReadStatus("0x02") == Some(BadSector)
    ensures ReadStatus("3") == ReadStatus("0x03") == Some(NonTrimmed)
    ensures ReadStatus("4") == ReadStatus("0x04") == Some(NonScraped)
  {
    OneDigitMeans();
    StripNothing("00");
    StripNothing("01");
    LongNumbersMean();
  }

  lemma OneDigitMeans()
    ensures ReadStatus("0") == Some(NonTried) && ReadStatus("1") == Some(Finished) && ReadStatus("2") == Some(BadSector)
    ensures ReadStatus("3") == Some(NonTrimmed) && ReadStatus("4") == Some(NonScraped)
  {
    StripNothing("0");
    StripNothing("1");
    StripNothing("2");
    StripNothing("3");
    StripNothing("4");
    hide Strip;
  }

  lemma LongNumbersMean()
    ensures ReadStatus("0x00") == Some(NonTried) && ReadStatus("0x01") == Some(Finished)
    ensures ReadStatus("0x02") == Some(BadSector) && ReadStatus("0x03") == Some(NonTrimmed)
    ensures ReadStatus("0x04") == Some(NonScraped)
  {
    StripNothing("0x00");
    StripNothing("0x01");
    StripNothing("0x02");
    StripNothing("0x03");
    StripNothing("0x04");
    hide Strip;
  }

  /** A printed block, and the two lines in front of the blocks. */
  lemma PrintedLinesMean()
    ensures BlockLine(Block(0xC, 0x1A2B, NonScraped)) == "0x0000000C  0x00001A2B  /"
    ensures PositionLine(Mapfile(0xC, NonTrimmed, 12, [])) == "0x0000000C     *"
    ensures PassLine(Mapfile(0xC, NonTrimmed, 12, [])) == "12               *"
  {
    HexOfExamples();
    SpacesOfExamples();
    TwelveIsPrinted();
    hide Hex, Spaces, Decimal;
  }

  lemma SpacesOfExamples()
    ensures Spaces(2) == "  " && Spaces(5) == "     " && Spaces(15) == "               "
  {
    MoreSpaces(2, 3);
    MoreSpaces(5, 5);
    MoreSpaces(10, 5);
  }

  lemma {:induction false} MoreSpaces(m: nat, n: nat)
    ensures Spaces(m + n) == Spaces(m) + Spaces(n)
  {
    if m > 0 { MoreSpaces(m - 1, n); }
  }

  lemma TwelveIsPrinted()
    ensures Decimal(12) == "12"
  {
    assert Digits(1, 10) == "1";
  }

  lemma HexOfExamples()
    ensures Hex(0xC) == "0x0000000C" && Hex(0x1A2B) == "0x00001A2B"
  {
    DigitsOfExamples();
    PadsTwelve();
    PadsLonger();
    hide Digits, PadZeros;
  }

  lemma PadsTwelve()
    ensures PadZeros("C", 8) == "0000000C"
  {
    hide PadZeros;
    PadsOnce("C", "0C");
    PadsOnce("0C", "00C");
    PadsOnce("00C", "000C");
    PadsOnce("000C", "0000C");
    PadsOnce("0000C", "00000C");
    PadsOnce("00000C", "000000C");
    PadsOnce("000000C", "0000000C");
  }

  lemma PadsLonger()
    ensures PadZeros("1A2B", 8) == "00001A2B"
  {
    hide PadZeros;
    PadsOnce("1A2B", "01A2B");
    PadsOnce("01A2B", "001A2B");
    PadsOnce("001A2B", "0001A2B");
    PadsOnce("0001A2B", "00001A2B");
  }

  lemma PadsOnce(s: string, t: string)
    requires |s| < 8 && t == "0" + s
    ensures PadZeros(s, 8) == PadZeros(t, 8)
    ensures |t| == 8 ==> PadZeros(s, 8) == t
  {}

  lemma DigitsOfExamples()
    ensures Digits(0xC, 16) == "C" && Digits(0x1A2B, 16) == "1A2B"
  {
    assert Digits(0x1A, 16) == "1A";
    assert Digits(0x1A2, 16) == Digits(0x1A, 16) + "2";
    assert Digits(0x1A2B, 16) == Digits(0x1A2, 16) + "B";
  }

  /** A line of the form word, blanks, words ending in a status token survives stripping and line splitting. */
  predicate IsPrintedLine(l: string) {
    NoBreak(l) && IsDataLine(l) && !IsSpace(l[0]) && !IsSpace(l[|l| - 1])
  }

  lemma PrintedLine(w: string, n: nat, rest: string)
    requires IsWord(w) && w[0] != '#' && n > 0 && NoBreak(rest) && rest != [] && !IsSpace(rest[|rest| - 1])
    ensures IsPrintedLine(w + Spaces(n) + rest)
  {
    var l := w + Spaces(n) + rest;
    assert l[0] == w[0] && w[0] in w && l[|l| - 1] == rest[|rest| - 1];
    SpacesHaveNoBreak(n);
    forall c <- l ensures !IsLineBreak(c) {
      assert c in w || c in Spaces(n) || c in rest;
    }
  }

  lemma {:induction false} SpacesHaveNoBreak(n: nat)
    ensures NoBreak(Spaces(n)) && |Spaces(n)| == n
  {
    if n > 0 { SpacesHaveNoBreak(n - 1); }
  }

  lemma BlockLineReadsBack(b: Block)
    ensures IsPrintedLine(BlockLine(b))
    ensures ReadBlockLine(BlockLine(b)) == if b.pos >= 0 && b.size >= 0 then Some([b]) else None
  {
    HexReadsBack(b.pos);
    HexReadsBack(b.size);
    StatusReadsBack(b.status);
    var token := StatusToken(b.status);
    assert token[0] in token;
    var rest := Hex(b.size) + Spaces(2) + token;
    PrintedLine(Hex(b.size), 2, token);
    PrintedLine(Hex(b.pos), 2, rest);
    SplitWord(token);
    SplitFirst(Hex(b.size), 2, token);
    SplitFirst(Hex(b.pos), 2, rest);
    assert Split(BlockLine(b)) == [Hex(b.pos), Hex(b.size), token];
  }

  lemma {:induction false} BlockLinesReadBack(bs: seq<Block>)
    ensures forall l <- BlockLines(bs) :: IsPrintedLine(l)
    ensures ReadBlocks(BlockLines(bs)) == if NonNegative(bs) then Some(bs) else None
  {
    if bs != [] {
      BlockLineReadsBack(bs[0]);
      BlockLinesReadBack(bs[1..]);
      assert BlockLines(bs)[1..] == BlockLines(bs[1..]);
      assert bs == [bs[0]] + bs[1..];
      assert forall b :: b in bs <==> b == bs[0] || b in bs[1..];
    }
  }

  lemma HeaderLineReadsBack(w: string, n: nat, s: Status)
    requires IsWord(w) && w[0] != '#' && n > 0
    ensures IsPrintedLine(w + Spaces(n) + StatusToken(s))
    ensures Split(w + Spaces(n) + StatusToken(s)) == [w, StatusToken(s)]
  {
    StatusReadsBack(s);
    var token := StatusToken(s);
    assert token[0] in token;
    PrintedLine(w, n, token);
    SplitWord(token);
    SplitFirst(w, n, token);
  }

  lemma {:induction false} DataLinesKeep(lines: seq<string>)
    requires forall l <- lines :: IsPrintedLine(l)
    ensures DataLines(lines) == lines
  {
    if lines != [] {
      assert lines[0] in lines;
      StripNothing(lines[0]);
      DataLinesKeep(lines[1..]);
    }
  }

  lemma DataLinesStep(line: string, rest: seq<string>)
    ensures DataLines([line] + rest) == (if IsDataLine(Strip(line)) then [Strip(line)] else []) + DataLines(rest)
  {
    assert ([line] + rest)[1..] == rest;
  }

  predicate IsComment(l: string) {
    l != [] && l[0] == '#' && !IsSpace(l[|l| - 1]) && NoBreak(l)
  }

  lemma CommentIsDropped(line: string, rest: seq<string>)
    requires IsComment(line)
    ensures DataLines([line] + rest) == DataLines(rest)
  {
    StripNothing(line);
    DataLinesStep(line, rest);
  }

  lemma PrintedLineIsKept(line: string, rest: seq<string>)
    requires IsPrintedLine(line)
    ensures DataLines([line] + rest) == [line] + DataLines(rest)
  {
    StripNothing(line);
    DataLinesStep(line, rest);
  }

  lemma BannerIsComment()
    ensures IsComment(BANNER)
  {
    var first, second, third := "# Mapfile generated ", "/ maintained by DREX-V2 ", "Damaged Media Engine";
    assert NoBreak(first) && first[0] == '#';
    assert NoBreak(second);
    assert NoBreak(third) && !IsSpace(third[|third| - 1]);
    CommentFromPieces(first, second, third);
  }

  lemma CommentFromPieces(first: string, second: string, third: string)
    requires NoBreak(first) && NoBreak(second) && NoBreak(third) && first != [] && third != []
    requires first[0] == '#' && !IsSpace(third[|third| - 1])
    ensures IsComment(first + second + third)
  {}

  lemma StatusCommentIsComment() ensures IsComment(STATUS_COMMENT) {}
  lemma PositionCommentIsComment() ensures IsComment(POSITION_COMMENT) {}
  lemma PassCommentIsComment() ensures IsComment(PASS_COMMENT) {}
  lemma BlocksCommentIsComment() ensures IsComment(BLOCKS_COMMENT) {}

  lemma CommentsAreDropped(position: string, pass: string, blocks: seq<string>)
    requires IsPrintedLine(position) && IsPrintedLine(pass) && forall l <- blocks :: IsPrintedLine(l)
    ensures DataLines(WithComments(position, pass, blocks)) == [position] + ([pass] + blocks)
    ensures AllNoBreak(WithComments(position, pass, blocks))
  {
    BannerIsComment();
    StatusCommentIsComment();
    PositionCommentIsComment();
    PassCommentIsComment();
    BlocksCommentIsComment();
    DropComments(BANNER, STATUS_COMMENT, POSITION_COMMENT, PASS_COMMENT, BLOCKS_COMMENT, position, pass, blocks);
  }

  predicate AllNoBreak(lines: seq<string>) {
    forall l <- lines :: NoBreak(l)
  }

  lemma NoBreakCons(line: string, rest: seq<string>)
    requires NoBreak(line) && AllNoBreak(rest)
    ensures AllNoBreak([line] + rest)
  {}

  lemma DropComments(c1: string, c2: string, c3: string, c4: string, c5: string,
                     position: string, pass: string, blocks: seq<string>)
    requires IsComment(c1) && IsComment(c2) && IsComment(c3) && IsComment(c4) && IsComment(c5)
    requires IsPrintedLine(position) && IsPrintedLine(pass) && forall l <- blocks :: IsPrintedLine(l)
    ensures var lines := [c1] + ([c2] + ([c3] + ([position] + ([c4] + ([pass] + ([c5] + blocks))))));
            DataLines(lines) == [position] + ([pass] + blocks) && AllNoBreak(lines)
  {
    var from5 := [c5] + blocks;
    assert DataLines(from5) == blocks && AllNoBreak(from5) by {
      CommentIsDropped(c5, blocks);
      DataLinesKeep(blocks);
      NoBreakCons(c5, blocks);
    }
    var from3 := [position] + ([c4] + ([pass] + from5));
    assert DataLines(from3) == [position] + ([pass] + blocks) && AllNoBreak(from3) by {
      KeepAndDrop(position, c4, pass, from5);
    }
    DropThree(c1, c2, c3, from3);
  }

  lemma KeepAndDrop(first: string, comment: string, second: string, rest: seq<string>)
    requires IsPrintedLine(first) && IsComment(comment) && IsPrintedLine(second) && AllNoBreak(rest)
    ensures DataLines([first] + ([comment] + ([second] + rest))) == [first] + ([second] + DataLines(rest))
    ensures AllNoBreak([first] + ([comment] + ([second] + rest)))
  {
    PrintedLineIsKept(second, rest);
    NoBreakCons(second, rest);
    CommentIsDropped(comment, [second] + rest);
    NoBreakCons(comment, [second] + rest);
    PrintedLineIsKept(first, [comment] + ([second] + rest));
    NoBreakCons(first, [comment] + ([second] + rest));
  }

  lemma DropThree(c1: string, c2: string, c3: string, rest: seq<string>)
    requires IsComment(c1) && IsComment(c2) && IsComment(c3)
    requires AllNoBreak(rest)
    ensures DataLines([c1] + ([c2] + ([c3] + rest))) == DataLines(rest)
    ensures AllNoBreak([c1] + ([c2] + ([c3] + rest)))
  {
    NoBreakCons(c3, rest);
    NoBreakCons(c2, [c3] + rest);
    NoBreakCons(c1, [c2] + ([c3] + rest));
    CommentIsDropped(c1, [c2] + ([c3] + rest));
    CommentIsDropped(c2, [c3] + rest);
    CommentIsDropped(c3, rest);
  }

  lemma PrintedDataLines(m: Mapfile)
    ensures AllNoBreak(PrintedLines(m))
    ensures DataLines(PrintedLines(m)) == [PositionLine(m)] + ([PassLine(m)] + BlockLines(m.blocks))
  {
    HexReadsBack(m.currentPos);
    HeaderLineReadsBack(Hex(m.currentPos), 5, m.currentStatus);
    DecimalReadsBack(m.currentPass);
    DecimalStart(m.currentPass);
    HeaderLineReadsBack(Decimal(m.currentPass), 15, m.currentStatus);
    BlockLinesReadBack(m.blocks);
    CommentsAreDropped(PositionLine(m), PassLine(m), BlockLines(m.blocks));
  }

  lemma DecimalStart(n: int)
    ensures Decimal(n) != [] && Decimal(n)[0] != '#'
    ensures IsDigits(Decimal(n)) <==> n >= 0
    ensures n < 0 ==> !("0x" <= Decimal(n))
  {
    DecimalReadsBack(n);
    assert Decimal(n)[0] in Decimal(n);
  }

  /** What comes back from printing and parsing, for every mapfile: a negative position or size makes the
      text unreadable, and a negative pass number comes back as the default 1. */
  lemma ParseOfPrint(m: Mapfile)
    ensures Parse(Print(m)) ==
      if m.currentPos < 0 || !NonNegative(m.blocks) then None
      else Some(m.(currentPass := if m.currentPass < 0 then 1 else m.currentPass))
  {
    PrintedDataLines(m);
    LinesOfUnlines(PrintedLines(m));
    var blockLines := BlockLines(m.blocks);
    var data := [PositionLine(m)] + ([PassLine(m)] + blockLines);
    HeaderReadsBack(m, data);
    BlockLinesReadBack(m.blocks);
    if m.currentPos >= 0 {
      if m.currentPass >= 0 {
        assert data[2..] == blockLines;
      } else {
        assert data[1..] == [PassLine(m)] + blockLines && data[1..][1..] == blockLines;
        NegativePassIsSkipped(m);
        AppendNothing(ReadBlocks(blockLines));
      }
    }
  }

  lemma NegativePassIsSkipped(m: Mapfile)
    ensures ReadBlockLine(PassLine(m)) == Some([])
  {
    DecimalReadsBack(m.currentPass);
    DecimalStart(m.currentPass);
    HeaderLineReadsBack(Decimal(m.currentPass), 15, m.currentStatus);
  }

  lemma AppendNothing(rest: Option<seq<Block>>)
    ensures Append([], rest) == rest
  {
    if rest.Some? { assert [] + rest.value == rest.value; }
  }

  lemma HeaderReadsBack(m: Mapfile, data: seq<string>)
    requires |data| >= 2 && data[0] == PositionLine(m) && data[1] == PassLine(m)
    ensures ReadHeader(data) ==
      if m.currentPos < 0 then None
      else if m.currentPass >= 0 then Some(Header(m.currentPos, m.currentStatus, m.currentPass, 2))
      else Some(Header(m.currentPos, m.currentStatus, 1, 1))
  {
    HexReadsBack(m.currentPos);
    HeaderLineReadsBack(Hex(m.currentPos), 5, m.currentStatus);
    DecimalReadsBack(m.currentPass);
    DecimalStart(m.currentPass);
    HeaderLineReadsBack(Decimal(m.currentPass), 15, m.currentStatus);
    StatusReadsBack(m.currentStatus);
  }

  /** Printing then parsing is the identity exactly on mapfiles without negative numbers. */
  lemma RoundTripIffNonNegative(m: Mapfile)
    ensures Parse(Print(m)) == Some(m) <==> m.currentPos >= 0 && m.currentPass >= 0 && NonNegative(m.blocks)
  {
    ParseOfPrint(m);
  }

  /** Without a negative position or size, one trip through the text reaches a fixed point. */
  lemma ReprintIsStable(m: Mapfile)
    requires m.currentPos >= 0 && NonNegative(m.blocks)
    ensures Parse(Print(m)).Some?
    ensures var n := Parse(Print(m)).value; Parse(Print(n)) == Some(n) && (m.currentPass >= 0 ==> Print(n) == Print(m))
  {
    ParseOfPrint(m);
    ParseOfPrint(Parse(Print(m)).value);
  }
}
