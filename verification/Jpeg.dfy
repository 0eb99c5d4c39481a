/** The JPEG marker scanner of `fragment_engine.py`. */
module Jpeg {
  import opened Basics

  /** Bytes as numbers: lengths and restart numbers are computed from them. */
  type Byte = b: int | 0 <= b < 256

  type Octets = seq<Byte>

  datatype Marker = Marker(offset: nat, code: Byte, length: nat, payload: Octets)

  const SOI: Octets := [0xFF, 0xD8]
  const EOI: Octets := [0xFF, 0xD9]

  predicate IsRestart(code: Byte) { 0xD0 <= code <= 0xD7 }

  function RestartNumber(code: Byte): (n: nat)
    requires IsRestart(code)
    ensures n < 8
  {
    code - 0xD0
  }

  function RestartCode(number: nat): (code: Byte)
    ensures IsRestart(code) && RestartNumber(code) == number % 8
  {
    0xD0 + number % 8
  }

  /** What a scan has recorded so far. */
  datatype Record = Record(markers: seq<Marker>, hasEoi: bool, hasSof: bool, hasSos: bool, hasDri: bool,
                           restartInterval: nat, restarts: seq<nat>, isTruncated: bool)

  const NOTHING := Record([], false, false, false, false, 0, [], false)

  /** A big-endian 16-bit number. */
  function U16(data: Octets, at: nat): (n: nat)
    requires at + 2 <= |data|
    ensures n < 0x1_0000
  {
    256 * (data[at] as int) + data[at + 1]
  }

  /** The first place at or behind `pos` that is no fill byte. */
  function SkipFill(data: Octets, pos: nat): (p: nat)
    requires pos <= |data|
    ensures pos <= p <= |data| && (p < |data| ==> data[p] != 0xFF)
    ensures pos < p ==> data[p - 1] == 0xFF
    decreases |data| - pos
  {
    if pos < |data| && data[pos] == 0xFF then SkipFill(data, pos + 1) else pos
  }

  /** The flags that the marker `code` sets as soon as it is seen; `at` is the place behind it. */
  function Flagged(data: Octets, at: nat, code: Byte, r: Record): (f: Record)
    ensures f.markers == r.markers && f.restarts == r.restarts && f.hasEoi == r.hasEoi
  {
    r.(hasDri := r.hasDri || code == 0xDD,
       restartInterval := if code == 0xDD && at + 4 <= |data| then U16(data, at + 2) else r.restartInterval,
       hasSof := r.hasSof || code == 0xC0 || code == 0xC2,
       hasSos := r.hasSos || code == 0xDA)
  }

  function AddRestart(r: Record, at: nat, code: Byte): Record
    requires IsRestart(code)
  {
    r.(restarts := r.restarts + [RestartNumber(code)], markers := r.markers + [Marker(at, code, 0, [])])
  }

  function AddEoi(r: Record, at: nat): Record {
    r.(hasEoi := true, markers := r.markers + [Marker(at, 0xD9, 0, [])])
  }

  /** Does the segment whose length field starts at `at` fit? */
  predicate SegmentFits(data: Octets, at: nat) {
    at + 2 <= |data| && U16(data, at) >= 2 && at + U16(data, at) <= |data|
  }

  function AddSegment(data: Octets, at: nat, code: Byte, r: Record): Record
    requires at >= 2 && SegmentFits(data, at)
  {
    r.(markers := r.markers + [Marker(at - 2, code, U16(data, at), data[at + 2..at + U16(data, at)])])
  }

  /** What one round of the scan leads to: the end, or a later position. */
  datatype Round = Done(record: Record) | Next(record: Record, pos: nat)

  /** What the code at `at`, behind its 0xFF, leads to. */
  function AtCode(data: Octets, at: nat, r: Record): (s: Round)
    requires 0 < at < |data|
    ensures s.Next? ==> at < s.pos <= |data|
  {
    var code := data[at];
    if code == 0 then Next(r, at + 1)
    else if code == 0xD9 then Done(AddEoi(r, at - 1))
    else if IsRestart(code) then Next(AddRestart(r, at - 1, code), at + 1)
    else if !SegmentFits(data, at + 1) then Done(Flagged(data, at + 1, code, r).(isTruncated := true))
    else Next(AddSegment(data, at + 1, code, Flagged(data, at + 1, code, r)), at + 1 + U16(data, at + 1))
  }

  function Step(data: Octets, pos: nat, r: Record): (s: Round)
    requires pos < |data|
    ensures s.Next? ==> pos < s.pos <= |data|
  {
    if data[pos] != 0xFF then Next(r, pos + 1)
    else
      var at := SkipFill(data, pos);
      if at == |data| then Done(r.(isTruncated := true)) else AtCode(data, at, r)
  }

  /** The scan from `pos` on. */
  function Scan(data: Octets, pos: nat, r: Record): Record
    requires pos <= |data|
    decreases |data| - pos
  {
    if pos == |data| then r
    else
      match Step(data, pos, r)
      case Done(record) => record
      case Next(record, next) => Scan(data, next, record)
  }

  predicate StartsImage(data: Octets) { |data| >= 4 && SOI <= data }

  function Parsed(data: Octets): Record { if StartsImage(data) then Scan(data, 2, NOTHING) else NOTHING }

  predicate Accepted(data: Octets) { StartsImage(data) && (Parsed(data).hasSof || Parsed(data).hasSos) }

  class JpegEntropyDecoder {
    const data: Octets
    var markers: seq<Marker>
    var hasSoi: bool
    var hasEoi: bool
    var hasSof: bool
    var hasSos: bool
    var hasDri: bool
    var restartInterval: nat
    var restartCount: nat
    var rstSequence: seq<nat>
    var isTruncated: bool

    ghost function Contents(): Record
      reads this
    {
      Record(markers, hasEoi, hasSof, hasSos, hasDri, restartInterval, rstSequence, isTruncated)
    }

    ghost predicate Valid()
      reads this
    {
      restartCount == |rstSequence|
    }

    constructor (data: Octets)
      ensures this.data == data && !hasSoi && Contents() == NOTHING && Valid()
    {
      this.data := data;
      markers, rstSequence, restartInterval, restartCount := [], [], 0, 0;
      hasSoi, hasEoi, hasSof, hasSos, hasDri, isTruncated := false, false, false, false, false, false;
    }

    method Parse() returns (ok: bool)
      requires Valid() && Contents() == NOTHING && !hasSoi
      modifies this
      ensures Valid() && Contents() == Parsed(data) && hasSoi == StartsImage(data)
      ensures ok == Accepted(data)
    {
      if |data| < 4 || !(SOI <= data) {
        return false;
      }
      hasSoi := true;
      var pos, done := 2, false;
      while pos < |data| && !done
        invariant 2 <= pos <= |data| && Valid() && hasSoi
        invariant (if done then Contents() else Scan(data, pos, Contents())) == Parsed(data)
        decreases |data| - pos, !done
      {
        if data[pos] != 0xFF {
          pos := pos + 1;
        } else {
          pos, done := ReadMarker(pos);
        }
      }
      ok := hasSof || hasSos;
    }

    /** One marker, from its first 0xFF on; `done` leaves the scan. */
    method ReadMarker(start: nat) returns (pos: nat, done: bool)
      requires Valid() && start < |data| && data[start] == 0xFF
      modifies this
      ensures Valid() && hasSoi == old(hasSoi) && start <= pos <= |data|
      ensures Step(data, start, old(Contents())) == if done then Done(Contents()) else Next(Contents(), pos)
    {
      pos := start;
      while pos < |data| && data[pos] == 0xFF
        invariant start <= pos <= |data| && SkipFill(data, pos) == SkipFill(data, start)
      {
        pos := pos + 1;
      }
      if pos >= |data| {
        isTruncated, done := true, true;
        return;
      }
      pos, done := ReadCode(pos);
    }

    method ReadCode(at: nat) returns (pos: nat, done: bool)
      requires Valid() && 0 < at < |data|
      modifies this
      ensures Valid() && hasSoi == old(hasSoi) && at < pos <= |data|
      ensures AtCode(data, at, old(Contents())) == if done then Done(Contents()) else Next(Contents(), pos)
    {
      var code := data[at];
      pos, done := at + 1, false;
      if code == 0 {
        return;
      }
      if code == 0xD9 {
        hasEoi, done := true, true;
        markers := markers + [Marker(pos - 2, code, 0, [])];
        return;
      }
      if IsRestart(code) {
        restartCount := restartCount + 1;
        rstSequence := rstSequence + [RestartNumber(code)];
        markers := markers + [Marker(pos - 2, code, 0, [])];
        return;
      }
      SetFlags(pos, code);
      pos, done := ReadSegment(pos, code);
    }

    method SetFlags(pos: nat, code: Byte)
      modifies `hasDri, `restartInterval, `hasSof, `hasSos
      ensures Contents() == Flagged(data, pos, code, old(Contents()))
    {
      if code == 0xDD {
        hasDri := true;
        if pos + 4 <= |data| { restartInterval := U16(data, pos + 2); }
      }
      if code == 0xC0 || code == 0xC2 {
        hasSof := true;
      } else if code == 0xDA {
        hasSos := true;
      }
    }

    method ReadSegment(start: nat, code: Byte) returns (pos: nat, done: bool)
      requires 2 <= start <= |data|
      modifies `markers, `isTruncated
      ensures done == !SegmentFits(data, start)
      ensures done ==> pos == start && Contents() == old(Contents()).(isTruncated := true)
      ensures !done ==> pos == start + U16(data, start) && Contents() == AddSegment(data, start, code, old(Contents()))
    {
      pos, done := start, true;
      if pos + 2 > |data| {
        isTruncated := true;
        return;
      }
      var segLen := U16(data, pos);
      if segLen < 2 || pos + segLen > |data| {
        isTruncated := true;
        return;
      }
      markers := markers + [Marker(pos - 2, code, segLen, data[pos + 2..pos + segLen])];
      pos, done := pos + segLen, false;
    }
  }

  // ---------- Markers are where they say, in order, without overlap ----------

  predicate MarkerStands(data: Octets, m: Marker) {
    && m.offset + 2 + m.length <= |data|
    && data[m.offset] == 0xFF && data[m.offset + 1] == m.code && m.code != 0 && m.code != 0xFF
    && (m.length == 0 <==> m.code == 0xD9 || IsRestart(m.code))
    && (m.length > 0 ==>
          m.length >= 2 && U16(data, m.offset + 2) == m.length
          && m.payload == data[m.offset + 4..m.offset + 2 + m.length])
  }

  function MarkerEnd(m: Marker): nat { m.offset + 2 + m.length }

  function RestartsOf(markers: seq<Marker>): seq<nat> {
    if markers == [] then []
    else
      var last := markers[|markers| - 1];
      RestartsOf(markers[..|markers| - 1]) + if IsRestart(last.code) then [RestartNumber(last.code)] else []
  }

  ghost predicate WellPlaced(data: Octets, markers: seq<Marker>) {
    && (forall i :: 0 <= i < |markers| ==> MarkerStands(data, markers[i]))
    && (forall i, j :: 0 <= i < j < |markers| ==> MarkerEnd(markers[i]) <= markers[j].offset)
  }

  /** What was recorded is faithful to the bytes before `pos`. */
  ghost predicate Faithful(data: Octets, markers: seq<Marker>, restarts: seq<nat>, pos: nat) {
    && WellPlaced(data, markers)
    && (forall i :: 0 <= i < |markers| ==> MarkerEnd(markers[i]) <= pos)
    && restarts == RestartsOf(markers)
  }

  predicate EndsWithEoi(markers: seq<Marker>) { markers != [] && markers[|markers| - 1].code == 0xD9 }

  ghost predicate FaithfulRecord(data: Octets, r: Record, pos: nat) {
    Faithful(data, r.markers, r.restarts, pos) && r.hasEoi == EndsWithEoi(r.markers)
  }

  lemma MarkerAdds(data: Octets, markers: seq<Marker>, restarts: seq<nat>, pos: nat, m: Marker)
    requires Faithful(data, markers, restarts, pos) && MarkerStands(data, m) && pos <= m.offset
    ensures Faithful(data, markers + [m],
                     restarts + if IsRestart(m.code) then [RestartNumber(m.code)] else [], MarkerEnd(m))
  {
    assert (markers + [m])[..|markers|] == markers;
  }

  lemma FaithfulLater(data: Octets, r: Record, pos: nat, later: nat)
    requires FaithfulRecord(data, r, pos) && pos <= later
    ensures FaithfulRecord(data, r, later)
  {}

  lemma {:induction false} ScanIsFaithful(data: Octets, pos: nat, r: Record)
    requires pos <= |data| && FaithfulRecord(data, r, pos) && !r.hasEoi
    ensures FaithfulRecord(data, Scan(data, pos, r), |data|)
    decreases |data| - pos
  {
    if pos < |data| {
      StepIsFaithful(data, pos, r);
      var s := Step(data, pos, r);
      if s.Next? { ScanIsFaithful(data, s.pos, s.record); }
    }
  }

  ghost predicate FaithfulRound(data: Octets, s: Round) {
    match s
    case Done(record) => FaithfulRecord(data, record, |data|)
    case Next(record, pos) => FaithfulRecord(data, record, pos) && !record.hasEoi
  }

  lemma StepIsFaithful(data: Octets, pos: nat, r: Record)
    requires pos < |data| && FaithfulRecord(data, r, pos) && !r.hasEoi
    ensures FaithfulRound(data, Step(data, pos, r))
  {
    if data[pos] != 0xFF {
      FaithfulLater(data, r, pos, pos + 1);
    } else {
      var at := SkipFill(data, pos);
      if at == |data| {
        FaithfulLater(data, r, pos, |data|);
      } else {
        FaithfulLater(data, r, pos, at - 1);
        CodeIsFaithful(data, at, r);
      }
    }
  }

  lemma CodeIsFaithful(data: Octets, at: nat, r: Record)
    requires 0 < at < |data| && data[at - 1] == 0xFF && data[at] != 0xFF
    requires FaithfulRecord(data, r, at - 1) && !r.hasEoi
    ensures FaithfulRound(data, AtCode(data, at, r))
  {
    hide Faithful;
    FaithfulLater(data, r, at - 1, at + 1);
    FaithfulLater(data, r, at - 1, |data|);
    if data[at] == 0xD9 {
      EoiAdds(data, at - 1, r);
    } else if IsRestart(data[at]) {
      RestartAdds(data, at - 1, r);
    } else if data[at] != 0 && SegmentFits(data, at + 1) {
      SegmentAdds(data, at - 1, r);
    }
  }

  lemma EoiAdds(data: Octets, at: nat, r: Record)
    requires FaithfulRecord(data, r, at)
    requires at + 2 <= |data| && data[at] == 0xFF && data[at + 1] == 0xD9
    ensures FaithfulRecord(data, AddEoi(r, at), |data|)
  {
    MarkerAdds(data, r.markers, r.restarts, at, Marker(at, 0xD9, 0, []));
  }

  lemma RestartAdds(data: Octets, at: nat, r: Record)
    requires FaithfulRecord(data, r, at) && !r.hasEoi
    requires at + 2 <= |data| && data[at] == 0xFF && IsRestart(data[at + 1])
    ensures FaithfulRecord(data, AddRestart(r, at, data[at + 1]), at + 2)
  {
    MarkerAdds(data, r.markers, r.restarts, at, Marker(at, data[at + 1], 0, []));
  }

  predicate IsSegmentCode(code: Byte) { code != 0 && code != 0xFF && code != 0xD9 && !IsRestart(code) }

  function SegmentMarker(data: Octets, at: nat): Marker
    requires SegmentFits(data, at + 2)
  {
    Marker(at, data[at + 1], U16(data, at + 2), data[at + 4..at + 2 + U16(data, at + 2)])
  }

  lemma SegmentMarkerStands(data: Octets, at: nat)
    requires SegmentFits(data, at + 2) && data[at] == 0xFF && IsSegmentCode(data[at + 1])
    ensures MarkerStands(data, SegmentMarker(data, at))
  {}

  lemma SegmentAdds(data: Octets, at: nat, r: Record)
    requires FaithfulRecord(data, r, at) && !r.hasEoi
    requires SegmentFits(data, at + 2) && data[at] == 0xFF && IsSegmentCode(data[at + 1])
    ensures var next := AddSegment(data, at + 2, data[at + 1], Flagged(data, at + 2, data[at + 1], r));
      FaithfulRecord(data, next, at + 2 + U16(data, at + 2)) && !next.hasEoi
  {
    hide Faithful, MarkerStands, U16;
    SegmentMarkerStands(data, at);
    var m := SegmentMarker(data, at);
    SegmentMarkerAdds(data, r.markers, r.restarts, at, m);
    var next := AddSegment(data, at + 2, data[at + 1], Flagged(data, at + 2, data[at + 1], r));
    assert next.markers == r.markers + [m];
  }

  lemma SegmentMarkerAdds(data: Octets, markers: seq<Marker>, restarts: seq<nat>, at: nat, m: Marker)
    requires Faithful(data, markers, restarts, at) && MarkerStands(data, m) && m.offset == at && m.length > 0
    ensures Faithful(data, markers + [m], restarts, MarkerEnd(m)) && !EndsWithEoi(markers + [m])
  {
    MarkerAdds(data, markers, restarts, at, m);
    assert restarts + [] == restarts;
  }

  /** Whatever the bytes are: every recorded marker stands in them with its code, its length and its payload;
      markers come in order and never overlap; the restart sequence is that of the recorded restart markers; and
      the end of the image is reported exactly when the last marker is one. */
  lemma ParsedIsFaithful(data: Octets)
    ensures FaithfulRecord(data, Parsed(data), |data|)
  {
    if StartsImage(data) { ScanIsFaithful(data, 2, NOTHING); }
  }

  // ---------- A rendered stream reads back ----------

  /** A piece of a JPEG stream: entropy-coded bytes, a restart marker, or a marker segment. */
  datatype Token = Entropy(bytes: Octets) | Restart(number: nat) | Segment(code: Byte, payload: Octets)

  predicate WellFormed(t: Token) {
    match t
    case Entropy(_) => true
    case Restart(number) => number < 8
    case Segment(code, payload) =>
      && IsSegmentCode(code)
      && |payload| <= 65533 && (code == 0xDD ==> |payload| >= 2)
  }

  predicate AllWellFormed(tokens: seq<Token>) { forall i :: 0 <= i < |tokens| ==> WellFormed(tokens[i]) }

  /** Entropy-coded bytes with a zero stuffed behind every 0xFF. */
  function Stuffed(bytes: Octets): Octets {
    if bytes == [] then [] else (if bytes[0] == 0xFF then [0xFF, 0] else [bytes[0]]) + Stuffed(bytes[1..])
  }

  function SegmentHead(code: Byte, length: nat): Octets { [0xFF, code, length / 256 % 256, length % 256] }

  function Render(t: Token): Octets {
    match t
    case Entropy(bytes) => Stuffed(bytes)
    case Restart(number) => [0xFF, RestartCode(number)]
    case Segment(code, payload) => SegmentHead(code, |payload| + 2) + payload
  }

  function RenderAll(tokens: seq<Token>): Octets {
    if tokens == [] then [] else Render(tokens[0]) + RenderAll(tokens[1..])
  }

  /** What a token at `at` adds to the record. */
  function Applied(t: Token, at: nat, r: Record): Record {
    match t
    case Entropy(_) => r
    case Restart(number) =>
      r.(restarts := r.restarts + [number], markers := r.markers + [Marker(at, RestartCode(number), 0, [])])
    case Segment(code, payload) =>
      r.(markers := r.markers + [Marker(at, code, |payload| + 2, payload)],
         hasSof := r.hasSof || code == 0xC0 || code == 0xC2,
         hasSos := r.hasSos || code == 0xDA,
         hasDri := r.hasDri || code == 0xDD,
         restartInterval := if code == 0xDD && |payload| >= 2 then U16(payload, 0) else r.restartInterval)
  }

  function AppliedAll(tokens: seq<Token>, at: nat, r: Record): Record {
    if tokens == [] then r
    else AppliedAll(tokens[1..], at + |Render(tokens[0])|, Applied(tokens[0], at, r))
  }

  lemma StuffedByteIsSkipped(data: Octets, at: nat, bytes: Octets, r: Record)
    requires bytes != [] && StandsAt(data, at, Stuffed(bytes))
    ensures var next := at + if bytes[0] == 0xFF then 2 else 1;
      StandsAt(data, next, Stuffed(bytes[1..])) && Scan(data, at, r) == Scan(data, next, r)
  {
    var first: Octets := if bytes[0] == 0xFF then [0xFF, 0] else [bytes[0]];
    PartsStand(data, at, first, Stuffed(bytes[1..]));
    assert data[at] == data[at..at + |first|][0];
    if bytes[0] == 0xFF { MarkerIsSeen(data, at, 0); }
  }

  lemma {:induction false} StuffedIsSkipped(data: Octets, at: nat, bytes: Octets, r: Record)
    requires StandsAt(data, at, Stuffed(bytes))
    ensures Scan(data, at, r) == Scan(data, at + |Stuffed(bytes)|, r)
    decreases |bytes|
  {
    if bytes != [] {
      StuffedByteIsSkipped(data, at, bytes, r);
      StuffedIsSkipped(data, at + if bytes[0] == 0xFF then 2 else 1, bytes[1..], r);
    }
  }

  lemma MarkerIsSeen(data: Octets, at: nat, code: Byte)
    requires StandsAt(data, at, [0xFF, code]) && code != 0xFF
    ensures data[at] == 0xFF && data[at + 1] == code && SkipFill(data, at) == at + 1
  {
    assert data[at] == data[at..at + 2][0] && data[at + 1] == data[at..at + 2][1];
  }

  lemma RestartIsRead(data: Octets, at: nat, number: nat, r: Record)
    requires number < 8 && StandsAt(data, at, Render(Restart(number)))
    ensures Scan(data, at, r) == Scan(data, at + 2, Applied(Restart(number), at, r))
  {
    MarkerIsSeen(data, at, RestartCode(number));
  }

  lemma HeadIsSeen(data: Octets, at: nat, code: Byte, length: nat)
    requires StandsAt(data, at, SegmentHead(code, length)) && code != 0xFF && length < 0x1_0000
    ensures data[at] == 0xFF && data[at + 1] == code && SkipFill(data, at) == at + 1 && U16(data, at + 2) == length
  {
    var head := data[at..at + 4];
    assert data[at] == head[0] && data[at + 1] == head[1] && data[at + 2] == head[2] && data[at + 3] == head[3];
  }

  lemma SegmentIsScanned(data: Octets, at: nat, r: Record)
    requires at + 2 <= |data| && data[at] == 0xFF && SkipFill(data, at) == at + 1 && SegmentFits(data, at + 2)
    requires var code := data[at + 1]; code != 0 && code != 0xD9 && !IsRestart(code)
    ensures Scan(data, at, r) == Scan(data, at + 2 + U16(data, at + 2),
                                      AddSegment(data, at + 2, data[at + 1], Flagged(data, at + 2, data[at + 1], r)))
  {}

  lemma SegmentIsRead(data: Octets, at: nat, t: Token, r: Record)
    requires t.Segment? && WellFormed(t) && StandsAt(data, at, Render(t))
    ensures Scan(data, at, r) == Scan(data, at + |Render(t)|, Applied(t, at, r))
  {
    hide Scan, SkipFill, Render, U16;
    SegmentStands(data, at, t);
    SegmentIsScanned(data, at, r);
    if t.code == 0xDD { IntervalIsRead(data, at + 4, t.payload); }
  }

  lemma SegmentStands(data: Octets, at: nat, t: Token)
    requires t.Segment? && WellFormed(t) && StandsAt(data, at, Render(t))
    ensures |Render(t)| == |t.payload| + 4 && data[at] == 0xFF && data[at + 1] == t.code && SkipFill(data, at) == at + 1
    ensures U16(data, at + 2) == |t.payload| + 2 && data[at + 4..at + 4 + |t.payload|] == t.payload
  {
    PartsStand(data, at, SegmentHead(t.code, |t.payload| + 2), t.payload);
    HeadIsSeen(data, at, t.code, |t.payload| + 2);
  }

  lemma IntervalIsRead(data: Octets, at: nat, payload: Octets)
    requires |payload| >= 2 && StandsAt(data, at, payload)
    ensures U16(data, at) == U16(payload, 0)
  {
    assert data[at] == data[at..at + |payload|][0] && data[at + 1] == data[at..at + |payload|][1];
  }

  lemma TokenIsRead(data: Octets, at: nat, t: Token, r: Record)
    requires WellFormed(t) && StandsAt(data, at, Render(t))
    ensures Scan(data, at, r) == Scan(data, at + |Render(t)|, Applied(t, at, r))
  {
    match t {
      case Entropy(bytes) => StuffedIsSkipped(data, at, bytes, r);
      case Restart(number) => RestartIsRead(data, at, number, r);
      case Segment(_, _) => SegmentIsRead(data, at, t, r);
    }
  }

  lemma RenderAllStep(tokens: seq<Token>)
    requires tokens != []
    ensures RenderAll(tokens) == Render(tokens[0]) + RenderAll(tokens[1..])
  {}

  lemma AppliedStep(at: nat, tokens: seq<Token>, r: Record)
    requires tokens != []
    ensures var next, read := at + |Render(tokens[0])|, Applied(tokens[0], at, r);
      && AppliedAll(tokens, at, r) == AppliedAll(tokens[1..], next, read)
      && at + |RenderAll(tokens)| == next + |RenderAll(tokens[1..])|
  {}

  lemma {:induction false} TokensAreRead(data: Octets, at: nat, tokens: seq<Token>, r: Record)
    requires AllWellFormed(tokens) && StandsAt(data, at, RenderAll(tokens))
    ensures Scan(data, at, r) == Scan(data, at + |RenderAll(tokens)|, AppliedAll(tokens, at, r))
    decreases |tokens|
  {
    hide Scan, Render, Applied, StandsAt, WellFormed;
    if tokens != [] {
      RenderAllStep(tokens);
      PartsStand(data, at, Render(tokens[0]), RenderAll(tokens[1..]));
      TokenIsRead(data, at, tokens[0], r);
      AppliedStep(at, tokens, r);
      TokensAreRead(data, at + |Render(tokens[0])|, tokens[1..], Applied(tokens[0], at, r));
    }
  }

  /** A well-formed image with anything behind its end reads back as its markers and nothing else: stuffed
      entropy bytes never pass for a marker, and nothing behind the end of the image is looked at. */
  lemma RenderedImageReadsBack(tokens: seq<Token>, rest: Octets)
    requires AllWellFormed(tokens)
    ensures var data := SOI + RenderAll(tokens) + EOI + rest;
      StartsImage(data) && Parsed(data) == AddEoi(AppliedAll(tokens, 2, NOTHING), 2 + |RenderAll(tokens)|)
  {
    hide Scan, RenderAll, AppliedAll, AddEoi, StandsAt;
    ImageParts(RenderAll(tokens), rest);
    var data := SOI + RenderAll(tokens) + EOI + rest;
    TokensAreRead(data, 2, tokens, NOTHING);
    EoiIsRead(data, 2 + |RenderAll(tokens)|, AppliedAll(tokens, 2, NOTHING));
  }

  // ---------- What the record says of a rendered image ----------

  predicate IsSegment(t: Token, codes: set<Byte>) { t.Segment? && t.code in codes }

  predicate HasSegment(tokens: seq<Token>, codes: set<Byte>) {
    exists i :: 0 <= i < |tokens| && IsSegment(tokens[i], codes)
  }

  function NumberOf(t: Token): seq<nat> { if t.Restart? then [t.number] else [] }

  function NumbersOf(tokens: seq<Token>): seq<nat> {
    if tokens == [] then [] else NumberOf(tokens[0]) + NumbersOf(tokens[1..])
  }

  function NextInterval(t: Token, before: nat): nat {
    if t.Segment? && t.code == 0xDD && |t.payload| >= 2
    then 256 * (t.payload[0] as nat) + t.payload[1] as nat else before
  }

  /** The last restart interval that is defined, or `before` without one. */
  function IntervalOf(tokens: seq<Token>, before: nat): nat {
    if tokens == [] then before else IntervalOf(tokens[1..], NextInterval(tokens[0], before))
  }

  lemma HasSegmentStep(tokens: seq<Token>, codes: set<Byte>)
    requires tokens != []
    ensures HasSegment(tokens, codes) <==> IsSegment(tokens[0], codes) || HasSegment(tokens[1..], codes)
  {
    hide IsSegment;
    if i :| 0 <= i < |tokens| && IsSegment(tokens[i], codes) {
      if i > 0 { assert tokens[1..][i - 1] == tokens[i]; }
    }
    if i :| 0 <= i < |tokens[1..]| && IsSegment(tokens[1..][i], codes) {
      assert tokens[i + 1] == tokens[1..][i];
    }
  }

  /** What one token adds, and what a list of them adds, in plain terms. */
  ghost predicate Adds(q: Record, r: Record, sof: bool, sos: bool, dri: bool, numbers: seq<nat>, interval: nat) {
    && q.hasSof == (r.hasSof || sof) && q.hasSos == (r.hasSos || sos) && q.hasDri == (r.hasDri || dri)
    && q.restarts == r.restarts + numbers && q.restartInterval == interval
    && q.hasEoi == r.hasEoi && q.isTruncated == r.isTruncated
  }

  lemma AppliedOne(t: Token, at: nat, r: Record)
    ensures Adds(Applied(t, at, r), r, IsSegment(t, {0xC0, 0xC2}), IsSegment(t, {0xDA}), IsSegment(t, {0xDD}),
                 NumberOf(t), NextInterval(t, r.restartInterval))
  {}

  lemma AddsTwice(q: Record, m: Record, r: Record, sof0: bool, sos0: bool, dri0: bool, numbers0: seq<nat>,
                  interval0: nat, sof1: bool, sos1: bool, dri1: bool, numbers1: seq<nat>, interval1: nat)
    requires Adds(m, r, sof0, sos0, dri0, numbers0, interval0) && Adds(q, m, sof1, sos1, dri1, numbers1, interval1)
    ensures Adds(q, r, sof0 || sof1, sos0 || sos1, dri0 || dri1, numbers0 + numbers1, interval1)
  {}

  lemma {:induction false} AppliedMeans(tokens: seq<Token>, at: nat, r: Record)
    ensures Adds(AppliedAll(tokens, at, r), r, HasSegment(tokens, {0xC0, 0xC2}), HasSegment(tokens, {0xDA}),
                 HasSegment(tokens, {0xDD}), NumbersOf(tokens), IntervalOf(tokens, r.restartInterval))
  {
    if tokens == [] {
      NothingAdded(at, r);
    } else {
      hide Applied, Render, Adds, IsSegment, HasSegment, NumberOf, NextInterval;
      var t, m := tokens[0], Applied(tokens[0], at, r);
      AppliedOne(t, at, r);
      AppliedMeans(tokens[1..], at + |Render(t)|, m);
      HasSegmentStep(tokens, {0xC0, 0xC2});
      HasSegmentStep(tokens, {0xDA});
      HasSegmentStep(tokens, {0xDD});
      IntervalIs(m, r, t, at);
      AddsTwice(AppliedAll(tokens, at, r), m, r, IsSegment(t, {0xC0, 0xC2}), IsSegment(t, {0xDA}), IsSegment(t, {0xDD}),
                NumberOf(t), NextInterval(t, r.restartInterval),
                HasSegment(tokens[1..], {0xC0, 0xC2}), HasSegment(tokens[1..], {0xDA}), HasSegment(tokens[1..], {0xDD}),
                NumbersOf(tokens[1..]), IntervalOf(tokens[1..], m.restartInterval));
    }
  }

  lemma IntervalIs(m: Record, r: Record, t: Token, at: nat)
    requires m == Applied(t, at, r)
    ensures m.restartInterval == NextInterval(t, r.restartInterval)
  {}

  lemma NothingAdded(at: nat, r: Record)
    ensures AppliedAll([], at, r) == r && NumbersOf([]) == [] && IntervalOf([], r.restartInterval) == r.restartInterval
    ensures forall codes :: !HasSegment([], codes)
  {}

  /** A rendered image is accepted exactly when a start of frame (baseline or progressive) or a start of scan is among
      its segments; its restarts are those rendered, and it is complete. */
  lemma RenderedImageMeans(tokens: seq<Token>, rest: Octets)
    requires AllWellFormed(tokens)
    ensures var data := SOI + RenderAll(tokens) + EOI + rest;
      && (Accepted(data) <==> HasSegment(tokens, {0xC0, 0xC2, 0xDA}))
      && (Parsed(data).hasDri <==> HasSegment(tokens, {0xDD}))
      && Parsed(data).restarts == NumbersOf(tokens) && Parsed(data).restartInterval == IntervalOf(tokens, 0)
      && Parsed(data).hasEoi && !Parsed(data).isTruncated
  {
    RenderedImageReadsBack(tokens, rest);
    AppliedMeans(tokens, 2, NOTHING);
    EitherSegment(tokens);
    hide AppliedAll, RenderAll, Scan, HasSegment, NumbersOf, IntervalOf, AllWellFormed, StartsImage;
  }

  lemma EitherSegment(tokens: seq<Token>)
    ensures HasSegment(tokens, {0xC0, 0xC2, 0xDA}) <==> HasSegment(tokens, {0xC0, 0xC2}) || HasSegment(tokens, {0xDA})
  {}

  /** An image that breaks off inside a segment: `tail` is what is left behind the segment's code, shorter than the
      length it announces, or with a length below 2.  The record is marked as truncated, keeps what stands in front,
      and has seen the segment's code all the same. */
  lemma CutImageMeans(tokens: seq<Token>, code: Byte, tail: Octets)
    requires AllWellFormed(tokens) && IsSegmentCode(code) && !Announced(tail)
    ensures var data := SOI + RenderAll(tokens) + [0xFF, code] + tail;
      && Parsed(data).isTruncated && !Parsed(data).hasEoi && Parsed(data).restarts == NumbersOf(tokens)
      && (Parsed(data).hasSof <==> HasSegment(tokens, {0xC0, 0xC2}) || code == 0xC0 || code == 0xC2)
      && (Parsed(data).hasSos <==> HasSegment(tokens, {0xDA}) || code == 0xDA)
      && (Parsed(data).hasDri <==> HasSegment(tokens, {0xDD}) || code == 0xDD)
      && Parsed(data).restartInterval == if code == 0xDD && |tail| >= 4 then 256 * (tail[2] as nat) + tail[3] as nat
                                         else IntervalOf(tokens, 0)
  {
    var data, at := SOI + RenderAll(tokens) + [0xFF, code] + tail, 2 + |RenderAll(tokens)|;
    CutParts(RenderAll(tokens), code, tail);
    AppliedMeans(tokens, 2, NOTHING);
    hide AppliedAll, RenderAll, Scan, HasSegment, NumbersOf, IntervalOf, Announced, StandsAt;
    TokensAreRead(data, 2, tokens, NOTHING);
    CutIsRead(data, at, code, tail, AppliedAll(tokens, 2, NOTHING));
    FlaggedMeans(data, at + 2, code, tail, AppliedAll(tokens, 2, NOTHING));
    hide Flagged;
  }

  /** The first two bytes announce a segment that lies within `tail`. */
  predicate Announced(tail: Octets) {
    |tail| >= 2 && var length := 256 * (tail[0] as nat) + tail[1] as nat; 2 <= length <= |tail|
  }

  lemma CutParts(body: Octets, code: Byte, tail: Octets)
    ensures var data, at := SOI + body + [0xFF, code] + tail, 2 + |body|;
      StartsImage(data) && StandsAt(data, 2, body) && StandsAt(data, at, [0xFF, code]) && data[at + 2..] == tail
  {
    var data := SOI + body + [0xFF, code] + tail;
    assert data[2..2 + |body|] == body;
    assert data[2 + |body|..4 + |body|] == [0xFF, code];
  }

  lemma CutIsRead(data: Octets, at: nat, code: Byte, tail: Octets, r: Record)
    requires StandsAt(data, at, [0xFF, code]) && data[at + 2..] == tail && IsSegmentCode(code) && !Announced(tail)
    ensures Scan(data, at, r) == Flagged(data, at + 2, code, r).(isTruncated := true)
  {
    assert |tail| > 1 ==> tail[0] == data[at + 2] && tail[1] == data[at + 3];
    MarkerIsSeen(data, at, code);
  }

  lemma FlaggedMeans(data: Octets, at: nat, code: Byte, tail: Octets, r: Record)
    requires at <= |data| && data[at..] == tail
    ensures var f := Flagged(data, at, code, r);
      && (f.hasSof <==> r.hasSof || code == 0xC0 || code == 0xC2) && (f.hasSos <==> r.hasSos || code == 0xDA)
      && (f.hasDri <==> r.hasDri || code == 0xDD)
      && f.restartInterval == if code == 0xDD && |tail| >= 4 then 256 * (tail[2] as nat) + tail[3] as nat
                              else r.restartInterval
  {
    if |tail| >= 4 { assert tail[2] == data[at + 2] && tail[3] == data[at + 3]; }
  }

  /** An image that ends behind its tokens, or in fill bytes behind them, which count as a cut marker. */
  lemma OpenImageMeans(tokens: seq<Token>, fill: nat)
    requires AllWellFormed(tokens) && |RenderAll(tokens)| + fill >= 2
    ensures var data := SOI + RenderAll(tokens) + seq(fill, _ => 0xFF);
      && !Parsed(data).hasEoi && (Parsed(data).isTruncated <==> fill > 0)
      && Parsed(data).restarts == NumbersOf(tokens) && Parsed(data).restartInterval == IntervalOf(tokens, 0)
      && (Accepted(data) <==> HasSegment(tokens, {0xC0, 0xC2, 0xDA}))
  {
    var data, at := SOI + RenderAll(tokens) + seq(fill, _ => 0xFF), 2 + |RenderAll(tokens)|;
    OpenParts(RenderAll(tokens), fill);
    AppliedMeans(tokens, 2, NOTHING);
    EitherSegment(tokens);
    hide AppliedAll, RenderAll, Scan, HasSegment, NumbersOf, IntervalOf, StandsAt;
    TokensAreRead(data, 2, tokens, NOTHING);
    FillIsRead(data, at, AppliedAll(tokens, 2, NOTHING));
  }

  lemma OpenParts(body: Octets, fill: nat)
    ensures var data := SOI + body + seq(fill, _ => 0xFF);
      && (|body| + fill >= 2 ==> StartsImage(data))
      && StandsAt(data, 2, body) && |data| == 2 + |body| + fill
      && forall i :: 2 + |body| <= i < |data| ==> data[i] == 0xFF
  {
    var data := SOI + body + seq(fill, _ => 0xFF);
    assert data[2..2 + |body|] == body;
  }

  lemma {:induction false} FillIsSkipped(data: Octets, at: nat)
    requires at <= |data| && forall i :: at <= i < |data| ==> data[i] == 0xFF
    ensures SkipFill(data, at) == |data|
    decreases |data| - at
  {
    if at < |data| { FillIsSkipped(data, at + 1); }
  }

  lemma FillIsRead(data: Octets, at: nat, r: Record)
    requires at <= |data| && forall i :: at <= i < |data| ==> data[i] == 0xFF
    ensures Scan(data, at, r) == if at < |data| then r.(isTruncated := true) else r
  {
    FillIsSkipped(data, at);
  }

  lemma ImageParts(body: Octets, rest: Octets)
    ensures var data := SOI + body + EOI + rest;
      StartsImage(data) && StandsAt(data, 2, body) && StandsAt(data, 2 + |body|, EOI)
  {
    var data := SOI + body + EOI + rest;
    assert data[2..2 + |body|] == body;
    assert data[2 + |body|..4 + |body|] == EOI;
  }

  lemma EoiIsRead(data: Octets, at: nat, r: Record)
    requires StandsAt(data, at, EOI)
    ensures Scan(data, at, r) == AddEoi(r, at)
  {
    MarkerIsSeen(data, at, 0xD9);
  }
}
