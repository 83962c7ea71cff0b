/** The JPEG marker scanner over hostile bytes: sections B.1.1.2 to B.1.1.4 of ITU-T T.81. The TIFF
    parser is an arbitrary function of the bytes it is handed, and any read may fail. */
module Jpeg {
  import opened Wrappers
  import opened Text

  const PREFIX: byte := 0xff
  const SOI: byte := 0xd8
  const EOI: byte := 0xd9
  const SOS: byte := 0xda
  const APP1: byte := 0xe1
  const EXIF: seq<byte> := [0x45, 0x78, 0x69, 0x66, 0, 0]

  datatype IssueCode =
    | InvalidStructure | OutOfBounds | CycleDetected | UnsupportedVersion
    | LimitExceeded | Io | ArithmeticOverflow | UnexpectedEof | InvalidSource

  datatype ParseError = ParseError(code: IssueCode, offset: nat)

  predicate Structural(e: ParseError) { e.code in {InvalidStructure, OutOfBounds, CycleDetected, UnsupportedVersion} }

  datatype Field = Field(app1: nat, data: seq<byte>)

  datatype TiffReport = TiffReport(fields: seq<Field>, issues: seq<ParseError>, failure: Option<ParseError>)

  /** What the scanner depends on: which reads fail, by offset (it reads no offset twice), how many
      segments are allowed, and what TIFF makes of a header offset, an APP1 offset and a payload. */
  datatype Env = Env(faulty: nat -> bool, maxSegments: nat, tiff: (nat, nat, seq<byte>) -> TiffReport)

  /** One hand-over to TIFF: the APP1 marker, where the TIFF header starts and where the segment ends. */
  datatype Range = Range(marker: nat, header: nat, end: nat)

  /** `failure` is what ended the scan; `None` when a terminator was reached. */
  datatype Report = Report(fields: seq<Field>, issues: seq<ParseError>, ranges: seq<Range>, failure: Option<ParseError>)

  function Then(first: Report, rest: Report): Report {
    Report(first.fields + rest.fields, first.issues + rest.issues, first.ranges + rest.ranges, rest.failure)
  }

  function Nothing(): Report { Report([], [], [], None) }

  function Failed(e: ParseError): Report { Report([], [], [], Some(e)) }

  // ------------------------------------------------ what the scan means

  /** `read_vec`. */
  function ReadAt(env: Env, src: seq<byte>, offset: nat, n: nat): (r: Result<seq<byte>, ParseError>)
    ensures r.Ok? ==> offset + n <= |src| && r.value == src[offset..offset + n]
  {
    if offset + n > |src| then Err(ParseError(OutOfBounds, offset))
    else if env.faulty(offset) then Err(ParseError(Io, offset))
    else Ok(src[offset..offset + n])
  }

  /** The offset of the marker code, past any fill bytes. */
  function CodeAt(env: Env, src: seq<byte>, cursor: nat): (r: Result<nat, ParseError>)
    ensures r.Ok? ==> cursor <= r.value < |src| && src[r.value] != PREFIX && src[r.value] != 0
    decreases |src| - cursor
  {
    if cursor >= |src| then Err(ParseError(OutOfBounds, cursor))
    else if env.faulty(cursor) then Err(ParseError(Io, cursor))
    else if src[cursor] == PREFIX then CodeAt(env, src, cursor + 1)
    else if src[cursor] == 0 then Err(ParseError(InvalidStructure, cursor))
    else Ok(cursor)
  }

  function MarkerAt(env: Env, src: seq<byte>, cursor: nat): (r: Result<nat, ParseError>)
    ensures r.Ok? ==> cursor < r.value < |src| && src[r.value] != PREFIX && src[r.value] != 0
  {
    if cursor >= |src| then Err(ParseError(OutOfBounds, cursor))
    else if env.faulty(cursor) then Err(ParseError(Io, cursor))
    else if src[cursor] != PREFIX then Err(ParseError(InvalidStructure, cursor))
    else CodeAt(env, src, cursor + 1)
  }

  predicate Standalone(code: byte) { code == 0x01 || 0xd0 <= code <= 0xd7 }

  predicate Terminator(code: byte) { code == EOI || code == SOS }

  predicate HasLength(code: byte) {
    code != 0 && code != PREFIX && code != SOI && !Standalone(code) && !Terminator(code)
  }

  /** Where the segment whose length field is at `at` ends. */
  function SegmentEnd(env: Env, src: seq<byte>, at: nat): (r: Result<nat, ParseError>)
    ensures r.Ok? ==> at + 2 <= r.value <= |src|
  {
    var length := ReadAt(env, src, at, 2);
    if length.Err? then Err(length.error)
    else
      var n: nat := length.value[0] as int * 256 + length.value[1] as int;
      if n < 2 then Err(ParseError(InvalidStructure, at))
      else if at + n > |src| then Err(ParseError(OutOfBounds, at))
      else Ok(at + n)
  }

  /** What one complete segment contributes; `failure` only when the whole extraction has to fail. */
  function SegmentReport(env: Env, src: seq<byte>, marker: nat, code: byte, payload: nat, end: nat): (r: Report)
    requires payload <= end <= |src|
    ensures r.failure.Some? ==> !Structural(r.failure.value)
  {
    if code != APP1 || end - payload < 6 then Nothing()
    else if env.faulty(payload) then Failed(ParseError(Io, payload))
    else if src[payload..payload + 6] != EXIF then Nothing()
    else
      var t := env.tiff(payload + 6, marker, src[payload + 6..end]);
      var ranges := [Range(marker, payload + 6, end)];
      match t.failure
      case None => Report(t.fields, t.issues, ranges, None)
      case Some(e) =>
        if Structural(e) then Report(t.fields, t.issues + [e], ranges, None)
        else Report(t.fields, t.issues, ranges, Some(e))
  }

  /** The scan from `cursor`, with `visited` markers already counted. */
  function Scan(env: Env, src: seq<byte>, cursor: nat, visited: nat): Report
    decreases |src| - cursor
  {
    match MarkerAt(env, src, cursor)
    case Err(e) => Failed(e)
    case Ok(at) =>
      var code := src[at];
      if visited + 1 > env.maxSegments then Failed(ParseError(LimitExceeded, cursor))
      else if Terminator(code) then Nothing()
      else if Standalone(code) then Scan(env, src, at + 1, visited + 1)
      else if code == SOI then Failed(ParseError(InvalidStructure, at))
      else
        match SegmentEnd(env, src, at + 1)
        case Err(e) => Failed(e)
        case Ok(end) =>
          var segment := SegmentReport(env, src, cursor, code, at + 3, end);
          if segment.failure.Some? then segment else Then(segment, Scan(env, src, end, visited + 1))
  }

  function ScanAll(env: Env, src: seq<byte>): Report {
    match ReadAt(env, src, 0, 2)
    case Err(e) => Failed(e)
    case Ok(soi) => if soi != [PREFIX, SOI] then Failed(ParseError(InvalidStructure, 0)) else Scan(env, src, 2, 0)
  }

  datatype Outcome = Outcome(fields: seq<Field>, issues: seq<ParseError>)

  /** `parse`: a structural end keeps everything found before it, any other failure keeps nothing. */
  function Conclude(r: Report): Result<Outcome, ParseError> {
    match r.failure
    case None => Ok(Outcome(r.fields, r.issues))
    case Some(e) => if Structural(e) then Ok(Outcome(r.fields, r.issues + [e])) else Err(e)
  }

  // ------------------------------------------------------- the scanner

  /** The scanner's position and what it has collected. */
  class Scanner {
    const env: Env
    const src: seq<byte>
    var visited: nat
    var fields: seq<Field>
    var issues: seq<ParseError>
    /** Every range handed to TIFF, in order. */
    var ranges: seq<Range>

    constructor (env: Env, src: seq<byte>)
      ensures this.env == env && this.src == src && visited == 0 && Collected() == Nothing()
    {
      this.env := env;
      this.src := src;
      visited := 0;
      fields, issues, ranges := [], [], [];
    }

    function Collected(): Report
      reads this
    {
      Report(fields, issues, ranges, None)
    }

    /** What is collected, then a failure or nothing more. */
    ghost function Closed(r: Result<(), ParseError>): Report
      reads this
    {
      Report(fields, issues, ranges, if r.Ok? then None else Some(r.error))
    }

    method ReadByte(offset: nat) returns (r: Result<byte, ParseError>)
      ensures r == if offset >= |src| then Err(ParseError(OutOfBounds, offset))
                   else if env.faulty(offset) then Err(ParseError(Io, offset)) else Ok(src[offset])
    {
      var bytes := ReadAt(env, src, offset, 1);
      return if bytes.Err? then Err(bytes.error) else Ok(bytes.value[0]);
    }

    /** The marker prefix and the inner loop over fill bytes. */
    method FindCode(start: nat) returns (r: Result<nat, ParseError>)
      ensures r == MarkerAt(env, src, start)
    {
      var prefix := ReadByte(start);
      if prefix.Err? {
        return Err(prefix.error);
      }
      if prefix.value != PREFIX {
        return Err(ParseError(InvalidStructure, start));
      }
      var cursor := start + 1;
      while true
        invariant start < cursor <= |src|
        invariant CodeAt(env, src, cursor) == MarkerAt(env, src, start)
        decreases |src| - cursor
      {
        var code := ReadByte(cursor);
        if code.Err? {
          return Err(code.error);
        }
        if code.value == PREFIX {
          cursor := cursor + 1;
          continue;
        }
        if code.value == 0 {
          return Err(ParseError(InvalidStructure, cursor));
        }
        return Ok(cursor);
      }
    }

    /** The APP1 branch: hand an Exif payload to TIFF and keep a malformed one to itself. */
    method VisitSegment(marker: nat, code: byte, payload: nat, end: nat) returns (r: Result<(), ParseError>)
      requires payload <= end <= |src|
      modifies this
      ensures visited == old(visited)
      ensures Closed(r) == Then(old(Collected()), SegmentReport(env, src, marker, code, payload, end))
    {
      if code != APP1 || end - payload < 6 {
        return Ok(());
      }
      var signature := ReadAt(env, src, payload, 6);
      if signature.Err? {
        return Err(signature.error);
      }
      if signature.value != EXIF {
        return Ok(());
      }
      var t := env.tiff(payload + 6, marker, src[payload + 6..end]);
      fields, issues := fields + t.fields, issues + t.issues;
      ranges := ranges + [Range(marker, payload + 6, end)];
      if t.failure.Some? {
        if !Structural(t.failure.value) {
          return Err(t.failure.value);
        }
        issues := issues + [t.failure.value];
      }
      return Ok(());
    }

    /** One turn of the scan: one marker, and its segment if it has one. `None` after a terminator. */
    method ScanMarker(cursor: nat) returns (r: Result<Option<nat>, ParseError>)
      modifies this
      ensures r.Ok? && r.value.Some? ==> cursor < r.value.value <= |src|
      ensures var before := Then(old(Collected()), Scan(env, src, cursor, old(visited)));
              match r
              case Ok(Some(next)) => Then(Collected(), Scan(env, src, next, visited)) == before
              case Ok(None) => Closed(Ok(())) == before
              case Err(e) => Closed(Err(e)) == before
    {
      hide MarkerAt, SegmentEnd, SegmentReport;
      var found := FindCode(cursor);
      if found.Err? {
        return Err(found.error);
      }
      var at := found.value;
      var code := src[at];
      if visited + 1 > env.maxSegments {
        return Err(ParseError(LimitExceeded, cursor));
      }
      visited := visited + 1;
      if Terminator(code) {
        return Ok(None);
      }
      if Standalone(code) {
        return Ok(Some(at + 1));
      }
      if code == SOI {
        return Err(ParseError(InvalidStructure, at));
      }
      var end := SegmentEnd(env, src, at + 1);
      if end.Err? {
        return Err(end.error);
      }
      var kept := VisitSegment(cursor, code, at + 3, end.value);
      if kept.Err? {
        return Err(kept.error);
      }
      ThenAssociative(old(Collected()), SegmentReport(env, src, cursor, code, at + 3, end.value),
                      Scan(env, src, end.value, visited));
      return Ok(Some(end.value));
    }

    /** `scan_segments`. */
    method ScanSegments() returns (r: Result<(), ParseError>)
      requires visited == 0 && Collected() == Nothing()
      modifies this
      ensures Closed(r) == ScanAll(env, src)
    {
      hide Scan;
      var soi := ReadAt(env, src, 0, 2);
      if soi.Err? {
        return Err(soi.error);
      }
      if soi.value != [PREFIX, SOI] {
        return Err(ParseError(InvalidStructure, 0));
      }
      var cursor := 2;
      while true
        invariant 2 <= cursor <= |src|
        invariant Then(Collected(), Scan(env, src, cursor, visited)) == ScanAll(env, src)
        decreases |src| - cursor
      {
        var next := ScanMarker(cursor);
        if next.Err? {
          return Err(next.error);
        }
        if next.value.None? {
          return Ok(());
        }
        cursor := next.value.value;
      }
    }
  }

  lemma ThenAssociative(a: Report, b: Report, c: Report)
    ensures Then(Then(a, b), c) == Then(a, Then(b, c))
  {
  }

  /** `parse`. */
  method Parse(env: Env, src: seq<byte>) returns (r: Result<Outcome, ParseError>)
    ensures r == Conclude(ScanAll(env, src))
  {
    var scanner := new Scanner(env, src);
    var scanned := scanner.ScanSegments();
    match scanned
    case Ok(_) => r := Ok(Outcome(scanner.fields, scanner.issues));
    case Err(e) =>
      if Structural(e) {
        r := Ok(Outcome(scanner.fields, scanner.issues + [e]));
      } else {
        r := Err(e);
      }
  }

  // -------------------------------------------------- where TIFF is sent

  /** Every range lies inside the file, is a marker followed by its payload, and begins where an earlier
      one has ended: marker offsets strictly increase. */
  ghost predicate Ordered(ranges: seq<Range>, from: nat, size: nat) {
    && (forall i :: 0 <= i < |ranges| ==>
          from <= ranges[i].marker && ranges[i].marker + 10 <= ranges[i].header <= ranges[i].end <= size)
    && (forall i, j :: 0 <= i < j < |ranges| ==> ranges[i].end <= ranges[j].marker)
  }

  lemma SegmentRanges(env: Env, src: seq<byte>, marker: nat, code: byte, payload: nat, end: nat)
    requires payload <= end <= |src|
    ensures var ranges := SegmentReport(env, src, marker, code, payload, end).ranges;
            ranges == [] || (payload + 6 <= end && ranges == [Range(marker, payload + 6, end)])
  {
  }

  lemma ScanStandalone(env: Env, src: seq<byte>, cursor: nat, visited: nat)
    requires MarkerAt(env, src, cursor).Ok? && Standalone(src[MarkerAt(env, src, cursor).value])
    requires visited + 1 <= env.maxSegments
    ensures Scan(env, src, cursor, visited)
            == Then(Nothing(), Scan(env, src, MarkerAt(env, src, cursor).value + 1, visited + 1))
  {
    hide MarkerAt;
  }

  lemma ScanSegment(env: Env, src: seq<byte>, cursor: nat, visited: nat)
    requires MarkerAt(env, src, cursor).Ok? && HasLength(src[MarkerAt(env, src, cursor).value])
    requires SegmentEnd(env, src, MarkerAt(env, src, cursor).value + 1).Ok? && visited + 1 <= env.maxSegments
    ensures var at := MarkerAt(env, src, cursor).value;
            var end := SegmentEnd(env, src, at + 1).value;
            var segment := SegmentReport(env, src, cursor, src[at], at + 3, end);
            Scan(env, src, cursor, visited)
            == if segment.failure.Some? then segment else Then(segment, Scan(env, src, end, visited + 1))
  {
    hide MarkerAt, SegmentEnd, SegmentReport;
  }

  /** The scan goes on behind this marker. */
  predicate GoesOn(env: Env, src: seq<byte>, cursor: nat, visited: nat) {
    && MarkerAt(env, src, cursor).Ok? && visited + 1 <= env.maxSegments
    && var at := MarkerAt(env, src, cursor).value;
       Standalone(src[at]) || (HasLength(src[at]) && SegmentEnd(env, src, at + 1).Ok?)
  }

  lemma ScanStops(env: Env, src: seq<byte>, cursor: nat, visited: nat)
    requires !GoesOn(env, src, cursor, visited)
    ensures Scan(env, src, cursor, visited).ranges == []
  {
    hide MarkerAt, SegmentEnd, SegmentReport;
  }

  lemma {:induction false} RangesOrdered(env: Env, src: seq<byte>, cursor: nat, visited: nat)
    ensures Ordered(Scan(env, src, cursor, visited).ranges, cursor, |src|)
    decreases |src| - cursor
  {
    hide Scan, SegmentEnd, MarkerAt, SegmentReport;
    if GoesOn(env, src, cursor, visited) {
      var at := MarkerAt(env, src, cursor).value;
      if Standalone(src[at]) {
        ScanStandalone(env, src, cursor, visited);
        RangesOrdered(env, src, at + 1, visited + 1);
      } else {
        var end := SegmentEnd(env, src, at + 1).value;
        ScanSegment(env, src, cursor, visited);
        SegmentRanges(env, src, cursor, src[at], at + 3, end);
        RangesOrdered(env, src, end, visited + 1);
      }
    } else {
      ScanStops(env, src, cursor, visited);
    }
  }

  // --------------------------------------------------- marker streams

  /** A marker with its fill bytes: standing alone, or with a length and a payload. */
  datatype Piece = Piece(fill: nat, code: byte, payload: seq<byte>)

  predicate WellFormed(p: Piece) {
    (Standalone(p.code) && p.payload == []) || (HasLength(p.code) && |p.payload| <= 65533)
  }

  function Fill(n: nat): (s: seq<byte>)
    ensures |s| == n && forall i :: 0 <= i < n ==> s[i] == PREFIX
  {
    seq(n, i => PREFIX)
  }

  function Length(n: nat): seq<byte>
    requires n < 65536
  {
    [n / 256, n % 256]
  }

  function PieceBytes(p: Piece): (s: seq<byte>)
    requires WellFormed(p)
    ensures |s| >= 2 + p.fill
  {
    Fill(p.fill + 1) + [p.code] + if Standalone(p.code) then [] else Length(|p.payload| + 2) + p.payload
  }

  predicate AllWellFormed(ps: seq<Piece>) { forall i :: 0 <= i < |ps| ==> WellFormed(ps[i]) }

  function StreamBytes(ps: seq<Piece>): seq<byte>
    requires AllWellFormed(ps)
  {
    if ps == [] then [] else PieceBytes(ps[0]) + StreamBytes(ps[1..])
  }

  predicate IsExif(p: Piece) { p.code == APP1 && |p.payload| >= 6 && p.payload[..6] == EXIF }

  /** The hand-over to TIFF of an Exif piece at `at`. */
  function ExifRange(at: nat, p: Piece): Range
    requires WellFormed(p)
  {
    Range(at, at + p.fill + 10, at + |PieceBytes(p)|)
  }

  /** The Exif APP1 segments of a stream at `at`, in order. */
  function ExifRanges(at: nat, ps: seq<Piece>): seq<Range>
    requires AllWellFormed(ps)
    decreases |ps|
  {
    if ps == [] then []
    else (if IsExif(ps[0]) then [ExifRange(at, ps[0])] else []) + ExifRanges(at + |PieceBytes(ps[0])|, ps[1..])
  }

  function PieceReport(env: Env, at: nat, p: Piece): Report
    requires WellFormed(p)
  {
    if !IsExif(p) then Nothing()
    else
      var t := env.tiff(at + p.fill + 10, at, p.payload[6..]);
      match t.failure
      case None => Report(t.fields, t.issues, [ExifRange(at, p)], None)
      case Some(e) =>
        if Structural(e) then Report(t.fields, t.issues + [e], [ExifRange(at, p)], None)
        else Report(t.fields, t.issues, [ExifRange(at, p)], Some(e))
  }

  function PiecesReport(env: Env, at: nat, ps: seq<Piece>): Report
    requires AllWellFormed(ps)
    decreases |ps|
  {
    if ps == [] then Nothing()
    else Then(PieceReport(env, at, ps[0]), PiecesReport(env, at + |PieceBytes(ps[0])|, ps[1..]))
  }

  /** TIFF has no reason to fail the whole extraction. */
  predicate Accepted(env: Env, at: nat, ps: seq<Piece>)
    requires AllWellFormed(ps)
    decreases |ps|
  {
    ps == [] || (PieceReport(env, at, ps[0]).failure.None? && Accepted(env, at + |PieceBytes(ps[0])|, ps[1..]))
  }

  ghost predicate Readable(env: Env, size: nat) { forall o :: 0 <= o < size ==> !env.faulty(o) }

  lemma {:induction false} FillSkipped(env: Env, src: seq<byte>, cursor: nat, at: nat)
    requires cursor <= at < |src| && Readable(env, at + 1)
    requires (forall i :: cursor <= i < at ==> src[i] == PREFIX) && src[at] != PREFIX && src[at] != 0
    ensures CodeAt(env, src, cursor) == Ok(at)
    decreases at - cursor
  {
    if cursor < at {
      FillSkipped(env, src, cursor + 1, at);
    }
  }

  /** `src` holds `bytes` at `at`. */
  ghost predicate Holds(src: seq<byte>, at: nat, bytes: seq<byte>) {
    at + |bytes| <= |src| && src[at..at + |bytes|] == bytes
  }

  lemma MarkerFound(env: Env, src: seq<byte>, at: nat, fill: nat, code: byte)
    requires Holds(src, at, Fill(fill + 1) + [code]) && code != PREFIX && code != 0
    requires Readable(env, at + fill + 2)
    ensures MarkerAt(env, src, at) == Ok(at + fill + 1) && src[at + fill + 1] == code
  {
    var bytes := Fill(fill + 1) + [code];
    forall i | at <= i < at + fill + 2
      ensures src[i] == bytes[i - at]
    {
      assert src[at..at + |bytes|][i - at] == bytes[i - at];
    }
    FillSkipped(env, src, at + 1, at + fill + 1);
  }

  lemma HoldsPart(src: seq<byte>, at: nat, a: seq<byte>, b: seq<byte>)
    requires Holds(src, at, a + b)
    ensures Holds(src, at, a) && Holds(src, at + |a|, b)
  {
    assert src[at..at + |a + b|][..|a|] == a;
    assert src[at..at + |a + b|][|a|..] == b;
  }

  lemma LengthRead(env: Env, src: seq<byte>, at: nat, payload: seq<byte>)
    requires |payload| <= 65533 && Holds(src, at, Length(|payload| + 2) + payload) && Readable(env, at + 1)
    ensures SegmentEnd(env, src, at) == Ok(at + 2 + |payload|)
    ensures src[at + 2..at + 2 + |payload|] == payload
  {
    HoldsPart(src, at, Length(|payload| + 2), payload);
    var n := |payload| + 2;
    assert src[at..at + 2] == Length(n);
  }

  lemma SegmentIsPiece(env: Env, src: seq<byte>, at: nat, p: Piece)
    requires WellFormed(p) && HasLength(p.code)
    requires var payload := at + p.fill + 4;
             payload + |p.payload| <= |src| && src[payload..payload + |p.payload|] == p.payload
    requires Readable(env, at + |PieceBytes(p)|)
    ensures |PieceBytes(p)| == p.fill + 4 + |p.payload|
    ensures SegmentReport(env, src, at, p.code, at + p.fill + 4, at + |PieceBytes(p)|) == PieceReport(env, at, p)
  {
    var payload := at + p.fill + 4;
    if p.code == APP1 && |p.payload| >= 6 {
      assert src[payload..payload + 6] == src[payload..payload + |p.payload|][..6] == p.payload[..6];
      assert src[payload + 6..payload + |p.payload|] == p.payload[6..];
    }
  }

  /** The scanner crosses one complete piece and keeps exactly what it contributes. */
  lemma ScanPiece(env: Env, src: seq<byte>, at: nat, visited: nat, p: Piece)
    requires WellFormed(p) && Holds(src, at, PieceBytes(p)) && Readable(env, at + |PieceBytes(p)|)
    requires visited + 1 <= env.maxSegments && PieceReport(env, at, p).failure.None?
    ensures Scan(env, src, at, visited)
            == Then(PieceReport(env, at, p), Scan(env, src, at + |PieceBytes(p)|, visited + 1))
  {
    hide Scan, MarkerAt, SegmentReport, PieceReport, Fill;
    var head := Fill(p.fill + 1) + [p.code];
    var body := if Standalone(p.code) then [] else Length(|p.payload| + 2) + p.payload;
    assert PieceBytes(p) == head + body;
    HoldsPart(src, at, head, body);
    MarkerFound(env, src, at, p.fill, p.code);
    if Standalone(p.code) {
      StandaloneReport(env, at, p);
      ScanStandalone(env, src, at, visited);
    } else {
      LengthRead(env, src, at + p.fill + 2, p.payload);
      SegmentIsPiece(env, src, at, p);
      ScanSegment(env, src, at, visited);
    }
  }

  lemma StandaloneReport(env: Env, at: nat, p: Piece)
    requires WellFormed(p) && Standalone(p.code)
    ensures PieceReport(env, at, p) == Nothing()
  {
  }

  /** Whatever follows: complete pieces are scanned first, and their results come first. */
  lemma {:induction false} ScanPieces(env: Env, src: seq<byte>, at: nat, visited: nat, ps: seq<Piece>)
    requires AllWellFormed(ps) && Holds(src, at, StreamBytes(ps)) && Readable(env, at + |StreamBytes(ps)|)
    requires visited + |ps| <= env.maxSegments && Accepted(env, at, ps)
    ensures Scan(env, src, at, visited)
            == Then(PiecesReport(env, at, ps), Scan(env, src, at + |StreamBytes(ps)|, visited + |ps|))
    decreases |ps|
  {
    hide Scan, PieceReport, PieceBytes;
    if ps != [] {
      var first := PieceBytes(ps[0]);
      HoldsPart(src, at, first, StreamBytes(ps[1..]));
      ScanPiece(env, src, at, visited, ps[0]);
      ScanPieces(env, src, at + |first|, visited + 1, ps[1..]);
      ThenAssociative(PieceReport(env, at, ps[0]), PiecesReport(env, at + |first|, ps[1..]),
                      Scan(env, src, at + |StreamBytes(ps)|, visited + |ps|));
    }
  }

  lemma {:induction false} PiecesRanges(env: Env, at: nat, ps: seq<Piece>)
    requires AllWellFormed(ps)
    ensures PiecesReport(env, at, ps).ranges == ExifRanges(at, ps) && PiecesReport(env, at, ps).failure.None?
    decreases |ps|
  {
    if ps != [] {
      PiecesRanges(env, at + |PieceBytes(ps[0])|, ps[1..]);
    }
  }

  /** `src` is a start marker, complete pieces, and then anything at all. */
  ghost predicate StartsWith(src: seq<byte>, ps: seq<Piece>) {
    AllWellFormed(ps) && Holds(src, 0, [PREFIX, SOI]) && Holds(src, 2, StreamBytes(ps))
  }

  /** Truncating or corrupting a stream after some complete segments keeps all their results, in order:
      TIFF sees their ranges first, and unless something unrelated to structure fails, their fields and
      issues lead the outcome. */
  lemma PrefixIsKept(env: Env, src: seq<byte>, ps: seq<Piece>)
    requires StartsWith(src, ps) && Readable(env, 2 + |StreamBytes(ps)|) && |ps| <= env.maxSegments
    requires Accepted(env, 2, ps)
    ensures ExifRanges(2, ps) <= ScanAll(env, src).ranges
    ensures var r := Conclude(ScanAll(env, src));
            r.Ok? ==>
              && PiecesReport(env, 2, ps).fields <= r.value.fields
              && PiecesReport(env, 2, ps).issues <= r.value.issues
  {
    hide Scan, PiecesReport, StreamBytes;
    assert src[0..2] == [PREFIX, SOI];
    ScanPieces(env, src, 2, 0, ps);
    PiecesRanges(env, 2, ps);
  }

  /** `src` is a start marker, complete pieces and a terminator, and then anything at all. */
  ghost predicate IsStream(src: seq<byte>, ps: seq<Piece>, fill: nat, terminator: byte) {
    && StartsWith(src, ps) && Terminator(terminator)
    && Holds(src, 2 + |StreamBytes(ps)|, Fill(fill + 1) + [terminator])
  }

  /** On every well-formed marker stream TIFF is handed exactly the Exif APP1 segments before the
      terminator, in order, and the outcome is exactly what TIFF makes of them. */
  lemma StreamIsScanned(env: Env, src: seq<byte>, ps: seq<Piece>, fill: nat, terminator: byte)
    requires IsStream(src, ps, fill, terminator) && Readable(env, |src|) && |ps| < env.maxSegments
    requires Accepted(env, 2, ps)
    ensures ScanAll(env, src) == PiecesReport(env, 2, ps)
    ensures ScanAll(env, src).ranges == ExifRanges(2, ps)
    ensures Conclude(ScanAll(env, src)) == Ok(Outcome(PiecesReport(env, 2, ps).fields, PiecesReport(env, 2, ps).issues))
  {
    hide Scan, PiecesReport, StreamBytes, Accepted;
    assert src[0..2] == [PREFIX, SOI];
    ScanPieces(env, src, 2, 0, ps);
    TerminatorEnds(env, src, 2 + |StreamBytes(ps)|, |ps|, fill, terminator);
    PiecesRanges(env, 2, ps);
  }

  lemma TerminatorEnds(env: Env, src: seq<byte>, at: nat, visited: nat, fill: nat, terminator: byte)
    requires Holds(src, at, Fill(fill + 1) + [terminator]) && Terminator(terminator)
    requires Readable(env, |src|) && visited < env.maxSegments
    ensures Scan(env, src, at, visited) == Nothing()
  {
    hide MarkerAt, Fill;
    MarkerFound(env, src, at, fill, terminator);
  }

  // ---------------------------------------------------------- converse

  lemma {:induction false} CodeAtSkips(env: Env, src: seq<byte>, cursor: nat)
    requires CodeAt(env, src, cursor).Ok?
    ensures forall i :: cursor <= i < CodeAt(env, src, cursor).value ==> src[i] == PREFIX
    decreases |src| - cursor
  {
    if cursor < |src| && src[cursor] == PREFIX {
      CodeAtSkips(env, src, cursor + 1);
    }
  }

  lemma MarkerAtSkips(env: Env, src: seq<byte>, cursor: nat)
    requires MarkerAt(env, src, cursor).Ok?
    ensures var at := MarkerAt(env, src, cursor).value; Holds(src, cursor, Fill(at - cursor) + [src[at]])
  {
    CodeAtSkips(env, src, cursor + 1);
    var at := MarkerAt(env, src, cursor).value;
    assert src[cursor..at + 1] == Fill(at - cursor) + [src[at]];
  }

  /** The piece at `cursor`, when there is a complete one. */
  function PieceAt(env: Env, src: seq<byte>, cursor: nat): Option<Piece> {
    match MarkerAt(env, src, cursor)
    case Err(_) => None
    case Ok(at) =>
      if Standalone(src[at]) then Some(Piece(at - cursor - 1, src[at], []))
      else if !HasLength(src[at]) || SegmentEnd(env, src, at + 1).Err? then None
      else Some(Piece(at - cursor - 1, src[at], src[at + 3..SegmentEnd(env, src, at + 1).value]))
  }

  lemma SegmentEndBytes(env: Env, src: seq<byte>, at: nat)
    requires SegmentEnd(env, src, at).Ok?
    ensures var end := SegmentEnd(env, src, at).value;
            end - at - 2 <= 65533 && Holds(src, at, Length(end - at) + src[at + 2..end])
  {
    var end := SegmentEnd(env, src, at).value;
    var n: nat := src[at] as int * 256 + src[at + 1] as int;
    assert src[at..at + 2] == [src[at], src[at + 1]];
    assert end == at + n;
    assert Length(n) == src[at..at + 2];
    assert src[at..end] == src[at..at + 2] + src[at + 2..end];
  }

  lemma PieceAtHolds(env: Env, src: seq<byte>, cursor: nat)
    requires PieceAt(env, src, cursor).Some?
    ensures var p := PieceAt(env, src, cursor).value; WellFormed(p) && Holds(src, cursor, PieceBytes(p))
  {
    hide SegmentEnd, MarkerAt, Length, Fill;
    MarkerAtSkips(env, src, cursor);
    var at := MarkerAt(env, src, cursor).value;
    var p := PieceAt(env, src, cursor).value;
    var head := Fill(at - cursor) + [src[at]];
    if Standalone(src[at]) {
      assert PieceBytes(p) == head;
    } else {
      SegmentEndBytes(env, src, at + 1);
      var end := SegmentEnd(env, src, at + 1).value;
      assert PieceBytes(p) == head + (Length(end - at - 1) + p.payload);
      HoldsJoin(src, cursor, head, Length(end - at - 1) + p.payload);
    }
  }

  lemma HoldsJoin(src: seq<byte>, at: nat, a: seq<byte>, b: seq<byte>)
    requires Holds(src, at, a) && Holds(src, at + |a|, b)
    ensures Holds(src, at, a + b)
  {
    assert src[at..at + |a| + |b|] == src[at..at + |a|] + src[at + |a|..at + |a| + |b|];
  }

  /** How a finished scan goes on: it ends here, or crosses a complete piece. */
  lemma FinishedStep(env: Env, src: seq<byte>, cursor: nat, visited: nat)
    requires Scan(env, src, cursor, visited).failure.None?
    ensures MarkerAt(env, src, cursor).Ok? && visited < env.maxSegments
    ensures Terminator(src[MarkerAt(env, src, cursor).value]) || PieceAt(env, src, cursor).Some?
    ensures PieceAt(env, src, cursor).Some? ==>
              var p := PieceAt(env, src, cursor).value;
              && WellFormed(p) && cursor + |PieceBytes(p)| <= |src|
              && Scan(env, src, cursor + |PieceBytes(p)|, visited + 1).failure.None?
  {
    hide SegmentReport, MarkerAt, SegmentEnd;
    if PieceAt(env, src, cursor).Some? {
      PieceAtHolds(env, src, cursor);
    }
  }

  /** A scan that finishes has crossed a well-formed stream. */
  lemma {:induction false} FinishedIsStream(env: Env, src: seq<byte>, cursor: nat, visited: nat)
    returns (ps: seq<Piece>, fill: nat, terminator: byte)
    requires Scan(env, src, cursor, visited).failure.None?
    ensures AllWellFormed(ps) && Holds(src, cursor, StreamBytes(ps)) && Terminator(terminator)
    ensures Holds(src, cursor + |StreamBytes(ps)|, Fill(fill + 1) + [terminator])
    ensures visited + |ps| < env.maxSegments
    decreases |src| - cursor
  {
    hide Scan, MarkerAt, SegmentEnd, PieceBytes, PieceAt;
    FinishedStep(env, src, cursor, visited);
    MarkerAtSkips(env, src, cursor);
    var at := MarkerAt(env, src, cursor).value;
    if PieceAt(env, src, cursor).Some? {
      var p := PieceAt(env, src, cursor).value;
      PieceAtHolds(env, src, cursor);
      var rest;
      rest, fill, terminator := FinishedIsStream(env, src, cursor + |PieceBytes(p)|, visited + 1);
      ps := [p] + rest;
      assert ps[1..] == rest;
      HoldsJoin(src, cursor, PieceBytes(p), StreamBytes(rest));
    } else {
      ps, fill, terminator := [], at - cursor - 1, src[at];
    }
  }

  ghost predicate HasStream(src: seq<byte>, most: nat) {
    exists ps, fill: nat, terminator: byte :: IsStream(src, ps, fill, terminator) && |ps| < most
  }

  /** With readable bytes and a TIFF parser that never fails the whole extraction, the scan ends without an
      issue of its own exactly on the well-formed marker streams within the segment limit. */
  lemma FinishesExactlyOnStreams(env: Env, src: seq<byte>)
    requires Readable(env, |src|)
    requires forall h, a, b :: var e := env.tiff(h, a, b).failure; e.None? || Structural(e.value)
    ensures ScanAll(env, src).failure.None? <==> HasStream(src, env.maxSegments)
  {
    hide Scan, StreamBytes;
    if ScanAll(env, src).failure.None? {
      var ps, fill, terminator := FinishedIsStream(env, src, 2, 0);
      assert IsStream(src, ps, fill, terminator);
    }
    if HasStream(src, env.maxSegments) {
      var ps, fill: nat, terminator: byte :| IsStream(src, ps, fill, terminator) && |ps| < env.maxSegments;
      AlwaysAccepted(env, 2, ps);
      StreamIsScanned(env, src, ps, fill, terminator);
      PiecesRanges(env, 2, ps);
    }
  }

  lemma {:induction false} AlwaysAccepted(env: Env, at: nat, ps: seq<Piece>)
    requires AllWellFormed(ps)
    requires forall h, a, b :: var e := env.tiff(h, a, b).failure; e.None? || Structural(e.value)
    ensures Accepted(env, at, ps)
    decreases |ps|
  {
    if ps != [] {
      AlwaysAccepted(env, at + |PieceBytes(ps[0])|, ps[1..]);
    }
  }

  // ------------------------------------------------- what broken files give

  /** The TIFF parser fails only for what is wrong with the bytes it was given. */
  ghost predicate OnlyMalformed(env: Env) {
    forall h, a, b ::
      var e := env.tiff(h, a, b).failure;
      e.None? || e.value.code in {InvalidStructure, OutOfBounds, CycleDetected, UnsupportedVersion}
  }

  /** How a scan that fails neither for the structure nor past the end goes on. */
  lemma FailedStep(env: Env, src: seq<byte>, cursor: nat, visited: nat)
    requires Readable(env, |src|) && OnlyMalformed(env) && visited <= env.maxSegments
    requires var e := Scan(env, src, cursor, visited).failure;
             e.Some? && e.value.code !in {InvalidStructure, OutOfBounds}
    ensures visited == env.maxSegments ==> Scan(env, src, cursor, visited).failure.value.code == LimitExceeded
    ensures visited < env.maxSegments ==>
              && PieceAt(env, src, cursor).Some?
              && var p := PieceAt(env, src, cursor).value;
                 && WellFormed(p) && cursor + |PieceBytes(p)| <= |src|
                 && Scan(env, src, cursor + |PieceBytes(p)|, visited + 1).failure
                    == Scan(env, src, cursor, visited).failure
  {
    hide MarkerAt;
    MarkerFails(env, src, cursor);
    if PieceAt(env, src, cursor).Some? {
      PieceAtHolds(env, src, cursor);
    }
  }

  lemma {:induction false} CodeFails(env: Env, src: seq<byte>, cursor: nat)
    requires Readable(env, |src|)
    ensures CodeAt(env, src, cursor).Err? ==> CodeAt(env, src, cursor).error.code in {InvalidStructure, OutOfBounds}
    decreases |src| - cursor
  {
    if cursor < |src| && src[cursor] == PREFIX {
      CodeFails(env, src, cursor + 1);
    }
  }

  lemma MarkerFails(env: Env, src: seq<byte>, cursor: nat)
    requires Readable(env, |src|)
    ensures MarkerAt(env, src, cursor).Err? ==> MarkerAt(env, src, cursor).error.code in {InvalidStructure, OutOfBounds}
  {
    CodeFails(env, src, cursor + 1);
  }

  lemma {:induction false} LimitIsReached(env: Env, src: seq<byte>, cursor: nat, visited: nat) returns (ps: seq<Piece>)
    requires Readable(env, |src|) && OnlyMalformed(env) && visited <= env.maxSegments
    requires var e := Scan(env, src, cursor, visited).failure;
             e.Some? && e.value.code !in {InvalidStructure, OutOfBounds}
    requires cursor <= |src|
    ensures Scan(env, src, cursor, visited).failure.value.code == LimitExceeded
    ensures AllWellFormed(ps) && Holds(src, cursor, StreamBytes(ps)) && visited + |ps| == env.maxSegments
    decreases |src| - cursor
  {
    hide Scan, MarkerAt, SegmentEnd, PieceBytes, PieceAt;
    FailedStep(env, src, cursor, visited);
    if visited == env.maxSegments {
      ps := [];
    } else {
      var p := PieceAt(env, src, cursor).value;
      PieceAtHolds(env, src, cursor);
      var rest := LimitIsReached(env, src, cursor + |PieceBytes(p)|, visited + 1);
      ps := [p] + rest;
      assert ps[1..] == rest;
      HoldsJoin(src, cursor, PieceBytes(p), StreamBytes(rest));
    }
  }

  /** A readable file never fails the extraction, however it is broken, unless it begins with as many complete segments
      as are allowed: what was found before the break is kept, and the break is one more issue. */
  lemma BrokenFileIsKept(env: Env, src: seq<byte>)
    requires Readable(env, |src|) && OnlyMalformed(env)
    ensures var r := Conclude(ScanAll(env, src));
            || (r.Ok? && r.value.fields == ScanAll(env, src).fields
                && r.value.issues == ScanAll(env, src).issues
                                     + match ScanAll(env, src).failure case None => [] case Some(e) => [e])
            || (r.Err? && r.error.code == LimitExceeded && exists ps :: StartsWith(src, ps) && |ps| == env.maxSegments)
  {
    hide Scan, StreamBytes;
    var e := ScanAll(env, src).failure;
    if e.Some? && e.value.code !in {InvalidStructure, OutOfBounds} {
      assert src[0..2] == [PREFIX, SOI];
      var ps := LimitIsReached(env, src, 2, 0);
      assert StartsWith(src, ps);
    }
  }

  /** A read that fails after some complete segments fails the whole extraction, and nothing is kept. */
  lemma UnreadableKeepsNothing(env: Env, src: seq<byte>, ps: seq<Piece>)
    requires StartsWith(src, ps) && Readable(env, 2 + |StreamBytes(ps)|) && |ps| <= env.maxSegments
    requires Accepted(env, 2, ps) && 2 + |StreamBytes(ps)| < |src| && env.faulty(2 + |StreamBytes(ps)|)
    ensures Conclude(ScanAll(env, src)) == Err(ParseError(Io, 2 + |StreamBytes(ps)|))
  {
    hide PiecesReport, StreamBytes, Accepted;
    assert src[0..2] == [PREFIX, SOI];
    ScanPieces(env, src, 2, 0, ps);
  }

  /** One segment more than allowed fails the whole extraction. */
  lemma TooManySegments(env: Env, src: seq<byte>, ps: seq<Piece>, fill: nat, code: byte)
    requires StartsWith(src, ps) && Readable(env, |src|) && |ps| == env.maxSegments && Accepted(env, 2, ps)
    requires Holds(src, 2 + |StreamBytes(ps)|, Fill(fill + 1) + [code]) && code != PREFIX && code != 0
    ensures Conclude(ScanAll(env, src)) == Err(ParseError(LimitExceeded, 2 + |StreamBytes(ps)|))
  {
    hide PiecesReport, StreamBytes, Accepted, MarkerAt;
    assert src[0..2] == [PREFIX, SOI];
    ScanPieces(env, src, 2, 0, ps);
    MarkerFound(env, src, 2 + |StreamBytes(ps)|, fill, code);
  }
}
