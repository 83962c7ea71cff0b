/** The bounded writer and the two-format encoder of the history export. JSON values other than the
    records themselves, and the hash, are arbitrary functions. */
module ExportEncoder {
  import opened Wrappers
  import opened Text
  import opened Csv
  import opened ExportDigest

  // -------------------------------------------------------- the writers

  /** What the file below does with one `write`: take at most so many bytes, be interrupted, or fail. */
  datatype WriteEvent = Takes(most: nat) | Interrupted | Fails

  datatype WriteError = Broken | Retry | LimitReached

  /** The file being written: a script of events, then plain writes. */
  class Sink {
    const events: seq<WriteEvent>
    var calls: nat
    var accepted: Bytes

    constructor (events: seq<WriteEvent>)
      ensures this.events == events && calls == 0 && accepted == []
    {
      this.events := events;
      calls := 0;
      accepted := [];
    }

    predicate Faultless() { forall e :: e in events ==> !e.Fails? && e != Takes(0) }

    method Write(buffer: Bytes) returns (r: Result<nat, WriteError>)
      modifies this
      ensures calls == old(calls) + 1
      ensures r.Ok? ==> r.value <= |buffer| && accepted == old(accepted) + buffer[..r.value]
      ensures r.Err? ==> accepted == old(accepted) && r.error in {Broken, Retry}
      ensures r == Err(Retry) ==> old(calls) < |events|
      ensures Faultless() && buffer != [] ==> r == Err(Retry) || (r.Ok? && r.value > 0)
    {
      var e := if calls < |events| then events[calls] else Takes(|buffer|);
      assert calls < |events| ==> e in events;
      calls := calls + 1;
      match e
      case Takes(most) =>
        var n := if most < |buffer| then most else |buffer|;
        accepted := accepted + buffer[..n];
        return Ok(n);
      case Interrupted => return Err(Retry);
      case Fails => return Err(Broken);
    }
  }

  class CountingWriter {
    const sink: Sink
    const limit: nat
    var written: nat
    var limitExceeded: bool

    constructor (sink: Sink, limit: nat)
      requires sink.accepted == []
      ensures this.sink == sink && this.limit == limit && written == 0 && !limitExceeded && Valid()
    {
      this.sink := sink;
      this.limit := limit;
      written := 0;
      limitExceeded := false;
    }

    /** The count is the number of bytes the file took, and never over the limit. */
    ghost predicate Valid()
      reads this, sink
    {
      written == |sink.accepted| <= limit
    }

    method Write(buffer: Bytes) returns (r: Result<nat, WriteError>)
      requires Valid()
      modifies this, sink
      ensures Valid() && sink.calls >= old(sink.calls)
      ensures r.Ok? ==> r.value <= |buffer| && sink.accepted == old(sink.accepted) + buffer[..r.value]
      ensures r.Err? ==> sink.accepted == old(sink.accepted)
      ensures r == Err(LimitReached) <==> old(written) + |buffer| > limit
      ensures limitExceeded == (old(limitExceeded) || r == Err(LimitReached))
      ensures r == Err(Retry) ==> old(sink.calls) < |sink.events| && sink.calls > old(sink.calls)
      ensures sink.Faultless() && buffer != [] ==> r in {Err(Retry), Err(LimitReached)} || (r.Ok? && r.value > 0)
    {
      if written + |buffer| > limit {
        limitExceeded := true;
        return Err(LimitReached);
      }
      r := sink.Write(buffer);
      if r.Ok? {
        written := written + r.value;
      }
    }

    /** `Write::write_all`: all bytes through any number of short and interrupted writes, or a prefix of them. */
    method WriteAll(bytes: Bytes) returns (ok: bool)
      requires Valid()
      modifies this, sink
      ensures Valid()
      ensures ok ==> sink.accepted == old(sink.accepted) + bytes && limitExceeded == old(limitExceeded)
      ensures !ok ==> old(sink.accepted) <= sink.accepted <= old(sink.accepted) + bytes
      ensures sink.Faultless() ==> (ok <==> old(written) + |bytes| <= limit)
      ensures sink.Faultless() && !ok ==> limitExceeded
    {
      var rest := bytes;
      while rest != []
        invariant Valid() && |rest| <= |bytes| && rest == bytes[|bytes| - |rest|..]
        invariant sink.accepted == old(sink.accepted) + bytes[..|bytes| - |rest|]
        invariant limitExceeded == old(limitExceeded)
        invariant sink.Faultless() && rest != bytes ==> old(written) + |bytes| <= limit
        decreases |rest|, |sink.events| - sink.calls
      {
        var r := Write(rest);
        match r
        case Ok(n) =>
          assert bytes[..|bytes| - |rest|] + rest[..n] == bytes[..|bytes| - |rest| + n];
          if n == 0 {
            return false;
          }
          rest := rest[n..];
        case Err(e) =>
          if e != Retry {
            return false;
          }
      }
      assert bytes[..|bytes|] == bytes;
      return true;
    }
  }

  lemma EscapedNext(value: Bytes, i: nat)
    requires i < |value|
    ensures Escaped(value[..i + 1])
            == Escaped(value[..i]) + if value[i] == QUOTE then [QUOTE, QUOTE] else [value[i]]
  {
    assert value[..i + 1][..i] == value[..i];
  }

  /** `write_csv_field`. */
  method WriteCsvField(w: CountingWriter, value: Bytes) returns (ok: bool)
    requires w.Valid()
    modifies w, w.sink
    ensures w.Valid()
    ensures ok ==> w.sink.accepted == old(w.sink.accepted) + FieldText(value)
    ensures w.sink.Faultless() ==> (ok <==> |old(w.sink.accepted)| + |FieldText(value)| <= w.limit)
    ensures w.sink.Faultless() && !ok ==> w.limitExceeded
  {
    var quoted := false;
    for i := 0 to |value|
      invariant quoted <==> exists j :: 0 <= j < i && Special(value[j])
    {
      quoted := quoted || Special(value[i]);
    }
    if !quoted {
      ok := w.WriteAll(value);
      return;
    }
    ok := WriteQuoted(w, value);
  }

  /** The field in quotes, with every quote in it doubled. */
  method WriteQuoted(w: CountingWriter, value: Bytes) returns (ok: bool)
    requires w.Valid()
    modifies w, w.sink
    ensures w.Valid()
    ensures ok ==> w.sink.accepted == old(w.sink.accepted) + ([QUOTE] + Escaped(value) + [QUOTE])
    ensures w.sink.Faultless() ==> (ok <==> |old(w.sink.accepted)| + |Escaped(value)| + 2 <= w.limit)
    ensures w.sink.Faultless() && !ok ==> w.limitExceeded
  {
    ghost var start := w.sink.accepted;
    ok := w.WriteAll([QUOTE]);
    if !ok {
      return;
    }
    assert value[..0] == [];
    assert Escaped(value[..0]) == [];
    hide Escaped;
    for i := 0 to |value|
      invariant w.Valid() && w.sink.accepted == start + ([QUOTE] + Escaped(value[..i]))
    {
      var text := if value[i] == QUOTE then [QUOTE, QUOTE] else [value[i]];
      EscapedNext(value, i);
      EscapedGrows(value, i + 1);
      ok := w.WriteAll(text);
      if !ok {
        return;
      }
    }
    assert value[..|value|] == value;
    ok := w.WriteAll([QUOTE]);
  }

  /** `write_csv_row`. */
  method WriteCsvRow(w: CountingWriter, fields: seq<Bytes>) returns (ok: bool)
    requires w.Valid()
    modifies w, w.sink
    ensures w.Valid()
    ensures ok ==> w.sink.accepted == old(w.sink.accepted) + RowText(fields)
    ensures w.sink.Faultless() ==> (ok <==> |old(w.sink.accepted)| + |RowText(fields)| <= w.limit)
    ensures w.sink.Faultless() && !ok ==> w.limitExceeded
  {
    hide FieldText;
    ghost var start := w.sink.accepted;
    for i := 0 to |fields|
      invariant w.Valid() && w.sink.accepted == start + FieldsText(fields[..i])
    {
      assert fields[..i + 1][..i] == fields[..i];
      assert FieldsText(fields[..i + 1])
             == if i == 0 then FieldText(fields[i]) else FieldsText(fields[..i]) + [COMMA] + FieldText(fields[i]);
      FieldsGrow(fields, i + 1);
      if i != 0 {
        ok := w.WriteAll([COMMA]);
        if !ok {
          return;
        }
      }
      ok := WriteCsvField(w, fields[i]);
      if !ok {
        return;
      }
    }
    assert fields[..|fields|] == fields;
    ok := w.WriteAll([CR, LF]);
  }

  // -------------------------------------------------------- the encoder

  datatype Format = Json | CsvRows

  /** `serde_json` on the manifest and the integrity object, and BLAKE3: arbitrary functions here. */
  datatype Rendering = Rendering(manifest: (Format, Scope, Projection) -> Bytes, integrity: (Bytes, nat) -> Bytes,
                                 hash: Bytes -> Bytes)

  datatype ExportError = StoreFailed | WriteFailed | OutputLimitExceeded

  datatype EncoderResult = EncoderResult(bytesWritten: nat, recordCount: nat, logicalDigest: string)

  const SCHEMA: string := "guiying.history_export.v1"

  function ProfileName(s: Scope, p: Projection): string { ScopeName(s) + "." + ProjectionName(p) }

  function HeaderRow(): seq<Bytes> {
    [Ascii("schema_version"), Ascii("profile"), Ascii("section"), Ascii("sequence"), Ascii("record_json")]
  }

  function Row(s: Scope, p: Projection, section: string, sequence: string, json: Bytes): seq<Bytes> {
    [Ascii(SCHEMA), Ascii(ProfileName(s, p)), Ascii(section), Ascii(sequence), json]
  }

  function RecordRow(s: Scope, p: Projection, i: nat, record: Bytes): seq<Bytes> {
    Row(s, p, "record", Decimal(i), record)
  }

  function RecordRows(s: Scope, p: Projection, records: seq<Bytes>): (rows: seq<seq<Bytes>>)
    ensures |rows| == |records| && forall i :: 0 <= i < |rows| ==> rows[i] == RecordRow(s, p, i, records[i])
  {
    seq(|records|, i requires 0 <= i < |records| => RecordRow(s, p, i, records[i]))
  }

  /** The records with commas between them. */
  function Joined(records: seq<Bytes>): Bytes {
    if records == [] then []
    else if |records| == 1 then records[0]
    else Joined(records[..|records| - 1]) + Ascii(",") + records[|records| - 1]
  }

  /** What the file holds after the manifest and some records. */
  function BodyText(f: Format, r: Rendering, s: Scope, p: Projection, records: seq<Bytes>): Bytes {
    var manifest := r.manifest(f, s, p);
    match f
    case Json => Ascii("{\"manifest\":") + manifest + Ascii(",\"records\":[") + Joined(records)
    case CsvRows => RowsText([HeaderRow(), Row(s, p, "manifest", "", manifest)] + RecordRows(s, p, records))
  }

  function Digest(r: Rendering, s: Scope, p: Projection, records: seq<Bytes>): string {
    HexOf(r.hash(DigestStream(s, p, records)))
  }

  /** What a finished export holds. */
  function ExportText(f: Format, r: Rendering, s: Scope, p: Projection, records: seq<Bytes>): Bytes {
    var integrity := r.integrity(Ascii(Digest(r, s, p, records)), |records|);
    match f
    case Json => BodyText(f, r, s, p, records) + Ascii("],\"integrity\":") + integrity + Ascii("}\n")
    case CsvRows => BodyText(f, r, s, p, records) + RowText(Row(s, p, "integrity", "", integrity))
  }

  class Encoder {
    const writer: CountingWriter
    const format: Format
    const rendering: Rendering
    const scope: Scope
    const projection: Projection
    const expectedRecords: nat
    var recordCount: nat
    var firstJsonRecord: bool
    /** The bytes fed to the hasher. */
    var hashed: Bytes
    /** The records written so far, in order. */
    ghost var records: seq<Bytes>

    ghost predicate Valid()
      reads this, writer, writer.sink
    {
      && writer.Valid()
      && recordCount == |records| <= expectedRecords
      && (firstJsonRecord <==> format.CsvRows? || records == [])
      && hashed == HeadStream(scope, projection, expectedRecords) + RecordStream(records)
      && writer.sink.accepted == BodyText(format, rendering, scope, projection, records)
    }

    constructor (writer: CountingWriter, format: Format, rendering: Rendering, scope: Scope, projection: Projection,
                 expectedRecords: nat)
      ensures this.writer == writer && this.format == format && this.rendering == rendering
      ensures this.scope == scope && this.projection == projection && this.expectedRecords == expectedRecords
      ensures recordCount == 0 && firstJsonRecord && records == []
              && hashed == HeadStream(scope, projection, expectedRecords)
    {
      this.writer := writer;
      this.format := format;
      this.rendering := rendering;
      this.scope := scope;
      this.projection := projection;
      this.expectedRecords := expectedRecords;
      recordCount := 0;
      firstJsonRecord := true;
      hashed := Ascii(DOMAIN);
      hashed := hashed + Prefixed(Ascii(ScopeName(scope)));
      hashed := hashed + Prefixed(Ascii(ProjectionName(projection)));
      hashed := hashed + Prefixed(LittleEndian(4, expectedRecords));
      records := [];
    }

    method WriteError() returns (e: ExportError)
      ensures e == if writer.limitExceeded then OutputLimitExceeded else WriteFailed
    {
      return if writer.limitExceeded then OutputLimitExceeded else WriteFailed;
    }

    /** `write_manifest`. */
    method WriteManifest() returns (r: Result<(), ExportError>)
      requires writer.Valid() && writer.sink.accepted == [] && recordCount == 0 && firstJsonRecord && records == []
      requires hashed == HeadStream(scope, projection, expectedRecords)
      modifies writer, writer.sink
      ensures writer.Valid() && (r.Ok? ==> Valid())
      // with a working file: exactly if it fits
      ensures writer.sink.Faultless() ==>
                r == if |BodyText(format, rendering, scope, projection, [])| <= writer.limit then Ok(())
                     else Err(OutputLimitExceeded)
    {
      hide RowText, Ascii, HeadStream;
      var manifest := rendering.manifest(format, scope, projection);
      var ok: bool;
      if format.Json? {
        ok := writer.WriteAll(Ascii("{\"manifest\":"));
        if ok {
          ok := writer.WriteAll(manifest);
        }
        if ok {
          ok := writer.WriteAll(Ascii(",\"records\":["));
        }
      } else {
        ok := WriteCsvRow(writer, HeaderRow());
        if ok {
          ok := WriteCsvRow(writer, Row(scope, projection, "manifest", "", manifest));
        }
        TwoRows(HeaderRow(), Row(scope, projection, "manifest", "", manifest));
        assert [HeaderRow(), Row(scope, projection, "manifest", "", manifest)] + RecordRows(scope, projection, [])
               == [HeaderRow(), Row(scope, projection, "manifest", "", manifest)];
      }
      if !ok {
        var e := WriteError();
        return Err(e);
      }
      return Ok(());
    }

    /** `write_record`. */
    method WriteRecord(record: Bytes) returns (r: Result<(), ExportError>)
      requires Valid()
      modifies this, writer, writer.sink
      ensures writer.Valid()
      ensures r.Ok? ==> Valid() && records == old(records) + [record]
      ensures r == Err(StoreFailed) <==> old(recordCount) == expectedRecords
      ensures r == Err(StoreFailed) ==> Valid() && records == old(records)
      ensures writer.sink.Faultless() && old(recordCount) < expectedRecords ==>
                r == if |BodyText(format, rendering, scope, projection, old(records) + [record])| <= writer.limit
                     then Ok(()) else Err(OutputLimitExceeded)
    {
      hide BodyText, HeadStream, RecordStream, Prefixed, RowText, RecordRow, Ascii;
      if recordCount >= expectedRecords {
        return Err(StoreFailed);
      }
      StreamNext(records, record);
      hashed := hashed + Prefixed(record);
      var ok := WriteBody(record);
      if !ok {
        var e := WriteError();
        return Err(e);
      }
      records := records + [record];
      recordCount := recordCount + 1;
      return Ok(());
    }

    /** The record itself: after a comma unless it is the first, or as a row with its number. */
    method WriteBody(record: Bytes) returns (ok: bool)
      requires writer.Valid() && recordCount == |records| && (firstJsonRecord <==> format.CsvRows? || records == [])
      requires writer.sink.accepted == BodyText(format, rendering, scope, projection, records)
      modifies this`firstJsonRecord, writer, writer.sink
      ensures writer.Valid()
      ensures ok ==> firstJsonRecord == format.CsvRows?
                     && writer.sink.accepted == BodyText(format, rendering, scope, projection, records + [record])
      ensures writer.sink.Faultless() ==>
                (ok <==> |BodyText(format, rendering, scope, projection, records + [record])| <= writer.limit)
      ensures writer.sink.Faultless() && !ok ==> writer.limitExceeded
    {
      hide BodyText, RowText, RecordRow, Ascii;
      NextRecord(format, rendering, scope, projection, records, record);
      ok := true;
      if format.Json? {
        if !firstJsonRecord {
          ok := writer.WriteAll(Ascii(","));
        }
        if ok {
          firstJsonRecord := false;
          ok := writer.WriteAll(record);
        }
      } else {
        ok := WriteCsvRow(writer, RecordRow(scope, projection, recordCount, record));
      }
    }

    /** `finish`: only with every expected record, and then the file holds the whole export. */
    method Finish() returns (r: Result<EncoderResult, ExportError>)
      requires Valid()
      modifies this, writer, writer.sink
      ensures writer.Valid()
      ensures r == Err(StoreFailed) <==> old(recordCount) != expectedRecords
      ensures r.Ok? ==> && records == old(records) && |records| == expectedRecords
                        && writer.sink.accepted == ExportText(format, rendering, scope, projection, records)
                        && r.value == EncoderResult(|writer.sink.accepted|, |records|,
                                                    Digest(rendering, scope, projection, records))
                        && r.value.bytesWritten <= writer.limit
      ensures writer.sink.Faultless() && r != Err(StoreFailed) ==>
                if |ExportText(format, rendering, scope, projection, old(records))| <= writer.limit then r.Ok?
                else r == Err(OutputLimitExceeded)
    {
      hide BodyText, HeadStream, RecordStream, Prefixed, RowText, Ascii;
      if recordCount != expectedRecords {
        return Err(StoreFailed);
      }
      hashed := hashed + Prefixed(LittleEndian(4, recordCount));
      assert hashed == DigestStream(scope, projection, records);
      var digest := HexOf(rendering.hash(hashed));
      var integrity := rendering.integrity(Ascii(digest), recordCount);
      var ok: bool;
      if format.Json? {
        ok := writer.WriteAll(Ascii("],\"integrity\":"));
        if ok {
          ok := writer.WriteAll(integrity);
        }
        if ok {
          ok := writer.WriteAll(Ascii("}\n"));
        }
      } else {
        ok := WriteCsvRow(writer, Row(scope, projection, "integrity", "", integrity));
      }
      if !ok {
        var e := WriteError();
        return Err(e);
      }
      return Ok(EncoderResult(writer.written, recordCount, digest));
    }
  }

  lemma StreamNext(records: seq<Bytes>, record: Bytes)
    ensures RecordStream(records + [record]) == RecordStream(records) + Prefixed(record)
  {
    hide Prefixed;
    assert (records + [record])[..|records|] == records;
  }

  lemma TwoRows(a: seq<Bytes>, b: seq<Bytes>)
    ensures RowsText([a, b]) == RowText(a) + RowText(b)
  {
    RowsAppend([], a);
    RowsAppend([a], b);
    hide RowText;
    assert [] + [a] == [a] && [a] + [b] == [a, b];
  }

  lemma NextRecord(f: Format, r: Rendering, s: Scope, p: Projection, records: seq<Bytes>, record: Bytes)
    ensures BodyText(f, r, s, p, records + [record]) ==
              if f.CsvRows? then BodyText(f, r, s, p, records) + RowText(RecordRow(s, p, |records|, record))
              else if records == [] then BodyText(f, r, s, p, records) + record
              else BodyText(f, r, s, p, records) + Ascii(",") + record
  {
    hide BodyText, RowText, Ascii, RecordRow;
    if f.Json? {
      assert f == Json;
      NextJson(r, s, p, records, record);
    } else {
      assert f == CsvRows;
      NextCsv(r, s, p, records, record);
    }
  }

  function JsonHead(r: Rendering, s: Scope, p: Projection): Bytes {
    Ascii("{\"manifest\":") + r.manifest(Json, s, p) + Ascii(",\"records\":[")
  }

  lemma NextJson(r: Rendering, s: Scope, p: Projection, records: seq<Bytes>, record: Bytes)
    ensures BodyText(Json, r, s, p, records + [record]) ==
              if records == [] then BodyText(Json, r, s, p, records) + record
              else BodyText(Json, r, s, p, records) + Ascii(",") + record
  {
    hide Ascii, Joined;
    var head, next := JsonHead(r, s, p), records + [record];
    assert BodyText(Json, r, s, p, next) == head + Joined(next);
    assert BodyText(Json, r, s, p, records) == head + Joined(records);
    hide BodyText, JsonHead;
    JoinedNext(records, record);
    assert head + [] + record == head + record;
    assert head + (Joined(records) + Ascii(",") + record) == head + Joined(records) + Ascii(",") + record;
  }

  lemma NextCsv(r: Rendering, s: Scope, p: Projection, records: seq<Bytes>, record: Bytes)
    ensures BodyText(CsvRows, r, s, p, records + [record])
            == BodyText(CsvRows, r, s, p, records) + RowText(RecordRow(s, p, |records|, record))
  {
    hide RowText, RowsText, Ascii, HeaderRow, Row, RecordRow;
    var front := [HeaderRow(), Row(s, p, "manifest", "", r.manifest(CsvRows, s, p))];
    var rows, next := RecordRows(s, p, records), RecordRows(s, p, records + [record]);
    var row := RecordRow(s, p, |records|, record);
    assert next == rows + [row];
    assert front + next == (front + rows) + [row];
    RowsAppend(front + rows, row);
  }

  lemma JoinedNext(records: seq<Bytes>, record: Bytes)
    ensures Joined([]) == []
    ensures Joined(records + [record]) == if records == [] then record else Joined(records) + Ascii(",") + record
  {
    hide Ascii;
    assert (records + [record])[..|records|] == records;
    assert records == [] ==> records + [record] == [record];
  }

  lemma RowsAppend(rows: seq<seq<Bytes>>, row: seq<Bytes>)
    ensures RowsText(rows + [row]) == RowsText(rows) + RowText(row)
  {
    hide RowText;
    assert (rows + [row])[..|rows|] == rows;
  }

  lemma RowNotEmpty(s: Scope, p: Projection, i: nat, record: Bytes)
    ensures RecordRow(s, p, i, record) != []
  {
  }

  lemma HeaderNotEmpty()
    ensures HeaderRow() != [] && HeaderRow() == [Ascii("schema_version"), Ascii("profile"), Ascii("section"),
                                                 Ascii("sequence"), Ascii("record_json")]
  {
  }

  lemma FinishedIsLonger(f: Format, r: Rendering, s: Scope, p: Projection, records: seq<Bytes>)
    ensures |BodyText(f, r, s, p, records)| < |ExportText(f, r, s, p, records)|
  {
    hide BodyText, FieldsText, Row, Digest;
  }

  /** A file with fewer records is no longer, and a finished file is longer still. */
  lemma {:induction false} BodyGrows(f: Format, r: Rendering, s: Scope, p: Projection, records: seq<Bytes>, i: nat)
    requires i <= |records|
    ensures |BodyText(f, r, s, p, records[..i])| <= |BodyText(f, r, s, p, records)| < |ExportText(f, r, s, p, records)|
  {
    hide BodyText, ExportText;
    FinishedIsLonger(f, r, s, p, records);
    if i < |records| {
      var n := |records| - 1;
      BodyGrows(f, r, s, p, records[..n], i);
      NextRecord(f, r, s, p, records[..n], records[n]);
      assert records[..n] + [records[n]] == records && records[..n][..i] == records[..i];
    } else {
      assert records[..i] == records;
    }
  }

  /** The row belongs to this kind of export and holds this text, with its section and number. */
  predicate Says(row: seq<Bytes>, s: Scope, p: Projection, section: string, sequence: string, json: Bytes) {
    && |row| == 5 && row[0] == Ascii("guiying.history_export.v1")
    && row[1] == Ascii(ScopeName(s) + "." + ProjectionName(p))
    && row[2] == Ascii(section) && row[3] == Ascii(sequence) && row[4] == json
  }

  lemma RowSays(s: Scope, p: Projection, section: string, sequence: string, json: Bytes)
    ensures Says(Row(s, p, section, sequence, json), s, p, section, sequence, json)
  {
    hide Ascii;
  }

  lemma RecordSays(s: Scope, p: Projection, i: nat, record: Bytes)
    ensures Says(RecordRow(s, p, i, record), s, p, "record", Decimal(i), record)
  {
    RowSays(s, p, "record", Decimal(i), record);
    hide Says, Row;
  }

  // ------------------------------------------------------------- as JSON

  /** An array of values, and an object of named values, as RFC 8259 writes them without spaces. */
  function Elements(values: seq<Bytes>): Bytes {
    if values == [] then [] else values[0] + if |values| == 1 then [] else Ascii(",") + Elements(values[1..])
  }

  function ArrayText(values: seq<Bytes>): Bytes { Ascii("[") + Elements(values) + Ascii("]") }

  function ObjectText(members: seq<(string, Bytes)>): Bytes {
    Ascii("{") + Elements(seq(|members|, i requires 0 <= i < |members| => MemberText(members[i]))) + Ascii("}")
  }

  function MemberText(member: (string, Bytes)): Bytes { Ascii("\"") + Ascii(member.0) + Ascii("\":") + member.1 }

  lemma {:induction false} JoinedIsElements(records: seq<Bytes>)
    ensures Elements(records) == Joined(records)
  {
    hide Ascii;
    if |records| > 1 {
      ElementsNext(records[..|records| - 1], records[|records| - 1]);
      JoinedIsElements(records[..|records| - 1]);
      assert records == records[..|records| - 1] + [records[|records| - 1]];
    }
  }

  lemma {:induction false} ElementsNext(records: seq<Bytes>, record: Bytes)
    requires records != []
    ensures Elements(records + [record]) == Elements(records) + Ascii(",") + record
  {
    hide Ascii;
    var all := records + [record];
    if |records| > 1 {
      ElementsNext(records[1..], record);
      assert all[1..] == records[1..] + [record];
      assert Elements(all) == records[0] + (Ascii(",") + Elements(all[1..]));
      assert Elements(records) == records[0] + (Ascii(",") + Elements(records[1..]));
    } else {
      assert all[1..] == [record];
    }
  }

  lemma AsciiJoins(a: string, b: string)
    ensures Ascii(a + b) == Ascii(a) + Ascii(b)
  {
  }

  lemma ThreeMembers(a: Bytes, b: Bytes, c: Bytes)
    ensures Elements([a, b, c]) == a + Ascii(",") + b + Ascii(",") + c
  {
    hide Ascii;
    assert [a, b, c][1..] == [b, c] && [b, c][1..] == [c];
    assert c + [] == c;
    assert Elements([b, c]) == b + (Ascii(",") + c);
    assert Elements([a, b, c]) == a + (Ascii(",") + Elements([b, c]));
    assert b + (Ascii(",") + c) == b + Ascii(",") + c;
    assert a + (Ascii(",") + (b + Ascii(",") + c)) == a + Ascii(",") + b + Ascii(",") + c;
  }

  /** A finished JSON export is one object: the manifest, the array of the records in order, and the integrity
      object. */
  lemma JsonIsDocument(r: Rendering, s: Scope, p: Projection, records: seq<Bytes>)
    ensures ExportText(Json, r, s, p, records)
            == ObjectText([("manifest", r.manifest(Json, s, p)), ("records", ArrayText(records)),
                           ("integrity", r.integrity(Ascii(Digest(r, s, p, records)), |records|))]) + Ascii("\n")
  {
    var integrity := r.integrity(Ascii(Digest(r, s, p, records)), |records|);
    var members := [("manifest", r.manifest(Json, s, p)), ("records", ArrayText(records)), ("integrity", integrity)];
    JoinedIsElements(records);
    ThreeMembers(MemberText(members[0]), MemberText(members[1]), MemberText(members[2]));
    assert seq(3, i requires 0 <= i < 3 => MemberText(members[i]))
        == [MemberText(members[0]), MemberText(members[1]), MemberText(members[2])];
    Punctuation();
    hide Ascii, Joined, Elements, Digest;
    var quote, colon, comma := Ascii("\""), Ascii("\":"), Ascii(",");
    Assemble(Ascii("{"), MemberText(members[0]), comma, MemberText(members[1]), MemberText(members[2]), Ascii("}"),
             Ascii("\n"));
    OneMember(Ascii("{"), quote, Ascii("manifest"), colon, members[0].1);
    OneMember(comma, quote, Ascii("records"), colon, members[1].1);
    OneMember(comma, quote, Ascii("integrity"), colon, integrity);
    InBrackets(comma + quote + Ascii("records") + colon, Ascii("["), Joined(records), Ascii("]"),
               comma + quote + Ascii("integrity") + colon, integrity, JsonHeadText(r, s, p), Ascii("}") + Ascii("\n"));
    OneMember(Ascii("]"), comma, quote, Ascii("integrity"), colon);
  }

  function JsonHeadText(r: Rendering, s: Scope, p: Projection): Bytes {
    Ascii("{\"manifest\":") + r.manifest(Json, s, p)
  }

  lemma OneMember(before: Bytes, quote: Bytes, name: Bytes, colon: Bytes, value: Bytes)
    ensures before + (quote + name + colon + value) == (before + quote + name + colon) + value
  {
  }

  lemma Assemble(open: Bytes, a: Bytes, comma: Bytes, b: Bytes, c: Bytes, close: Bytes, end: Bytes)
    ensures open + (a + comma + b + comma + c) + close + end
            == (open + a) + (comma + b) + (comma + c) + (close + end)
  {
  }

  lemma InBrackets(name: Bytes, left: Bytes, inner: Bytes, right: Bytes, next: Bytes, value: Bytes, head: Bytes,
                   end: Bytes)
    ensures head + (name + (left + inner + right)) + (next + value) + end
            == head + (name + left) + inner + (right + next) + value + end
  {
  }

  lemma Punctuation()
    ensures Ascii("{\"manifest\":") == Ascii("{") + Ascii("\"") + Ascii("manifest") + Ascii("\":")
    ensures Ascii(",\"records\":[") == Ascii(",") + Ascii("\"") + Ascii("records") + Ascii("\":") + Ascii("[")
    ensures Ascii("],\"integrity\":") == Ascii("]") + Ascii(",") + Ascii("\"") + Ascii("integrity") + Ascii("\":")
    ensures Ascii("}\n") == Ascii("}") + Ascii("\n")
  {
  }

  /** Reading a finished CSV export back by RFC 4180 gives one row for each record, in order, each with the
      exact bytes of its record and its own number. */
  lemma RecordsReadBack(r: Rendering, s: Scope, p: Projection, records: seq<Bytes>)
    ensures var rows := ReadFile(ExportText(CsvRows, r, s, p, records));
            && rows.Some? && |rows.value| == |records| + 3
            && rows.value[0] == [Ascii("schema_version"), Ascii("profile"), Ascii("section"), Ascii("sequence"),
                                 Ascii("record_json")]
            && Says(rows.value[1], s, p, "manifest", "", r.manifest(CsvRows, s, p))
            && (forall i :: 0 <= i < |records| ==> Says(rows.value[i + 2], s, p, "record", Decimal(i), records[i]))
            && Says(rows.value[|records| + 2], s, p, "integrity", "",
                    r.integrity(Ascii(Digest(r, s, p, records)), |records|))
  {
    hide RowText, RowsText, ReadFile, Ascii, Digest, HeaderRow, RecordRow;
    var integrity := Row(s, p, "integrity", "", r.integrity(Ascii(Digest(r, s, p, records)), |records|));
    var front := [HeaderRow(), Row(s, p, "manifest", "", r.manifest(CsvRows, s, p))] + RecordRows(s, p, records);
    var all := front + [integrity];
    RowsAppend(front, integrity);
    forall i | 0 <= i < |all|
      ensures all[i] != []
    {
      if 2 <= i < |front| {
        RowNotEmpty(s, p, i - 2, records[i - 2]);
      } else {
        HeaderNotEmpty();
      }
    }
    RowsReadBack(all);
    HeaderNotEmpty();
    forall i | 0 <= i < |records|
      ensures Says(all[i + 2], s, p, "record", Decimal(i), records[i])
    {
      assert all[i + 2] == RecordRows(s, p, records)[i];
      RecordSays(s, p, i, records[i]);
    }
    RowSays(s, p, "manifest", "", r.manifest(CsvRows, s, p));
    RowSays(s, p, "integrity", "", r.integrity(Ascii(Digest(r, s, p, records)), |records|));
  }
}
