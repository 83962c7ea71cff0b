/** The CSV printer of the history export, and a reader for section 2 of RFC 4180 to check it against. */
module Csv {
  import opened Wrappers
  import opened Text

  type Bytes = seq<byte>

  const COMMA: byte := 0x2c
  const QUOTE: byte := 0x22
  const CR: byte := 0x0d
  const LF: byte := 0x0a

  predicate Special(b: byte) { b == COMMA || b == QUOTE || b == CR || b == LF }

  predicate NeedsQuotes(value: Bytes) { exists i :: 0 <= i < |value| && Special(value[i]) }

  // ----------------------------------------------------- what is printed

  function Escaped(value: Bytes): Bytes {
    if value == [] then []
    else Escaped(value[..|value| - 1]) + if value[|value| - 1] == QUOTE then [QUOTE, QUOTE] else [value[|value| - 1]]
  }

  function FieldText(value: Bytes): Bytes {
    if NeedsQuotes(value) then [QUOTE] + Escaped(value) + [QUOTE] else value
  }

  /** The fields with commas between them. */
  function FieldsText(fields: seq<Bytes>): Bytes {
    if fields == [] then []
    else if |fields| == 1 then FieldText(fields[0])
    else FieldsText(fields[..|fields| - 1]) + [COMMA] + FieldText(fields[|fields| - 1])
  }

  function RowText(fields: seq<Bytes>): Bytes { FieldsText(fields) + [CR, LF] }

  function RowsText(rows: seq<seq<Bytes>>): Bytes {
    if rows == [] then [] else RowsText(rows[..|rows| - 1]) + RowText(rows[|rows| - 1])
  }

  /** Printing more of a field, or more fields of a row, takes at least as many bytes. */
  lemma {:induction false} EscapedGrows(value: Bytes, i: nat)
    requires i <= |value|
    ensures |Escaped(value[..i])| <= |Escaped(value)|
  {
    if i < |value| {
      EscapedGrows(value[..|value| - 1], i);
      assert value[..|value| - 1][..i] == value[..i];
    } else {
      assert value[..i] == value;
    }
  }

  lemma {:induction false} FieldsGrow(fields: seq<Bytes>, i: nat)
    requires i <= |fields|
    ensures |FieldsText(fields[..i])| <= |FieldsText(fields)|
  {
    hide FieldText;
    if i < |fields| {
      if |fields| > 1 {
        FieldsGrow(fields[..|fields| - 1], i);
      }
      assert fields[..|fields| - 1][..i] == fields[..i];
    } else {
      assert fields[..i] == fields;
    }
  }

  // ------------------------------------------- section 2 of RFC 4180

  /** `escaped`, after its opening quote: the field and what follows the closing quote. */
  function ReadQuoted(s: Bytes): Option<(Bytes, Bytes)>
    decreases |s|
  {
    if s == [] then None
    else if s[0] != QUOTE then
      var rest := ReadQuoted(s[1..]);
      if rest.None? then None else Some(([s[0]] + rest.value.0, rest.value.1))
    else if |s| >= 2 && s[1] == QUOTE then
      var rest := ReadQuoted(s[2..]);
      if rest.None? then None else Some(([QUOTE] + rest.value.0, rest.value.1))
    else Some(([], s[1..]))
  }

  /** `non-escaped`: text up to the next comma, quote, carriage return or line feed. */
  function ReadPlain(s: Bytes): (Bytes, Bytes)
    decreases |s|
  {
    if s == [] || Special(s[0]) then ([], s)
    else var rest := ReadPlain(s[1..]); ([s[0]] + rest.0, rest.1)
  }

  function ReadField(s: Bytes): (r: Option<(Bytes, Bytes)>)
  {
    if s != [] && s[0] == QUOTE then ReadQuoted(s[1..]) else Some(ReadPlain(s))
  }

  lemma {:induction false} ReadQuotedShrinks(s: Bytes)
    ensures ReadQuoted(s).Some? ==> |ReadQuoted(s).value.1| < |s|
    decreases |s|
  {
    if s != [] {
      if s[0] != QUOTE {
        ReadQuotedShrinks(s[1..]);
      } else if |s| >= 2 && s[1] == QUOTE {
        ReadQuotedShrinks(s[2..]);
      }
    }
  }

  lemma {:induction false} ReadPlainShrinks(s: Bytes)
    ensures |ReadPlain(s).1| <= |s|
    decreases |s|
  {
    if s != [] && !Special(s[0]) {
      ReadPlainShrinks(s[1..]);
    }
  }

  lemma ReadFieldShrinks(s: Bytes)
    ensures ReadField(s).Some? ==> |ReadField(s).value.1| <= |s|
  {
    ReadPlainShrinks(s);
    if s != [] {
      ReadQuotedShrinks(s[1..]);
    }
  }

  /** `record`: fields separated by commas, ended by a line break or the end of the file. */
  function ReadRecord(s: Bytes): Option<(seq<Bytes>, Bytes)>
    decreases |s|
  {
    ReadFieldShrinks(s);
    match ReadField(s)
    case None => None
    case Some((field, after)) =>
      if after == [] then Some(([field], []))
      else if after[0] == COMMA then
        var rest := ReadRecord(after[1..]);
        if rest.None? then None else Some(([field] + rest.value.0, rest.value.1))
      else if |after| >= 2 && after[0] == CR && after[1] == LF then Some(([field], after[2..]))
      else None
  }

  lemma {:induction false} ReadRecordShrinks(s: Bytes)
    ensures ReadRecord(s).Some? && s != [] ==> |ReadRecord(s).value.1| < |s|
    ensures ReadRecord(s).Some? ==> |ReadRecord(s).value.1| <= |s|
    decreases |s|
  {
    ReadFieldShrinks(s);
    var field := ReadField(s);
    if field.Some? && field.value.1 != [] && field.value.1[0] == COMMA {
      ReadRecordShrinks(field.value.1[1..]);
    }
  }

  /** `file`: records, the last of which may or may not end in a line break. */
  function ReadFile(s: Bytes): Option<seq<seq<Bytes>>>
    decreases |s|
  {
    if s == [] then Some([])
    else
      ReadRecordShrinks(s);
      match ReadRecord(s)
      case None => None
      case Some((record, after)) =>
        var rest := ReadFile(after);
        if rest.None? then None else Some([record] + rest.value)
  }

  // ---------------------------------------------------------- round trip

  /** Reads on as if the front had not been there. */
  lemma {:induction false} QuotedFront(value: Bytes, tail: Bytes)
    ensures ReadQuoted(Escaped(value) + tail) ==
              match ReadQuoted(tail)
              case None => None
              case Some((v, rest)) => Some((value + v, rest))
    decreases |value|
  {
    if value == [] {
      assert Escaped(value) + tail == tail;
      assert forall v: Bytes :: value + v == v;
    } else {
      var init, last := value[..|value| - 1], value[|value| - 1];
      var mark := if last == QUOTE then [QUOTE, QUOTE] else [last];
      assert Escaped(value) + tail == Escaped(init) + (mark + tail);
      QuotedFront(init, mark + tail);
      assert (mark + tail)[|mark|..] == tail;
      assert value == init + [last];
      assert forall v: Bytes :: init + ([last] + v) == value + v;
    }
  }

  lemma {:induction false} PlainFront(value: Bytes, tail: Bytes)
    requires !NeedsQuotes(value) && (tail == [] || Special(tail[0]))
    ensures ReadPlain(value + tail) == (value, tail)
    decreases |value|
  {
    if value == [] {
      assert value + tail == tail;
    } else {
      assert !Special(value[0]);
      PlainFront(value[1..], tail);
      assert (value + tail)[1..] == value[1..] + tail;
      assert [value[0]] + value[1..] == value;
    }
  }

  /** A printed field, up to a separator, reads back as the field. */
  lemma FieldReadsBack(value: Bytes, tail: Bytes)
    requires tail != [] && (tail[0] == COMMA || tail[0] == CR)
    ensures ReadField(FieldText(value) + tail) == Some((value, tail))
  {
    if NeedsQuotes(value) {
      QuotedFront(value, [QUOTE] + tail);
      assert (FieldText(value) + tail)[1..] == Escaped(value) + ([QUOTE] + tail);
      assert ([QUOTE] + tail)[1..] == tail;
      assert value + [] == value;
    } else {
      PlainFront(value, tail);
      if value != [] {
        assert !Special(value[0]);
      }
    }
  }

  lemma {:induction false} FieldsFromFront(fields: seq<Bytes>)
    requires |fields| >= 2
    ensures FieldsText(fields) == FieldText(fields[0]) + [COMMA] + FieldsText(fields[1..])
    decreases |fields|
  {
    var n := |fields| - 1;
    assert fields[1..][|fields[1..]| - 1] == fields[n];
    if |fields| == 2 {
      assert fields[..1] == [fields[0]] && fields[1..] == [fields[1]];
    } else {
      FieldsFromFront(fields[..n]);
      assert fields[..n][1..] == fields[1..][..n - 1];
    }
  }

  lemma RowFromFront(fields: seq<Bytes>)
    requires fields != []
    ensures RowText(fields) == if |fields| == 1 then FieldText(fields[0]) + [CR, LF]
                               else FieldText(fields[0]) + [COMMA] + RowText(fields[1..])
  {
    hide FieldText;
    if |fields| > 1 {
      FieldsFromFront(fields);
    }
  }

  /** How a record goes on after its first field. */
  lemma RecordStep(s: Bytes, field: Bytes, after: Bytes)
    requires ReadField(s) == Some((field, after)) && after != []
    ensures after[0] == COMMA ==>
              ReadRecord(s) == match ReadRecord(after[1..])
                               case None => None
                               case Some((more, rest)) => Some(([field] + more, rest))
    ensures |after| >= 2 && after[..2] == [CR, LF] ==> ReadRecord(s) == Some(([field], after[2..]))
  {
    hide ReadField;
    assert |after| >= 2 ==> after[..2][0] == after[0] && after[..2][1] == after[1];
  }

  /** A printed row reads back as its fields, whatever follows it. */
  lemma {:induction false} RowReadsBack(fields: seq<Bytes>, tail: Bytes)
    requires fields != []
    ensures ReadRecord(RowText(fields) + tail) == Some((fields, tail))
    decreases |fields|
  {
    hide ReadField, FieldText, RowText, ReadRecord;
    var first := fields[0];
    RowFromFront(fields);
    if |fields| == 1 {
      var after := [CR, LF] + tail;
      FieldReadsBack(first, after);
      assert RowText(fields) + tail == FieldText(first) + after;
      RecordStep(RowText(fields) + tail, first, after);
      assert after[2..] == tail && fields == [first];
    } else {
      var rest := RowText(fields[1..]) + tail;
      RowReadsBack(fields[1..], tail);
      FieldReadsBack(first, [COMMA] + rest);
      assert RowText(fields) + tail == FieldText(first) + ([COMMA] + rest);
      RecordStep(RowText(fields) + tail, first, [COMMA] + rest);
      assert ([COMMA] + rest)[1..] == rest;
      assert fields == [first] + fields[1..];
    }
  }

  lemma {:induction false} RowsFromFront(rows: seq<seq<Bytes>>)
    requires rows != []
    ensures RowsText(rows) == RowText(rows[0]) + RowsText(rows[1..])
    decreases |rows|
  {
    hide RowText;
    var n := |rows| - 1;
    if n == 0 {
      assert rows[..0] == [] && rows[1..] == [];
    } else {
      var init := rows[..n];
      RowsFromFront(init);
      assert init[1..] == rows[1..][..n - 1];
      assert rows[1..][n - 1] == rows[n];
      assert RowsText(rows[1..]) == RowsText(init[1..]) + RowText(rows[n]);
      assert RowText(rows[0]) + RowsText(init[1..]) + RowText(rows[n])
             == RowText(rows[0]) + (RowsText(init[1..]) + RowText(rows[n]));
    }
  }

  /** Reading back a printed file by section 2 of RFC 4180 gives exactly the rows, for any bytes in any field. */
  lemma {:induction false} RowsReadBack(rows: seq<seq<Bytes>>)
    requires forall i :: 0 <= i < |rows| ==> rows[i] != []
    ensures ReadFile(RowsText(rows)) == Some(rows)
    decreases |rows|
  {
    if rows != [] {
      RowsFromFront(rows);
      RowReadsBack(rows[0], RowsText(rows[1..]));
      RowsReadBack(rows[1..]);
      assert RowText(rows[0])[|RowText(rows[0])| - 1] == LF;
      assert rows == [rows[0]] + rows[1..];
    }
  }

  lemma RecordHasField(s: Bytes)
    ensures ReadRecord(s).Some? ==> ReadRecord(s).value.0 != []
  {
    hide ReadField;
  }

  lemma {:induction false} ReadRowsHaveFields(s: Bytes)
    ensures ReadFile(s).Some? ==> forall i :: 0 <= i < |ReadFile(s).value| ==> ReadFile(s).value[i] != []
    decreases |s|
  {
    hide ReadRecord;
    if s != [] && ReadRecord(s).Some? {
      ReadRecordShrinks(s);
      RecordHasField(s);
      ReadRowsHaveFields(ReadRecord(s).value.1);
    }
  }

  /** A printed file reads back as the rows it was printed from exactly if every row has a field: no fields at all
      print like one empty field. */
  lemma ReadsBackExactly(rows: seq<seq<Bytes>>)
    ensures ReadFile(RowsText(rows)) == Some(rows) <==> forall i :: 0 <= i < |rows| ==> rows[i] != []
  {
    hide ReadFile, RowsText;
    ReadRowsHaveFields(RowsText(rows));
    if forall i :: 0 <= i < |rows| ==> rows[i] != [] {
      RowsReadBack(rows);
    }
  }
}
