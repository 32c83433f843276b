/** Records in PostgreSQL's COPY text format, as `osmium export` streams them.

    The escaper is the one of the format itself (PostgreSQL manual, COPY, "Text Format");
    the program only has the decoder.  Every seven fields survive the round trip, and the
    parser without escapes agrees with the general one wherever it is used.
 */
module CopyText {
  import opened Wrappers
  import opened ByteText

  /* ------------------------------------------------------------------ escapes */

  /** The byte that a letter stands for after a backslash. */
  function EscapedByte(letter: Byte): Option<Byte>
  {
    match letter
    case 0x74 => Some(0x09)
    case 0x6E => Some(0x0A)
    case 0x72 => Some(0x0D)
    case 0x62 => Some(0x08)
    case 0x66 => Some(0x0C)
    case 0x76 => Some(0x0B)
    case 0x5C => Some(0x5C)
    case _ => None
  }

  function CopyEscapeAt(data: Bytes, index: nat): Option<Byte>
    requires index < |data|
  {
    if data[index] != BACKSLASH || index + 1 >= |data| then None else EscapedByte(data[index + 1])
  }

  /** A field without its escapes; unknown escapes and a last backslash stay as they are. */
  function Unescape(data: Bytes): Bytes
  {
    if data == [] then []
    else
      var mapped := CopyEscapeAt(data, 0);
      if mapped.Some? then [mapped.value] + Unescape(data[2..]) else [data[0]] + Unescape(data[1..])
  }

  lemma {:induction false} UnescapePlain(data: Bytes)
    requires BACKSLASH !in data
    ensures Unescape(data) == data
  {
    if data != [] {
      UnescapePlain(data[1..]);
    }
  }

  /** Decoding from `i` on is decoding one byte or escape and then the rest. */
  lemma UnescapeAt(data: Bytes, i: nat)
    requires i < |data|
    ensures var mapped := CopyEscapeAt(data, i);
            if mapped.Some? then i + 2 <= |data| && Unescape(data[i..]) == [mapped.value] + Unescape(data[i + 2..])
            else Unescape(data[i..]) == [data[i]] + Unescape(data[i + 1..])
  {
    assert CopyEscapeAt(data[i..], 0) == CopyEscapeAt(data, i);
    if CopyEscapeAt(data, i).Some? {
      assert data[i..][2..] == data[i + 2..];
    } else {
      assert data[i..][1..] == data[i + 1..];
    }
  }

  lemma Associative(a: Bytes, byte: Byte, b: Bytes)
    ensures a + ([byte] + b) == (a + [byte]) + b
  {
  }

  method CopyUnescape(data: Bytes) returns (result: Bytes)
    ensures result == Unescape(data)
  {
    if BACKSLASH !in data {
      UnescapePlain(data);
      return data;
    }
    result := [];
    var i, n := 0, |data|;
    while i < n
      invariant 0 <= i <= n
      invariant result + Unescape(data[i..]) == Unescape(data)
    {
      var mapped := CopyEscapeAt(data, i);
      UnescapeAt(data, i);
      if mapped.Some? {
        Associative(result, mapped.value, Unescape(data[i + 2..]));
        result := result + [mapped.value];
        i := i + 2;
      } else {
        Associative(result, data[i], Unescape(data[i + 1..]));
        result := result + [data[i]];
        i := i + 1;
      }
    }
    assert data[n..] == [];
  }

  /** The letters that a backslash may precede, as in the PostgreSQL manual, and the backslash itself. */
  const ESCAPE_LETTERS: set<Byte> := {0x62, 0x66, 0x6E, 0x72, 0x74, 0x76, 0x5C}

  predicate EscapeStartsAt(data: Bytes, i: nat)
  {
    i + 1 < |data| && data[i] == BACKSLASH && data[i + 1] in ESCAPE_LETTERS
  }

  lemma {:induction false} UnescapeIsNoLonger(data: Bytes)
    ensures |Unescape(data)| <= |data|
  {
    if data != [] {
      UnescapeIsNoLonger(data[1..]);
      if CopyEscapeAt(data, 0).Some? {
        UnescapeIsNoLonger(data[2..]);
      }
    }
  }

  /** Decoding changes exactly the data with an escape in it: other letters after a backslash, and a
      backslash at the end, stay as they are. */
  lemma {:induction false} UnescapeStaysExactlyWithoutEscapes(data: Bytes)
    ensures Unescape(data) == data <==> forall i: nat :: !EscapeStartsAt(data, i)
  {
    if data != [] {
      var rest := data[1..];
      UnescapeStaysExactlyWithoutEscapes(rest);
      assert forall i: nat :: EscapeStartsAt(rest, i) <==> EscapeStartsAt(data, i + 1);
      if EscapeStartsAt(data, 0) {
        UnescapeIsNoLonger(data[2..]);
      } else {
        assert Unescape(data) == [data[0]] + Unescape(rest);
        assert data == [data[0]] + rest;
        if i: nat :| EscapeStartsAt(data, i) {
          assert EscapeStartsAt(rest, i - 1);
        }
      }
    }
  }

  /** How the format writes one byte. */
  function EscapeByte(byte: Byte): Bytes
  {
    match byte
    case 0x09 => [BACKSLASH, 0x74]
    case 0x0A => [BACKSLASH, 0x6E]
    case 0x0D => [BACKSLASH, 0x72]
    case 0x08 => [BACKSLASH, 0x62]
    case 0x0C => [BACKSLASH, 0x66]
    case 0x0B => [BACKSLASH, 0x76]
    case 0x5C => [BACKSLASH, 0x5C]
    case _ => [byte]
  }

  function Escape(data: Bytes): Bytes
  {
    if data == [] then [] else EscapeByte(data[0]) + Escape(data[1..])
  }

  /** The null marker `\N`. */
  const NULL_MARKER: Bytes := [BACKSLASH, 0x4E]

  predicate HasNoSeparators(data: Bytes)
  {
    TAB !in data && NEWLINE !in data && CARRIAGE_RETURN !in data
  }

  /** Decoding undoes escaping. */
  lemma {:induction false} UnescapeEscape(data: Bytes)
    ensures Unescape(Escape(data)) == data
  {
    if data != [] {
      var first, rest := EscapeByte(data[0]), Escape(data[1..]);
      UnescapeEscape(data[1..]);
      if |first| == 2 {
        assert CopyEscapeAt(first + rest, 0) == Some(data[0]);
        assert (first + rest)[2..] == rest;
      } else {
        assert (first + rest)[1..] == rest;
      }
    }
  }

  /** An escaped value has no separator in it and is never the null marker. */
  lemma {:induction false} EscapedIsSafe(data: Bytes)
    ensures HasNoSeparators(Escape(data)) && Escape(data) != NULL_MARKER
  {
    if data != [] {
      EscapedIsSafe(data[1..]);
      assert Escape(data)[0] == BACKSLASH ==> Escape(data)[1] == EscapeByte(data[0])[1];
    }
  }

  /* -------------------------------------------------------- fields of a line */

  /** The fields between the tabs. */
  function Split(data: Bytes): (fields: seq<Bytes>)
    ensures |fields| >= 1
  {
    if data == [] then [[]]
    else
      var rest := Split(data[1..]);
      if data[0] == TAB then [[]] + rest else [[data[0]] + rest[0]] + rest[1..]
  }

  function Join(fields: seq<Bytes>): Bytes
    requires fields != []
  {
    if |fields| == 1 then fields[0] else fields[0] + ([TAB] + Join(fields[1..]))
  }

  lemma {:induction false} SplitField(field: Bytes, rest: Bytes)
    requires TAB !in field
    ensures Split(field) == [field]
    ensures Split(field + ([TAB] + rest)) == [field] + Split(rest)
  {
    if field == [] {
      assert ([TAB] + rest)[1..] == rest;
      assert field + ([TAB] + rest) == [TAB] + rest;
    } else {
      SplitField(field[1..], rest);
      assert (field + ([TAB] + rest))[1..] == field[1..] + ([TAB] + rest);
      assert [field[0]] + field[1..] == field;
    }
  }

  lemma {:induction false} SplitJoin(fields: seq<Bytes>)
    requires fields != [] && forall field :: field in fields ==> TAB !in field
    ensures Split(Join(fields)) == fields
  {
    if |fields| == 1 {
      SplitField(fields[0], []);
    } else {
      SplitJoin(fields[1..]);
      SplitField(fields[0], Join(fields[1..]));
    }
  }

  /** The fields have no tabs, and joined they are the line again. */
  lemma {:induction false} JoinSplit(data: Bytes)
    ensures Join(Split(data)) == data && forall field :: field in Split(data) ==> TAB !in field
  {
    if data != [] {
      var rest := Split(data[1..]);
      JoinSplit(data[1..]);
      assert rest == [rest[0]] + rest[1..];
      if data[0] == TAB {
        assert ([[]] + rest)[1..] == rest;
      } else {
        var first := [data[0]] + rest[0];
        assert ([first] + rest[1..])[1..] == rest[1..];
        JoinFirst(data[0], rest);
        assert rest[0] in rest && forall field :: field in rest[1..] ==> field in rest;
      }
    }
  }

  lemma JoinFirst(byte: Byte, fields: seq<Bytes>)
    requires fields != []
    ensures Join([[byte] + fields[0]] + fields[1..]) == [byte] + Join(fields)
  {
    assert ([[byte] + fields[0]] + fields[1..])[1..] == fields[1..];
  }

  predicate IsLineEnd(byte: Byte)
  {
    byte == CARRIAGE_RETURN || byte == NEWLINE
  }

  function StripLineEnd(line: Bytes): Bytes
  {
    if line != [] && IsLineEnd(line[|line| - 1]) then StripLineEnd(line[..|line| - 1]) else line
  }

  lemma {:induction false} StripsTerminator(data: Bytes, terminator: Bytes)
    requires NEWLINE !in data && CARRIAGE_RETURN !in data
    requires forall byte :: byte in terminator ==> IsLineEnd(byte)
    ensures StripLineEnd(data + terminator) == data
    decreases |terminator|
  {
    if terminator == [] {
      assert data + terminator == data;
    } else {
      assert (data + terminator)[..|data + terminator| - 1] == data + terminator[..|terminator| - 1];
      StripsTerminator(data, terminator[..|terminator| - 1]);
    }
  }

  /* ------------------------------------------------------------------ records */

  /** Python's codecs and parsers; None is the error each of them raises. */
  datatype Codecs = Codecs(
    ascii: Bytes -> Option<string>, utf8: Bytes -> Option<string>,
    intOfText: string -> Option<int>, intOfBytes: Bytes -> Option<int>,
    tags: Bytes -> Option<map<string, string>>)

  predicate IsAscii(data: Bytes)
  {
    forall byte | byte in data :: byte < 128
  }

  /** On ASCII bytes `int` gives the same, or fails alike, before and after decoding. */
  ghost predicate IntegersAgree(c: Codecs)
  {
    forall data :: IsAscii(data) ==> c.utf8(data).Some? && c.intOfBytes(data) == c.intOfText(c.utf8(data).value)
  }

  datatype ExportRecord = ExportRecord(
    geometry: string, osmType: string, osmId: int, version: Option<int>, changeset: Option<int>,
    timestamp: Option<string>, tags: map<string, string>)

  function IntOf(c: Codecs, data: Bytes): Option<int>
  {
    if c.utf8(data).None? then None else c.intOfText(c.utf8(data).value)
  }

  function Present<T>(value: Option<T>): Option<Option<T>>
  {
    if value.None? then None else Some(value)
  }

  function NullableInt(c: Codecs, field: Bytes): Option<Option<int>>
  {
    if field == NULL_MARKER then Some(None)
    else if BACKSLASH !in field && IsAscii(field) then Present(c.intOfBytes(field))
    else Present(IntOf(c, Unescape(field)))
  }

  function NullableStr(c: Codecs, field: Bytes): Option<Option<string>>
  {
    if field == NULL_MARKER then Some(None)
    else if BACKSLASH !in field then Present(c.utf8(field))
    else Present(c.utf8(Unescape(field)))
  }

  function ParseTags(c: Codecs, field: Bytes): Option<map<string, string>>
  {
    if field == NULL_MARKER then Some(map[])
    else c.tags(if BACKSLASH !in field then field else Unescape(field))
  }

  function UnescapedInteger(c: Codecs, field: Bytes): Option<int>
  {
    if IsAscii(field) then c.intOfBytes(field) else IntOf(c, field)
  }

  function UnescapedOptionalInteger(c: Codecs, field: Bytes): Option<Option<int>>
  {
    if field == NULL_MARKER then Some(None) else Present(UnescapedInteger(c, field))
  }

  function UnescapedText(c: Codecs, field: Bytes): Option<Option<string>>
  {
    if field == NULL_MARKER then Some(None) else Present(c.utf8(field))
  }

  /** The record, or None when one of its parts failed. */
  function MakeRecord(geometry: Option<string>, osmType: Option<string>, osmId: Option<int>,
                      version: Option<Option<int>>, changeset: Option<Option<int>>,
                      timestamp: Option<Option<string>>, tags: Option<map<string, string>>): Option<ExportRecord>
  {
    if geometry.None? || osmType.None? || osmId.None? || version.None? || changeset.None?
       || timestamp.None? || tags.None?
    then None
    else Some(ExportRecord(geometry.value, osmType.value, osmId.value, version.value, changeset.value,
                           timestamp.value, tags.value))
  }

  function ParseUnescapedRecord(c: Codecs, f: seq<Bytes>): Option<ExportRecord>
    requires |f| == 7
  {
    MakeRecord(c.ascii(f[0]), c.utf8(f[1]), UnescapedInteger(c, f[2]), UnescapedOptionalInteger(c, f[3]),
               UnescapedOptionalInteger(c, f[4]), UnescapedText(c, f[5]), ParseTags(c, f[6]))
  }

  function ParseEscapedRecord(c: Codecs, f: seq<Bytes>): Option<ExportRecord>
    requires |f| == 7
  {
    MakeRecord(c.ascii(Unescape(f[0])), c.utf8(Unescape(f[1])), IntOf(c, Unescape(f[2])),
               NullableInt(c, f[3]), NullableInt(c, f[4]), NullableStr(c, f[5]), ParseTags(c, f[6]))
  }

  function ParseCopyRecord(c: Codecs, line: Bytes): Option<ExportRecord>
  {
    var stripped := StripLineEnd(line);
    var fields := Split(stripped);
    if |fields| != 7 then None
    else if BACKSLASH !in stripped then ParseUnescapedRecord(c, fields)
    else ParseEscapedRecord(c, fields)
  }

  /** Without backslashes the two parsers agree, in failure too. */
  lemma FastParserAgrees(c: Codecs, f: seq<Bytes>)
    requires IntegersAgree(c) && |f| == 7 && forall field :: field in f ==> BACKSLASH !in field
    ensures ParseUnescapedRecord(c, f) == ParseEscapedRecord(c, f)
  {
    forall i | 0 <= i < 7
      ensures Unescape(f[i]) == f[i] && f[i] != NULL_MARKER
    {
      assert f[i] in f;
      assert NULL_MARKER[0] == BACKSLASH;
      UnescapePlain(f[i]);
    }
  }

  lemma {:induction false} FieldsAreFromTheLine(data: Bytes, byte: Byte)
    requires byte !in data
    ensures forall field :: field in Split(data) ==> byte !in field
  {
    if data != [] {
      FieldsAreFromTheLine(data[1..], byte);
      var rest := Split(data[1..]);
      assert rest[0] in rest && forall field :: field in rest[1..] ==> field in rest;
    }
  }

  /** The parser may take either path on every line: taking the general one always gives the same. */
  lemma ParsesAsEscaped(c: Codecs, line: Bytes)
    requires IntegersAgree(c)
    ensures var fields := Split(StripLineEnd(line));
            ParseCopyRecord(c, line) == if |fields| != 7 then None else ParseEscapedRecord(c, fields)
  {
    var stripped := StripLineEnd(line);
    if BACKSLASH !in stripped && |Split(stripped)| == 7 {
      FieldsAreFromTheLine(stripped, BACKSLASH);
      FastParserAgrees(c, Split(stripped));
    }
  }

  /* --------------------------------------------------------------- round trip */

  /** The seven fields as the exporter has them; the first three are never null. */
  datatype Fields = Fields(
    geometry: Bytes, osmType: Bytes, osmId: Bytes,
    version: Option<Bytes>, changeset: Option<Bytes>, timestamp: Option<Bytes>, tags: Option<Bytes>)

  function EncodeNullable(value: Option<Bytes>): Bytes
  {
    if value.None? then NULL_MARKER else Escape(value.value)
  }

  function EncodeFields(f: Fields): seq<Bytes>
  {
    [Escape(f.geometry), Escape(f.osmType), Escape(f.osmId),
     EncodeNullable(f.version), EncodeNullable(f.changeset), EncodeNullable(f.timestamp), EncodeNullable(f.tags)]
  }

  function DecodeNullable(field: Bytes): Option<Bytes>
  {
    if field == NULL_MARKER then None else Some(Unescape(field))
  }

  /** The fields of a line, each decoded on its own. */
  function DecodeLine(line: Bytes): Option<Fields>
  {
    var f := Split(StripLineEnd(line));
    if |f| != 7 then None
    else Some(Fields(Unescape(f[0]), Unescape(f[1]), Unescape(f[2]),
                     DecodeNullable(f[3]), DecodeNullable(f[4]), DecodeNullable(f[5]), DecodeNullable(f[6])))
  }

  /** What the fields mean, without any escaping. */
  function Meaning(c: Codecs, f: Fields): Option<ExportRecord>
  {
    MakeRecord(
      c.ascii(f.geometry), c.utf8(f.osmType), IntOf(c, f.osmId),
      if f.version.None? then Some(None) else Present(IntOf(c, f.version.value)),
      if f.changeset.None? then Some(None) else Present(IntOf(c, f.changeset.value)),
      if f.timestamp.None? then Some(None) else Present(c.utf8(f.timestamp.value)),
      if f.tags.None? then Some(map[]) else c.tags(f.tags.value))
  }

  predicate IntMeans(c: Codecs, field: Option<Bytes>, value: Option<int>)
  {
    if field.None? then value.None? else value.Some? && IntOf(c, field.value) == value
  }

  /** The record holds what each of the seven fields stands for. */
  predicate Means(c: Codecs, f: Fields, r: ExportRecord)
  {
    && c.ascii(f.geometry) == Some(r.geometry)
    && c.utf8(f.osmType) == Some(r.osmType)
    && IntOf(c, f.osmId) == Some(r.osmId)
    && IntMeans(c, f.version, r.version)
    && IntMeans(c, f.changeset, r.changeset)
    && (if f.timestamp.None? then r.timestamp.None? else r.timestamp.Some? && c.utf8(f.timestamp.value) == r.timestamp)
    && (if f.tags.None? then r.tags == map[] else c.tags(f.tags.value) == Some(r.tags))
  }

  lemma MeaningIsTheRecord(c: Codecs, f: Fields, r: ExportRecord)
    ensures Meaning(c, f) == Some(r) <==> Means(c, f, r)
  {
  }

  lemma EncodedFieldIsSafe(value: Option<Bytes>)
    ensures HasNoSeparators(EncodeNullable(value))
    ensures DecodeNullable(EncodeNullable(value)) == value
  {
    if value.Some? {
      EscapedIsSafe(value.value);
      UnescapeEscape(value.value);
    }
  }

  lemma EncodedFieldsAreSafe(f: Fields)
    ensures forall field :: field in EncodeFields(f) ==> HasNoSeparators(field)
  {
    EscapedIsSafe(f.geometry);
    EscapedIsSafe(f.osmType);
    EscapedIsSafe(f.osmId);
    EncodedFieldIsSafe(f.version);
    EncodedFieldIsSafe(f.changeset);
    EncodedFieldIsSafe(f.timestamp);
    EncodedFieldIsSafe(f.tags);
  }

  lemma {:induction false} JoinHasNoLineEnd(fields: seq<Bytes>)
    requires fields != [] && forall field :: field in fields ==> HasNoSeparators(field)
    ensures NEWLINE !in Join(fields) && CARRIAGE_RETURN !in Join(fields)
  {
    assert fields[0] in fields;
    if |fields| > 1 {
      JoinHasNoLineEnd(fields[1..]);
    }
  }

  /** An encoded line splits into exactly the encoded fields, whatever ends the line. */
  lemma EncodedLineSplits(f: Fields, terminator: Bytes)
    requires forall byte :: byte in terminator ==> IsLineEnd(byte)
    ensures Split(StripLineEnd(Join(EncodeFields(f)) + terminator)) == EncodeFields(f)
  {
    EncodedFieldsAreSafe(f);
    JoinHasNoLineEnd(EncodeFields(f));
    StripsTerminator(Join(EncodeFields(f)), terminator);
    SplitJoin(EncodeFields(f));
  }

  /** Every seven fields come back from their line. */
  lemma FieldsRoundTrip(f: Fields, terminator: Bytes)
    requires forall byte :: byte in terminator ==> IsLineEnd(byte)
    ensures DecodeLine(Join(EncodeFields(f)) + terminator) == Some(f)
  {
    EncodedLineSplits(f, terminator);
    UnescapeEscape(f.geometry);
    UnescapeEscape(f.osmType);
    UnescapeEscape(f.osmId);
    EncodedFieldIsSafe(f.version);
    EncodedFieldIsSafe(f.changeset);
    EncodedFieldIsSafe(f.timestamp);
    EncodedFieldIsSafe(f.tags);
  }

  lemma NullableIntMeaning(c: Codecs, field: Bytes)
    requires IntegersAgree(c)
    ensures NullableInt(c, field)
         == if DecodeNullable(field).None? then Some(None) else Present(IntOf(c, DecodeNullable(field).value))
  {
    if BACKSLASH !in field {
      UnescapePlain(field);
    }
  }

  lemma EscapedRecordMeaning(c: Codecs, f: seq<Bytes>)
    requires IntegersAgree(c) && |f| == 7
    ensures ParseEscapedRecord(c, f)
         == Meaning(c, Fields(Unescape(f[0]), Unescape(f[1]), Unescape(f[2]),
                              DecodeNullable(f[3]), DecodeNullable(f[4]), DecodeNullable(f[5]), DecodeNullable(f[6])))
  {
    NullableIntMeaning(c, f[3]);
    NullableIntMeaning(c, f[4]);
    if BACKSLASH !in f[5] {
      UnescapePlain(f[5]);
    }
    if BACKSLASH !in f[6] {
      UnescapePlain(f[6]);
    }
  }

  /** Parsing any line gives a record exactly when its seven fields, each decoded on its own, stand for it. */
  lemma ParsingIsDecoding(c: Codecs, line: Bytes, r: ExportRecord)
    requires IntegersAgree(c)
    ensures ParseCopyRecord(c, line) == Some(r) <==> DecodeLine(line).Some? && Means(c, DecodeLine(line).value, r)
    ensures DecodeLine(line).Some? <==> |Split(StripLineEnd(line))| == 7
  {
    ParsesAsEscaped(c, line);
    if DecodeLine(line).Some? {
      EscapedRecordMeaning(c, Split(StripLineEnd(line)));
      MeaningIsTheRecord(c, DecodeLine(line).value, r);
    }
  }

  /** Parsing an encoded line gives exactly the record that its fields stand for, and fails when there is none. */
  lemma ParsingUndoesEncoding(c: Codecs, f: Fields, terminator: Bytes, r: ExportRecord)
    requires IntegersAgree(c) && forall byte :: byte in terminator ==> IsLineEnd(byte)
    ensures ParseCopyRecord(c, Join(EncodeFields(f)) + terminator) == Some(r) <==> Means(c, f, r)
  {
    FieldsRoundTrip(f, terminator);
    ParsingIsDecoding(c, Join(EncodeFields(f)) + terminator, r);
  }
}
