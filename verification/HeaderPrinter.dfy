/** Printing a request header, as the echo service does, and parsing it back. */
module HeaderPrinter {
  import opened Text
  import opened Numbers
  import opened MessageHeader
  import opened HeaderParser
  import opened HeaderSpec
  import opened HeaderGrammar

  function PrintFields(fields: Fields): string {
    if fields == [] then ""
    else PrintFields(fields[..|fields| - 1]) + PrintField(fields[|fields| - 1])
  }

  function PrintField(f: Field): string {
    f.name + ": " + f.value + CRLF
  }

  function PrintRequestLine(line: RequestLine): string {
    line.verb + " " + line.target + " " + "HTTP/" + VersionText(line.version) + CRLF
  }

  function PrintHeader(header: RequestHeader): string {
    PrintRequestLine(header.line) + PrintFields(header.fields) + CRLF
  }

  /** A header that a request can carry. */
  ghost predicate ValidRequestHeader(header: RequestHeader) {
    IsToken(header.line.verb) && IsTarget(header.line.target) &&
    header.line.version.packed < TWO_64 && ValidFields(header.fields)
  }

  // ---- The printed header as a raw header ----

  function RawOfField(f: Field): RawField {
    RawField(f.name, " ", if f.value == [] then Blank else Lines(f.value, []))
  }

  function RawOfFields(fields: Fields): seq<RawField> {
    if fields == [] then [] else [RawOfField(fields[0])] + RawOfFields(fields[1..])
  }

  function RawOf(header: RequestHeader): RawHeader {
    var line := header.line;
    RawHeader(line.verb, line.target, Decimal(line.version.Major()), Decimal(line.version.Minor()),
              RawOfFields(header.fields))
  }

  lemma PrintFieldOnto(f: Field, tail: string)
    ensures PrintField(f) + tail == FieldOnto(RawOfField(f), tail)
  {
    var value := if f.value == [] then Blank else Lines(f.value, []);
    assert ValueOnto(value, tail) == f.value + (CRLF + tail);
    assert FieldOnto(RawOfField(f), tail) == f.name + (":" + (" " + (f.value + (CRLF + tail))));
    assert ": " == ":" + " ";
  }

  lemma {:induction false} PrintFieldsOnto(fields: Fields, tail: string)
    ensures PrintFields(fields) + (CRLF + tail) == FieldsOnto(RawOfFields(fields), tail)
  {
    if fields != [] {
      PrintFieldsOnto(fields[1..], tail);
      PrintFieldsHead(fields);
      PrintFieldOnto(fields[0], FieldsOnto(RawOfFields(fields[1..]), tail));
      Associates(PrintField(fields[0]), PrintFields(fields[1..]), CRLF + tail);
      assert RawOfFields(fields)[1..] == RawOfFields(fields[1..]);
    } else {
      Neutral(CRLF + tail);
    }
  }

  lemma {:induction false} PrintFieldsHead(fields: Fields)
    requires fields != []
    ensures PrintFields(fields) == PrintField(fields[0]) + PrintFields(fields[1..])
  {
    if |fields| == 1 {
      assert fields[..0] == [] && fields[1..] == [];
      Neutral(PrintField(fields[0]));
    } else {
      var front := fields[..|fields| - 1];
      PrintFieldsHead(front);
      assert fields[1..][..|fields| - 2] == front[1..];
      Associates(PrintField(fields[0]), PrintFields(front[1..]), PrintField(fields[|fields| - 1]));
    }
  }

  lemma PrintHeaderOnto(header: RequestHeader, tail: string)
    ensures PrintHeader(header) + tail == HeaderOnto(RawOf(header), tail)
  {
    hide PrintFields, FieldsOnto, RawOfFields;
    var h := RawOf(header);
    var fields := FieldsOnto(h.fields, tail);
    PrintFieldsOnto(header.fields, tail);
    PrintLineOnto(header.line, fields);
    Associates(PrintRequestLine(header.line), PrintFields(header.fields), CRLF);
    Associates(PrintRequestLine(header.line), PrintFields(header.fields) + CRLF, tail);
    Associates(PrintFields(header.fields), CRLF, tail);
  }

  lemma PrintLineOnto(line: RequestLine, tail: string)
    ensures PrintRequestLine(line) + tail ==
            line.verb + (" " + (line.target + (" " + ("HTTP" + ("/" +
              (Decimal(line.version.Major()) + ("." + (Decimal(line.version.Minor()) + (CRLF + tail)))))))))
  {
    assert "HTTP/" == "HTTP" + "/";
  }

  // ---- The round trip ----

  lemma {:induction false} AppendLast(fields: Fields, f: Field)
    requires Sorted(fields + [f])
    ensures Append(fields, f.name, f.value) == fields + [f]
  {
    if fields != [] {
      var all := fields + [f];
      assert StriCmp(all[0].name, all[|fields|].name) < 0;
      StriCmpAntisymmetric(f.name, fields[0].name);
      assert all[1..] == fields[1..] + [f];
      AppendLast(fields[1..], f);
    }
  }

  lemma RawOfFieldIsValid(f: Field)
    requires IsToken(f.name) && IsFieldValue(f.value)
    ensures ValidField(RawOfField(f)) && ValueMeaning(RawOfField(f).value) == f.value
  {
    if f.value != [] {
      assert !IsNotPrintable(f.value[|f.value| - 1]);
      assert f.value + FoldsMeaning([]) == f.value;
    }
  }

  lemma {:induction false} AddRawFields(header: RequestHeader, fields: Fields)
    requires ValidFields(header.fields + fields)
    ensures ValidRawFields(RawOfFields(fields))
    ensures AddFields(header, RawOfFields(fields)) == header.(fields := header.fields + fields)
    decreases fields
  {
    if fields == [] {
      assert header.fields + fields == header.fields;
    } else {
      var f, all := fields[0], header.fields + fields;
      assert all[|header.fields|] == f;
      RawOfFieldIsValid(f);
      assert header.fields + [f] == all[..|header.fields| + 1];
      AppendLast(header.fields, f);
      var next := Add(header, f.name, f.value);
      assert next.fields + fields[1..] == all;
      AddRawFields(next, fields[1..]);
      assert RawOfFields(fields)[1..] == RawOfFields(fields[1..]);
    }
  }

  /** A valid header, printed and parsed, with anything after it: the same header again. */
  lemma {:induction false} PrintedHeaderParsesBack(header: RequestHeader, tail: string)
    requires ValidRequestHeader(header)
    ensures ReadHeader(PrintHeader(header) + tail) == Outcome(Completed, |PrintHeader(header)|, header)
  {
    hide ReadHeader, HeaderOnto, PrintHeader, ValidHeader, HeaderMeaning;
    RawOfIsValid(header);
    PrintHeaderOnto(header, tail);
    AcceptsEveryRawHeader(RawOf(header), tail);
  }

  lemma RawOfIsValid(header: RequestHeader)
    requires ValidRequestHeader(header)
    ensures ValidHeader(RawOf(header)) && HeaderMeaning(RawOf(header)) == header
  {
    var line := header.line;
    DecimalRoundTrip(line.version.Major(), TWO_32);
    DecimalRoundTrip(line.version.Minor(), TWO_32);
    VersionHalves(line.version, 0, 0);
    var start := RequestHeader(line, []);
    assert [] + header.fields == header.fields;
    AddRawFields(start, header.fields);
  }

  /** The same for the resumable parser, however the printed text is cut on its way. */
  lemma {:induction false} PrintedHeaderSurvivesFragmentation(header: RequestHeader, tail: string, pieces: seq<string>)
    requires ValidRequestHeader(header) && Flatten(pieces) == PrintHeader(header) + tail
    ensures Report(FeedPieces(FRESH, pieces)) == Outcome(Completed, |PrintHeader(header)|, header)
  {
    hide ReadHeader, PrintHeader, FeedPieces;
    ParserRefinesOneShot(pieces);
    PrintedHeaderParsesBack(header, tail);
  }
}
