/**
 A client's view of a response: where its status line and its fields end is found by looking for
 their delimiters, and the body is as long as the fields say. Reading undoes writing.
 */
module ResponseReader {
  import opened Text
  import opened Numbers
  import opened MessageHeader
  import opened Session

  /** A header that has been read, and what comes after it. */
  datatype Reading = Reading(header: ResponseHeader, rest: string)

  /** HTTP/major.minor, a blank, the code, a blank, and the reason phrase up to the line end. */
  function ReadStatusLine(s: string): (r: Option<Reading>)
    ensures r.Some? ==> |r.value.rest| < |s|
  {
    var i := Index(s, '/');
    if i == |s| || s[..i] != ['H', 'T', 'T', 'P'] then None else ReadMajor(s[i + 1..])
  }

  function ReadMajor(s: string): (r: Option<Reading>)
    ensures r.Some? ==> |r.value.rest| < |s|
  {
    var i := Index(s, '.');
    if i == |s| then None
    else match ToNumber(s[..i], 0x1_0000_0000)
         case None => None
         case Some(major) => ReadMinor(major, s[i + 1..])
  }

  function ReadMinor(major: nat, s: string): (r: Option<Reading>)
    ensures r.Some? ==> |r.value.rest| < |s|
  {
    var i := Index(s, ' ');
    if i == |s| then None
    else match ToNumber(s[..i], 0x1_0000_0000)
         case None => None
         case Some(minor) => ReadCode(MakeVersion(major, minor), s[i + 1..])
  }

  function ReadCode(version: Version, s: string): (r: Option<Reading>)
    ensures r.Some? ==> |r.value.rest| < |s|
  {
    var i := Index(s, ' ');
    if i == |s| then None
    else match ToNumber(s[..i], 1000)
         case None => None
         case Some(code) => ReadReason(version, code, s[i + 1..])
  }

  function ReadReason(version: Version, code: nat, s: string): (r: Option<Reading>)
    ensures r.Some? ==> |r.value.rest| < |s|
  {
    var i := Index(s, '\r');
    if i + 1 >= |s| || s[i + 1] != '\n' then None
    else ReadFieldLines(ResponseHeader(version, code, s[..i], []), s[i + 2..])
  }

  /** Lines of a name, a colon, a blank and a value, up to an empty one. */
  function ReadFieldLines(header: ResponseHeader, s: string): (r: Option<Reading>)
    ensures r.Some? ==> |r.value.rest| < |s|
    decreases |s|
  {
    if |s| >= 2 && s[0] == '\r' && s[1] == '\n' then Some(Reading(header, s[2..]))
    else
      var i := Index(s, ':');
      if i + 1 >= |s| || s[i + 1] != ' ' then None else ReadFieldValue(header, s[..i], s[i + 2..])
  }

  function ReadFieldValue(header: ResponseHeader, name: string, s: string): (r: Option<Reading>)
    ensures r.Some? ==> |r.value.rest| < |s|
    decreases |s|
  {
    var i := Index(s, '\r');
    if i + 1 >= |s| || s[i + 1] != '\n' then None
    else ReadFieldLines(header.(fields := header.fields + [Field(name, s[..i])]), s[i + 2..])
  }

  // ---- Reading undoes writing ----

  /** A header that can be read back: the fields are valid, the phrase is on one line. */
  ghost predicate Readable(header: ResponseHeader) {
    header.version.packed < TWO_64 && header.code < 1000 && '\r' !in header.reason && ValidFields(header.fields)
  }

  lemma LineIsFound(line: string, after: string)
    requires '\r' !in line
    ensures var s := line + (CRLF + after);
            var i := Index(s, '\r');
            i == |line| && i + 1 < |s| && s[i + 1] == '\n' && s[..i] == line && s[i + 2..] == after
  {
    assert CRLF + after == "\r" + ("\n" + after);
    IndexOfFirst(line, '\r', "\n" + after);
  }

  function FieldOnto(f: Field, after: string): string {
    f.name + (":" + (" " + (f.value + (CRLF + after))))
  }

  lemma FieldIsRead(header: ResponseHeader, f: Field, after: string)
    requires IsToken(f.name) && IsFieldValue(f.value)
    ensures ReadFieldLines(header, FieldOnto(f, after)) == ReadFieldLines(header.(fields := header.fields + [f]), after)
  {
    hide ReadFieldLines, ReadFieldValue, IsFieldValue, IsToken, Index;
    NameIsFound(header, f.name, f.value + (CRLF + after));
    ValueIsRead(header, f, after);
  }

  lemma NameIsFound(header: ResponseHeader, name: string, line: string)
    requires IsToken(name)
    ensures ReadFieldLines(header, name + (":" + (" " + line))) == ReadFieldValue(header, name, line)
  {
    hide Index, ReadFieldValue;
    assert IsTokenChar(name[0]);
    assert forall i :: 0 <= i < |name| ==> IsTokenChar(name[i]);
    IndexOfFirst(name, ':', " " + line);
    var s := name + (":" + (" " + line));
    DropTwice(s, |name| + 1, 1);
    assert (" " + line)[1..] == line;
  }

  lemma ValueIsRead(header: ResponseHeader, f: Field, after: string)
    requires IsFieldValue(f.value)
    ensures ReadFieldValue(header, f.name, f.value + (CRLF + after)) == ReadFieldLines(header.(fields := header.fields + [f]), after)
  {
    hide Index, ReadFieldLines;
    ValueIsOnOneLine(f.value);
    LineIsFound(f.value, after);
  }

  lemma ValueIsOnOneLine(value: string)
    requires IsFieldValue(value)
    ensures '\r' !in value
  {
  }

  lemma {:induction false} FieldsAreRead(header: ResponseHeader, fields: Fields, tail: string)
    requires forall i :: 0 <= i < |fields| ==> IsToken(fields[i].name) && IsFieldValue(fields[i].value)
    ensures ReadFieldLines(header, SerializeFields(fields) + (CRLF + tail)) ==
            Some(Reading(header.(fields := header.fields + fields), tail))
    decreases fields
  {
    hide IsToken, IsFieldValue, ReadFieldLines, SerializeFields, FieldOnto;
    if fields == [] {
      EmptyLineIsRead(header, tail);
      assert header.fields + fields == header.fields;
    } else {
      var f, rest := fields[0], fields[1..];
      SerializedField(fields, CRLF + tail);
      FieldIsRead(header, f, SerializeFields(rest) + (CRLF + tail));
      FieldsAreRead(header.(fields := header.fields + [f]), rest, tail);
      assert header.fields + [f] + rest == header.fields + fields;
    }
  }

  lemma EmptyLineIsRead(header: ResponseHeader, tail: string)
    ensures ReadFieldLines(header, SerializeFields([]) + (CRLF + tail)) == Some(Reading(header, tail))
  {
    Neutral(CRLF + tail);
    assert (CRLF + tail)[2..] == tail;
  }

  lemma SerializedField(fields: Fields, tail: string)
    requires fields != []
    ensures SerializeFields(fields) + tail == FieldOnto(fields[0], SerializeFields(fields[1..]) + tail)
  {
    var f, rest := fields[0], SerializeFields(fields[1..]);
    assert ": " == ":" + " ";
    assert f.name + ": " + f.value + CRLF + rest + tail == f.name + (":" + (" " + (f.value + (CRLF + (rest + tail)))));
  }

  lemma NameIsRead(s: string)
    ensures ReadStatusLine("HTTP" + ("/" + s)) == ReadMajor(s)
  {
    hide Index, ReadMajor;
    IndexOfFirst("HTTP", '/', s);
  }

  lemma MajorIsRead(major: nat, s: string)
    requires major < TWO_32
    ensures ReadMajor(Decimal(major) + ("." + s)) == ReadMinor(major, s)
  {
    hide Index, ToNumber, ReadMinor, Decimal;
    NumberIsFound(major, '.', s, TWO_32);
  }

  lemma MinorIsRead(major: nat, minor: nat, s: string)
    requires minor < TWO_32
    ensures ReadMinor(major, Decimal(minor) + (" " + s)) == ReadCode(MakeVersion(major, minor), s)
  {
    hide Index, ToNumber, ReadCode, Decimal;
    NumberIsFound(minor, ' ', s, TWO_32);
  }

  lemma CodeIsRead(version: Version, code: nat, s: string)
    requires code < 1000
    ensures ReadCode(version, Decimal(code) + (" " + s)) == ReadReason(version, code, s)
  {
    hide Index, ToNumber, ReadReason, Decimal;
    NumberIsFound(code, ' ', s, 1000);
  }

  lemma ReasonIsRead(version: Version, code: nat, reason: string, s: string)
    requires '\r' !in reason
    ensures ReadReason(version, code, reason + (CRLF + s)) == ReadFieldLines(ResponseHeader(version, code, reason, []), s)
  {
    hide Index, ReadFieldLines;
    LineIsFound(reason, s);
  }

  /** A written header, with anything after it, is read back, up to where the body starts. */
  lemma HeaderIsReadBack(header: ResponseHeader, tail: string)
    requires Readable(header)
    ensures ReadStatusLine(Serialize(header) + tail) == Some(Reading(header, tail))
  {
    hide ReadStatusLine, ReadMajor, ReadMinor, ReadCode, ReadReason, ReadFieldLines, SerializeFields, Serialize, Decimal;
    var version := header.version;
    var block := SerializeFields(header.fields) + (CRLF + tail);
    var reason := header.reason + (CRLF + block);
    var code := Decimal(header.code) + (" " + reason);
    var minor := Decimal(version.Minor()) + (" " + code);
    SerializedHeader(header, tail);
    VersionHalves(version, 0, 0);
    NameIsRead(Decimal(version.Major()) + ("." + minor));
    MajorIsRead(version.Major(), minor);
    MinorIsRead(version.Major(), version.Minor(), code);
    CodeIsRead(version, header.code, reason);
    ReasonIsRead(version, header.code, header.reason, block);
    FieldsAreRead(ResponseHeader(version, header.code, header.reason, []), header.fields, tail);
    assert [] + header.fields == header.fields;
  }

  /** A header without a phrase is written with that of the table. */
  lemma PhraseIsFilledIn(header: ResponseHeader, statusText: nat -> string, tail: string)
    requires Readable(header) && '\r' !in statusText(header.code)
    ensures var phrase := if header.reason == "" then statusText(header.code) else header.reason;
            ReadStatusLine(Serialize(Filled(header, statusText)) + tail) ==
            Some(Reading(ResponseHeader(header.version, header.code, phrase, header.fields), tail))
  {
    hide ReadStatusLine, Serialize;
    HeaderIsReadBack(Filled(header, statusText), tail);
  }

  lemma NumberIsFound(n: nat, c: char, after: string, limit: nat)
    requires !IsDigit(c) && n < limit
    ensures var s := Decimal(n) + ([c] + after);
            var i := Index(s, c);
            i < |s| && ToNumber(s[..i], limit) == Some(n) && s[i + 1..] == after
  {
    hide Decimal;
    IndexOfFirst(Decimal(n), c, after);
    DecimalRoundTrip(n, limit);
  }

  lemma SerializedHeader(header: ResponseHeader, tail: string)
    ensures Serialize(header) + tail ==
            "HTTP" + ("/" + (Decimal(header.version.Major()) + ("." + (Decimal(header.version.Minor()) + (" " +
              (Decimal(header.code) + (" " + (header.reason + (CRLF + (SerializeFields(header.fields) + (CRLF + tail)))))))))))
  {
    hide SerializeFields, Decimal;
    assert "HTTP/" == "HTTP" + "/";
  }
}
