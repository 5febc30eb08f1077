/**
 The grammar of the header blocks that the parser accepts, with their meaning: a block is
 accepted exactly when it is the text of some raw header, and it then means what the raw
 header means. Printing a header is one such text.
 */
module HeaderGrammar {
  import opened Text
  import opened Numbers
  import opened MessageHeader
  import opened HeaderParser
  import opened HeaderSpec

  // ---- Raw headers ----

  /** A continuation line: white space, then text that does not start with white space. */
  datatype Fold = Fold(blanks: string, text: string)

  datatype RawValue = Blank | Lines(first: string, folds: seq<Fold>)

  datatype RawField = RawField(name: string, lead: string, value: RawValue)

  datatype RawHeader = RawHeader(verb: string, target: string, major: string, minor: string, fields: seq<RawField>)

  // The text of each, put in front of `tail`.

  function FoldsOnto(folds: seq<Fold>, tail: string): string {
    if folds == [] then CRLF + tail
    else CRLF + (folds[0].blanks + (folds[0].text + FoldsOnto(folds[1..], tail)))
  }

  function ValueOnto(value: RawValue, tail: string): string {
    match value
    case Blank => CRLF + tail
    case Lines(first, folds) => first + FoldsOnto(folds, tail)
  }

  function FieldsOnto(fields: seq<RawField>, tail: string): string {
    if fields == [] then CRLF + tail
    else FieldOnto(fields[0], FieldsOnto(fields[1..], tail))
  }

  function FieldOnto(f: RawField, tail: string): string {
    f.name + (":" + (f.lead + ValueOnto(f.value, tail)))
  }

  function MinorOnto(h: RawHeader, tail: string): string {
    h.minor + (CRLF + FieldsOnto(h.fields, tail))
  }

  function MajorOnto(h: RawHeader, tail: string): string {
    h.major + ("." + MinorOnto(h, tail))
  }

  function ProtocolOnto(h: RawHeader, tail: string): string {
    "HTTP" + ("/" + MajorOnto(h, tail))
  }

  function TargetOnto(h: RawHeader, tail: string): string {
    h.target + (" " + ProtocolOnto(h, tail))
  }

  function HeaderOnto(h: RawHeader, tail: string): string {
    h.verb + (" " + TargetOnto(h, tail))
  }

  // What is well formed.

  /** A line of a value: it has no carriage return and does not start with white space. */
  predicate ValidLine(s: string) {
    '\r' !in s && (s != [] ==> !IsStrictWhitespace(s[0]))
  }

  predicate ValidFold(f: Fold) {
    f.blanks != [] && AllWhitespace(f.blanks) && ValidLine(f.text)
  }

  predicate ValidFolds(folds: seq<Fold>) {
    forall i :: 0 <= i < |folds| ==> ValidFold(folds[i])
  }

  predicate ValidValue(value: RawValue) {
    value.Lines? ==>
      value.first != [] && ValidLine(value.first) && ValidFolds(value.folds) && IsFieldValue(ValueMeaning(value))
  }

  predicate ValidField(f: RawField) {
    IsToken(f.name) && AllWhitespace(f.lead) && ValidValue(f.value)
  }

  predicate ValidRawFields(fields: seq<RawField>) {
    forall i :: 0 <= i < |fields| ==> ValidField(fields[i])
  }

  predicate ValidHeader(h: RawHeader) {
    IsToken(h.verb) && IsTarget(h.target) &&
    ToNumber(h.major, TWO_32).Some? && ToNumber(h.minor, TWO_32).Some? && ValidRawFields(h.fields)
  }

  // What it means.

  function FoldsMeaning(folds: seq<Fold>): string {
    if folds == [] then ""
    else (if folds[0].text == [] then "" else " " + folds[0].text) + FoldsMeaning(folds[1..])
  }

  function ValueMeaning(value: RawValue): string {
    match value
    case Blank => ""
    case Lines(first, folds) => RTrim(first + FoldsMeaning(folds))
  }

  function AddFields(header: RequestHeader, fields: seq<RawField>): RequestHeader
    decreases fields
  {
    if fields == [] then header
    else AddFields(Add(header, fields[0].name, ValueMeaning(fields[0].value)), fields[1..])
  }

  function HeaderMeaning(h: RawHeader): RequestHeader
    requires ValidHeader(h)
  {
    var version := MakeVersion(ToNumber(h.major, TWO_32).value, ToNumber(h.minor, TWO_32).value);
    AddFields(RequestHeader(RequestLine(h.verb, h.target, version), []), h.fields)
  }

  // ---- Every raw header is accepted, and read as it is meant ----

  /** `tail` can follow a value: it starts neither a continuation nor nothing. */
  predicate EndsValue(tail: string) {
    tail != [] && !IsStrictWhitespace(tail[0])
  }

  /** `u` read `text` and stopped where `tail` begins. */
  ghost predicate UnfoldsTo(s: string, text: string, tail: string) {
    var u := Unfold(s);
    u.Unfolded? && u.text == text && u.consumed + |tail| == |s| && s[u.consumed..] == tail
  }

  lemma {:induction false} UnfoldsLines(line: string, folds: seq<Fold>, tail: string)
    requires '\r' !in line && ValidFolds(folds) && EndsValue(tail)
    ensures UnfoldsTo(line + FoldsOnto(folds, tail), line + FoldsMeaning(folds), tail)
    decreases folds
  {
    if folds == [] {
      UnfoldsLine(line, tail);
      Neutral(line);
    } else {
      var f := folds[0];
      assert ValidFold(f);
      UnfoldsLines(f.text, folds[1..], tail);
      FoldsMeaningStep(folds);
      UnfoldsFold(line, f, FoldsOnto(folds[1..], tail), FoldsMeaning(folds[1..]), tail);
    }
  }

  lemma UnfoldsLine(line: string, tail: string)
    requires '\r' !in line && EndsValue(tail)
    ensures UnfoldsTo(line + (CRLF + tail), line, tail)
  {
    hide Index;
    LineEnd(line, tail);
  }

  lemma LineEnd(line: string, after: string)
    requires '\r' !in line
    ensures var s := line + (CRLF + after);
            Index(s, '\r') == |line| && |s| == |line| + 2 + |after| && s[..|line|] == line &&
            s[|line| + 1] == '\n' && s[|line| + 2..] == after
  {
    hide Index;
    assert CRLF + after == "\r" + ("\n" + after);
    IndexOfFirst(line, '\r', "\n" + after);
  }

  /** The octet that decides whether a continuation line is empty. */
  function Decider(text: string): char {
    if text == [] then '\r' else text[0]
  }

  lemma UnfoldsFold(line: string, f: Fold, more: string, meaning: string, tail: string)
    requires '\r' !in line && ValidFold(f) && EndsValue(tail)
    requires more != [] && more[0] == '\r'
    requires UnfoldsTo(f.text + more, f.text + meaning, tail)
    ensures UnfoldsTo(line + (CRLF + (f.blanks + (f.text + more))),
                      line + (Joint(Decider(f.text)) + (f.text + meaning)), tail)
  {
    hide Unfold, Index, LeadingWhitespace, Joint, UnfoldsTo;
    var rest := f.text + more;
    var s := line + (CRLF + (f.blanks + rest));
    assert rest[0] == Decider(f.text);
    LineEnd(line, f.blanks + rest);
    LeadingWhitespaceOf(f.blanks, rest);
    SkipsBlanks(s, line, rest);
    UnfoldsUnder(s, rest, line, Joint(rest[0]), f.text + meaning, |line| + 2 + |f.blanks|, tail);
  }

  lemma UnfoldsUnder(s: string, rest: string, line: string, joint: string, text: string, w: nat, tail: string)
    requires w <= |s| && s[w..] == rest && Unfold(s) == Unfold(rest).Under(line + joint, w) && UnfoldsTo(rest, text, tail)
    ensures UnfoldsTo(s, line + (joint + text), tail)
  {
    hide Unfold;
    Associates(line, joint, text);
    DropTwice(s, w, Unfold(rest).consumed);
  }

  lemma SkipsBlanks(s: string, line: string, rest: string)
    requires Index(s, '\r') == |line| && |line| + 2 <= |s| && s[..|line|] == line && s[|line| + 1] == '\n'
    requires var after := s[|line| + 2..];
             var k := LeadingWhitespace(after);
             0 < k < |after| && after[k..] == rest
    ensures var w := |line| + 2 + LeadingWhitespace(s[|line| + 2..]);
            |s| == w + |rest| && s[w..] == rest && Unfold(s) == Unfold(rest).Under(line + Joint(rest[0]), w)
  {
    hide Unfold, Index, LeadingWhitespace, Joint;
    DropTwice(s, |line| + 2, LeadingWhitespace(s[|line| + 2..]));
    UnfoldStep(s);
  }

  lemma FoldsMeaningStep(folds: seq<Fold>)
    requires folds != [] && '\r' !in folds[0].text
    ensures Joint(Decider(folds[0].text)) + (folds[0].text + FoldsMeaning(folds[1..])) == FoldsMeaning(folds)
  {
    var c := Decider(folds[0].text);
    assert c == '\r' <==> folds[0].text == [];
    Associates(Joint(c), folds[0].text, FoldsMeaning(folds[1..]));
  }

  /** `o` is the successful reading of `header` from `s` up to where `tail` begins. */
  ghost predicate Accepts(o: Outcome, s: string, header: RequestHeader, tail: string) {
    o.ec == Completed && o.header == header && o.consumed + |tail| == |s|
  }

  lemma ReadsField(header: RequestHeader, f: RawField, rest: string, result: RequestHeader, tail: string)
    requires ValidField(f) && EndsValue(rest)
    requires Accepts(ReadFields(Add(header, f.name, ValueMeaning(f.value)), rest), rest, result, tail)
    ensures Accepts(ReadFields(header, FieldOnto(f, rest)), FieldOnto(f, rest), result, tail)
  {
    var value := f.lead + ValueOnto(f.value, rest);
    var s := FieldOnto(f, rest);
    var n := |f.name|;
    assert IsTokenChar(f.name[0]);
    forall i | 0 <= i < n ensures f.name[i] != ':' { assert IsTokenChar(f.name[i]); }
    assert s[1..] == f.name[1..] + (":" + value);
    IndexOfFirst(f.name[1..], ':', value);
    IndexOfFirst(f.name, ':', value);
    match f.value
    case Blank => ReadsBlank(header, f, rest, result, tail);
    case Lines(_, _) => ReadsLines(header, f, rest, result, tail);
  }

  lemma ReadsBlank(header: RequestHeader, f: RawField, rest: string, result: RequestHeader, tail: string)
    requires ValidField(f) && f.value.Blank?
    requires Accepts(ReadFields(Add(header, f.name, ""), rest), rest, result, tail)
    ensures var s := f.lead + ValueOnto(f.value, rest);
            Accepts(ReadValueOf(header, f.name, s), s, result, tail)
  {
    var s := f.lead + (CRLF + rest);
    LeadingWhitespaceOf(f.lead, CRLF + rest);
    assert s[|f.lead|] == '\r';
    var t := s[|f.lead| + 1..];
    assert t == "\n" + rest && t[1..] == rest;
    assert Accepts(NextLine(Add(header, f.name, ""), t), t, result, tail);
  }

  lemma ReadsLines(header: RequestHeader, f: RawField, rest: string, result: RequestHeader, tail: string)
    requires ValidField(f) && f.value.Lines? && EndsValue(rest)
    requires Accepts(ReadFields(Add(header, f.name, ValueMeaning(f.value)), rest), rest, result, tail)
    ensures var s := f.lead + ValueOnto(f.value, rest);
            Accepts(ReadValueOf(header, f.name, s), s, result, tail)
  {
    var value := ValueOnto(f.value, rest);
    assert value[0] == f.value.first[0] != '\r';
    LeadingWhitespaceOf(f.lead, value);
    assert (f.lead + value)[|f.lead|] == value[0];
    UnfoldsLines(f.value.first, f.value.folds, rest);
    assert Accepts(TextOnwards(header, f.name, value), value, result, tail);
  }

  lemma {:induction false} ReadsFields(header: RequestHeader, fields: seq<RawField>, tail: string)
    requires ValidRawFields(fields)
    ensures EndsValue(FieldsOnto(fields, tail))
    ensures Accepts(ReadFields(header, FieldsOnto(fields, tail)), FieldsOnto(fields, tail), AddFields(header, fields), tail)
    decreases fields
  {
    if fields != [] {
      var f := fields[0];
      var rest := FieldsOnto(fields[1..], tail);
      ReadsFields(Add(header, f.name, ValueMeaning(f.value)), fields[1..], tail);
      ReadsField(header, f, rest, AddFields(header, fields), tail);
      assert FieldOnto(f, rest)[0] == f.name[0] && IsTokenChar(f.name[0]);
    }
  }

  lemma ReadsMinor(h: RawHeader, tail: string)
    requires ValidHeader(h)
    ensures var s := MinorOnto(h, tail);
            Accepts(MinorOnwards(h.verb, h.target, ToNumber(h.major, TWO_32).value, s), s, HeaderMeaning(h), tail)
  {
    hide Index, FieldsOnto, ReadFields;
    var fields := FieldsOnto(h.fields, tail);
    assert forall i :: 0 <= i < |h.minor| ==> IsDigit(h.minor[i]);
    LineEnd(h.minor, fields);
    var t := MinorOnto(h, tail)[|h.minor| + 1..];
    assert t == "\n" + fields && t[1..] == fields;
    var version := MakeVersion(ToNumber(h.major, TWO_32).value, ToNumber(h.minor, TWO_32).value);
    ReadsFields(RequestHeader(RequestLine(h.verb, h.target, version), []), h.fields, tail);
  }

  lemma ReadsMajor(h: RawHeader, tail: string)
    requires ValidHeader(h)
    ensures var s := MajorOnto(h, tail);
            Accepts(MajorOnwards(h.verb, h.target, s), s, HeaderMeaning(h), tail)
  {
    hide Index, MinorOnwards, MinorOnto;
    assert forall i :: 0 <= i < |h.major| ==> IsDigit(h.major[i]);
    IndexOfFirst(h.major, '.', MinorOnto(h, tail));
    ReadsMinor(h, tail);
  }

  lemma ReadsProtocol(h: RawHeader, tail: string)
    requires ValidHeader(h)
    ensures var s := ProtocolOnto(h, tail);
            Accepts(ProtocolOnwards(h.verb, h.target, s), s, HeaderMeaning(h), tail)
  {
    hide Index, MajorOnwards, MajorOnto;
    IndexOfFirst("HTTP", '/', MajorOnto(h, tail));
    ReadsMajor(h, tail);
  }

  lemma ReadsTarget(h: RawHeader, tail: string)
    requires ValidHeader(h)
    ensures var s := TargetOnto(h, tail);
            Accepts(TargetOnwards(h.verb, s), s, HeaderMeaning(h), tail)
  {
    hide Index, ProtocolOnwards, ProtocolOnto;
    assert forall i :: 0 <= i < |h.target| ==> !IsNotPrintable(h.target[i]);
    IndexOfFirst(h.target, ' ', ProtocolOnto(h, tail));
    ReadsProtocol(h, tail);
  }

  /** Completeness: every well-formed block is accepted, whatever follows it. */
  lemma AcceptsEveryRawHeader(h: RawHeader, tail: string)
    requires ValidHeader(h)
    ensures Accepts(ReadHeader(HeaderOnto(h, tail)), HeaderOnto(h, tail), HeaderMeaning(h), tail)
  {
    hide Index, TargetOnwards, TargetOnto;
    assert forall i :: 0 <= i < |h.verb| ==> IsTokenChar(h.verb[i]);
    IndexOfFirst(h.verb, ' ', TargetOnto(h, tail));
    ReadsTarget(h, tail);
  }

  // ---- Whatever is accepted is a raw header ----

  lemma {:induction false} RecoverLines(s: string) returns (line: string, folds: seq<Fold>, tail: string)
    requires Unfold(s).Unfolded?
    ensures s == line + FoldsOnto(folds, tail)
    ensures '\r' !in line && ValidFolds(folds) && EndsValue(tail)
    decreases |s|
  {
    hide Index, LeadingWhitespace, Unfold;
    UnfoldedLine(s);
    var i := Index(s, '\r');
    var rest := s[i + 2..];
    CutLine(s, i);
    IndexIsFirst(s, '\r');
    if Continues(s) {
      var text, more, t := RecoverLines(rest[LeadingWhitespace(rest)..]);
      ContinuedLine(rest, text, more, t);
      line, folds, tail := s[..i], [Fold(rest[..LeadingWhitespace(rest)], text)] + more, t;
    } else {
      line, folds, tail := s[..i], [], rest;
    }
  }

  lemma ContinuedLine(s: string, text: string, more: seq<Fold>, tail: string)
    requires 0 < LeadingWhitespace(s) < |s| && '\r' !in text && ValidFolds(more)
    requires s[LeadingWhitespace(s)..] == text + FoldsOnto(more, tail)
    ensures var f := Fold(s[..LeadingWhitespace(s)], text);
            ValidFolds([f] + more) && CRLF + s == FoldsOnto([f] + more, tail)
  {
    var k := LeadingWhitespace(s);
    LeadingWhitespaceIsBlank(s);
    SplitAt(s, k);
    assert text != [] ==> text[0] == s[k..][0] == s[k];
    assert ([Fold(s[..k], text)] + more)[1..] == more;
  }

  lemma CutLine(s: string, i: nat)
    requires i + 2 <= |s| && s[i] == '\r' && s[i + 1] == '\n'
    ensures s == s[..i] + (CRLF + s[i + 2..])
  {
  }

  lemma {:induction false} RecoverFields(header: RequestHeader, s: string) returns (fields: seq<RawField>, tail: string)
    requires ReadFields(header, s).ec == Completed
    ensures s == FieldsOnto(fields, tail) && ValidRawFields(fields)
    decreases |s|
  {
    if s[0] == '\r' {
      fields, tail := [], s[2..];
      assert s == CRLF + tail;
    } else {
      var f, rest := RecoverField(header, s);
      var more, t := RecoverFields(Add(header, f.name, ValueMeaning(f.value)), rest);
      fields, tail := [f] + more, t;
      assert fields[1..] == more;
    }
  }

  lemma RecoverField(header: RequestHeader, s: string) returns (f: RawField, rest: string)
    requires ReadFields(header, s).ec == Completed && s[0] != '\r'
    ensures s == FieldOnto(f, rest) && |rest| < |s| && ValidField(f)
    ensures ReadFields(Add(header, f.name, ValueMeaning(f.value)), rest).ec == Completed
  {
    var i := Index(s[1..], ':') + 1;
    var after := s[i + 1..];
    var w := LeadingWhitespace(after);
    var value;
    value, rest := RecoverValue(header, s[..i], after);
    f := RawField(s[..i], after[..w], value);
    LeadingWhitespaceIsBlank(after);
    CutAt(s, i);
  }

  lemma RecoverValue(header: RequestHeader, name: string, s: string) returns (value: RawValue, rest: string)
    requires ReadValueOf(header, name, s).ec == Completed
    ensures s == s[..LeadingWhitespace(s)] + ValueOnto(value, rest) && |rest| < |s|
    ensures IsToken(name) && ValidValue(value)
    ensures ReadFields(Add(header, name, ValueMeaning(value)), rest).ec == Completed
  {
    hide Index, LeadingWhitespace, Unfold, ReadFields;
    var w := LeadingWhitespace(s);
    SplitAt(s, w);
    if s[w] == '\r' {
      var t := s[w + 1..];
      assert NextLine(Add(header, name, ""), t).ec == Completed;
      value, rest := Blank, t[1..];
      CutLine(s, w);
      DropTwice(s, w + 1, 1);
    } else {
      value, rest := RecoverText(header, name, s[w..]);
    }
  }

  lemma RecoverText(header: RequestHeader, name: string, s: string) returns (value: RawValue, rest: string)
    requires s != [] && s[0] != '\r' && !IsStrictWhitespace(s[0])
    requires TextOnwards(header, name, s).ec == Completed
    ensures s == ValueOnto(value, rest) && |rest| < |s|
    ensures IsToken(name) && ValidValue(value)
    ensures ReadFields(Add(header, name, ValueMeaning(value)), rest).ec == Completed
  {
    hide Index, LeadingWhitespace, Unfold, ReadFields;
    var first, folds, tail := RecoverLines(s);
    UnfoldsLines(first, folds, tail);
    value, rest := Lines(first, folds), tail;
    assert first[0] == s[0];
  }

  lemma Recover(s: string) returns (h: RawHeader, tail: string)
    requires ReadHeader(s).ec == Completed
    ensures s == HeaderOnto(h, tail) && ValidHeader(h)
  {
    hide Index, TargetOnwards, TargetOnto;
    var i := Index(s, ' ');
    var verb, s1 := s[..i], s[i + 1..];
    CutAt(s, i);
    h, tail := RecoverTarget(verb, s1);
  }

  lemma RecoverTarget(verb: string, s: string) returns (h: RawHeader, tail: string)
    requires TargetOnwards(verb, s).ec == Completed && IsToken(verb)
    ensures s == TargetOnto(h, tail) && h.verb == verb && ValidHeader(h)
  {
    hide Index, ProtocolOnwards, ProtocolOnto;
    var i := Index(s, ' ');
    var target, s1 := s[..i], s[i + 1..];
    CutAt(s, i);
    h, tail := RecoverProtocol(verb, target, s1);
  }

  lemma RecoverProtocol(verb: string, target: string, s: string) returns (h: RawHeader, tail: string)
    requires ProtocolOnwards(verb, target, s).ec == Completed && IsToken(verb) && IsTarget(target)
    ensures s == ProtocolOnto(h, tail) && h.verb == verb && h.target == target && ValidHeader(h)
  {
    hide Index, MajorOnwards, MajorOnto;
    var i := Index(s, '/');
    CutAt(s, i);
    h, tail := RecoverVersion(verb, target, s[i + 1..]);
  }

  lemma RecoverVersion(verb: string, target: string, s: string) returns (h: RawHeader, tail: string)
    requires MajorOnwards(verb, target, s).ec == Completed && IsToken(verb) && IsTarget(target)
    ensures s == MajorOnto(h, tail) && h.verb == verb && h.target == target && ValidHeader(h)
  {
    var i := Index(s, '.');
    var major, s1 := s[..i], s[i + 1..];
    CutAt(s, i);
    var v := ToNumber(major, TWO_32).value;
    var j := Index(s1, '\r');
    var minor, s2 := s1[..j], s1[j + 1..];
    var header := RequestHeader(RequestLine(verb, target, MakeVersion(v, ToNumber(minor, TWO_32).value)), []);
    assert NextLine(header, s2).ec == Completed;
    var fields, t := RecoverFields(header, s2[1..]);
    CutLine(s1, j);
    h, tail := RawHeader(verb, target, major, minor, fields), t;
  }

  /** `s` is the text of the well-formed header `h`, and then `tail`. */
  ghost predicate Derives(h: RawHeader, s: string, tail: string) {
    ValidHeader(h) && s == HeaderOnto(h, tail)
  }

  /**
   The grammar is exact: the parser completes on `s` if and only if `s` starts with the text
   of a well-formed header; it then takes exactly that text and hands out what it means.
   */
  lemma {:induction false} ExactGrammar(s: string)
    ensures ReadHeader(s).ec == Completed <==> exists h, tail :: Derives(h, s, tail)
    ensures forall h, tail :: Derives(h, s, tail) ==> Accepts(ReadHeader(s), s, HeaderMeaning(h), tail)
  {
    if ReadHeader(s).ec == Completed {
      var h, tail := Recover(s);
      assert Derives(h, s, tail);
    }
    forall h, tail | Derives(h, s, tail) ensures Accepts(ReadHeader(s), s, HeaderMeaning(h), tail) {
      AcceptsEveryRawHeader(h, tail);
    }
  }
}
