/**
 Where a header ends: an accepted header stops at the first blank line of the stream, so no
 accepted header is a proper prefix of another.
 */
module HeaderDelimiting {
  import opened Text
  import opened Numbers
  import opened MessageHeader
  import opened HeaderParser
  import opened HeaderSpec
  import opened HeaderGrammar

  const BLANK_LINE := "\r\n\r\n"

  predicate BlankLineAt(s: string, i: nat) {
    i + 4 <= |s| && s[i..i + 4] == BLANK_LINE
  }

  /** The position of the first CRLF CRLF, or the length if there is none. */
  function FirstBlankLine(s: string): (i: nat)
    ensures i <= |s|
    decreases s
  {
    if s == [] || BlankLineAt(s, 0) then 0 else FirstBlankLine(s[1..]) + 1
  }

  lemma {:induction false} FirstBlankLineIsFirst(s: string)
    ensures FirstBlankLine(s) < |s| ==> BlankLineAt(s, FirstBlankLine(s))
    ensures forall j :: 0 <= j < FirstBlankLine(s) ==> !BlankLineAt(s, j)
    decreases s
  {
    if s != [] && !BlankLineAt(s, 0) {
      FirstBlankLineIsFirst(s[1..]);
      forall j | 0 < j < FirstBlankLine(s) ensures !BlankLineAt(s, j) {
        assert !BlankLineAt(s[1..], j - 1);
        if j + 4 <= |s| {
          assert s[j..j + 4] == s[1..][j - 1..j + 3];
        }
      }
      var i := FirstBlankLine(s) - 1;
      if i + 4 <= |s[1..]| {
        assert s[i + 1..i + 5] == s[1..][i..i + 4];
      }
    }
  }

  /** How far behind `s` the octets after its first blank line start. */
  function EndOfBlock(s: string): int {
    FirstBlankLine(s) + 4 - |s|
  }

  lemma {:induction false} SkipText(a: string, b: string)
    requires '\r' !in a
    ensures EndOfBlock(a + b) == EndOfBlock(b)
    decreases a
  {
    if a == [] {
      Neutral(b);
    } else {
      assert (a + b)[1..] == a[1..] + b;
      assert (a + b)[0] == a[0] != '\r';
      assert |a + b| >= 4 ==> (a + b)[0..4][0] == a[0];
      SkipText(a[1..], b);
    }
  }

  lemma SkipLineEnd(b: string)
    requires b != [] && b[0] != '\r'
    ensures EndOfBlock(CRLF + b) == EndOfBlock(b)
  {
    var s := CRLF + b;
    assert s[2] == b[0];
    assert !BlankLineAt(s, 0) by {
      if |s| >= 4 { assert s[0..4][2] == b[0]; }
    }
    assert s[1..] == "\n" + b;
    SkipText("\n", b);
  }

  lemma {:induction false} BlockOfFolds(folds: seq<Fold>, tail: string)
    requires ValidFolds(folds)
    ensures EndOfBlock(FoldsOnto(folds, tail)) == EndOfBlock(CRLF + tail)
    decreases folds
  {
    if folds != [] {
      var f := folds[0];
      assert ValidFold(f);
      var rest := f.text + FoldsOnto(folds[1..], tail);
      assert IsStrictWhitespace(f.blanks[0]) && (f.blanks + rest)[0] == f.blanks[0];
      assert forall i :: 0 <= i < |f.blanks| ==> IsStrictWhitespace(f.blanks[i]);
      SkipLineEnd(f.blanks + rest);
      SkipText(f.blanks, rest);
      SkipText(f.text, FoldsOnto(folds[1..], tail));
      BlockOfFolds(folds[1..], tail);
    }
  }

  lemma BlockOfField(f: RawField, tail: string)
    requires ValidField(f)
    ensures EndOfBlock(FieldOnto(f, tail)) == EndOfBlock(CRLF + tail)
  {
    var value := ValueOnto(f.value, tail);
    assert forall i :: 0 <= i < |f.name| ==> IsTokenChar(f.name[i]);
    SkipText(f.name, ":" + (f.lead + value));
    SkipText(":", f.lead + value);
    SkipText(f.lead, value);
    if f.value.Lines? {
      SkipText(f.value.first, FoldsOnto(f.value.folds, tail));
      BlockOfFolds(f.value.folds, tail);
    }
  }

  lemma {:induction false} BlockOfFields(fields: seq<RawField>, tail: string)
    requires ValidRawFields(fields)
    ensures EndOfBlock(CRLF + FieldsOnto(fields, tail)) == -|tail|
    decreases fields
  {
    if fields == [] {
      assert CRLF + FieldsOnto(fields, tail) == BLANK_LINE + tail;
      assert (BLANK_LINE + tail)[0..4] == BLANK_LINE;
    } else {
      var f, rest := fields[0], FieldsOnto(fields[1..], tail);
      assert IsTokenChar(f.name[0]) && FieldOnto(f, rest)[0] == f.name[0];
      SkipLineEnd(FieldOnto(f, rest));
      BlockOfField(f, rest);
      BlockOfFields(fields[1..], tail);
    }
  }

  lemma BlockOfHeader(h: RawHeader, tail: string)
    requires ValidHeader(h)
    ensures EndOfBlock(HeaderOnto(h, tail)) == -|tail|
  {
    hide FieldsOnto;
    assert forall i :: 0 <= i < |h.verb| ==> IsTokenChar(h.verb[i]);
    assert forall i :: 0 <= i < |h.target| ==> !IsNotPrintable(h.target[i]);
    assert forall i :: 0 <= i < |h.major| ==> IsDigit(h.major[i]);
    assert forall i :: 0 <= i < |h.minor| ==> IsDigit(h.minor[i]);
    SkipText(h.verb, " " + TargetOnto(h, tail));
    SkipText(" ", TargetOnto(h, tail));
    SkipText(h.target, " " + ProtocolOnto(h, tail));
    SkipText(" ", ProtocolOnto(h, tail));
    SkipText("HTTP", "/" + MajorOnto(h, tail));
    SkipText("/", MajorOnto(h, tail));
    SkipText(h.major, "." + MinorOnto(h, tail));
    SkipText(".", MinorOnto(h, tail));
    SkipText(h.minor, CRLF + FieldsOnto(h.fields, tail));
    BlockOfFields(h.fields, tail);
  }

  /**
   The octets that an accepted header takes end with the first blank line of the stream,
   even though names, values and the request line are stored unchecked until later.
   */
  lemma StopsAtFirstBlankLine(s: string)
    requires ReadHeader(s).ec == Completed
    ensures var end := ReadHeader(s).consumed;
            4 <= end <= |s| && BlankLineAt(s, end - 4) && forall j :: 0 <= j < end - 4 ==> !BlankLineAt(s, j)
  {
    hide ReadHeader;
    var h, tail := Recover(s);
    AcceptsEveryRawHeader(h, tail);
    BlockOfHeader(h, tail);
    FirstBlankLineIsFirst(s);
    assert FirstBlankLine(s) + 4 == |s| - |tail|;
  }

  /** `s` is accepted as a header from its first to its last octet. */
  predicate AcceptedWhole(s: string) {
    ReadHeader(s).ec == Completed && ReadHeader(s).consumed == |s|
  }

  /** No accepted header is a proper prefix of another. */
  lemma AcceptedHeadersArePrefixFree(a: string, b: string)
    requires AcceptedWhole(a) && AcceptedWhole(b) && a <= b
    ensures a == b
  {
    hide ReadHeader;
    StopsAtFirstBlankLine(a);
    StopsAtFirstBlankLine(b);
    assert BlankLineAt(b, |a| - 4) by {
      assert a[|a| - 4..|a|] == b[|a| - 4..|a|];
    }
  }
}
