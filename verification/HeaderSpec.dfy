/**
 The request header read in one shot: find the next delimiter, cut there, validate what was
 cut off. The resumable machine of HeaderParser is proved to compute exactly this.
 */
module HeaderSpec {
  import opened Text
  import opened Numbers
  import opened MessageHeader
  import opened HeaderParser

  /** What a parse comes to; the header means something only when `ec` is `Completed`. */
  datatype Outcome = Outcome(ec: ErrorCode, consumed: nat, header: RequestHeader) {
    function After(n: nat): Outcome {
      this.(consumed := consumed + n)
    }
  }

  function Reject(consumed: nat, ec: ErrorCode): Outcome {
    Outcome(ec, consumed, EMPTY_HEADER)
  }

  function Truncated(s: string): Outcome {
    Reject(|s|, MoreDataNeeded)
  }

  /** Request line: method, target, protocol name, major and minor version, CRLF. */
  function ReadHeader(s: string): Outcome {
    var i := Index(s, ' ');
    if i == |s| then Truncated(s)
    else if !IsToken(s[..i]) then Reject(i + 1, BadRequestMethod)
    else TargetOnwards(s[..i], s[i + 1..]).After(i + 1)
  }

  function TargetOnwards(verb: string, s: string): Outcome {
    var i := Index(s, ' ');
    if i == |s| then Truncated(s)
    else if !IsTarget(s[..i]) then Reject(i + 1, BadRequestTarget)
    else ProtocolOnwards(verb, s[..i], s[i + 1..]).After(i + 1)
  }

  function ProtocolOnwards(verb: string, target: string, s: string): Outcome {
    var i := Index(s, '/');
    if i == |s| then Truncated(s)
    else if s[..i] != "HTTP" then Reject(i + 1, WrongProtocol)
    else MajorOnwards(verb, target, s[i + 1..]).After(i + 1)
  }

  function MajorOnwards(verb: string, target: string, s: string): Outcome {
    var i := Index(s, '.');
    if i == |s| then Truncated(s)
    else match ToNumber(s[..i], TWO_32)
         case None => Reject(i + 1, BadProtocolVersion)
         case Some(major) => MinorOnwards(verb, target, major, s[i + 1..]).After(i + 1)
  }

  function MinorOnwards(verb: string, target: string, major: nat, s: string): Outcome {
    var i := Index(s, '\r');
    if i == |s| then Truncated(s)
    else match ToNumber(s[..i], TWO_32)
         case None => Reject(i + 1, BadProtocolVersion)
         case Some(minor) =>
           var header := RequestHeader(RequestLine(verb, target, MakeVersion(major, minor)), []);
           NextLine(header, s[i + 1..]).After(i + 1)
  }

  /** The linefeed that must follow a carriage return, then the fields. */
  function NextLine(header: RequestHeader, s: string): Outcome
    decreases |s|, 1
  {
    if s == [] then Truncated(s)
    else if s[0] != '\n' then Reject(1, ExpectedLinefeed)
    else ReadFields(header, s[1..]).After(1)
  }

  function Add(header: RequestHeader, name: string, value: string): RequestHeader {
    header.(fields := Append(header.fields, name, value))
  }

  /** Fields from the start of a line up to the empty line. */
  function ReadFields(header: RequestHeader, s: string): Outcome
    decreases |s|, 0
  {
    if s == [] then Truncated(s)
    else if s[0] == '\r' then
      if |s| == 1 then Truncated(s)
      else if s[1] == '\n' then Outcome(Completed, 2, header)
      else Reject(2, ExpectedLinefeed)
    else
      var i := Index(s[1..], ':') + 1;
      if i == |s| then Truncated(s)
      else ReadValueOf(header, s[..i], s[i + 1..]).After(i + 1)
  }

  /** The value of field `name`: empty, or unfolded, trimmed, validated and combined. */
  function ReadValueOf(header: RequestHeader, name: string, s: string): Outcome
    decreases |s|, 2
  {
    var w := LeadingWhitespace(s);
    if w == |s| then Truncated(s)
    else if s[w] == '\r' then
      if !IsToken(name) then Reject(w + 1, BadFieldName)
      else NextLine(Add(header, name, ""), s[w + 1..]).After(w + 1)
    else TextOnwards(header, name, s[w..]).After(w)
  }

  function TextOnwards(header: RequestHeader, name: string, s: string): Outcome
    decreases |s|, 1
  {
    match Unfold(s)
    case Cut => Truncated(s)
    case NoLinefeed(n) => Reject(n, ExpectedLinefeed)
    case Unfolded(text, n) => CommitOnwards(header, name, RTrim(text), s[n..]).After(n)
  }

  /** The octet after the value has been seen when its name and the value are judged. */
  function CommitOnwards(header: RequestHeader, name: string, value: string, s: string): Outcome
    decreases |s|, 1
  {
    if !IsToken(name) then Reject(1, BadFieldName)
    else if !IsFieldValue(value) then Reject(1, BadFieldValue)
    else ReadFields(Add(header, name, value), s)
  }

  datatype UnfoldResult = Cut | NoLinefeed(consumed: nat) | Unfolded(text: string, consumed: nat) {
    /** The same with `line` in front, which took `n` octets. */
    function Under(line: string, n: nat): UnfoldResult {
      match this
      case Cut => Cut
      case NoLinefeed(k) => NoLinefeed(n + k)
      case Unfolded(text, k) => Unfolded(line + text, n + k)
    }
  }

  /**
   A value with its continuation lines: each line loses its leading white space, an empty
   one vanishes, any other is put after a single blank. The octet after the last line end is
   needed to know that it was the last, and is not part of the value.
   */
  function Unfold(s: string): (r: UnfoldResult)
    ensures r.Unfolded? ==> 2 <= r.consumed < |s|
  {
    var i := Index(s, '\r');
    if i + 1 >= |s| then Cut
    else if s[i + 1] != '\n' then NoLinefeed(i + 2)
    else
      var rest := s[i + 2..];
      var k := LeadingWhitespace(rest);
      if k == |rest| then Cut
      else if k == 0 then Unfolded(s[..i], i + 2)
      else Unfold(rest[k..]).Under(s[..i] + Joint(rest[k]), i + 2 + k)
  }

  /** `s` starts with a line that another line continues. */
  predicate Continues(s: string) {
    var i := Index(s, '\r');
    i + 2 < |s| && s[i + 1] == '\n' && 0 < LeadingWhitespace(s[i + 2..]) < |s| - i - 2
  }

  lemma UnfoldStep(s: string)
    requires Continues(s)
    ensures var i := Index(s, '\r');
            var rest := s[i + 2..];
            var k := LeadingWhitespace(rest);
            Unfold(s) == Unfold(rest[k..]).Under(s[..i] + Joint(rest[k]), i + 2 + k)
  {
    hide Index, LeadingWhitespace;
  }

  /** An unfolded value ends a line, and then either continues or does not. */
  lemma UnfoldedLine(s: string)
    requires Unfold(s).Unfolded?
    ensures var i := Index(s, '\r');
            i + 2 < |s| && s[i + 1] == '\n' &&
            if Continues(s) then Unfold(s[i + 2..][LeadingWhitespace(s[i + 2..])..]).Unfolded?
            else !IsStrictWhitespace(s[i + 2..][0]) && Unfold(s).consumed == i + 2
  {
    hide Index, LeadingWhitespace;
    if Continues(s) {
      UnfoldStep(s);
    }
  }

  lemma {:induction false} UnfoldStops(s: string)
    ensures Unfold(s).Unfolded? ==> !IsStrictWhitespace(s[Unfold(s).consumed])
  {
    hide Index, LeadingWhitespace, Unfold;
    if Unfold(s).Unfolded? {
      UnfoldedLine(s);
      if Continues(s) {
        var i, rest := Index(s, '\r'), s[Index(s, '\r') + 2..];
        var k := LeadingWhitespace(rest);
        UnfoldStep(s);
        UnfoldStops(rest[k..]);
        DropTwice(s, i + 2, k);
      }
    }
  }

  /** What joins a line of a value to the continuation that starts with `c`. */
  function Joint(c: char): string {
    if c == '\r' then "" else " "
  }

  // ---- The machine computes the one-shot reading ----

  /** What the machine reports, with the header it hands out on completion. */
  function Report(r: FeedResult): Outcome {
    if r.ec == Completed then Outcome(r.ec, r.consumed, r.parser.header) else Reject(r.consumed, r.ec)
  }

  /** Octets that a state just stores. */
  predicate Stores(state: State, c: char) {
    match state
    case ReadMethod => c != ' '
    case ReadTarget => c != ' '
    case ReadProtocolName => c != '/'
    case ReadVersionMajor => c != '.'
    case ReadVersionMinor => c != '\r'
    case ReadName => c != ':'
    case ReadValue => c != '\r'
    case _ => false
  }

  lemma {:induction false} Storing(p: Parser, s: string, i: nat)
    requires i <= |s| && forall k :: 0 <= k < i ==> Stores(p.state, s[k])
    ensures Feed(p, s) == Feed(p.(buffer := p.buffer + s[..i]), s[i..]).After(i)
    decreases i
  {
    if i == 0 {
      assert p.buffer + s[..0] == p.buffer;
    } else {
      Storing(p.Buffering(s[0]), s[1..], i - 1);
      assert p.buffer + [s[0]] + s[1..][..i - 1] == p.buffer + s[..i];
      assert Step(p, s[0]) == Continue(p.Buffering(s[0]));
    }
  }

  lemma {:induction false} Skipping(p: Parser, s: string, i: nat)
    requires p.state == SkipWsBeforeValue || p.state == SkipWsAfterNewline
    requires i <= |s| && AllWhitespace(s[..i])
    ensures Feed(p, s) == Feed(p, s[i..]).After(i)
    decreases i
  {
    if i > 0 {
      AllWhitespaceTail(s[..i]);
      assert s[..i][1..] == s[1..][..i - 1];
      Skipping(p, s[1..], i - 1);
    }
  }

  /** Storing up to the first `c`: all of `s` if there is none, else one step on `c` remains. */
  lemma StoringUpTo(p: Parser, s: string, c: char)
    requires forall d :: d != c ==> Stores(p.state, d)
    ensures var i := Index(s, c);
            var q := p.(buffer := p.buffer + s[..i]);
            if i == |s| then Feed(p, s) == FeedResult(q, i, MoreDataNeeded)
            else Feed(p, s) == (match Step(q, c)
                                case Stop(r, ec) => FeedResult(r, i + 1, ec)
                                case Continue(r) => Feed(r, s[i + 1..]).After(i + 1))
  {
    var i := Index(s, c);
    IndexIsFirst(s, c);
    Storing(p, s, i);
    if i < |s| {
      assert s[i..][0] == c && s[i..][1..] == s[i + 1..];
    }
  }

  lemma MachineReadsHeader(s: string)
    ensures Report(Feed(FRESH, s)) == ReadHeader(s)
  {
    hide Feed, Index, TargetOnwards;
    StoringUpTo(FRESH, s, ' ');
    var i := Index(s, ' ');
    Neutral(s[..i]);
    if i < |s| && IsToken(s[..i]) {
      var header := EMPTY_HEADER.(line := EMPTY_HEADER.line.(verb := s[..i]));
      var p := Parser(ReadTarget, ReadMethod, "", "", header);
      MachineReadsTarget(p, s[i + 1..]);
    }
  }

  lemma MachineReadsTarget(p: Parser, s: string)
    requires p.state == ReadTarget && p.buffer == "" && p.header.line.version == Version(0)
    requires p.header.fields == [] && p.name == ""
    ensures Report(Feed(p, s)) == TargetOnwards(p.header.line.verb, s)
  {
    hide Feed, Index, ProtocolOnwards;
    StoringUpTo(p, s, ' ');
    var i := Index(s, ' ');
    Neutral(s[..i]);
    if i < |s| && IsTarget(s[..i]) {
      var header := p.header.(line := p.header.line.(target := s[..i]));
      MachineReadsProtocol(p.(state := ReadProtocolName, header := header), s[i + 1..]);
    }
  }

  lemma MachineReadsProtocol(p: Parser, s: string)
    requires p.state == ReadProtocolName && p.buffer == "" && p.header.line.version == Version(0)
    requires p.header.fields == [] && p.name == ""
    ensures Report(Feed(p, s)) == ProtocolOnwards(p.header.line.verb, p.header.line.target, s)
  {
    hide Feed, Index, MajorOnwards;
    StoringUpTo(p, s, '/');
    var i := Index(s, '/');
    Neutral(s[..i]);
    if i < |s| && s[..i] == "HTTP" {
      MachineReadsMajor(p.(state := ReadVersionMajor), s[i + 1..]);
    }
  }

  lemma MachineReadsMajor(p: Parser, s: string)
    requires p.state == ReadVersionMajor && p.buffer == "" && p.header.line.version == Version(0)
    requires p.header.fields == [] && p.name == ""
    ensures Report(Feed(p, s)) == MajorOnwards(p.header.line.verb, p.header.line.target, s)
  {
    hide Feed, Index, MinorOnwards;
    StoringUpTo(p, s, '.');
    var i := Index(s, '.');
    Neutral(s[..i]);
    if i < |s| && ToNumber(s[..i], TWO_32).Some? {
      var major := ToNumber(s[..i], TWO_32).value;
      assert Version(0).WithMajor(major) == MakeVersion(major, 0);
      MachineReadsMinor(p.WithVersion(MakeVersion(major, 0)).(state := ReadVersionMinor), major, s[i + 1..]);
    }
  }

  lemma MachineReadsMinor(p: Parser, major: nat, s: string)
    requires p.state == ReadVersionMinor && p.buffer == "" && p.name == ""
    requires p.header.line.version == MakeVersion(major, 0) && p.header.fields == [] && major < TWO_32
    ensures Report(Feed(p, s)) == MinorOnwards(p.header.line.verb, p.header.line.target, major, s)
  {
    hide Feed, Index, NextLine, ToNumber;
    StoringUpTo(p, s, '\r');
    var i := Index(s, '\r');
    Neutral(s[..i]);
    if i < |s| && ToNumber(s[..i], TWO_32).Some? {
      var minor := ToNumber(s[..i], TWO_32).value;
      assert MakeVersion(major, 0).WithMinor(minor) == MakeVersion(major, minor);
      var q := p.WithVersion(MakeVersion(major, minor)).(state := ExpectLinefeed, afterNewline := TerminateAtNoFieldName);
      MachineReadsNextLine(q, s[i + 1..]);
    }
  }

  lemma MachineReadsNextLine(p: Parser, s: string)
    requires p.state == ExpectLinefeed && p.afterNewline == TerminateAtNoFieldName
    requires p.buffer == "" && p.name == ""
    ensures Report(Feed(p, s)) == NextLine(p.header, s)
    decreases |s|, 1
  {
    if s != [] && s[0] == '\n' {
      MachineReadsFields(p.(state := TerminateAtNoFieldName), s[1..]);
    }
  }

  lemma MachineReadsFields(p: Parser, s: string)
    requires p.state == TerminateAtNoFieldName && p.buffer == "" && p.name == ""
    ensures Report(Feed(p, s)) == ReadFields(p.header, s)
    decreases |s|, 0
  {
    if s != [] {
      if s[0] == '\r' {
        MachineEnds(p, s);
      } else {
        assert "" + [s[0]] == [s[0]];
        MachineReadsName(p.(state := ReadName, buffer := [s[0]]), s);
      }
    }
  }

  lemma MachineEnds(p: Parser, s: string)
    requires p.state == TerminateAtNoFieldName && p.buffer == "" && p.name == ""
    requires s != [] && s[0] == '\r'
    ensures Report(Feed(p, s)) == ReadFields(p.header, s)
  {
    var q := p.(state := ExpectLinefeedAndReturn);
    assert Step(p, s[0]) == Continue(q);
    if |s| > 1 {
      assert s[1..][0] == s[1];
    }
  }

  lemma MachineReadsName(p: Parser, s: string)
    requires s != [] && s[0] != '\r'
    requires p.state == ReadName && p.buffer == [s[0]] && p.name == ""
    ensures Report(Feed(p, s[1..]).After(1)) == ReadFields(p.header, s)
    decreases |s|, 0, 0
  {
    StoringUpTo(p, s[1..], ':');
    var i := Index(s[1..], ':') + 1;
    TakeOneMore(s, i - 1);
    if i < |s| {
      DropTwice(s, 1, i);
      MachineReadsValue(p.(state := SkipWsBeforeValue, name := s[..i], buffer := ""), s[i + 1..]);
    }
  }

  lemma MachineReadsValue(p: Parser, s: string)
    requires p.state == SkipWsBeforeValue && p.buffer == ""
    ensures Report(Feed(p, s)) == ReadValueOf(p.header, p.name, s)
    decreases |s|, 2
  {
    var w := LeadingWhitespace(s);
    LeadingWhitespaceIsBlank(s);
    Skipping(p, s, w);
    if w < |s| {
      var rest := s[w..];
      assert rest[0] == s[w] && rest[1..] == s[w + 1..];
      if s[w] == '\r' {
        if IsToken(p.name) {
          var q := p.Committed("").(state := ExpectLinefeed, afterNewline := TerminateAtNoFieldName);
          assert Step(p, rest[0]) == Continue(q);
          MachineReadsNextLine(q, s[w + 1..]);
        }
      } else {
        MachineReadsText(p, rest);
      }
    }
  }

  lemma MachineReadsText(p: Parser, s: string)
    requires p.state == SkipWsBeforeValue && p.buffer == ""
    requires s != [] && s[0] != '\r' && !IsStrictWhitespace(s[0])
    ensures Report(Feed(p, s)) == TextOnwards(p.header, p.name, s)
    decreases |s|, 1
  {
    var q := p.(state := ReadValue);
    assert Step(p, s[0]) == Step(q, s[0]);
    MachineUnfolds(q, s);
    match Unfold(s)
    case Cut =>
    case NoLinefeed(n) =>
    case Unfolded(text, n) =>
      Neutral(text);
      UnfoldStops(s);
      MachineCommits(AfterValue(q, text), s[n..]);
  }

  function AfterValue(p: Parser, text: string): Parser {
    p.(state := CheckContinuation, afterNewline := CheckContinuation, buffer := p.buffer + text)
  }

  /** What is reported once a value has been read as `u` says. */
  function ReportAfter(p: Parser, s: string, u: UnfoldResult): Outcome {
    match u
    case Cut => Truncated(s)
    case NoLinefeed(n) => Reject(n, ExpectedLinefeed)
    case Unfolded(text, n) =>
      if n <= |s| then Report(Feed(AfterValue(p, text), s[n..])).After(n) else Truncated(s)
  }

  /** From inside a value to the octet that decides that the value has ended. */
  lemma MachineUnfolds(p: Parser, s: string)
    requires p.state == ReadValue
    ensures Report(Feed(p, s)) == ReportAfter(p, s, Unfold(s))
    decreases |s|
  {
    hide Feed, Step, Index, LeadingWhitespace, Unfold, ReportAfter;
    if Continues(s) {
      var i, rest := Index(s, '\r'), s[Index(s, '\r') + 2..];
      var k := LeadingWhitespace(rest);
      var line := s[..i] + Joint(rest[k]);
      var u := p.(afterNewline := CheckContinuation, buffer := p.buffer + line);
      MachineReachesNextLine(p, u, s);
      MachineUnfolds(u, rest[k..]);
      UnfoldStep(s);
      DropTwice(s, i + 2, k);
      ReportAfterLine(p, u, line, i + 2 + k, s, Unfold(rest[k..]));
    } else {
      MachineUnfoldsLastLine(p, s);
    }
  }

  lemma MachineUnfoldsLastLine(p: Parser, s: string)
    requires p.state == ReadValue && !Continues(s)
    ensures Report(Feed(p, s)) == ReportAfter(p, s, Unfold(s))
  {
    hide Step, Index, LeadingWhitespace;
    MachineEndsLine(p, s);
    var i := Index(s, '\r');
    if i + 1 < |s| && s[i + 1] == '\n' && LeadingWhitespace(s[i + 2..]) > 0 {
      MachineFolds(AfterValue(p, s[..i]), s[i + 2..]);
    }
  }

  lemma MachineReachesNextLine(p: Parser, u: Parser, s: string)
    requires p.state == ReadValue && Continues(s)
    requires var i := Index(s, '\r');
             var rest := s[i + 2..];
             u == p.(afterNewline := CheckContinuation,
                     buffer := p.buffer + (s[..i] + Joint(rest[LeadingWhitespace(rest)])))
    ensures var i := Index(s, '\r');
            var k := LeadingWhitespace(s[i + 2..]);
            Feed(p, s) == Feed(u, s[i + 2..][k..]).After(i + 2 + k)
  {
    hide Feed, Step, Index, LeadingWhitespace;
    var i := Index(s, '\r');
    var rest := s[i + 2..];
    MachineEndsLine(p, s);
    MachineFolds(AfterValue(p, s[..i]), rest);
    Associates(p.buffer, s[..i], Joint(rest[LeadingWhitespace(rest)]));
  }

  lemma ReportAfterLine(p: Parser, u: Parser, line: string, w: nat, s: string, r: UnfoldResult)
    requires w <= |s|
    requires u == p.(afterNewline := CheckContinuation, buffer := p.buffer + line)
    ensures ReportAfter(u, s[w..], r).After(w) == ReportAfter(p, s, r.Under(line, w))
  {
    match r
    case Cut =>
    case NoLinefeed(n) =>
    case Unfolded(text, n) =>
      Associates(p.buffer, line, text);
      if w + n <= |s| {
        DropTwice(s, w, n);
      }
  }

  /** A line of a value and its line end: the machine is left looking for a continuation. */
  lemma MachineEndsLine(p: Parser, s: string)
    requires p.state == ReadValue
    ensures var i := Index(s, '\r');
            if i + 1 >= |s| then Report(Feed(p, s)) == Truncated(s)
            else if s[i + 1] != '\n' then Report(Feed(p, s)) == Reject(i + 2, ExpectedLinefeed)
            else Feed(p, s) == Feed(AfterValue(p, s[..i]), s[i + 2..]).After(i + 2)
  {
    StoringUpTo(p, s, '\r');
    var i := Index(s, '\r');
    if i + 1 < |s| {
      var rest := s[i + 1..];
      assert rest[0] == s[i + 1] && rest[1..] == s[i + 2..];
    }
  }

  /** The white space of a continuation line, up to the octet that resumes the value. */
  lemma MachineFolds(p: Parser, s: string)
    requires p.state == CheckContinuation && p.afterNewline == CheckContinuation
    requires LeadingWhitespace(s) > 0
    ensures var k := LeadingWhitespace(s);
            if k == |s| then Report(Feed(p, s)) == Truncated(s)
            else Feed(p, s) == Feed(p.(state := ReadValue, buffer := p.buffer + Joint(s[k])), s[k..]).After(k)
  {
    var k := LeadingWhitespace(s);
    LeadingWhitespaceIsBlank(s);
    MachineSkipsFold(p, s, k);
    if k < |s| {
      MachineResumesAfterFold(p.(state := SkipWsAfterNewline), s[k..]);
    }
  }

  lemma MachineSkipsFold(p: Parser, s: string, k: nat)
    requires p.state == CheckContinuation
    requires 0 < k <= |s| && AllWhitespace(s[..k])
    ensures Feed(p, s) == Feed(p.(state := SkipWsAfterNewline), s[k..]).After(k)
  {
    var q := p.(state := SkipWsAfterNewline);
    assert IsStrictWhitespace(s[..k][0]);
    assert Step(p, s[0]) == Continue(q) == Step(q, s[0]);
    assert Feed(p, s) == Feed(q, s);
    Skipping(q, s, k);
  }

  /** The first octet that is not white space puts one blank in, unless the line is empty. */
  lemma MachineResumesAfterFold(p: Parser, s: string)
    requires p.state == SkipWsAfterNewline
    requires s != [] && !IsStrictWhitespace(s[0])
    ensures Feed(p, s) ==
            Feed(p.(state := ReadValue, buffer := p.buffer + Joint(s[0])), s)
  {
    if s[0] == '\r' {
      Neutral(p.buffer);
    }
  }

  lemma MachineCommits(p: Parser, s: string)
    requires p.state == CheckContinuation
    requires s != [] && !IsStrictWhitespace(s[0])
    ensures Report(Feed(p, s)) == CommitOnwards(p.header, p.name, RTrim(p.buffer), s)
    decreases |s|, 1
  {
    var value := RTrim(p.buffer);
    if IsToken(p.name) && IsFieldValue(value) {
      var q := p.Committed(value).(state := TerminateAtNoFieldName, buffer := "");
      if s[0] == '\r' {
        MachineEnds(q, s);
        assert Step(p, s[0]) == Step(q, s[0]);
      } else {
        MachineReadsName(q.(state := ReadName, buffer := [s[0]]), s);
      }
    }
  }

  /** However the input is cut, the machine reports what one reading of the whole reports. */
  lemma {:induction false} ParserRefinesOneShot(pieces: seq<string>)
    ensures Report(FeedPieces(FRESH, pieces)) == ReadHeader(Flatten(pieces))
  {
    FragmentationDoesNotMatter(FRESH, pieces);
    MachineReadsHeader(Flatten(pieces));
  }
}
