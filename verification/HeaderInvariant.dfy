/**
 What holds in every state that the resumable parser can reach, and what it therefore hands
 out: only headers that a request can carry.
 */
module HeaderInvariant {
  import opened Text
  import opened Numbers
  import opened MessageHeader
  import opened FieldMaps
  import opened HeaderParser
  import opened HeaderSpec
  import opened HeaderPrinter

  /** The machine is inside the value of a field. */
  predicate InValue(p: Parser) {
    p.state in {ReadValue, CheckContinuation, SkipWsAfterNewline} ||
    (p.state == ExpectLinefeed && p.afterNewline == CheckContinuation)
  }

  /** The machine is between two fields, or before the first. */
  predicate BetweenFields(p: Parser) {
    p.state in {SkipWsBeforeValue, TerminateAtNoFieldName, ExpectLinefeedAndReturn} ||
    (p.state == ExpectLinefeed && p.afterNewline == TerminateAtNoFieldName)
  }

  predicate InRequestLine(state: State) {
    state in {ReadMethod, ReadTarget, ReadProtocolName, ReadVersionMajor, ReadVersionMinor}
  }

  ghost predicate ReachableState(p: Parser) {
    (InRequestLine(p.state) || p.state == ReadName || InValue(p) || BetweenFields(p)) &&
    (InRequestLine(p.state) ==> p.header.fields == []) &&
    (InValue(p) ==> p.buffer != [] && !IsStrictWhitespace(p.buffer[0])) &&
    (BetweenFields(p) ==> p.buffer == []) &&
    (p.state != ReadMethod ==> IsToken(p.header.line.verb)) &&
    (p.state != ReadMethod && p.state != ReadTarget ==> IsTarget(p.header.line.target)) &&
    p.header.line.version.packed < TWO_64 &&
    ValidFields(p.header.fields)
  }

  lemma RTrimKeepsStart(s: string)
    requires s != [] && !IsStrictWhitespace(s[0])
    ensures RTrim(s) != [] && RTrim(s)[0] == s[0]
  {
    RTrimCutsBlanks(s);
    assert s[0..] == s;
  }

  /** One octet keeps the invariant, whatever it is and whether or not it stops the machine. */
  lemma StepKeepsInvariant(p: Parser, c: char)
    requires ReachableState(p)
    ensures ReachableState(Step(p, c).next)
  {
    hide Append, RTrim, ToNumber, Sorted, IsToken, IsTarget, IsFieldValue;
    if p.state in {ReadVersionMajor, ReadVersionMinor} && ToNumber(p.buffer, TWO_32).Some? {
      NumberFits(p.buffer);
      VersionHalves(p.header.line.version, ToNumber(p.buffer, TWO_32).value, ToNumber(p.buffer, TWO_32).value);
    }
    if p.state == SkipWsBeforeValue && IsToken(p.name) {
      EmptyIsFieldValue();
      AppendKeepsValid(p.header.fields, p.name, "");
    }
    if p.state == CheckContinuation {
      RTrimKeepsStart(p.buffer);
      if IsToken(p.name) && IsFieldValue(RTrim(p.buffer)) {
        AppendKeepsValid(p.header.fields, p.name, RTrim(p.buffer));
      }
    }
  }

  lemma NumberFits(s: string)
    requires ToNumber(s, TWO_32).Some?
    ensures ToNumber(s, TWO_32).value < TWO_32
  {
  }

  lemma EmptyIsFieldValue()
    ensures IsFieldValue("")
  {
  }

  /** Every state that any input reaches keeps the invariant. */
  lemma {:induction false} FeedKeepsInvariant(p: Parser, input: string)
    requires ReachableState(p)
    ensures ReachableState(Feed(p, input).parser)
    decreases input
  {
    hide Step, ReachableState;
    if input != [] {
      StepKeepsInvariant(p, input[0]);
      match Step(p, input[0])
      case Stop(_, _) =>
      case Continue(q) => FeedKeepsInvariant(q, input[1..]);
    }
  }

  lemma FreshIsReachable()
    ensures ReachableState(FRESH)
  {
  }

  /** The source asserts that its buffer is empty where a value may begin: it always is. */
  lemma BufferAssertionHolds(pieces: seq<string>)
    ensures var p := FeedPieces(FRESH, pieces).parser;
            p.state == SkipWsBeforeValue ==> p.buffer == []
  {
    hide Feed, FeedPieces;
    FragmentationDoesNotMatter(FRESH, pieces);
    FreshIsReachable();
    FeedKeepsInvariant(FRESH, Flatten(pieces));
  }

  /** A completed parse hands out a valid header: token method and names, valid values. */
  lemma {:induction false} CompletedHeaderIsValid(s: string)
    requires ReadHeader(s).ec == Completed
    ensures ValidRequestHeader(ReadHeader(s).header)
  {
    hide Step, ReadHeader;
    MachineReadsHeader(s);
    FreshIsReachable();
    FeedKeepsInvariant(FRESH, s);
    CompletesAtEnd(FRESH, s);
  }

  lemma {:induction false} CompletesAtEnd(p: Parser, input: string)
    requires Feed(p, input).ec == Completed
    ensures Feed(p, input).parser.state == ExpectLinefeedAndReturn
    decreases input
  {
    match Step(p, input[0])
    case Stop(_, _) =>
    case Continue(q) => CompletesAtEnd(q, input[1..]);
  }

  /** Echoing: what was parsed from any stream can be printed and parsed to the same header. */
  lemma {:induction false} ParsePrintParse(s: string, tail: string)
    requires ReadHeader(s).ec == Completed
    ensures var header := ReadHeader(s).header;
            ReadHeader(PrintHeader(header) + tail) == Outcome(Completed, |PrintHeader(header)|, header)
  {
    hide ReadHeader, PrintHeader;
    CompletedHeaderIsValid(s);
    PrintedHeaderParsesBack(ReadHeader(s).header, tail);
  }
}
