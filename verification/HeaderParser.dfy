/**
 The resumable request-header parser: a state machine over single octets that validates
 what it has buffered only when a later octet commits it.
 */
module HeaderParser {
  import opened Text
  import opened Numbers
  import opened MessageHeader

  datatype ErrorCode =
    | Completed
    | MoreDataNeeded
    | BadRequestMethod
    | BadRequestTarget
    | WrongProtocol
    | BadProtocolVersion
    | ExpectedLinefeed
    | BadFieldName
    | BadFieldValue

  function ErrorText(ec: ErrorCode): string {
    match ec
    case Completed => "Completed"
    case MoreDataNeeded => "Header truncated"
    case BadRequestMethod => "Bad request method"
    case BadRequestTarget => "Bad request target"
    case WrongProtocol => "Wrong protocol"
    case BadProtocolVersion => "Bad protocol version"
    case ExpectedLinefeed => "Expected linefeed"
    case BadFieldName => "Bad field name"
    case BadFieldValue => "Bad field value"
  }

  datatype State =
    | ReadMethod
    | ReadTarget
    | ReadProtocolName
    | ReadVersionMajor
    | ReadVersionMinor
    | TerminateAtNoFieldName
    | ReadName
    | SkipWsBeforeValue
    | ReadValue
    | CheckContinuation
    | SkipWsAfterNewline
    | ExpectLinefeed
    | ExpectLinefeedAndReturn

  /** All that the parser remembers between two octets. */
  datatype Parser = Parser(
    state: State,
    afterNewline: State,
    buffer: string,
    name: string,
    header: RequestHeader)
  {
    function WithVersion(v: Version): Parser {
      this.(header := header.(line := header.line.(version := v)))
    }

    function Committed(value: string): Parser {
      this.(name := "", header := header.(fields := Append(header.fields, name, value)))
    }

    function Buffering(c: char): Parser {
      this.(buffer := buffer + [c])
    }
  }

  const FRESH := Parser(ReadMethod, ReadMethod, "", "", EMPTY_HEADER)

  datatype StepResult = Continue(next: Parser) | Stop(next: Parser, ec: ErrorCode)

  /** One octet. */
  function Step(p: Parser, c: char): StepResult {
    match p.state
    case ReadMethod =>
      if c != ' ' then Continue(p.Buffering(c))
      else if !IsToken(p.buffer) then Stop(p, BadRequestMethod)
      else Continue(p.(state := ReadTarget, buffer := "",
                       header := p.header.(line := p.header.line.(verb := p.buffer))))
    case ReadTarget =>
      if c != ' ' then Continue(p.Buffering(c))
      else if !IsTarget(p.buffer) then Stop(p, BadRequestTarget)
      else Continue(p.(state := ReadProtocolName, buffer := "",
                       header := p.header.(line := p.header.line.(target := p.buffer))))
    case ReadProtocolName =>
      if c != '/' then Continue(p.Buffering(c))
      else if p.buffer != "HTTP" then Stop(p, WrongProtocol)
      else Continue(p.(state := ReadVersionMajor, buffer := ""))
    case ReadVersionMajor =>
      if c != '.' then Continue(p.Buffering(c))
      else (match ToNumber(p.buffer, TWO_32)
            case None => Stop(p, BadProtocolVersion)
            case Some(v) => Continue(p.WithVersion(p.header.line.version.WithMajor(v))
                                      .(state := ReadVersionMinor, buffer := "")))
    case ReadVersionMinor =>
      if c != '\r' then Continue(p.Buffering(c))
      else (match ToNumber(p.buffer, TWO_32)
            case None => Stop(p, BadProtocolVersion)
            case Some(v) => Continue(p.WithVersion(p.header.line.version.WithMinor(v))
                                      .(state := ExpectLinefeed, afterNewline := TerminateAtNoFieldName, buffer := "")))
    case TerminateAtNoFieldName =>
      if c == '\r' then Continue(p.(state := ExpectLinefeedAndReturn))
      else Continue(p.Buffering(c).(state := ReadName))
    case ReadName =>
      if c != ':' then Continue(p.Buffering(c))
      else Continue(p.(state := SkipWsBeforeValue, name := p.buffer, buffer := ""))
    case SkipWsBeforeValue =>
      if c == '\r' then
        if !IsToken(p.name) then Stop(p, BadFieldName)
        else Continue(p.Committed("").(state := ExpectLinefeed, afterNewline := TerminateAtNoFieldName))
      else if IsStrictWhitespace(c) then Continue(p)
      else Continue(p.Buffering(c).(state := ReadValue))
    case ReadValue =>
      if c == '\r' then Continue(p.(state := ExpectLinefeed, afterNewline := CheckContinuation))
      else Continue(p.Buffering(c))
    case CheckContinuation =>
      if IsStrictWhitespace(c) then Continue(p.(state := SkipWsAfterNewline))
      else if !IsToken(p.name) then Stop(p, BadFieldName)
      else
        var value := RTrim(p.buffer);
        if !IsFieldValue(value) then Stop(p.(name := "", buffer := value), BadFieldValue)
        else if c == '\r' then Continue(p.Committed(value).(state := ExpectLinefeedAndReturn, buffer := ""))
        else Continue(p.Committed(value).(state := ReadName, buffer := [c]))
    case SkipWsAfterNewline =>
      if c == '\r' then Continue(p.(state := ExpectLinefeed, afterNewline := CheckContinuation))
      else if IsStrictWhitespace(c) then Continue(p)
      else Continue(p.Buffering(' ').Buffering(c).(state := ReadValue))
    case ExpectLinefeed =>
      if c == '\n' then Continue(p.(state := p.afterNewline)) else Stop(p, ExpectedLinefeed)
    case ExpectLinefeedAndReturn =>
      Stop(p, if c == '\n' then Completed else ExpectedLinefeed)
  }

  datatype FeedResult = FeedResult(parser: Parser, consumed: nat, ec: ErrorCode) {
    function After(n: nat): FeedResult {
      this.(consumed := consumed + n)
    }
  }

  /** A whole block of octets, up to the first that stops the machine. */
  function Feed(p: Parser, input: string): (r: FeedResult)
    ensures r.consumed <= |input|
    ensures r.ec == MoreDataNeeded ==> r.consumed == |input|
    ensures input != [] ==> r.consumed > 0
    decreases input
  {
    if input == [] then FeedResult(p, 0, MoreDataNeeded)
    else match Step(p, input[0])
         case Stop(q, ec) => FeedResult(q, 1, ec)
         case Continue(q) => Feed(q, input[1..]).After(1)
  }

  /** Parsing `a + b` is parsing `a`, and then `b` from where `a` left the machine. */
  lemma {:induction false} FeedConcat(p: Parser, a: string, b: string)
    ensures var r := Feed(p, a);
            Feed(p, a + b) == if r.ec != MoreDataNeeded then r else Feed(r.parser, b).After(|a|)
    decreases a
  {
    if a == [] {
      assert a + b == b;
    } else {
      assert (a + b)[0] == a[0] && (a + b)[1..] == a[1..] + b;
      match Step(p, a[0])
      case Stop(_, _) =>
      case Continue(q) => FeedConcat(q, a[1..], b);
    }
  }

  /** The caller's loop over the pieces in which a stream happens to arrive. */
  function FeedPieces(p: Parser, pieces: seq<string>): FeedResult
    decreases pieces
  {
    if pieces == [] then FeedResult(p, 0, MoreDataNeeded)
    else
      var r := Feed(p, pieces[0]);
      if r.ec != MoreDataNeeded then r else FeedPieces(r.parser, pieces[1..]).After(|pieces[0]|)
  }

  /** However the input is cut: same state, same consumed count, same code. */
  lemma {:induction false} FragmentationDoesNotMatter(p: Parser, pieces: seq<string>)
    ensures FeedPieces(p, pieces) == Feed(p, Flatten(pieces))
    decreases pieces
  {
    if pieces != [] {
      FeedConcat(p, pieces[0], Flatten(pieces[1..]));
      FragmentationDoesNotMatter(Feed(p, pieces[0]).parser, pieces[1..]);
    }
  }

  /** The parser object, with the fields that `parse` updates. */
  class RequestHeaderParser {
    var currentState: State
    var stateAfterNewline: State
    var buffer: string
    var currentFieldName: string
    var reqHeader: RequestHeader

    function Contents(): Parser
      reads this
    {
      Parser(currentState, stateAfterNewline, buffer, currentFieldName, reqHeader)
    }

    constructor ()
      ensures Contents() == FRESH
    {
      currentState, stateAfterNewline := ReadMethod, ReadMethod;
      buffer, currentFieldName, reqHeader := "", "", EMPTY_HEADER;
    }

    /** Puts back a state in which the machine has been left. */
    method Restore(p: Parser)
      modifies this
      ensures Contents() == p
    {
      currentState, stateAfterNewline := p.state, p.afterNewline;
      buffer, currentFieldName, reqHeader := p.buffer, p.name, p.header;
    }

    method Parse(input: string) returns (consumed: nat, ec: ErrorCode)
      modifies this
      ensures FeedResult(Contents(), consumed, ec) == Feed(old(Contents()), input)
    {
      consumed := 0;
      while true
        invariant consumed <= |input|
        invariant Feed(old(Contents()), input) == Feed(Contents(), input[consumed..]).After(consumed)
        decreases |input| - consumed
      {
        if consumed == |input| {
          return consumed, MoreDataNeeded;
        }
        ghost var p := Contents();
        ghost var rest := input[consumed..];
        var c := input[consumed];
        assert rest[0] == c && rest[1..] == input[consumed + 1..];
        consumed := consumed + 1;
        var status := ParseOctet(c);
        if status != MoreDataNeeded {
          assert Step(p, c) == Stop(Contents(), status);
          return consumed, status;
        }
        assert Step(p, c) == Continue(Contents());
      }
    }

    /** The switch inside the loop of `parse`; `MoreDataNeeded` stands for going round again. */
    method ParseOctet(c: char) returns (ec: ErrorCode)
      modifies this
      ensures Step(old(Contents()), c) ==
              if ec == MoreDataNeeded then Continue(Contents()) else Stop(Contents(), ec)
    {
      ec := MoreDataNeeded;
      match currentState
      case ReadMethod =>
        if c != ' ' {
          buffer := buffer + [c];
        } else if IsToken(buffer) {
          currentState := ReadTarget;
          reqHeader := reqHeader.(line := reqHeader.line.(verb := buffer));
          buffer := "";
        } else {
          ec := BadRequestMethod;
        }
      case ReadTarget =>
        if c != ' ' {
          buffer := buffer + [c];
        } else if IsTarget(buffer) {
          currentState := ReadProtocolName;
          reqHeader := reqHeader.(line := reqHeader.line.(target := buffer));
          buffer := "";
        } else {
          ec := BadRequestTarget;
        }
      case ReadProtocolName =>
        if c != '/' {
          buffer := buffer + [c];
        } else if buffer != "HTTP" {
          ec := WrongProtocol;
        } else {
          buffer := "";
          currentState := ReadVersionMajor;
        }
      case ReadVersionMajor =>
        if c != '.' {
          buffer := buffer + [c];
        } else {
          var val := ToNumber(buffer, TWO_32);
          if val.Some? {
            SetVersion(reqHeader.line.version.WithMajor(val.value));
            currentState := ReadVersionMinor;
            buffer := "";
          } else {
            ec := BadProtocolVersion;
          }
        }
      case ReadVersionMinor =>
        if c != '\r' {
          buffer := buffer + [c];
        } else {
          var val := ToNumber(buffer, TWO_32);
          if val.Some? {
            SetVersion(reqHeader.line.version.WithMinor(val.value));
            stateAfterNewline := TerminateAtNoFieldName;
            buffer := "";
            currentState := ExpectLinefeed;
          } else {
            ec := BadProtocolVersion;
          }
        }
      case ExpectLinefeed =>
        if c != '\n' {
          ec := ExpectedLinefeed;
        } else {
          currentState := stateAfterNewline;
        }
      case TerminateAtNoFieldName =>
        if c == '\r' {
          currentState := ExpectLinefeedAndReturn;
        } else {
          buffer := buffer + [c];
          currentState := ReadName;
        }
      case ReadName =>
        if c == ':' {
          currentFieldName := buffer;
          buffer := "";
          currentState := SkipWsBeforeValue;
        } else {
          buffer := buffer + [c];
        }
      case SkipWsBeforeValue =>
        if c == '\r' {
          if !IsToken(currentFieldName) {
            ec := BadFieldName;
          } else {
            AppendField("");
            stateAfterNewline := TerminateAtNoFieldName;
            currentState := ExpectLinefeed;
          }
        } else if !IsStrictWhitespace(c) {
          buffer := buffer + [c];
          currentState := ReadValue;
        }
      case ReadValue =>
        if c == '\r' {
          stateAfterNewline := CheckContinuation;
          currentState := ExpectLinefeed;
        } else {
          buffer := buffer + [c];
        }
      case CheckContinuation =>
        if c == '\t' || c == ' ' {
          currentState := SkipWsAfterNewline;
        } else if !IsToken(currentFieldName) {
          ec := BadFieldName;
        } else {
          buffer := RTrimInPlace(buffer);
          if IsFieldValue(buffer) {
            AppendField(buffer);
            buffer := "";
            if c == '\r' {
              currentState := ExpectLinefeedAndReturn;
            } else {
              buffer := buffer + [c];
              currentState := ReadName;
            }
          } else {
            currentFieldName := "";
            ec := BadFieldValue;
          }
        }
      case SkipWsAfterNewline =>
        if c == '\r' {
          stateAfterNewline := CheckContinuation;
          currentState := ExpectLinefeed;
        } else if c != '\t' && c != ' ' {
          buffer := buffer + [' '];
          buffer := buffer + [c];
          currentState := ReadValue;
        }
      case ExpectLinefeedAndReturn =>
        ec := if c == '\n' then Completed else ExpectedLinefeed;
    }

    method SetVersion(v: Version)
      modifies this`reqHeader
      ensures Contents() == old(Contents()).WithVersion(v)
    {
      reqHeader := reqHeader.(line := reqHeader.line.(version := v));
    }

    method AppendField(value: string)
      modifies this`reqHeader, this`currentFieldName
      ensures Contents() == old(Contents()).Committed(value)
    {
      reqHeader := reqHeader.(fields := Append(reqHeader.fields, currentFieldName, value));
      currentFieldName := "";
    }

    /** Hands the parsed header out, leaving nothing behind. */
    method TakeResult() returns (header: RequestHeader)
      modifies this`reqHeader
      ensures header == old(reqHeader) && Contents() == old(Contents()).(header := EMPTY_HEADER)
    {
      header := reqHeader;
      reqHeader := EMPTY_HEADER;
    }
  }
}
