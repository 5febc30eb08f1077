/**
 What a client of the echo service gets: for every request of its stream one message that
 consists of the request, and then one that reports what was wrong with the stream.
 */
module EchoClient {
  import opened Numbers
  import opened MessageHeader
  import opened Caseless
  import opened HeaderPrinter
  import opened Session
  import opened Processor
  import opened Framing
  import opened FramingRuns
  import opened Responses
  import opened Completion
  import opened EchoHandler
  import opened EchoRuns
  import opened EchoSizes
  import opened ClientView

  /** A message of the service: version 1.1, a code with its phrase, and a plain text. */
  function PlainMessage(code: nat, statusText: nat -> string, body: string): Message {
    Message(ResponseHeader(MakeVersion(1, 1), code, statusText(code),
                           [Field("Content-Length", Decimal(|body|)), Field("Content-Type", "text/plain")]),
            body)
  }

  /** Reason phrases are on one line. */
  ghost predicate OneLinePhrases(statusText: nat -> string) {
    forall code :: '\r' !in statusText(code)
  }

  lemma FieldsInOrder(size: nat)
    ensures ResponseFields([], size) == [Field("Content-Length", Decimal(size)), Field("Content-Type", "text/plain")]
  {
    hide Decimal, StriCmp;
    LengthBeforeType();
    assert Append([], "Content-Length", Decimal(size)) == [Field("Content-Length", Decimal(size))];
    assert Append([], "Content-Type", "text/plain") == [Field("Content-Type", "text/plain")];
  }

  lemma LengthBeforeType()
    ensures StriCmp("Content-Length", "Content-Type") < 0 && StriCmp("Content-Type", "Content-Length") > 0
  {
    hide StriCmp;
    assert Before("Content-Length", "Content-Type", 8) by {
      assert "Content-Length"[..8] == "Content-" == "Content-Type"[..8];
    }
    OrderMeaning("Content-Length", "Content-Type");
    StriCmpAntisymmetric("Content-Length", "Content-Type");
  }

  lemma FieldsAreValid(size: nat)
    ensures ValidFields(ResponseFields([], size))
  {
    hide ResponseFields, IsToken, IsFieldValue, Decimal, StriCmp;
    FieldsInOrder(size);
    NamesAreTokens();
    DigitsAreAValue(Decimal(size));
    LengthBeforeType();
  }

  lemma NamesAreTokens()
    ensures IsToken("Content-Length") && IsToken("Content-Type") && IsFieldValue("text/plain")
  {
  }

  lemma DigitsAreAValue(s: string)
    requires AllDigits(s)
    ensures IsFieldValue(s)
  {
    forall i | 0 <= i < |s| ensures IsDigit(s[i]) { }
  }

  lemma EchoIsPresentable(statusText: nat -> string)
    requires OneLinePhrases(statusText)
    ensures Presentable(EchoService(statusText))
  {
    hide ResponseFields, ValidFields;
    forall size ensures ValidFields(ResponseFields([], size)) { FieldsAreValid(size); }
  }

  lemma AnswerIsPlain(r: Response<Echo>, q: Request, statusText: nat -> string)
    requires Answers(r, q, statusText)
    ensures MessageOf(r, PENDING) == PlainMessage(200, statusText, EchoText(q))
  {
    hide ResponseFields;
    FieldsInOrder(|EchoText(q)|);
  }

  lemma ReportIsPlain(r: Response<Echo>, res: FinalizeResult, statusText: nat -> string)
    requires Reports(r, res, statusText)
    ensures MessageOf(r, PENDING) == PlainMessage(res.httpStatus, statusText, res.message)
  {
    hide ResponseFields;
    FieldsInOrder(|res.message|);
  }

  /** The messages that a stream is owed: its requests, and a report if there was an error. */
  ghost predicate Owing(messages: seq<Message>, split: Split, failed: bool, statusText: nat -> string) {
    var n := |split.requests|;
    n <= |messages| &&
    (forall i :: 0 <= i < n ==> messages[i] == PlainMessage(200, statusText, PrintHeader(split.requests[i].header) + split.requests[i].body)) &&
    if failed then
      n < |messages| && messages[n] == PlainMessage(VerdictOf(split.end).httpStatus, statusText, VerdictOf(split.end).message)
    else
      n == |messages|
  }

  lemma EchoIsOwed(statusText: nat -> string, stream: string, p: State<Echo>)
    requires EchoingStream(stream, p, statusText) && AllSeen(stream, p)
    ensures Owing(MessagesOf(p.session.seen.responses, PENDING), SplitStream(stream), p.session.seen.errors != [], statusText)
  {
    hide Answers, Reports, SplitObjected, PlainMessage, MessageOf, Faithful, VerdictOf;
    var split, seen := SplitStream(stream), p.session.seen;
    assert seen.errors == [] ==> seen.requests == split.requests by {
      if seen.errors == [] { NoRequests(split.requests); }
    }
    forall i | 0 <= i < |split.requests| ensures MessageOf(seen.responses[i], PENDING) == PlainMessage(200, statusText, EchoText(split.requests[i])) {
      AnswerIsPlain(seen.responses[i], split.requests[i], statusText);
    }
    if seen.errors != [] {
      ReportIsPlain(seen.responses[|split.requests|], VerdictOf(split.end), statusText);
    }
  }

  /**
   Over any ready run that ends regularly, without failed reads or empty writes: what the client
   has been sent it can read, and it is the message of every request, in order, followed by the
   report of the first error if there was one.
   */
  lemma EchoClientReads(statusText: nat -> string, connection: Connection, events: seq<Event>)
    requires ShortPhrases(statusText) && OneLinePhrases(statusText) && |connection.unread| < TWO_63
    requires OnlyReady(events) && !connection.readDisabled && connection.sent == "" && NoFailures(connection)
    requires RunStatus(EchoService(statusText), Start(connection, SILENT), events) == ProcessorCompleted
    ensures var p := Run(EchoService(statusText), Start(connection, SILENT), events);
            var read := ReadAll(p.session.connection.sent);
            read.Some? && Owing(read.value, SplitStream(connection.unread), p.session.seen.errors != [], statusText)
  {
    hide Run, RunStatus, NeverRefuses, InBounds, SuppliesExactly, Presentable, SplitStream, NoFailures, ReadAll, MessagesOf, Owing,
         EchoingStream, ShortPhrases;
    var h := EchoService(statusText);
    EchoInBounds(statusText);
    var p := Run(h, Start(connection, SILENT), events);
    EchoNeverRefuses(statusText);
    EchoSupplies(statusText);
    EchoIsPresentable(statusText);
    EchoRunKeepsStream(statusText, connection, events);
    CompletedRunHasSeenAll(h, connection, SILENT, events);
    StartIsBounded(connection);
    RunKeepsBounded(statusText, Start(connection, SILENT), events);
    FittingBodies(p);
    ClientReadsResponses(h, PENDING, connection, SILENT, events);
    EchoIsOwed(statusText, connection.unread, p);
  }

  lemma FittingBodies(p: State<Echo>)
    requires Bounded(p)
    ensures forall r :: r in p.session.seen.responses ==> |PENDING(r.app)| < TWO_64
  {
    forall r | r in p.session.seen.responses ensures ResponseFits(r, PENDING) { }
  }
}
