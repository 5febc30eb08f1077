/**
 Where fragmentation shows: two clients send the same octets to the echo service, which serves
 more requests to the one than to the other, because more was in its receive buffer when the
 first request was refused.
 */
module Leftovers {
  import opened Text
  import opened Numbers
  import opened MessageHeader
  import opened HeaderPrinter
  import opened IoAdapter
  import opened Session
  import opened Phases
  import opened Processor
  import opened Framing
  import opened FramingRuns
  import opened Progress
  import opened EchoHandler
  import opened EchoSizes
  import HeaderParser
  import HeaderSpec

  const GET_ROOT := RequestHeader(RequestLine("GET", "/", HTTP_1_1), [])

  /** A blank, on which the first request line is refused, and then a whole request. */
  const STREAM: string := " " + PrintHeader(GET_ROOT)

  /** A client of whose stream each read takes `most + 1` octets, if there are so many. */
  function Client(most: nat): Connection {
    Connection(STREAM, (i: nat) => Deliver(most), 0, "", (i: nat) => Accept(1000), 0, false)
  }

  lemma ClientProgresses(most: nat)
    ensures Progressing(Client(most))
  {
    var c := Client(most);
    forall i: nat ensures Later(Accepted(c), i) && Later(Delivered(c), i) {
      assert Accepted(c)(i) && Delivered(c)(i);
    }
  }

  lemma RootSize()
    ensures 0 < |PrintHeader(GET_ROOT)| < 100 && |STREAM| == |PrintHeader(GET_ROOT)| + 1
  {
    hide PrintFields, VersionText;
    VersionSize();
    NoFields();
  }

  lemma VersionSize()
    ensures |VersionText(HTTP_1_1)| == 3
  {
    hide Decimal;
    VersionHalves(Version(0), 1, 1);
    assert HTTP_1_1.Major() == 1 && HTTP_1_1.Minor() == 1;
    OneDigit();
  }

  lemma OneDigit()
    ensures |Decimal(1)| == 1
  {
  }

  lemma NoFields()
    ensures PrintFields([]) == ""
  {
  }

  lemma RootIsValid()
    ensures ValidRequestHeader(GET_ROOT)
  {
    hide HTTP_1_1, IsToken, IsTarget;
    GetIsToken();
    RootIsTarget();
    VersionIsValid();
  }

  lemma GetIsToken()
    ensures IsToken("GET")
  {
  }

  lemma RootIsTarget()
    ensures IsTarget("/")
  {
  }

  lemma VersionIsValid()
    ensures HTTP_1_1.packed < TWO_64
  {
  }

  /** The blank is refused by itself, whatever follows it. */
  lemma BlankIsRefused(s: string)
    requires s != "" && s[0] == ' '
    ensures HeaderParser.Feed(HeaderParser.FRESH, s) == HeaderParser.FeedResult(HeaderParser.FRESH, 1, HeaderParser.BadRequestMethod)
  {
  }

  lemma StreamHasNoRequest()
    ensures SplitStream(STREAM).requests == []
  {
    hide SplitAfter;
    var window := STREAM[..Min(MAX_HEADER_SIZE, |STREAM|)];
    assert window != "" && window[0] == ' ';
    HeaderSpec.MachineReadsHeader(window);
    BlankIsRefused(window);
    RefusedHasNoRequest(HeaderSpec.ReadHeader(window), STREAM);
  }

  lemma RefusedHasNoRequest(o: HeaderSpec.Outcome, s: string)
    requires o.ec == HeaderParser.BadRequestMethod && 0 < o.consumed <= |s|
    ensures SplitAfter(o, MAX_HEADER_SIZE, s, NO_OBJECTIONS, 0).requests == []
  {
  }

  /** The request alone is one request. */
  lemma RootIsServed()
    ensures Served(PrintHeader(GET_ROOT)) == [Request(GET_ROOT, "")]
  {
    hide SplitObjected, SplitHeaderDone, PrintHeader, ServedObjected, HeaderSpec.ReadHeader, ValidRequestHeader;
    var s := PrintHeader(GET_ROOT);
    RootSize();
    RootIsValid();
    PrintedHeaderParsesBack(GET_ROOT, "");
    Neutral(s);
    SplitOfHeader(s);
    RootHasNoBody();
    NothingToSplit(NO_OBJECTIONS, 2);
    ServedSplit(s, NO_OBJECTIONS, 0);
    NothingIsServedOfNothing(2);
  }

  lemma NothingIsServedOfNothing(n: nat)
    ensures ServedObjected("", NO_OBJECTIONS, n) == []
  {
  }

  lemma SplitOfHeader(s: string)
    requires |s| <= MAX_HEADER_SIZE && HeaderSpec.ReadHeader(s) == HeaderSpec.Outcome(HeaderParser.Completed, |s|, GET_ROOT)
    ensures SplitObjected(s, NO_OBJECTIONS, 0) == SplitHeaderDone(GET_ROOT, "", NO_OBJECTIONS, 0)
  {
    hide HeaderSpec.ReadHeader, SplitHeaderDone;
    assert s[..Min(MAX_HEADER_SIZE, |s|)] == s;
    assert s[|s|..] == "";
  }

  lemma RootHasNoBody()
    ensures SplitHeaderDone(GET_ROOT, "", NO_OBJECTIONS, 0) == SplitObjected("", NO_OBJECTIONS, 2).After([Request(GET_ROOT, "")])
  {
    hide SplitObjected;
    assert ContentLength(GET_ROOT.fields) == Some(0);
    DoneWithoutObjections(GET_ROOT, "", 0);
  }

  /** The first read of such a client. */
  function FirstRead(most: nat): string {
    STREAM[..Min(most + 1, |STREAM|)]
  }

  /** One read, of which the parser takes the blank. */
  lemma FirstTransfer(most: nat)
    requires SourceInBounds(SOCKET_SOURCE) && SinkInBounds(HEADER_SINK)
    ensures var t := Pump(SOCKET_SOURCE, HEADER_SINK, BUFFER_SIZE, Client(most), HeaderParser.FRESH, "", MAX_HEADER_SIZE);
            t.ending == SinkStopped(HeaderParser.BadRequestMethod) && t.buffer == FirstRead(most)[1..]
  {
    hide Pump, HeaderParser.Feed, PrintHeader;
    var c, got := Client(most), FirstRead(most);
    RootSize();
    assert c.Read(BUFFER_SIZE).bytes == got && c.Read(BUFFER_SIZE).ec == OperationResult.Completed;
    assert got[..Min(MAX_HEADER_SIZE, |got|)] == got;
    BlankIsRefused(got);
    PumpOnce(SOCKET_SOURCE, HEADER_SINK, BUFFER_SIZE, c, HeaderParser.FRESH, "", MAX_HEADER_SIZE);
    PumpOnce(SOCKET_SOURCE, HEADER_SINK, BUFFER_SIZE, c.Read(BUFFER_SIZE).state, HeaderParser.FRESH, got, MAX_HEADER_SIZE);
  }

  /** The first round gives up on the client, and all that was read but the blank is left over. */
  lemma FirstRound(statusText: nat -> string, most: nat)
    requires InBounds(EchoService(statusText))
    ensures var r := Advance(EchoService(statusText), Start(Client(most), SILENT));
            r.Go? && r.next.session.seen.leftovers == [FirstRead(most)[1..]]
  {
    hide InBounds, Pump, Client, FirstRead, ResponseFields, Serialize, PrintHeader;
    HeaderCallbacksInBounds();
    FirstTransfer(most);
  }

  lemma SkipsRound<H(!new)>(h: Handler<H>, p: State<H>, events: seq<Event>)
    requires InBounds(h) && Advance(h, p).Go? && events != [] && events[0] == Ready
    ensures Run(h, p, events) == Run(h, Advance(h, p).next, events)
  {
    hide Advance;
  }

  lemma KeepsFirstLeftover<H(!new)>(h: Handler<H>, p: State<H>, events: seq<Event>, leftover: string)
    requires InBounds(h) && OnlyReady(events) && [leftover] <= p.session.seen.leftovers
    ensures [leftover] <= Run(h, p, events).session.seen.leftovers
  {
    hide Advance;
    var inv := (q: State<H>) => [leftover] <= q.session.seen.leftovers;
    forall q | inv(q) ensures inv(Advance(h, q).next) { RoundGrows(h, q); }
    RunEnds(h, p, events, inv, (q: State<H>, status: ProcessorStatus) => true);
  }

  /** What the echo service is given of such a client in a session that it serves to the end. */
  lemma ServesClient(statusText: nat -> string, most: nat) returns (events: seq<Event>)
    requires ShortPhrases(statusText)
    ensures OnlyReady(events) && RunStatus(EchoService(statusText), Start(Client(most), SILENT), events) == ProcessorCompleted
    ensures Run(EchoService(statusText), Start(Client(most), SILENT), events).session.seen.requests ==
            Served(FirstRead(most)[1..])
  {
    hide Run, RunStatus, InBounds, ShortPhrases, SplitStream, Served, Advance, Progressing;
    var h, start := EchoService(statusText), Start(Client(most), SILENT);
    EchoInBounds(statusText);
    ClientProgresses(most);
    RootSize();
    events := EchoServesAll(statusText, Client(most));
    StreamHasNoRequest();
    FirstRound(statusText, most);
    assert events != [] by { NoEventsCompleteNothing(h, start); }
    SkipsRound(h, start, events);
    var leftover := FirstRead(most)[1..];
    KeepsFirstLeftover(h, Advance(h, start).next, events, leftover);
  }

  lemma NoEventsCompleteNothing<H(!new)>(h: Handler<H>, p: State<H>)
    requires InBounds(h)
    ensures RunStatus(h, p, []) != ProcessorCompleted
  {
  }

  /**
   Two clients with the same stream, whose sessions with the echo service both end regularly,
   with nothing failed or blocked: the one is served no request, the other one.
   */
  lemma FragmentationShows(statusText: nat -> string) returns (c_events: seq<Event>, d_events: seq<Event>)
    requires ShortPhrases(statusText)
    ensures OnlyReady(c_events) && RunStatus(EchoService(statusText), Start(Client(0), SILENT), c_events) == ProcessorCompleted
    ensures OnlyReady(d_events) && RunStatus(EchoService(statusText), Start(Client(100), SILENT), d_events) == ProcessorCompleted
    ensures Run(EchoService(statusText), Start(Client(0), SILENT), c_events).session.seen.requests == []
    ensures Run(EchoService(statusText), Start(Client(100), SILENT), d_events).session.seen.requests == [Request(GET_ROOT, "")]
  {
    hide Run, RunStatus, ShortPhrases, Client, PrintHeader, ServedObjected;
    c_events := ServesClient(statusText, 0);
    d_events := ServesClient(statusText, 100);
    RootSize();
    assert STREAM[..1][1..] == "";
    assert STREAM[..|STREAM|][1..] == PrintHeader(GET_ROOT);
    assert Min(1, |STREAM|) == 1 && Min(101, |STREAM|) == |STREAM|;
    RootIsServed();
    NothingIsServedOfNothing(0);
  }
}
