/** The echo service: a request handler that answers with the request it was given. */
module EchoHandler {
  import opened Text
  import opened Numbers
  import opened MessageHeader
  import opened FieldMaps
  import opened HeaderPrinter
  import opened IoAdapter
  import opened Session
  import opened Framing
  import opened Responses

  /** The response body with the position up to which it has been handed out. */
  datatype EchoFields = EchoFields(body: string, offset: nat)

  type Echo = e: EchoFields | e.offset <= |e.body| witness EchoFields("", 0)

  const NO_ERROR := HandlerCode(false, true, "No error")
  const SILENT: Echo := EchoFields("", 0)

  /** The fields of every response: the size of the body and its type. */
  function ResponseFields(fields: Fields, size: nat): Fields {
    Append(Append(fields, "Content-Length", Decimal(size)), "Content-Type", "text/plain")
  }

  function Starting(body: string): Echo {
    EchoFields(body, 0)
  }

  function TakeContent(e: Echo, span: string): Taken<Echo, HandlerCode> {
    Taken(e.(body := e.body + span), |span|, NO_ERROR)
  }

  function GiveContent(e: Echo, room: nat): Fetched<Echo, HandlerCode> {
    var n := Min(room, |e.body| - e.offset);
    Fetched(e.(offset := e.offset + n), e.body[e.offset..e.offset + n], NO_ERROR)
  }

  function EchoService(statusText: nat -> string): Handler<Echo> {
    Handler(
      (e: Echo, header: RequestHeader) => (Starting(PrintHeader(header)), FINE),
      (e: Echo, span: string, left: nat) => TakeContent(e, span),
      (e: Echo, fields: Fields) => (Starting(e.body), ResponseFields(fields, |e.body|), FINE),
      (e: Echo, fields: Fields, res: FinalizeResult) => (Starting(res.message), ResponseFields(fields, |res.message|)),
      (e: Echo, room: nat) => GiveContent(e, room),
      statusText)
  }

  /** What is still to be handed out. */
  const PENDING: Echo -> string := (e: Echo) => e.body[e.offset..]

  /** The handler object, with its members updated in place. */
  class EchoHttpRequest {
    var responseBody: string
    var readOffset: nat

    ghost predicate Valid()
      reads this
    {
      readOffset <= |responseBody|
    }

    function Value(): Echo
      reads this
      requires Valid()
    {
      EchoFields(responseBody, readOffset)
    }

    constructor ()
      ensures Valid() && Value() == SILENT
    {
      responseBody, readOffset := "", 0;
    }

    method FinalizeHeader(header: RequestHeader, ghost statusText: nat -> string) returns (res: FinalizeResult)
      modifies this
      ensures Valid() && forall e :: (Value(), res) == EchoService(statusText).finalizeHeader(e, header)
    {
      readOffset := 0;
      responseBody := header.line.verb;
      responseBody := responseBody + " " + header.line.target + " " + "HTTP/" + VersionText(header.line.version) + CRLF;
      for i := 0 to |header.fields|
        invariant readOffset == 0 && responseBody == PrintRequestLine(header.line) + PrintFields(header.fields[..i])
      {
        var item := header.fields[i];
        ghost var done := header.fields[..i + 1];
        assert done[..i] == header.fields[..i] && done[i] == item;
        ItemText(PrintRequestLine(header.line), PrintFields(header.fields[..i]), item);
        responseBody := responseBody + item.name + ": " + item.value + CRLF;
      }
      assert header.fields[..|header.fields|] == header.fields;
      responseBody := responseBody + CRLF;
      res := FINE;
    }

    static lemma ItemText(line: string, before: string, item: Field)
      ensures line + (before + PrintField(item)) == line + before + item.name + ": " + item.value + CRLF
    {
    }

    method FinalizeBody(fields: FieldMap, ghost statusText: nat -> string) returns (res: FinalizeResult)
      requires Valid()
      modifies this, fields
      ensures Valid() && (Value(), fields.entries, res) == EchoService(statusText).finalizeBody(old(Value()), old(fields.entries))
    {
      fields.Emplace("Content-Length", Decimal(|responseBody|));
      fields.Emplace("Content-Type", "text/plain");
      readOffset := 0;
      res := FINE;
    }

    method FinalizeError(fields: FieldMap, res: FinalizeResult, ghost statusText: nat -> string)
      requires Valid()
      modifies this, fields
      ensures Valid() && (Value(), fields.entries) == EchoService(statusText).finalizeError(old(Value()), old(fields.entries), res)
    {
      responseBody, readOffset := res.message, 0;
      fields.Emplace("Content-Length", Decimal(|responseBody|));
      fields.Emplace("Content-Type", "text/plain");
    }

    method ProcessRequestContent(buffer: string) returns (bytesWritten: nat, ec: HandlerCode)
      requires Valid()
      modifies this
      ensures Valid() && Taken(Value(), bytesWritten, ec) == TakeContent(old(Value()), buffer)
    {
      responseBody := responseBody + buffer;
      return |buffer|, NO_ERROR;
    }

    method ReadResponseContent(room: nat) returns (bytes: string, ec: HandlerCode)
      requires Valid()
      modifies this
      ensures Valid() && Fetched(Value(), bytes, ec) == GiveContent(old(Value()), room)
    {
      var n := Min(room, |responseBody| - readOffset);
      bytes := responseBody[readOffset..readOffset + n];
      readOffset := readOffset + n;
      ec := NO_ERROR;
    }
  }

  // ---- The service meets the contracts of the engine ----

  lemma EchoInBounds(statusText: nat -> string)
    ensures InBounds(EchoService(statusText))
  {
  }

  lemma EchoNeverRefuses(statusText: nat -> string)
    ensures NeverRefuses(EchoService(statusText))
  {
  }

  lemma DifferentLengthsDiffer(a: string, b: string)
    requires |a| != |b|
    ensures !SameName(a, b)
  {
    StriCmpZero(a, b);
    assert |Upper(a)| == |a| && |Upper(b)| == |b|;
  }

  lemma EchoAnnounces(body: string)
    ensures Announces(ResponseFields([], |body|), body)
  {
    var size := Decimal(|body|);
    StriCmpZero("Content-Length", "Content-Length");
    DifferentLengthsDiffer("Content-Length", "Content-Type");
    DifferentLengthsDiffer("Transfer-encoding", "Content-Type");
    DifferentLengthsDiffer("Transfer-encoding", "Content-Length");
    AppendKeepsSorted([], "Content-Length", size);
    LookupAppend([], "Content-Length", size, "Content-Length");
    LookupAppend([], "Content-Length", size, "Transfer-encoding");
    var fields := Append([], "Content-Length", size);
    LookupAppend(fields, "Content-Type", "text/plain", "Content-Length");
    LookupAppend(fields, "Content-Type", "text/plain", "Transfer-encoding");
    DecimalRoundTrip(|body|, TWO_64);
  }

  lemma EchoSupplies(statusText: nat -> string)
    ensures SuppliesExactly(EchoService(statusText), PENDING)
  {
    hide Append, Announces, ResponseFields;
    var h := EchoService(statusText);
    forall e: Echo ensures Announces(h.finalizeBody(e, []).1, PENDING(h.finalizeBody(e, []).0)) {
      EchoAnnounces(e.body);
      assert e.body[0..] == e.body;
    }
    forall e: Echo, res: FinalizeResult
      ensures Announces(h.finalizeError(e, [], res).1, PENDING(h.finalizeError(e, [], res).0))
    {
      EchoAnnounces(res.message);
      assert res.message[0..] == res.message;
    }
    forall e: Echo, room: nat ensures PENDING(e) == h.readContent(e, room).bytes + PENDING(h.readContent(e, room).state) {
      var n := Min(room, |e.body| - e.offset);
      assert e.body[e.offset..] == e.body[e.offset..e.offset + n] + e.body[e.offset + n..];
    }
  }
}
