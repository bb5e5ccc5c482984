/**
 * The bootstrap program: a server whose only handlers answer GET and POST on
 * `/messages` with a bodiless 404 and 503, and how requests are routed on it.
 */
module Example {
  import opened Wrappers
  import opened JavaText
  import opened ResponseWriter
  import opened ResponseReader
  import opened Routing
  import opened HttpServer

  /** The two handlers the bootstrap registers. */
  datatype MessagesHandler = Answer404 | Answer503

  /** The status code each handler answers with. */
  function Code(h: MessagesHandler): string {
    match h
    case Answer404 => "404"
    case Answer503 => "503"
  }

  /** The reason phrase that goes with it. */
  function Reason(h: MessagesHandler): string {
    match h
    case Answer404 => "Not Found"
    case Answer503 => "Service Unavailable"
  }

  /** What each handler writes on the stream it is given. */
  function Respond(h: MessagesHandler): string {
    NoContent(Code(h), Reason(h))
  }

  /**
   * Each bootstrap handler writes one well-framed response with its status
   * line and an empty body.
   */
  lemma RespondReads(h: MessagesHandler)
    ensures Read(Respond(h)) == Some(Message("HTTP/1.1 " + Code(h) + " " + Reason(h),
                                             ["Content-Length: 0", "Connection: close"], []))
    ensures WellFramed(Read(Respond(h)).value)
  {
    assert '\r' !in Code(h) && '\r' !in Reason(h);
    NoContentReads(Code(h), Reason(h));
  }

  function ExampleTable(): Table<MessagesHandler> {
    Register(Register(map[], "GET", "/messages", Answer404), "POST", "/messages", Answer503)
  }

  method Bootstrap() returns (server: Server<MessagesHandler>)
    ensures fresh(server)
    ensures server.handlers == ExampleTable() && server.validPaths == ValidPaths
  {
    server := new Server();
    server.AddHandler("GET", "/messages", Answer404);
    server.AddHandler("POST", "/messages", Answer503);
  }

  /** A query does not stop the POST handler from being found. */
  lemma PostWithQueryReachesHandler()
    ensures Dispatch(Some(Request("POST", "/messages?x=1")), ExampleTable(), ValidPaths)
            == Invoke(Answer503, Request("POST", "/messages?x=1"))
  {
    RegisteredRouteReached(Register(map[], "GET", "/messages", Answer404), "POST", "/messages", "x=1", Answer503, ValidPaths);
    assert "/messages?x=1" == "/messages" + "?" + "x=1";
  }

  /** A method without handlers is a bad request, even for an allow-listed file. */
  lemma PutIsBadRequest()
    ensures Dispatch(Some(Request("PUT", "/index.html")), ExampleTable(), ValidPaths) == BadRequest
  {
    assert ExampleTable().Keys == {"GET", "POST"};
  }
}
