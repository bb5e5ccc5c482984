/**
 * The routing table (method -> path -> handler), the fixed allow-list of
 * static files, and the decision `connect` takes for one request.
 */
module Routing {
  import opened Wrappers
  import opened JavaText

  /** A parsed request as the router sees it: its method and its raw path, query included. */
  datatype Request = Request(httpMethod: string, path: string)

  /** Handlers registered per method, then per path. */
  type Table<H> = map<string, map<string, H>>

  /** The static files that may be served without a handler. */
  const ValidPaths: seq<string> := [
    "/index.html", "/spring.svg", "/spring.png", "/resources.html",
    "/styles.css", "/app.js", "/links.html", "/forms.html", "/classic.html", "/events.html", "/events.js"
  ]

  /** What `connect` does with a request. */
  datatype Route<H> =
    | BadRequest                             // answer 400 Bad Request
    | Invoke(handler: H, request: Request)   // hand the request and the stream to a handler
    | NotFound                               // answer 404 Not Found
    | ServeStatic(path: string)              // answer with the file (defaultHandler)
    | PathError                              // split left no piece: exception, nothing written

  /** The handler registered for `(httpMethod, path)`, if any. */
  function Find<H>(t: Table<H>, httpMethod: string, path: string): Option<H> {
    if httpMethod in t && path in t[httpMethod] then Some(t[httpMethod][path]) else None
  }

  /**
   * `addHandler` on the table's value: `(httpMethod, path)` now leads to `h`,
   * and every other pair leads where it led before.
   */
  function Register<H>(t: Table<H>, httpMethod: string, path: string, h: H): (t': Table<H>)
    ensures Find(t', httpMethod, path) == Some(h)
    ensures forall m, p :: (m, p) != (httpMethod, path) ==> Find(t', m, p) == Find(t, m, p)
    ensures t'.Keys == t.Keys + {httpMethod}
  {
    var inner := if httpMethod in t then t[httpMethod] else map[];
    t[httpMethod := inner[path := h]]
  }

  /** The path the table is consulted with: `path.split("\\?")[0]`. */
  function RoutePath(path: string): (r: Option<string>)
    ensures r.None? <==> path != [] && AllAre(path, '?')
    ensures r.Some? ==> r.value == PrefixBefore(path, '?')
    ensures r.Some? ==> '?' !in r.value && r.value <= path
  {
    FirstOfSplit(path, '?')
  }

  /**
   * The dispatch decision of `connect`. A missing request or a method with
   * no handler at all is a bad request; otherwise the handler registered for
   * the path without its query wins, then the allow-list decides between
   * serving the file and 404.
   */
  function Dispatch<H>(request: Option<Request>, t: Table<H>, validPaths: seq<string>): (r: Route<H>)
    ensures r.BadRequest? <==> request.None? || request.value.httpMethod !in t
    ensures r.Invoke? ==> request == Some(r.request)
    ensures r.Invoke? ==> Find(t, r.request.httpMethod, PrefixBefore(r.request.path, '?')) == Some(r.handler)
    ensures r.ServeStatic? ==> r.path in validPaths && '?' !in r.path
  {
    match request
    case None => BadRequest
    case Some(req) =>
      if req.httpMethod !in t then BadRequest
      else
        match RoutePath(req.path)
        case None => PathError
        case Some(p) =>
          if p in t[req.httpMethod] then Invoke(t[req.httpMethod][p], req)
          else if p !in validPaths then NotFound
          else ServeStatic(p)
  }

  /** A registered handler wins over the allow-list, whatever the allow-list holds. */
  lemma HandlerTakesPrecedence<H>(req: Request, t: Table<H>, validPaths: seq<string>, p: string)
    requires RoutePath(req.path) == Some(p) && Find(t, req.httpMethod, p).Some?
    ensures Dispatch(Some(req), t, validPaths) == Invoke(Find(t, req.httpMethod, p).value, req)
  {
  }

  /**
   * With a known method and no handler for the path, the allow-list decides:
   * 404 outside it, the file inside it.
   */
  lemma DefaultRoutes<H>(req: Request, t: Table<H>, validPaths: seq<string>, p: string)
    requires req.httpMethod in t && RoutePath(req.path) == Some(p) && Find(t, req.httpMethod, p).None?
    ensures Dispatch(Some(req), t, validPaths) == NotFound <==> p !in validPaths
    ensures Dispatch(Some(req), t, validPaths) == ServeStatic(p) <==> p in validPaths
  {
  }

  /** Splitting fails, and the connection is dropped, only for a path made of `?` alone. */
  lemma PathErrorOnlyForQuestionMarks<H>(req: Request, t: Table<H>, validPaths: seq<string>)
    requires req.httpMethod in t
    ensures Dispatch(Some(req), t, validPaths) == PathError <==> req.path != [] && AllAre(req.path, '?')
  {
  }

  /**
   * The query never reaches the table: `p?q` is routed as `p` is, and a
   * handler found that way still receives the request with its query.
   */
  lemma {:induction false} QueryIgnored<H>(httpMethod: string, p: string, q: string, t: Table<H>, validPaths: seq<string>)
    requires p != [] && '?' !in p
    ensures var plain := Dispatch(Some(Request(httpMethod, p)), t, validPaths);
            var queried := Dispatch(Some(Request(httpMethod, p + "?" + q)), t, validPaths);
            (plain.Invoke? ==> queried == Invoke(plain.handler, Request(httpMethod, p + "?" + q))) &&
            (!plain.Invoke? ==> queried == plain)
  {
    FirstOfSplitBeforeSeparator(p, q, '?');
    assert RoutePath(p) == Some(p) by {
      assert PrefixBefore(p, '?') == p by {
        PrefixOfJoined(p, [], '?');
        assert p + ['?'] + [] == p + ['?'];
        PrefixBeforeNoSeparator(p, '?');
      }
    }
  }

  lemma {:induction false} PrefixBeforeNoSeparator(s: string, c: char)
    requires c !in s
    ensures PrefixBefore(s, c) == s
  {
    if s != [] {
      PrefixBeforeNoSeparator(s[1..], c);
    }
  }

  /** A handler registered for `(httpMethod, p)` receives `httpMethod p?q` requests. */
  lemma {:induction false} RegisteredRouteReached<H>(t: Table<H>, httpMethod: string, p: string, q: string, h: H, validPaths: seq<string>)
    requires p != [] && '?' !in p
    ensures Dispatch(Some(Request(httpMethod, p + "?" + q)), Register(t, httpMethod, p, h), validPaths)
            == Invoke(h, Request(httpMethod, p + "?" + q))
  {
    FirstOfSplitBeforeSeparator(p, q, '?');
  }

  /** Registering the same pair again replaces the earlier handler. */
  lemma RegisterOverwrites<H>(t: Table<H>, httpMethod: string, path: string, h1: H, h2: H)
    ensures Register(Register(t, httpMethod, path, h1), httpMethod, path, h2) == Register(t, httpMethod, path, h2)
  {
    var inner := if httpMethod in t then t[httpMethod] else map[];
    assert inner[path := h1][path := h2] == inner[path := h2];
  }

  /** Registrations of different pairs do not interfere: their order does not matter. */
  lemma RegisterCommutes<H>(t: Table<H>, m1: string, p1: string, h1: H, m2: string, p2: string, h2: H)
    requires (m1, p1) != (m2, p2)
    ensures Register(Register(t, m1, p1, h1), m2, p2, h2) == Register(Register(t, m2, p2, h2), m1, p1, h1)
  {
    var i1 := if m1 in t then t[m1] else map[];
    var i2 := if m2 in t then t[m2] else map[];
    if m1 == m2 {
      assert i1[p1 := h1][p2 := h2] == i1[p2 := h2][p1 := h1];
    } else {
      assert Register(t, m1, p1, h1)[m2 := i2[p2 := h2]] == Register(t, m2, p2, h2)[m1 := i1[p1 := h1]];
    }
  }
}
