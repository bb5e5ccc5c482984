/**
 * The server object: its routing table, filled in place by `AddHandler`, and
 * the per-connection work of `connect`, which writes the server's own
 * responses onto the connection's output stream.
 */
module HttpServer {
  import opened Wrappers
  import opened JavaText
  import opened ResponseWriter
  import opened ResponseReader
  import opened StaticFiles
  import opened Routing

  /** A connection's output stream, seen as everything written to it so far. */
  class OutputStream {
    var written: string

    constructor ()
      ensures written == []
    {
      written := [];
    }

    method Write(bytes: string)
      modifies this
      ensures written == old(written) + bytes
    {
      written := written + bytes;
    }
  }

  /**
   * What `connect` itself writes for a route. A handler writes its own
   * response; a path that splits into nothing or a file that cannot be read
   * ends the connection with nothing written.
   */
  function Written<H>(route: Route<H>, dir: PublicDir, now: string): string {
    match route
    case BadRequest => NoContent("400", "Bad Request")
    case NotFound => NoContent("404", "Not Found")
    case ServeStatic(path) => DefaultResponse(path, dir, now).GetOr([])
    case Invoke(_, _) => []
    case PathError => []
  }

  class Server<H> {
    const validPaths: seq<string>
    var handlers: Table<H>

    constructor ()
      ensures validPaths == ValidPaths && handlers == map[]
    {
      validPaths := ValidPaths;
      handlers := map[];
    }

    /** The handler the table holds for `(httpMethod, path)`. */
    function Lookup(httpMethod: string, path: string): Option<H>
      reads this
    {
      Find(handlers, httpMethod, path)
    }

    /**
     * Creates the method's inner table when the method is new, then puts the
     * handler into it: `(httpMethod, path)` leads to `handler` afterwards, and
     * every other pair still leads where it did.
     */
    method AddHandler(httpMethod: string, path: string, handler: H)
      modifies this
      ensures handlers == Register(old(handlers), httpMethod, path, handler)
      ensures Lookup(httpMethod, path) == Some(handler)
      ensures forall m, p :: (m, p) != (httpMethod, path) ==> Lookup(m, p) == old(Lookup(m, p))
      ensures handlers.Keys == old(handlers.Keys) + {httpMethod}
    {
      if httpMethod !in handlers {
        handlers := handlers[httpMethod := map[]];
      }
      handlers := handlers[httpMethod := handlers[httpMethod][path := handler]];
    }

    method ResponseWithoutContent(out: OutputStream, code: string, status: string)
      modifies out
      ensures out.written == old(out.written) + NoContent(code, status)
    {
      out.Write(NoContent(code, status));
    }

    /**
     * Serves an allow-listed file; `ok` is false when it cannot be read,
     * which ends the connection with nothing written.
     */
    method DefaultHandler(out: OutputStream, path: string, dir: PublicDir, now: string) returns (ok: bool)
      modifies out
      ensures ok <==> path in dir
      ensures out.written == old(out.written) + DefaultResponse(path, dir, now).GetOr([])
    {
      if path !in dir {
        return false;
      }
      var file := dir[path];
      if StartsWith(path, ClassicPage) {
        var content := ClassicBody(file.bytes, now);
        out.Write(OkHead(file.mime, |content|));
        out.Write(content);
        return true;
      }
      out.Write(OkHead(file.mime, |file.bytes|));
      out.Write(file.bytes);
      return true;
    }

    /**
     * Handles one parsed request (`None` when parsing failed): takes the
     * route `Dispatch` decides and writes what that route calls for. When the
     * route is `Invoke`, the caller runs the handler on the original request.
     */
    method Connect(request: Option<Request>, out: OutputStream, dir: PublicDir, now: string) returns (route: Route<H>)
      modifies out
      ensures route == Dispatch(request, handlers, validPaths)
      ensures out.written == old(out.written) + Written(route, dir, now)
    {
      if request.None? || request.value.httpMethod !in handlers {
        ResponseWithoutContent(out, "400", "Bad Request");
        return BadRequest;
      }
      var req := request.value;
      var handlerMap := handlers[req.httpMethod];
      var requestPath := FirstOfSplit(req.path, '?');
      if requestPath.None? {
        return PathError;
      }
      var p := requestPath.value;
      if p in handlerMap {
        route := Invoke(handlerMap[p], req);
      } else if p !in validPaths {
        ResponseWithoutContent(out, "404", "Not Found");
        route := NotFound;
      } else {
        var _ := DefaultHandler(out, p, dir, now);
        route := ServeStatic(p);
      }
    }
  }

  /** The file's content type cannot break the head apart. */
  predicate PlainTypes(dir: PublicDir) {
    forall p :: p in dir ==> '\r' !in MimeText(dir[p].mime)
  }

  /**
   * Every response `connect` writes itself announces `Connection: close` and
   * declares the exact length of the body that follows it.
   */
  lemma WrittenResponsesFramed<H>(request: Option<Request>, t: Table<H>, dir: PublicDir, now: string)
    requires PlainTypes(dir)
    ensures var bytes := Written(Dispatch(request, t, ValidPaths), dir, now);
            bytes != [] ==> Read(bytes).Some? && WellFramed(Read(bytes).value)
  {
    match Dispatch(request, t, ValidPaths)
    case BadRequest => NoContentReads("400", "Bad Request");
    case NotFound => NoContentReads("404", "Not Found");
    case ServeStatic(path) =>
      if path in dir {
        if StartsWith(path, ClassicPage) {
          ClassicResponseFramed(path, dir, now);
        } else {
          FileResponseFramed(path, dir, now);
        }
      }
    case Invoke(_, _) =>
    case PathError =>
  }

  /** Of the allow-listed files, only `/classic.html` is the template. */
  lemma OnlyClassicIsTemplate(path: string)
    requires path in ValidPaths
    ensures StartsWith(path, ClassicPage) <==> path == ClassicPage
  {
    if path == "/resources.html" {
      assert path[1] != ClassicPage[1];
    }
  }
}
