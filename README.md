# A verified model of a minimal HTTP/1.1 server

The server (`ru.netology.Server`) keeps a routing table from HTTP method to
path to handler. For each connection it parses one request and decides what
to do with it:

- a missing request, or a method with no handler at all, gets `400 Bad Request`;
- a handler registered for the path, without its query string, is invoked;
- a path on the fixed allow-list of static files is served from `./public`;
- anything else gets `404 Not Found`.

The page `/classic.html` is a template: each `{time}` in it is replaced by
the current time, and `Content-Length` is computed from the filled-in page.
Every response the server writes itself closes the connection.

The model is split into these modules:

- `Routing`: the table as a value, registration, and the dispatch decision of
  `connect`, as functions.
- `HttpServer`: the `Server` class. Its `handlers` field is updated in place
  by `AddHandler`. `Connect` and `DefaultHandler` write onto an `OutputStream`
  object, which records the bytes written to it.
- `ResponseWriter`: the exact bytes of the no-content response and of the
  `200 OK` head.
- `ResponseReader`: how a client reads those bytes back as a status line,
  header lines and a body. It is the independent partner that the framing
  properties are stated against.
- `StaticFiles`: `defaultHandler`'s response for a file.
- `Template`: Java's `String.replace`.
- `JavaText`: Java's `String.split` with a one-character separator, and `startsWith`.
- `Decimal`: how lengths are printed in the header, and parsed back.
- `Example`: the bootstrap program's two handlers.

Bytes are modelled as characters: `getBytes()` is taken to be the identity
encoding. The file system, the clock and the content-type probe are
parameters. A `PublicDir` maps each request path to the file stored for it.
Each file has a probed content type, where `None` stands for Java's `null`,
and its bytes. The time is passed in as an already rendered string.

Two details of the code the model follows:

- The templated page is any path that starts with `/classic.html`. Of the
  allow-listed paths, only `/classic.html` itself does (`OnlyClassicIsTemplate`).
- `split("\\?")[0]` throws on a non-empty path made only of `?`
  characters (the empty path splits to `[""]` and is routed as the empty path). That
  exception is not caught by `connect`, so the connection is dropped with
  nothing written. The model has a `PathError` route for this case.

## Model

| member | source | states |
|---|---|---|
| `Routing.Register` | src/main/java/ru/netology/Server.java:124-129 | after registration, `(method, path)` finds the new handler, whatever was there before; every other pair, including other paths of the same method, finds what it found before; the table's methods gain exactly `method` |
| `Routing.RegisterOverwrites` | src/main/java/ru/netology/Server.java:124-129 | registering the same pair twice is the same as registering only the second handler |
| `Routing.RegisterCommutes` | src/main/java/ru/netology/Server.java:124-129 | registrations of distinct pairs can be done in either order |
| `HttpServer.Server.constructor` | src/main/java/ru/netology/Server.java:18-26 | a new server has an empty table and the fixed allow-list |
| `HttpServer.Server.AddHandler` | src/main/java/ru/netology/Server.java:124-129 | the table is updated in place to `Register(old table, …)`; `Lookup` of the pair yields the handler, and `Lookup` of every other pair is unchanged |
| `Routing.Find` | src/main/java/ru/netology/Server.java:54-57 | no contract of its own: `Register`'s ensures state what it finds after a registration, and `Dispatch`'s ensures tie the invoked handler to it |
| `HttpServer.Server.Lookup` | src/main/java/ru/netology/Server.java:54-57 | no contract of its own: `AddHandler`'s ensures state that it yields the new handler for the registered pair and is unchanged for every other pair |
| `JavaText.StartsWith` | src/main/java/ru/netology/Server.java:94 | no contract of its own: `OnlyClassicIsTemplate` states which allow-listed paths it accepts, and `DefaultHandler`'s ensures which responses depend on it |
| `Routing.RoutePath` | src/main/java/ru/netology/Server.java:55 | the path used for lookup is missing exactly when the request path is a non-empty run of `?`; otherwise it is the prefix before the first `?`, so it contains no `?` and is a prefix of the request path |
| `JavaText.Split` | src/main/java/ru/netology/Server.java:55 | no piece contains the separator, and for a non-empty string the last piece is not empty; `FirstOfSplit` states when the result is empty and what its first piece is |
| `JavaText.PrefixBefore` | src/main/java/ru/netology/Server.java:55 | the result is the longest prefix without the separator: a prefix, separator-free, and followed by the separator or by the end of the string |
| `JavaText.FirstOfSplit` | src/main/java/ru/netology/Server.java:55 | `s.split(sep)[0]` fails exactly when `s` is a non-empty run of separators; otherwise it is the prefix before the first separator |
| `JavaText.FirstOfSplitBeforeSeparator` | src/main/java/ru/netology/Server.java:55 | for `p?q` with a non-empty, `?`-free `p`, the first piece is `p` |
| `JavaText.PiecesAllEmpty` | src/main/java/ru/netology/Server.java:55 | every piece is empty exactly when the string consists of separators only |
| `Routing.Dispatch` | src/main/java/ru/netology/Server.java:46-66 | 400 exactly when the request is missing or its method has no entry, even for allow-listed paths; an invoked handler gets the original request and is the one stored under the path's part before `?`; a file is served only if it is allow-listed and has no `?` |
| `Routing.HandlerTakesPrecedence` | src/main/java/ru/netology/Server.java:56-58 | a registered handler is invoked whatever the allow-list contains |
| `Routing.DefaultRoutes` | src/main/java/ru/netology/Server.java:59-65 | for a known method and no handler: 404 exactly when the path is not allow-listed, the file exactly when it is |
| `Routing.PathErrorOnlyForQuestionMarks` | src/main/java/ru/netology/Server.java:55 | for a known method, the connection is dropped at the split exactly when the path is a non-empty run of `?` |
| `Routing.QueryIgnored` | src/main/java/ru/netology/Server.java:54-58 | `p?q` is routed exactly as `p`; an invoked handler still receives the request with its query |
| `Routing.RegisteredRouteReached` | src/main/java/ru/netology/Server.java:124-129 | after registering `(m, p)`, a request `m p?q` invokes that handler with that request |
| `HttpServer.Server.Connect` | src/main/java/ru/netology/Server.java:39-71 | the route taken is `Dispatch` of the request, table and allow-list; the stream gains exactly the bytes of that route's response (nothing for a handler or a dropped connection) |
| `HttpServer.Written` | src/main/java/ru/netology/Server.java:46-66 | no contract of its own: `WrittenResponsesFramed` states that every response it gives is well framed, and `Connect`'s ensures state that it is exactly what `connect` writes |
| `ResponseWriter.NoContent` | src/main/java/ru/netology/Server.java:131-137 | no contract of its own: `NoContentReads` states what it reads back as |
| `ResponseWriter.OkHead` | src/main/java/ru/netology/Server.java:100-106 | no contract of its own: `OkHeadLines` states its four lines and `OkReads` what it reads back as |
| `ResponseWriter.MimeText` | src/main/java/ru/netology/Server.java:102 | no contract of its own: `OkReads` states that the `Content-Type` header reads back as the probed type, or as `null` when there is none |
| `HttpServer.OutputStream.constructor` | src/main/java/ru/netology/Server.java:43 | a connection's stream starts with nothing written |
| `HttpServer.OutputStream.Write` | src/main/java/ru/netology/Server.java:100-107 | the stream gains exactly the given bytes after what it already held; it stands for every `out.write` (lines 100, 107, 113, 132) and for `Files.copy` (line 120) |
| `HttpServer.Server.ResponseWithoutContent` | src/main/java/ru/netology/Server.java:131-139 | the stream gains exactly the no-content response |
| `HttpServer.Server.DefaultHandler` | src/main/java/ru/netology/Server.java:89-122 | succeeds exactly when the file exists; the stream gains exactly `DefaultResponse`, or nothing when the file cannot be read |
| `StaticFiles.DefaultResponse` | src/main/java/ru/netology/Server.java:89-122 | no response exactly when the file is missing |
| `ResponseReader.NoContentReads` | src/main/java/ru/netology/Server.java:131-139 | the no-content response reads back as status line `HTTP/1.1 code status`, headers `Content-Length: 0` and `Connection: close`, and an empty body, so it is well framed |
| `ResponseReader.OkReads` | src/main/java/ru/netology/Server.java:100-106 | a `200 OK` head and a body read back as the content type (`null` when unknown), the body's length in decimal, `Connection: close`, and that body |
| `ResponseReader.OkHeadLines` | src/main/java/ru/netology/Server.java:113-119 | the `200 OK` head is the four lines status, `Content-Type`, `Content-Length`, `Connection: close`, each ended by CRLF, then an empty line |
| `ResponseReader.ReadHead` | src/main/java/ru/netology/Server.java:131-139 | any head of non-empty, CR-free lines reads back as those lines, and what follows it as the body |
| `ResponseReader.SplitLineOf` | src/main/java/ru/netology/Server.java:131-139 | a CR-free line followed by CRLF is split off exactly |
| `Decimal.ParseShow` | src/main/java/ru/netology/Server.java:116 | the printed length parses back to the same number |
| `Decimal.Show` | src/main/java/ru/netology/Server.java:103 | the printed length consists of digits and has no leading zero |
| `StaticFiles.ClassicFillsEverySlot` | src/main/java/ru/netology/Server.java:94-99 | the template is its slot-free pieces joined by `{time}`, and the body is the same pieces joined by the time |
| `StaticFiles.ClassicWithoutSlot` | src/main/java/ru/netology/Server.java:96-99 | a template without `{time}` is sent unchanged |
| `StaticFiles.ClassicResponseFramed` | src/main/java/ru/netology/Server.java:94-109 | the classic page's body is the filled-in template, and its declared `Content-Length` is that body's length, not the template's |
| `StaticFiles.FileResponseFramed` | src/main/java/ru/netology/Server.java:112-121 | any other file is sent byte for byte, with its size as `Content-Length` and `Connection: close` |
| `Template.ReplaceAll` | src/main/java/ru/netology/Server.java:96-99 | no contract of its own: `ReplaceAllCut`, `ReplaceJoin` and `ReplaceAbsent` state what it computes |
| `StaticFiles.ClassicBody` | src/main/java/ru/netology/Server.java:96-99 | no contract of its own: `ClassicFillsEverySlot` states that it is the template's slot-free pieces joined by the time |
| `Template.ReplaceJoin` | src/main/java/ru/netology/Server.java:96-99 | for a pattern whose first character does not recur in it, replacing in slot-free pieces joined by the pattern gives the same pieces joined by the replacement |
| `Template.ReplaceAbsent` | src/main/java/ru/netology/Server.java:96-99 | replacing in a string without the pattern changes nothing |
| `Template.ReplaceAllCut` | src/main/java/ru/netology/Server.java:96-99 | for every string, the replacement result is its cut pieces joined by the replacement |
| `Template.CutJoins` | src/main/java/ru/netology/Server.java:96-99 | the cut pieces joined by the pattern give the string back |
| `Template.CutPiecesFree` | src/main/java/ru/netology/Server.java:96-99 | no cut piece contains the pattern |
| `HttpServer.WrittenResponsesFramed` | src/main/java/ru/netology/Server.java:46-66 | every response `connect` writes itself reads back with `Connection: close` and a `Content-Length` equal to its body's length |
| `HttpServer.OnlyClassicIsTemplate` | src/main/java/ru/netology/Server.java:18-19 | among allow-listed paths, starting with `/classic.html` means being `/classic.html` |
| `Example.Bootstrap` | src/main/java/ru/netology/Main.java:5-16 | the bootstrap server's table holds the GET and POST handlers for `/messages` |
| `Example.Respond` | src/main/java/ru/netology/Main.java:7-16 | no contract of its own: `RespondReads` states what each handler writes |
| `Example.RespondReads` | src/main/java/ru/netology/Main.java:7-16 | each handler's response reads back as status line `HTTP/1.1 404 Not Found` (GET) or `HTTP/1.1 503 Service Unavailable` (POST), headers `Content-Length: 0` and `Connection: close`, and an empty body, and is well framed |
| `Example.PostWithQueryReachesHandler` | src/main/java/ru/netology/Main.java:15-16 | `POST /messages?x=1` invokes the 503 handler with the original request |
| `Example.PutIsBadRequest` | src/main/java/ru/netology/Main.java:7-16 | `PUT /index.html` is a bad request although the file is allow-listed |

## Left out

- The accept loop and the worker pool (`start`, the `ExecutorService`) are not modelled. They concern concurrency and sockets. The thread safety of the `ConcurrentHashMap` is not modelled either: the table is an ordinary field.
- Request parsing (`Request.createRequest`) is not modelled. Its source is not part of this model, so a parsed request is an `Option<Request>` of method and path.
- `printRequestDebug` is not modelled. It prints to the console, and it calls `Request.getQueryParam`, which is not part of this model. Its effect on control flow, including a possible null dereference, is not captured.
- Closing the socket and streams (try-with-resources) is not modelled. Neither is wrapping `IOException` into `RuntimeException`: a failure becomes "nothing written" (`PathError`, or `DefaultHandler` returning false).
- `flush` is not modelled. The stream records every byte written; buffering does not change which bytes are sent.
- `Files.probeContentType`, `Files.readString`, `Files.size`, `Files.copy` and `LocalDateTime.now()` are not modelled; their results are parameters. The file size is taken to be the length of the bytes that `Files.copy` sends.
- Character encoding is not modelled. `readString` decodes UTF-8 and `getBytes()` uses the platform charset; the model takes both to be the identity. So `ClassicResponseFramed` counts characters, which equal bytes only for single-byte text.
- Handlers are opaque values of a type parameter. `Connect` returns the route `Invoke(handler, request)` instead of calling the handler. What a handler writes is not part of `Written` (the bootstrap's handlers are described by `Example.Respond`).
- The inner per-method `HashMap`s are values inside the table, not separate objects. Nothing else holds a reference to them, so in-place updates and value updates behave alike.
- `Template.ReplaceAll` requires a non-empty pattern; the server only ever replaces `{time}`.
