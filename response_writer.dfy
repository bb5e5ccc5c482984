/**
 * The bytes the server writes for its own responses: the no-content
 * response used for 400 and 404 (and by the example handlers), and the
 * `200 OK` head that precedes a static file. Bytes are characters here:
 * the encoding of `getBytes()` is taken to be the identity.
 */
module ResponseWriter {
  import opened Wrappers
  import Decimal

  /** How Java's string concatenation renders a content type that may be `null`. */
  function MimeText(mime: Option<string>): string {
    match mime
    case Some(m) => m
    case None => "null"
  }

  /** `responseWithoutContent(out, code, status)`: a status line and two headers, no body. */
  function NoContent(code: string, status: string): string {
    "HTTP/1.1 " + code + " " + status + "\r\n" +
    "Content-Length: 0\r\n" +
    "Connection: close\r\n" +
    "\r\n"
  }

  /** The head `defaultHandler` writes before a body of `length` bytes. */
  function OkHead(mime: Option<string>, length: nat): string {
    "HTTP/1.1 200 OK\r\n" +
    "Content-Type: " + MimeText(mime) + "\r\n" +
    "Content-Length: " + Decimal.Show(length) + "\r\n" +
    "Connection: close\r\n" +
    "\r\n"
  }
}
