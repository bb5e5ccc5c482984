/**
 * What an HTTP/1.1 client makes of the bytes the server writes: the lines up
 * to the first empty line are the status line and the header lines, the rest
 * is the body. The lemmas show that the server's responses read back as the
 * status line and headers they were built from, and that the body they carry
 * is exactly as long as their `Content-Length` header says.
 */
module ResponseReader {
  import opened Wrappers
  import Decimal
  import opened ResponseWriter

  const CRLF: string := "\r\n"

  /** A response as a client sees it. */
  datatype Message = Message(statusLine: string, headers: seq<string>, body: string)

  /** Splits `s` at its first CRLF into the line before it and the rest after it. */
  function SplitLine(s: string): (r: Option<(string, string)>)
    ensures r.Some? ==> s == r.value.0 + (CRLF + r.value.1)
    decreases |s|
  {
    if |s| < 2 then None
    else if s[0] == '\r' && s[1] == '\n' then Some(([], s[2..]))
    else
      match SplitLine(s[1..])
      case None => None
      case Some((line, rest)) => Some(([s[0]] + line, rest))
  }

  /** The lines of `s` up to the first empty one, and what follows that empty line. */
  function ReadLines(s: string): Option<(seq<string>, string)>
    decreases |s|
  {
    match SplitLine(s)
    case None => None
    case Some((line, rest)) =>
      if line == [] then Some(([], rest))
      else
        match ReadLines(rest)
        case None => None
        case Some((lines, body)) => Some(([line] + lines, body))
  }

  function Read(s: string): Option<Message> {
    match ReadLines(s)
    case Some((lines, body)) =>
      if lines == [] then None else Some(Message(lines[0], lines[1..], body))
    case None => None
  }

  /** The value of the first header line named `name`. */
  function HeaderValue(headers: seq<string>, name: string): Option<string> {
    if headers == [] then None
    else if name + ": " <= headers[0] then Some(headers[0][|name| + 2..])
    else HeaderValue(headers[1..], name)
  }

  /** The body length a message declares in its `Content-Length` header. */
  function DeclaredLength(m: Message): Option<nat> {
    match HeaderValue(m.headers, "Content-Length")
    case Some(v) => Decimal.Parse(v)
    case None => None
  }

  /** Announces that the connection closes, and declares the length of the body it carries. */
  predicate WellFramed(m: Message) {
    HeaderValue(m.headers, "Connection") == Some("close") && DeclaredLength(m) == Some(|m.body|)
  }

  /** The bytes of a head: each line followed by CRLF, then the empty line. */
  function Head(lines: seq<string>): string {
    if lines == [] then CRLF else lines[0] + (CRLF + Head(lines[1..]))
  }

  lemma {:induction false} SplitLineOf(line: string, rest: string)
    requires '\r' !in line
    ensures SplitLine(line + (CRLF + rest)) == Some((line, rest))
  {
    var s := line + (CRLF + rest);
    if line == [] {
      assert s == CRLF + rest;
      assert s[2..] == rest;
    } else {
      assert s[1..] == line[1..] + (CRLF + rest);
      SplitLineOf(line[1..], rest);
      assert [line[0]] + line[1..] == line;
    }
  }

  /** Lines a head can carry: none empty, none with a carriage return. */
  predicate PlainLines(lines: seq<string>) {
    forall k :: 0 <= k < |lines| ==> lines[k] != [] && '\r' !in lines[k]
  }

  /** A head of plain lines reads back as those lines, and the body as itself. */
  lemma {:induction false} ReadHead(lines: seq<string>, body: string)
    requires PlainLines(lines)
    ensures ReadLines(Head(lines) + body) == Some((lines, body))
  {
    if lines == [] {
      SplitLineOf([], body);
      assert Head(lines) + body == [] + (CRLF + body);
    } else {
      var rest := Head(lines[1..]) + body;
      assert Head(lines) + body == lines[0] + (CRLF + rest);
      SplitLineOf(lines[0], rest);
      ReadHead(lines[1..], body);
      assert [lines[0]] + lines[1..] == lines;
    }
  }

  /** The first plain line of a head is the status line, the others its header lines. */
  lemma ReadMessage(lines: seq<string>, body: string)
    requires PlainLines(lines) && lines != []
    ensures Read(Head(lines) + body) == Some(Message(lines[0], lines[1..], body))
  {
    ReadHead(lines, body);
  }

  lemma HeadOfThree(a: string, b: string, c: string)
    ensures Head([a, b, c]) == a + (CRLF + (b + (CRLF + (c + (CRLF + CRLF)))))
  {
    assert [a, b, c][1..] == [b, c];
    assert [b, c][1..] == [c];
    assert [c][1..] == [];
    assert Head([c]) == c + (CRLF + CRLF);
    assert Head([b, c]) == b + (CRLF + Head([c]));
  }

  lemma HeadOfFour(a: string, b: string, c: string, d: string)
    ensures Head([a, b, c, d]) == a + (CRLF + (b + (CRLF + (c + (CRLF + (d + (CRLF + CRLF)))))))
  {
    assert [a, b, c, d][1..] == [b, c, d];
    HeadOfThree(b, c, d);
  }

  /** The headers of a no-content response say: no body, connection closes. */
  lemma NoContentHeadersFramed()
    ensures WellFramed(Message([], ["Content-Length: 0", "Connection: close"], []))
  {
    var headers := ["Content-Length: 0", "Connection: close"];
    assert !("Connection: " <= headers[0]) by {
      assert headers[0][3] != "Connection: "[3];
    }
    assert headers[1..][0][|"Connection"| + 2..] == "close";
    assert headers[0][|"Content-Length"| + 2..] == "0";
    assert Decimal.Parse("0") == Some(0) by {
      assert Decimal.Value("0") == Decimal.Value("") * 10 + 0;
    }
  }

  /**
   * A no-content response reads back as its status line, a zero
   * `Content-Length`, `Connection: close` and an empty body.
   */
  lemma NoContentReads(code: string, status: string)
    requires '\r' !in code && '\r' !in status
    ensures Read(NoContent(code, status)) ==
      Some(Message("HTTP/1.1 " + code + " " + status, ["Content-Length: 0", "Connection: close"], []))
    ensures WellFramed(Read(NoContent(code, status)).value)
  {
    var statusLine := "HTTP/1.1 " + code + " " + status;
    var lines := [statusLine, "Content-Length: 0", "Connection: close"];
    assert '\r' !in statusLine by {
      assert statusLine == "HTTP/1.1 " + (code + (" " + status));
    }
    HeadOfThree(statusLine, "Content-Length: 0", "Connection: close");
    assert "Content-Length: 0\r\n" == "Content-Length: 0" + CRLF;
    assert "Connection: close\r\n" == "Connection: close" + CRLF;
    calc {
      NoContent(code, status);
      statusLine + "\r\n" + "Content-Length: 0\r\n" + "Connection: close\r\n" + "\r\n";
      statusLine + (CRLF + ("Content-Length: 0" + (CRLF + ("Connection: close" + (CRLF + CRLF)))));
      Head(lines) + [];
    }
    ReadHead(lines, []);
    assert lines[1..] == ["Content-Length: 0", "Connection: close"];
    NoContentHeadersFramed();
  }

  /** A header line is not named `name` when it differs from `name + ": "` at some index. */
  lemma NotNamed(line: string, name: string, i: nat)
    requires i < |name| + 2 && i < |line| && line[i] != (name + ": ")[i]
    ensures !(name + ": " <= line)
  {
  }

  lemma OkLengthHeader(typeValue: string, digits: string)
    ensures HeaderValue(["Content-Type: " + typeValue, "Content-Length: " + digits, "Connection: close"],
                        "Content-Length") == Some(digits)
  {
    var headers := ["Content-Type: " + typeValue, "Content-Length: " + digits, "Connection: close"];
    NotNamed(headers[0], "Content-Length", 8);
    assert headers[1..] == ["Content-Length: " + digits, "Connection: close"];
    assert headers[1][|"Content-Length"| + 2..] == digits;
  }

  lemma OkConnectionHeader(typeValue: string, digits: string)
    ensures HeaderValue(["Content-Type: " + typeValue, "Content-Length: " + digits, "Connection: close"],
                        "Connection") == Some("close")
  {
    var headers := ["Content-Type: " + typeValue, "Content-Length: " + digits, "Connection: close"];
    NotNamed(headers[0], "Connection", 3);
    NotNamed(headers[1], "Connection", 3);
    assert headers[1..] == ["Content-Length: " + digits, "Connection: close"];
    assert headers[1..][1..] == ["Connection: close"];
    assert "Connection: " <= headers[2];
    assert headers[2][|"Connection"| + 2..] == "close";
    assert HeaderValue(headers[1..][1..], "Connection") == Some("close");
    assert HeaderValue(headers[1..], "Connection") == Some("close");
  }

  /** The headers of a `200 OK` head declare the body length they were given. */
  lemma OkHeadersFramed(mime: Option<string>, body: string)
    ensures WellFramed(Message("HTTP/1.1 200 OK",
      ["Content-Type: " + MimeText(mime), "Content-Length: " + Decimal.Show(|body|), "Connection: close"], body))
  {
    OkLengthHeader(MimeText(mime), Decimal.Show(|body|));
    OkConnectionHeader(MimeText(mime), Decimal.Show(|body|));
    Decimal.ParseShow(|body|);
  }

  /** Regrouping the left-nested concatenation of the 200 head into `Head`'s right-nested form. */
  lemma OkRegroup(s: string, t: string, m: string, l: string, d: string, c: string)
    ensures s + CRLF + t + m + CRLF + l + d + CRLF + (c + CRLF) + CRLF
            == s + (CRLF + ((t + m) + (CRLF + ((l + d) + (CRLF + (c + (CRLF + CRLF)))))))
  {
    var tail := c + (CRLF + CRLF);
    assert (c + CRLF) + CRLF == tail;
    var x := (l + d) + (CRLF + tail);
    assert l + d + CRLF + tail == x;
    var y := (t + m) + (CRLF + x);
    assert t + m + CRLF + x == y;
    assert s + CRLF + y == s + (CRLF + y);
  }

  /** The `200 OK` head is the head of its four lines. */
  lemma OkHeadLines(mime: Option<string>, length: nat)
    ensures OkHead(mime, length) == Head(["HTTP/1.1 200 OK", "Content-Type: " + MimeText(mime),
                                          "Content-Length: " + Decimal.Show(length), "Connection: close"])
  {
    var statusLine, connectionLine := "HTTP/1.1 200 OK", "Connection: close";
    var m, d := MimeText(mime), Decimal.Show(length);
    assert "HTTP/1.1 200 OK\r\n" == statusLine + CRLF;
    assert "Connection: close\r\n" == connectionLine + CRLF;
    assert OkHead(mime, length) == statusLine + CRLF + "Content-Type: " + m + CRLF + "Content-Length: " + d + CRLF
                                   + (connectionLine + CRLF) + CRLF;
    OkRegroup(statusLine, "Content-Type: ", m, "Content-Length: ", d, connectionLine);
    HeadOfFour(statusLine, "Content-Type: " + m, "Content-Length: " + d, connectionLine);
  }

  lemma OkLinesPlain(mime: Option<string>, length: nat)
    requires '\r' !in MimeText(mime)
    ensures PlainLines(["HTTP/1.1 200 OK", "Content-Type: " + MimeText(mime),
                        "Content-Length: " + Decimal.Show(length), "Connection: close"])
  {
    var digits := Decimal.Show(length);
    assert '\r' !in digits by {
      assert forall i :: 0 <= i < |digits| ==> Decimal.IsDigit(digits[i]);
    }
  }

  /**
   * A `200 OK` head followed by a body reads back as the content type, the
   * body's length, `Connection: close`, and the body itself.
   */
  lemma OkReads(mime: Option<string>, body: string)
    requires '\r' !in MimeText(mime)
    ensures Read(OkHead(mime, |body|) + body) ==
      Some(Message("HTTP/1.1 200 OK",
                   ["Content-Type: " + MimeText(mime), "Content-Length: " + Decimal.Show(|body|), "Connection: close"],
                   body))
    ensures WellFramed(Read(OkHead(mime, |body|) + body).value)
  {
    var lines := ["HTTP/1.1 200 OK", "Content-Type: " + MimeText(mime),
                  "Content-Length: " + Decimal.Show(|body|), "Connection: close"];
    OkHeadLines(mime, |body|);
    OkLinesPlain(mime, |body|);
    ReadMessage(lines, body);
    assert lines[1..] == ["Content-Type: " + MimeText(mime), "Content-Length: " + Decimal.Show(|body|), "Connection: close"];
    OkHeadersFramed(mime, body);
  }
}
