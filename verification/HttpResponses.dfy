/**
 * Responses: choosing the page, building the head and the body, and the framing a client
 * relies on.  The file system is fixed; a call that ends in LOG_SYSFATAL has no result.
 */
module HttpResponses {
  import opened Common
  import opened NetBuffer
  import opened HttpParser
  import LogStream

  function StatusOf(code: Code): nat
  {
    match code
    case GetRequest => 200
    case Forbidden => 403
    case NoResource => 404
    case _ => 400
  }

  function ReasonOf(status: nat): string
  {
    if status == 200 then "OK"
    else if status == 403 then "Forbidden"
    else if status == 404 then "Not Found"
    else "Bad Request"
  }

  const MIME_TYPES: map<string, string> := map[
    ".html" := "text/html",
    ".xml" := "text/xml",
    ".xhtml" := "application/xhtml+xml",
    ".txt" := "text/plain",
    ".rtf" := "application/rtf",
    ".pdf" := "application/pdf",
    ".doc" := "application/msword",
    ".png" := "image/png",
    ".gif" := "image/gif",
    ".jpg" := "image/jpeg",
    ".jpeg" := "image/jpeg",
    ".au" := "audio/basic",
    ".mpeg" := "video/mpeg",
    ".mpg" := "video/mpeg",
    ".avi" := "video/x-msvideo",
    ".gz" := "application/x-gzip",
    ".tar" := "application/x-tar",
    ".css" := "text/css",
    ".js" := "text/javascript"]

  /** The text from the last dot on, or nothing. */
  function Suffix(path: string): string
  {
    if path == "" then ""
    else if path[|path| - 1] == '.' then "."
    else
      var s := Suffix(path[..|path| - 1]);
      if s == "" then "" else s + [path[|path| - 1]]
  }

  /** The suffix is what follows the last dot, with it. */
  lemma {:induction false} SuffixIsFromLastDot(front: string, ext: string)
    requires '.' !in ext
    ensures Suffix(front + "." + ext) == "." + ext
    decreases |ext|
  {
    var path := front + "." + ext;
    if ext != "" {
      var init := ext[..|ext| - 1];
      var c := ext[|ext| - 1];
      assert c in ext;
      assert path[..|path| - 1] == front + "." + init && path[|path| - 1] == c;
      SuffixIsFromLastDot(front, init);
      assert "." + init + [c] == "." + ext;
    }
  }

  function MimeOf(path: string): string
  {
    if Suffix(path) in MIME_TYPES then MIME_TYPES[Suffix(path)] else "text/plain"
  }

  function ErrorPage(status: nat): string
  {
    "/" + LogStream.Decimal(status) + ".html"
  }

  /** initResponse: an error is answered by its own page, which must exist. */
  function InitResponse(fs: FileSystem, p: Parser, code: Code): Option<Parser>
  {
    if code == GetRequest then Some(p)
    else
      var page := ErrorPage(StatusOf(code));
      if page in fs then Some(p.(path := page, stat := StatOf(fs[page]))) else None
  }

  predicate KeepAlive(p: Parser)
  {
    "Connection" in p.header && p.header["Connection"] == "keep-alive" && p.version == "1.1"
  }

  function StatusLine(status: nat): string
  {
    "HTTP/1.1 " + LogStream.Decimal(status) + " " + ReasonOf(status)
  }

  function ConnectionLines(p: Parser): seq<string>
  {
    if KeepAlive(p) then ["Connection: keep-alive", "Keep-Alive: max=6, timeout=120"] else ["Connection: close"]
  }

  function HeadLines(p: Parser, status: nat): seq<string>
  {
    [StatusLine(status)] + ConnectionLines(p) + ["Content-Type: " + MimeOf(p.path)]
    + ["Content-Length: " + LogStream.Decimal(p.stat.size)]
  }

  function JoinLines(lines: seq<string>): string
  {
    if lines == [] then "" else lines[0] + CRLF + JoinLines(lines[1..])
  }

  /** makeResponseBody: open, map `st_size` bytes (mmap refuses zero and directories), append them. */
  function MappedBody(fs: FileSystem, p: Parser): Option<string>
  {
    if p.path !in fs || !fs[p.path].openable || fs[p.path].isDir || p.stat.size == 0 then None
    else if p.stat.size > |fs[p.path].content| then None
    else Some(fs[p.path].content[..p.stat.size])
  }

  /** makeResponse: the parser afterwards and the bytes appended, or None when the server aborts. */
  function MakeResponse(fs: FileSystem, p: Parser, code: Code): Option<(Parser, string)>
  {
    match InitResponse(fs, p, code)
    case None => None
    case Some(q) =>
      match MappedBody(fs, q)
      case None => None
      case Some(body) => Some((q, JoinLines(HeadLines(q, StatusOf(code))) + CRLF + body))
  }

  // ---- What a client reads ----

  /** The lines up to the first empty one, and what follows it. */
  function ReadHead(s: string): Option<(seq<string>, string)>
    decreases |s|
  {
    match FirstCrlf(s)
    case None => None
    case Some(i) =>
      if i == 0 then Some(([], s[2..]))
      else
        match ReadHead(s[i + 2..])
        case None => None
        case Some((lines, body)) => Some(([s[..i]] + lines, body))
  }

  /** Lines that are neither empty nor broken by a CR. */
  predicate Plain(lines: seq<string>)
  {
    forall i :: 0 <= i < |lines| ==> lines[i] != "" && '\r' !in lines[i]
  }

  lemma {:induction false} ReadHeadOf(lines: seq<string>, body: string)
    requires Plain(lines)
    ensures ReadHead(JoinLines(lines) + CRLF + body) == Some((lines, body))
    decreases |lines|
  {
    var s := JoinLines(lines) + CRLF + body;
    if lines == [] {
      assert s == "" + CRLF + body;
      FirstCrlfOfLine("", body);
      assert s[2..] == body;
    } else {
      var rest := JoinLines(lines[1..]) + CRLF + body;
      assert s == lines[0] + CRLF + rest;
      FirstCrlfOfLine(lines[0], rest);
      assert s[..|lines[0]|] == lines[0] && s[|lines[0]| + 2..] == rest;
      ReadHeadOf(lines[1..], body);
      assert lines == [lines[0]] + lines[1..];
    }
  }

  /** Content-Length is the last header line and equals the number of bytes after the head. */
  predicate Framed(text: string, body: string)
  {
    match ReadHead(text)
    case None => false
    case Some((lines, rest)) =>
      rest == body && lines != [] && lines[|lines| - 1] == "Content-Length: " + LogStream.Decimal(|body|)
  }

  lemma MimeHasNoCr(path: string)
    ensures '\r' !in MimeOf(path)
  {
    var s := Suffix(path);
    if s in MIME_TYPES {
      assert MIME_TYPES[s] in {"text/html", "text/xml", "application/xhtml+xml", "text/plain", "application/rtf",
        "application/pdf", "application/msword", "image/png", "image/gif", "image/jpeg", "audio/basic", "video/mpeg",
        "video/x-msvideo", "application/x-gzip", "application/x-tar", "text/css", "text/javascript"};
    }
  }

  lemma DecimalHasNoCr(n: nat)
    ensures '\r' !in LogStream.Decimal(n)
  {
    LogStream.DigitsRoundTrip(n);
    var s := LogStream.Decimal(n);
    assert forall i :: 0 <= i < |s| ==> LogStream.IsDigit(s[i]);
  }

  lemma NoCrInParts(a: string, b: string)
    requires '\r' !in a && '\r' !in b
    ensures '\r' !in a + b
  {
  }

  lemma PlainParts(a: seq<string>, b: seq<string>)
    requires Plain(a) && Plain(b)
    ensures Plain(a + b)
  {
  }

  lemma StatusLineIsPlain(status: nat)
    ensures Plain([StatusLine(status)])
  {
    DecimalHasNoCr(status);
    NoCrInParts("HTTP/1.1 ", LogStream.Decimal(status));
    NoCrInParts("HTTP/1.1 " + LogStream.Decimal(status), " ");
    NoCrInParts("HTTP/1.1 " + LogStream.Decimal(status) + " ", ReasonOf(status));
  }

  lemma ConnectionLinesArePlain(p: Parser)
    ensures Plain(ConnectionLines(p))
  {
  }

  lemma HeadLinesArePlain(p: Parser, status: nat)
    ensures Plain(HeadLines(p, status))
  {
    StatusLineIsPlain(status);
    ConnectionLinesArePlain(p);
    PlainParts([StatusLine(status)], ConnectionLines(p));
    MimeHasNoCr(p.path);
    NoCrInParts("Content-Type: ", MimeOf(p.path));
    var kind := ["Content-Type: " + MimeOf(p.path)];
    PlainParts([StatusLine(status)] + ConnectionLines(p), kind);
    DecimalHasNoCr(p.stat.size);
    NoCrInParts("Content-Length: ", LogStream.Decimal(p.stat.size));
    PlainParts([StatusLine(status)] + ConnectionLines(p) + kind, ["Content-Length: " + LogStream.Decimal(p.stat.size)]);
  }

  /** The stat buffer describes the resource named by the path. */
  predicate Described(fs: FileSystem, p: Parser)
  {
    p.path in fs && p.stat == StatOf(fs[p.path])
  }

  /** Whenever a path has been chosen, the stat buffer belongs to it. */
  predicate Consistent(fs: FileSystem, p: Parser)
  {
    Sane(p) && (p.phase != RequestLine ==> Described(fs, p))
  }

  /** A verdict that lets the request go on, or grants it, leaves the parser consistent. */
  predicate GoodOutcome(fs: FileSystem, p: Parser, code: Code)
  {
    && (code == NoRequest ==> Consistent(fs, p))
    && (code == GetRequest ==> Consistent(fs, p) && p.phase == Finish)
  }

  lemma LineKeepsDescribed(fs: FileSystem, p: Parser, line: string)
    requires Consistent(fs, p) && (p.phase == RequestLine || p.phase == Header)
    ensures GoodOutcome(fs, ParseLine(fs, p, line).0, ParseLine(fs, p, line).1)
  {
    LineKeepsSane(fs, p, line);
  }

  lemma BodyKeepsDescribed(fs: FileSystem, p: Parser, input: string)
    requires Consistent(fs, p) && p.phase == Body
    ensures GoodOutcome(fs, ParseBody(fs, p, input).p, ParseBody(fs, p, input).code)
  {
    BodyDecides(fs, p, input);
    BodyKeepsSane(fs, p, input);
  }

  lemma {:induction false} ParseKeepsDescribed(fs: FileSystem, p: Parser, input: string)
    requires Consistent(fs, p)
    ensures GoodOutcome(fs, Parse(fs, p, input).p, Parse(fs, p, input).code)
    decreases |input|
  {
    if p.phase == Body {
      BodyKeepsDescribed(fs, p, input);
    } else if p.phase != Finish {
      match FirstCrlf(input) {
        case None =>
        case Some(i) =>
          LineKeepsDescribed(fs, p, input[..i]);
          var (p', code) := ParseLine(fs, p, input[..i]);
          if code == NoRequest {
            ParseKeepsDescribed(fs, p', input[i + 2..]);
          }
      }
    }
  }

  /** The page that will answer: the requested one, or the error page. */
  function Page(p: Parser, code: Code): string
  {
    if code == GetRequest then p.path else ErrorPage(StatusOf(code))
  }

  predicate Mappable(fs: FileSystem, path: string)
  {
    path in fs && fs[path].openable && !fs[path].isDir && fs[path].content != ""
  }

  /** A page that the stat buffer describes is mapped whole or not at all. */
  lemma DescribedIsMapped(fs: FileSystem, q: Parser)
    requires Described(fs, q)
    ensures MappedBody(fs, q) == if Mappable(fs, q.path) then Some(fs[q.path].content) else None
  {
    var content := fs[q.path].content;
    assert content[..|content|] == content;
  }

  lemma DescribedPageFramed(fs: FileSystem, q: Parser, status: nat)
    requires Described(fs, q)
    ensures var text := JoinLines(HeadLines(q, status)) + CRLF + fs[q.path].content;
      && ReadHead(text) == Some((HeadLines(q, status), fs[q.path].content))
      && Framed(text, fs[q.path].content)
  {
    var content := fs[q.path].content;
    var lines := HeadLines(q, status);
    HeadLinesArePlain(q, status);
    ReadHeadOf(lines, content);
    assert lines[|lines| - 1] == "Content-Length: " + LogStream.Decimal(|content|);
  }

  lemma InitDescribes(fs: FileSystem, p: Parser, code: Code)
    requires Sane(p) && GoodOutcome(fs, p, code) && code != NoRequest
    ensures InitResponse(fs, p, code).Some? <==> Page(p, code) in fs
    ensures InitResponse(fs, p, code).Some? ==>
      var q := InitResponse(fs, p, code).value;
      Described(fs, q) && q.path == Page(p, code) && q.phase == p.phase && Sane(q)
  {
  }

  // ---- One message ----

  /** The parser for the next message: reset on keep-alive, left as it is when the connection is being shut. */
  function NextParser(p: Parser): Parser
  {
    if KeepAlive(p) then Fresh(p.post) else p
  }

  /**
   * What becomes of a message: more bytes are needed, a response has been built, or the server
   * dies of an exception that nobody catches or of a page it cannot open or map.
   */
  datatype Processed =
    | Waits(p: Parser, rest: string)
    | Replies(p: Parser, rest: string, text: string)
    | Dies(rest: string)

  /** processMessage: at most one request is parsed and answered. */
  function ProcessMessage(fs: FileSystem, p: Parser, input: string): Processed
    requires Sane(p)
  {
    var r := Parse(fs, p, input);
    if r.code == NoRequest then Waits(r.p, r.rest)
    else if r.code == Threw then Dies(r.rest)
    else
      match MakeResponse(fs, r.p, r.code)
      case None => Dies(r.rest)
      case Some((q, text)) => Replies(NextParser(q), r.rest, text)
  }

  /** The answer to a verdict, when there was no exception. */
  lemma VerdictFramed(fs: FileSystem, p: Parser, code: Code)
    requires Sane(p) && GoodOutcome(fs, p, code) && code != NoRequest
    ensures var page := Page(p, code); var a := MakeResponse(fs, p, code);
      && (a.Some? <==> Mappable(fs, page))
      && (a.Some? ==>
            && InitResponse(fs, p, code) == Some(a.value.0) && Described(fs, a.value.0) && Sane(a.value.0)
            && Framed(a.value.1, fs[page].content)
            && ReadHead(a.value.1) == Some((HeadLines(a.value.0, StatusOf(code)), fs[page].content)))
  {
    InitDescribes(fs, p, code);
    if InitResponse(fs, p, code).Some? {
      DescribedIsMapped(fs, InitResponse(fs, p, code).value);
      DescribedPageFramed(fs, InitResponse(fs, p, code).value, StatusOf(code));
    }
  }

  /**
   * Response framing.  A message is answered exactly when its request is decided without an
   * exception and the page can be mapped (an empty one cannot); otherwise the server waits or
   * dies.  The answer's head is the one for the verdict, its Content-Length is the number of
   * bytes that follow, and these are the whole page.
   */
  lemma ResponseFramed(fs: FileSystem, p: Parser, input: string)
    requires Consistent(fs, p)
    ensures var r := Parse(fs, p, input); var o := ProcessMessage(fs, p, input); var page := Page(r.p, r.code);
      && o.rest == r.rest
      && (o.Waits? <==> r.code == NoRequest)
      && (o.Replies? <==> r.code != NoRequest && r.code != Threw && Mappable(fs, page))
      && (o.Replies? ==>
            && Framed(o.text, fs[page].content) && InitResponse(fs, r.p, r.code).Some?
            && ReadHead(o.text) == Some((HeadLines(InitResponse(fs, r.p, r.code).value, StatusOf(r.code)),
                                         fs[page].content)))
      && (!o.Dies? ==> Consistent(fs, o.p))
  {
    ParseKeepsSane(fs, p, input);
    ParseKeepsDescribed(fs, p, input);
    var r := Parse(fs, p, input);
    if r.code != NoRequest && r.code != Threw {
      VerdictFramed(fs, r.p, r.code);
    }
  }

  /** The server dies of a message exactly when a bad length is met or the page cannot be mapped. */
  lemma DiesExactly(fs: FileSystem, p: Parser, input: string)
    requires Consistent(fs, p)
    ensures var r := Parse(fs, p, input);
      ProcessMessage(fs, p, input).Dies? <==>
        || (exists k :: ThrowsAt(fs, p, input, k))
        || (r.code != NoRequest && r.code != Threw && !Mappable(fs, Page(r.p, r.code)))
  {
    ResponseFramed(fs, p, input);
    ThrowsExactly(fs, p, input);
  }

  lemma ProcessKeepsSane(fs: FileSystem, p: Parser, input: string)
    requires Sane(p)
    ensures !ProcessMessage(fs, p, input).Dies? ==> Sane(ProcessMessage(fs, p, input).p)
  {
    ParseKeepsSane(fs, p, input);
  }
}
