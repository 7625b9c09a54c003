/**
 * What a client reads: status line, header lines and page, in literals, for every way a
 * request can be decided.
 */
module HttpAnswers {
  import opened Common
  import opened NetBuffer
  import opened HttpParser
  import opened HttpRequests
  import opened HttpResponses
  import opened HttpSessions
  import opened HttpBoundaries
  import LogStream

  lemma Decimals()
    ensures LogStream.Decimal(200) == "200" && LogStream.Decimal(400) == "400"
    ensures LogStream.Decimal(403) == "403" && LogStream.Decimal(404) == "404"
  {
    ThreeDigits(2, 0, 0);
    ThreeDigits(4, 0, 0);
    ThreeDigits(4, 0, 3);
    ThreeDigits(4, 0, 4);
  }

  lemma ThreeDigits(a: nat, b: nat, c: nat)
    requires 0 < a < 10 && b < 10 && c < 10
    ensures LogStream.Decimal(100 * a + 10 * b + c) == [LogStream.Digit(a), LogStream.Digit(b), LogStream.Digit(c)]
  {
    var n := 100 * a + 10 * b + c;
    assert n / 10 == 10 * a + b && n % 10 == c && n / 10 / 10 == a && n / 10 % 10 == b;
    assert LogStream.Digits(n) == LogStream.Digits(n / 10) + [LogStream.Digit(c)];
    assert LogStream.Digits(n / 10) == LogStream.Digits(a) + [LogStream.Digit(b)];
    assert LogStream.Digits(a) == [LogStream.Digit(a)];
  }

  lemma StatusLines()
    ensures StatusLine(200) == "HTTP/1.1 200 OK" && StatusLine(400) == "HTTP/1.1 400 Bad Request"
    ensures StatusLine(403) == "HTTP/1.1 403 Forbidden" && StatusLine(404) == "HTTP/1.1 404 Not Found"
  {
    Decimals();
  }

  lemma ErrorPages()
    ensures ErrorPage(400) == "/400.html" && ErrorPage(403) == "/403.html" && ErrorPage(404) == "/404.html"
  {
    Decimals();
  }

  /** The client reads this status line first, and this page behind the head. */
  predicate ClientReads(o: Processed, status: string, page: string)
  {
    o.Replies? && ReadHead(o.text).Some? &&
    var (lines, body) := ReadHead(o.text).value;
    lines != [] && lines[0] == status && body == page
  }

  /** The message is answered with the status line and the page at `path`, or the server dies when it cannot be mapped. */
  predicate AnsweredWith(fs: FileSystem, o: Processed, status: string, path: string)
  {
    if Mappable(fs, path) then ClientReads(o, status, fs[path].content) else o.Dies?
  }

  /** A refusal is answered with the page of its status. */
  lemma RefusalAnswered(fs: FileSystem, p: Parser, input: string, q: Parser, rest: string, code: Code)
    requires Sane(p) && Sane(q) && Parse(fs, p, input) == Parsed(q, rest, code)
    requires code != NoRequest && code != GetRequest && code != Threw
    ensures AnsweredWith(fs, ProcessMessage(fs, p, input), StatusLine(StatusOf(code)), ErrorPage(StatusOf(code)))
    ensures ProcessMessage(fs, p, input).rest == rest
  {
    VerdictFramed(fs, q, code);
    RestOfMessage(fs, p, input);
  }

  /** The first line decides: the verdict on it is the verdict of the message. */
  lemma StartLineDecides(fs: FileSystem, post: map<string, string>, line: string, tail: string)
    requires '\r' !in line && ParseRequestLine(fs, Fresh(post), line).1 != NoRequest
    ensures var (q, code) := ParseRequestLine(fs, Fresh(post), line);
      Sane(q) && Parse(fs, Fresh(post), line + CRLF + tail) == Parsed(q, tail, code)
  {
    var input := line + CRLF + tail;
    FirstCrlfOfLine(line, tail);
    assert input[..|line|] == line && input[|line| + 2..] == tail;
    LineKeepsSane(fs, Fresh(post), line);
    var (q, code) := ParseRequestLine(fs, Fresh(post), line);
    ParseTakesLine(fs, Fresh(post), input, |line|, q, code);
  }

  predicate Words(r: Request)
  {
    Word(r.method_) && Word(r.target) && Word(r.version)
  }

  lemma StartLineHasNoCr(r: Request)
    requires Words(r)
    ensures '\r' !in StartLine(r)
  {
  }

  /** A resource that does not exist, or is a directory: 404, whatever follows the start line. */
  lemma MissingIsNotFound(fs: FileSystem, post: map<string, string>, r: Request, tail: string)
    requires Words(r) && (Normalise(r.target) !in fs || fs[Normalise(r.target)].isDir)
    ensures var o := ProcessMessage(fs, Fresh(post), StartLine(r) + CRLF + tail);
      AnsweredWith(fs, o, "HTTP/1.1 404 Not Found", "/404.html") && o.rest == tail
  {
    RequestLineMatches(r.method_, r.target, r.version);
    StartLineHasNoCr(r);
    StartLineDecides(fs, post, StartLine(r), tail);
    var (q, code) := ParseRequestLine(fs, Fresh(post), StartLine(r));
    RefusalAnswered(fs, Fresh(post), StartLine(r) + CRLF + tail, q, tail, code);
    StatusLines();
    ErrorPages();
  }

  /** A file that others may not read: 403. */
  lemma UnreadableIsForbidden(fs: FileSystem, post: map<string, string>, r: Request, tail: string)
    requires Words(r) && Normalise(r.target) in fs
    requires !fs[Normalise(r.target)].isDir && !fs[Normalise(r.target)].othersRead
    ensures var o := ProcessMessage(fs, Fresh(post), StartLine(r) + CRLF + tail);
      AnsweredWith(fs, o, "HTTP/1.1 403 Forbidden", "/403.html") && o.rest == tail
  {
    RequestLineMatches(r.method_, r.target, r.version);
    StartLineHasNoCr(r);
    StartLineDecides(fs, post, StartLine(r), tail);
    var (q, code) := ParseRequestLine(fs, Fresh(post), StartLine(r));
    RefusalAnswered(fs, Fresh(post), StartLine(r) + CRLF + tail, q, tail, code);
    StatusLines();
    ErrorPages();
  }

  /** A start line that the pattern refuses: 400. */
  lemma BadStartIsBadRequest(fs: FileSystem, post: map<string, string>, line: string, tail: string)
    requires '\r' !in line && MatchRequestLine(line).None?
    ensures var o := ProcessMessage(fs, Fresh(post), line + CRLF + tail);
      AnsweredWith(fs, o, "HTTP/1.1 400 Bad Request", "/400.html") && o.rest == tail
  {
    StartLineDecides(fs, post, line, tail);
    var (q, code) := ParseRequestLine(fs, Fresh(post), line);
    RefusalAnswered(fs, Fresh(post), line + CRLF + tail, q, tail, code);
    StatusLines();
    ErrorPages();
  }

  /** A header line that the pattern refuses: 400. */
  lemma BadHeaderIsBadRequest(fs: FileSystem, post: map<string, string>, r: Request, bad: string, tail: string)
    requires Good(fs, r) && RefusedLine(bad)
    ensures var o := ProcessMessage(fs, Fresh(post), StartLine(r) + CRLF + (FieldText(r.fields) + (bad + CRLF + tail)));
      AnsweredWith(fs, o, "HTTP/1.1 400 Bad Request", "/400.html") && o.rest == tail
  {
    var input := StartLine(r) + CRLF + (FieldText(r.fields) + (bad + CRLF + tail));
    ParseToRefused(fs, post, r, bad, tail);
    RefusalAnswered(fs, Fresh(post), input, AfterHead(fs, post, r), tail, BadRequest);
    StatusLines();
    ErrorPages();
  }

  /** The head a client reads with a page, in literals but for the type of the content. */
  function PageHead(r: Request, path: string, size: nat): seq<string>
  {
    ["HTTP/1.1 200 OK"]
    + (if AsksKeepAlive(r) then ["Connection: keep-alive", "Keep-Alive: max=6, timeout=120"] else ["Connection: close"])
    + ["Content-Type: " + MimeOf(path)]
    + ["Content-Length: " + LogStream.Decimal(size)]
  }

  lemma HeadIsPageHead(fs: FileSystem, post: map<string, string>, r: Request)
    requires Good(fs, r)
    ensures HeadLines(ReadRequest(fs, post, r), 200)
         == PageHead(r, Normalise(r.target), |fs[Normalise(r.target)].content|)
  {
    StatusLines();
  }

  /** A servable resource: 200 and its own page, with the whole head. */
  lemma ServableIsServed(fs: FileSystem, post: map<string, string>, r: Request, rest: string)
    requires Good(fs, r)
    ensures var o := ProcessMessage(fs, Fresh(post), Serialise(r) + rest); var path := Normalise(r.target);
      && AnsweredWith(fs, o, "HTTP/1.1 200 OK", path) && o.rest == rest
      && (o.Replies? ==> ReadHead(o.text) == Some((PageHead(r, path, |fs[path].content|), fs[path].content)))
  {
    RequestAnswered(fs, post, r, rest);
    DescribedPageFramed(fs, ReadRequest(fs, map[], r), 200);
    HeadIsPageHead(fs, map[], r);
  }

  // ---- Types of content ----

  lemma MimeByExtension(front: string, ext: string)
    requires '.' !in ext
    ensures MimeOf(front + "." + ext) == if "." + ext in MIME_TYPES then MIME_TYPES["." + ext] else "text/plain"
  {
    SuffixIsFromLastDot(front, ext);
  }

  lemma TypeOf(front: string, ext: string, suffix: string, kind: string)
    requires '.' !in ext && suffix == "." + ext && suffix in MIME_TYPES && MIME_TYPES[suffix] == kind
    ensures MimeOf(front + suffix) == kind
  {
    MimeByExtension(front, ext);
    assert front + suffix == front + "." + ext;
  }

  lemma HtmlTypes(front: string)
    ensures MimeOf(front + ".html") == "text/html"
    ensures MimeOf(front + ".xhtml") == "application/xhtml+xml"
  {
    TypeOf(front, "html", ".html", "text/html");
    TypeOf(front, "xhtml", ".xhtml", "application/xhtml+xml");
  }

  lemma TextTypes(front: string)
    ensures MimeOf(front + ".xml") == "text/xml"
    ensures MimeOf(front + ".txt") == "text/plain"
  {
    TypeOf(front, "xml", ".xml", "text/xml");
    TypeOf(front, "txt", ".txt", "text/plain");
  }

  lemma DocumentTypes(front: string)
    ensures MimeOf(front + ".rtf") == "application/rtf"
    ensures MimeOf(front + ".pdf") == "application/pdf"
    ensures MimeOf(front + ".doc") == "application/msword"
  {
    TypeOf(front, "rtf", ".rtf", "application/rtf");
    TypeOf(front, "pdf", ".pdf", "application/pdf");
    TypeOf(front, "doc", ".doc", "application/msword");
  }

  lemma PictureTypes(front: string)
    ensures MimeOf(front + ".png") == "image/png"
    ensures MimeOf(front + ".gif") == "image/gif"
  {
    TypeOf(front, "png", ".png", "image/png");
    TypeOf(front, "gif", ".gif", "image/gif");
  }

  lemma JpegTypes(front: string)
    ensures MimeOf(front + ".jpg") == "image/jpeg"
    ensures MimeOf(front + ".jpeg") == "image/jpeg"
  {
    TypeOf(front, "jpg", ".jpg", "image/jpeg");
    TypeOf(front, "jpeg", ".jpeg", "image/jpeg");
  }

  lemma MpegTypes(front: string)
    ensures MimeOf(front + ".mpeg") == "video/mpeg"
    ensures MimeOf(front + ".mpg") == "video/mpeg"
  {
    TypeOf(front, "mpeg", ".mpeg", "video/mpeg");
    TypeOf(front, "mpg", ".mpg", "video/mpeg");
  }

  lemma MediaTypes(front: string)
    ensures MimeOf(front + ".au") == "audio/basic"
    ensures MimeOf(front + ".avi") == "video/x-msvideo"
  {
    TypeOf(front, "au", ".au", "audio/basic");
    TypeOf(front, "avi", ".avi", "video/x-msvideo");
  }

  lemma ArchiveTypes(front: string)
    ensures MimeOf(front + ".gz") == "application/x-gzip"
    ensures MimeOf(front + ".tar") == "application/x-tar"
  {
    TypeOf(front, "gz", ".gz", "application/x-gzip");
    TypeOf(front, "tar", ".tar", "application/x-tar");
  }

  lemma StyleTypes(front: string)
    ensures MimeOf(front + ".css") == "text/css"
    ensures MimeOf(front + ".js") == "text/javascript"
  {
    TypeOf(front, "css", ".css", "text/css");
    TypeOf(front, "js", ".js", "text/javascript");
  }

  /** A suffix that is not in the table is plain text. */
  lemma UnknownType(front: string, ext: string)
    requires '.' !in ext && |ext| > 5
    ensures MimeOf(front + "." + ext) == "text/plain"
  {
    MimeByExtension(front, ext);
    assert forall k :: k in MIME_TYPES ==> |k| <= 6;
  }
}
