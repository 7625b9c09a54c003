/**
 * Where a reply leaves the input buffer.  A line of the head that is refused decides the
 * request at once; what follows the line stays in the buffer, and a connection that is kept
 * alive reads it as the next request.
 */
module HttpBoundaries {
  import opened Common
  import opened NetBuffer
  import opened HttpParser
  import opened HttpRequests
  import opened HttpResponses
  import opened HttpSessions

  /** A head as lines, accepted or not: a start line and header lines. */
  predicate HeadOf(lines: seq<string>)
  {
    && lines != [] && (forall i :: 0 <= i < |lines| ==> '\r' !in lines[i])
    && (forall i :: 0 < i < |lines| ==> lines[i] != "")
  }

  /** The parser after the last line read, its verdict, and the lines not read. */
  datatype HeadRead = HeadRead(p: Parser, code: Code, left: seq<string>)

  function ReadLines(fs: FileSystem, p: Parser, lines: seq<string>): HeadRead
    decreases |lines|
  {
    if lines == [] then HeadRead(p, NoRequest, [])
    else
      var (p', code) := ParseLine(fs, p, lines[0]);
      if code != NoRequest then HeadRead(p', code, lines[1..]) else ReadLines(fs, p', lines[1..])
  }

  /** Lines for a parser that is at the start line or in the header. */
  predicate Readable(p: Parser, lines: seq<string>)
  {
    && Sane(p) && (p.phase == RequestLine || p.phase == Header)
    && (forall i :: 0 <= i < |lines| ==> '\r' !in lines[i])
    && (forall i :: 0 <= i < |lines| && (p.phase == Header || i > 0) ==> lines[i] != "")
  }

  lemma LineStaysReadable(fs: FileSystem, p: Parser, lines: seq<string>)
    requires Readable(p, lines) && lines != []
    ensures var (p', code) := ParseLine(fs, p, lines[0]);
      && Sane(p') && code != Threw && p'.post == p.post && p'.body == ""
      && (code == NoRequest ==> Readable(p', lines[1..]))
  {
    LineKeepsSane(fs, p, lines[0]);
  }

  /** Parsing a head followed by anything: every line up to the refused one is consumed, or the whole head. */
  lemma {:induction false} ParseLines(fs: FileSystem, p: Parser, lines: seq<string>, tail: string)
    requires Readable(p, lines)
    ensures var h := ReadLines(fs, p, lines);
      && Sane(h.p) && h.code != Threw && h.p.post == p.post && h.p.body == ""
      && (h.code == NoRequest ==> h.p.phase == RequestLine || h.p.phase == Header)
      && (lines != [] && h.code == NoRequest ==> h.p.phase == Header)
      && Parse(fs, p, JoinLines(lines) + tail) ==
           if h.code != NoRequest then Parsed(h.p, JoinLines(h.left) + tail, h.code) else Parse(fs, h.p, tail)
    decreases |lines|
  {
    if lines == [] {
      assert JoinLines(lines) + tail == tail;
    } else {
      var rest := JoinLines(lines[1..]) + tail;
      LineStaysReadable(fs, p, lines);
      LineOfHead(fs, p, lines, tail, rest);
      var (p', code) := ParseLine(fs, p, lines[0]);
      if code == NoRequest {
        ParseLines(fs, p', lines[1..], tail);
      }
    }
  }

  lemma LineOfHead(fs: FileSystem, p: Parser, lines: seq<string>, tail: string, rest: string)
    requires Readable(p, lines) && lines != [] && rest == JoinLines(lines[1..]) + tail
    requires Sane(ParseLine(fs, p, lines[0]).0)
    ensures var (p', code) := ParseLine(fs, p, lines[0]);
      Parse(fs, p, JoinLines(lines) + tail) == if code != NoRequest then Parsed(p', rest, code) else Parse(fs, p', rest)
  {
    var input := lines[0] + CRLF + rest;
    assert JoinLines(lines) + tail == input;
    FirstCrlfOfLine(lines[0], rest);
    assert input[..|lines[0]|] == lines[0] && input[|lines[0]| + 2..] == rest;
    var (p', code) := ParseLine(fs, p, lines[0]);
    ParseTakesLine(fs, p, input, |lines[0]|, p', code);
  }

  /** A body that has been announced is consumed exactly, whatever becomes of it. */
  lemma BodyConsumed(fs: FileSystem, p: Parser, body: string, rest: string)
    requires p.phase == Header && p.body == "" && DeclaredLength(p.header) == Some(|body|)
    ensures Parse(fs, p, CRLF + body + rest).rest == rest
  {
    if body == "" {
      assert CRLF + body + rest == "" + CRLF + rest;
      FirstCrlfOfLine("", rest);
      var input := CRLF + body + rest;
      assert input[..0] == "" && input[2..] == rest;
      ParseTakesLine(fs, p, input, 0, p.(phase := Finish), GetRequest);
    } else {
      ParseBlankLine(fs, p, body, rest);
      assert Stoul(p.header["Content-Length"]) == Some(|body|);
      assert (body + rest)[|body|..] == rest;
    }
  }

  lemma ParseBoundary(fs: FileSystem, post: map<string, string>, lines: seq<string>, body: string, rest: string)
    requires HeadOf(lines)
    requires var h := ReadLines(fs, Fresh(post), lines);
      h.code == NoRequest ==> DeclaredLength(h.p.header) == Some(|body|)
    ensures Parse(fs, Fresh(post), JoinLines(lines) + (CRLF + body + rest)).rest == rest
       <==> ReadLines(fs, Fresh(post), lines).code == NoRequest
  {
    var h := ReadLines(fs, Fresh(post), lines);
    ParseLines(fs, Fresh(post), lines, CRLF + body + rest);
    if h.code == NoRequest {
      BodyConsumed(fs, h.p, body, rest);
    } else {
      assert |JoinLines(h.left) + (CRLF + body + rest)| > |rest|;
    }
  }

  lemma RestOfMessage(fs: FileSystem, p: Parser, input: string)
    requires Sane(p)
    ensures ProcessMessage(fs, p, input).rest == Parse(fs, p, input).rest
  {
  }

  /**
   * A request is given as head lines of any kind and the body its accepted head announces.  The
   * message that decides it leaves the buffer at its end if and only if no line of its head is
   * refused.
   */
  lemma BoundaryExactly(fs: FileSystem, post: map<string, string>, lines: seq<string>, body: string, rest: string)
    requires HeadOf(lines)
    requires var h := ReadLines(fs, Fresh(post), lines);
      h.code == NoRequest ==> DeclaredLength(h.p.header) == Some(|body|)
    ensures ProcessMessage(fs, Fresh(post), JoinLines(lines) + (CRLF + body + rest)).rest == rest
       <==> ReadLines(fs, Fresh(post), lines).code == NoRequest
  {
    ParseBoundary(fs, post, lines, body, rest);
    RestOfMessage(fs, Fresh(post), JoinLines(lines) + (CRLF + body + rest));
  }

  /**
   * A refused line: the lines behind it stay unread, and when keep-alive was asked for in front
   * of it, they are the start of the next request.
   */
  lemma RefusedLeavesLines(fs: FileSystem, post: map<string, string>, lines: seq<string>, tail: string)
    requires HeadOf(lines) && ReadLines(fs, Fresh(post), lines).code != NoRequest
    ensures var h := ReadLines(fs, Fresh(post), lines); var o := ProcessMessage(fs, Fresh(post), JoinLines(lines) + tail);
      && o.rest == JoinLines(h.left) + tail
      && (o.Replies? <==> Mappable(fs, ErrorPage(StatusOf(h.code))))
      && (o.Replies? && KeepAlive(h.p) ==> o.p == Fresh(post))
  {
    var h := ReadLines(fs, Fresh(post), lines);
    ParseLines(fs, Fresh(post), lines, tail);
    NoLineGrants(fs, Fresh(post), lines);
    VerdictFramed(fs, h.p, h.code);
  }

  lemma {:induction false} NoLineGrants(fs: FileSystem, p: Parser, lines: seq<string>)
    requires Readable(p, lines)
    ensures ReadLines(fs, p, lines).code != GetRequest
    decreases |lines|
  {
    if lines != [] {
      LineStaysReadable(fs, p, lines);
      var (p', code) := ParseLine(fs, p, lines[0]);
      if code == NoRequest {
        NoLineGrants(fs, p', lines[1..]);
      }
    }
  }

  // ---- The lines behind a refused one ----

  /** A header line that the pattern refuses. */
  predicate RefusedLine(line: string)
  {
    line != "" && '\r' !in line && MatchHeader(line).None?
  }

  lemma ParseToRefused(fs: FileSystem, post: map<string, string>, a: Request, bad: string, tail: string)
    requires Good(fs, a) && RefusedLine(bad)
    ensures Parse(fs, Fresh(post), StartLine(a) + CRLF + (FieldText(a.fields) + (bad + CRLF + tail)))
         == Parsed(AfterHead(fs, post, a), tail, BadRequest)
  {
    var q := AfterHead(fs, post, a);
    var end := bad + CRLF + tail;
    RequestLineMatches(a.method_, a.target, a.version);
    ParsePrintedLine(fs, Fresh(post), StartLine(a), FieldText(a.fields) + end);
    ParseFields(fs, q.(header := map[]), a.fields, end);
    RefusedAtOnce(fs, q, bad, tail);
  }

  lemma RefusedAtOnce(fs: FileSystem, q: Parser, bad: string, tail: string)
    requires q.phase == Header && RefusedLine(bad)
    ensures Parse(fs, q, bad + CRLF + tail) == Parsed(q, tail, BadRequest)
  {
    var input := bad + CRLF + tail;
    FirstCrlfOfLine(bad, tail);
    assert input[..|bad|] == bad && input[|bad| + 2..] == tail;
    ParseTakesLine(fs, q, input, |bad|, q, BadRequest);
  }

  lemma RefusedKeepsAlive(fs: FileSystem, post: map<string, string>, a: Request, bad: string, tail: string)
    requires Good(fs, a) && AsksKeepAlive(a) && RefusedLine(bad) && Mappable(fs, ErrorPage(400))
    ensures var o := ProcessMessage(fs, Fresh(post), StartLine(a) + CRLF + (FieldText(a.fields) + (bad + CRLF + tail)));
      o.Replies? && o.p == Fresh(post) && o.rest == tail
  {
    var q := AfterHead(fs, post, a);
    ParseToRefused(fs, post, a, bad, tail);
    VerdictFramed(fs, q, BadRequest);
    assert KeepAlive(q);
  }

  /**
   * One request whose head has a refused line, with lines behind it that read like a request:
   * it gets the error page, and the next message gets an answer to the lines.
   */
  lemma LinesBehindAreARequest(fs: FileSystem, post: map<string, string>, a: Request, bad: string, b: Request,
                               later: seq<string>)
    requires Good(fs, a) && AsksKeepAlive(a) && RefusedLine(bad) && Mappable(fs, ErrorPage(400))
    requires Good(fs, b) && Mappable(fs, Normalise(b.target)) && later != []
    ensures var text := StartLine(a) + CRLF + (FieldText(a.fields) + (bad + CRLF + Serialise(b)));
      var replies := Session(fs, Fresh(post), "", [text] + later);
      |replies| >= 2 && replies[1] == ReplyTo(fs, b)
  {
    var text := StartLine(a) + CRLF + (FieldText(a.fields) + (bad + CRLF + Serialise(b)));
    RefusedKeepsAlive(fs, post, a, bad, Serialise(b));
    assert ([text] + later)[1..] == later && "" + text == text;
    SessionStep(fs, Fresh(post), "", [text] + later, text);
    SessionOfRequest(fs, post, b, Serialise(b), later, later[0]);
  }

  lemma NoColonIsRefused(line: string)
    requires line != "" && ':' !in line && '\r' !in line
    ensures RefusedLine(line)
  {
  }
}
