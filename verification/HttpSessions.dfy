/**
 * Sessions: the chunks of a connection, one processMessage for each.  A message is answered at
 * most once, however many requests it completes, so how many requests are answered depends on
 * how their bytes are split.
 */
module HttpSessions {
  import opened Common
  import opened HttpParser
  import opened HttpRequests
  import opened HttpResponses

  /** A response, and whether a request was read for it; a parser that has finished and was not reset reads none. */
  datatype Reply = Reply(text: string, read: bool)

  /** processMessage for each chunk that arrives; the server's death ends the session. */
  function Session(fs: FileSystem, p: Parser, buffered: string, chunks: seq<string>): seq<Reply>
    requires Sane(p)
    decreases |chunks|
  {
    if chunks == [] then []
    else
      ProcessKeepsSane(fs, p, buffered + chunks[0]);
      match ProcessMessage(fs, p, buffered + chunks[0])
      case Waits(q, rest) => Session(fs, q, rest, chunks[1..])
      case Replies(q, rest, text) => [Reply(text, p.phase != Finish)] + Session(fs, q, rest, chunks[1..])
      case Dies(_) => []
  }

  // ---- Framing ----

  /** A framed response that carries a whole page of the file system. */
  predicate WholePage(fs: FileSystem, text: string)
  {
    exists page :: page in fs && Framed(text, fs[page].content)
  }

  predicate AllWholePages(fs: FileSystem, replies: seq<Reply>)
  {
    forall k :: 0 <= k < |replies| ==> WholePage(fs, replies[k].text)
  }

  lemma ReplyIsWholePage(fs: FileSystem, p: Parser, input: string)
    requires Consistent(fs, p) && ProcessMessage(fs, p, input).Replies?
    ensures WholePage(fs, ProcessMessage(fs, p, input).text)
  {
    ResponseFramed(fs, p, input);
    var r := Parse(fs, p, input);
    assert Page(r.p, r.code) in fs;
  }

  lemma OneMorePage(fs: FileSystem, reply: Reply, later: seq<Reply>)
    requires WholePage(fs, reply.text) && AllWholePages(fs, later)
    ensures AllWholePages(fs, [reply] + later)
  {
  }

  /** Every response of every session is framed and carries a whole page. */
  lemma {:induction false} SessionFramed(fs: FileSystem, p: Parser, buffered: string, chunks: seq<string>)
    requires Consistent(fs, p)
    ensures AllWholePages(fs, Session(fs, p, buffered, chunks))
    decreases |chunks|
  {
    if chunks != [] {
      ResponseFramed(fs, p, buffered + chunks[0]);
      match ProcessMessage(fs, p, buffered + chunks[0]) {
        case Waits(q, rest) => SessionFramed(fs, q, rest, chunks[1..]);
        case Replies(q, rest, text) =>
          ReplyIsWholePage(fs, p, buffered + chunks[0]);
          SessionFramed(fs, q, rest, chunks[1..]);
          OneMorePage(fs, Reply(text, p.phase != Finish), Session(fs, q, rest, chunks[1..]));
        case Dies(_) =>
      }
    }
  }

  // ---- How many replies ----

  /** One message, at most one reply. */
  lemma {:induction false} AtMostOneReplyPerChunk(fs: FileSystem, p: Parser, buffered: string, chunks: seq<string>)
    requires Sane(p)
    ensures |Session(fs, p, buffered, chunks)| <= |chunks|
    decreases |chunks|
  {
    if chunks != [] {
      ProcessKeepsSane(fs, p, buffered + chunks[0]);
      match ProcessMessage(fs, p, buffered + chunks[0]) {
        case Waits(q, rest) => AtMostOneReplyPerChunk(fs, q, rest, chunks[1..]);
        case Replies(q, rest, _) => AtMostOneReplyPerChunk(fs, q, rest, chunks[1..]);
        case Dies(_) =>
      }
    }
  }

  /** A well-formed request for a resource that may be read. */
  predicate Good(fs: FileSystem, r: Request)
  {
    WellFormed(r) && Servable(fs, Normalise(r.target))
  }

  /** The parser when the request has been read. */
  function ReadRequest(fs: FileSystem, post: map<string, string>, r: Request): Parser
    requires Good(fs, r)
  {
    Parser(Finish, r.method_, Normalise(r.target), r.version, HeaderMap(map[], r.fields), r.body, post,
           StatOf(fs[Normalise(r.target)]))
  }

  /** The text that answers a parser which has granted its request. */
  function PageText(fs: FileSystem, p: Parser): string
    requires p.path in fs
  {
    JoinLines(HeadLines(p, 200)) + CRLF + fs[p.path].content
  }

  predicate AsksKeepAlive(r: Request)
  {
    var h := HeaderMap(map[], r.fields);
    "Connection" in h && h["Connection"] == "keep-alive" && r.version == "1.1"
  }

  function ReplyTo(fs: FileSystem, r: Request): Reply
    requires Good(fs, r)
  {
    Reply(PageText(fs, ReadRequest(fs, map[], r)), true)
  }

  /** A request that has been granted is answered with its page. */
  lemma GrantedAnswers(fs: FileSystem, p: Parser, input: string, q: Parser, rest: string)
    requires Sane(p) && Parse(fs, p, input) == Parsed(q, rest, GetRequest) && Described(fs, q)
    ensures ProcessMessage(fs, p, input) ==
      if Mappable(fs, q.path) then Replies(NextParser(q), rest, PageText(fs, q)) else Dies(rest)
  {
    DescribedIsMapped(fs, q);
  }

  lemma SamePage(fs: FileSystem, post: map<string, string>, r: Request)
    requires Good(fs, r)
    ensures PageText(fs, ReadRequest(fs, post, r)) == ReplyTo(fs, r).text
  {
    assert HeadLines(ReadRequest(fs, post, r), 200) == HeadLines(ReadRequest(fs, map[], r), 200);
  }

  /** The parser after a request has been answered. */
  function ParserAfter(fs: FileSystem, post: map<string, string>, r: Request): (p: Parser)
    requires Good(fs, r)
    ensures Sane(p)
  {
    if AsksKeepAlive(r) then Fresh(post) else ReadRequest(fs, post, r)
  }

  /** One printed request at the front of the buffer. */
  lemma RequestAnswered(fs: FileSystem, post: map<string, string>, r: Request, rest: string)
    requires Good(fs, r)
    ensures ProcessMessage(fs, Fresh(post), Serialise(r) + rest) ==
      if Mappable(fs, Normalise(r.target)) then Replies(ParserAfter(fs, post, r), rest, ReplyTo(fs, r).text)
      else Dies(rest)
  {
    RequestRoundTrip(fs, post, r, rest);
    GrantedAnswers(fs, Fresh(post), Serialise(r) + rest, ReadRequest(fs, post, r), rest);
    SamePage(fs, post, r);
  }

  lemma SessionStep(fs: FileSystem, p: Parser, buffered: string, chunks: seq<string>, input: string)
    requires Sane(p) && chunks != [] && buffered + chunks[0] == input
    ensures var o := ProcessMessage(fs, p, input);
      && (o.Dies? ==> Session(fs, p, buffered, chunks) == [])
      && (o.Replies? ==> Sane(o.p))
      && (o.Replies? ==>
            var later := Session(fs, o.p, o.rest, chunks[1..]);
            Session(fs, p, buffered, chunks) == [Reply(o.text, p.phase != Finish)] + later)
  {
    ProcessKeepsSane(fs, p, input);
  }

  /** The session that starts with a printed request in the buffer and the first chunk. */
  lemma SessionOfRequest(fs: FileSystem, post: map<string, string>, r: Request, buffered: string, chunks: seq<string>,
                         rest: string)
    requires Good(fs, r) && chunks != [] && buffered + chunks[0] == Serialise(r) + rest
    ensures !Mappable(fs, Normalise(r.target)) ==> Session(fs, Fresh(post), buffered, chunks) == []
    ensures Mappable(fs, Normalise(r.target)) ==>
      Session(fs, Fresh(post), buffered, chunks)
      == [ReplyTo(fs, r)] + Session(fs, ParserAfter(fs, post, r), rest, chunks[1..])
  {
    RequestAnswered(fs, post, r, rest);
    SessionStep(fs, Fresh(post), buffered, chunks, Serialise(r) + rest);
  }

  /** After a reply without keep-alive every further message gets the same page; no request is read. */
  lemma {:induction false} FinishedRepeats(fs: FileSystem, p: Parser, buffered: string, chunks: seq<string>)
    requires p.phase == Finish && !KeepAlive(p) && Described(fs, p) && Mappable(fs, p.path)
    ensures var replies := Session(fs, p, buffered, chunks);
      |replies| == |chunks| && forall k :: 0 <= k < |replies| ==> replies[k] == Reply(PageText(fs, p), false)
    decreases |chunks|
  {
    if chunks != [] {
      GrantedAnswers(fs, p, buffered + chunks[0], p, buffered + chunks[0]);
      SessionStep(fs, p, buffered, chunks, buffered + chunks[0]);
      FinishedRepeats(fs, p, buffered + chunks[0], chunks[1..]);
    }
  }

  /** A request has been read and answered after the first. */
  predicate SecondAnswered(replies: seq<Reply>)
  {
    exists k :: 1 <= k < |replies| && replies[k].read
  }

  /**
   * Two requests that arrive in one message: the second is answered exactly when the first asks
   * for keep-alive, both pages can be mapped, and a further message arrives, whatever is in it.
   */
  lemma SecondOfTwo(fs: FileSystem, post: map<string, string>, a: Request, b: Request, later: seq<string>)
    requires Good(fs, a) && Good(fs, b)
    ensures var replies := Session(fs, Fresh(post), "", [Serialise(a) + Serialise(b)] + later);
      && (SecondAnswered(replies) <==>
            && AsksKeepAlive(a) && Mappable(fs, Normalise(a.target))
            && Mappable(fs, Normalise(b.target)) && later != [])
      && (SecondAnswered(replies) ==> [ReplyTo(fs, a), ReplyTo(fs, b)] <= replies)
  {
    var chunks := [Serialise(a) + Serialise(b)] + later;
    assert chunks[1..] == later;
    SessionOfRequest(fs, post, a, "", chunks, Serialise(b));
    if Mappable(fs, Normalise(a.target)) {
      if AsksKeepAlive(a) {
        SecondInBuffer(fs, post, a, b, later);
      } else {
        FinishedRepeats(fs, ReadRequest(fs, post, a), Serialise(b), later);
      }
    }
  }

  lemma SecondInBuffer(fs: FileSystem, post: map<string, string>, a: Request, b: Request, later: seq<string>)
    requires Good(fs, a) && Good(fs, b)
    ensures var replies := [ReplyTo(fs, a)] + Session(fs, Fresh(post), Serialise(b), later);
      && (SecondAnswered(replies) <==> Mappable(fs, Normalise(b.target)) && later != [])
      && (SecondAnswered(replies) ==> [ReplyTo(fs, a), ReplyTo(fs, b)] <= replies)
  {
    if later != [] {
      SessionOfRequest(fs, post, b, Serialise(b), later, later[0]);
      var replies := [ReplyTo(fs, a)] + Session(fs, Fresh(post), Serialise(b), later);
      if Mappable(fs, Normalise(b.target)) {
        assert replies[1] == ReplyTo(fs, b);
      }
    }
  }

  lemma OnlyRequest(fs: FileSystem, post: map<string, string>, r: Request, rest: string)
    requires Good(fs, r) && Mappable(fs, Normalise(r.target))
    ensures Session(fs, Fresh(post), "", [Serialise(r) + rest]) == [ReplyTo(fs, r)]
  {
    var chunks := [Serialise(r) + rest];
    assert chunks[1..] == [];
    SessionOfRequest(fs, post, r, "", chunks, rest);
    assert Session(fs, ParserAfter(fs, post, r), rest, []) == [];
  }

  /** The same bytes in two messages, or in one: two replies, or one. */
  lemma RepliesDependOnChunking(fs: FileSystem, post: map<string, string>, a: Request, b: Request)
    requires Good(fs, a) && Good(fs, b) && AsksKeepAlive(a)
    requires Mappable(fs, Normalise(a.target)) && Mappable(fs, Normalise(b.target))
    ensures Session(fs, Fresh(post), "", [Serialise(a), Serialise(b)]) == [ReplyTo(fs, a), ReplyTo(fs, b)]
    ensures Session(fs, Fresh(post), "", [Serialise(a) + Serialise(b)]) == [ReplyTo(fs, a)]
  {
    var x, y := Serialise(a), Serialise(b);
    assert [x, y][1..] == [y] && y + "" == y;
    SessionOfRequest(fs, post, a, "", [x, y], "");
    OnlyRequest(fs, post, b, "");
    OnlyRequest(fs, post, a, y);
  }

  function Before(x: string, rest: string): string
  {
    x + rest
  }

  /** Bytes that, in front of anything, are answered by `a` and leave the parser as it was. */
  ghost predicate AnsweredBy(fs: FileSystem, p: Parser, x: string, a: Reply)
    requires Sane(p)
  {
    && a.read == (p.phase != Finish)
    && forall rest :: ProcessMessage(fs, p, Before(x, rest)) == Replies(p, rest, a.text)
  }

  ghost predicate AllAnsweredBy(fs: FileSystem, p: Parser, xs: seq<string>, answers: seq<Reply>)
    requires Sane(p)
  {
    |xs| == |answers| && forall k :: 0 <= k < |xs| ==> AnsweredBy(fs, p, xs[k], answers[k])
  }

  lemma FirstOfMany(fs: FileSystem, p: Parser, x: string, a: Reply, rest: string, buffered: string, chunks: seq<string>)
    requires Sane(p) && AnsweredBy(fs, p, x, a) && chunks != [] && buffered + chunks[0] == x + rest
    ensures Session(fs, p, buffered, chunks) == [a] + Session(fs, p, rest, chunks[1..])
  {
    SessionStep(fs, p, buffered, chunks, Before(x, rest));
  }

  lemma {:induction false} OneAnswerPerMessage(fs: FileSystem, p: Parser, xs: seq<string>, answers: seq<Reply>,
                                               tail: string, chunks: seq<string>)
    requires Sane(p) && |chunks| <= |xs| && AllAnsweredBy(fs, p, xs, answers)
    ensures Session(fs, p, Concat(xs) + tail, chunks) == answers[..|chunks|]
    decreases |chunks|
  {
    if chunks != [] {
      var rest := Concat(xs[1..]) + (tail + chunks[0]);
      FrontOfConcat(xs, tail, chunks[0]);
      FirstOfMany(fs, p, xs[0], answers[0], rest, Concat(xs) + tail, chunks);
      OneAnswerPerMessage(fs, p, xs[1..], answers[1..], tail + chunks[0], chunks[1..]);
      FrontOfAnswers(answers, |chunks|);
    }
  }

  lemma FrontOfConcat(xs: seq<string>, tail: string, chunk: string)
    requires xs != []
    ensures Concat(xs) + tail + chunk == xs[0] + (Concat(xs[1..]) + (tail + chunk))
  {
  }

  lemma FrontOfAnswers(answers: seq<Reply>, n: nat)
    requires 0 < n <= |answers|
    ensures answers[..n] == [answers[0]] + answers[1..][..n - 1]
  {
  }

  /** A request that asks for keep-alive and whose page can be mapped. */
  predicate Served(fs: FileSystem, r: Request)
  {
    Good(fs, r) && AsksKeepAlive(r) && Mappable(fs, Normalise(r.target))
  }

  lemma ServedIsAnswered(fs: FileSystem, post: map<string, string>, r: Request)
    requires Served(fs, r)
    ensures AnsweredBy(fs, Fresh(post), Serialise(r), ReplyTo(fs, r))
  {
    forall rest
      ensures ProcessMessage(fs, Fresh(post), Before(Serialise(r), rest)) == Replies(Fresh(post), rest, ReplyTo(fs, r).text)
    {
      RequestAnswered(fs, post, r, rest);
    }
  }

  function Printed(rs: seq<Request>): seq<string>
  {
    seq(|rs|, k requires 0 <= k < |rs| => Serialise(rs[k]))
  }

  function Answers(fs: FileSystem, rs: seq<Request>): seq<Reply>
    requires forall k :: 0 <= k < |rs| ==> Served(fs, rs[k])
  {
    seq(|rs|, k requires 0 <= k < |rs| && Served(fs, rs[k]) => ReplyTo(fs, rs[k]))
  }

  lemma ServedAreAnswered(fs: FileSystem, post: map<string, string>, rs: seq<Request>)
    requires forall k :: 0 <= k < |rs| ==> Served(fs, rs[k])
    ensures AllAnsweredBy(fs, Fresh(post), Printed(rs), Answers(fs, rs))
  {
    forall k | 0 <= k < |rs|
      ensures AnsweredBy(fs, Fresh(post), Printed(rs)[k], Answers(fs, rs)[k])
    {
      ServedIsAnswered(fs, post, rs[k]);
    }
  }

  /**
   * Any number of requests waiting in the buffer: each message that arrives, whatever is in it,
   * answers the next one, so the replies lag behind by the requests that came together.
   */
  lemma OneReplyPerMessage(fs: FileSystem, post: map<string, string>, rs: seq<Request>, tail: string, chunks: seq<string>)
    requires |chunks| <= |rs| && forall k :: 0 <= k < |rs| ==> Served(fs, rs[k])
    ensures Session(fs, Fresh(post), Concat(Printed(rs)) + tail, chunks) == Answers(fs, rs)[..|chunks|]
  {
    ServedAreAnswered(fs, post, rs);
    OneAnswerPerMessage(fs, Fresh(post), Printed(rs), Answers(fs, rs), tail, chunks);
  }

  // ---- Any chunking of a stream of requests ----

  /** A message whose bytes come in two parts. */
  lemma ProcessResumes(fs: FileSystem, p: Parser, a: string, b: string)
    requires Sane(p)
    ensures var o := ProcessMessage(fs, p, a);
      && (o.Waits? ==> Sane(o.p) && o.p.phase != Finish)
      && (o.Waits? ==> ProcessMessage(fs, p, a + b) == ProcessMessage(fs, o.p, o.rest + b))
      && (!o.Waits? ==> ProcessMessage(fs, p, a + b).rest == o.rest + b)
  {
    Resume(fs, p, a, b);
    WaitsOnlyWhenItMust(fs, p, a);
  }

  /** A front of bytes that are answered only when they are whole. */
  lemma FrontWaits(fs: FileSystem, p: Parser, x: string, a: Reply, front: string, y: string)
    requires Sane(p) && AnsweredBy(fs, p, x, a) && x == front + y && y != ""
    ensures ProcessMessage(fs, p, front).Waits?
  {
    ProcessResumes(fs, p, front, y);
    assert Before(x, "") == front + y;
    assert ProcessMessage(fs, p, Before(x, "")) == Replies(p, "", a.text);
  }

  /** Parser `q` with `buffered` unread goes on like `p` with `rem` unread. */
  ghost predicate Alike(fs: FileSystem, p: Parser, rem: string, q: Parser, buffered: string)
    requires Sane(p) && Sane(q)
  {
    forall x :: ProcessMessage(fs, q, Before(buffered, x)) == ProcessMessage(fs, p, Before(rem, x))
  }

  lemma WaitingIsAlike(fs: FileSystem, p: Parser, rem: string)
    requires Sane(p) && ProcessMessage(fs, p, rem).Waits?
    ensures var o := ProcessMessage(fs, p, rem);
      Sane(o.p) && o.p.phase != Finish && Alike(fs, p, rem, o.p, o.rest)
  {
    var o := ProcessMessage(fs, p, rem);
    ProcessResumes(fs, p, rem, "");
    forall x
      ensures ProcessMessage(fs, o.p, Before(o.rest, x)) == ProcessMessage(fs, p, Before(rem, x))
    {
      ProcessResumes(fs, p, rem, x);
    }
  }

  /**
   * How many of the requests `xs` are answered, when `have` bytes of them have arrived unanswered:
   * each message answers one more if the next is whole by then.
   */
  function Count(xs: seq<string>, have: nat, chunks: seq<string>): (n: nat)
    ensures n <= |xs| && n <= |chunks|
    decreases |chunks|
  {
    if chunks == [] then 0
    else if xs != [] && |xs[0]| <= have + |chunks[0]| then
      1 + Count(xs[1..], have + |chunks[0]| - |xs[0]|, chunks[1..])
    else Count(xs, have + |chunks[0]|, chunks[1..])
  }

  /** How many of the requests are whole within the first bytes. */
  function WholeIn(xs: seq<string>, bytes: nat): nat
  {
    if xs == [] || bytes < |xs[0]| then 0 else 1 + WholeIn(xs[1..], bytes - |xs[0]|)
  }

  function Min(a: nat, b: nat): nat
  {
    if a < b then a else b
  }

  /** One message more: the smaller of one more reply than before and the requests received whole. */
  lemma {:induction false} CountOneMore(xs: seq<string>, have: nat, chunks: seq<string>, c: string)
    ensures Count(xs, have, chunks + [c])
         == Min(Count(xs, have, chunks) + 1, WholeIn(xs, have + |Concat(chunks)| + |c|))
    decreases |chunks|
  {
    var more := chunks + [c];
    if chunks == [] {
      assert more[0] == c && more[1..] == [];
    } else {
      assert more[0] == chunks[0] && more[1..] == chunks[1..] + [c];
      assert |Concat(chunks)| == |chunks[0]| + |Concat(chunks[1..])|;
      if xs != [] && |xs[0]| <= have + |chunks[0]| {
        CountOneMore(xs[1..], have + |chunks[0]| - |xs[0]|, chunks[1..], c);
      } else {
        CountOneMore(xs, have + |chunks[0]|, chunks[1..], c);
      }
    }
  }

  lemma CountLast(xs: seq<string>, chunks: seq<string>)
    requires chunks != []
    ensures Count(xs, 0, chunks) == Min(Count(xs, 0, chunks[..|chunks| - 1]) + 1, WholeIn(xs, |Concat(chunks)|))
  {
    var n := |chunks| - 1;
    CountOneMore(xs, 0, chunks[..n], chunks[n]);
    assert chunks == chunks[..n] + [chunks[n]];
    ConcatOne(chunks[..n], chunks[n]);
  }

  /** What has arrived and is unanswered, with the next chunk: the next request and more, or a front of it. */
  lemma NextPiece(xs: seq<string>, rem: string, chunk: string, later: string) returns (rest: string)
    requires rem + (chunk + later) <= Concat(xs) && xs != []
    ensures |xs[0]| <= |rem + chunk| ==> rem + chunk == xs[0] + rest && rest + later <= Concat(xs[1..])
    ensures |rem + chunk| < |xs[0]| ==> xs[0] == rem + chunk + rest && rest != ""
  {
    var got := rem + chunk;
    assert rem + (chunk + later) == got + later;
    if |xs[0]| <= |got| {
      rest := got[|xs[0]|..];
      assert got[..|xs[0]|] == Concat(xs)[..|xs[0]|] == xs[0];
      assert got == got[..|xs[0]|] + rest;
      assert Concat(xs)[|xs[0]|..] == Concat(xs[1..]);
      assert rest + later == (got + later)[|xs[0]|..];
    } else {
      rest := xs[0][|got|..];
      assert xs[0][..|got|] == Concat(xs)[..|got|] == got;
      assert xs[0] == xs[0][..|got|] + rest;
    }
  }

  /** The next chunk does not complete a request. */
  lemma ChunkWaits(fs: FileSystem, p: Parser, xs: seq<string>, answers: seq<Reply>, rem: string, chunk: string, later: string)
    requires Expecting(fs, p) && AllAnsweredBy(fs, p, xs, answers)
    requires rem + (chunk + later) <= Concat(xs) && (xs == [] || |rem + chunk| < |xs[0]|)
    ensures ProcessMessage(fs, p, rem + chunk).Waits?
  {
    if xs == [] {
      assert rem + chunk == "";
    } else {
      var rest := NextPiece(xs, rem, chunk, later);
      FrontWaits(fs, p, xs[0], answers[0], rem + chunk, rest);
    }
  }

  lemma ConcatFirst(chunks: seq<string>)
    requires chunks != []
    ensures Concat(chunks) == chunks[0] + Concat(chunks[1..])
  {
  }

  lemma SessionWaits(fs: FileSystem, q: Parser, buffered: string, chunks: seq<string>, o: Processed)
    requires Sane(q) && chunks != [] && ProcessMessage(fs, q, buffered + chunks[0]) == o && o.Waits? && Sane(o.p)
    ensures Session(fs, q, buffered, chunks) == Session(fs, o.p, o.rest, chunks[1..])
  {
  }

  /** The stream from here on: what is unanswered, then the chunks, is a front of the requests. */
  predicate Streams(rem: string, chunks: seq<string>, xs: seq<string>)
  {
    rem + Concat(chunks) <= Concat(xs)
  }

  lemma StreamPiece(xs: seq<string>, rem: string, chunks: seq<string>) returns (rest: string)
    requires Streams(rem, chunks, xs) && chunks != [] && xs != [] && |xs[0]| <= |rem| + |chunks[0]|
    ensures rem + chunks[0] == xs[0] + rest && Streams(rest, chunks[1..], xs[1..])
    ensures Count(xs, |rem|, chunks) == 1 + Count(xs[1..], |rest|, chunks[1..])
  {
    ConcatFirst(chunks);
    rest := NextPiece(xs, rem, chunks[0], Concat(chunks[1..]));
    assert |rest| == |rem| + |chunks[0]| - |xs[0]|;
  }

  lemma StreamGrows(xs: seq<string>, rem: string, chunks: seq<string>)
    requires Streams(rem, chunks, xs) && chunks != []
    ensures Streams(rem + chunks[0], chunks[1..], xs)
    ensures xs == [] || |rem| + |chunks[0]| < |xs[0]| ==>
      Count(xs, |rem|, chunks) == Count(xs, |rem + chunks[0]|, chunks[1..])
  {
    ConcatFirst(chunks);
    Associate(rem, chunks[0], Concat(chunks[1..]));
  }

  /** A parser that waits for more requests. */
  predicate Expecting(fs: FileSystem, p: Parser)
  {
    Sane(p) && p.phase != Finish && ProcessMessage(fs, p, "").Waits?
  }

  lemma {:induction false} Lag(fs: FileSystem, p: Parser, q: Parser, buffered: string, rem: string,
                               xs: seq<string>, answers: seq<Reply>, chunks: seq<string>)
    requires Expecting(fs, p) && Sane(q) && q.phase != Finish
    requires AllAnsweredBy(fs, p, xs, answers) && Streams(rem, chunks, xs) && Alike(fs, p, rem, q, buffered)
    ensures Session(fs, q, buffered, chunks) == answers[..Count(xs, |rem|, chunks)]
    decreases |chunks|
  {
    if chunks != [] {
      AlikeNow(fs, p, rem, q, buffered, chunks[0]);
      if xs != [] && |xs[0]| <= |rem| + |chunks[0]| {
        var rest := StreamPiece(xs, rem, chunks);
        LagReplies(fs, p, q, buffered, rem, xs[0], answers[0], rest, chunks);
        Lag(fs, p, p, rest, rest, xs[1..], answers[1..], chunks[1..]);
        FrontOfAnswers(answers, Count(xs, |rem|, chunks));
      } else {
        var q', unread := LagWaits(fs, p, q, buffered, rem, xs, answers, chunks);
        StreamGrows(xs, rem, chunks);
        Lag(fs, p, q', unread, rem + chunks[0], xs, answers, chunks[1..]);
      }
    }
  }

  lemma AlikeNow(fs: FileSystem, p: Parser, rem: string, q: Parser, buffered: string, chunk: string)
    requires Sane(p) && Sane(q) && Alike(fs, p, rem, q, buffered)
    ensures ProcessMessage(fs, q, buffered + chunk) == ProcessMessage(fs, p, rem + chunk)
  {
    assert ProcessMessage(fs, q, Before(buffered, chunk)) == ProcessMessage(fs, p, Before(rem, chunk));
  }

  lemma Associate(a: string, b: string, c: string)
    ensures a + b + c == a + (b + c)
  {
  }

  lemma LagWaits(fs: FileSystem, p: Parser, q: Parser, buffered: string, rem: string,
                 xs: seq<string>, answers: seq<Reply>, chunks: seq<string>) returns (q': Parser, unread: string)
    requires Expecting(fs, p) && Sane(q) && chunks != []
    requires AllAnsweredBy(fs, p, xs, answers) && Streams(rem, chunks, xs)
    requires xs == [] || |rem + chunks[0]| < |xs[0]|
    requires ProcessMessage(fs, q, buffered + chunks[0]) == ProcessMessage(fs, p, rem + chunks[0])
    ensures Sane(q') && q'.phase != Finish && Alike(fs, p, rem + chunks[0], q', unread)
    ensures Session(fs, q, buffered, chunks) == Session(fs, q', unread, chunks[1..])
  {
    ConcatFirst(chunks);
    ChunkWaits(fs, p, xs, answers, rem, chunks[0], Concat(chunks[1..]));
    WaitingIsAlike(fs, p, rem + chunks[0]);
    var o := ProcessMessage(fs, p, rem + chunks[0]);
    SessionWaits(fs, q, buffered, chunks, o);
    q', unread := o.p, o.rest;
  }

  lemma LagReplies(fs: FileSystem, p: Parser, q: Parser, buffered: string, rem: string, x: string, a: Reply, rest: string,
                   chunks: seq<string>)
    requires Sane(p) && Sane(q) && p.phase != Finish && q.phase != Finish && chunks != []
    requires AnsweredBy(fs, p, x, a) && rem + chunks[0] == x + rest
    requires ProcessMessage(fs, q, buffered + chunks[0]) == ProcessMessage(fs, p, rem + chunks[0])
    ensures Session(fs, q, buffered, chunks) == [a] + Session(fs, p, rest, chunks[1..])
  {
    assert ProcessMessage(fs, p, Before(x, rest)) == Replies(p, rest, a.text);
    SessionStep(fs, q, buffered, chunks, buffered + chunks[0]);
  }

  lemma LagFromStart(fs: FileSystem, p: Parser, xs: seq<string>, answers: seq<Reply>, chunks: seq<string>)
    requires Expecting(fs, p) && AllAnsweredBy(fs, p, xs, answers) && Concat(chunks) <= Concat(xs)
    ensures Session(fs, p, "", chunks) == answers[..Count(xs, 0, chunks)]
  {
    assert "" + Concat(chunks) == Concat(chunks);
    Lag(fs, p, p, "", "", xs, answers, chunks);
  }

  lemma EmptyMessageWaits(fs: FileSystem, post: map<string, string>)
    ensures ProcessMessage(fs, Fresh(post), "").Waits?
  {
    NothingToParse(fs, Fresh(post));
  }

  /**
   * A stream of requests that ask for keep-alive, split into chunks in any way and at any byte:
   * the replies are those to the first requests in order, and each message makes them the
   * smaller of one more than before and the requests received whole.
   */
  lemma RepliesLag(fs: FileSystem, post: map<string, string>, rs: seq<Request>, chunks: seq<string>)
    requires forall k :: 0 <= k < |rs| ==> Served(fs, rs[k])
    requires Concat(chunks) <= Concat(Printed(rs))
    ensures Session(fs, Fresh(post), "", chunks) == Answers(fs, rs)[..Count(Printed(rs), 0, chunks)]
  {
    ServedAreAnswered(fs, post, rs);
    EmptyMessageWaits(fs, post);
    LagFromStart(fs, Fresh(post), Printed(rs), Answers(fs, rs), chunks);
  }

  // ---- Inputs ----

  const KEEP_ALIVE := Field("Connection", 1, "keep-alive")
  const HOME := Request("GET", "/", "1.1", [KEEP_ALIVE], "")

  lemma OneFieldHeader(f: Field)
    ensures HeaderMap(map[], [f]) == map[f.name := f.value]
  {
    assert HeaderMap(map[], [f]) == HeaderMap(map[f.name := f.value], []);
  }

  lemma HomeFields()
    ensures forall f :: f in [KEEP_ALIVE] ==> WellFormedField(f)
    ensures HeaderMap(map[], [KEEP_ALIVE]) == map["Connection" := "keep-alive"]
  {
    OneFieldHeader(KEEP_ALIVE);
    assert WellFormedField(KEEP_ALIVE);
  }

  lemma HomeIsGood(fs: FileSystem)
    requires Servable(fs, "/index.html")
    ensures Good(fs, HOME) && AsksKeepAlive(HOME)
  {
    HomeFields();
    assert Word("GET") && Word("/") && Word("1.1");
  }

  /** The home page asked for twice in one message is sent once; asked for in two messages, twice. */
  lemma PipelinedRequestIsNotAnswered(fs: FileSystem)
    requires Servable(fs, "/index.html") && Mappable(fs, "/index.html")
    ensures |Session(fs, Fresh(map[]), "", [Serialise(HOME) + Serialise(HOME)])| == 1
    ensures |Session(fs, Fresh(map[]), "", [Serialise(HOME), Serialise(HOME)])| == 2
  {
    HomeIsGood(fs);
    RepliesDependOnChunking(fs, map[], HOME, HOME);
  }

  /** A request for an empty page kills the server. */
  lemma EmptyPageKillsServer(fs: FileSystem)
    requires Servable(fs, "/index.html") && fs["/index.html"].content == ""
    ensures ProcessMessage(fs, Fresh(map[]), Serialise(HOME)).Dies?
  {
    HomeIsGood(fs);
    RequestAnswered(fs, map[], HOME, "");
    assert Serialise(HOME) + "" == Serialise(HOME);
  }

  const BAD_LENGTH := Request("GET", "/", "1.1", [Field("Content-Length", 1, "x")], "")

  lemma XIsNoNumber()
    ensures Stoi("x") == None
  {
    assert SkipWhite("x") == "x" && DigitPrefix("x") == "";
  }

  lemma BadLengthFields()
    ensures WellFormedField(Field("Content-Length", 1, "x"))
    ensures BadLength(HeaderMap(map[], BAD_LENGTH.fields))
  {
    OneFieldHeader(Field("Content-Length", 1, "x"));
    XIsNoNumber();
  }

  /** So does a Content-Length that is no number, whatever the page. */
  lemma BadLengthKillsServer(fs: FileSystem)
    requires Servable(fs, "/index.html")
    ensures ProcessMessage(fs, Fresh(map[]), Serialise(BAD_LENGTH)).Dies?
  {
    BadLengthFields();
    assert Word("GET") && Word("/") && Word("1.1");
    RequestThrows(fs, map[], BAD_LENGTH, "");
    assert Serialise(BAD_LENGTH) + "" == Serialise(BAD_LENGTH);
  }
}
