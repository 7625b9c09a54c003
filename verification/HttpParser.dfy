/**
 * The request parser of an HTTP connection as a function of its state and of the unread
 * bytes: one line or body at a time, resumable at any byte.
 */
module HttpParser {
  import opened Common
  import opened NetBuffer
  import LogStream

  datatype Phase = RequestLine | Header | Body | Finish

  /** `Threw` stands for an exception of stoi or stoul leaving the parser. */
  datatype Code = NoRequest | GetRequest | BadRequest | Forbidden | NoResource | Threw

  /** A file below the source directory; `openable` is what open(2) says to the server process. */
  datatype Resource = Resource(isDir: bool, othersRead: bool, openable: bool, content: string)

  type FileSystem = map<string, Resource>

  datatype Stat = Stat(isDir: bool, othersRead: bool, size: nat)

  const NO_STAT := Stat(false, false, 0)

  function StatOf(r: Resource): Stat
  {
    Stat(r.isDir, r.othersRead, |r.content|)
  }

  datatype Parser = Parser(
    phase: Phase,
    method_: string,
    path: string,
    version: string,
    header: map<string, string>,
    body: string,
    post: map<string, string>,
    stat: Stat
  )

  /** A parser after construction or resetState, which keeps the form values of earlier requests. */
  function Fresh(post: map<string, string>): Parser
  {
    Parser(RequestLine, "", "", "", map[], "", post, NO_STAT)
  }

  // ---- Library functions ----

  /** The text before and after the first `c`. */
  function SplitAt(s: string, c: char): (r: Option<(string, string)>)
    ensures r.Some? ==> s == r.value.0 + [c] + r.value.1 && c !in r.value.0
    ensures r.None? ==> c !in s
  {
    if s == "" then None
    else if s[0] == c then Some(("", s[1..]))
    else
      match SplitAt(s[1..], c)
      case None => None
      case Some((a, b)) => Some(([s[0]] + a, b))
  }

  predicate Contains(s: string, sub: string)
  {
    sub <= s || (s != "" && Contains(s[1..], sub))
  }

  function DropSpaces(s: string): (r: string)
    ensures r == "" || r[0] != ' '
  {
    if s != "" && s[0] == ' ' then DropSpaces(s[1..]) else s
  }

  predicate IsSpace(c: char)
  {
    c == ' ' || c == '\t' || c == '\n' || c == '\r' || c as int == 11 || c as int == 12
  }

  function SkipWhite(s: string): string
  {
    if s != "" && IsSpace(s[0]) then SkipWhite(s[1..]) else s
  }

  /** The longest prefix of digits. */
  function DigitPrefix(s: string): (r: string)
    ensures LogStream.AllDigits(r)
  {
    if s != "" && LogStream.IsDigit(s[0]) then [s[0]] + DigitPrefix(s[1..]) else ""
  }

  /** strtol in base ten without its range: white space, a sign, digits. */
  function Scan(s: string): Option<int>
  {
    var t := SkipWhite(s);
    var negative := t != "" && t[0] == '-';
    var u := if t != "" && (t[0] == '-' || t[0] == '+') then t[1..] else t;
    var d := DigitPrefix(u);
    if d == "" then None else Some(if negative then 0 - LogStream.Value(d) else LogStream.Value(d))
  }

  const SIZE_T: int := 0x1_0000_0000_0000_0000

  function Stoi(s: string): Option<int>
  {
    match Scan(s)
    case Some(v) => if -0x8000_0000 <= v < 0x8000_0000 then Some(v) else None
    case None => None
  }

  /** A negative number wraps around, as strtoul has it. */
  function Stoul(s: string): (r: Option<nat>)
    ensures r.Some? ==> r.value < SIZE_T
  {
    match Scan(s)
    case Some(v) => if -SIZE_T < v < SIZE_T then Some(v % SIZE_T) else None
    case None => None
  }

  // ---- The two patterns ----

  /** ^([^ ]+) ([^ ]+) HTTP/([^ ]+)$ */
  function MatchRequestLine(line: string): Option<(string, string, string)>
  {
    match SplitAt(line, ' ')
    case None => None
    case Some((m, rest)) =>
      match SplitAt(rest, ' ')
      case None => None
      case Some((target, tail)) =>
        if m != "" && target != "" && "HTTP/" < tail && ' ' !in tail then Some((m, target, tail[5..])) else None
  }

  /** ^([^:]+): *(.+)$ where the dot matches neither CR nor LF */
  function MatchHeader(line: string): Option<(string, string)>
  {
    match SplitAt(line, ':')
    case None => None
    case Some((name, v)) =>
      var stripped := DropSpaces(v);
      var value := if stripped == "" && v != "" then " " else stripped;
      if name == "" || value == "" || '\r' in value || '\n' in value then None else Some((name, value))
  }

  // ---- One line ----

  function Normalise(target: string): string
  {
    if target == "/" then "/index.html"
    else if '.' !in target then target + ".html"
    else target
  }

  /**
   * A path always has a suffix, extends the target, and is left alone by normalising again: the
   * root becomes the index page, and a target without a dot gets the suffix of a page.
   */
  lemma NormalisedPath(target: string)
    ensures var path := Normalise(target);
      && target <= path && '.' in path && Normalise(path) == path && ('.' in target ==> path == target)
      && ('.' !in target ==> path[|target|..] == if target == "/" then "index.html" else ".html")
  {
    var path := Normalise(target);
    if target == "/" {
      assert path[6] == '.' && path[1..] == "index.html";
    } else if '.' !in target {
      assert path[|target|] == '.';
    }
  }

  function ParseRequestLine(fs: FileSystem, p: Parser, line: string): (Parser, Code)
  {
    match MatchRequestLine(line)
    case None => (p, BadRequest)
    case Some((m, target, v)) =>
      var path := Normalise(target);
      var p1 := p.(method_ := m, path := path, version := v, phase := Header);
      if path !in fs then (p1, NoResource)
      else
        var p2 := p1.(stat := StatOf(fs[path]));
        if fs[path].isDir then (p2, NoResource)
        else if !fs[path].othersRead then (p2, Forbidden)
        else (p2, NoRequest)
  }

  function ParseRequestHeader(p: Parser, line: string): (Parser, Code)
  {
    if line == "" then
      if "Content-Length" !in p.header then (p.(phase := Finish), GetRequest)
      else
        match Stoi(p.header["Content-Length"])
        case None => (p, Threw)
        case Some(n) => if n == 0 then (p.(phase := Finish), GetRequest) else (p.(phase := Body), NoRequest)
    else
      match MatchHeader(line)
      case None => (p, BadRequest)
      case Some((k, v)) => (p.(header := p.header[k := v]), NoRequest)
  }

  // ---- Form bodies ----

  function HexValue(c: char): Option<nat>
  {
    if '0' <= c <= '9' then Some(c as int - '0' as int)
    else if 'a' <= c <= 'f' then Some(c as int - 'a' as int + 10)
    else if 'A' <= c <= 'F' then Some(c as int - 'A' as int + 10)
    else None
  }

  /** strtol in base sixteen of a string of two characters. */
  function StrtolHex(a: char, b: char): int
  {
    match (HexValue(a), HexValue(b))
    case (Some(x), Some(y)) => 16 * x + y
    case (Some(x), None) => x
    case (None, Some(y)) =>
      var v: int := y;
      if a == '-' then -v else if a == '+' || IsSpace(a) then v else 0
    case (None, None) => 0
  }

  /** The scanner of the form decoder: the pair being read and the pairs stored so far. */
  datatype Form = Form(key: string, value: string, inValue: bool, post: map<string, string>)

  function AddText(f: Form, text: string): Form
  {
    if f.inValue then f.(value := f.value + text) else f.(key := f.key + text)
  }

  /** The pairs stored, and whether the body was well formed; earlier pairs are kept on an error. */
  function DecodeForm(body: string, i: nat, f: Form): (map<string, string>, bool)
    requires i <= |body|
    decreases |body| - i
  {
    if i == |body| then
      if f.key == "" || f.value == "" then (f.post, false) else (f.post[f.key := f.value], true)
    else if body[i] == '=' then DecodeForm(body, i + 1, f.(inValue := true))
    else if body[i] == '&' then
      if f.key == "" || f.value == "" then (f.post, false)
      else DecodeForm(body, i + 1, Form("", "", false, f.post[f.key := f.value]))
    else if body[i] == '+' then DecodeForm(body, i + 1, AddText(f, " "))
    else if body[i] == '%' then
      if i + 2 >= |body| then (f.post, false)
      else DecodeForm(body, i + 3, AddText(f, LogStream.Decimal(StrtolHex(body[i + 1], body[i + 2]))))
    else DecodeForm(body, i + 1, AddText(f, [body[i]]))
  }

  function ParsePost(p: Parser): (r: (Parser, Code))
    ensures r.0 == p.(post := r.0.post)
  {
    if p.body == "" then (p, NoRequest)
    else if "Content-Type" !in p.header then (p, BadRequest)
    else if p.header["Content-Type"] == "application/x-www-form-urlencoded" then
      var (post, ok) := DecodeForm(p.body, 0, Form("", "", false, p.post));
      (p.(post := post), if ok then NoRequest else BadRequest)
    else (p, NoRequest)
  }

  /** std::map's operator[]: a missing key is inserted with an empty value. */
  function Touch(m: map<string, string>, k: string): map<string, string>
  {
    if k in m then m else m[k := ""]
  }

  function UserVerify(fs: FileSystem, p: Parser): (r: (Parser, Code))
    ensures r.0 == p.(post := r.0.post, path := r.0.path, stat := r.0.stat)
    ensures r.1 == NoRequest ==> r.0.path in fs && r.0.stat == StatOf(fs[r.0.path])
  {
    var p1 :=
      if Contains(p.path, "register.html") then p.(path := "/welcome.html")
      else if Contains(p.path, "login.html") then
        var post1 := Touch(p.post, "username");
        if post1["username"] != "admin" then p.(post := post1, path := "/error.html")
        else
          var post2 := Touch(post1, "password");
          p.(post := post2, path := if post2["password"] == "123456" then "/welcome.html" else "/error.html")
      else p.(path := "/error.html");
    if p1.path !in fs then (p1, NoResource) else (p1.(stat := StatOf(fs[p1.path])), NoRequest)
  }

  function ParseRequestBody(fs: FileSystem, p: Parser, line: string): (Parser, Code)
    requires "Content-Length" in p.header
  {
    var p1 := p.(body := p.body + line);
    match Stoul(p.header["Content-Length"])
    case None => (p1, Threw)
    case Some(n) =>
      if |p1.body| < n then (p1, NoRequest)
      else if |p1.body| > n then (p1, BadRequest)
      else if p1.method_ != "POST" then (p1.(phase := Finish), GetRequest)
      else
        var (p2, code2) := ParsePost(p1);
        if code2 != NoRequest then (p2, code2)
        else
          var (p3, code3) := UserVerify(fs, p2);
          if code3 != NoRequest then (p3, code3) else (p3.(phase := Finish), GetRequest)
  }

  // ---- The loop ----

  datatype Parsed = Parsed(p: Parser, rest: string, code: Code)

  /** size_t arithmetic. */
  function Remaining(n: nat, have: nat): (r: nat)
    ensures have <= n < SIZE_T ==> r == n - have
  {
    (n - have) % SIZE_T
  }

  /** The body phase: nothing is consumed until all of the body has arrived. */
  function ParseBody(fs: FileSystem, p: Parser, input: string): (r: Parsed)
    requires "Content-Length" in p.header
  {
    match Stoul(p.header["Content-Length"])
    case None => Parsed(p, input, Threw)
    case Some(n) =>
      var remain := Remaining(n, |p.body|);
      if |input| < remain then Parsed(p, input, NoRequest)
      else
        var (p', code) := ParseRequestBody(fs, p, input[..remain]);
        Parsed(p', input[remain..], code)
  }

  /** A complete body always decides the request, so the loop never goes round in the body phase. */
  lemma BodyDecides(fs: FileSystem, p: Parser, input: string)
    requires "Content-Length" in p.header
    ensures var r := ParseBody(fs, p, input); r.code == NoRequest ==> r == Parsed(p, input, NoRequest)
    ensures var s := Stoul(p.header["Content-Length"]);
      ParseBody(fs, p, input).code == NoRequest ==> s.Some? && |input| < Remaining(s.value, |p.body|)
  {
    match Stoul(p.header["Content-Length"]) {
      case None =>
      case Some(n) =>
        var remain := Remaining(n, |p.body|);
        if remain <= |input| {
          assert |p.body + input[..remain]| == |p.body| + remain;
          assert n <= |p.body| + remain;
        }
    }
  }

  function ParseLine(fs: FileSystem, p: Parser, line: string): (Parser, Code)
  {
    if p.phase == RequestLine then ParseRequestLine(fs, p, line) else ParseRequestHeader(p, line)
  }

  /** In the body phase the header has a Content-Length with an int value other than zero. */
  predicate Sane(p: Parser)
  {
    && (p.phase == Body ==>
          && "Content-Length" in p.header && Stoi(p.header["Content-Length"]).Some?
          && Stoi(p.header["Content-Length"]).value != 0
          && Stoul(p.header["Content-Length"]).Some?
          && (p.body == "" || |p.body| == Stoul(p.header["Content-Length"]).value))
    && (p.phase == RequestLine || p.phase == Header ==> p.body == "")
  }

  /** parseRequest. */
  function Parse(fs: FileSystem, p: Parser, input: string): (r: Parsed)
    requires p.phase == Body ==> "Content-Length" in p.header
    decreases |input|
  {
    match p.phase
    case Finish => Parsed(p, input, GetRequest)
    case Body => ParseBody(fs, p, input)
    case _ =>
      match FirstCrlf(input)
      case None => Parsed(p, input, NoRequest)
      case Some(i) =>
        var (p', code) := ParseLine(fs, p, input[..i]);
        if code != NoRequest then Parsed(p', input[i + 2..], code)
        else Parse(fs, p', input[i + 2..])
  }

  /** One turn of the loop on a complete line. */
  lemma ParseTakesLine(fs: FileSystem, p: Parser, input: string, i: nat, p': Parser, code: Code)
    requires (p.phase == RequestLine || p.phase == Header) && FirstCrlf(input) == Some(i)
    requires ParseLine(fs, p, input[..i]) == (p', code) && (p'.phase == Body ==> "Content-Length" in p'.header)
    ensures Parse(fs, p, input) ==
      if code != NoRequest then Parsed(p', input[i + 2..], code) else Parse(fs, p', input[i + 2..])
  {
  }

  lemma LineKeepsSane(fs: FileSystem, p: Parser, line: string)
    requires Sane(p) && (p.phase == RequestLine || p.phase == Header)
    ensures Sane(ParseLine(fs, p, line).0)
  {
  }

  /** The too-short and too-long branches of parseRequestBody are never taken. */
  lemma BodyIsAsLongAsAnnounced(p: Parser, input: string)
    requires Sane(p) && p.phase == Body
    ensures var n := Stoul(p.header["Content-Length"]).value; var remain := Remaining(n, |p.body|);
      remain <= |input| ==> |p.body + input[..remain]| == n
  {
  }

  lemma RequestBodyKeepsSane(fs: FileSystem, p: Parser, line: string)
    requires Sane(p) && p.phase == Body && |p.body + line| == Stoul(p.header["Content-Length"]).value
    ensures Sane(ParseRequestBody(fs, p, line).0)
  {
  }

  lemma BodyKeepsSane(fs: FileSystem, p: Parser, input: string)
    requires Sane(p) && p.phase == Body
    ensures Sane(ParseBody(fs, p, input).p)
    ensures var n := Stoul(p.header["Content-Length"]).value; var remain := Remaining(n, |p.body|);
      remain <= |input| ==> |p.body + input[..remain]| == n
  {
    BodyIsAsLongAsAnnounced(p, input);
    var remain := Remaining(Stoul(p.header["Content-Length"]).value, |p.body|);
    if remain <= |input| {
      RequestBodyKeepsSane(fs, p, input[..remain]);
    }
  }

  /** The state between two calls of parseRequest is always sane. */
  lemma {:induction false} ParseKeepsSane(fs: FileSystem, p: Parser, input: string)
    requires Sane(p)
    ensures Sane(Parse(fs, p, input).p)
    decreases |input|
  {
    if p.phase == Body {
      BodyKeepsSane(fs, p, input);
    } else if p.phase != Finish {
      match FirstCrlf(input) {
        case None =>
        case Some(i) =>
          LineKeepsSane(fs, p, input[..i]);
          var (p', code) := ParseLine(fs, p, input[..i]);
          if code == NoRequest {
            ParseKeepsSane(fs, p', input[i + 2..]);
          }
      }
    }
  }

  /** No complete line, or not all of the body. */
  predicate Incomplete(p: Parser, rest: string)
    requires Sane(p)
  {
    if p.phase == Body then |rest| < Remaining(Stoul(p.header["Content-Length"]).value, |p.body|)
    else p.phase != Finish && FirstCrlf(rest).None?
  }

  lemma BodyWaits(fs: FileSystem, p: Parser, input: string)
    requires Sane(p) && p.phase == Body
    ensures var r := ParseBody(fs, p, input);
      |r.rest| <= |input| && (r.code == NoRequest ==> r.p == p && Incomplete(p, r.rest))
  {
    BodyDecides(fs, p, input);
  }

  /** The parser asks for more only when it has no complete line, or not all of the body. */
  lemma {:induction false} WaitsOnlyWhenItMust(fs: FileSystem, p: Parser, input: string)
    requires Sane(p)
    ensures Sane(Parse(fs, p, input).p)
    ensures var r := Parse(fs, p, input); r.code == NoRequest ==> Incomplete(r.p, r.rest)
    ensures |Parse(fs, p, input).rest| <= |input|
    decreases |input|
  {
    ParseKeepsSane(fs, p, input);
    if p.phase == Body {
      BodyWaits(fs, p, input);
    } else if p.phase != Finish {
      match FirstCrlf(input) {
        case None =>
        case Some(i) =>
          LineKeepsSane(fs, p, input[..i]);
          var (p', code) := ParseLine(fs, p, input[..i]);
          ParseTakesLine(fs, p, input, i, p', code);
          if code == NoRequest {
            WaitsOnlyWhenItMust(fs, p', input[i + 2..]);
          }
      }
    }
  }

  // ---- Exceptions ----

  /** A Content-Length that stoi cannot convert. */
  predicate BadLength(h: map<string, string>)
  {
    "Content-Length" in h && Stoi(h["Content-Length"]).None?
  }

  lemma BodyNeverThrows(fs: FileSystem, p: Parser, input: string)
    requires Sane(p) && p.phase == Body
    ensures ParseBody(fs, p, input).code != Threw
  {
  }

  lemma LineThrows(fs: FileSystem, p: Parser, line: string)
    requires p.phase == RequestLine || p.phase == Header
    ensures ParseLine(fs, p, line).1 == Threw <==> p.phase == Header && line == "" && BadLength(p.header)
  {
  }

  predicate ReadToBadHead(r: Parsed)
  {
    r.code == NoRequest && r.rest == "" && r.p.phase == Header && BadLength(r.p.header)
  }

  /** The bytes before `k` are read as far as a head with a bad length, and at `k` the blank line follows. */
  predicate ThrowsAt(fs: FileSystem, p: Parser, input: string, k: int)
    requires Sane(p)
  {
    CrlfAt(input, k) && ReadToBadHead(Parse(fs, p, input[..k]))
  }

  lemma ThrowsThere(fs: FileSystem, p: Parser, input: string, k: int)
    requires Sane(p) && ThrowsAt(fs, p, input, k)
    ensures Parse(fs, p, input).code == Threw
  {
    var r := Parse(fs, p, input[..k]);
    var later := input[k..];
    assert input == input[..k] + later && r.rest + later == later;
    Resume(fs, p, input[..k], later);
    assert CrlfAt(later, 0) && later[..0] == "";
    ParseTakesLine(fs, r.p, later, 0, r.p, Threw);
  }

  lemma NothingToParse(fs: FileSystem, p: Parser)
    requires p.phase == RequestLine || p.phase == Header
    ensures Parse(fs, p, "") == Parsed(p, "", NoRequest)
  {
  }

  /** The first line of the input, ended at `i`, takes the parser to `p'` and asks for more. */
  predicate LineLeads(fs: FileSystem, p: Parser, input: string, i: nat, p': Parser)
  {
    && (p.phase == RequestLine || p.phase == Header) && FirstCrlf(input) == Some(i)
    && ParseLine(fs, p, input[..i]) == (p', NoRequest)
  }

  /** Parsing a front that is longer than the first line goes through that line. */
  lemma FrontThroughLine(fs: FileSystem, p: Parser, input: string, i: nat, p': Parser, front: string, later: string)
    requires Sane(p) && Sane(p') && LineLeads(fs, p, input, i, p')
    requires |front| == i + 2 && front + later <= input
    ensures Parse(fs, p, front + later) == Parse(fs, p', later)
  {
    assert CrlfAt(front, i) && forall j :: 0 <= j < i ==> (CrlfAt(front, j) ==> CrlfAt(input, j));
    FirstCrlfStable(front, later);
    assert (front + later)[..i] == input[..i] && (front + later)[i + 2..] == later;
    ParseTakesLine(fs, p, front + later, i, p', NoRequest);
  }

  lemma FrontOfTail(input: string, n: nat, m: nat, k: nat)
    requires k == n + m && n <= |input| && CrlfAt(input[n..], m)
    ensures input[..n] + input[n..][..m] == input[..k] && CrlfAt(input, k)
  {
  }

  lemma ThrowsOneLineOn(fs: FileSystem, p: Parser, input: string, i: nat, p': Parser, m: nat, k: nat)
    requires k == i + 2 + m && Sane(p) && Sane(p') && LineLeads(fs, p, input, i, p')
    requires ThrowsAt(fs, p', input[i + 2..], m)
    ensures ThrowsAt(fs, p, input, k)
  {
    FrontOfTail(input, i + 2, m, k);
    FrontThroughLine(fs, p, input, i, p', input[..i + 2], input[i + 2..][..m]);
  }

  lemma ThrowsAtOnce(fs: FileSystem, p: Parser, input: string)
    requires Sane(p) && p.phase == Header && BadLength(p.header) && FirstCrlf(input) == Some(0)
    ensures ThrowsAt(fs, p, input, 0)
  {
    assert input[..0] == "";
    NothingToParse(fs, p);
  }

  /** An exception comes from the first line or from what follows it. */
  lemma ThrowsHereOrLater(fs: FileSystem, p: Parser, input: string) returns (here: bool, i: nat, p': Parser)
    requires Sane(p) && Parse(fs, p, input).code == Threw
    ensures here ==> ThrowsAt(fs, p, input, 0)
    ensures !here ==> LineLeads(fs, p, input, i, p') && Sane(p') && Parse(fs, p', input[i + 2..]).code == Threw
  {
    if p.phase == Body {
      BodyNeverThrows(fs, p, input);
    }
    i := FirstCrlf(input).value;
    LineKeepsSane(fs, p, input[..i]);
    LineThrows(fs, p, input[..i]);
    var (q, code) := ParseLine(fs, p, input[..i]);
    p' := q;
    ParseTakesLine(fs, p, input, i, p', code);
    here := code == Threw;
    if here {
      ThrowsAtOnce(fs, p, input);
    }
  }

  lemma {:induction false} WhereItThrows(fs: FileSystem, p: Parser, input: string) returns (k: nat)
    requires Sane(p) && Parse(fs, p, input).code == Threw
    ensures ThrowsAt(fs, p, input, k)
    decreases |input|
  {
    var here, i, p' := ThrowsHereOrLater(fs, p, input);
    if here {
      k := 0;
    } else {
      var m := WhereItThrows(fs, p', input[i + 2..]);
      k := i + 2 + m;
      ThrowsOneLineOn(fs, p, input, i, p', m, k);
    }
  }

  /** An exception leaves the parser exactly when a head with a bad length is ended by its blank line. */
  lemma ThrowsExactly(fs: FileSystem, p: Parser, input: string)
    requires Sane(p)
    ensures Parse(fs, p, input).code == Threw <==> exists k :: ThrowsAt(fs, p, input, k)
  {
    if Parse(fs, p, input).code == Threw {
      var k := WhereItThrows(fs, p, input);
    } else if k :| ThrowsAt(fs, p, input, k) {
      ThrowsThere(fs, p, input, k);
    }
  }

  // ---- Chunking independence ----

  /** Parsing can be interrupted after any byte and resumed with the bytes that follow. */
  lemma {:induction false} Resume(fs: FileSystem, p: Parser, a: string, b: string)
    requires Sane(p)
    ensures Sane(Parse(fs, p, a).p)
    ensures var r := Parse(fs, p, a);
      Parse(fs, p, a + b) == if r.code == NoRequest then Parse(fs, r.p, r.rest + b) else r.(rest := r.rest + b)
    decreases |a|
  {
    ParseKeepsSane(fs, p, a);
    if p.phase == Body {
      ResumeBody(fs, p, a, b);
    } else if p.phase != Finish {
      match FirstCrlf(a) {
        case None =>
        case Some(i) =>
          FirstCrlfStable(a, b);
          assert (a + b)[..i] == a[..i] && (a + b)[i + 2..] == a[i + 2..] + b;
          LineKeepsSane(fs, p, a[..i]);
          var (p', code) := ParseLine(fs, p, a[..i]);
          ParseTakesLine(fs, p, a, i, p', code);
          ParseTakesLine(fs, p, a + b, i, p', code);
          if code == NoRequest {
            Resume(fs, p', a[i + 2..], b);
          }
      }
    }
  }

  lemma ResumeBody(fs: FileSystem, p: Parser, a: string, b: string)
    requires Sane(p) && p.phase == Body
    ensures var r := ParseBody(fs, p, a);
      ParseBody(fs, p, a + b) == if r.code == NoRequest then ParseBody(fs, p, r.rest + b) else r.(rest := r.rest + b)
    ensures var r := ParseBody(fs, p, a); r.code == NoRequest ==> r.p == p
  {
    BodyDecides(fs, p, a);
    var remain := Remaining(Stoul(p.header["Content-Length"]).value, |p.body|);
    if remain <= |a| {
      assert (a + b)[..remain] == a[..remain] && (a + b)[remain..] == a[remain..] + b;
    }
  }

  /** What is known after feeding chunks: parser, unread bytes, code, and the chunks not looked at. */
  datatype Fed = Fed(p: Parser, rest: string, code: Code, left: seq<string>)

  /** Chunks are appended to the buffer one by one, parsing after each, until a request is decided. */
  function Feed(fs: FileSystem, p: Parser, buffered: string, chunks: seq<string>): Fed
    requires Sane(p)
    decreases |chunks|
  {
    if chunks == [] then Fed(p, buffered, NoRequest, [])
    else
      var r := Parse(fs, p, buffered + chunks[0]);
      if r.code != NoRequest then Fed(r.p, r.rest, r.code, chunks[1..])
      else
        ParseKeepsSane(fs, p, buffered + chunks[0]);
        Feed(fs, r.p, r.rest, chunks[1..])
  }

  /**
   * Chunking independence: however the bytes are split, the verdict, the parsed fields and
   * the unconsumed bytes are those of parsing everything at once.
   */
  lemma {:induction false} ChunkingIndependence(fs: FileSystem, p: Parser, buffered: string, chunks: seq<string>)
    requires Sane(p) && chunks != []
    ensures var f := Feed(fs, p, buffered, chunks);
      Parse(fs, p, buffered + Concat(chunks)) == Parsed(f.p, f.rest + Concat(f.left), f.code)
    decreases |chunks|
  {
    var first := buffered + chunks[0];
    var later := Concat(chunks[1..]);
    assert buffered + Concat(chunks) == first + later;
    Resume(fs, p, first, later);
    var r := Parse(fs, p, first);
    if r.code == NoRequest {
      if chunks[1..] == [] {
        assert first + later == first && r.rest + later == r.rest;
      } else {
        ChunkingIndependence(fs, r.p, r.rest, chunks[1..]);
      }
    }
  }
}
