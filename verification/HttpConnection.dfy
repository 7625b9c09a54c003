/**
 * The HTTP connection object: parsing over the network buffer and building responses into
 * another one, each method proved against the functions of HttpParser and HttpResponses.
 */
module HttpConnection {
  import opened Common
  import opened NetBuffer
  import opened HttpParser
  import R = HttpResponses
  import LogStream

  datatype Outcome = Waiting | Replied | Died

  class HttpConnection {
    const fs: FileSystem
    var parseState: Phase
    var method_: string
    var path: string
    var version: string
    var header: map<string, string>
    var body: string
    var post: map<string, string>
    var stat: Stat
    var responseCode: int
    var keepAlive: bool

    ghost function View(): Parser
      reads this
    {
      Parser(parseState, method_, path, version, header, body, post, stat)
    }

    ghost predicate Valid()
      reads this
    {
      Sane(View())
    }

    constructor (fs: FileSystem)
      ensures Valid() && this.fs == fs && View() == Fresh(map[])
    {
      this.fs := fs;
      parseState, method_, path, version, header, body, post := RequestLine, "", "", "", map[], "", map[];
      stat, responseCode, keepAlive := NO_STAT, -1, false;
    }

    method ResetState()
      modifies this
      ensures Valid() && View() == Fresh(old(post))
    {
      parseState := RequestLine;
      method_, path, version, header, body := "", "", "", map[], "";
      responseCode := -1;
      stat := NO_STAT;
    }

    method DoParseRequestLine(line: string) returns (code: Code)
      modifies this
      ensures (View(), code) == ParseRequestLine(fs, old(View()), line)
    {
      var m := MatchRequestLine(line);
      if m.None? {
        return BadRequest;
      }
      method_, path, version := m.value.0, m.value.1, m.value.2;
      parseState := Header;
      if path == "/" {
        path := path + "index.html";
      } else if '.' !in path {
        path := path + ".html";
      }
      assert path == Normalise(m.value.1);
      if path !in fs {
        return NoResource;
      }
      stat := StatOf(fs[path]);
      if stat.isDir {
        return NoResource;
      }
      if !stat.othersRead {
        return Forbidden;
      }
      return NoRequest;
    }

    method DoParseRequestHeader(line: string) returns (code: Code)
      modifies this
      ensures (View(), code) == ParseRequestHeader(old(View()), line)
    {
      if |line| == 0 {
        if "Content-Length" !in header {
          parseState := Finish;
          return GetRequest;
        }
        var n := Stoi(header["Content-Length"]);
        if n.None? {
          return Threw;
        }
        if n.value == 0 {
          parseState := Finish;
          return GetRequest;
        }
        parseState := Body;
        return NoRequest;
      }
      var m := MatchHeader(line);
      if m.None? {
        return BadRequest;
      }
      header := header[m.value.0 := m.value.1];
      return NoRequest;
    }

    /** The scan over the body, character by character. */
    method ParseFromUrlEncode() returns (code: Code)
      modifies this`post
      ensures var (stored, ok) := DecodeForm(body, 0, Form("", "", false, old(post)));
        post == stored && code == (if ok then NoRequest else BadRequest)
    {
      var key, value, inValue := "", "", false;
      var i := 0;
      while i < |body|
        invariant 0 <= i <= |body| && body == old(body)
        invariant DecodeForm(body, i, Form(key, value, inValue, post)) == DecodeForm(body, 0, Form("", "", false, old(post)))
        decreases |body| - i
      {
        if body[i] == '=' {
          inValue := true;
        } else if body[i] == '&' {
          if |key| == 0 || |value| == 0 {
            return BadRequest;
          }
          post := post[key := value];
          key, value, inValue := "", "", false;
        } else {
          var text := [body[i]];
          if body[i] == '+' {
            text := " ";
          } else if body[i] == '%' {
            if i + 2 >= |body| {
              return BadRequest;
            }
            text := LogStream.Decimal(StrtolHex(body[i + 1], body[i + 2]));
            i := i + 2;
          }
          if inValue {
            value := value + text;
          } else {
            key := key + text;
          }
        }
        i := i + 1;
      }
      if |key| == 0 || |value| == 0 {
        return BadRequest;
      }
      post := post[key := value];
      return NoRequest;
    }

    method DoParsePost() returns (code: Code)
      modifies this`post
      ensures (View(), code) == ParsePost(old(View()))
    {
      if |body| == 0 {
        return NoRequest;
      }
      if "Content-Type" !in header {
        return BadRequest;
      }
      if header["Content-Type"] == "application/x-www-form-urlencoded" {
        code := ParseFromUrlEncode();
        return code;
      }
      return NoRequest;
    }

    method DoUserVerify() returns (code: Code)
      modifies this
      ensures (View(), code) == UserVerify(fs, old(View()))
    {
      if Contains(path, "register.html") {
        path := "/welcome.html";
      } else if Contains(path, "login.html") {
        post := Touch(post, "username");
        if post["username"] == "admin" {
          post := Touch(post, "password");
          path := if post["password"] == "123456" then "/welcome.html" else "/error.html";
        } else {
          path := "/error.html";
        }
      } else {
        path := "/error.html";
      }
      if path !in fs {
        return NoResource;
      }
      stat := StatOf(fs[path]);
      return NoRequest;
    }

    method DoParseRequestBody(line: string) returns (code: Code)
      requires "Content-Length" in header
      modifies this
      ensures (View(), code) == ParseRequestBody(fs, old(View()), line)
    {
      body := body + line;
      var contentLength := Stoul(header["Content-Length"]);
      if contentLength.None? {
        return Threw;
      }
      if |body| < contentLength.value {
        return NoRequest;
      } else if |body| > contentLength.value {
        return BadRequest;
      }
      if method_ == "POST" {
        var ret := DoParsePost();
        if ret != NoRequest {
          return ret;
        }
        ret := DoUserVerify();
        if ret != NoRequest {
          return ret;
        }
      }
      parseState := Finish;
      return GetRequest;
    }

    /** The body phase of the loop: take the whole body once it has arrived. */
    method TakeBody(buf: Buffer) returns (code: Code)
      requires Valid() && buf.Valid() && parseState == Body
      modifies this, buf
      ensures Valid() && buf.Valid() && buf.data == old(buf.data)
      ensures Parsed(View(), buf.Readable(), code) == ParseBody(fs, old(View()), old(buf.Readable()))
    {
      BodyKeepsSane(fs, View(), buf.Readable());
      var contentLength := Stoul(header["Content-Length"]);
      var remain := Remaining(contentLength.value, |body|);
      if buf.ReadableBytes() < remain {
        return NoRequest;
      }
      var line := buf.RetrieveAsString(remain);
      code := DoParseRequestBody(line);
    }

    /** Any other phase: take one line and the CR LF behind it. */
    method TakeLine(buf: Buffer, crlf: nat) returns (code: Code)
      requires Valid() && buf.Valid() && (parseState == RequestLine || parseState == Header)
      requires FirstCrlf(buf.Readable()) == Some(crlf - buf.reader) && buf.reader <= crlf
      modifies this, buf
      ensures Valid() && buf.Valid() && buf.data == old(buf.data)
      ensures (View(), code) == ParseLine(fs, old(View()), old(buf.Readable())[..crlf - old(buf.reader)])
      ensures buf.Readable() == old(buf.Readable())[crlf - old(buf.reader) + 2..]
    {
      var line := RetrieveLine(buf, crlf);
      code := DoParseLine(line);
    }

    /** The switch on the parse state. */
    method DoParseLine(line: string) returns (code: Code)
      requires Valid() && (parseState == RequestLine || parseState == Header)
      modifies this
      ensures Valid() && (View(), code) == ParseLine(fs, old(View()), line)
    {
      LineKeepsSane(fs, View(), line);
      if parseState == RequestLine {
        code := DoParseRequestLine(line);
      } else {
        code := DoParseRequestHeader(line);
      }
    }

    /** One turn of the loop on a complete line. */
    method ParseOneLine(buf: Buffer, crlf: nat) returns (code: Code)
      requires Valid() && buf.Valid() && (parseState == RequestLine || parseState == Header)
      requires FirstCrlf(buf.Readable()) == Some(crlf - buf.reader) && buf.reader <= crlf
      modifies this, buf
      ensures Valid() && buf.Valid() && buf.data == old(buf.data) && |buf.Readable()| < |old(buf.Readable())|
      ensures var whole := Parse(fs, old(View()), old(buf.Readable()));
        whole == if code != NoRequest then Parsed(View(), buf.Readable(), code) else Parse(fs, View(), buf.Readable())
    {
      ghost var p, input, i := View(), buf.Readable(), crlf - buf.reader;
      assert CrlfAt(input, i);
      code := TakeLine(buf, crlf);
      ParseTakesLine(fs, p, input, i, View(), code);
    }

    /** The parse loop, resumed each time bytes have arrived. */
    method ParseRequest(buf: Buffer) returns (code: Code)
      requires Valid() && buf.Valid()
      modifies this, buf
      ensures Valid() && buf.Valid() && buf.data == old(buf.data)
      ensures Parsed(View(), buf.Readable(), code) == Parse(fs, old(View()), old(buf.Readable()))
    {
      ghost var whole := Parse(fs, View(), buf.Readable());
      while parseState != Finish
        invariant Valid() && buf.Valid() && buf.data == old(buf.data)
        invariant Parse(fs, View(), buf.Readable()) == whole
        decreases |buf.Readable()|
      {
        var crlf := buf.FindCRLF();
        if parseState == Body {
          code := TakeBody(buf);
          return code;
        } else if crlf.None? {
          return NoRequest;
        } else {
          code := ParseOneLine(buf, crlf.value);
          if code != NoRequest {
            return code;
          }
        }
      }
      return GetRequest;
    }

    // ---- Responses ----

    /** False when the error page is missing and the server aborts. */
    method InitResponse(code: Code) returns (ok: bool)
      requires code != NoRequest
      modifies this
      ensures ok <==> R.InitResponse(fs, old(View()), code).Some?
      ensures ok ==> View() == R.InitResponse(fs, old(View()), code).value && responseCode == R.StatusOf(code)
    {
      if code == GetRequest {
        responseCode := 200;
      } else if code == Forbidden {
        responseCode := 403;
      } else if code == NoResource {
        responseCode := 404;
      } else {
        responseCode := 400;
      }
      if responseCode != 200 {
        path := "/" + LogStream.Decimal(responseCode) + ".html";
        if path !in fs {
          return false;
        }
        stat := StatOf(fs[path]);
      }
      return true;
    }

    /** The status line and the header lines, with the empty line that ends them. */
    method MakeResponseHead(out: Buffer)
      requires out.Valid() && responseCode >= 0
      modifies this`keepAlive, out, out.data
      ensures out.Valid() && (out.data == old(out.data) || fresh(out.data))
      ensures keepAlive == R.KeepAlive(View())
      ensures out.Readable() == old(out.Readable()) + R.JoinLines(R.HeadLines(View(), responseCode)) + CRLF
    {
      var lines := [R.StatusLine(responseCode)];
      if "Connection" in header && header["Connection"] == "keep-alive" && version == "1.1" {
        keepAlive := true;
        lines := lines + ["Connection: keep-alive", "Keep-Alive: max=6, timeout=120"];
      } else {
        keepAlive := false;
        lines := lines + ["Connection: close"];
      }
      lines := lines + ["Content-Type: " + R.MimeOf(path)];
      lines := lines + ["Content-Length: " + LogStream.Decimal(stat.size)];
      AppendLines(out, lines);
      out.Append(CRLF);
    }

    /** The page, as many bytes as stat said; false when it cannot be opened or mapped. */
    method MakeResponseBody(out: Buffer) returns (ok: bool)
      requires out.Valid()
      modifies out, out.data
      ensures out.Valid() && (out.data == old(out.data) || fresh(out.data))
      ensures ok <==> R.MappedBody(fs, View()).Some?
      ensures ok ==> out.Readable() == old(out.Readable()) + R.MappedBody(fs, View()).value
    {
      if path !in fs || !fs[path].openable {
        return false;
      }
      if fs[path].isDir || stat.size == 0 || stat.size > |fs[path].content| {
        return false;
      }
      out.Append(fs[path].content[..stat.size]);
      return true;
    }

    /** Head and body of the page the path names. */
    method MakePage(out: Buffer) returns (ok: bool)
      requires out.Valid() && responseCode >= 0
      modifies this`keepAlive, out, out.data
      ensures out.Valid() && keepAlive == R.KeepAlive(View())
      ensures ok <==> R.MappedBody(fs, View()).Some?
      ensures ok ==>
        var text := R.JoinLines(R.HeadLines(View(), responseCode)) + CRLF + R.MappedBody(fs, View()).value;
        out.Readable() == old(out.Readable()) + text
    {
      ghost var head := R.JoinLines(R.HeadLines(View(), responseCode));
      MakeResponseHead(out);
      ok := MakeResponseBody(out);
      if ok {
        Associate(old(out.Readable()), head, CRLF, R.MappedBody(fs, View()).value);
      }
    }

    /** False when the server aborts: no error page, or a page that cannot be mapped. */
    method MakeResponse(out: Buffer, code: Code) returns (ok: bool)
      requires out.Valid() && code != NoRequest
      modifies this, out, out.data
      ensures out.Valid()
      ensures ok <==> R.MakeResponse(fs, old(View()), code).Some?
      ensures ok ==> View() == R.MakeResponse(fs, old(View()), code).value.0
      ensures ok ==> out.Readable() == old(out.Readable()) + R.MakeResponse(fs, old(View()), code).value.1
      ensures ok ==> keepAlive == R.KeepAlive(View())
    {
      ok := InitResponse(code);
      if ok {
        ok := MakePage(out);
      }
    }

    /** What became of a message: more bytes are needed, a reply was built, or the server died. */
    method ProcessMessage(buf: Buffer, out: Buffer) returns (outcome: Outcome)
      requires Valid() && buf.Valid() && out.Valid() && buf != out && buf.data != out.data
      modifies this, buf, out, out.data
      ensures buf.Valid() && out.Valid() && buf.data == old(buf.data)
      ensures var o := R.ProcessMessage(fs, old(View()), old(buf.Readable()));
        && buf.Readable() == o.rest
        && (outcome == Waiting <==> o.Waits?) && (outcome == Replied <==> o.Replies?) && (outcome == Died <==> o.Dies?)
        && (outcome == Waiting ==> View() == o.p && out.Readable() == old(out.Readable()))
        && (outcome == Replied ==> View() == o.p && out.Readable() == old(out.Readable()) + o.text)
    {
      var code := ParseRequest(buf);
      if code == NoRequest {
        return Waiting;
      }
      if code == Threw {
        return Died;
      }
      var ok := MakeResponse(out, code);
      if !ok {
        return Died;
      }
      if keepAlive {
        ResetState();
      }
      return Replied;
    }
  }

  /** The bytes before the CR LF at array position `crlf`; it is dropped with them. */
  method RetrieveLine(buf: Buffer, crlf: nat) returns (line: string)
    requires buf.Valid() && buf.reader <= crlf && CrlfAt(buf.Readable(), crlf - buf.reader)
    modifies buf
    ensures buf.Valid() && buf.data == old(buf.data)
    ensures line == old(buf.Readable())[..crlf - old(buf.reader)]
    ensures buf.Readable() == old(buf.Readable())[crlf - old(buf.reader) + 2..]
  {
    ghost var input, n := buf.Readable(), crlf - buf.reader;
    line := buf.RetrieveAsString(crlf - buf.reader);
    assert buf.Readable() == input[n..];
    buf.RetrieveUntil(crlf + 2);
    assert input[n..][2..] == input[n + 2..];
  }

  lemma Associate(a: string, b: string, c: string, d: string)
    ensures a + b + c + d == a + (b + c + d)
  {
  }

  method AppendLines(out: Buffer, lines: seq<string>)
    requires out.Valid()
    modifies out, out.data
    ensures out.Valid() && (out.data == old(out.data) || fresh(out.data))
    ensures out.Readable() == old(out.Readable()) + R.JoinLines(lines)
  {
    var i := 0;
    while i < |lines|
      invariant 0 <= i <= |lines| && out.Valid() && (out.data == old(out.data) || fresh(out.data))
      invariant out.Readable() + R.JoinLines(lines[i..]) == old(out.Readable()) + R.JoinLines(lines)
    {
      ghost var before := out.Readable();
      assert lines[i..][1..] == lines[i + 1..];
      out.Append(lines[i] + CRLF);
      assert before + (lines[i] + CRLF) + R.JoinLines(lines[i + 1..]) == before + R.JoinLines(lines[i..]);
      i := i + 1;
    }
  }
}
