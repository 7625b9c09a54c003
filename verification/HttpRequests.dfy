/**
 * Requests as values, their serialisation after section 2.1 of RFC 9112, and the proof that
 * the parser reads back what was written.
 */
module HttpRequests {
  import opened Common
  import opened NetBuffer
  import opened HttpParser
  import LogStream

  /** A header field; `gap` is the number of spaces after the colon. */
  datatype Field = Field(name: string, gap: nat, value: string)

  datatype Request = Request(method_: string, target: string, version: string, fields: seq<Field>, body: string)

  function Spaces(n: nat): string
  {
    if n == 0 then "" else " " + Spaces(n - 1)
  }

  function FieldLine(f: Field): string
  {
    f.name + ":" + Spaces(f.gap) + f.value
  }

  function FieldText(fields: seq<Field>): string
  {
    if fields == [] then "" else FieldLine(fields[0]) + CRLF + FieldText(fields[1..])
  }

  function StartLine(r: Request): string
  {
    r.method_ + " " + r.target + " HTTP/" + r.version
  }

  function Serialise(r: Request): string
  {
    StartLine(r) + CRLF + FieldText(r.fields) + CRLF + r.body
  }

  /** A non-empty word without space or line break. */
  predicate Word(s: string)
  {
    s != "" && ' ' !in s && '\r' !in s && '\n' !in s
  }

  predicate WellFormedField(f: Field)
  {
    && f.name != "" && ':' !in f.name && '\r' !in f.name && '\n' !in f.name
    && f.value != "" && f.value[0] != ' ' && '\r' !in f.value && '\n' !in f.value
  }

  /** A later field of the same name replaces an earlier one. */
  function HeaderMap(h: map<string, string>, fields: seq<Field>): map<string, string>
    decreases |fields|
  {
    if fields == [] then h else HeaderMap(h[fields[0].name := fields[0].value], fields[1..])
  }

  function DeclaredLength(h: map<string, string>): Option<int>
  {
    if "Content-Length" in h then Stoi(h["Content-Length"]) else Some(0)
  }

  predicate WellFormed(r: Request)
  {
    && Word(r.method_) && Word(r.target) && Word(r.version)
    && (forall f :: f in r.fields ==> WellFormedField(f))
    && DeclaredLength(HeaderMap(map[], r.fields)) == Some(|r.body|)
    && (r.method_ == "POST" ==> r.body == "")
  }

  predicate Servable(fs: FileSystem, path: string)
  {
    path in fs && !fs[path].isDir && fs[path].othersRead
  }

  // ---- The patterns accept what is printed ----

  lemma {:induction false} SplitAtOf(a: string, c: char, b: string)
    requires c !in a
    ensures SplitAt(a + [c] + b, c) == Some((a, b))
  {
    var s := a + [c] + b;
    if a == "" {
      assert s == [c] + b;
    } else {
      assert s[0] == a[0] && s[1..] == a[1..] + [c] + b;
      SplitAtOf(a[1..], c, b);
      assert [a[0]] + a[1..] == a;
    }
  }

  /** The request-line pattern accepts three words in the printed form, and finds them. */
  lemma RequestLineMatches(m: string, t: string, v: string)
    requires m != "" && t != "" && v != "" && ' ' !in m && ' ' !in t && ' ' !in v
    ensures MatchRequestLine(m + " " + t + " HTTP/" + v) == Some((m, t, v))
  {
    var tail := "HTTP/" + v;
    var rest := t + [' '] + tail;
    assert m + " " + t + " HTTP/" + v == m + [' '] + rest;
    SplitAtOf(m, ' ', rest);
    SplitAtOf(t, ' ', tail);
    assert tail[5..] == v;
  }

  /** And whatever it accepts has that form. */
  lemma RequestLineOnly(line: string)
    requires MatchRequestLine(line).Some?
    ensures var (m, t, v) := MatchRequestLine(line).value;
      && line == m + " " + t + " HTTP/" + v
      && m != "" && t != "" && v != "" && ' ' !in m && ' ' !in t && ' ' !in v
  {
    var (m, t, v) := MatchRequestLine(line).value;
    var rest := SplitAt(line, ' ').value.1;
    var tail := SplitAt(rest, ' ').value.1;
    assert tail == "HTTP/" + v;
    assert rest == t + " HTTP/" + v;
    assert line == m + " " + rest;
  }

  lemma {:induction false} DropSpacesOf(n: nat, v: string)
    requires v != "" && v[0] != ' '
    ensures DropSpaces(Spaces(n) + v) == v
  {
    if n == 0 {
      assert Spaces(0) + v == v;
    } else {
      var s := Spaces(n) + v;
      assert s[0] == ' ' && s[1..] == Spaces(n - 1) + v;
      DropSpacesOf(n - 1, v);
    }
  }

  lemma HeaderMatches(f: Field)
    requires WellFormedField(f)
    ensures MatchHeader(FieldLine(f)) == Some((f.name, f.value))
  {
    var tail := Spaces(f.gap) + f.value;
    assert FieldLine(f) == f.name + [':'] + tail;
    SplitAtOf(f.name, ':', tail);
    DropSpacesOf(f.gap, f.value);
  }

  /** The form of a header line: a name, a colon, any spaces, and a value that starts behind them. */
  predicate HeaderForm(line: string, name: string, gap: nat, value: string)
  {
    && line == name + ":" + Spaces(gap) + value
    && name != "" && ':' !in name && value != "" && '\r' !in value && '\n' !in value
    && (value[0] != ' ' || value == " ")
  }

  lemma {:induction false} DropSpacesIs(s: string) returns (k: nat)
    ensures s == Spaces(k) + DropSpaces(s)
  {
    if s != "" && s[0] == ' ' {
      var j := DropSpacesIs(s[1..]);
      k := j + 1;
      assert s == " " + s[1..] && Spaces(k) == " " + Spaces(j);
    } else {
      k := 0;
    }
  }

  lemma {:induction false} SpacesThenOne(k: nat)
    ensures Spaces(k + 1) == Spaces(k) + " "
  {
    if k > 0 {
      SpacesThenOne(k - 1);
      assert Spaces(k + 1) == " " + (Spaces(k - 1) + " ");
    }
  }

  lemma {:induction false} OnlySpaces(k: nat)
    ensures DropSpaces(Spaces(k)) == "" && |Spaces(k)| == k
  {
    if k > 0 {
      assert Spaces(k)[1..] == Spaces(k - 1);
      OnlySpaces(k - 1);
    }
  }

  lemma HeaderFormMatches(line: string, name: string, gap: nat, value: string)
    requires HeaderForm(line, name, gap, value)
    ensures MatchHeader(line) == Some((name, value))
  {
    var tail := Spaces(gap) + value;
    assert line == name + [':'] + tail;
    SplitAtOf(name, ':', tail);
    if value == " " {
      SpacesThenOne(gap);
      OnlySpaces(gap + 1);
    } else {
      DropSpacesOf(gap, value);
    }
  }

  lemma HeaderMatchHasForm(line: string) returns (gap: nat)
    requires MatchHeader(line).Some?
    ensures HeaderForm(line, MatchHeader(line).value.0, gap, MatchHeader(line).value.1)
  {
    var (name, v) := SplitAt(line, ':').value;
    var k := DropSpacesIs(v);
    if DropSpaces(v) != "" {
      gap := k;
      assert line == name + ":" + (Spaces(k) + DropSpaces(v));
    } else {
      assert v == Spaces(k);
      OnlySpaces(k);
      gap := k - 1;
      SpacesThenOne(gap);
      assert line == name + ":" + (Spaces(gap) + " ");
    }
  }

  /** The header pattern accepts exactly the lines of this form. */
  lemma HeaderExactly(line: string)
    ensures MatchHeader(line).Some? <==> exists name, gap: nat, value :: HeaderForm(line, name, gap, value)
  {
    if MatchHeader(line).Some? {
      var gap := HeaderMatchHasForm(line);
    } else if name, gap: nat, value :| HeaderForm(line, name, gap, value) {
      HeaderFormMatches(line, name, gap, value);
    }
  }

  lemma {:induction false} NoCrInSpaces(n: nat)
    ensures '\r' !in Spaces(n)
  {
    if n > 0 {
      NoCrInSpaces(n - 1);
    }
  }

  // ---- Reading a request back ----

  /** One printed line is consumed whole. */
  lemma ParsePrintedLine(fs: FileSystem, p: Parser, line: string, rest: string)
    requires '\r' !in line && (p.phase == RequestLine || p.phase == Header)
    requires ParseLine(fs, p, line).1 == NoRequest
    requires ParseLine(fs, p, line).0.phase == Body ==> "Content-Length" in ParseLine(fs, p, line).0.header
    ensures Parse(fs, p, line + CRLF + rest) == Parse(fs, ParseLine(fs, p, line).0, rest)
  {
    var input := line + CRLF + rest;
    FirstCrlfOfLine(line, rest);
    assert input[..|line|] == line && input[|line| + 2..] == rest;
  }

  lemma ParseField(fs: FileSystem, p: Parser, f: Field, rest: string)
    requires p.phase == Header && WellFormedField(f)
    ensures Parse(fs, p, FieldLine(f) + CRLF + rest) == Parse(fs, p.(header := p.header[f.name := f.value]), rest)
  {
    HeaderMatches(f);
    NoCrInSpaces(f.gap);
    var line := FieldLine(f);
    assert line != "" && '\r' !in line;
    ParsePrintedLine(fs, p, line, rest);
  }

  lemma {:induction false} ParseFields(fs: FileSystem, p: Parser, fields: seq<Field>, rest: string)
    requires p.phase == Header && forall f :: f in fields ==> WellFormedField(f)
    ensures Parse(fs, p, FieldText(fields) + rest) == Parse(fs, p.(header := HeaderMap(p.header, fields)), rest)
    decreases |fields|
  {
    if fields == [] {
      assert FieldText(fields) + rest == rest;
    } else {
      var f := fields[0];
      assert f in fields;
      var later := FieldText(fields[1..]) + rest;
      assert FieldText(fields) + rest == FieldLine(f) + CRLF + later;
      ParseField(fs, p, f, later);
      ParseFields(fs, p.(header := p.header[f.name := f.value]), fields[1..], rest);
    }
  }

  /** The empty line before a body that has been announced. */
  lemma ParseBlankLine(fs: FileSystem, p: Parser, body: string, rest: string)
    requires p.phase == Header && body != "" && DeclaredLength(p.header) == Some(|body|)
    ensures "Content-Length" in p.header
    ensures Parse(fs, p, CRLF + body + rest) == Parse(fs, p.(phase := Body), body + rest)
  {
    var input := CRLF + body + rest;
    assert input == "" + CRLF + (body + rest);
    FirstCrlfOfLine("", body + rest);
    assert input[..0] == "" && input[2..] == body + rest;
    ParseTakesLine(fs, p, input, 0, p.(phase := Body), NoRequest);
  }

  lemma ParsePlainBody(fs: FileSystem, p: Parser, body: string, rest: string)
    requires p.phase == Body && p.body == "" && p.method_ != "POST"
    requires "Content-Length" in p.header && Stoi(p.header["Content-Length"]) == Some(|body|)
    ensures Parse(fs, p, body + rest) == Parsed(p.(phase := Finish, body := body), rest, GetRequest)
  {
    assert Stoul(p.header["Content-Length"]) == Some(|body|);
    assert (body + rest)[..|body|] == body && (body + rest)[|body|..] == rest;
    assert "" + body == body;
  }

  lemma ParseEnd(fs: FileSystem, p: Parser, body: string, rest: string)
    requires p.phase == Header && p.body == "" && DeclaredLength(p.header) == Some(|body|)
    requires p.method_ == "POST" ==> body == ""
    ensures Parse(fs, p, CRLF + body + rest) == Parsed(p.(phase := Finish, body := body), rest, GetRequest)
  {
    if body != "" {
      ParseBlankLine(fs, p, body, rest);
      ParsePlainBody(fs, p.(phase := Body), body, rest);
    } else {
      var input := CRLF + body + rest;
      assert input == "" + CRLF + rest;
      FirstCrlfOfLine("", rest);
      assert input[..0] == "" && input[2..] == rest;
      ParseTakesLine(fs, p, input, 0, p.(phase := Finish), GetRequest);
    }
  }

  /** The parser when start line and fields have been read. */
  function AfterHead(fs: FileSystem, post: map<string, string>, r: Request): Parser
    requires Normalise(r.target) in fs
  {
    Parser(Header, r.method_, Normalise(r.target), r.version, HeaderMap(map[], r.fields), "", post,
           StatOf(fs[Normalise(r.target)]))
  }

  lemma ParseHead(fs: FileSystem, post: map<string, string>, r: Request, rest: string)
    requires Word(r.method_) && Word(r.target) && Word(r.version)
    requires forall f :: f in r.fields ==> WellFormedField(f)
    requires Servable(fs, Normalise(r.target))
    ensures Parse(fs, Fresh(post), Serialise(r) + rest) == Parse(fs, AfterHead(fs, post, r), CRLF + r.body + rest)
  {
    var line := StartLine(r);
    RequestLineMatches(r.method_, r.target, r.version);
    var end := CRLF + r.body + rest;
    var later := FieldText(r.fields) + end;
    assert Serialise(r) + rest == line + CRLF + later;
    assert '\r' !in line;
    ParsePrintedLine(fs, Fresh(post), line, later);
    ParseFields(fs, AfterHead(fs, post, r).(header := map[]), r.fields, end);
  }

  /**
   * Print and parse: every well-formed request for a servable resource, followed by anything,
   * is read back as its method, version, normalised path, last-wins header map and body, and
   * exactly what follows it is left.
   */
  lemma RequestRoundTrip(fs: FileSystem, post: map<string, string>, r: Request, rest: string)
    requires WellFormed(r) && Servable(fs, Normalise(r.target))
    ensures Parse(fs, Fresh(post), Serialise(r) + rest) ==
      Parsed(Parser(Finish, r.method_, Normalise(r.target), r.version, HeaderMap(map[], r.fields), r.body, post,
                    StatOf(fs[Normalise(r.target)])),
             rest, GetRequest)
  {
    ParseHead(fs, post, r, rest);
    ParseEnd(fs, AfterHead(fs, post, r), r.body, rest);
  }

  // ---- The length a client writes is the length the server reads ----

  lemma {:induction false} DigitPrefixAll(s: string)
    requires LogStream.AllDigits(s)
    ensures DigitPrefix(s) == s
  {
    if s != "" {
      DigitPrefixAll(s[1..]);
    }
  }

  lemma ScanOfDigits(s: string)
    requires s != "" && LogStream.AllDigits(s)
    ensures Scan(s) == Some(LogStream.Value(s))
  {
    assert LogStream.IsDigit(s[0]);
    assert SkipWhite(s) == s;
    DigitPrefixAll(s);
  }

  lemma RangesOf(s: string, n: nat)
    requires Scan(s) == Some(n) && n < 0x8000_0000
    ensures Stoi(s) == Some(n) && Stoul(s) == Some(n)
  {
  }

  lemma DecimalLengthIsRead(n: nat)
    requires n < 0x8000_0000
    ensures Stoi(LogStream.Decimal(n)) == Some(n) && Stoul(LogStream.Decimal(n)) == Some(n)
  {
    LogStream.DigitsRoundTrip(n);
    ScanOfDigits(LogStream.Digits(n));
    RangesOf(LogStream.Digits(n), n);
  }

  // ---- Lengths that cannot be read ----

  /** A printed request makes the parser throw exactly when its last Content-Length cannot be converted. */
  lemma RequestThrows(fs: FileSystem, post: map<string, string>, r: Request, rest: string)
    requires Word(r.method_) && Word(r.target) && Word(r.version)
    requires forall f :: f in r.fields ==> WellFormedField(f)
    requires Servable(fs, Normalise(r.target))
    ensures Parse(fs, Fresh(post), Serialise(r) + rest).code == Threw <==> BadLength(HeaderMap(map[], r.fields))
  {
    ParseHead(fs, post, r, rest);
    BlankLineThrows(fs, AfterHead(fs, post, r), r.body + rest);
    assert CRLF + r.body + rest == CRLF + (r.body + rest);
  }

  lemma BlankLineThrows(fs: FileSystem, p: Parser, rest: string)
    requires p.phase == Header && p.body == ""
    ensures Parse(fs, p, CRLF + rest).code == Threw <==> BadLength(p.header)
  {
    var input := CRLF + rest;
    assert input == "" + CRLF + rest;
    FirstCrlfOfLine("", rest);
    assert input[..0] == "" && input[2..] == rest;
    LineKeepsSane(fs, p, "");
    LineThrows(fs, p, "");
    var (p', code) := ParseLine(fs, p, "");
    ParseTakesLine(fs, p, input, 0, p', code);
    if code == NoRequest {
      BodyNeverThrows(fs, p', rest);
    }
  }

  /** A head that announces `n` bytes makes the parser wait until as many have arrived as size_t makes of `n`. */
  lemma AnnouncedWaits(fs: FileSystem, p: Parser, n: int, rest: string)
    requires p.phase == Header && p.body == "" && "Content-Length" in p.header
    requires Stoi(p.header["Content-Length"]) == Some(n) && n != 0 && |rest| < n % SIZE_T
    ensures Parse(fs, p, CRLF + rest) == Parsed(p.(phase := Body), rest, NoRequest)
  {
    var input := CRLF + rest;
    assert input == "" + CRLF + rest;
    FirstCrlfOfLine("", rest);
    assert input[..0] == "" && input[2..] == rest;
    ParseTakesLine(fs, p, input, 0, p.(phase := Body), NoRequest);
    assert Stoul(p.header["Content-Length"]) == Some(n % SIZE_T);
  }

  /** A negative length is announced as almost the largest size_t: the request is never decided in practice. */
  lemma NegativeLengthWaits(fs: FileSystem, post: map<string, string>, r: Request, n: int, rest: string)
    requires Word(r.method_) && Word(r.target) && Word(r.version)
    requires forall f :: f in r.fields ==> WellFormedField(f)
    requires Servable(fs, Normalise(r.target))
    requires DeclaredLength(HeaderMap(map[], r.fields)) == Some(n) && n < 0 && |r.body + rest| < SIZE_T + n
    ensures var d := Parse(fs, Fresh(post), Serialise(r) + rest);
      d.code == NoRequest && d.rest == r.body + rest && d.p.phase == Body
  {
    ParseHead(fs, post, r, rest);
    NegativeWraps(n);
    AnnouncedWaits(fs, AfterHead(fs, post, r), n, r.body + rest);
    assert CRLF + r.body + rest == CRLF + (r.body + rest);
  }

  lemma NegativeWraps(n: int)
    requires -SIZE_T < n < 0
    ensures n % SIZE_T == SIZE_T + n
  {
  }

  // ---- Numbers as the library reads them ----

  predicate AllSpace(s: string)
  {
    forall i :: 0 <= i < |s| ==> IsSpace(s[i])
  }

  lemma {:induction false} SkipWhiteOf(white: string, s: string)
    requires AllSpace(white) && (s == "" || !IsSpace(s[0]))
    ensures SkipWhite(white + s) == s
  {
    if white == "" {
      assert white + s == s;
    } else {
      assert (white + s)[1..] == white[1..] + s;
      SkipWhiteOf(white[1..], s);
    }
  }

  lemma {:induction false} DigitPrefixOf(digits: string, tail: string)
    requires LogStream.AllDigits(digits) && (tail == "" || !LogStream.IsDigit(tail[0]))
    ensures DigitPrefix(digits + tail) == digits
  {
    if digits == "" {
      assert digits + tail == tail;
    } else {
      assert (digits + tail)[1..] == digits[1..] + tail;
      DigitPrefixOf(digits[1..], tail);
      assert [digits[0]] + digits[1..] == digits;
    }
  }

  lemma ScanUnsigned(s: string, digits: string, tail: string)
    requires SkipWhite(s) == digits + tail && digits != "" && LogStream.AllDigits(digits)
    requires tail == "" || !LogStream.IsDigit(tail[0])
    ensures Scan(s) == Some(LogStream.Value(digits))
  {
    assert LogStream.IsDigit(digits[0]) && (digits + tail)[0] == digits[0];
    DigitPrefixOf(digits, tail);
  }

  lemma ScanSigned(s: string, sign: char, digits: string, tail: string)
    requires (sign == '+' || sign == '-') && SkipWhite(s) == [sign] + (digits + tail)
    requires digits != "" && LogStream.AllDigits(digits) && (tail == "" || !LogStream.IsDigit(tail[0]))
    ensures Scan(s) == Some(if sign == '-' then 0 - LogStream.Value(digits) else LogStream.Value(digits))
  {
    var t := [sign] + (digits + tail);
    assert t[0] == sign && t[1..] == digits + tail;
    DigitPrefixOf(digits, tail);
  }

  /** White space, at most one sign, digits, and then anything: the value is that of the digits with the sign. */
  lemma ScanReads(white: string, sign: string, digits: string, tail: string)
    requires AllSpace(white) && (sign == "" || sign == "+" || sign == "-")
    requires digits != "" && LogStream.AllDigits(digits) && (tail == "" || !LogStream.IsDigit(tail[0]))
    ensures Scan(white + (sign + (digits + tail)))
         == Some(if sign == "-" then 0 - LogStream.Value(digits) else LogStream.Value(digits))
  {
    var s := sign + (digits + tail);
    assert LogStream.IsDigit(digits[0]);
    if sign == "" {
      assert s == digits + tail && s[0] == digits[0];
      SkipWhiteOf(white, s);
      ScanUnsigned(white + s, digits, tail);
    } else {
      assert s == [sign[0]] + (digits + tail);
      SkipWhiteOf(white, s);
      ScanSigned(white + s, sign[0], digits, tail);
    }
  }
}
