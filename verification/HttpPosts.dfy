/** POST requests with a form body, from their bytes to the page that answers. */
module HttpPosts {
  import opened Common
  import opened HttpParser
  import opened HttpRequests
  import opened HttpForms
  import LogStream

  const URL_ENCODED := "application/x-www-form-urlencoded"

  /** A POST request whose body is the printed form `ps` and says so. */
  predicate FormRequest(r: Request, ps: seq<Pair>)
  {
    && ps != [] && (forall p :: p in ps ==> Literal(p.key) && Literal(p.value))
    && r.method_ == "POST" && Word(r.target) && Word(r.version) && r.body == PrintForm(ps)
    && (forall f :: f in r.fields ==> WellFormedField(f))
    && var h := HeaderMap(map[], r.fields);
       DeclaredLength(h) == Some(|r.body|) && "Content-Type" in h && h["Content-Type"] == URL_ENCODED
  }

  predicate Has(m: map<string, string>, k: string, v: string)
  {
    k in m && m[k] == v
  }

  /** The page a form is answered with, given everything stored so far. */
  function Verdict(path: string, stored: map<string, string>): string
  {
    if Contains(path, "register.html") then "/welcome.html"
    else if Contains(path, "login.html") && Has(stored, "username", "admin") && Has(stored, "password", "123456")
    then "/welcome.html"
    else "/error.html"
  }

  /** What the lookups of the answer leave: the stored values, and missing credentials as empty ones. */
  predicate Looked(stored: map<string, string>, after: map<string, string>)
  {
    && (forall k :: k in stored ==> k in after && after[k] == stored[k])
    && (forall k :: k in after && k !in stored ==> (k == "username" || k == "password") && after[k] == "")
  }

  lemma UserVerifyVerdict(fs: FileSystem, p: Parser)
    ensures var (p', code) := UserVerify(fs, p);
      && p'.path == Verdict(p.path, p.post)
      && code == (if Verdict(p.path, p.post) in fs then NoRequest else NoResource)
      && Looked(p.post, p'.post)
  {
  }

  /** The outcome of a form request whose head has been read as `p`. */
  predicate Answered(fs: FileSystem, p: Parser, ps: seq<Pair>, r: Parsed, rest: string)
    requires ps != []
  {
    var page := Verdict(p.path, Stored(p.post, ps));
    && r.rest == rest && r.code == (if page in fs then GetRequest else NoResource)
    && r.p.path == page && r.p.method_ == p.method_ && r.p.version == p.version && r.p.header == p.header
    && r.p.body == PrintForm(ps) && Looked(Stored(p.post, ps), r.p.post)
    && (page in fs ==> r.p.phase == Finish && r.p.stat == StatOf(fs[page]))
  }

  /** The body of a form request, with its parser in the header phase. */
  lemma ParseFormEnd(fs: FileSystem, p: Parser, ps: seq<Pair>, rest: string)
    requires p.phase == Header && p.body == "" && p.method_ == "POST"
    requires ps != [] && forall q :: q in ps ==> Literal(q.key) && Literal(q.value)
    requires DeclaredLength(p.header) == Some(|PrintForm(ps)|)
    requires "Content-Type" in p.header && p.header["Content-Type"] == URL_ENCODED
    ensures Answered(fs, p, ps, Parse(fs, p, CRLF + PrintForm(ps) + rest), rest)
  {
    assert ps[0] in ps && PrintForm(ps) != "";
    ParseBlankLine(fs, p, PrintForm(ps), rest);
    BodyOfForm(fs, p.(phase := Body), ps, rest);
  }

  lemma BodyOfForm(fs: FileSystem, p: Parser, ps: seq<Pair>, rest: string)
    requires p.phase == Body && p.body == "" && p.method_ == "POST"
    requires ps != [] && PrintForm(ps) != "" && forall q :: q in ps ==> Literal(q.key) && Literal(q.value)
    requires "Content-Length" in p.header && Stoi(p.header["Content-Length"]) == Some(|PrintForm(ps)|)
    requires "Content-Type" in p.header && p.header["Content-Type"] == URL_ENCODED
    ensures Answered(fs, p, ps, Parse(fs, p, PrintForm(ps) + rest), rest)
  {
    var body := PrintForm(ps);
    assert Stoul(p.header["Content-Length"]) == Some(|body|);
    assert (body + rest)[..|body|] == body && (body + rest)[|body|..] == rest;
    var p1 := p.(body := body);
    assert "" + body == body;
    FormRoundTrip(ps, p.post);
    assert ParsePost(p1) == (p1.(post := Stored(p.post, ps)), NoRequest);
    UserVerifyVerdict(fs, p1.(post := Stored(p.post, ps)));
  }

  /**
   * Form round trip over the wire: the bytes of a form request, followed by anything, are
   * consumed exactly; method, version, headers and body are read back, and the page is the one
   * its pairs decide, on top of what earlier requests of the connection left stored.
   */
  lemma FormRequestRoundTrip(fs: FileSystem, post: map<string, string>, r: Request, ps: seq<Pair>, rest: string)
    requires FormRequest(r, ps) && Servable(fs, Normalise(r.target))
    ensures var d := Parse(fs, Fresh(post), Serialise(r) + rest);
      var page := Verdict(Normalise(r.target), Stored(post, ps));
      && d.rest == rest && d.code == (if page in fs then GetRequest else NoResource)
      && d.p.path == page && d.p.method_ == r.method_ && d.p.version == r.version
      && d.p.header == HeaderMap(map[], r.fields) && d.p.body == r.body && Looked(Stored(post, ps), d.p.post)
      && (page in fs ==> d.p.phase == Finish && d.p.stat == StatOf(fs[page]))
  {
    ParseHead(fs, post, r, rest);
    ParseFormEnd(fs, AfterHead(fs, post, r), ps, rest);
  }

  // ---- Bodies that are no forms ----

  /** A POST request with a body, whatever its type. */
  predicate PostRequest(r: Request)
  {
    && r.method_ == "POST" && Word(r.target) && Word(r.version) && r.body != ""
    && (forall f :: f in r.fields ==> WellFormedField(f))
    && DeclaredLength(HeaderMap(map[], r.fields)) == Some(|r.body|)
  }

  /** The body of a POST request comes whole to the handling of posts. */
  lemma PostBody(fs: FileSystem, post: map<string, string>, r: Request, rest: string)
    requires PostRequest(r) && Servable(fs, Normalise(r.target))
    ensures var p := AfterHead(fs, post, r).(phase := Body);
      && "Content-Length" in p.header && Stoul(p.header["Content-Length"]) == Some(|r.body|)
      && Parse(fs, Fresh(post), Serialise(r) + rest)
         == Parsed(ParseRequestBody(fs, p, r.body).0, rest, ParseRequestBody(fs, p, r.body).1)
  {
    var p := AfterHead(fs, post, r);
    ParseHead(fs, post, r, rest);
    ParseBlankLine(fs, p, r.body, rest);
    BodyTaken(fs, p.(phase := Body), r.body, rest);
  }

  lemma BodyTaken(fs: FileSystem, p: Parser, body: string, rest: string)
    requires p.phase == Body && p.body == "" && "Content-Length" in p.header
    requires Stoi(p.header["Content-Length"]) == Some(|body|)
    ensures Stoul(p.header["Content-Length"]) == Some(|body|)
    ensures Parse(fs, p, body + rest) == Parsed(ParseRequestBody(fs, p, body).0, rest, ParseRequestBody(fs, p, body).1)
  {
    assert (body + rest)[..|body|] == body && (body + rest)[|body|..] == rest;
  }

  /** A body without a Content-Type is a bad request; nothing is stored. */
  lemma PostWithoutType(fs: FileSystem, post: map<string, string>, r: Request, rest: string)
    requires PostRequest(r) && Servable(fs, Normalise(r.target)) && "Content-Type" !in HeaderMap(map[], r.fields)
    ensures var d := Parse(fs, Fresh(post), Serialise(r) + rest);
      d.code == BadRequest && d.rest == rest && d.p.post == post
  {
    PostBody(fs, post, r, rest);
    assert "" + r.body == r.body;
  }

  /** A body of another type is not looked at: the page is decided by what is stored already. */
  lemma PostOfOtherType(fs: FileSystem, post: map<string, string>, r: Request, rest: string)
    requires PostRequest(r) && Servable(fs, Normalise(r.target))
    requires var h := HeaderMap(map[], r.fields); "Content-Type" in h && h["Content-Type"] != URL_ENCODED
    ensures var d := Parse(fs, Fresh(post), Serialise(r) + rest); var page := Verdict(Normalise(r.target), post);
      && d.rest == rest && d.code == (if page in fs then GetRequest else NoResource)
      && d.p.path == page && d.p.body == r.body && Looked(post, d.p.post)
  {
    PostBody(fs, post, r, rest);
    assert "" + r.body == r.body;
    UserVerifyVerdict(fs, AfterHead(fs, post, r).(phase := Body, body := r.body));
  }

  // ---- What earlier requests of the connection leave behind ----

  /** The pairs of a form override what was stored before and leave the rest alone. */
  lemma {:induction false} StoredOver(post: map<string, string>, ps: seq<Pair>)
    ensures Stored(post, ps) == post + Stored(map[], ps)
    decreases |ps|
  {
    if ps != [] {
      var one := map[ps[0].key := ps[0].value];
      StoredOver(post[ps[0].key := ps[0].value], ps[1..]);
      StoredOver(one, ps[1..]);
      assert map[][ps[0].key := ps[0].value] == one;
      assert post[ps[0].key := ps[0].value] + Stored(map[], ps[1..]) == post + (one + Stored(map[], ps[1..]));
    }
  }

  /** The page does not depend on what earlier requests stored. */
  ghost predicate Independent(path: string, ps: seq<Pair>)
  {
    forall a, b :: Verdict(path, Stored(a, ps)) == Verdict(path, Stored(b, ps))
  }

  /** The form gives both credentials, or a wrong one. */
  predicate SpeaksForItself(own: map<string, string>)
  {
    || ("username" in own && "password" in own)
    || ("username" in own && own["username"] != "admin")
    || ("password" in own && own["password"] != "123456")
  }

  const USERNAME := Pair("username", "admin")
  const PASSWORD := Pair("password", "123456")
  const LOGIN := [USERNAME, PASSWORD]

  const ADMIN: map<string, string> := map["username" := "admin", "password" := "123456"]

  lemma LoginStores(post: map<string, string>)
    ensures Stored(post, LOGIN) == post + ADMIN
  {
    assert LOGIN[1..] == [Pair("password", "123456")] && LOGIN[1..][1..] == [];
    assert Stored(post, LOGIN) == Stored(post["username" := "admin"], LOGIN[1..]);
    assert Stored(post["username" := "admin"], LOGIN[1..]) == post["username" := "admin"]["password" := "123456"];
  }

  /**
   * resetState keeps the stored form values.  The page that answers a form is independent of
   * earlier requests exactly when it is not asked for login, or the form gives both
   * credentials, or a wrong one.
   */
  lemma IndependentExactly(path: string, ps: seq<Pair>)
    ensures Independent(path, ps) <==>
      || Contains(path, "register.html") || !Contains(path, "login.html") || SpeaksForItself(Stored(map[], ps))
  {
    var own := Stored(map[], ps);
    if Contains(path, "register.html") || !Contains(path, "login.html") || SpeaksForItself(own) {
      forall a, b
        ensures Verdict(path, Stored(a, ps)) == Verdict(path, Stored(b, ps))
      {
        StoredOver(a, ps);
        StoredOver(b, ps);
      }
    } else {
      StoredOver(map[], ps);
      StoredOver(ADMIN, ps);
      assert Verdict(path, Stored(map[], ps)) != Verdict(path, Stored(ADMIN, ps));
    }
  }

  const OTHER := [Pair("x", "y")]

  lemma OtherStores(post: map<string, string>)
    ensures Stored(post, OTHER) == post["x" := "y"]
  {
    assert OTHER[1..] == [];
  }

  lemma OtherVerdict(path: string, post: map<string, string>)
    requires Contains(path, "login.html") && !Contains(path, "register.html")
    ensures Verdict(path, Stored(post, OTHER))
         == if Has(post, "username", "admin") && Has(post, "password", "123456") then "/welcome.html" else "/error.html"
  {
    OtherStores(post);
  }

  lemma PageOfForm(fs: FileSystem, post: map<string, string>, r: Request, ps: seq<Pair>)
    requires FormRequest(r, ps) && Servable(fs, Normalise(r.target))
    ensures Parse(fs, Fresh(post), Serialise(r)).p.path == Verdict(Normalise(r.target), Stored(post, ps))
    ensures Looked(Stored(post, ps), Parse(fs, Fresh(post), Serialise(r)).p.post)
  {
    assert Serialise(r) + "" == Serialise(r);
    FormRequestRoundTrip(fs, post, r, ps, "");
  }

  /** The request a client sends for a form. */
  function FormPost(target: string, ps: seq<Pair>): Request
    requires ps != []
  {
    Request("POST", target, "1.1", [TYPE_FIELD, LengthField(PrintForm(ps))], PrintForm(ps))
  }

  const TYPE_FIELD := Field("Content-Type", 1, URL_ENCODED)

  function LengthField(body: string): Field
  {
    Field("Content-Length", 1, LogStream.Decimal(|body|))
  }

  lemma DecimalHasNoBreak(n: nat)
    ensures var s := LogStream.Decimal(n); s != "" && s[0] != ' ' && '\r' !in s && '\n' !in s
  {
    LogStream.DigitsRoundTrip(n);
    var s := LogStream.Decimal(n);
    assert forall i :: 0 <= i < |s| ==> LogStream.IsDigit(s[i]);
  }

  lemma LengthHasNoBreak()
    ensures ':' !in "Content-Length" && '\r' !in "Content-Length" && '\n' !in "Content-Length"
  {
  }

  lemma LengthFieldIsWellFormed(body: string)
    ensures WellFormedField(LengthField(body))
  {
    DecimalHasNoBreak(|body|);
    LengthHasNoBreak();
  }

  lemma TwoFieldHeader(f: Field, g: Field)
    ensures HeaderMap(map[], [f, g]) == map[][f.name := f.value][g.name := g.value]
  {
    assert [f, g][1..] == [g] && [g][1..] == [];
    assert HeaderMap(map[], [f, g]) == HeaderMap(map[][f.name := f.value], [g]);
    assert HeaderMap(map[][f.name := f.value], [g]) == HeaderMap(map[][f.name := f.value][g.name := g.value], []);
  }

  lemma NoBreakInParts(a: string, b: string)
    requires '\r' !in a && '\n' !in a && '\r' !in b && '\n' !in b
    ensures '\r' !in a + b && '\n' !in a + b
  {
  }

  lemma NameHasNoBreak()
    ensures ':' !in "Content-Type" && '\r' !in "Content-Type" && '\n' !in "Content-Type"
  {
  }

  lemma TypeHasNoBreak()
    ensures '\r' !in URL_ENCODED && '\n' !in URL_ENCODED
  {
    NoBreakInParts("application/", "x-www-form-");
    NoBreakInParts("application/" + "x-www-form-", "urlencoded");
    assert "application/" + "x-www-form-" + "urlencoded" == URL_ENCODED;
  }

  lemma TypeFieldIsWellFormed()
    ensures WellFormedField(TYPE_FIELD)
  {
    NameHasNoBreak();
    TypeHasNoBreak();
  }

  lemma FormPostIsFormRequest(target: string, ps: seq<Pair>)
    requires Word(target) && ps != [] && forall p :: p in ps ==> Literal(p.key) && Literal(p.value)
    requires |PrintForm(ps)| < 0x8000_0000
    ensures FormRequest(FormPost(target, ps), ps)
  {
    var body := PrintForm(ps);
    TypeFieldIsWellFormed();
    LengthFieldIsWellFormed(body);
    TwoFieldHeader(TYPE_FIELD, LengthField(body));
    DecimalLengthIsRead(|body|);
    assert Word("1.1");
  }

  const LOGIN_PAGE := "/login.html"

  lemma {:induction false} ShorterDoesNotContain(s: string, sub: string)
    requires |s| < |sub|
    ensures !Contains(s, sub)
  {
    if s != "" {
      ShorterDoesNotContain(s[1..], sub);
    }
  }

  lemma LoginPageIsAWord()
    ensures Word(LOGIN_PAGE)
  {
  }

  lemma LoginPage()
    ensures Normalise(LOGIN_PAGE) == LOGIN_PAGE
    ensures Contains(LOGIN_PAGE, "login.html") && !Contains(LOGIN_PAGE, "register.html")
  {
    assert LOGIN_PAGE[6] == '.';
    assert LOGIN_PAGE[1..] == "login.html";
    ShorterDoesNotContain(LOGIN_PAGE, "register.html");
  }

  predicate ShortPair(p: Pair)
  {
    Literal(p.key) && Literal(p.value) && |p.key| <= 8 && |p.value| <= 8
  }

  lemma UsernameIsShort()
    ensures ShortPair(USERNAME)
  {
  }

  lemma PasswordIsShort()
    ensures ShortPair(PASSWORD)
  {
  }

  lemma ShortForm(p: Pair, q: Pair)
    requires ShortPair(p) && ShortPair(q)
    ensures forall x :: x in [p, q] ==> Literal(x.key) && Literal(x.value)
    ensures |PrintForm([p, q])| <= 35
  {
    assert [p, q][1..] == [q];
    assert |PrintForm([q])| == |PrintPair(q)|;
  }

  lemma LoginForm()
    ensures forall p :: p in LOGIN ==> Literal(p.key) && Literal(p.value)
    ensures |PrintForm(LOGIN)| < 0x8000_0000
  {
    UsernameIsShort();
    PasswordIsShort();
    ShortForm(USERNAME, PASSWORD);
  }

  lemma OtherForm()
    ensures forall p :: p in OTHER ==> Literal(p.key) && Literal(p.value)
    ensures |PrintForm(OTHER)| < 0x8000_0000
  {
    assert |PrintForm(OTHER)| == |PrintPair(OTHER[0])| == 3;
  }

  /** What a login on a new connection leaves stored. */
  lemma LoginLeaves(fs: FileSystem)
    requires Servable(fs, LOGIN_PAGE)
    ensures var post := Parse(fs, Fresh(map[]), Serialise(FormPost(LOGIN_PAGE, LOGIN))).p.post;
      Has(post, "username", "admin") && Has(post, "password", "123456")
  {
    LoginPage();
    LoginPageIsAWord();
    LoginForm();
    FormPostIsFormRequest(LOGIN_PAGE, LOGIN);
    PageOfForm(fs, map[], FormPost(LOGIN_PAGE, LOGIN), LOGIN);
    LoginStores(map[]);
  }

  lemma OtherPage(fs: FileSystem, post: map<string, string>)
    requires Servable(fs, LOGIN_PAGE)
    ensures Parse(fs, Fresh(post), Serialise(FormPost(LOGIN_PAGE, OTHER))).p.path
         == if Has(post, "username", "admin") && Has(post, "password", "123456") then "/welcome.html" else "/error.html"
  {
    LoginPage();
    LoginPageIsAWord();
    OtherForm();
    FormPostIsFormRequest(LOGIN_PAGE, OTHER);
    PageOfForm(fs, post, FormPost(LOGIN_PAGE, OTHER), OTHER);
    OtherVerdict(LOGIN_PAGE, post);
  }

  /** A form without credentials is refused on a new connection and welcomed on one that has seen a login. */
  lemma EarlierLoginCounts(fs: FileSystem)
    requires Servable(fs, LOGIN_PAGE)
    ensures Parse(fs, Fresh(map[]), Serialise(FormPost(LOGIN_PAGE, OTHER))).p.path == "/error.html"
    ensures var first := Parse(fs, Fresh(map[]), Serialise(FormPost(LOGIN_PAGE, LOGIN)));
      Parse(fs, Fresh(first.p.post), Serialise(FormPost(LOGIN_PAGE, OTHER))).p.path == "/welcome.html"
  {
    LoginLeaves(fs);
    OtherPage(fs, map[]);
    OtherPage(fs, Parse(fs, Fresh(map[]), Serialise(FormPost(LOGIN_PAGE, LOGIN))).p.post);
  }
}
