/** Form bodies of POST requests: what the decoder stores for a printed form. */
module HttpForms {
  import opened Common
  import opened HttpParser
  import LogStream

  datatype Pair = Pair(key: string, value: string)

  /** Characters the decoder takes literally, and the space, which is printed as a plus sign. */
  predicate Literal(s: string)
  {
    s != "" && forall i :: 0 <= i < |s| ==> s[i] != '=' && s[i] != '&' && s[i] != '+' && s[i] != '%'
  }

  function PrintChar(c: char): char
  {
    if c == ' ' then '+' else c
  }

  function PrintText(s: string): (r: string)
    ensures |r| == |s| && forall i :: 0 <= i < |s| ==> r[i] == PrintChar(s[i])
  {
    if s == "" then "" else [PrintChar(s[0])] + PrintText(s[1..])
  }

  function PrintPair(p: Pair): string
  {
    PrintText(p.key) + "=" + PrintText(p.value)
  }

  function PrintForm(ps: seq<Pair>): string
    requires ps != []
  {
    if |ps| == 1 then PrintPair(ps[0]) else PrintPair(ps[0]) + "&" + PrintForm(ps[1..])
  }

  /** Later pairs replace earlier ones. */
  function Stored(post: map<string, string>, ps: seq<Pair>): map<string, string>
    decreases |ps|
  {
    if ps == [] then post else Stored(post[ps[0].key := ps[0].value], ps[1..])
  }

  function Start(post: map<string, string>): Form
  {
    Form("", "", false, post)
  }

  // ---- Texts in which any characters are escaped ----

  /** A character taken literally, or one escaped by two hexadecimal digits of either case. */
  datatype Unit = Plain(c: char) | Escape(hi: char, lo: char)

  predicate ValidUnit(u: Unit)
  {
    match u
    case Plain(c) => c != '=' && c != '&' && c != '+' && c != '%'
    case Escape(hi, lo) => HexValue(hi).Some? && HexValue(lo).Some?
  }

  /** What is sent for it, what the decoder stores for it, and what it stands for. */
  function UnitText(u: Unit): string
  {
    match u
    case Plain(c) => [PrintChar(c)]
    case Escape(hi, lo) => ['%', hi, lo]
  }

  function UnitStored(u: Unit): string
  {
    match u
    case Plain(c) => [c]
    case Escape(hi, lo) => LogStream.Decimal(StrtolHex(hi, lo))
  }

  function UnitMeant(u: Unit): char
    requires ValidUnit(u)
  {
    match u
    case Plain(c) => c
    case Escape(hi, lo) => (16 * HexValue(hi).value + HexValue(lo).value) as char
  }

  predicate ValidText(us: seq<Unit>)
  {
    forall i :: 0 <= i < |us| ==> ValidUnit(us[i])
  }

  function Text(us: seq<Unit>): string
  {
    if us == [] then "" else UnitText(us[0]) + Text(us[1..])
  }

  function TextStored(us: seq<Unit>): string
  {
    if us == [] then "" else UnitStored(us[0]) + TextStored(us[1..])
  }

  function TextMeant(us: seq<Unit>): (s: string)
    requires ValidText(us)
    ensures |s| == |us|
  {
    if us == [] then "" else [UnitMeant(us[0])] + TextMeant(us[1..])
  }

  predicate NoEscape(us: seq<Unit>)
  {
    forall i :: 0 <= i < |us| ==> us[i].Plain?
  }

  lemma DecodeUnit(body: string, i: nat, u: Unit, f: Form, end: nat)
    requires ValidUnit(u) && end == i + |UnitText(u)| <= |body| && body[i..end] == UnitText(u)
    ensures DecodeForm(body, i, f) == DecodeForm(body, end, AddText(f, UnitStored(u)))
  {
    var slice := body[i..end];
    assert body[i] == slice[0];
    if u.Escape? {
      assert body[i + 1] == slice[1] && body[i + 2] == slice[2];
    }
  }

  lemma AddTextJoins(f: Form, a: string, b: string)
    ensures AddText(AddText(f, a), b) == AddText(f, a + b)
    ensures AddText(f, "") == f
  {
    assert f.key + a + b == f.key + (a + b) && f.value + a + b == f.value + (a + b);
    assert f.key + "" == f.key && f.value + "" == f.value;
  }

  lemma TwoSlices(body: string, i: nat, a: string, b: string, mid: nat, end: nat)
    requires mid == i + |a| && end == mid + |b| <= |body| && body[i..end] == a + b
    ensures body[i..mid] == a && body[mid..end] == b
  {
    var slice := body[i..end];
    assert body[i..mid] == slice[..|a|];
    assert body[mid..end] == slice[|a|..];
  }

  /** The decoder reads a text unit by unit. */
  lemma {:induction false} DecodeText(body: string, i: nat, us: seq<Unit>, f: Form, end: nat)
    requires ValidText(us) && end == i + |Text(us)| <= |body| && body[i..end] == Text(us)
    ensures DecodeForm(body, i, f) == DecodeForm(body, end, AddText(f, TextStored(us)))
    decreases |us|
  {
    if us == [] {
      AddTextJoins(f, "", "");
    } else {
      var mid := i + |UnitText(us[0])|;
      TwoSlices(body, i, UnitText(us[0]), Text(us[1..]), mid, end);
      DecodeUnit(body, i, us[0], f, mid);
      DecodeText(body, mid, us[1..], AddText(f, UnitStored(us[0])), end);
      AddTextJoins(f, UnitStored(us[0]), TextStored(us[1..]));
    }
  }

  // ---- Forms ----

  datatype TextPair = TextPair(key: seq<Unit>, value: seq<Unit>)

  predicate ValidPair(p: TextPair)
  {
    ValidText(p.key) && ValidText(p.value) && p.key != [] && p.value != []
  }

  function PairText(p: TextPair): string
  {
    Text(p.key) + "=" + Text(p.value)
  }

  function FormText(ps: seq<TextPair>): string
    requires ps != []
  {
    if |ps| == 1 then PairText(ps[0]) else PairText(ps[0]) + "&" + FormText(ps[1..])
  }

  function PairStored(p: TextPair): Pair
  {
    Pair(TextStored(p.key), TextStored(p.value))
  }

  function PairsStored(ps: seq<TextPair>): (rs: seq<Pair>)
    ensures |rs| == |ps| && forall i :: 0 <= i < |ps| ==> rs[i] == PairStored(ps[i])
  {
    if ps == [] then [] else [PairStored(ps[0])] + PairsStored(ps[1..])
  }

  predicate ValidForm(ps: seq<TextPair>)
  {
    ps != [] && forall i :: 0 <= i < |ps| ==> ValidPair(ps[i])
  }

  lemma {:induction false} StoredIsNotEmpty(us: seq<Unit>)
    requires us != [] && ValidText(us)
    ensures TextStored(us) != ""
  {
    UnitStoredLength(us[0]);
  }

  lemma KeyThenValue(body: string, i: nat, a: string, b: string, mid: nat, end: nat)
    requires mid == i + |a| && end == mid + 1 + |b| <= |body| && body[i..end] == a + "=" + b
    ensures body[i..mid] == a && body[mid] == '=' && body[mid + 1..end] == b
  {
    var slice := body[i..end];
    assert body[i..mid] == slice[..|a|];
    assert body[mid] == slice[|a|];
    assert body[mid + 1..end] == slice[|a| + 1..];
  }

  lemma DecodeKey(body: string, i: nat, key: seq<Unit>, post: map<string, string>, mid: nat)
    requires ValidText(key) && mid == i + |Text(key)| < |body| && body[i..mid] == Text(key) && body[mid] == '='
    ensures DecodeForm(body, i, Start(post)) == DecodeForm(body, mid + 1, Form(TextStored(key), "", true, post))
  {
    DecodeText(body, i, key, Start(post), mid);
    assert "" + TextStored(key) == TextStored(key);
  }

  lemma DecodeValue(body: string, i: nat, key: string, value: seq<Unit>, post: map<string, string>, end: nat)
    requires ValidText(value) && end == i + |Text(value)| <= |body| && body[i..end] == Text(value)
    ensures DecodeForm(body, i, Form(key, "", true, post)) == DecodeForm(body, end, Form(key, TextStored(value), true, post))
  {
    DecodeText(body, i, value, Form(key, "", true, post), end);
    assert "" + TextStored(value) == TextStored(value);
  }

  lemma DecodePair(body: string, i: nat, p: TextPair, post: map<string, string>, end: nat)
    requires ValidText(p.key) && ValidText(p.value) && end == i + |PairText(p)| <= |body| && body[i..end] == PairText(p)
    ensures DecodeForm(body, i, Start(post)) == DecodeForm(body, end, Form(TextStored(p.key), TextStored(p.value), true, post))
  {
    var mid := i + |Text(p.key)|;
    KeyThenValue(body, i, Text(p.key), Text(p.value), mid, end);
    DecodeParts(body, i, p.key, p.value, post, mid, mid + 1, end);
  }

  lemma DecodeParts(body: string, i: nat, key: seq<Unit>, value: seq<Unit>, post: map<string, string>,
                    mid: nat, next: nat, end: nat)
    requires ValidText(key) && mid == i + |Text(key)| < |body| && body[i..mid] == Text(key) && body[mid] == '='
    requires ValidText(value) && next == mid + 1 && end == next + |Text(value)| <= |body| && body[next..end] == Text(value)
    ensures DecodeForm(body, i, Start(post)) == DecodeForm(body, end, Form(TextStored(key), TextStored(value), true, post))
  {
    DecodeKey(body, i, key, post, mid);
    DecodeValue(body, next, TextStored(key), value, post, end);
  }

  lemma PairThenForm(body: string, i: nat, a: string, b: string, end: nat)
    requires i <= |body| && body[i..] == a + "&" + b && end == i + |a|
    ensures end < |body| && body[i..end] == a && body[end] == '&' && body[end + 1..] == b
  {
    var tail := body[i..];
    assert body[i..end] == tail[..|a|];
    assert body[end] == tail[|a|];
    assert body[end + 1..] == tail[|a| + 1..];
  }

  lemma DecodeLast(body: string, i: nat, p: TextPair, post: map<string, string>)
    requires ValidPair(p) && i <= |body| && body[i..] == PairText(p)
    ensures DecodeForm(body, i, Start(post)) == (post[TextStored(p.key) := TextStored(p.value)], true)
  {
    assert body[i..|body|] == body[i..];
    DecodePair(body, i, p, post, |body|);
    StoredIsNotEmpty(p.key);
    StoredIsNotEmpty(p.value);
  }

  lemma DecodeNext(body: string, i: nat, p: TextPair, later: string, post: map<string, string>, end: nat)
    requires ValidPair(p) && i <= |body| && body[i..] == PairText(p) + "&" + later && end == i + |PairText(p)|
    ensures end < |body| && body[end + 1..] == later
    ensures DecodeForm(body, i, Start(post))
         == DecodeForm(body, end + 1, Start(post[TextStored(p.key) := TextStored(p.value)]))
  {
    PairThenForm(body, i, PairText(p), later, end);
    DecodePair(body, i, p, post, end);
    StoredIsNotEmpty(p.key);
    StoredIsNotEmpty(p.value);
  }

  lemma DecodeFirst(body: string, i: nat, ps: seq<TextPair>, post: map<string, string>, one: map<string, string>,
                    end: nat, next: nat)
    requires ValidForm(ps) && |ps| > 1 && i <= |body| && body[i..] == FormText(ps)
    requires one == post[TextStored(ps[0].key) := TextStored(ps[0].value)] && end == i + |PairText(ps[0])| && next == end + 1
    ensures next <= |body| && body[next..] == FormText(ps[1..])
    ensures DecodeForm(body, i, Start(post)) == DecodeForm(body, next, Start(one))
  {
    FormTextSplits(ps);
    DecodeNext(body, i, ps[0], FormText(ps[1..]), post, end);
  }

  lemma DecodeOnly(body: string, i: nat, ps: seq<TextPair>, post: map<string, string>)
    requires ValidForm(ps) && |ps| == 1 && i <= |body| && body[i..] == FormText(ps)
    ensures DecodeForm(body, i, Start(post)) == (Stored(post, PairsStored(ps)), true)
  {
    StoredFirst(post, ps);
    DecodeLast(body, i, ps[0], post);
  }

  /** A form, read from position `i` to the end, is accepted and its decoded pairs are stored in order. */
  lemma {:induction false} DecodePairs(body: string, i: nat, ps: seq<TextPair>, post: map<string, string>)
    requires ValidForm(ps) && i <= |body| && body[i..] == FormText(ps)
    ensures DecodeForm(body, i, Start(post)) == (Stored(post, PairsStored(ps)), true)
    decreases |ps|
  {
    if |ps| == 1 {
      DecodeOnly(body, i, ps, post);
    } else {
      var one := post[TextStored(ps[0].key) := TextStored(ps[0].value)];
      var end := i + |PairText(ps[0])|;
      var next := end + 1;
      DecodeFirst(body, i, ps, post, one, end, next);
      DecodePairs(body, next, ps[1..], one);
      StoredFirst(post, ps);
    }
  }

  lemma FormTextSplits(ps: seq<TextPair>)
    requires |ps| > 1
    ensures FormText(ps) == PairText(ps[0]) + "&" + FormText(ps[1..])
  {
  }

  lemma StoredFirst(post: map<string, string>, ps: seq<TextPair>)
    requires ps != []
    ensures var one := post[TextStored(ps[0].key) := TextStored(ps[0].value)];
      && Stored(post, PairsStored(ps)) == Stored(one, PairsStored(ps[1..]))
      && (|ps| == 1 ==> Stored(post, PairsStored(ps)) == one)
  {
    assert PairsStored(ps)[1..] == PairsStored(ps[1..]);
  }

  // ---- Forms without escapes ----

  function Plains(s: string): (us: seq<Unit>)
    ensures |us| == |s| && forall i :: 0 <= i < |s| ==> us[i] == Plain(s[i])
  {
    seq(|s|, i requires 0 <= i < |s| => Plain(s[i]))
  }

  function PlainPair(p: Pair): TextPair
  {
    TextPair(Plains(p.key), Plains(p.value))
  }

  function PlainPairs(ps: seq<Pair>): (rs: seq<TextPair>)
    ensures |rs| == |ps| && forall i :: 0 <= i < |ps| ==> rs[i] == PlainPair(ps[i])
  {
    seq(|ps|, i requires 0 <= i < |ps| => PlainPair(ps[i]))
  }

  lemma {:induction false} PlainText(s: string)
    ensures Text(Plains(s)) == PrintText(s) && TextStored(Plains(s)) == s
  {
    if s != "" {
      assert Plains(s)[1..] == Plains(s[1..]);
      PlainText(s[1..]);
      assert [s[0]] + s[1..] == s;
    }
  }

  lemma PlainPairText(p: Pair)
    ensures PairText(PlainPair(p)) == PrintPair(p) && PairStored(PlainPair(p)) == p
  {
    PlainText(p.key);
    PlainText(p.value);
  }

  lemma {:induction false} PlainFormText(ps: seq<Pair>)
    requires ps != []
    ensures FormText(PlainPairs(ps)) == PrintForm(ps)
    decreases |ps|
  {
    PlainPairText(ps[0]);
    if |ps| > 1 {
      assert PlainPairs(ps)[1..] == PlainPairs(ps[1..]);
      PlainFormText(ps[1..]);
    }
  }

  lemma PlainFormStored(ps: seq<Pair>)
    ensures PairsStored(PlainPairs(ps)) == ps
  {
    forall i | 0 <= i < |ps|
      ensures PairsStored(PlainPairs(ps))[i] == ps[i]
    {
      PlainPairText(ps[i]);
    }
  }

  /** Form round trip: the decoder accepts every printed form and stores exactly its pairs, the last of each key. */
  lemma FormRoundTrip(ps: seq<Pair>, post: map<string, string>)
    requires ps != [] && forall p :: p in ps ==> Literal(p.key) && Literal(p.value)
    ensures DecodeForm(PrintForm(ps), 0, Start(post)) == (Stored(post, ps), true)
  {
    var rs := PlainPairs(ps);
    forall i | 0 <= i < |rs|
      ensures ValidPair(rs[i])
    {
      assert ps[i] in ps;
    }
    PlainFormText(ps);
    PlainFormStored(ps);
    assert PrintForm(ps)[0..] == PrintForm(ps);
    DecodePairs(PrintForm(ps), 0, rs, post);
  }

  // ---- Exactly when a text survives ----

  lemma UnitStoredLength(u: Unit)
    requires ValidUnit(u)
    ensures |UnitStored(u)| >= 1
    ensures UnitStored(u) == [UnitMeant(u)] <==> u.Plain?
    ensures |UnitStored(u)| == 1 && u.Escape? ==> UnitStored(u)[0] != UnitMeant(u)
  {
    if u.Escape? {
      var n := 16 * HexValue(u.hi).value + HexValue(u.lo).value;
      if n < 10 {
        assert LogStream.Decimal(n) == [LogStream.Digit(n)];
      } else {
        assert LogStream.Decimal(n) == LogStream.Digits(n / 10) + [LogStream.Digit(n % 10)];
      }
    }
  }

  lemma {:induction false} TextGrows(us: seq<Unit>)
    requires ValidText(us)
    ensures |TextStored(us)| >= |us|
  {
    if us != [] {
      UnitStoredLength(us[0]);
      TextGrows(us[1..]);
    }
  }

  /**
   * A text is stored as what it stands for exactly when nothing in it is escaped: an escape
   * makes it longer or puts a digit in the place of a control character.
   */
  lemma {:induction false} TextSurvivesExactly(us: seq<Unit>)
    requires ValidText(us)
    ensures TextStored(us) == TextMeant(us) <==> NoEscape(us)
  {
    if us != [] {
      var u, rest := us[0], us[1..];
      UnitStoredLength(u);
      TextGrows(rest);
      TextSurvivesExactly(rest);
      assert NoEscape(us) <==> u.Plain? && NoEscape(rest) by {
        assert us == [u] + rest;
      }
      if u.Plain? {
        assert TextStored(us)[1..] == TextStored(rest) && TextMeant(us)[1..] == TextMeant(rest);
      } else if |UnitStored(u)| == 1 {
        assert TextStored(us)[0] != TextMeant(us)[0];
      } else {
        assert |TextStored(us)| > |TextMeant(us)|;
      }
    }
  }

  function PairMeant(p: TextPair): Pair
    requires ValidPair(p)
  {
    Pair(TextMeant(p.key), TextMeant(p.value))
  }

  predicate NoEscapes(ps: seq<TextPair>)
  {
    forall i :: 0 <= i < |ps| ==> NoEscape(ps[i].key) && NoEscape(ps[i].value)
  }

  /**
   * Whatever characters of a form are escaped, it is accepted and the decimal texts of the
   * escapes are stored; every pair is the one that was meant exactly when nothing is escaped.
   */
  lemma EscapedForm(ps: seq<TextPair>, post: map<string, string>)
    requires ValidForm(ps)
    ensures DecodeForm(FormText(ps), 0, Start(post)) == (Stored(post, PairsStored(ps)), true)
    ensures (forall i :: 0 <= i < |ps| ==> PairsStored(ps)[i] == PairMeant(ps[i])) <==> NoEscapes(ps)
  {
    assert FormText(ps)[0..] == FormText(ps);
    DecodePairs(FormText(ps), 0, ps, post);
    forall i | 0 <= i < |ps|
      ensures PairsStored(ps)[i] == PairMeant(ps[i]) <==> NoEscape(ps[i].key) && NoEscape(ps[i].value)
    {
      TextSurvivesExactly(ps[i].key);
      TextSurvivesExactly(ps[i].value);
    }
  }

  /** A form of one pair leaves a fresh connection with the pair that was meant exactly when nothing is escaped. */
  lemma EscapedPair(p: TextPair)
    requires ValidPair(p)
    ensures DecodeForm(PairText(p), 0, Start(map[])) == (map[TextMeant(p.key) := TextMeant(p.value)], true)
       <==> NoEscape(p.key) && NoEscape(p.value)
  {
    assert PairText(p)[0..] == PairText(p);
    DecodeLast(PairText(p), 0, p, map[]);
    TextSurvivesExactly(p.key);
    TextSurvivesExactly(p.value);
    var stored := map[TextStored(p.key) := TextStored(p.value)];
    assert TextStored(p.key) in stored && stored[TextStored(p.key)] == TextStored(p.value);
  }

  // ---- Forms one after the other, and forms that are cut off ----

  /** A form that is accepted leaves the decoder, behind the `&` that follows it, at the start of the next pair. */
  lemma {:induction false} AcceptedThen(a: string, later: string, i: nat, f: Form)
    requires i <= |a| && DecodeForm(a, i, f).1
    ensures DecodeForm(a + "&" + later, i, f)
         == DecodeForm(a + "&" + later, |a| + 1, Start(DecodeForm(a, i, f).0))
    decreases |a| - i
  {
    var body := a + "&" + later;
    if i < |a| {
      assert body[i] == a[i];
      if a[i] == '=' {
        AcceptedThen(a, later, i + 1, f.(inValue := true));
      } else if a[i] == '&' {
        AcceptedThen(a, later, i + 1, Start(f.post[f.key := f.value]));
      } else if a[i] == '+' {
        AcceptedThen(a, later, i + 1, AddText(f, " "));
      } else if a[i] == '%' {
        assert body[i + 1] == a[i + 1] && body[i + 2] == a[i + 2];
        AcceptedThen(a, later, i + 3, AddText(f, LogStream.Decimal(StrtolHex(a[i + 1], a[i + 2]))));
      } else {
        AcceptedThen(a, later, i + 1, AddText(f, [a[i]]));
      }
    }
  }

  /** Text of one pair: no separator, and every escape complete. */
  predicate Whole(text: string)
  {
    text == "" ||
    if text[0] == '%' then |text| >= 3 && Whole(text[3..]) else text[0] != '&' && Whole(text[1..])
  }

  /** An escape that the end of the body cuts off. */
  predicate Cut(escape: string)
  {
    1 <= |escape| <= 2 && escape[0] == '%'
  }

  lemma {:induction false} CutInPair(body: string, i: nat, text: string, escape: string, f: Form)
    requires i <= |body| && body[i..] == text + escape && Whole(text) && Cut(escape)
    ensures DecodeForm(body, i, f) == (f.post, false)
    decreases |text|
  {
    assert forall k :: 0 <= k < |body| - i ==> body[i + k] == body[i..][k];
    if text != "" {
      assert body[i] == text[0];
      if text[0] == '%' {
        assert body[i + 3..] == text[3..] + escape;
        CutInPair(body, i + 3, text[3..], escape, AddText(f, LogStream.Decimal(StrtolHex(body[i + 1], body[i + 2]))));
      } else {
        assert body[i + 1..] == text[1..] + escape;
        var f' :=
          if text[0] == '=' then f.(inValue := true)
          else if text[0] == '+' then AddText(f, " ")
          else AddText(f, [text[0]]);
        CutInPair(body, i + 1, text[1..], escape, f');
      }
    }
  }

  /**
   * A form whose last pair has a cut-off escape is rejected as a whole, and exactly the pairs
   * of the accepted form in front of it, if there is one, have been stored.
   */
  lemma CutEscapeRejects(front: string, text: string, escape: string, post: map<string, string>)
    requires front == "" || DecodeForm(front, 0, Start(post)).1
    requires Whole(text) && Cut(escape)
    ensures var body := if front == "" then text + escape else front + "&" + (text + escape);
      DecodeForm(body, 0, Start(post)) == (DecodeForm(front, 0, Start(post)).0, false)
  {
    var tail := text + escape;
    if front == "" {
      assert tail[0..] == tail;
      CutInPair(tail, 0, text, escape, Start(post));
    } else {
      var body := front + "&" + tail;
      AcceptedThen(front, tail, 0, Start(post));
      assert body[|front| + 1..] == tail;
      CutInPair(body, |front| + 1, text, escape, Start(DecodeForm(front, 0, Start(post)).0));
    }
  }

  // ---- Pairs with an empty part ----

  /** A pair whose key or value is empty. */
  predicate HalfPair(p: TextPair)
  {
    ValidText(p.key) && ValidText(p.value) && (p.key == [] || p.value == [])
  }

  /** A half pair at position `i`, up to the end of the body or an ampersand, ends the decoding. */
  lemma HalfPairStops(body: string, i: nat, p: TextPair, post: map<string, string>, end: nat)
    requires HalfPair(p) && end == i + |PairText(p)| <= |body| && body[i..end] == PairText(p)
    requires end == |body| || body[end] == '&'
    ensures DecodeForm(body, i, Start(post)) == (post, false)
  {
    DecodePair(body, i, p, post, end);
  }

  /** The text behind a pair: nothing, or an ampersand and anything. */
  predicate Behind(later: string)
  {
    later == "" || later[0] == '&'
  }

  lemma HalfPairAt(body: string, i: nat, p: TextPair, later: string, post: map<string, string>)
    requires HalfPair(p) && Behind(later) && i <= |body| && body[i..] == PairText(p) + later
    ensures DecodeForm(body, i, Start(post)) == (post, false)
  {
    var end := i + |PairText(p)|;
    assert body[i..end] == body[i..][..|PairText(p)|] == PairText(p);
    assert end < |body| ==> body[end] == body[i..][|PairText(p)|];
    HalfPairStops(body, i, p, post, end);
  }

  /**
   * A form with a pair whose key or value is empty is rejected there, whatever comes behind, and
   * exactly the pairs of the accepted form in front of it, if there is one, have been stored.
   */
  lemma HalfPairRejects(front: string, p: TextPair, later: string, post: map<string, string>)
    requires front == "" || DecodeForm(front, 0, Start(post)).1
    requires HalfPair(p) && Behind(later)
    ensures var body := if front == "" then PairText(p) + later else front + "&" + (PairText(p) + later);
      DecodeForm(body, 0, Start(post)) == (DecodeForm(front, 0, Start(post)).0, false)
  {
    var tail := PairText(p) + later;
    if front == "" {
      assert tail[0..] == tail;
      HalfPairAt(tail, 0, p, later, post);
    } else {
      var body := front + "&" + tail;
      AcceptedThen(front, tail, 0, Start(post));
      assert body[|front| + 1..] == tail;
      HalfPairAt(body, |front| + 1, p, later, DecodeForm(front, 0, Start(post)).0);
    }
  }

  /** So is a pair without an equals sign. */
  lemma KeyAlone(body: string, i: nat, key: seq<Unit>, later: string, post: map<string, string>)
    requires ValidText(key) && Behind(later) && i <= |body| && body[i..] == Text(key) + later
    ensures DecodeForm(body, i, Start(post)) == (post, false)
  {
    var end := i + |Text(key)|;
    assert body[i..end] == body[i..][..|Text(key)|] == Text(key);
    assert end < |body| ==> body[end] == body[i..][|Text(key)|];
    DecodeText(body, i, key, Start(post), end);
  }

  lemma KeyAloneRejects(front: string, key: seq<Unit>, later: string, post: map<string, string>)
    requires front == "" || DecodeForm(front, 0, Start(post)).1
    requires ValidText(key) && Behind(later)
    ensures var body := if front == "" then Text(key) + later else front + "&" + (Text(key) + later);
      DecodeForm(body, 0, Start(post)) == (DecodeForm(front, 0, Start(post)).0, false)
  {
    var tail := Text(key) + later;
    if front == "" {
      assert tail[0..] == tail;
      KeyAlone(tail, 0, key, later, post);
    } else {
      var body := front + "&" + tail;
      AcceptedThen(front, tail, 0, Start(post));
      assert body[|front| + 1..] == tail;
      KeyAlone(body, |front| + 1, key, later, DecodeForm(front, 0, Start(post)).0);
    }
  }
}
