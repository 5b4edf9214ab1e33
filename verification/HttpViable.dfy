/**
 When the parser gives up, and a request read from end to end: it refuses an input at the first character after which
 no continuation could be accepted, and not before.
*/
module HttpViable {
  import opened HttpParser
  import opened HttpGrammar
  import opened HttpComplete

  /** A character that brings a state closer to the end of the request. */
  function Lead(st: State): Char {
    match st
    case MethodStart => 'A' as int
    case Method | Uri | SpaceBeforeValue => SP
    case UriStart | VersionSlash => SLASH
    case VersionH => 'H' as int
    case VersionT1 | VersionT2 => 'T' as int
    case VersionP => 'P' as int
    case MajorStart | MinorStart => ZERO
    case Major => DOT
    case Name => COLON
    case Minor | LineStart | Lws | Value => CR
    case Newline1 | Newline2 | Newline3 => LF
  }

  /** How many characters are needed. */
  function ToGo(st: State): nat {
    match st
    case MethodStart => 17
    case Method => 16
    case UriStart => 16
    case Uri => 15
    case VersionH => 14
    case VersionT1 => 13
    case VersionT2 => 12
    case VersionP => 11
    case VersionSlash => 10
    case MajorStart => 9
    case Major => 8
    case MinorStart => 7
    case Minor => 6
    case Name => 6
    case SpaceBeforeValue => 5
    case Newline1 => 3
    case Lws => 4
    case Value => 4
    case Newline2 => 3
    case LineStart => 2
    case Newline3 => 1
  }

  /** From every state some input is accepted. */
  lemma {:induction false} CanFinish(st: State, req: Request) returns (t: Text, r: Request)
    requires Sound(st, req)
    ensures t != [] && Accepts(st, req, t, r)
    decreases ToGo(st)
  {
    var one := Consume(st, req, Lead(st));
    if st.Newline3? {
      t, r := [LF], req;
    } else {
      GoesOne(st, req, Lead(st));
      var rest;
      rest, r := CanFinish(one.state, one.req);
      GoesThenAccepts(st, req, [Lead(st)], one.state, one.req, rest, r);
      t := [Lead(st)] + rest;
    }
  }

  /** Some longer input is accepted. */
  ghost predicate Viable(req: Request, s: Text) {
    exists t: Text, r: Request :: t != [] && Accepts(MethodStart, req, s + t, r)
  }

  /** Some beginning of the input is accepted. */
  ghost predicate Done(req: Request, s: Text) {
    exists k: nat, r: Request :: k <= |s| && Accepts(MethodStart, req, s[..k], r)
  }

  /**
   The three verdicts, for every input: the parser asks for more exactly as long as there is something to wait for,
   has said yes exactly if it has seen a whole request, and has said no exactly if neither is the case.
  */
  lemma VerdictIsExact(req: Request, s: Text)
    ensures Parse(MethodStart, req, s).verdict.Indeterminate? <==> Viable(req, s)
    ensures Parse(MethodStart, req, s).verdict.True? <==> Done(req, s)
  {
    hide Parse;
    var p := Parse(MethodStart, req, s);
    if p.verdict.Indeterminate? {
      var t, r := CanFinish(p.state, p.req);
      GoesThenAccepts(MethodStart, req, s, p.state, p.req, t, r);
    }
    if Viable(req, s) {
      var t, r :| t != [] && Accepts(MethodStart, req, s + t, r);
      ParseConcat(MethodStart, req, s, t);
    }
    if p.verdict.True? {
      StopsAtVerdict(MethodStart, req, s);
      assert Accepts(MethodStart, req, s[..p.used], p.req);
    }
    if Done(req, s) {
      var k: nat, r :| k <= |s| && Accepts(MethodStart, req, s[..k], r);
      ParseConcat(MethodStart, req, s[..k], s[k..]);
      assert s == s[..k] + s[k..];
    }
  }

  /** What a final verdict was reached on. */
  lemma {:induction false} StopsAtVerdict(st: State, req: Request, s: Text)
    requires Sound(st, req) && !Parse(st, req, s).verdict.Indeterminate?
    ensures Parse(st, req, s[..Parse(st, req, s).used]) == Parse(st, req, s)
    decreases |s|
  {
    var one := Consume(st, req, s[0]);
    var p := Parse(st, req, s);
    assert s[..p.used][0] == s[0] && s[..p.used][1..] == s[1..][..p.used - 1];
    if one.verdict.Indeterminate? {
      StopsAtVerdict(one.state, one.req, s[1..]);
    }
  }

  function Code(c: char): Char {
    if c < 128 as char then c as int else 0
  }

  /** Plain ASCII as the parser sees it. */
  function Ascii(s: string): Text {
    seq(|s|, i requires 0 <= i < |s| => Code(s[i]))
  }

  lemma AsciiConcat(a: string, b: string)
    ensures Ascii(a + b) == Ascii(a) + Ascii(b)
  {}

  lemma Punctuation()
    ensures CRLF == Ascii("\r\n") && SEPARATOR == Ascii(": ") && PROTOCOL == Ascii("HTTP/")
    ensures [SP] == Ascii(" ") && [DOT] == Ascii(".") && [HT] == Ascii("\t") && Ascii("") == []
  {}

  lemma LineOfText(t: Tree, m: string, u: string, a: string, b: string)
    requires t.method_ == Ascii(m) && t.uri == Ascii(u) && t.major == Ascii(a) && t.minor == Ascii(b)
    ensures PrintLine(t) == Ascii(m + " " + u + " " + ("HTTP/" + a + "." + b + "\r\n"))
  {
    Punctuation();
    hide Ascii;
    AsciiConcat("HTTP/", a);
    AsciiConcat("HTTP/" + a, ".");
    AsciiConcat("HTTP/" + a + ".", b);
    AsciiConcat("HTTP/" + a + "." + b, "\r\n");
    AsciiConcat(m, " ");
    AsciiConcat(m + " ", u);
    AsciiConcat(m + " " + u, " ");
    AsciiConcat(m + " " + u + " ", "HTTP/" + a + "." + b + "\r\n");
  }

  lemma FieldOfText(f: Field, n: string, v: string)
    requires f.name == Ascii(n) && f.value == Ascii(v)
    ensures PrintField(f) == Ascii(n + ": " + v + "\r\n") + PrintFolds(f.folds)
  {
    Punctuation();
    hide Ascii;
    AsciiConcat(n, ": ");
    AsciiConcat(n + ": ", v);
    AsciiConcat(n + ": " + v, "\r\n");
  }

  lemma FoldOfText(f: Fold, text: string)
    requires f == Fold([HT], Ascii(text))
    ensures PrintFolds([f]) == Ascii("\t" + text + "\r\n")
  {
    Punctuation();
    hide Ascii;
    AsciiConcat("\t", text);
    AsciiConcat("\t" + text, "\r\n");
    assert PrintFolds([f][1..]) == [];
  }

  /** An everyday request, character by character, with two headers, the second of them folded. */
  lemma EverydayRequest(empty: Request)
    requires Empty(empty)
    ensures Accepts(MethodStart, empty, Ascii("GET / HTTP/1.0\r\nA: b\r\nC: d\r\n\te\r\n\r\n"),
                    Request(Ascii("GET"), Ascii("/"), 1, 0,
                            [Header(Ascii("A"), Ascii("b")), Header(Ascii("C"), Ascii("d") + Ascii("e"))]))
  {
    var fold := Fold([HT], Ascii("e"));
    var one, two := Field(Ascii("A"), Ascii("b"), []), Field(Ascii("C"), Ascii("d"), [fold]);
    var t := Tree(Ascii("GET"), Ascii("/"), Ascii("1"), Ascii("0"), [one, two]);
    assert TreeOk(t);
    assert Decimal(t.major) == 1 && Decimal(t.minor) == 0 by {
      ExtendIsDecimal(t.major);
      ExtendIsDecimal(t.minor);
    }
    EverydayPrint(t, one, two, fold);
    EverydayMeaning(one, two, fold);
    hide Accepts;
    PrintedIsAccepted(empty, t);
  }

  lemma EverydayMeaning(one: Field, two: Field, fold: Fold)
    requires one.folds == [] && two.folds == [fold]
    ensures HeadersOf([one, two]) == [Header(one.name, one.value), Header(two.name, two.value + fold.text)]
  {
    assert [one, two][1..] == [two] && HeadersOf([two][1..]) == [];
    assert FoldTexts([fold][1..]) == [];
    assert fold.text + [] == fold.text && one.value + [] == one.value;
  }

  lemma EverydayPrint(t: Tree, one: Field, two: Field, fold: Fold)
    requires fold == Fold([HT], Ascii("e"))
    requires one == Field(Ascii("A"), Ascii("b"), []) && two == Field(Ascii("C"), Ascii("d"), [fold])
    requires t == Tree(Ascii("GET"), Ascii("/"), Ascii("1"), Ascii("0"), [one, two])
    ensures Print(t) == Ascii("GET / HTTP/1.0\r\nA: b\r\nC: d\r\n\te\r\n\r\n")
  {
    Punctuation();
    hide Ascii, PrintLine, PrintField;
    var l, f, g, h, e := "GET / HTTP/1.0\r\n", "A: b\r\n", "C: d\r\n", "\te\r\n", "\r\n";
    assert "GET" + " " + "/" + " " + ("HTTP/" + "1" + "." + "0" + "\r\n") == l;
    LineOfText(t, "GET", "/", "1", "0");
    assert "A" + ": " + "b" + "\r\n" == f && "C" + ": " + "d" + "\r\n" == g && "\t" + "e" + "\r\n" == h;
    FieldOfText(one, "A", "b");
    FieldOfText(two, "C", "d");
    FoldOfText(fold, "e");
    assert [one, two][1..] == [two] && PrintFields([two][1..]) == [];
    assert PrintFields(t.fields) == Ascii(f) + (Ascii(g) + Ascii(h));
    AsciiConcat(g, h);
    AsciiConcat(f, g + h);
    AsciiConcat(f + (g + h), e);
    AsciiConcat(l, f + (g + h) + e);
    assert l + (f + (g + h) + e) == "GET / HTTP/1.0\r\nA: b\r\nC: d\r\n\te\r\n\r\n";
  }
}
