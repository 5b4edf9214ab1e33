/** Every printed syntax tree is accepted, and parses to its meaning. */
module HttpComplete {
  import opened HttpParser
  import opened HttpGrammar

  // ---------------------------------------------------------------------------------------------------------
  // Runs of one state

  lemma {:induction false} MethodRuns(req: Request, s: Text)
    requires forall c <- s :: IsToken(c)
    ensures Goes(Method, req, s, Method, req.(method_ := req.method_ + s))
    decreases |s|
  {
    if s == [] {
      assert req.method_ + s == req.method_;
    } else {
      assert s[0] in s;
      var req1 := req.(method_ := req.method_ + [s[0]]);
      MethodRuns(req1, s[1..]);
      assert req1.method_ + s[1..] == req.method_ + s;
    }
  }

  lemma {:induction false} UriRuns(req: Request, s: Text)
    requires Printable(s) && SP !in s
    ensures Goes(Uri, req, s, Uri, req.(uri := req.uri + s))
    decreases |s|
  {
    if s == [] {
      assert req.uri + s == req.uri;
    } else {
      assert s[0] in s;
      var req1 := req.(uri := req.uri + [s[0]]);
      UriRuns(req1, s[1..]);
      assert req1.uri + s[1..] == req.uri + s;
    }
  }

  lemma {:induction false} NameRuns(req: Request, s: Text)
    requires req.headers != [] && forall c <- s :: IsToken(c)
    ensures Goes(Name, req, s, Name, AddName(req, s))
    decreases |s|
  {
    var last := req.headers[|req.headers| - 1];
    if s == [] {
      assert last.name + s == last.name;
      assert AddName(req, s) == req;
    } else {
      assert s[0] in s;
      var req1 := AddName(req, [s[0]]);
      NameRuns(req1, s[1..]);
      assert last.name + [s[0]] + s[1..] == last.name + s;
      assert AddName(req1, s[1..]) == AddName(req, s);
    }
  }

  lemma AddValueTwice(req: Request, a: Text, b: Text)
    requires req.headers != []
    ensures AddValue(AddValue(req, a), b) == AddValue(req, a + b)
    ensures AddValue(req, []) == req
  {
    var last := req.headers[|req.headers| - 1];
    assert last.value + a + b == last.value + (a + b);
    assert last.value + [] == last.value;
  }

  lemma {:induction false} ValueRuns(req: Request, s: Text)
    requires req.headers != [] && Printable(s)
    ensures Goes(Value, req, s, Value, AddValue(req, s))
    decreases |s|
  {
    hide AddValue;
    if s == [] {
      AddValueTwice(req, [], []);
    } else {
      assert s[0] in s;
      ValueRuns(AddValue(req, [s[0]]), s[1..]);
      AddValueTwice(req, [s[0]], s[1..]);
      assert [s[0]] + s[1..] == s;
    }
  }

  lemma {:induction false} LwsRuns(req: Request, s: Text)
    requires req.headers != [] && Blanks(s)
    ensures Goes(Lws, req, s, Lws, req)
    decreases |s|
  {
    if s != [] {
      assert s[0] in s;
      LwsRuns(req, s[1..]);
    }
  }

  /** The value of a number after more digits. */
  function Extend(n: int, digits: Text): int
    decreases |digits|
  {
    if digits == [] then n else Extend(n * 10 + digits[0] - ZERO, digits[1..])
  }

  lemma {:induction false} MajorRuns(req: Request, s: Text)
    requires forall c <- s :: IsDigit(c)
    ensures Goes(Major, req, s, Major, req.(major := Extend(req.major, s)))
    decreases |s|
  {
    if s != [] {
      assert s[0] in s;
      MajorRuns(req.(major := req.major * 10 + s[0] - ZERO), s[1..]);
    }
  }

  lemma {:induction false} MinorRuns(req: Request, s: Text)
    requires forall c <- s :: IsDigit(c)
    ensures Goes(Minor, req, s, Minor, req.(minor := Extend(req.minor, s)))
    decreases |s|
  {
    if s != [] {
      assert s[0] in s;
      MinorRuns(req.(minor := req.minor * 10 + s[0] - ZERO), s[1..]);
    }
  }

  lemma {:induction false} ExtendLast(n: int, s: Text)
    requires s != []
    ensures Extend(n, s) == Extend(n, s[..|s| - 1]) * 10 + s[|s| - 1] - ZERO
    decreases |s|
  {
    if |s| > 1 {
      ExtendLast(n * 10 + s[0] - ZERO, s[1..]);
      assert s[1..][..|s| - 2] == s[..|s| - 1][1..];
    }
  }

  lemma {:induction false} ExtendIsDecimal(s: Text)
    ensures Extend(0, s) == Decimal(s)
    decreases |s|
  {
    if s != [] {
      ExtendLast(0, s);
      ExtendIsDecimal(s[..|s| - 1]);
    }
  }

  // ---------------------------------------------------------------------------------------------------------
  // Header lines

  lemma EndOfLine(st: State, req: Request)
    requires st == Value || st == Lws
    requires Sound(st, req)
    ensures Goes(st, req, CRLF, LineStart, req)
  {
    GoesOne(st, req, CR);
    GoesOne(Newline2, req, LF);
    hide Parse, Consume;
    GoesThenGoes(st, req, [CR], Newline2, req, [LF], LineStart, req);
    assert [CR] + [LF] == CRLF;
  }

  lemma FoldTextRuns(req: Request, text: Text)
    requires req.headers != [] && Printable(text) && (text != [] ==> text[0] != SP)
    ensures Goes(Lws, req, text + CRLF, LineStart, AddValue(req, text))
  {
    if text == [] {
      AddValueTwice(req, [], []);
      EndOfLine(Lws, req);
      assert text + CRLF == CRLF;
    } else {
      var req1 := AddValue(req, [text[0]]);
      assert text[0] in text;
      GoesOne(Lws, req, text[0]);
      ValueRuns(req1, text[1..]);
      var req2 := AddValue(req1, text[1..]);
      EndOfLine(Value, req2);
      AddValueTwice(req, [text[0]], text[1..]);
      hide Parse, Consume, AddValue;
      GoesThenGoes(Lws, req, [text[0]], Value, req1, text[1..], Value, req2);
      assert [text[0]] + text[1..] == text;
      GoesThenGoes(Lws, req, text, Value, req2, CRLF, LineStart, req2);
    }
  }

  lemma FoldRuns(req: Request, f: Fold)
    requires req.headers != [] && FoldOk(f)
    ensures Goes(LineStart, req, f.blanks + f.text + CRLF, LineStart, AddValue(req, f.text))
  {
    assert f.blanks[0] in f.blanks;
    GoesOne(LineStart, req, f.blanks[0]);
    LwsRuns(req, f.blanks[1..]);
    FoldTextRuns(req, f.text);
    hide Parse, Consume, AddValue;
    GoesThenGoes(LineStart, req, [f.blanks[0]], Lws, req, f.blanks[1..], Lws, req);
    assert [f.blanks[0]] + f.blanks[1..] == f.blanks;
    GoesThenGoes(LineStart, req, f.blanks, Lws, req, f.text + CRLF, LineStart, AddValue(req, f.text));
    assert f.blanks + (f.text + CRLF) == f.blanks + f.text + CRLF;
  }

  lemma {:induction false} FoldsRun(req: Request, folds: seq<Fold>)
    requires req.headers != [] && forall f <- folds :: FoldOk(f)
    ensures Goes(LineStart, req, PrintFolds(folds), LineStart, AddValue(req, FoldTexts(folds)))
    decreases |folds|
  {
    hide AddValue, FoldOk;
    if folds == [] {
      AddValueTwice(req, [], []);
    } else {
      var f := folds[0];
      FoldRuns(req, f);
      var req1 := AddValue(req, f.text);
      FoldsRun(req1, folds[1..]);
      hide Parse;
      AddValueTwice(req, f.text, FoldTexts(folds[1..]));
      GoesThenGoes(LineStart, req, f.blanks + f.text + CRLF, LineStart, req1,
                   PrintFolds(folds[1..]), LineStart, AddValue(req, FoldTexts(folds)));
    }
  }

  lemma WholeNameRuns(req: Request, name: Text)
    requires Token(name)
    ensures Goes(LineStart, req, name, Name, req.(headers := req.headers + [Header(name, [])]))
  {
    var c := name[0];
    assert c in name && [c] + name[1..] == name;
    var req1 := req.(headers := req.headers + [Header([c], [])]);
    var req2 := req.(headers := req.headers + [Header(name, [])]);
    GoesOne(LineStart, req, c);
    hide Parse, Consume;
    NameRuns(req1, name[1..]);
    assert AddName(req1, name[1..]) == req2;
    hide AddName;
    GoesThenGoes(LineStart, req, [c], Name, req1, name[1..], Name, req2);
  }

  lemma SeparatorRuns(req: Request)
    requires req.headers != []
    ensures Goes(Name, req, SEPARATOR, Value, req)
  {
    GoesOne(Name, req, COLON);
    GoesOne(SpaceBeforeValue, req, SP);
    hide Parse, Consume;
    GoesThenGoes(Name, req, [COLON], SpaceBeforeValue, req, [SP], Value, req);
    assert [COLON] + [SP] == SEPARATOR;
  }

  lemma NameAndValueRun(req: Request, name: Text, value: Text)
    requires Token(name) && Printable(value)
    ensures Goes(LineStart, req, name + SEPARATOR + value + CRLF, LineStart,
                 req.(headers := req.headers + [Header(name, value)]))
  {
    var req2 := req.(headers := req.headers + [Header(name, [])]);
    var req3 := req.(headers := req.headers + [Header(name, value)]);
    assert [] + value == value;
    assert AddValue(req2, value) == req3;
    hide Parse, AddValue;
    WholeNameRuns(req, name);
    SeparatorRuns(req2);
    ValueRuns(req2, value);
    EndOfLine(Value, req3);
    GoesThenGoes(LineStart, req, name, Name, req2, SEPARATOR, Value, req2);
    GoesThenGoes(LineStart, req, name + SEPARATOR, Value, req2, value, Value, req3);
    GoesThenGoes(LineStart, req, name + SEPARATOR + value, Value, req3, CRLF, LineStart, req3);
  }

  lemma FieldRuns(req: Request, f: Field)
    requires FieldOk(f)
    ensures Goes(LineStart, req, PrintField(f), LineStart, req.(headers := req.headers + [HeaderOf(f)]))
  {
    var req1 := req.(headers := req.headers + [Header(f.name, f.value)]);
    NameAndValueRun(req, f.name, f.value);
    FoldsRun(req1, f.folds);
    assert AddValue(req1, FoldTexts(f.folds)) == req.(headers := req.headers + [HeaderOf(f)]);
    hide Parse, FoldTexts, PrintFolds;
    GoesThenGoes(LineStart, req, f.name + SEPARATOR + f.value + CRLF, LineStart, req1,
                 PrintFolds(f.folds), LineStart, req.(headers := req.headers + [HeaderOf(f)]));
  }

  lemma {:induction false} FieldsRun(req: Request, fields: seq<Field>)
    requires forall f <- fields :: FieldOk(f)
    ensures Goes(LineStart, req, PrintFields(fields), LineStart, req.(headers := req.headers + HeadersOf(fields)))
    decreases |fields|
  {
    hide FieldOk, PrintField, HeaderOf;
    if fields == [] {
      assert req.headers + HeadersOf(fields) == req.headers;
    } else {
      var req1 := req.(headers := req.headers + [HeaderOf(fields[0])]);
      FieldRuns(req, fields[0]);
      FieldsRun(req1, fields[1..]);
      assert req1.headers + HeadersOf(fields[1..]) == req.headers + HeadersOf(fields);
      hide Parse;
      GoesThenGoes(LineStart, req, PrintField(fields[0]), LineStart, req1,
                   PrintFields(fields[1..]), LineStart, req.(headers := req.headers + HeadersOf(fields)));
    }
  }

  /** A header block in the shape `Reply::ToBuffers` prints, folded or not, is read back as its headers. */
  lemma BlockAccepted(req: Request, fields: seq<Field>)
    requires forall f <- fields :: FieldOk(f)
    ensures Accepts(LineStart, req, PrintFields(fields) + CRLF, req.(headers := req.headers + HeadersOf(fields)))
  {
    hide FieldOk, PrintFields, HeadersOf;
    var req1 := req.(headers := req.headers + HeadersOf(fields));
    FieldsRun(req, fields);
    BlankLineAccepted(req1);
    hide Parse, Consume;
    GoesThenAccepts(LineStart, req, PrintFields(fields), LineStart, req1, CRLF, req1);
  }

  lemma BlankLineAccepted(req: Request)
    ensures Accepts(LineStart, req, CRLF, req)
  {}

  // ---------------------------------------------------------------------------------------------------------
  // The request line

  lemma ProtocolRuns(req: Request)
    ensures Goes(VersionH, req, PROTOCOL, MajorStart, req.(major := 0, minor := 0))
  {
    GoesOne(VersionH, req, 'H' as int);
    GoesOne(VersionT1, req, 'T' as int);
    GoesOne(VersionT2, req, 'T' as int);
    GoesOne(VersionP, req, 'P' as int);
    GoesOne(VersionSlash, req, SLASH);
    hide Parse, Consume;
    GoesThenGoes(VersionH, req, ['H' as int], VersionT1, req, ['T' as int], VersionT2, req);
    GoesThenGoes(VersionH, req, ['H' as int] + ['T' as int], VersionT2, req, ['T' as int], VersionP, req);
    GoesThenGoes(VersionH, req, ['H' as int] + ['T' as int] + ['T' as int], VersionP, req, ['P' as int], VersionSlash, req);
    GoesThenGoes(VersionH, req, ['H' as int] + ['T' as int] + ['T' as int] + ['P' as int], VersionSlash, req,
                 [SLASH], MajorStart, req.(major := 0, minor := 0));
    assert ['H' as int] + ['T' as int] + ['T' as int] + ['P' as int] + [SLASH] == PROTOCOL;
  }

  lemma MajorNumberRuns(req: Request, a: Text)
    requires Digits(a) && req.major == 0
    ensures Goes(MajorStart, req, a, Major, req.(major := Decimal(a)))
  {
    assert a[0] in a && [a[0]] + a[1..] == a;
    var req1 := req.(major := a[0] - ZERO);
    GoesOne(MajorStart, req, a[0]);
    MajorRuns(req1, a[1..]);
    ExtendIsDecimal(a);
    hide Parse, Consume, Decimal;
    GoesThenGoes(MajorStart, req, [a[0]], Major, req1, a[1..], Major, req.(major := Decimal(a)));
  }

  lemma MinorNumberRuns(req: Request, b: Text)
    requires Digits(b) && req.minor == 0
    ensures Goes(MinorStart, req, b, Minor, req.(minor := Decimal(b)))
  {
    assert b[0] in b && [b[0]] + b[1..] == b;
    var req1 := req.(minor := b[0] - ZERO);
    GoesOne(MinorStart, req, b[0]);
    MinorRuns(req1, b[1..]);
    ExtendIsDecimal(b);
    hide Parse, Consume, Decimal;
    GoesThenGoes(MinorStart, req, [b[0]], Minor, req1, b[1..], Minor, req.(minor := Decimal(b)));
  }

  lemma VersionLineEnds(req: Request)
    ensures Goes(Minor, req, CRLF, LineStart, req)
  {
    GoesOne(Minor, req, CR);
    GoesOne(Newline1, req, LF);
    hide Parse, Consume;
    GoesThenGoes(Minor, req, [CR], Newline1, req, [LF], LineStart, req);
    assert [CR] + [LF] == CRLF;
  }

  lemma VersionRuns(req: Request, t: Tree)
    requires Digits(t.major) && Digits(t.minor)
    ensures Goes(VersionH, req, PrintVersion(t), LineStart, req.(major := Decimal(t.major), minor := Decimal(t.minor)))
  {
    var a, b := t.major, t.minor;
    var req0 := req.(major := 0, minor := 0);
    var req1 := req0.(major := Decimal(a));
    var req2 := req1.(minor := Decimal(b));
    GoesOne(Major, req1, DOT);
    hide Parse, Consume, Decimal, Digits;
    ProtocolRuns(req);
    MajorNumberRuns(req0, a);
    MinorNumberRuns(req1, b);
    VersionLineEnds(req2);
    GoesThenGoes(VersionH, req, PROTOCOL, MajorStart, req0, a, Major, req1);
    GoesThenGoes(VersionH, req, PROTOCOL + a, Major, req1, [DOT], MinorStart, req1);
    GoesThenGoes(VersionH, req, PROTOCOL + a + [DOT], MinorStart, req1, b, Minor, req2);
    GoesThenGoes(VersionH, req, PROTOCOL + a + [DOT] + b, Minor, req2, CRLF, LineStart, req2);
  }

  lemma MethodAndUriRun(req: Request, method_: Text, uri: Text)
    requires Empty(req) && Token(method_) && Printable(uri) && SP !in uri
    ensures Goes(MethodStart, req, method_ + [SP] + uri + [SP], VersionH, req.(method_ := method_, uri := uri))
  {
    var c := method_[0];
    assert c in method_ && [] + [c] == [c];
    var req1, req2, req3 := req.(method_ := [c]), req.(method_ := method_), req.(method_ := method_, uri := uri);
    GoesOne(MethodStart, req, c);
    MethodRuns(req1, method_[1..]);
    GoesOne(Method, req2, SP);
    UriRuns(req2, uri);
    GoesOne(Uri, req3, SP);
    assert [c] + method_[1..] == method_ && [] + uri == uri;
    hide Parse, Consume;
    GoesThenGoes(MethodStart, req, [c], Method, req1, method_[1..], Method, req2);
    GoesThenGoes(MethodStart, req, method_, Method, req2, [SP], Uri, req2);
    GoesThenGoes(MethodStart, req, method_ + [SP], Uri, req2, uri, Uri, req3);
    GoesThenGoes(MethodStart, req, method_ + [SP] + uri, Uri, req3, [SP], VersionH, req3);
  }

  lemma LineRuns(req: Request, t: Tree)
    requires Empty(req) && TreeOk(t)
    ensures Goes(MethodStart, req, PrintLine(t), LineStart, Meaning(t).(headers := []))
  {
    var req1 := req.(method_ := t.method_, uri := t.uri);
    MethodAndUriRun(req, t.method_, t.uri);
    VersionRuns(req1, t);
    hide Parse, PrintVersion, Decimal;
    GoesThenGoes(MethodStart, req, t.method_ + [SP] + t.uri + [SP], VersionH, req1,
                 PrintVersion(t), LineStart, Meaning(t).(headers := []));
  }

  /** Completeness: every printed tree is accepted at its last character, and the request is its meaning. */
  lemma PrintedIsAccepted(req: Request, t: Tree)
    requires Empty(req) && TreeOk(t)
    ensures Accepts(MethodStart, req, Print(t), Meaning(t))
  {
    hide PrintLine, PrintFields, HeadersOf, Decimal;
    var req1 := Meaning(t).(headers := []);
    LineRuns(req, t);
    BlockAccepted(req1, t.fields);
    assert [] + HeadersOf(t.fields) == HeadersOf(t.fields);
    hide Parse;
    GoesThenAccepts(MethodStart, req, PrintLine(t), LineStart, req1, PrintFields(t.fields) + CRLF, Meaning(t));
  }
}
