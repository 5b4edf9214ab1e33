/** Every accepted input is a printed syntax tree, whose meaning is the parsed request. */
module HttpSound {
  import opened HttpParser
  import opened HttpGrammar
  import opened HttpComplete

  /** The first character of an accepted input, and what is left to accept. */
  lemma AcceptStep(st: State, req: Request, s: Text, r: Request)
    requires Sound(st, req) && Accepts(st, req, s, r)
    ensures s != [] && s == [s[0]] + s[1..]
    ensures var one := Consume(st, req, s[0]);
            match one.verdict
            case Indeterminate => Accepts(one.state, one.req, s[1..], r)
            case True => s[1..] == [] && one.req == r
            case False => false
  {}

  /** A newline state takes exactly a LF. */
  lemma NewlineSound(st: State, req: Request, s: Text, r: Request)
    requires st == Newline1 || st == Newline2
    requires Sound(st, req) && Accepts(st, req, s, r)
    ensures s != [] && s[0] == LF && s == [LF] + s[1..] && Accepts(LineStart, req, s[1..], r)
  {}

  lemma {:induction false} ValueSound(req: Request, s: Text, r: Request) returns (text: Text, rest: Text)
    requires req.headers != [] && Accepts(Value, req, s, r)
    ensures s == text + CRLF + rest && Printable(text)
    ensures Accepts(LineStart, AddValue(req, text), rest, r)
    decreases |s|
  {
    hide Parse, AddValue;
    AcceptStep(Value, req, s, r);
    if s[0] == CR {
      NewlineSound(Newline2, req, s[1..], r);
      AddValueTwice(req, [], []);
      text, rest := [], s[2..];
      assert s == CRLF + rest && [] + CRLF == CRLF;
    } else {
      var t;
      t, rest := ValueSound(AddValue(req, [s[0]]), s[1..], r);
      AddValueTwice(req, [s[0]], t);
      text := [s[0]] + t;
      assert s == [s[0]] + (t + CRLF + rest) == text + CRLF + rest;
    }
  }

  lemma {:induction false} LwsSound(req: Request, s: Text, r: Request) returns (blanks: Text, text: Text, rest: Text)
    requires req.headers != [] && Accepts(Lws, req, s, r)
    ensures s == blanks + text + CRLF + rest && Blanks(blanks) && Printable(text)
    ensures text != [] ==> text[0] != SP
    ensures Accepts(LineStart, AddValue(req, text), rest, r)
    decreases |s|
  {
    hide Parse, AddValue;
    AcceptStep(Lws, req, s, r);
    if s[0] == CR {
      NewlineSound(Newline2, req, s[1..], r);
      AddValueTwice(req, [], []);
      blanks, text, rest := [], [], s[2..];
      assert s == CRLF + rest && [] + [] + CRLF == CRLF;
    } else if IsBlank(s[0]) {
      var b;
      b, text, rest := LwsSound(req, s[1..], r);
      blanks := [s[0]] + b;
      assert s == [s[0]] + (b + text + CRLF + rest) == blanks + text + CRLF + rest;
    } else {
      var t;
      t, rest := ValueSound(AddValue(req, [s[0]]), s[1..], r);
      AddValueTwice(req, [s[0]], t);
      blanks, text := [], [s[0]] + t;
      assert s == [s[0]] + (t + CRLF + rest) == blanks + text + CRLF + rest;
    }
  }

  lemma AddNameTwice(req: Request, a: Text, b: Text)
    requires req.headers != []
    ensures AddName(AddName(req, a), b) == AddName(req, a + b)
    ensures AddName(req, []) == req
  {
    var last := req.headers[|req.headers| - 1];
    assert last.name + a + b == last.name + (a + b);
    assert last.name + [] == last.name;
  }

  /** From inside a name: the rest of the name, the separator, and an accepted value. */
  lemma {:induction false} NameSound(req: Request, s: Text, r: Request) returns (name: Text, rest: Text)
    requires req.headers != [] && Accepts(Name, req, s, r)
    ensures s == name + SEPARATOR + rest && (forall c <- name :: IsToken(c))
    ensures Accepts(Value, AddName(req, name), rest, r)
    decreases |s|
  {
    hide Parse, AddName;
    AcceptStep(Name, req, s, r);
    if s[0] == COLON {
      AcceptStep(SpaceBeforeValue, req, s[1..], r);
      AddNameTwice(req, [], []);
      name, rest := [], s[2..];
      assert s == SEPARATOR + rest && [] + SEPARATOR == SEPARATOR;
    } else {
      var n;
      n, rest := NameSound(AddName(req, [s[0]]), s[1..], r);
      AddNameTwice(req, [s[0]], n);
      name := [s[0]] + n;
      assert s == [s[0]] + (n + SEPARATOR + rest) == name + SEPARATOR + rest;
    }
  }

  /** A new header line: its name and first value line, and what follows. */
  lemma FieldStartSound(req: Request, s: Text, r: Request) returns (name: Text, value: Text, rest: Text)
    requires Accepts(LineStart, req, s, r)
    requires s != [] && s[0] != CR && !(req.headers != [] && IsBlank(s[0]))
    ensures s == name + SEPARATOR + value + CRLF + rest && Token(name) && Printable(value)
    ensures Accepts(LineStart, req.(headers := req.headers + [Header(name, value)]), rest, r)
  {
    hide Parse;
    AcceptStep(LineStart, req, s, r);
    var c := s[0];
    var req1 := req.(headers := req.headers + [Header([c], [])]);
    hide Consume;
    var n, tail := NameSound(req1, s[1..], r);
    var req2 := AddName(req1, n);
    name := [c] + n;
    assert req2 == req.(headers := req.headers + [Header(name, [])]);
    value, rest := ValueSound(req2, tail, r);
    assert [] + value == value;
    assert AddValue(req2, value) == req.(headers := req.headers + [Header(name, value)]);
    hide AddName, AddValue;
    FieldLineText([c], n, value, rest);
  }

  lemma FieldLineText(first: Text, n: Text, value: Text, rest: Text)
    ensures first + (n + SEPARATOR + (value + CRLF + rest)) == first + n + SEPARATOR + value + CRLF + rest
  {}

  lemma BlankLineSound(req: Request, s: Text, r: Request)
    requires Accepts(LineStart, req, s, r) && s != [] && s[0] == CR
    ensures s == CRLF && r == req
  {
    hide Parse;
    AcceptStep(LineStart, req, s, r);
    AcceptStep(Newline3, req, s[1..], r);
  }

  /** The lines up to the blank one: continuations of the last header so far, then whole fields. */
  lemma {:induction false} LinesSound(req: Request, s: Text, r: Request) returns (folds: seq<Fold>, fields: seq<Field>)
    requires Accepts(LineStart, req, s, r)
    ensures forall f <- folds :: FoldOk(f)
    ensures forall f <- fields :: FieldOk(f)
    ensures req.headers == [] ==> folds == []
    ensures s == PrintFolds(folds) + PrintFields(fields) + CRLF
    ensures req.headers != [] ==>
              r == AddValue(req, FoldTexts(folds)).(headers := AddValue(req, FoldTexts(folds)).headers + HeadersOf(fields))
    ensures req.headers == [] ==> r == req.(headers := HeadersOf(fields))
    decreases |s|
  {
    hide Parse, Consume;
    AcceptStep(LineStart, req, s, r);
    if s[0] == CR {
      BlankLineSound(req, s, r);
      folds, fields := [], [];
      if req.headers != [] {
        AddValueTwice(req, [], []);
        assert req.headers + [] == req.headers;
      }
    } else if req.headers != [] && IsBlank(s[0]) {
      folds, fields := FoldLineSound(req, s, r);
    } else {
      fields := FieldLinesSound(req, s, r);
      folds := [];
      assert PrintFolds([]) + PrintFields(fields) == PrintFields(fields);
      if req.headers != [] {
        AddValueTwice(req, [], []);
      }
    }
  }

  lemma {:induction false} FoldLineSound(req: Request, s: Text, r: Request) returns (folds: seq<Fold>, fields: seq<Field>)
    requires Accepts(LineStart, req, s, r) && req.headers != [] && s != [] && IsBlank(s[0])
    ensures forall f <- folds :: FoldOk(f)
    ensures forall f <- fields :: FieldOk(f)
    ensures s == PrintFolds(folds) + PrintFields(fields) + CRLF
    ensures r == AddValue(req, FoldTexts(folds)).(headers := AddValue(req, FoldTexts(folds)).headers + HeadersOf(fields))
    decreases |s|, 0
  {
    AcceptStep(LineStart, req, s, r);
    hide Parse, Consume, AddValue;
    var blanks, text, rest := LwsSound(req, s[1..], r);
    var f := Fold([s[0]] + blanks, text);
    var folds', fields' := LinesSound(AddValue(req, text), rest, r);
    folds, fields := [f] + folds', fields';
    AddValueTwice(req, text, FoldTexts(folds'));
    assert folds[1..] == folds';
    hide FoldTexts, HeadersOf;
    FoldLineText([s[0]], blanks, text, PrintFolds(folds'), PrintFields(fields));
  }

  lemma FoldLineText(first: Text, blanks: Text, text: Text, x: Text, y: Text)
    ensures first + (blanks + text + CRLF + (x + y + CRLF)) == first + blanks + text + CRLF + x + y + CRLF
  {}

  lemma {:induction false} FieldLinesSound(req: Request, s: Text, r: Request) returns (fields: seq<Field>)
    requires Accepts(LineStart, req, s, r)
    requires s != [] && s[0] != CR && !(req.headers != [] && IsBlank(s[0]))
    ensures forall f <- fields :: FieldOk(f)
    ensures s == PrintFields(fields) + CRLF
    ensures r == req.(headers := req.headers + HeadersOf(fields))
    decreases |s|, 0
  {
    hide Parse, Consume;
    var name, value, rest := FieldStartSound(req, s, r);
    var req1 := req.(headers := req.headers + [Header(name, value)]);
    var folds, fields' := LinesSound(req1, rest, r);
    var f := Field(name, value, folds);
    fields := [f] + fields';
    assert fields[1..] == fields';
    assert AddValue(req1, FoldTexts(folds)).headers == req.headers + [HeaderOf(f)];
    assert req.headers + [HeaderOf(f)] + HeadersOf(fields') == req.headers + HeadersOf(fields);
    assert name + SEPARATOR + value + CRLF + (PrintFolds(folds) + PrintFields(fields') + CRLF)
        == PrintField(f) + PrintFields(fields') + CRLF;
  }

  // ---------------------------------------------------------------------------------------------------------
  // The request line

  lemma {:induction false} MinorSound(req: Request, s: Text, r: Request) returns (digits: Text, rest: Text)
    requires Accepts(Minor, req, s, r)
    ensures s == digits + CRLF + rest && (forall c <- digits :: IsDigit(c))
    ensures Accepts(LineStart, req.(minor := Extend(req.minor, digits)), rest, r)
    decreases |s|
  {
    hide Parse;
    AcceptStep(Minor, req, s, r);
    if s[0] == CR {
      NewlineSound(Newline1, req, s[1..], r);
      digits, rest := [], s[2..];
      assert s == CRLF + rest && [] + CRLF == CRLF;
    } else {
      var d;
      d, rest := MinorSound(req.(minor := req.minor * 10 + s[0] - ZERO), s[1..], r);
      digits := [s[0]] + d;
      assert digits[1..] == d;
      assert s == [s[0]] + (d + CRLF + rest) == digits + CRLF + rest;
    }
  }

  lemma {:induction false} MajorSound(req: Request, s: Text, r: Request) returns (digits: Text, rest: Text)
    requires Accepts(Major, req, s, r)
    ensures s == digits + [DOT] + rest && (forall c <- digits :: IsDigit(c))
    ensures Accepts(MinorStart, req.(major := Extend(req.major, digits)), rest, r)
    decreases |s|
  {
    hide Parse;
    AcceptStep(Major, req, s, r);
    if s[0] == DOT {
      digits, rest := [], s[1..];
      assert [] + [DOT] == [DOT];
    } else {
      var d;
      d, rest := MajorSound(req.(major := req.major * 10 + s[0] - ZERO), s[1..], r);
      digits := [s[0]] + d;
      assert digits[1..] == d;
      assert s == [s[0]] + (d + [DOT] + rest) == digits + [DOT] + rest;
    }
  }

  lemma NumbersSound(req: Request, s: Text, r: Request) returns (major: Text, minor: Text, rest: Text)
    requires Accepts(MajorStart, req, s, r) && req.major == 0 == req.minor
    ensures s == major + [DOT] + minor + CRLF + rest && Digits(major) && Digits(minor)
    ensures Accepts(LineStart, req.(major := Decimal(major), minor := Decimal(minor)), rest, r)
  {
    hide Parse, Decimal;
    AcceptStep(MajorStart, req, s, r);
    var a, tail := MajorSound(req.(major := s[0] - ZERO), s[1..], r);
    major := [s[0]] + a;
    assert major[1..] == a;
    ExtendIsDecimal(major);
    var req1 := req.(major := Decimal(major));
    AcceptStep(MinorStart, req1, tail, r);
    var b;
    b, rest := MinorSound(req1.(minor := tail[0] - ZERO), tail[1..], r);
    minor := [tail[0]] + b;
    assert minor[1..] == b;
    ExtendIsDecimal(minor);
    assert tail == [tail[0]] + (b + CRLF + rest) == minor + CRLF + rest;
    assert s == [s[0]] + (a + [DOT] + tail) == major + [DOT] + (minor + CRLF + rest) == major + [DOT] + minor + CRLF + rest;
  }

  lemma ProtocolSound(req: Request, s: Text, r: Request) returns (rest: Text)
    requires Accepts(VersionH, req, s, r)
    ensures s == PROTOCOL + rest
    ensures Accepts(MajorStart, req.(major := 0, minor := 0), rest, r)
  {
    hide Parse;
    AcceptStep(VersionH, req, s, r);
    AcceptStep(VersionT1, req, s[1..], r);
    AcceptStep(VersionT2, req, s[2..], r);
    AcceptStep(VersionP, req, s[3..], r);
    AcceptStep(VersionSlash, req, s[4..], r);
    rest := s[5..];
  }

  lemma {:induction false} UriSound(req: Request, s: Text, r: Request) returns (uri: Text, rest: Text)
    requires Accepts(Uri, req, s, r)
    ensures s == uri + [SP] + rest && Printable(uri) && SP !in uri
    ensures Accepts(VersionH, req.(uri := req.uri + uri), rest, r)
    decreases |s|
  {
    hide Parse;
    AcceptStep(Uri, req, s, r);
    if s[0] == SP {
      uri, rest := [], s[1..];
      assert [] + [SP] == [SP] && req.uri + [] == req.uri;
    } else {
      var u;
      u, rest := UriSound(req.(uri := req.uri + [s[0]]), s[1..], r);
      uri := [s[0]] + u;
      assert req.uri + [s[0]] + u == req.uri + uri;
      assert s == [s[0]] + (u + [SP] + rest) == uri + [SP] + rest;
    }
  }

  lemma {:induction false} MethodSound(req: Request, s: Text, r: Request) returns (method_: Text, rest: Text)
    requires Accepts(Method, req, s, r)
    ensures s == method_ + [SP] + rest && (forall c <- method_ :: IsToken(c))
    ensures Accepts(Uri, req.(method_ := req.method_ + method_), rest, r)
    decreases |s|
  {
    hide Parse;
    AcceptStep(Method, req, s, r);
    if s[0] == SP {
      method_, rest := [], s[1..];
      assert [] + [SP] == [SP] && req.method_ + [] == req.method_;
    } else {
      var m;
      m, rest := MethodSound(req.(method_ := req.method_ + [s[0]]), s[1..], r);
      method_ := [s[0]] + m;
      assert req.method_ + [s[0]] + m == req.method_ + method_;
      assert s == [s[0]] + (m + [SP] + rest) == method_ + [SP] + rest;
    }
  }

  lemma MethodAndUriSound(req: Request, s: Text, r: Request) returns (method_: Text, uri: Text, rest: Text)
    requires Empty(req) && Accepts(MethodStart, req, s, r)
    ensures s == method_ + [SP] + uri + [SP] + rest
    ensures Token(method_) && Printable(uri) && SP !in uri
    ensures Accepts(VersionH, req.(method_ := method_, uri := uri), rest, r)
  {
    hide Parse;
    AcceptStep(MethodStart, req, s, r);
    var req1 := req.(method_ := [s[0]]);
    assert [] + [s[0]] == [s[0]];
    hide Consume;
    var m, tail := MethodSound(req1, s[1..], r);
    method_ := [s[0]] + m;
    uri, rest := UriSound(req1.(method_ := method_), tail, r);
    assert [] + uri == uri;
    MethodUriText([s[0]], m, uri, rest);
  }

  lemma MethodUriText(first: Text, m: Text, uri: Text, rest: Text)
    ensures first + (m + [SP] + (uri + [SP] + rest)) == first + m + [SP] + uri + [SP] + rest
  {}

  /** Soundness: an accepted input is the printing of a well-formed tree, and the request is its meaning. */
  lemma AcceptedIsPrinted(req: Request, s: Text, r: Request) returns (t: Tree)
    requires Empty(req) && Accepts(MethodStart, req, s, r)
    ensures TreeOk(t) && Print(t) == s && Meaning(t) == r
  {
    hide Parse, Decimal, PrintFields, HeadersOf;
    var method_, uri, s1 := MethodAndUriSound(req, s, r);
    var req1 := req.(method_ := method_, uri := uri);
    var s2 := ProtocolSound(req1, s1, r);
    var major, minor, s3 := NumbersSound(req1.(major := 0, minor := 0), s2, r);
    var req2 := req1.(major := Decimal(major), minor := Decimal(minor));
    var folds, fields := LinesSound(req2, s3, r);
    t := Tree(method_, uri, major, minor, fields);
    assert PrintFolds([]) + PrintFields(fields) + CRLF == PrintFields(fields) + CRLF;
    assert PROTOCOL + (major + [DOT] + minor + CRLF + s3) == PrintVersion(t) + s3;
    assert method_ + [SP] + uri + [SP] + (PrintVersion(t) + s3) == PrintLine(t) + s3;
  }

  /**
   Language equivalence: from a fresh parser and an empty request, the run first says yes after the last character
   of `s`, with request `r`, exactly when `s` is the printing of a well-formed tree with meaning `r`.
  */
  lemma LanguageEquivalence(req: Request, s: Text, r: Request)
    requires Empty(req)
    ensures Accepts(MethodStart, req, s, r) <==> exists t :: TreeOk(t) && Print(t) == s && Meaning(t) == r
  {
    hide Parse, Print, Meaning, TreeOk;
    if Accepts(MethodStart, req, s, r) {
      var t := AcceptedIsPrinted(req, s, r);
    }
    forall t | TreeOk(t) && Print(t) == s && Meaning(t) == r
      ensures Accepts(MethodStart, req, s, r)
    {
      PrintedIsAccepted(req, t);
    }
  }
}
