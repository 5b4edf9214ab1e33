/** Canonical printing, its inverse, and header folding. */
module HttpCanonical {
  import opened HttpParser
  import opened HttpGrammar
  import opened HttpComplete
  import opened HttpSound
  import opened HttpUnambiguous

  // ---------------------------------------------------------------------------------------------------------
  // Numbers

  function DigitsOf(n: nat): Text {
    if n < 10 then [ZERO + n] else DigitsOf(n / 10) + [ZERO + n % 10]
  }

  predicate NoLeadingZero(digits: Text) {
    digits != [] && (|digits| == 1 || digits[0] != ZERO)
  }

  lemma {:induction false} DecimalOfDigits(n: nat)
    ensures Digits(DigitsOf(n)) && NoLeadingZero(DigitsOf(n))
    ensures Decimal(DigitsOf(n)) == n
    ensures n > 0 ==> DigitsOf(n)[0] != ZERO
  {
    if n < 10 {
      assert DigitsOf(n)[..0] == [];
    } else {
      DecimalOfDigits(n / 10);
      var d := DigitsOf(n);
      assert d[..|d| - 1] == DigitsOf(n / 10);
    }
  }

  lemma {:induction false} DigitsOfDecimal(d: Text)
    requires Digits(d) && NoLeadingZero(d)
    ensures Decimal(d) >= 0 && DigitsOf(Decimal(d)) == d
    ensures d[0] != ZERO ==> Decimal(d) > 0
    decreases |d|
  {
    var init, last := d[..|d| - 1], d[|d| - 1];
    assert last in d && d == init + [last];
    if init == [] {
      assert Decimal(init) == 0;
    } else {
      assert init[0] == d[0];
      DigitsOfDecimal(init);
      assert Decimal(d) / 10 == Decimal(init) && Decimal(d) % 10 == last - ZERO;
    }
  }

  // ---------------------------------------------------------------------------------------------------------
  // Requests and plain trees

  predicate HeaderOk(h: Header) {
    Token(h.name) && Printable(h.value)
  }

  predicate RequestOk(req: Request) {
    && Token(req.method_)
    && Printable(req.uri) && SP !in req.uri
    && 0 <= req.major && 0 <= req.minor
    && forall h <- req.headers :: HeaderOk(h)
  }

  function PlainFields(headers: seq<Header>): seq<Field> {
    if headers == [] then [] else [Field(headers[0].name, headers[0].value, [])] + PlainFields(headers[1..])
  }

  function PlainTree(req: Request): Tree
    requires RequestOk(req)
  {
    Tree(req.method_, req.uri, DigitsOf(req.major), DigitsOf(req.minor), PlainFields(req.headers))
  }

  function CanonicalPrint(req: Request): Text
    requires RequestOk(req)
  {
    Print(PlainTree(req))
  }

  /** No folded lines and no leading zeros. */
  predicate Plain(t: Tree) {
    NoLeadingZero(t.major) && NoLeadingZero(t.minor) && forall f <- t.fields :: f.folds == []
  }

  lemma {:induction false} PlainFieldsOk(headers: seq<Header>)
    requires forall h <- headers :: HeaderOk(h)
    ensures forall f <- PlainFields(headers) :: FieldOk(f) && f.folds == []
    ensures HeadersOf(PlainFields(headers)) == headers
  {
    if headers != [] {
      assert headers[0] in headers;
      PlainFieldsOk(headers[1..]);
      var f := Field(headers[0].name, headers[0].value, []);
      assert PlainFields(headers)[1..] == PlainFields(headers[1..]);
      assert f.value + FoldTexts([]) == f.value;
      assert HeaderOf(f) == headers[0];
      assert headers == [headers[0]] + headers[1..];
    }
  }

  lemma {:induction false} FieldsOfPlain(fields: seq<Field>)
    requires forall f <- fields :: FieldOk(f) && f.folds == []
    ensures PlainFields(HeadersOf(fields)) == fields
  {
    if fields != [] {
      var f := fields[0];
      assert f in fields;
      FieldsOfPlain(fields[1..]);
      assert f.value + FoldTexts(f.folds) == f.value;
      assert HeadersOf(fields)[1..] == HeadersOf(fields[1..]);
      assert fields == [f] + fields[1..];
    }
  }

  lemma PlainTreeOk(req: Request)
    requires RequestOk(req)
    ensures TreeOk(PlainTree(req)) && Plain(PlainTree(req)) && Meaning(PlainTree(req)) == req
  {
    DecimalOfDigits(req.major);
    DecimalOfDigits(req.minor);
    PlainFieldsOk(req.headers);
  }

  /** Print then parse: every well-formed request comes back from its canonical printing. */
  lemma ParseOfPrint(empty: Request, req: Request)
    requires Empty(empty) && RequestOk(req)
    ensures Accepts(MethodStart, empty, CanonicalPrint(req), req)
  {
    hide TreeOk, Plain, Print, Meaning, Parse;
    PlainTreeOk(req);
    PrintedIsAccepted(empty, PlainTree(req));
  }

  lemma {:induction false} HeadersOk(fields: seq<Field>)
    requires forall f <- fields :: FieldOk(f)
    ensures forall h <- HeadersOf(fields) :: HeaderOk(h)
  {
    if fields != [] {
      assert fields[0] in fields;
      FoldTextsPrintable(fields[0].folds);
      HeadersOk(fields[1..]);
    }
  }

  lemma {:induction false} FoldTextsPrintable(folds: seq<Fold>)
    requires forall f <- folds :: FoldOk(f)
    ensures Printable(FoldTexts(folds))
  {
    if folds != [] {
      assert folds[0] in folds;
      FoldTextsPrintable(folds[1..]);
    }
  }

  lemma {:induction false} DecimalNonNegative(d: Text)
    requires forall c <- d :: IsDigit(c)
    ensures 0 <= Decimal(d)
    decreases |d|
  {
    if d != [] {
      assert d[|d| - 1] in d;
      DecimalNonNegative(d[..|d| - 1]);
    }
  }

  lemma MeaningOk(t: Tree)
    requires TreeOk(t)
    ensures RequestOk(Meaning(t))
  {
    HeadersOk(t.fields);
    DecimalNonNegative(t.major);
    DecimalNonNegative(t.minor);
  }

  lemma PlainIsItsMeaning(t: Tree)
    requires TreeOk(t) && RequestOk(Meaning(t)) && Plain(t)
    ensures PlainTree(Meaning(t)) == t
  {
    DigitsOfDecimal(t.major);
    DigitsOfDecimal(t.minor);
    FieldsOfPlain(t.fields);
  }

  /**
   Parse then print: an accepted input is the canonical printing of what it parses to exactly when it has no folded
   header line and no leading zero in its version. `t` is the input's only tree.
  */
  lemma PrintOfParse(empty: Request, s: Text, r: Request) returns (t: Tree)
    requires Empty(empty) && Accepts(MethodStart, empty, s, r)
    ensures TreeOk(t) && Print(t) == s && (forall t' :: TreeOk(t') && Print(t') == s ==> t' == t)
    ensures RequestOk(r) && (CanonicalPrint(r) == s <==> Plain(t))
  {
    hide Parse, Print, Meaning, TreeOk, Plain, RequestOk, PlainTree;
    t := AcceptedIsPrinted(empty, s, r);
    forall t' | TreeOk(t') && Print(t') == s
      ensures t' == t
    {
      PrintIsInjective(t, t');
    }
    MeaningOk(t);
    if Plain(t) {
      PlainIsItsMeaning(t);
    }
    PlainTreeOk(r);
  }

  // ---------------------------------------------------------------------------------------------------------
  // Folding

  function Unfold(f: Field): Field {
    Field(f.name, f.value + FoldTexts(f.folds), [])
  }

  function UnfoldAll(fields: seq<Field>): seq<Field> {
    if fields == [] then [] else [Unfold(fields[0])] + UnfoldAll(fields[1..])
  }

  lemma {:induction false} UnfoldKeeps(fields: seq<Field>)
    requires forall f <- fields :: FieldOk(f)
    ensures forall f <- UnfoldAll(fields) :: FieldOk(f) && f.folds == []
    ensures HeadersOf(UnfoldAll(fields)) == HeadersOf(fields)
  {
    if fields != [] {
      var f := fields[0];
      assert f in fields;
      FoldTextsPrintable(f.folds);
      UnfoldKeeps(fields[1..]);
      assert Unfold(f).value + FoldTexts([]) == Unfold(f).value;
      assert UnfoldAll(fields)[1..] == UnfoldAll(fields[1..]);
    }
  }

  /**
   Folding does not show in the request: a request whose headers are folded in any way parses to the same request
   as the one with every value on a single line, the continuation texts joined on without their leading blanks.
  */
  lemma FoldingIsInvisible(empty: Request, t: Tree)
    requires Empty(empty) && TreeOk(t)
    ensures Accepts(MethodStart, empty, Print(t), Meaning(t))
    ensures Accepts(MethodStart, empty, Print(t.(fields := UnfoldAll(t.fields))), Meaning(t))
    ensures forall f <- UnfoldAll(t.fields) :: f.folds == []
  {
    hide Parse, Print;
    UnfoldKeeps(t.fields);
    PrintedIsAccepted(empty, t);
    PrintedIsAccepted(empty, t.(fields := UnfoldAll(t.fields)));
  }
}
