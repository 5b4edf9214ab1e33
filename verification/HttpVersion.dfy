/**
 What the parser has read of the request line in every reachable state, and when the arithmetic on the version
 numbers, which are C++ ints, stays in range.
*/
module HttpVersion {
  import opened Octets
  import opened HttpParser
  import opened HttpGrammar
  import opened HttpComplete

  /** The request line up to the version numbers. */
  function Front(t: Tree): Text {
    t.method_ + [SP] + t.uri + [SP] + PROTOCOL
  }

  predicate FrontOk(t: Tree) {
    Token(t.method_) && Printable(t.uri) && SP !in t.uri
  }

  /** The letters of the protocol's name that have been read in a state. */
  function ProtocolRead(st: State): nat {
    match st
    case VersionT1 => 1
    case VersionT2 => 2
    case VersionP => 3
    case VersionSlash => 4
    case _ => 0
  }

  predicate BeforeVersion(st: State) {
    || st.MethodStart? || st.Method? || st.UriStart? || st.Uri?
    || st.VersionH? || st.VersionT1? || st.VersionT2? || st.VersionP? || st.VersionSlash?
  }

  /** The text `s` has brought the machine to `st` with the parts `t` of a request line in the request. */
  predicate LineRead(st: State, req: Request, s: Text, t: Tree) {
    && req.method_ == t.method_ && req.uri == t.uri
    && (!BeforeVersion(st) ==> FrontOk(t) && req.major == Decimal(t.major) && req.minor == Decimal(t.minor))
    && match st
       case MethodStart => s == t.method_ == t.uri == []
       case Method => s == t.method_ && Token(s) && t.uri == []
       case UriStart => false
       case Uri => s == t.method_ + [SP] + t.uri && FrontOk(t)
       case VersionH => s == t.method_ + [SP] + t.uri + [SP] && FrontOk(t)
       case VersionT1 => s == t.method_ + [SP] + t.uri + [SP] + PROTOCOL[..1] && FrontOk(t)
       case VersionT2 => s == t.method_ + [SP] + t.uri + [SP] + PROTOCOL[..2] && FrontOk(t)
       case VersionP => s == t.method_ + [SP] + t.uri + [SP] + PROTOCOL[..3] && FrontOk(t)
       case VersionSlash => s == t.method_ + [SP] + t.uri + [SP] + PROTOCOL[..4] && FrontOk(t)
       case MajorStart => s == Front(t) && t.major == t.minor == []
       case Major => s == Front(t) + t.major && Digits(t.major) && t.minor == []
       case MinorStart => s == Front(t) + t.major + [DOT] && Digits(t.major) && t.minor == []
       case Minor => s == Front(t) + t.major + [DOT] + t.minor && Digits(t.major) && Digits(t.minor)
       case _ => IsPrefix(Front(t) + t.major + [DOT] + t.minor + [CR], s) && Digits(t.major) && Digits(t.minor)
  }

  lemma DecimalSnoc(d: Text, c: Char)
    ensures Decimal(d + [c]) == Decimal(d) * 10 + c - ZERO
  {
    assert (d + [c])[..|d|] == d;
  }

  lemma NameStep(st: State, req: Request, s: Text, t: Tree, c: Char) returns (u: Tree)
    requires Sound(st, req) && LineRead(st, req, s, t) && (st.MethodStart? || st.Method? || st.Uri?)
    requires Consume(st, req, c).verdict.Indeterminate?
    ensures LineRead(Consume(st, req, c).state, Consume(st, req, c).req, s + [c], u)
  {
    u := if st.Uri? && c != SP then t.(uri := t.uri + [c])
         else if st.Uri? || c == SP then t
         else t.(method_ := t.method_ + [c]);
  }

  lemma ProtocolStep(st: State, req: Request, s: Text, t: Tree, c: Char) returns (u: Tree)
    requires Sound(st, req) && LineRead(st, req, s, t)
    requires st.VersionH? || st.VersionT1? || st.VersionT2? || st.VersionP? || st.VersionSlash?
    requires Consume(st, req, c).verdict.Indeterminate?
    ensures LineRead(Consume(st, req, c).state, Consume(st, req, c).req, s + [c], u)
  {
    u := if st.VersionSlash? then t.(major := [], minor := []) else t;
    var n := ProtocolRead(st);
    assert PROTOCOL[..n + 1] == PROTOCOL[..n] + [c];
    assert PROTOCOL[..5] == PROTOCOL && PROTOCOL[..0] == [];
  }

  lemma NumberStep(st: State, req: Request, s: Text, t: Tree, c: Char) returns (u: Tree)
    requires Sound(st, req) && LineRead(st, req, s, t)
    requires st.MajorStart? || st.Major? || st.MinorStart? || st.Minor?
    requires Consume(st, req, c).verdict.Indeterminate?
    ensures LineRead(Consume(st, req, c).state, Consume(st, req, c).req, s + [c], u)
  {
    hide Decimal;
    DecimalSnoc(t.major, c);
    DecimalSnoc(t.minor, c);
    u := if !IsDigit(c) then t
         else if st.MajorStart? || st.Major? then t.(major := t.major + [c])
         else t.(minor := t.minor + [c]);
    assert Front(u) == Front(t);
    assert Front(t) + t.major + [c] == Front(t) + (t.major + [c]);
    assert Front(t) + t.major + [DOT] + t.minor + [c] == Front(t) + t.major + [DOT] + (t.minor + [c]);
  }

  lemma LaterStep(st: State, req: Request, s: Text, t: Tree, c: Char)
    requires Sound(st, req) && LineRead(st, req, s, t) && PastVersion(st)
    requires Consume(st, req, c).verdict.Indeterminate?
    ensures LineRead(Consume(st, req, c).state, Consume(st, req, c).req, s + [c], t)
  {
    hide Decimal, Front, FrontOk;
  }

  /** States after the version line, which do no arithmetic and are never left for ones that do. */
  predicate PastVersion(st: State) {
    || st.Newline1? || st.LineStart? || st.Lws? || st.Name?
    || st.SpaceBeforeValue? || st.Value? || st.Newline2? || st.Newline3?
  }

  lemma ParseSnoc(st: State, req: Request, s: Text)
    requires Sound(st, req) && s != []
    ensures var p, q := Parse(st, req, s[..|s| - 1]), Parse(st, req, s);
            if p.verdict.Indeterminate? then
              var one := Consume(p.state, p.req, s[|s| - 1]);
              q == Outcome(one.state, one.req, one.verdict, |s|)
            else q == p
  {
    hide Consume;
    var a, c := s[..|s| - 1], s[|s| - 1];
    assert s == a + [c];
    ParseConcat(st, req, a, [c]);
    assert [c][1..] == [];
  }

  /**
   In every reachable state, whatever the input: the request holds the method and URI read so far, the version
   numbers are the decimal values of the digits read so far, and these parts are the input so far.
  */
  lemma {:induction false} LineSoFar(empty: Request, s: Text) returns (t: Tree)
    requires Empty(empty) && Parse(MethodStart, empty, s).verdict.Indeterminate?
    ensures var p := Parse(MethodStart, empty, s); LineRead(p.state, p.req, s, t)
    decreases |s|
  {
    if s == [] {
      t := Tree([], [], [], [], []);
    } else {
      hide Parse, Consume, LineRead;
      ParseSnoc(MethodStart, empty, s);
      var a, c := s[..|s| - 1], s[|s| - 1];
      assert s == a + [c];
      t := LineSoFar(empty, a);
      var p := Parse(MethodStart, empty, a);
      t := LineStep(p.state, p.req, a, t, c);
    }
  }

  lemma LineStep(st: State, req: Request, s: Text, t: Tree, c: Char) returns (u: Tree)
    requires Sound(st, req) && LineRead(st, req, s, t)
    requires Consume(st, req, c).verdict.Indeterminate?
    ensures LineRead(Consume(st, req, c).state, Consume(st, req, c).req, s + [c], u)
  {
    assert !st.UriStart?;
    hide Consume, LineRead;
    if st.MethodStart? || st.Method? || st.Uri? {
      u := NameStep(st, req, s, t, c);
    } else if BeforeVersion(st) {
      u := ProtocolStep(st, req, s, t, c);
    } else if PastVersion(st) {
      LaterStep(st, req, s, t, c);
      u := t;
    } else {
      u := NumberStep(st, req, s, t, c);
    }
  }

  function Pow10(d: nat): nat {
    if d == 0 then 1 else 10 * Pow10(d - 1)
  }

  lemma {:induction false} DecimalBound(d: Text)
    requires forall c <- d :: IsDigit(c)
    ensures 0 <= Decimal(d) < Pow10(|d|)
    decreases |d|
  {
    if d != [] {
      assert d[|d| - 1] in d;
      DecimalBound(d[..|d| - 1]);
    }
  }

  /** In every reachable state a version number of which d digits have been read is below 10^d. */
  lemma NumbersBelowPowers(empty: Request, s: Text) returns (t: Tree)
    requires Empty(empty) && Parse(MethodStart, empty, s).verdict.Indeterminate?
    ensures var p := Parse(MethodStart, empty, s);
            && LineRead(p.state, p.req, s, t)
            && (!BeforeVersion(p.state) ==> 0 <= p.req.major < Pow10(|t.major|) && 0 <= p.req.minor < Pow10(|t.minor|))
  {
    hide Parse, Decimal, Front, FrontOk;
    t := LineSoFar(empty, s);
    if !BeforeVersion(Parse(MethodStart, empty, s).state) {
      DecimalBound(t.major);
      DecimalBound(t.minor);
    }
  }

  // ---------------------------------------------------------------------------------------------------------
  // The range of int

  const INT_MAX: int := 0x7fff_ffff

  /** Adding a digit computes `n * 10 + c - '0'` from left to right; its largest intermediate is `n * 10 + c`. */
  predicate DigitFits(n: int, c: Char) {
    n * 10 + c <= INT_MAX
  }

  /** The step does no arithmetic that leaves the range of an int. */
  predicate StepFits(st: State, req: Request, c: Char) {
    && ((st.MajorStart? || st.Major?) && IsDigit(c) ==> DigitFits(req.major, c))
    && ((st.MinorStart? || st.Minor?) && IsDigit(c) ==> DigitFits(req.minor, c))
  }

  predicate Fits(st: State, req: Request, s: Text)
    requires Sound(st, req)
    decreases |s|
  {
    s == [] || (
      && StepFits(st, req, s[0])
      && var one := Consume(st, req, s[0]);
         one.verdict.Indeterminate? ==> Fits(one.state, one.req, s[1..]))
  }

  lemma {:induction false} FitsSnoc(st: State, req: Request, s: Text)
    requires Sound(st, req) && s != []
    ensures var p := Parse(st, req, s[..|s| - 1]);
            Fits(st, req, s) <==>
              Fits(st, req, s[..|s| - 1]) && (p.verdict.Indeterminate? ==> StepFits(p.state, p.req, s[|s| - 1]))
    decreases |s|
  {
    hide Consume, StepFits;
    var a := s[..|s| - 1];
    if a != [] {
      var one := Consume(st, req, s[0]);
      assert a[0] == s[0] && s[1..][..|s| - 2] == a[1..];
      FitsSnoc(one.state, one.req, s[1..]);
    }
  }

  lemma {:induction false} FitsPrefix(st: State, req: Request, s: Text, k: nat)
    requires Sound(st, req) && k <= |s| && Fits(st, req, s)
    ensures Fits(st, req, s[..k])
    decreases |s|
  {
    hide Fits;
    if k == |s| {
      assert s[..k] == s;
    } else {
      FitsSnoc(st, req, s);
      FitsPrefix(st, req, s[..|s| - 1], k);
      assert s[..|s| - 1][..k] == s[..k];
    }
  }

  /** Positions `i` to `j` of the input hold digits of the major version number, all that precede `j`. */
  ghost predicate MajorIn(s: Text, i: int, j: int) {
    0 <= i < j <= |s| && Digits(s[i..j]) && exists t :: FrontOk(t) && s[..i] == Front(t)
  }

  /** The major number stands at `i` to `k`, a dot at `k`, and digits of the minor number up to `j`. */
  ghost predicate MinorIn(s: Text, i: int, k: int, j: int) {
    MajorIn(s, i, k) && k + 1 < j <= |s| && s[k] == DOT && Digits(s[k + 1..j])
  }

  /** No version number in the input, read up to any of its digits, exceeds INT_MAX - 48. */
  ghost predicate NumbersFit(s: Text) {
    && (forall i, j :: MajorIn(s, i, j) ==> Decimal(s[i..j]) + ZERO <= INT_MAX)
    && (forall i, k, j :: MinorIn(s, i, k, j) ==> Decimal(s[k + 1..j]) + ZERO <= INT_MAX)
  }

  /** The request after the front and so many digits, given that the machine has seen no more. */
  lemma MajorReached(empty: Request, t: Tree, d: Text)
    requires Empty(empty) && FrontOk(t) && forall c <- d :: IsDigit(c)
    ensures var p := Parse(MethodStart, empty, Front(t) + d);
            && p.verdict.Indeterminate? && p.req.major == Decimal(d) && p.req.minor == 0
            && p.state == (if d == [] then MajorStart else Major)
            && p.req == empty.(method_ := t.method_, uri := t.uri, major := Decimal(d), minor := 0)
  {
    hide Parse, Consume, Decimal;
    var r1 := empty.(method_ := t.method_, uri := t.uri);
    MethodAndUriRun(empty, t.method_, t.uri);
    ProtocolRuns(r1);
    var r2 := r1.(major := 0, minor := 0);
    GoesThenGoes(MethodStart, empty, t.method_ + [SP] + t.uri + [SP], VersionH, r1, PROTOCOL, MajorStart, r2);
    if d == [] {
      assert Front(t) + d == Front(t);
      assert Decimal([]) == 0 by { ExtendIsDecimal([]); }
    } else {
      MajorNumberRuns(r2, d);
      GoesThenGoes(MethodStart, empty, Front(t), MajorStart, r2, d, Major, r2.(major := Decimal(d)));
    }
  }

  lemma MinorReached(empty: Request, t: Tree, a: Text, d: Text)
    requires Empty(empty) && FrontOk(t) && Digits(a) && forall c <- d :: IsDigit(c)
    ensures var p := Parse(MethodStart, empty, Front(t) + a + [DOT] + d);
            && p.verdict.Indeterminate? && p.req.minor == Decimal(d)
            && p.state == (if d == [] then MinorStart else Minor)
  {
    var r1 := empty.(method_ := t.method_, uri := t.uri, major := Decimal(a), minor := 0);
    GoesOne(Major, r1, DOT);
    hide Parse, Consume, Decimal;
    MajorReached(empty, t, a);
    GoesThenGoes(MethodStart, empty, Front(t) + a, Major, r1, [DOT], MinorStart, r1);
    if d == [] {
      assert Front(t) + a + [DOT] + d == Front(t) + a + [DOT];
      assert Decimal([]) == 0 by { ExtendIsDecimal([]); }
    } else {
      MinorNumberRuns(r1, d);
      GoesThenGoes(MethodStart, empty, Front(t) + a + [DOT], MinorStart, r1, d, Minor, r1.(minor := Decimal(d)));
    }
  }

  lemma MajorMustFit(empty: Request, s: Text, i: int, j: int)
    requires Empty(empty) && Fits(MethodStart, empty, s) && MajorIn(s, i, j)
    ensures Decimal(s[i..j]) + ZERO <= INT_MAX
  {
    hide Fits, Parse, Decimal;
    var t :| FrontOk(t) && s[..i] == Front(t);
    var d, c := s[i..j - 1], s[j - 1];
    assert s[i..j] == d + [c] && c in s[i..j] && forall x <- d :: x in s[i..j];
    assert s[..j][..j - 1] == Front(t) + d;
    FitsPrefix(MethodStart, empty, s, j);
    FitsSnoc(MethodStart, empty, s[..j]);
    MajorReached(empty, t, d);
    DecimalSnoc(d, c);
  }

  lemma MinorMustFit(empty: Request, s: Text, i: int, k: int, j: int)
    requires Empty(empty) && Fits(MethodStart, empty, s) && MinorIn(s, i, k, j)
    ensures Decimal(s[k + 1..j]) + ZERO <= INT_MAX
  {
    hide Fits, Parse, Decimal;
    var t :| FrontOk(t) && s[..i] == Front(t);
    var a, d, c := s[i..k], s[k + 1..j - 1], s[j - 1];
    assert s[k + 1..j] == d + [c] && c in s[k + 1..j] && forall x <- d :: x in s[k + 1..j];
    assert s[..j][..j - 1] == Front(t) + a + [DOT] + d;
    FitsPrefix(MethodStart, empty, s, j);
    FitsSnoc(MethodStart, empty, s[..j]);
    MinorReached(empty, t, a, d);
    DecimalSnoc(d, c);
  }

  lemma MajorIsIn(s: Text, k: nat, t: Tree)
    requires k < |s| && IsDigit(s[k]) && FrontOk(t)
    requires s[..k] == Front(t) + t.major && forall c <- t.major :: IsDigit(c)
    ensures MajorIn(s, |Front(t)|, k + 1) && s[|Front(t)|..k + 1] == t.major + [s[k]]
  {
    hide Front;
    var i := |Front(t)|;
    assert s[..i] == s[..k][..i] == Front(t);
    assert s[i..k + 1] == s[..k][i..] + [s[k]] == t.major + [s[k]];
  }

  lemma MinorIsIn(s: Text, k: nat, t: Tree)
    requires k < |s| && IsDigit(s[k]) && FrontOk(t) && Digits(t.major)
    requires s[..k] == Front(t) + t.major + [DOT] + t.minor && forall c <- t.minor :: IsDigit(c)
    ensures var m := |Front(t)| + |t.major|;
            MinorIn(s, |Front(t)|, m, k + 1) && s[m + 1..k + 1] == t.minor + [s[k]]
  {
    hide Front;
    var i := |Front(t)|;
    var m := i + |t.major|;
    assert s[..i] == s[..k][..i] == Front(t);
    assert s[i..m] == s[..k][i..m] == t.major;
    assert s[m] == s[..k][m] == DOT;
    assert s[m + 1..k + 1] == s[..k][m + 1..] + [s[k]] == t.minor + [s[k]];
  }

  /** If the numbers fit, so does the step at every position. */
  lemma StepMustFit(empty: Request, s: Text, k: nat)
    requires Empty(empty) && NumbersFit(s) && k < |s|
    requires Parse(MethodStart, empty, s[..k]).verdict.Indeterminate?
    ensures var p := Parse(MethodStart, empty, s[..k]); StepFits(p.state, p.req, s[k])
  {
    hide Parse, Decimal, Front, FrontOk;
    var p := Parse(MethodStart, empty, s[..k]);
    var t := LineSoFar(empty, s[..k]);
    if IsDigit(s[k]) && (p.state.MajorStart? || p.state.Major?) {
      assert s[..k] == Front(t) + t.major;
      MajorIsIn(s, k, t);
      DecimalSnoc(t.major, s[k]);
    } else if IsDigit(s[k]) && (p.state.MinorStart? || p.state.Minor?) {
      assert s[..k] == Front(t) + t.major + [DOT] + t.minor;
      MinorIsIn(s, k, t);
      DecimalSnoc(t.minor, s[k]);
    }
  }

  /**
   Exactly when the parser's arithmetic stays within a 32-bit int, for every input, whether it is accepted, refused
   or incomplete: when no version number in it, up to any of its digits, exceeds INT_MAX - 48.
  */
  lemma FitsIff(empty: Request, s: Text)
    requires Empty(empty)
    ensures Fits(MethodStart, empty, s) <==> NumbersFit(s)
  {
    hide Fits, Parse, Decimal;
    if Fits(MethodStart, empty, s) {
      forall i, j | MajorIn(s, i, j)
        ensures Decimal(s[i..j]) + ZERO <= INT_MAX
      {
        MajorMustFit(empty, s, i, j);
      }
      forall i, k, j | MinorIn(s, i, k, j)
        ensures Decimal(s[k + 1..j]) + ZERO <= INT_MAX
      {
        MinorMustFit(empty, s, i, k, j);
      }
    }
    if NumbersFit(s) {
      AllStepsFit(empty, s, |s|);
      assert s[..|s|] == s;
    }
  }

  lemma {:induction false} AllStepsFit(empty: Request, s: Text, k: nat)
    requires Empty(empty) && NumbersFit(s) && k <= |s|
    ensures Fits(MethodStart, empty, s[..k])
  {
    if k != 0 {
      hide Fits, Parse, NumbersFit;
      AllStepsFit(empty, s, k - 1);
      assert s[..k][..k - 1] == s[..k - 1];
      FitsSnoc(MethodStart, empty, s[..k]);
      if Parse(MethodStart, empty, s[..k - 1]).verdict.Indeterminate? {
        StepMustFit(empty, s, k - 1);
      }
    }
  }

  /** Up to nine digits per number are always safe, whatever surrounds them. */
  lemma NineDigitsFit(empty: Request, s: Text)
    requires Empty(empty)
    requires forall i, j :: MajorIn(s, i, j) ==> j - i <= 9
    requires forall i, k, j :: MinorIn(s, i, k, j) ==> j - k - 1 <= 9
    ensures Fits(MethodStart, empty, s)
  {
    hide Fits, Decimal;
    forall i, j | MajorIn(s, i, j)
      ensures Decimal(s[i..j]) + ZERO <= INT_MAX
    {
      NineDigits(s[i..j]);
    }
    forall i, k, j | MinorIn(s, i, k, j)
      ensures Decimal(s[k + 1..j]) + ZERO <= INT_MAX
    {
      NineDigits(s[k + 1..j]);
    }
    FitsIff(empty, s);
  }

  lemma NineDigits(d: Text)
    requires Digits(d) && |d| <= 9
    ensures Decimal(d) + ZERO <= INT_MAX
  {
    hide Decimal;
    DecimalBound(d);
    Pow10Monotone(|d|, 9);
    assert Pow10(9) == 10 * 10 * 10 * Pow10(6) && Pow10(6) == 10 * 10 * 10 * Pow10(3) && Pow10(3) == 1000;
  }

  lemma {:induction false} Pow10Monotone(a: nat, b: nat)
    requires a <= b
    ensures Pow10(a) <= Pow10(b)
    decreases b
  {
    if a < b {
      Pow10Monotone(a, b - 1);
    }
  }

  // ---------------------------------------------------------------------------------------------------------
  // Complete requests, and an input that leaves the range

  lemma {:induction false} NeverBack(st: State, req: Request, s: Text)
    requires Sound(st, req) && !BeforeVersion(st) && !st.MajorStart?
    ensures !Parse(st, req, s).state.MajorStart?
    decreases |s|
  {
    if s != [] {
      var one := Consume(st, req, s[0]);
      if one.verdict.Indeterminate? {
        NeverBack(one.state, one.req, s[1..]);
      }
    }
  }

  /** An input has at most one front: the machine reaches the version numbers once. */
  lemma FrontIsUnique(empty: Request, s: Text, t: Tree, u: Tree)
    requires Empty(empty) && FrontOk(t) && FrontOk(u) && IsPrefix(Front(t), s) && IsPrefix(Front(u), s)
    requires |Front(t)| <= |Front(u)|
    ensures |Front(t)| == |Front(u)|
  {
    if |Front(t)| < |Front(u)| {
      var f, g := Front(t), Front(u);
      var d := g[|f|..];
      assert g == s[..|g|] && f == s[..|f|] && g == f + d;
      assert f + [] == f && g + [] == g;
      MajorReached(empty, t, []);
      MajorReached(empty, u, []);
      var p := Parse(MethodStart, empty, f);
      var one := Consume(MajorStart, p.req, d[0]);
      ParseConcat(MethodStart, empty, f, d);
      assert !one.state.MajorStart?;
      NeverBack(one.state, one.req, d[1..]);
    }
  }

  lemma {:induction false} DecimalOfPrefix(d: Text, k: nat)
    requires k <= |d| && forall c <- d :: IsDigit(c)
    ensures Decimal(d[..k]) <= Decimal(d)
    decreases |d|
  {
    if k == |d| {
      assert d[..k] == d;
    } else {
      var e := d[..|d| - 1];
      assert e[..k] == d[..k] && d[|d| - 1] in d;
      DecimalOfPrefix(e, k);
      DecimalBound(e);
    }
  }

  /** Digits from `at` on within `n + d + rest` stop where `d` does, if `rest` starts with something else. */
  lemma DigitsWithin(s: Text, at: nat, d: Text, stop: Char, j: nat)
    requires Digits(d) && !IsDigit(stop) && at + |d| < |s| && s[at..at + |d|] == d && s[at + |d|] == stop
    requires at < j <= |s| && Digits(s[at..j])
    ensures j <= at + |d| && s[at..j] == d[..j - at] && Decimal(s[at..j]) <= Decimal(d)
  {
    hide Decimal;
    assert j <= at + |d|;
    forall q | 0 <= q < j - at
      ensures s[at..j][q] == d[q]
    {
      assert s[at..at + |d|][q] == s[at + q];
    }
    assert s[at..j] == d[..j - at];
    DecimalOfPrefix(d, j - at);
  }

  /** Accepted requests: both numbers must be at most 2^31 - 1 - 48. */
  lemma VersionFitsIff(empty: Request, t: Tree)
    requires Empty(empty) && TreeOk(t)
    ensures Fits(MethodStart, empty, Print(t)) <==>
              Decimal(t.major) <= 2147483599 && Decimal(t.minor) <= 2147483599
  {
    hide Fits, Decimal, Front, Print;
    var s, i := Print(t), |Front(t)|;
    var k := i + |t.major|;
    var j := k + 1 + |t.minor|;
    PrintedAt(t);
    assert MajorIn(s, i, k) && MinorIn(s, i, k, j);
    FitsIff(empty, s);
    forall i', j' | MajorIn(s, i', j')
      ensures Decimal(s[i'..j']) <= Decimal(t.major)
    {
      MajorWithin(empty, t, i', j');
    }
    forall i', k', j' | MinorIn(s, i', k', j')
      ensures Decimal(s[k' + 1..j']) <= Decimal(t.minor)
    {
      MinorWithin(empty, t, i', k', j');
    }
  }

  lemma MajorWithin(empty: Request, t: Tree, i: int, j: int)
    requires Empty(empty) && TreeOk(t) && MajorIn(Print(t), i, j)
    ensures i == |Front(t)| && j <= i + |t.major| && Decimal(Print(t)[i..j]) <= Decimal(t.major)
  {
    hide Decimal, Front, Print;
    var s := Print(t);
    PrintedAt(t);
    var u :| FrontOk(u) && s[..i] == Front(u);
    if |Front(t)| <= i { FrontIsUnique(empty, s, t, u); } else { FrontIsUnique(empty, s, u, t); }
    DigitsWithin(s, i, t.major, DOT, j);
  }

  lemma DigitAt(s: Text, at: nat, d: Text, k: nat)
    requires at + |d| <= |s| && s[at..at + |d|] == d && Digits(d) && at <= k < at + |d|
    ensures IsDigit(s[k])
  {
    assert s[k] == s[at..at + |d|][k - at] && s[k] in d;
  }

  lemma MinorWithin(empty: Request, t: Tree, i: int, k: int, j: int)
    requires Empty(empty) && TreeOk(t) && MinorIn(Print(t), i, k, j)
    ensures k == |Front(t)| + |t.major| && Decimal(Print(t)[k + 1..j]) <= Decimal(t.minor)
  {
    hide Decimal, Front, Print;
    var s := Print(t);
    PrintedAt(t);
    MajorWithin(empty, t, i, k);
    if k < i + |t.major| {
      DigitAt(s, i, t.major, k);
    }
    DigitsWithin(s, k + 1, t.minor, CR, j);
  }

  /** Where the version numbers stand in a printed request. */
  lemma PrintedAt(t: Tree)
    requires TreeOk(t)
    ensures var s, i := Print(t), |Front(t)|;
            var k := i + |t.major|;
            var j := k + 1 + |t.minor|;
            && j < |s| && FrontOk(t) && s[..i] == Front(t) && s[i..k] == t.major && s[k] == DOT
            && s[k + 1..j] == t.minor && s[j] == CR
  {
    var rest := [LF] + (PrintFields(t.fields) + CRLF);
    assert Print(t) == Front(t) + t.major + [DOT] + t.minor + [CR] + rest;
  }

  /** A version number one too large overflows, and nothing before or after it matters. */
  lemma OverflowsAt(empty: Request, rest: Text)
    requires Empty(empty)
    ensures !Fits(MethodStart, empty, ['A' as int, SP, SP] + PROTOCOL + [50, 49, 52, 55, 52, 56, 51, 54, 48, 48] + rest)
  {
    var t := Tree(['A' as int], [], [], [], []);
    var d: Text := [50, 49, 52, 55, 52, 56, 51, 54, 48, 48];
    var s := ['A' as int, SP, SP] + PROTOCOL + d + rest;
    assert s[..8] == Front(t) && s[8..18] == d;
    TooLarge();
    assert MajorIn(s, 8, 18);
    FitsIff(empty, s);
  }

  lemma TooLarge()
    ensures Decimal([50, 49, 52, 55, 52, 56, 51, 54, 48, 48]) == 2147483600 > INT_MAX - ZERO
  {
    ExtendIsDecimal([50, 49, 52, 55, 52, 56, 51, 54, 48, 48]);
  }
}
