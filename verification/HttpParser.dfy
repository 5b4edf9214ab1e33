/**
 The HTTP/1.0 request parser (Example/Network/Http/Http/RequestParser.cpp): a machine that takes one character at
 a time and fills in a request.
*/
module HttpParser {
  /** A `char` of the target platform, which is signed: octets from 128 up are negative. */
  type Char = c: int | -128 <= c < 128
  type Text = seq<Char>

  const HT: Char := 9
  const LF: Char := 10
  const CR: Char := 13
  const SP: Char := 32
  const DOT: Char := 46
  const SLASH: Char := 47
  const ZERO: Char := 48
  const COLON: Char := 58

  predicate IsChar(c: int) {
    0 <= c <= 127
  }

  predicate IsCtl(c: int) {
    0 <= c <= 31 || c == 127
  }

  predicate IsTSpecial(c: int) {
    || c == '(' as int || c == ')' as int || c == '<' as int || c == '>' as int || c == '@' as int
    || c == ',' as int || c == ';' as int || c == ':' as int || c == '\\' as int || c == '"' as int
    || c == '/' as int || c == '[' as int || c == ']' as int || c == '?' as int || c == '=' as int
    || c == '{' as int || c == '}' as int || c == ' ' as int || c == '\t' as int
  }

  predicate IsDigit(c: int) {
    '0' as int <= c <= '9' as int
  }

  predicate IsToken(c: Char) {
    IsChar(c) && !IsCtl(c) && !IsTSpecial(c)
  }

  predicate IsBlank(c: Char) {
    c == SP || c == HT
  }

  datatype Header = Header(name: Text, value: Text)

  datatype Request = Request(method_: Text, uri: Text, major: int, minor: int, headers: seq<Header>)

  datatype State =
    | MethodStart | Method | UriStart | Uri
    | VersionH | VersionT1 | VersionT2 | VersionP | VersionSlash
    | MajorStart | Major | MinorStart | Minor
    | Newline1
    | LineStart | Lws | Name | SpaceBeforeValue | Value
    | Newline2 | Newline3

  datatype Verdict = True | False | Indeterminate

  datatype Reaction = Reaction(state: State, req: Request, verdict: Verdict)

  /** The states in which the code may use `headers.back()` have a header to use. */
  predicate Sound(st: State, req: Request) {
    st.Lws? || st.Name? || st.SpaceBeforeValue? || st.Value? ==> req.headers != []
  }

  function AddName(req: Request, text: Text): (r: Request)
    requires req.headers != []
    ensures |r.headers| == |req.headers|
  {
    var last := |req.headers| - 1;
    var h := req.headers[last];
    req.(headers := req.headers[last := h.(name := h.name + text)])
  }

  function AddValue(req: Request, text: Text): (r: Request)
    requires req.headers != []
    ensures |r.headers| == |req.headers|
  {
    var last := |req.headers| - 1;
    var h := req.headers[last];
    req.(headers := req.headers[last := h.(value := h.value + text)])
  }

  /** Move on to `to` if the character is the expected one. */
  function Expect(ok: bool, from: State, to: State, req: Request): Reaction {
    if ok then Reaction(to, req, Indeterminate) else Reaction(from, req, False)
  }

  /** One call of `Consume`. */
  function Consume(st: State, req: Request, c: Char): (r: Reaction)
    requires Sound(st, req)
    ensures Sound(r.state, r.req)
  {
    match st
    case MethodStart =>
      if IsToken(c) then Reaction(Method, req.(method_ := req.method_ + [c]), Indeterminate)
      else Reaction(st, req, False)
    case Method =>
      if c == SP then Reaction(Uri, req, Indeterminate)
      else if IsToken(c) then Reaction(st, req.(method_ := req.method_ + [c]), Indeterminate)
      else Reaction(st, req, False)
    case UriStart =>
      if IsCtl(c) then Reaction(st, req, False)
      else Reaction(Uri, req.(uri := req.uri + [c]), Indeterminate)
    case Uri =>
      if c == SP then Reaction(VersionH, req, Indeterminate)
      else if IsCtl(c) then Reaction(st, req, False)
      else Reaction(st, req.(uri := req.uri + [c]), Indeterminate)
    case VersionH => Expect(c == 'H' as int, st, VersionT1, req)
    case VersionT1 => Expect(c == 'T' as int, st, VersionT2, req)
    case VersionT2 => Expect(c == 'T' as int, st, VersionP, req)
    case VersionP => Expect(c == 'P' as int, st, VersionSlash, req)
    case VersionSlash =>
      if c == SLASH then Reaction(MajorStart, req.(major := 0, minor := 0), Indeterminate)
      else Reaction(st, req, False)
    case MajorStart =>
      if IsDigit(c) then Reaction(Major, req.(major := req.major * 10 + c - ZERO), Indeterminate)
      else Reaction(st, req, False)
    case Major =>
      if c == DOT then Reaction(MinorStart, req, Indeterminate)
      else if IsDigit(c) then Reaction(st, req.(major := req.major * 10 + c - ZERO), Indeterminate)
      else Reaction(st, req, False)
    case MinorStart =>
      if IsDigit(c) then Reaction(Minor, req.(minor := req.minor * 10 + c - ZERO), Indeterminate)
      else Reaction(st, req, False)
    case Minor =>
      if c == CR then Reaction(Newline1, req, Indeterminate)
      else if IsDigit(c) then Reaction(st, req.(minor := req.minor * 10 + c - ZERO), Indeterminate)
      else Reaction(st, req, False)
    case Newline1 => Expect(c == LF, st, LineStart, req)
    case LineStart =>
      if c == CR then Reaction(Newline3, req, Indeterminate)
      else if req.headers != [] && IsBlank(c) then Reaction(Lws, req, Indeterminate)
      else if IsToken(c) then
        Reaction(Name, req.(headers := req.headers + [Header([c], [])]), Indeterminate)
      else Reaction(st, req, False)
    case Lws =>
      if c == CR then Reaction(Newline2, req, Indeterminate)
      else if IsBlank(c) then Reaction(st, req, Indeterminate)
      else if IsCtl(c) then Reaction(st, req, False)
      else Reaction(Value, AddValue(req, [c]), Indeterminate)
    case Name =>
      if c == COLON then Reaction(SpaceBeforeValue, req, Indeterminate)
      else if IsToken(c) then Reaction(st, AddName(req, [c]), Indeterminate)
      else Reaction(st, req, False)
    case SpaceBeforeValue => Expect(c == SP, st, Value, req)
    case Value =>
      if c == CR then Reaction(Newline2, req, Indeterminate)
      else if IsCtl(c) then Reaction(st, req, False)
      else Reaction(st, AddValue(req, [c]), Indeterminate)
    case Newline2 => Expect(c == LF, st, LineStart, req)
    case Newline3 => Reaction(st, req, if c == LF then True else False)
  }

  /** What a run of `Consume` leaves: the machine, the verdict, and how many characters it took. */
  datatype Outcome = Outcome(state: State, req: Request, verdict: Verdict, used: nat)

  /** `Parse`: feed characters until the verdict is in or the input ends. */
  function Parse(st: State, req: Request, s: Text): (r: Outcome)
    requires Sound(st, req)
    ensures Sound(r.state, r.req)
    ensures r.used <= |s|
    ensures r.verdict.Indeterminate? ==> r.used == |s|
    decreases |s|
  {
    if s == [] then
      Outcome(st, req, Indeterminate, 0)
    else
      var one := Consume(st, req, s[0]);
      if !one.verdict.Indeterminate? then
        Outcome(one.state, one.req, one.verdict, 1)
      else
        var rest := Parse(one.state, one.req, s[1..]);
        rest.(used := rest.used + 1)
  }

  /** The input is taken to its last character, where the machine says yes, and the request is `r`. */
  predicate Accepts(st: State, req: Request, s: Text, r: Request)
    requires Sound(st, req)
  {
    Parse(st, req, s).verdict.True? && Parse(st, req, s).used == |s| && Parse(st, req, s).req == r
  }

  /** The machine takes `a` without a verdict and is then in `st'` with `req'`. */
  predicate Goes(st: State, req: Request, a: Text, st': State, req': Request)
    requires Sound(st, req)
  {
    Parse(st, req, a) == Outcome(st', req', Indeterminate, |a|)
  }

  /** A request nothing has been parsed into; its version numbers are whatever they are. */
  predicate Empty(req: Request) {
    req.method_ == [] && req.uri == [] && req.headers == []
  }

  // ---------------------------------------------------------------------------------------------------------
  // Runs compose

  lemma {:induction false} ParseConcat(st: State, req: Request, a: Text, b: Text)
    requires Sound(st, req)
    ensures var p := Parse(st, req, a);
            if p.verdict.Indeterminate? then
              Parse(st, req, a + b) == var q := Parse(p.state, p.req, b); q.(used := |a| + q.used)
            else
              Parse(st, req, a + b) == p
    decreases |a|
  {
    hide Consume;
    if a == [] {
      assert a + b == b;
    } else {
      var one := Consume(st, req, a[0]);
      assert (a + b)[0] == a[0] && (a + b)[1..] == a[1..] + b;
      if one.verdict.Indeterminate? {
        ParseConcat(one.state, one.req, a[1..], b);
      }
    }
  }

  lemma GoesThenGoes(st: State, req: Request, a: Text, st1: State, req1: Request, b: Text, st2: State, req2: Request)
    requires Sound(st, req) && Goes(st, req, a, st1, req1)
    requires Sound(st1, req1) && Goes(st1, req1, b, st2, req2)
    ensures Goes(st, req, a + b, st2, req2)
  {
    hide Parse;
    ParseConcat(st, req, a, b);
  }

  lemma GoesThenAccepts(st: State, req: Request, a: Text, st1: State, req1: Request, b: Text, r: Request)
    requires Sound(st, req) && Goes(st, req, a, st1, req1)
    requires Sound(st1, req1) && Accepts(st1, req1, b, r)
    ensures Accepts(st, req, a + b, r)
  {
    hide Parse;
    ParseConcat(st, req, a, b);
  }

  lemma GoesOne(st: State, req: Request, c: Char)
    requires Sound(st, req)
    requires Consume(st, req, c).verdict.Indeterminate?
    ensures Goes(st, req, [c], Consume(st, req, c).state, Consume(st, req, c).req)
  {}

  /** Once the verdict is in, more input does not change it: accepted inputs are prefix-free. */
  lemma AcceptedIsPrefixFree(req: Request, s: Text, t: Text, r: Request, r': Request)
    requires Accepts(MethodStart, req, s, r) && Accepts(MethodStart, req, s + t, r')
    ensures t == [] && r' == r
  {
    hide Parse;
    ParseConcat(MethodStart, req, s, t);
  }

  /** `uri_start` is never entered: a run that does not start there never gets there. */
  lemma {:induction false} UriStartUnreached(st: State, req: Request, s: Text)
    requires Sound(st, req) && !st.UriStart?
    ensures !Parse(st, req, s).state.UriStart?
    decreases |s|
  {
    if s != [] {
      var one := Consume(st, req, s[0]);
      if one.verdict.Indeterminate? {
        UriStartUnreached(one.state, one.req, s[1..]);
      }
    }
  }
}
