/** The parser, request and reply objects of the HTTP example. */
module HttpObjects {
  import opened HttpParser
  import opened HttpGrammar
  import opened HttpComplete
  import opened HttpCanonical

  class RequestObject {
    var method_: Text
    var uri: Text
    var major: int
    var minor: int
    var headers: seq<Header>

    function Current(): Request
      reads this
    {
      Request(method_, uri, major, minor, headers)
    }

    constructor ()
      ensures Empty(Current())
    {
      method_, uri, headers := [], [], [];
    }

    method AppendToName(c: Char)
      requires headers != []
      modifies this`headers
      ensures Current() == AddName(old(Current()), [c])
    {
      var last := |headers| - 1;
      headers := headers[last := headers[last].(name := headers[last].name + [c])];
    }

    method AppendToValue(c: Char)
      requires headers != []
      modifies this`headers
      ensures Current() == AddValue(old(Current()), [c])
    {
      var last := |headers| - 1;
      headers := headers[last := headers[last].(value := headers[last].value + [c])];
    }
  }

  class RequestParser {
    var state: State

    constructor ()
      ensures state == MethodStart
    {
      state := MethodStart;
    }

    /** `Reset` restarts the machine; the request that was being filled in is left as it is. */
    method Reset()
      modifies this
      ensures state == MethodStart
    {
      state := MethodStart;
    }

    /** One character: the object does what the function `Consume` says, and nothing else. */
    method Step(req: RequestObject, input: Char) returns (verdict: Verdict)
      requires Sound(state, req.Current())
      modifies this, req
      ensures Sound(state, req.Current())
      ensures Reaction(state, req.Current(), verdict) == Consume(old(state), old(req.Current()), input)
    {
      verdict := Indeterminate;
      match state {
        case MethodStart | Method | UriStart | Uri =>
          verdict := RequestLineStep(req, input);
        case VersionH =>
          if input == 'H' as int { state := VersionT1; } else { verdict := False; }
        case VersionT1 =>
          if input == 'T' as int { state := VersionT2; } else { verdict := False; }
        case VersionT2 =>
          if input == 'T' as int { state := VersionP; } else { verdict := False; }
        case VersionP =>
          if input == 'P' as int { state := VersionSlash; } else { verdict := False; }
        case VersionSlash | MajorStart | Major | MinorStart | Minor =>
          verdict := VersionStep(req, input);
        case Newline1 | Newline2 =>
          if input == LF { state := LineStart; } else { verdict := False; }
        case LineStart | Lws | Name | SpaceBeforeValue | Value =>
          verdict := HeaderStep(req, input);
        case Newline3 =>
          verdict := if input == LF then True else False;
      }
    }

    method RequestLineStep(req: RequestObject, input: Char) returns (verdict: Verdict)
      requires state.MethodStart? || state.Method? || state.UriStart? || state.Uri?
      modifies this, req
      ensures Reaction(state, req.Current(), verdict) == Consume(old(state), old(req.Current()), input)
    {
      verdict := Indeterminate;
      if state.MethodStart? {
        if !IsChar(input) || IsCtl(input) || IsTSpecial(input) {
          verdict := False;
        } else {
          state := Method;
          req.method_ := req.method_ + [input];
        }
      } else if state.Method? {
        if input == SP {
          state := Uri;
        } else if !IsChar(input) || IsCtl(input) || IsTSpecial(input) {
          verdict := False;
        } else {
          req.method_ := req.method_ + [input];
        }
      } else if state.UriStart? {
        if IsCtl(input) {
          verdict := False;
        } else {
          state := Uri;
          req.uri := req.uri + [input];
        }
      } else {
        if input == SP {
          state := VersionH;
        } else if IsCtl(input) {
          verdict := False;
        } else {
          req.uri := req.uri + [input];
        }
      }
    }

    method VersionStep(req: RequestObject, input: Char) returns (verdict: Verdict)
      requires state.VersionSlash? || state.MajorStart? || state.Major? || state.MinorStart? || state.Minor?
      modifies this, req
      ensures Reaction(state, req.Current(), verdict) == Consume(old(state), old(req.Current()), input)
    {
      verdict := Indeterminate;
      if state.VersionSlash? {
        if input == SLASH {
          req.major, req.minor := 0, 0;
          state := MajorStart;
        } else {
          verdict := False;
        }
      } else if state.MajorStart? || state.Major? {
        if state.Major? && input == DOT {
          state := MinorStart;
        } else if IsDigit(input) {
          req.major := req.major * 10 + input - ZERO;
          state := Major;
        } else {
          verdict := False;
        }
      } else {
        if state.Minor? && input == CR {
          state := Newline1;
        } else if IsDigit(input) {
          req.minor := req.minor * 10 + input - ZERO;
          state := Minor;
        } else {
          verdict := False;
        }
      }
    }

    method HeaderStep(req: RequestObject, input: Char) returns (verdict: Verdict)
      requires state.LineStart? || state.Lws? || state.Name? || state.SpaceBeforeValue? || state.Value?
      requires Sound(state, req.Current())
      modifies this, req
      ensures Sound(state, req.Current())
      ensures Reaction(state, req.Current(), verdict) == Consume(old(state), old(req.Current()), input)
    {
      verdict := Indeterminate;
      if state.LineStart? {
        if input == CR {
          state := Newline3;
        } else if req.headers != [] && IsBlank(input) {
          state := Lws;
        } else if !IsChar(input) || IsCtl(input) || IsTSpecial(input) {
          verdict := False;
        } else {
          req.headers := req.headers + [Header([input], [])];
          state := Name;
        }
      } else if state.Name? {
        if input == COLON {
          state := SpaceBeforeValue;
        } else if !IsChar(input) || IsCtl(input) || IsTSpecial(input) {
          verdict := False;
        } else {
          req.AppendToName(input);
        }
      } else if state.SpaceBeforeValue? {
        if input == SP { state := Value; } else { verdict := False; }
      } else {
        if input == CR {
          state := Newline2;
        } else if state.Lws? && IsBlank(input) {
        } else if IsCtl(input) {
          verdict := False;
        } else {
          state := Value;
          req.AppendToValue(input);
        }
      }
    }

    /** Feed characters until the verdict is in or the input ends. */
    method ParseInput(req: RequestObject, input: Text) returns (verdict: Verdict)
      requires Sound(state, req.Current())
      modifies this, req
      ensures Sound(state, req.Current())
      ensures var p := Parse(old(state), old(req.Current()), input);
              verdict == p.verdict && state == p.state && req.Current() == p.req
    {
      var i := 0;
      assert input[0..] == input;
      while i < |input|
        invariant 0 <= i <= |input|
        invariant Sound(state, req.Current())
        invariant var p := Parse(state, req.Current(), input[i..]);
                  Parse(old(state), old(req.Current()), input) == p.(used := p.used + i)
      {
        assert input[i..][0] == input[i] && input[i..][1..] == input[i + 1..];
        verdict := Step(req, input[i]);
        i := i + 1;
        if !verdict.Indeterminate? {
          return;
        }
      }
      verdict := Indeterminate;
    }
  }

  // ---------------------------------------------------------------------------------------------------------
  // Replies

  function Flatten(buffers: seq<Text>): Text {
    if buffers == [] then [] else Flatten(buffers[..|buffers| - 1]) + buffers[|buffers| - 1]
  }

  lemma FlattenAppend(buffers: seq<Text>, b: Text)
    ensures Flatten(buffers + [b]) == Flatten(buffers) + b
  {}

  /** The lines of a header block, without the blank line that ends it. */
  function HeaderLines(headers: seq<Header>): Text {
    PrintFields(PlainFields(headers))
  }

  lemma HeaderLinesFirst(headers: seq<Header>)
    requires headers != []
    ensures HeaderLines(headers)
         == headers[0].name + SEPARATOR + headers[0].value + CRLF + HeaderLines(headers[1..])
  {}

  class Reply {
    var status: Text
    var headers: seq<Header>
    var content: Text

    constructor (status: Text, headers: seq<Header>, content: Text)
      ensures this.status == status && this.headers == headers && this.content == content
    {
      this.status, this.headers, this.content := status, headers, content;
    }

    /** The reply on the wire: the status line, the header lines, a blank line, the content. */
    method ToBuffers() returns (buffers: seq<Text>)
      ensures Flatten(buffers) == status + (HeaderLines(headers) + CRLF) + content
      ensures |buffers| == 3 + 4 * |headers|
    {
      buffers := [status];
      FlattenAppend([], status);
      assert [] + [status] == buffers && Flatten([]) + status == status;
      var i := 0;
      assert headers[0..] == headers;
      while i < |headers|
        invariant 0 <= i <= |headers|
        invariant |buffers| == 1 + 4 * i
        invariant Flatten(buffers) + HeaderLines(headers[i..]) == status + HeaderLines(headers)
      {
        var h := headers[i];
        ghost var before := Flatten(buffers);
        HeaderLinesFirst(headers[i..]);
        assert headers[i..][1..] == headers[i + 1..];
        FlattenAppend(buffers, h.name);
        FlattenAppend(buffers + [h.name], SEPARATOR);
        FlattenAppend(buffers + [h.name] + [SEPARATOR], h.value);
        FlattenAppend(buffers + [h.name] + [SEPARATOR] + [h.value], CRLF);
        buffers := buffers + [h.name] + [SEPARATOR] + [h.value] + [CRLF];
        i := i + 1;
        assert Flatten(buffers) == before + (h.name + SEPARATOR + h.value + CRLF);
        assert before + (h.name + SEPARATOR + h.value + CRLF) + HeaderLines(headers[i..])
            == before + (h.name + SEPARATOR + h.value + CRLF + HeaderLines(headers[i..]));
      }
      assert HeaderLines(headers[i..]) == [];
      ghost var before := Flatten(buffers);
      FlattenAppend(buffers, CRLF);
      FlattenAppend(buffers + [CRLF], content);
      buffers := buffers + [CRLF] + [content];
      assert before + [] == before;
      assert Flatten(buffers) == status + HeaderLines(headers) + CRLF + content
                              == status + (HeaderLines(headers) + CRLF) + content;
    }
  }

  /** The header block a reply prints is read back by the parser, after any request line, as the same headers. */
  lemma ReplyHeadersParseBack(req: Request, headers: seq<Header>)
    requires forall h <- headers :: HeaderOk(h)
    ensures Accepts(LineStart, req, HeaderLines(headers) + CRLF, req.(headers := req.headers + headers))
  {
    hide Parse, HeaderOk;
    PlainFieldsOk(headers);
    BlockAccepted(req, PlainFields(headers));
  }
}
