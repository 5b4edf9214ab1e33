/**
 The streaming frame decoder (test/read_write_test/read_write_test/multi_msg_decoder.hpp): chunks of any size in,
 whole messages out. A message travels as its length, four bytes little-endian, followed by its payload.
*/
module FrameDecoder {
  import opened Octets
  import opened LittleEndian

  type Message = seq<Octet>

  /** Between calls the decoder holds either part of a header or the length and part of a payload. */
  datatype State =
    | Header(held: seq<Octet>)
    | Body(len: nat, part: seq<Octet>)
  {
    predicate Valid() {
      match this
      case Header(held) => |held| < 4
      case Body(len, part) => |part| < len < TWO_32
    }
  }

  datatype Outcome = Outcome(state: State, messages: seq<Message>)

  /** What `handle` does with one chunk. */
  function Handled(st: State, chunk: seq<Octet>): (r: Outcome)
    requires st.Valid()
    ensures r.state.Valid() && Sendable(r.messages)
    decreases |chunk|, 0
  {
    match st
    case Header(held) =>
      if |chunk| < 4 then
        Outcome(Header(chunk), [])
      else
        NewFrame(ToNat(held + chunk[..4 - |held|]), chunk[4 - |held|..])
    case Body(len, part) =>
      var over := len - |part|;
      if |chunk| < over then
        Outcome(Body(len, part + chunk), [])
      else
        var message := part + chunk[..over];
        if |chunk| == over then
          Outcome(Header([]), [message])
        else
          var later := Handled(Header([]), chunk[over..]);
          Outcome(later.state, [message] + later.messages)
  }

  /** The same from the point where a header is complete: `rest` follows a header that announced `len` bytes. */
  function NewFrame(len: nat, rest: seq<Octet>): (r: Outcome)
    requires len < TWO_32
    ensures r.state.Valid() && Sendable(r.messages)
    decreases |rest|, 1
  {
    if len == |rest| then
      Outcome(Header([]), [rest])
    else if len > |rest| then
      Outcome(Body(len, rest), [])
    else
      var later := Handled(Header([]), rest[len..]);
      Outcome(later.state, [rest[..len]] + later.messages)
  }

  /** Everything a sequence of chunks does to a new decoder. */
  function Fed(chunks: seq<seq<Octet>>): (r: Outcome)
    ensures r.state.Valid() && Sendable(r.messages)
  {
    if chunks == [] then
      Outcome(Header([]), [])
    else
      var before := Fed(chunks[..|chunks| - 1]);
      var now := Handled(before.state, chunks[|chunks| - 1]);
      Outcome(now.state, before.messages + now.messages)
  }

  // ---------------------------------------------------------------------------------------------------------
  // The reference: the wire format, and parsing a whole byte string at once

  function Encode(m: Message): seq<Octet>
    requires |m| < TWO_32
  {
    FromNat(|m|) + m
  }

  predicate Sendable(ms: seq<Message>) {
    forall m <- ms :: |m| < TWO_32
  }

  function EncodeAll(ms: seq<Message>): seq<Octet>
    requires Sendable(ms)
  {
    if ms == [] then [] else Encode(ms[0]) + EncodeAll(ms[1..])
  }

  function Concat(chunks: seq<seq<Octet>>): seq<Octet> {
    if chunks == [] then [] else Concat(chunks[..|chunks| - 1]) + chunks[|chunks| - 1]
  }

  datatype Parsed = Parsed(messages: seq<Message>, rest: seq<Octet>)

  /** Whether a whole message stands at the front of `s`. */
  predicate Complete(s: seq<Octet>) {
    4 <= |s| && ToNat(s[..4]) <= |s| - 4
  }

  function First(s: seq<Octet>): Message
    requires Complete(s)
  {
    s[4..4 + ToNat(s[..4])]
  }

  function After(s: seq<Octet>): (r: seq<Octet>)
    requires Complete(s)
    ensures |r| < |s|
  {
    s[4 + ToNat(s[..4])..]
  }

  /** All complete messages at the front of `s`, and the bytes that do not make up another one. */
  function Parse(s: seq<Octet>): (r: Parsed)
    ensures Sendable(r.messages)
    ensures !Complete(r.rest)
    decreases |s|
  {
    if Complete(s) then
      var later := Parse(After(s));
      Parsed([First(s)] + later.messages, later.rest)
    else
      Parsed([], s)
  }

  /** The bytes a state stands for. */
  function Pending(st: State): seq<Octet>
    requires st.Valid()
  {
    match st
    case Header(held) => held
    case Body(len, part) => FromNat(len) + part
  }

  /** The state that holds exactly these bytes. */
  function StateOf(rest: seq<Octet>): State {
    if |rest| < 4 then Header(rest) else Body(ToNat(rest[..4]), rest[4..])
  }

  lemma SplitFirst(s: seq<Octet>)
    requires Complete(s)
    ensures |First(s)| < TWO_32 && s == Encode(First(s)) + After(s)
  {
    hide ToNat, FromNat;
    FromTo(s[..4]);
  }

  lemma FirstOfEncoded(m: Message, t: seq<Octet>)
    requires |m| < TWO_32
    ensures Complete(Encode(m) + t) && First(Encode(m) + t) == m && After(Encode(m) + t) == t
  {
    hide ToNat, FromNat;
    ToFrom(|m|);
    assert (Encode(m) + t)[..4] == FromNat(|m|);
  }

  lemma FirstOfAppended(s: seq<Octet>, t: seq<Octet>)
    requires Complete(s)
    ensures Complete(s + t) && First(s + t) == First(s) && After(s + t) == After(s) + t
  {
    hide ToNat, FromNat;
    assert (s + t)[..4] == s[..4];
  }

  /** An incomplete byte string is what exactly one state holds. */
  lemma HoldsRest(rest: seq<Octet>)
    requires !Complete(rest)
    ensures StateOf(rest).Valid() && Pending(StateOf(rest)) == rest
  {
    hide ToNat, FromNat;
    if 4 <= |rest| {
      FromTo(rest[..4]);
    }
  }

  lemma PendingIncomplete(st: State)
    requires st.Valid()
    ensures !Complete(Pending(st)) && StateOf(Pending(st)) == st
  {
    hide ToNat, FromNat;
    if st.Body? {
      ToFrom(st.len);
      assert Pending(st)[..4] == FromNat(st.len);
    }
  }

  /** Parsing gives back what it took. */
  lemma {:induction false} ParseConserves(s: seq<Octet>)
    ensures EncodeAll(Parse(s).messages) + Parse(s).rest == s
    decreases |s|
  {
    hide Complete, First, After, Encode;
    if Complete(s) {
      SplitFirst(s);
      var later := Parse(After(s));
      ParseConserves(After(s));
      assert Parse(s).messages[1..] == later.messages;
      assert Encode(First(s)) + EncodeAll(later.messages) + later.rest
          == Encode(First(s)) + (EncodeAll(later.messages) + later.rest);
    }
  }

  lemma {:induction false} ParseEncoded(ms: seq<Message>)
    requires Sendable(ms)
    ensures Parse(EncodeAll(ms)) == Parsed(ms, [])
  {
    hide First, After, Encode;
    if ms != [] {
      FirstOfEncoded(ms[0], EncodeAll(ms[1..]));
      ParseEncoded(ms[1..]);
    }
  }

  /** Bytes that arrive later do not change the messages already complete. */
  lemma {:induction false} ParseAppend(s: seq<Octet>, t: seq<Octet>)
    ensures Parse(s + t).messages == Parse(s).messages + Parse(Parse(s).rest + t).messages
    ensures Parse(s + t).rest == Parse(Parse(s).rest + t).rest
    decreases |s|
  {
    hide Complete, First, After;
    if Complete(s) {
      FirstOfAppended(s, t);
      ParseAppend(After(s), t);
    }
  }

  // ---------------------------------------------------------------------------------------------------------
  // The incremental decoder against the reference

  /**
   Whether `handle` keeps everything it is given: a chunk of fewer than four bytes that arrives while part of a
   header is held overwrites that part.
  */
  predicate Keeps(st: State, chunk: seq<Octet>) {
    st.Header? && st.held != [] ==> 4 <= |chunk|
  }

  /** The code's cases, told in terms of the bytes held and the chunk taken together. */
  function FrameStep(s: seq<Octet>): (r: Outcome) {
    if !Complete(s) then
      Outcome(StateOf(s), [])
    else if After(s) == [] then
      Outcome(Header([]), [First(s)])
    else
      var later := Handled(Header([]), After(s));
      Outcome(later.state, [First(s)] + later.messages)
  }

  lemma HeaderCases(held: seq<Octet>, chunk: seq<Octet>, len: nat, rest: seq<Octet>)
    requires |held| < 4 <= |chunk|
    requires len == ToNat(held + chunk[..4 - |held|]) && rest == chunk[4 - |held|..]
    ensures Complete(held + chunk) <==> len <= |rest|
    ensures len <= |rest| ==> First(held + chunk) == rest[..len] && After(held + chunk) == rest[len..]
    ensures StateOf(held + chunk) == Body(len, rest)
  {
    hide ToNat;
    var s := held + chunk;
    assert s[..4] == held + chunk[..4 - |held|];
    assert s[4..] == rest;
  }

  lemma FrameCases(len: nat, rest: seq<Octet>, s: seq<Octet>)
    requires len < TWO_32
    requires Complete(s) <==> len <= |rest|
    requires len <= |rest| ==> First(s) == rest[..len] && After(s) == rest[len..]
    requires StateOf(s) == Body(len, rest)
    ensures NewFrame(len, rest) == FrameStep(s)
  {
    hide Handled, Complete, First, After, StateOf;
    if len == |rest| {
      assert rest[..len] == rest;
    }
  }

  lemma HeaderStep(held: seq<Octet>, chunk: seq<Octet>)
    requires |held| < 4 <= |chunk|
    ensures Handled(Header(held), chunk) == FrameStep(held + chunk)
  {
    hide ToNat, Complete, First, After, StateOf, NewFrame, FrameStep;
    var len, rest := ToNat(held + chunk[..4 - |held|]), chunk[4 - |held|..];
    HeaderCases(held, chunk, len, rest);
    FrameCases(len, rest, held + chunk);
  }

  lemma BodyStep(st: State, chunk: seq<Octet>)
    requires st.Valid() && st.Body?
    ensures Handled(st, chunk) == FrameStep(Pending(st) + chunk)
  {
    hide ToNat, FromNat;
    var s, over := Pending(st) + chunk, st.len - |st.part|;
    ToFrom(st.len);
    assert s[..4] == FromNat(st.len);
    assert s[4..] == st.part + chunk;
    if Complete(s) {
      assert First(s) == st.part + chunk[..over];
      assert After(s) == chunk[over..];
    }
  }

  /** One call agrees with parsing the held bytes and the chunk together. */
  lemma {:induction false} HandleAgrees(st: State, chunk: seq<Octet>)
    requires st.Valid() && Keeps(st, chunk)
    ensures var p := Parse(Pending(st) + chunk);
            Handled(st, chunk) == Outcome(StateOf(p.rest), p.messages)
    decreases |Pending(st) + chunk|
  {
    hide Handled, Complete, First, After;
    var s := Pending(st) + chunk;
    if st.Header? && |chunk| < 4 {
      ShortChunk(st, chunk);
    } else {
      if st.Header? {
        HeaderStep(st.held, chunk);
      } else {
        BodyStep(st, chunk);
      }
      if Complete(s) {
        assert Pending(Header([])) + After(s) == After(s);
        HandleAgrees(Header([]), After(s));
      }
    }
  }

  lemma ShortChunk(st: State, chunk: seq<Octet>)
    requires st.Header? && st.held == [] && |chunk| < 4
    ensures Handled(st, chunk) == Outcome(StateOf(chunk), [])
    ensures Pending(st) + chunk == chunk && !Complete(chunk)
  {}

  // ---------------------------------------------------------------------------------------------------------
  // Whole streams

  /**
   A cut of the input that the decoder survives: if the bytes before it end inside a header, the next chunk has
   at least four bytes. This speaks of the input alone.
  */
  predicate SafeCut(before: seq<Octet>, chunk: seq<Octet>) {
    1 <= |Parse(before).rest| < 4 ==> 4 <= |chunk|
  }

  predicate Safe(chunks: seq<seq<Octet>>) {
    forall i :: 0 <= i < |chunks| ==> SafeCut(Concat(chunks[..i]), chunks[i])
  }

  lemma SafeInit(chunks: seq<seq<Octet>>)
    requires chunks != []
    ensures Safe(chunks) <==>
              Safe(chunks[..|chunks| - 1]) && SafeCut(Concat(chunks[..|chunks| - 1]), chunks[|chunks| - 1])
  {
    hide SafeCut, Concat;
    var n := |chunks| - 1;
    assert forall i :: 0 <= i < n ==> chunks[..n][..i] == chunks[..i];
  }

  /** On every safe splitting the decoder agrees with parsing the whole byte string at once. */
  lemma {:induction false} FedAgrees(chunks: seq<seq<Octet>>)
    requires Safe(chunks)
    ensures var p := Parse(Concat(chunks));
            Fed(chunks) == Outcome(StateOf(p.rest), p.messages)
    decreases |chunks|
  {
    hide Safe, Handled;
    if chunks == [] {
      hide *;
      NothingFed();
    } else {
      var before, chunk := chunks[..|chunks| - 1], chunks[|chunks| - 1];
      SafeInit(chunks);
      FedAgrees(before);
      var p := Parse(Concat(before));
      HoldsRest(p.rest);
      HandleAgrees(StateOf(p.rest), chunk);
      ParseAppend(Concat(before), chunk);
    }
  }

  lemma NothingFed()
    ensures Concat([]) == [] && Parse([]) == Parsed([], []) && Fed([]) == Outcome(Header([]), [])
    ensures StateOf([]) == Header([])
  {}

  /** Header bytes overwritten while a stream is fed. */
  function Lost(chunks: seq<seq<Octet>>): nat {
    if chunks == [] then 0 else
      var before, chunk := chunks[..|chunks| - 1], chunks[|chunks| - 1];
      Lost(before) + (if Keeps(Fed(before).state, chunk) then 0 else |Fed(before).state.held|)
  }

  lemma {:induction false} EncodeAllConcat(a: seq<Message>, b: seq<Message>)
    requires Sendable(a) && Sendable(b)
    ensures EncodeAll(a + b) == EncodeAll(a) + EncodeAll(b)
  {
    hide Encode;
    if a == [] {
      assert a + b == b;
    } else {
      assert (a + b)[1..] == a[1..] + b;
      EncodeAllConcat(a[1..], b);
    }
  }

  lemma HandleConserves(st: State, chunk: seq<Octet>)
    requires st.Valid() && Keeps(st, chunk)
    ensures EncodeAll(Handled(st, chunk).messages) + Pending(Handled(st, chunk).state) == Pending(st) + chunk
  {
    hide Handled, Parse, Keeps;
    HandleAgrees(st, chunk);
    ParseConserves(Pending(st) + chunk);
    HoldsRest(Parse(Pending(st) + chunk).rest);
  }

  /** Every byte fed is in a delivered message's encoding, held in the state, or was overwritten. */
  lemma {:induction false} BytesAccountedFor(chunks: seq<seq<Octet>>)
    ensures |EncodeAll(Fed(chunks).messages)| + |Pending(Fed(chunks).state)| + Lost(chunks) == |Concat(chunks)|
    decreases |chunks|
  {
    hide Handled;
    if chunks == [] {
      NothingFed();
    } else {
      var before, chunk := chunks[..|chunks| - 1], chunks[|chunks| - 1];
      BytesAccountedFor(before);
      var st := Fed(before).state;
      EncodeAllConcat(Fed(before).messages, Handled(st, chunk).messages);
      if Keeps(st, chunk) {
        HandleConserves(st, chunk);
      } else {
        Overwritten(st, chunk);
      }
    }
  }

  lemma Overwritten(st: State, chunk: seq<Octet>)
    requires st.Valid() && !Keeps(st, chunk)
    ensures Handled(st, chunk) == Outcome(Header(chunk), [])
  {}

  lemma {:induction false} NothingLostIffSafe(chunks: seq<seq<Octet>>)
    ensures Lost(chunks) == 0 <==> Safe(chunks)
    decreases |chunks|
  {
    hide Safe, Handled, Fed;
    if chunks == [] {
      hide *;
      NoChunksSafe();
    } else {
      var before := chunks[..|chunks| - 1];
      SafeInit(chunks);
      NothingLostIffSafe(before);
      if Safe(before) {
        FedAgrees(before);
        HoldsRest(Parse(Concat(before)).rest);
      }
    }
  }

  lemma NoChunksSafe()
    ensures Safe([]) && Lost([]) == 0
  {}

  /**
   Conservation, exactly when it holds: the encodings of the delivered messages followed by the held bytes are the
   input if and only if no chunk of fewer than four bytes arrives inside a header.
  */
  lemma ConservesIffSafe(chunks: seq<seq<Octet>>)
    ensures EncodeAll(Fed(chunks).messages) + Pending(Fed(chunks).state) == Concat(chunks) <==> Safe(chunks)
    ensures !Complete(Pending(Fed(chunks).state))
  {
    hide Safe, Fed, Concat, Parse, Lost, EncodeAll, Complete, Pending;
    PendingIncomplete(Fed(chunks).state);
    NothingLostIffSafe(chunks);
    BytesAccountedFor(chunks);
    if Safe(chunks) {
      FedAgrees(chunks);
      ParseConserves(Concat(chunks));
      HoldsRest(Parse(Concat(chunks)).rest);
    }
  }

  /** The decoder agrees with the whole-string parse on exactly the safe splittings. */
  lemma AgreesIffSafe(chunks: seq<seq<Octet>>)
    ensures Fed(chunks) == Outcome(StateOf(Parse(Concat(chunks)).rest), Parse(Concat(chunks)).messages) <==> Safe(chunks)
  {
    hide Safe, Fed, Concat, Parse, EncodeAll, Complete, Pending, StateOf;
    if Safe(chunks) {
      FedAgrees(chunks);
    } else {
      ConservesIffSafe(chunks);
      ParseConserves(Concat(chunks));
      HoldsRest(Parse(Concat(chunks)).rest);
    }
  }

  /** Round trip: any safe splitting of encoded messages delivers them, in order, and leaves the decoder idle. */
  lemma RoundTrip(ms: seq<Message>, chunks: seq<seq<Octet>>)
    requires Sendable(ms) && Safe(chunks) && Concat(chunks) == EncodeAll(ms)
    ensures Fed(chunks) == Outcome(Header([]), ms)
  {
    hide Safe, Fed, Concat, Parse, EncodeAll;
    FedAgrees(chunks);
    ParseEncoded(ms);
  }

  /** How the bytes are cut does not matter, as long as both ways of cutting are safe. */
  lemma ChunkingIndependent(a: seq<seq<Octet>>, b: seq<seq<Octet>>)
    requires Safe(a) && Safe(b) && Concat(a) == Concat(b)
    ensures Fed(a) == Fed(b)
  {
    hide Safe, Fed, Concat, Parse;
    FedAgrees(a);
    FedAgrees(b);
  }

  /** The wire format in full: four bytes that spell the length, least significant first, and then the message. */
  lemma WireFormat(a: Octet, b: Octet, c: Octet, d: Octet, m: Message)
    requires (a as int) + 0x100 * (b as int) + 0x1_0000 * (c as int) + 0x100_0000 * (d as int) == |m|
    ensures Fed([[a, b, c, d] + m]) == Outcome(Header([]), [m])
  {
    var head: seq<Octet> := [a, b, c, d];
    var chunk: seq<Octet> := head + m;
    var chunks: seq<seq<Octet>> := [chunk];
    ByteOrder(head);
    assert chunk[..4] == head && chunk[4..] == m;
    assert [] + chunk[..4] == head;
    assert Handled(Header([]), chunk) == Outcome(Header([]), [m]);
    assert chunks[..0] == [];
    NothingFed();
    assert [] + [m] == [m];
  }

  /** A one-byte message sent in three pieces that cut its header after each of the first two bytes is not delivered. */
  lemma SplitHeaderLosesMessage()
    ensures var chunks := [[1], [0], [0, 0, 7]];
            && Concat(chunks) == EncodeAll([[7]])
            && Fed(chunks) == Outcome(Header([0, 0, 7]), [])
            && !Safe(chunks)
  {
    var one, two, chunks: seq<seq<Octet>> := [[1]], [[1], [0]], [[1], [0], [0, 0, 7]];
    assert one[..0] == [] && two[..1] == one && chunks[..2] == two;
    assert Concat(one) == [1] && Concat(two) == [1, 0] && Concat(chunks) == [1, 0, 0, 0, 7];
    assert EncodeAll([[7]]) == [1, 0, 0, 0, 7];
    assert Fed(one) == Outcome(Header([1]), []) && Fed(two) == Outcome(Header([0]), []);
    AgreesIffSafe(chunks);
    ParseEncoded([[7]]);
  }
}
