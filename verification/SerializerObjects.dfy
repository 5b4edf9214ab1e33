/** The two cursors of a serialiser over a memory buffer. */
module SerializerObjects {
  import opened Octets
  import opened LittleEndian
  import opened Serializer

  lemma {:induction false} PushPiecesConcat(buf: seq<Octet>, pos: nat, a: seq<seq<Octet>>, b: seq<seq<Octet>>)
    requires pos <= |buf| < TWO_32
    ensures PushPieces(buf, pos, a + b) ==
              var w := PushPieces(buf, pos, a);
              if w.status != Pushed then w else PushPieces(w.buf, w.pos, b)
    decreases |a|
  {
    hide PushRaw;
    if a == [] {
      assert a + b == b;
    } else {
      assert (a + b)[0] == a[0] && (a + b)[1..] == a[1..] + b;
      var w := PushRaw(buf, pos, a[0]);
      if w.status == Pushed {
        PushPiecesConcat(w.buf, w.pos, a[1..], b);
      }
    }
  }

  lemma PushOnePiece(buf: seq<Octet>, pos: nat, p: seq<Octet>)
    requires pos <= |buf| < TWO_32
    ensures PushPieces(buf, pos, [p]) == PushRaw(buf, pos, p)
  {
    hide PushRaw;
    assert [p][1..] == [];
  }

  /** The write cursor of serialize_in.hpp. */
  class BinaryIn {
    const buffer: array<Octet>
    var inPos: nat

    ghost predicate Valid()
      reads this
    {
      inPos <= buffer.Length < TWO_32
    }

    constructor (buffer: array<Octet>)
      requires buffer.Length < TWO_32
      ensures this.buffer == buffer && inPos == 0 && Valid()
    {
      this.buffer, inPos := buffer, 0;
    }

    /** The check and copy of `push`, `push_array` and `push_pointer`. */
    method PushBytes(bytes: seq<Octet>) returns (status: Status)
      requires Valid()
      modifies this, buffer
      ensures Valid()
      ensures Writing(buffer[..], inPos, status) == PushRaw(old(buffer[..]), old(inPos), bytes)
    {
      var len := |bytes| % TWO_32;
      var end := (len + inPos) % TWO_32;
      ghost var before := buffer[..];
      if end > buffer.Length {
        status := Full;
      } else {
        // Of a write past the end only the part inside the buffer is followed.
        var inside := if len + inPos < TWO_32 then len else buffer.Length - inPos;
        forall i | 0 <= i < inside {
          buffer[inPos + i] := bytes[i];
        }
        assert buffer[..] == before[..inPos] + bytes[..inside] + before[inPos + inside..];
        status := if len + inPos < TWO_32 then Pushed else Beyond;
        inPos := end;
      }
    }

    /** Pushing a value pushes its pieces, up to the first check that throws. */
    method Push(v: Value) returns (status: Status)
      requires Valid()
      modifies this, buffer
      ensures Valid()
      ensures Writing(buffer[..], inPos, status) == PushPieces(old(buffer[..]), old(inPos), Pieces(v))
      decreases v, 0
    {
      ghost var b0, p0 := buffer[..], inPos;
      hide PushRaw;
      match v
      case Bytes(bytes) =>
        PushOnePiece(b0, p0, bytes);
        status := PushBytes(bytes);
      case Text(count, chars) =>
        PushOnePiece(b0, p0, FromNat(count));
        PushPiecesConcat(b0, p0, [FromNat(count)], [chars]);
        assert [FromNat(count)] + [chars] == Pieces(v);
        status := PushBytes(FromNat(count));
        if status == Pushed {
          PushOnePiece(buffer[..], inPos, chars);
          status := PushBytes(chars);
        }
      case Items(items) =>
        status := Pushed;
        var i := 0;
        assert items[0..] == items;
        while i < |items|
          invariant 0 <= i <= |items| && status == Pushed
          invariant Valid()
          invariant PushPieces(b0, p0, Pieces(v)) == PushPieces(buffer[..], inPos, Pieces(Items(items[i..])))
        {
          ghost var b, p := buffer[..], inPos;
          PiecesOfItems(items[i..]);
          assert items[i..][1..] == items[i + 1..];
          PushPiecesConcat(b, p, Pieces(items[i]), Pieces(Items(items[i + 1..])));
          status := Push(items[i]);
          if status != Pushed {
            return;
          }
          i := i + 1;
        }
        assert items[i..] == [];
        PiecesOfItems([]);
      case Boxed(inner) =>
        status := Push(inner);
    }
  }

  /** The read cursor of serialize_out.hpp. */
  class BinaryOut {
    const buffer: seq<Octet>
    var outPos: nat

    constructor (buffer: seq<Octet>)
      ensures this.buffer == buffer && outPos == 0
    {
      this.buffer, outPos := buffer, 0;
    }

    /** The check and copy of `pop`, `pop_array` and `pop_pointer`. */
    method PopBytes(unit: nat, count: nat) returns (r: Outcome<seq<Octet>>)
      modifies this
      ensures r == PopRaw(buffer, old(outPos), unit, count) && outPos == r.pos
    {
      var len := unit * count % TWO_32;
      var end := (len + outPos) % TWO_32;
      if end > |buffer| {
        return OutOfRange(outPos);
      }
      r := if len + outPos < TWO_32 then Popped(buffer[outPos..outPos + len], end) else Outside(end);
      outPos := end;
    }

    /** Popping a value does what `Pop` says and leaves the cursor where it says. */
    method PopValue(shape: Shape) returns (r: Outcome<Value>)
      modifies this
      ensures r == Pop(shape, buffer, old(outPos)) && outPos == r.pos
      decreases shape, 0
    {
      hide PopRaw;
      match shape
      case Scalar(w) =>
        var bytes := PopBytes(w, 1);
        r := Map(bytes, b => Bytes(b));
      case PodArray(w, n) =>
        var bytes := PopBytes(w, n);
        r := Map(bytes, b => Bytes(b));
      case Str(u) =>
        var head := PopBytes(4, 1);
        if head.Popped? {
          var count := ToNat(head.value);
          var chars := PopBytes(u, count);
          r := Map(chars, c => Text(count, c));
        } else {
          r := Map(head, b => Bytes(b));
        }
      case Array(e, n) =>
        var items := PopElements(e, n);
        r := Map(items, vs => Items(vs));
      case Pointer(t) =>
        var inner := PopValue(t);
        r := Map(inner, v => Boxed(v));
    }

    method PopElements(elem: Shape, n: nat) returns (r: Outcome<seq<Value>>)
      modifies this
      ensures r == PopItems(elem, n, buffer, old(outPos)) && outPos == r.pos
      decreases elem, 1
    {
      hide Pop;
      ghost var whole := PopItems(elem, n, buffer, outPos);
      var i, items := 0, [];
      assert whole.Popped? ==> [] + whole.value == whole.value;
      while i < n
        invariant 0 <= i <= n
        invariant whole == Map(PopItems(elem, n - i, buffer, outPos), vs => items + vs)
      {
        var one := PopValue(elem);
        if !one.Popped? {
          return Map(one, v => [v]);
        }
        ghost var rest := PopItems(elem, n - i - 1, buffer, outPos);
        assert rest.Popped? ==> items + ([one.value] + rest.value) == items + [one.value] + rest.value;
        items := items + [one.value];
        i := i + 1;
      }
      assert items + [] == items;
      r := Popped(items, outPos);
    }
  }
}
