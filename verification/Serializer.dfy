/**
 The binary serialiser (include/serialize/detail/dispatch.hpp, serialize_in.hpp, serialize_out.hpp) over a memory
 buffer: which bytes a value is pushed as, and what popping makes of a buffer. Lengths and positions are unsigned
 32-bit numbers, and so are their sums and products.
*/
module Serializer {
  import opened Octets
  import opened LittleEndian

  type Word = n: nat | n < TWO_32

  /**
   The types that are dispatched here: a scalar of so many bytes, a string of characters of so many bytes each, an
   array of POD elements, an array popped element by element, and a pointer to another type.
  */
  datatype Shape =
    | Scalar(width: nat)
    | Str(unit: nat)
    | PodArray(width: nat, count: nat)
    | Array(elem: Shape, count: nat)
    | Pointer(target: Shape)

  datatype Value =
    | Bytes(bytes: seq<Octet>)
    | Text(count: Word, chars: seq<Octet>)
    | Items(items: seq<Value>)
    | Boxed(inner: Value)

  /** The length in bytes of `count` elements of `unit` bytes: the true one, or what 32 bits hold of it. */
  function Length(unit: nat, count: nat, wraps: bool): nat {
    if wraps then unit * count % TWO_32 else unit * count
  }

  predicate Matches(shape: Shape, v: Value, wraps: bool) {
    match shape
    case Scalar(w) => v.Bytes? && |v.bytes| == Length(w, 1, wraps)
    case Str(u) => v.Text? && |v.chars| == Length(u, v.count, wraps)
    case PodArray(w, n) => v.Bytes? && |v.bytes| == Length(w, n, wraps)
    case Array(e, n) => v.Items? && |v.items| == n && forall i <- v.items :: Matches(e, i, wraps)
    case Pointer(t) => v.Boxed? && Matches(t, v.inner, wraps)
  }

  /** The value belongs to the type. */
  predicate Fits(shape: Shape, v: Value) {
    Matches(shape, v, false)
  }

  /** The value belongs to the type as far as 32-bit lengths can tell: a text may be short by multiples of 2^32. */
  predicate FitsIn32(shape: Shape, v: Value) {
    Matches(shape, v, true)
  }

  function Flatten<T>(parts: seq<seq<T>>): seq<T> {
    if parts == [] then [] else parts[0] + Flatten(parts[1..])
  }

  /** The runs of bytes that pushing a value hands to the write cursor, one after another. */
  function Pieces(v: Value): seq<seq<Octet>> {
    match v
    case Bytes(bytes) => [bytes]
    case Text(count, chars) => [FromNat(count), chars]
    case Items(items) => Flatten(seq(|items|, i requires 0 <= i < |items| => Pieces(items[i])))
    case Boxed(inner) => Pieces(inner)
  }

  /** The bytes of a value on the wire. */
  function Encode(v: Value): seq<Octet> {
    Flatten(Pieces(v))
  }

  function EncodeItems(items: seq<Value>): seq<Octet> {
    Encode(Items(items))
  }

  lemma {:induction false} FlattenConcat<T>(a: seq<seq<T>>, b: seq<seq<T>>)
    ensures Flatten(a + b) == Flatten(a) + Flatten(b)
    decreases |a|
  {
    if a == [] {
      assert a + b == b;
    } else {
      assert (a + b)[0] == a[0] && (a + b)[1..] == a[1..] + b;
      FlattenConcat(a[1..], b);
    }
  }

  lemma FlattenOne<T>(a: seq<T>, parts: seq<seq<T>>)
    ensures Flatten([a] + parts) == a + Flatten(parts)
  {
    assert ([a] + parts)[1..] == parts;
  }

  lemma PiecesOfItems(items: seq<Value>)
    ensures items == [] ==> Pieces(Items(items)) == []
    ensures items != [] ==> Pieces(Items(items)) == Pieces(items[0]) + Pieces(Items(items[1..]))
  {
    if items != [] {
      var all := seq(|items|, i requires 0 <= i < |items| => Pieces(items[i]));
      var rest := items[1..];
      assert all[1..] == seq(|rest|, i requires 0 <= i < |rest| => Pieces(rest[i]));
    }
  }

  /** How the parts of a value line up on the wire. */
  lemma EncodeParts(v: Value)
    ensures v.Bytes? ==> Encode(v) == v.bytes
    ensures v.Text? ==> Encode(v) == FromNat(v.count) + v.chars
    ensures v.Boxed? ==> Encode(v) == Encode(v.inner)
  {
    if v.Text? {
      FlattenOne(FromNat(v.count), [v.chars]);
      FlattenOne(v.chars, []);
      assert [v.chars] + [] == [v.chars];
    } else if v.Bytes? {
      FlattenOne(v.bytes, []);
      assert [v.bytes] + [] == [v.bytes];
    }
  }

  lemma EncodeCons(items: seq<Value>)
    ensures items == [] ==> EncodeItems(items) == []
    ensures items != [] ==> EncodeItems(items) == Encode(items[0]) + EncodeItems(items[1..])
  {
    hide Pieces;
    PiecesOfItems(items);
    if items != [] {
      FlattenConcat(Pieces(items[0]), Pieces(Items(items[1..])));
    }
  }

  /** What each type takes on the wire: a string its count and its characters, everything else its bytes alone. */
  lemma WireSizes(shape: Shape, v: Value)
    requires Fits(shape, v)
    ensures shape.Scalar? ==> |Encode(v)| == shape.width
    ensures shape.PodArray? ==> |Encode(v)| == shape.width * shape.count
    ensures shape.Str? ==> |Encode(v)| == 4 + shape.unit * v.count
    ensures shape.Pointer? ==> Encode(v) == Encode(v.inner)
    ensures shape.Array? ==> |v.items| == shape.count
  {
    hide Encode, FromNat;
    EncodeParts(v);
  }

  /** A text of two characters on the wire, byte by byte, and an array of such texts. */
  lemma TextOnTheWire()
    ensures Encode(Text(2, [65, 66])) == [2, 0, 0, 0, 65, 66]
    ensures Encode(Items([Text(1, [67]), Bytes([7, 8])])) == [1, 0, 0, 0, 67, 7, 8]
  {
    EncodeParts(Text(2, [65, 66]));
    EncodeParts(Text(1, [67]));
    EncodeParts(Bytes([7, 8]));
    var items := [Text(1, [67]), Bytes([7, 8])];
    assert items[1..] == [Bytes([7, 8])] && items[1..][1..] == [];
    hide Encode;
    EncodeCons(items);
    EncodeCons(items[1..]);
    EncodeCons([]);
  }

  // ---------------------------------------------------------------------------------------------------------
  // Popping

  /**
   What popping does: a value and the new position, an exception with the position where it was thrown, or a read
   from outside the buffer, after which only the position is known.
  */
  datatype Outcome<+T> =
    | Popped(value: T, pos: nat)
    | OutOfRange(pos: nat)
    | Outside(pos: nat)

  /** The check and copy that all three primitives share, for `count` elements of `unit` bytes. */
  function PopRaw(buf: seq<Octet>, pos: nat, unit: nat, count: nat): (r: Outcome<seq<Octet>>)
    ensures r.Popped? ==> |r.value| == Length(unit, count, true)
  {
    var len := unit * count % TWO_32;
    if (len + pos) % TWO_32 > |buf| then
      OutOfRange(pos)
    else if TWO_32 <= len + pos then
      Outside((len + pos) % TWO_32)
    else
      Popped(buf[pos..pos + len], pos + len)
  }

  function Map<A, B>(o: Outcome<A>, f: A -> B): Outcome<B> {
    match o
    case Popped(a, p) => Popped(f(a), p)
    case OutOfRange(p) => OutOfRange(p)
    case Outside(p) => Outside(p)
  }

  function Pop(shape: Shape, buf: seq<Octet>, pos: nat): Outcome<Value>
    decreases shape, 0
  {
    match shape
    case Scalar(w) => Map(PopRaw(buf, pos, w, 1), b => Bytes(b))
    case PodArray(w, n) => Map(PopRaw(buf, pos, w, n), b => Bytes(b))
    case Str(u) =>
      (match PopRaw(buf, pos, 4, 1)
       case Popped(b, p) => Map(PopRaw(buf, p, u, ToNat(b)), chars => Text(ToNat(b), chars))
       case OutOfRange(p) => OutOfRange(p)
       case Outside(p) => Outside(p))
    case Array(e, n) => Map(PopItems(e, n, buf, pos), items => Items(items))
    case Pointer(t) => Map(Pop(t, buf, pos), v => Boxed(v))
  }

  function PopItems(elem: Shape, n: nat, buf: seq<Octet>, pos: nat): Outcome<seq<Value>>
    decreases elem, n + 1
  {
    if n == 0 then
      Popped([], pos)
    else
      match Pop(elem, buf, pos)
      case Popped(v, p) => Map(PopItems(elem, n - 1, buf, p), vs => [v] + vs)
      case OutOfRange(p) => OutOfRange(p)
      case Outside(p) => Outside(p)
  }

  // ---------------------------------------------------------------------------------------------------------
  // The bound check

  /** A read of `need` bytes at `at` that ends beyond 2^32, at a place which looks as if it were in the buffer. */
  predicate Slips(buf: seq<Octet>, at: nat, need: nat) {
    TWO_32 <= at + need && (at + need) % TWO_32 <= |buf|
  }

  /**
   What one check lets through. In terms of the 32-bit length: the bytes in the buffer if they end there, a read
   outside if the end wraps round into the buffer, an exception otherwise. In terms of the true length: a read that
   lies in the buffer is done in full, and a read that does not is let through if and only if it slips.
  */
  lemma CheckIsExact(buf: seq<Octet>, pos: nat, unit: nat, count: nat)
    requires |buf| < TWO_32 && pos <= |buf|
    ensures var len := Length(unit, count, true);
            PopRaw(buf, pos, unit, count) ==
              if pos + len <= |buf| then Popped(buf[pos..pos + len], pos + len)
              else if TWO_32 <= pos + len <= TWO_32 + |buf| then Outside(pos + len - TWO_32)
              else OutOfRange(pos)
    ensures pos + unit * count <= |buf| ==> Length(unit, count, true) == unit * count
    ensures !PopRaw(buf, pos, unit, count).OutOfRange? && |buf| < pos + unit * count <==> Slips(buf, pos, unit * count)
  {
    ModIn32(pos, unit * count);
  }

  lemma ModIn32(pos: nat, need: nat)
    requires pos < TWO_32
    ensures need < TWO_32 ==> need % TWO_32 == need
    ensures (pos + need) % TWO_32 == (need % TWO_32 + pos) % TWO_32
         == if pos + need % TWO_32 < TWO_32 then pos + need % TWO_32 else pos + need % TWO_32 - TWO_32
  {}

  /** The product wraps: a string of 2^31 wide characters is announced, none is read, and popping goes on. */
  lemma ProductWraps()
    ensures Pop(Str(2), [0, 0, 0, 128], 0) == Popped(Text(0x8000_0000, []), 4)
    ensures !Fits(Str(2), Text(0x8000_0000, []))
  {
    var buf: seq<Octet> := [0, 0, 0, 128];
    FourBytes(buf, 0);
    assert buf[0..4] == buf && ToNat(buf) == 0x8000_0000;
    hide PopRaw, ToNat;
    CheckIsExact(buf, 4, 2, 0x8000_0000);
  }

  /** The sum wraps: almost 2^32 bytes behind a four-byte buffer are read, and the cursor ends up at three. */
  lemma SumWraps()
    ensures Pop(Str(1), [255, 255, 255, 255], 0) == Outside(3)
  {
    var buf: seq<Octet> := [255, 255, 255, 255];
    FourBytes(buf, 0);
    assert buf[0..4] == buf && ToNat(buf) == TWO_32 - 1;
    hide PopRaw, ToNat;
    CheckIsExact(buf, 4, 1, TWO_32 - 1);
  }

  /** Where the reads that a type and a buffer call for lead: up to `end`, or to a first one that is too long. */
  datatype Extent = Within(end: nat) | Overrun(at: nat, need: nat)

  function Span(buf: seq<Octet>, pos: nat, len: nat): Extent {
    if pos + len <= |buf| then Within(pos + len) else Overrun(pos, len)
  }

  /** Walks over the announced counts, with true lengths or with what 32 bits hold of them. */
  function Measure(shape: Shape, buf: seq<Octet>, pos: nat, wraps: bool): (r: Extent)
    requires pos <= |buf|
    ensures r.Within? ==> r.end <= |buf|
    decreases shape, 0
  {
    match shape
    case Scalar(w) => Span(buf, pos, Length(w, 1, wraps))
    case PodArray(w, n) => Span(buf, pos, Length(w, n, wraps))
    case Str(u) =>
      if pos + 4 <= |buf| then Span(buf, pos + 4, Length(u, ToNat(buf[pos..pos + 4]), wraps)) else Overrun(pos, 4)
    case Array(e, n) => MeasureItems(e, n, buf, pos, wraps)
    case Pointer(t) => Measure(t, buf, pos, wraps)
  }

  function MeasureItems(elem: Shape, n: nat, buf: seq<Octet>, pos: nat, wraps: bool): (r: Extent)
    requires pos <= |buf|
    ensures r.Within? ==> r.end <= |buf|
    decreases elem, n + 1
  {
    if n == 0 then
      Within(pos)
    else
      match Measure(elem, buf, pos, wraps)
      case Within(p) => MeasureItems(elem, n - 1, buf, p, wraps)
      case Overrun(at, need) => Overrun(at, need)
  }

  /** What becomes of a walk with 32-bit lengths. */
  predicate Follows<T>(o: Outcome<T>, m: Extent, buf: seq<Octet>) {
    match m
    case Within(end) => o.Popped? && o.pos == end
    case Overrun(at, len) =>
      if TWO_32 <= at + len <= TWO_32 + |buf| then o == Outside(at + len - TWO_32) else o == OutOfRange(at)
  }

  /** For every type and buffer: when popping succeeds, throws, or reads outside, and where the cursor is left. */
  lemma {:induction false} PopEndsWhere(shape: Shape, buf: seq<Octet>, pos: nat)
    requires |buf| < TWO_32 && pos <= |buf|
    ensures Follows(Pop(shape, buf, pos), Measure(shape, buf, pos, true), buf)
    decreases shape, 0
  {
    hide PopRaw, ToNat, Length;
    match shape
    case Scalar(w) => CheckIsExact(buf, pos, w, 1);
    case PodArray(w, n) => CheckIsExact(buf, pos, w, n);
    case Str(u) =>
      FourBytes(buf, pos);
      if pos + 4 <= |buf| {
        CheckIsExact(buf, pos + 4, u, ToNat(buf[pos..pos + 4]));
      }
    case Array(e, n) => ItemsEndWhere(e, n, buf, pos);
    case Pointer(t) => PopEndsWhere(t, buf, pos);
  }

  lemma {:induction false} ItemsEndWhere(elem: Shape, n: nat, buf: seq<Octet>, pos: nat)
    requires |buf| < TWO_32 && pos <= |buf|
    ensures Follows(PopItems(elem, n, buf, pos), MeasureItems(elem, n, buf, pos, true), buf)
    decreases elem, n + 1
  {
    hide Pop, Measure;
    if n != 0 {
      PopEndsWhere(elem, buf, pos);
      if Measure(elem, buf, pos, true).Within? {
        ItemsEndWhere(elem, n - 1, buf, Pop(elem, buf, pos).pos);
      }
    }
  }

  /** The four bytes of an announced count are popped, or refused, as they should be. */
  lemma FourBytes(buf: seq<Octet>, pos: nat)
    requires |buf| < TWO_32 && pos <= |buf|
    ensures PopRaw(buf, pos, 4, 1) ==
              if pos + 4 <= |buf| then Popped(buf[pos..pos + 4], pos + 4)
              else if TWO_32 <= pos + 4 then Outside(pos + 4 - TWO_32)
              else OutOfRange(pos)
  {
    CheckIsExact(buf, pos, 4, 1);
  }

  /** The check lets a read through that does not lie in the buffer. */
  predicate WrongRaw(buf: seq<Octet>, pos: nat, unit: nat, count: nat) {
    !PopRaw(buf, pos, unit, count).OutOfRange? && |buf| < pos + unit * count
  }

  /** Some check made while popping does. */
  predicate Wrong(shape: Shape, buf: seq<Octet>, pos: nat)
    decreases shape, 0
  {
    match shape
    case Scalar(w) => WrongRaw(buf, pos, w, 1)
    case PodArray(w, n) => WrongRaw(buf, pos, w, n)
    case Str(u) =>
      var head := PopRaw(buf, pos, 4, 1);
      WrongRaw(buf, pos, 4, 1) || (head.Popped? && WrongRaw(buf, head.pos, u, ToNat(head.value)))
    case Array(e, n) => WrongItems(e, n, buf, pos)
    case Pointer(t) => Wrong(t, buf, pos)
  }

  predicate WrongItems(elem: Shape, n: nat, buf: seq<Octet>, pos: nat)
    decreases elem, n + 1
  {
    n != 0 && (
      var first := Pop(elem, buf, pos);
      Wrong(elem, buf, pos) || (first.Popped? && WrongItems(elem, n - 1, buf, first.pos)))
  }

  /** The first read that is truly too long slips. */
  predicate FirstSlips(m: Extent, buf: seq<Octet>) {
    m.Overrun? && Slips(buf, m.at, m.need)
  }

  lemma RawWrongIffSlips(buf: seq<Octet>, pos: nat, unit: nat, count: nat)
    requires |buf| < TWO_32 && pos <= |buf|
    ensures var m, o := Span(buf, pos, Length(unit, count, false)), PopRaw(buf, pos, unit, count);
            && (WrongRaw(buf, pos, unit, count) <==> FirstSlips(m, buf))
            && (m.Within? ==> o.Popped? && o.pos == m.end)
            && (m.Overrun? && !FirstSlips(m, buf) ==> o == OutOfRange(m.at))
            && (o.Popped? ==> (|o.value| == Length(unit, count, false) <==> m.Within?))
  {
    hide PopRaw, Slips;
    CheckIsExact(buf, pos, unit, count);
  }

  /**
   The bound checks fail to protect a buffer if and only if the first announced count that is too long slips. If it
   does not, popping does what unbounded arithmetic would: all of it and a value of the type, or an exception at
   that count. And a value of the type is popped only if nothing was too long.
  */
  lemma {:induction false} WrongIffFirstSlips(shape: Shape, buf: seq<Octet>, pos: nat)
    requires |buf| < TWO_32 && pos <= |buf|
    ensures var m, o := Measure(shape, buf, pos, false), Pop(shape, buf, pos);
            && (Wrong(shape, buf, pos) <==> FirstSlips(m, buf))
            && (m.Within? ==> o.Popped? && o.pos == m.end)
            && (m.Overrun? && !FirstSlips(m, buf) ==> o == OutOfRange(m.at))
            && (o.Popped? ==> (Fits(shape, o.value) <==> m.Within?))
    decreases shape, 0
  {
    hide ToNat, PopRaw, WrongRaw, Slips, Length;
    match shape
    case Scalar(w) => RawWrongIffSlips(buf, pos, w, 1);
    case PodArray(w, n) => RawWrongIffSlips(buf, pos, w, n);
    case Str(u) =>
      FourBytes(buf, pos);
      RawWrongIffSlips(buf, pos, 4, 1);
      assert Length(4, 1, false) == 4 by { FourIsFour(); }
      if pos + 4 <= |buf| {
        RawWrongIffSlips(buf, pos + 4, u, ToNat(buf[pos..pos + 4]));
      }
    case Array(e, n) => ItemsWrongIffFirstSlips(e, n, buf, pos);
    case Pointer(t) => WrongIffFirstSlips(t, buf, pos);
  }

  lemma FourIsFour()
    ensures Length(4, 1, false) == Length(4, 1, true) == 4
  {}

  lemma {:induction false} ItemsWrongIffFirstSlips(elem: Shape, n: nat, buf: seq<Octet>, pos: nat)
    requires |buf| < TWO_32 && pos <= |buf|
    ensures var m, o := MeasureItems(elem, n, buf, pos, false), PopItems(elem, n, buf, pos);
            && (WrongItems(elem, n, buf, pos) <==> FirstSlips(m, buf))
            && (m.Within? ==> o.Popped? && o.pos == m.end)
            && (m.Overrun? && !FirstSlips(m, buf) ==> o == OutOfRange(m.at))
            && (o.Popped? ==> |o.value| == n && ((forall v <- o.value :: Fits(elem, v)) <==> m.Within?))
    decreases elem, n + 1
  {
    hide Pop, Measure, Wrong, Fits;
    if n != 0 {
      var first := Pop(elem, buf, pos);
      WrongIffFirstSlips(elem, buf, pos);
      PopEndsWhere(elem, buf, pos);
      if first.Popped? {
        ItemsWrongIffFirstSlips(elem, n - 1, buf, first.pos);
        var rest := PopItems(elem, n - 1, buf, first.pos);
        if rest.Popped? {
          var all := [first.value] + rest.value;
          assert all[0] == first.value && forall v <- rest.value :: v in all;
        }
      }
    }
  }

  // ---------------------------------------------------------------------------------------------------------
  // Popping inverts pushing

  /** `buf` holds `bytes` at `pos`. */
  predicate HoldsAt(buf: seq<Octet>, pos: nat, bytes: seq<Octet>) {
    pos + |bytes| <= |buf| && buf[pos..pos + |bytes|] == bytes
  }

  lemma HoldsSplit(buf: seq<Octet>, pos: nat, a: seq<Octet>, b: seq<Octet>)
    ensures HoldsAt(buf, pos, a + b) <==> HoldsAt(buf, pos, a) && HoldsAt(buf, pos + |a|, b)
  {
    if pos + |a| + |b| <= |buf| {
      var s := buf[pos..pos + |a| + |b|];
      assert s[..|a|] == buf[pos..pos + |a|] && s[|a|..] == buf[pos + |a|..pos + |a| + |b|];
      assert s == s[..|a|] + s[|a|..];
      assert (a + b)[..|a|] == a && (a + b)[|a|..] == b;
    }
  }

  /** If the encoding of a value lies in the buffer at the cursor, popping its type returns the value. */
  lemma {:induction false} PopsEncoded(shape: Shape, v: Value, buf: seq<Octet>, pos: nat)
    requires |buf| < TWO_32 && FitsIn32(shape, v) && HoldsAt(buf, pos, Encode(v))
    ensures Pop(shape, buf, pos) == Popped(v, pos + |Encode(v)|)
    decreases shape, 0
  {
    hide PopRaw, ToNat, FromNat, Encode;
    EncodeParts(v);
    match shape
    case Scalar(w) => CheckIsExact(buf, pos, w, 1);
    case PodArray(w, n) => CheckIsExact(buf, pos, w, n);
    case Str(u) =>
      HoldsSplit(buf, pos, FromNat(v.count), v.chars);
      FourBytes(buf, pos);
      ToFrom(v.count);
      CheckIsExact(buf, pos + 4, u, v.count);
    case Array(e, n) => PopsItemsEncoded(e, v.items, buf, pos);
    case Pointer(t) => PopsEncoded(t, v.inner, buf, pos);
  }

  lemma {:induction false} PopsItemsEncoded(elem: Shape, items: seq<Value>, buf: seq<Octet>, pos: nat)
    requires |buf| < TWO_32 && (forall i <- items :: FitsIn32(elem, i)) && HoldsAt(buf, pos, EncodeItems(items))
    ensures PopItems(elem, |items|, buf, pos) == Popped(items, pos + |EncodeItems(items)|)
    decreases elem, |items| + 1
  {
    hide Pop, Encode, EncodeItems;
    EncodeCons(items);
    if items != [] {
      var first := Encode(items[0]);
      HoldsSplit(buf, pos, first, EncodeItems(items[1..]));
      PopsEncoded(elem, items[0], buf, pos);
      PopsItemsEncoded(elem, items[1..], buf, pos + |first|);
      assert items == [items[0]] + items[1..];
    }
  }

  /** Conversely, whatever popping returns fits the type in 32 bits, and its encoding lay between the two positions. */
  lemma {:induction false} PoppedWasEncoded(shape: Shape, buf: seq<Octet>, pos: nat)
    requires |buf| < TWO_32 && pos <= |buf| && Pop(shape, buf, pos).Popped?
    ensures var o := Pop(shape, buf, pos);
            && FitsIn32(shape, o.value)
            && HoldsAt(buf, pos, Encode(o.value))
            && o.pos == pos + |Encode(o.value)|
    decreases shape, 0
  {
    hide PopRaw, ToNat, FromNat, Encode;
    EncodeParts(Pop(shape, buf, pos).value);
    match shape
    case Scalar(w) => CheckIsExact(buf, pos, w, 1);
    case PodArray(w, n) => CheckIsExact(buf, pos, w, n);
    case Str(u) =>
      FourBytes(buf, pos);
      var b := buf[pos..pos + 4];
      FromTo(b);
      CheckIsExact(buf, pos + 4, u, ToNat(b));
      HoldsSplit(buf, pos, b, Pop(shape, buf, pos).value.chars);
    case Array(e, n) => ItemsWereEncoded(e, n, buf, pos);
    case Pointer(t) => PoppedWasEncoded(t, buf, pos);
  }

  lemma {:induction false} ItemsWereEncoded(elem: Shape, n: nat, buf: seq<Octet>, pos: nat)
    requires |buf| < TWO_32 && pos <= |buf| && PopItems(elem, n, buf, pos).Popped?
    ensures var o := PopItems(elem, n, buf, pos);
            && |o.value| == n && (forall i <- o.value :: FitsIn32(elem, i))
            && HoldsAt(buf, pos, EncodeItems(o.value))
            && o.pos == pos + |EncodeItems(o.value)|
    decreases elem, n + 1
  {
    hide Pop, Encode, EncodeItems, FitsIn32;
    EncodeCons(PopItems(elem, n, buf, pos).value);
    if n != 0 {
      var first := Pop(elem, buf, pos);
      PoppedWasEncoded(elem, buf, pos);
      ItemsWereEncoded(elem, n - 1, buf, first.pos);
      var rest := PopItems(elem, n - 1, buf, first.pos).value;
      assert ([first.value] + rest)[1..] == rest;
      HoldsSplit(buf, pos, Encode(first.value), EncodeItems(rest));
    }
  }

  /**
   What the deserialiser accepts, for all inputs: exactly the encodings of values that fit their type in 32 bits.
   The lengths are not the true ones only where an announced count times the character size reaches 2^32.
  */
  lemma PopIsExact(shape: Shape, buf: seq<Octet>, pos: nat, v: Value, end: nat)
    requires |buf| < TWO_32 && pos <= |buf|
    ensures Pop(shape, buf, pos) == Popped(v, end) <==>
              FitsIn32(shape, v) && HoldsAt(buf, pos, Encode(v)) && end == pos + |Encode(v)|
  {
    hide Pop, Encode, FitsIn32;
    if Pop(shape, buf, pos) == Popped(v, end) {
      PoppedWasEncoded(shape, buf, pos);
    }
    if FitsIn32(shape, v) && HoldsAt(buf, pos, Encode(v)) {
      PopsEncoded(shape, v, buf, pos);
    }
  }

  /** A value that a buffer can hold fits its type in 32 bits. */
  lemma {:induction false} ShortValuesFit(shape: Shape, v: Value)
    requires Fits(shape, v) && |Encode(v)| < TWO_32
    ensures FitsIn32(shape, v)
    decreases shape, 0
  {
    hide Encode, FromNat;
    EncodeParts(v);
    match shape
    case Array(e, n) => ShortItemsFit(e, v.items);
    case Pointer(t) => ShortValuesFit(t, v.inner);
    case _ =>
  }

  lemma {:induction false} ShortItemsFit(elem: Shape, items: seq<Value>)
    requires (forall v <- items :: Fits(elem, v)) && |EncodeItems(items)| < TWO_32
    ensures forall v <- items :: FitsIn32(elem, v)
    decreases elem, |items| + 1
  {
    hide Encode, EncodeItems, Fits, FitsIn32;
    EncodeCons(items);
    if items != [] {
      ShortValuesFit(elem, items[0]);
      ShortItemsFit(elem, items[1..]);
    }
  }

  /**
   Round trip: if a value's encoding lies in the buffer at the cursor, popping its type returns the value and
   advances the cursor by exactly the encoded length.
  */
  lemma PopsWhatWasPushed(shape: Shape, v: Value, buf: seq<Octet>, pos: nat)
    requires |buf| < TWO_32 && Fits(shape, v) && HoldsAt(buf, pos, Encode(v))
    ensures Pop(shape, buf, pos) == Popped(v, pos + |Encode(v)|)
  {
    hide Pop, Encode, Fits, FitsIn32;
    ShortValuesFit(shape, v);
    PopsEncoded(shape, v, buf, pos);
  }

  /** No encoding is the beginning of another value's encoding: a buffer holds at most one value of a type. */
  lemma EncodingIsUnambiguous(shape: Shape, v: Value, w: Value, buf: seq<Octet>, pos: nat)
    requires |buf| < TWO_32 && pos <= |buf| && Fits(shape, v) && Fits(shape, w)
    requires HoldsAt(buf, pos, Encode(v)) && HoldsAt(buf, pos, Encode(w))
    ensures v == w
  {
    hide Pop, Encode, Fits;
    PopsWhatWasPushed(shape, v, buf, pos);
    PopsWhatWasPushed(shape, w, buf, pos);
  }

  // ---------------------------------------------------------------------------------------------------------
  // Sequences of values

  datatype Typed = Typed(shape: Shape, value: Value)

  predicate AllFit(vs: seq<Typed>) {
    forall t <- vs :: Fits(t.shape, t.value)
  }

  function EncodeAll(vs: seq<Typed>): seq<Octet> {
    if vs == [] then [] else Encode(vs[0].value) + EncodeAll(vs[1..])
  }

  /** Popping one type after another. */
  function PopAll(shapes: seq<Shape>, buf: seq<Octet>, pos: nat): Outcome<seq<Value>> {
    if shapes == [] then
      Popped([], pos)
    else
      match Pop(shapes[0], buf, pos)
      case Popped(v, p) => Map(PopAll(shapes[1..], buf, p), vs => [v] + vs)
      case OutOfRange(p) => OutOfRange(p)
      case Outside(p) => Outside(p)
  }

  function Shapes(vs: seq<Typed>): seq<Shape> {
    if vs == [] then [] else [vs[0].shape] + Shapes(vs[1..])
  }

  function Values(vs: seq<Typed>): seq<Value> {
    if vs == [] then [] else [vs[0].value] + Values(vs[1..])
  }

  /** A whole stream: values pushed one after another are popped one after another. */
  lemma {:induction false} StreamRoundTrip(vs: seq<Typed>, buf: seq<Octet>, pos: nat)
    requires |buf| < TWO_32 && AllFit(vs) && HoldsAt(buf, pos, EncodeAll(vs))
    ensures PopAll(Shapes(vs), buf, pos) == Popped(Values(vs), pos + |EncodeAll(vs)|)
    decreases |vs|
  {
    hide Pop, Encode, Fits;
    if vs != [] {
      var first := Encode(vs[0].value);
      HoldsSplit(buf, pos, first, EncodeAll(vs[1..]));
      PopsWhatWasPushed(vs[0].shape, vs[0].value, buf, pos);
      StreamRoundTrip(vs[1..], buf, pos + |first|);
      assert Shapes(vs)[1..] == Shapes(vs[1..]);
    }
  }

  // ---------------------------------------------------------------------------------------------------------
  // Fixed character arrays

  /** A character array read as a C string. */
  function UpToZero(chars: seq<Octet>): seq<Octet> {
    if chars == [] || chars[0] == 0 then [] else [chars[0]] + UpToZero(chars[1..])
  }

  /**
   A `char[N]` is pushed as the number N followed by its text up to the terminating zero, but popped like a string of
   N characters: the text and the bytes that happen to follow it, with the cursor N - |text| bytes too far, or an
   exception if the buffer ends before that.
  */
  lemma FixedArrayPops(n: nat, text: seq<Octet>, buf: seq<Octet>, pos: nat)
    requires |buf| < TWO_32 && |text| < n < TWO_32 && HoldsAt(buf, pos, FromNat(n) + text)
    ensures Pop(Str(1), buf, pos) ==
              if pos + 4 + n <= |buf| then Popped(Text(n, text + buf[pos + 4 + |text|..pos + 4 + n]), pos + 4 + n)
              else if TWO_32 <= pos + 4 + n then Outside(pos + 4 + n - TWO_32)
              else OutOfRange(pos + 4)
  {
    hide PopRaw, ToNat, FromNat;
    HoldsSplit(buf, pos, FromNat(n), text);
    FourBytes(buf, pos);
    ToFrom(n);
    CheckIsExact(buf, pos + 4, 1, n);
    if pos + 4 + n <= |buf| {
      assert buf[pos + 4..pos + 4 + n] == buf[pos + 4..pos + 4 + |text|] + buf[pos + 4 + |text|..pos + 4 + n];
    }
  }

  lemma {:induction false} UpToZeroOf(text: seq<Octet>, tail: seq<Octet>)
    requires tail != [] && forall c <- text :: c != 0
    ensures UpToZero(text + tail) == text <==> tail[0] == 0
    ensures IsPrefix(text, UpToZero(text + tail))
    decreases |text|
  {
    if text == [] {
      assert text + tail == tail;
    } else {
      assert text[0] in text && forall c <- text[1..] :: c in text;
      assert (text + tail)[0] == text[0] && (text + tail)[1..] == text[1..] + tail;
      UpToZeroOf(text[1..], tail);
      var rest := UpToZero(text[1..] + tail);
      assert text == [text[0]] + text[1..];
      assert UpToZero(text + tail) == [text[0]] + rest && ([text[0]] + rest)[1..] == rest;
    }
  }

  /** When the text is recovered: if and only if N characters are there and a zero happens to follow it. */
  lemma FixedArrayRoundTripIff(n: nat, text: seq<Octet>, buf: seq<Octet>, pos: nat)
    requires |buf| < TWO_32 && |text| < n < TWO_32 && HoldsAt(buf, pos, FromNat(n) + text)
    requires forall c <- text :: c != 0
    ensures var o := Pop(Str(1), buf, pos);
            o.Popped? && UpToZero(o.value.chars) == text <==> pos + 4 + n <= |buf| && buf[pos + 4 + |text|] == 0
  {
    hide Pop;
    FixedArrayPops(n, text, buf, pos);
    if pos + 4 + n <= |buf| {
      UpToZeroOf(text, buf[pos + 4 + |text|..pos + 4 + n]);
    }
  }

  // ---------------------------------------------------------------------------------------------------------
  // Pushing

  datatype Status = Pushed | Full | Beyond

  /** The buffer, the cursor, and whether the last check passed, threw, or let a write past the end through. */
  datatype Writing = Writing(buf: seq<Octet>, pos: nat, status: Status)

  /** The check and copy of `push`, `push_array` and `push_pointer`. */
  function PushRaw(buf: seq<Octet>, pos: nat, bytes: seq<Octet>): (r: Writing)
    requires pos <= |buf| < TWO_32
    ensures r.pos <= |r.buf| == |buf|
  {
    var len := |bytes| % TWO_32;
    if (len + pos) % TWO_32 > |buf| then
      Writing(buf, pos, Full)
    else if TWO_32 <= len + pos then
      Writing(buf[..pos] + bytes[..|buf| - pos], (len + pos) % TWO_32, Beyond)
    else
      Writing(buf[..pos] + bytes[..len] + buf[pos + len..], pos + len, Pushed)
  }

  function PushPieces(buf: seq<Octet>, pos: nat, pieces: seq<seq<Octet>>): (r: Writing)
    requires pos <= |buf| < TWO_32
    ensures r.pos <= |r.buf| == |buf|
    decreases |pieces|
  {
    if pieces == [] then
      Writing(buf, pos, Pushed)
    else
      var w := PushRaw(buf, pos, pieces[0]);
      if w.status != Pushed then w else PushPieces(w.buf, w.pos, pieces[1..])
  }

  /** Some check made while pushing lets a piece through that the buffer cannot hold. */
  predicate WrongPush(buf: seq<Octet>, pos: nat, pieces: seq<seq<Octet>>)
    requires pos <= |buf| < TWO_32
    decreases |pieces|
  {
    pieces != [] && (
      var w := PushRaw(buf, pos, pieces[0]);
      || (w.status != Full && |buf| < pos + |pieces[0]|)
      || (w.status == Pushed && WrongPush(w.buf, w.pos, pieces[1..])))
  }

  /** The first piece that does not fit. */
  function MeasurePieces(buf: seq<Octet>, pos: nat, pieces: seq<seq<Octet>>): Extent
    decreases |pieces|
  {
    if pieces == [] then
      Within(pos)
    else if pos + |pieces[0]| <= |buf| then
      MeasurePieces(buf, pos + |pieces[0]|, pieces[1..])
    else
      Overrun(pos, |pieces[0]|)
  }

  /** The buffer with `bytes` put at `pos`. */
  function Put(buf: seq<Octet>, pos: nat, bytes: seq<Octet>): seq<Octet>
    requires pos + |bytes| <= |buf|
  {
    buf[..pos] + bytes + buf[pos + |bytes|..]
  }

  lemma PushRawFits(buf: seq<Octet>, pos: nat, bytes: seq<Octet>)
    requires pos <= |buf| < TWO_32
    ensures pos + |bytes| <= |buf| ==>
              PushRaw(buf, pos, bytes) == Writing(Put(buf, pos, bytes), pos + |bytes|, Pushed)
    ensures |buf| < pos + |bytes| ==> (PushRaw(buf, pos, bytes).status != Full <==> Slips(buf, pos, |bytes|))
    ensures PushRaw(buf, pos, bytes).status == Full ==> PushRaw(buf, pos, bytes) == Writing(buf, pos, Full)
  {
    if pos + |bytes| <= |buf| {
      assert bytes[..|bytes|] == bytes;
    }
  }

  lemma PutTwice(buf: seq<Octet>, pos: nat, a: seq<Octet>, b: seq<Octet>)
    requires pos + |a| + |b| <= |buf|
    ensures Put(Put(buf, pos, a), pos + |a|, b) == Put(buf, pos, a + b)
  {}

  /**
   Pushing pieces that the buffer can hold puts them there one after another. Otherwise everything before the first
   piece that does not fit is put there and the exception is thrown at that piece, unless its length slips, which is
   exactly when a check lets through what it should not.
  */
  lemma {:induction false} PushIsExact(buf: seq<Octet>, pos: nat, pieces: seq<seq<Octet>>)
    requires pos <= |buf| < TWO_32
    ensures var m, w := MeasurePieces(buf, pos, pieces), PushPieces(buf, pos, pieces);
            && (WrongPush(buf, pos, pieces) <==> FirstSlips(m, buf))
            && (m.Within? <==> pos + |Flatten(pieces)| <= |buf|)
            && (m.Within? ==> w == Writing(Put(buf, pos, Flatten(pieces)), pos + |Flatten(pieces)|, Pushed))
            && (m.Overrun? && !FirstSlips(m, buf) ==>
                  && pos <= m.at == w.pos && w.status == Full && m.at - pos <= |Flatten(pieces)|
                  && w.buf == Put(buf, pos, Flatten(pieces)[..m.at - pos]))
    decreases |pieces|
  {
    hide PushRaw, Put, Slips;
    if pieces == [] {
      PutNothing(buf, pos);
    } else {
      var p, rest := pieces[0], Flatten(pieces[1..]);
      PushRawFits(buf, pos, p);
      if pos + |p| <= |buf| {
        var next := Put(buf, pos, p);
        PutLength(buf, pos, p);
        SameRoom(buf, next, pos + |p|, pieces[1..]);
        PushIsExact(next, pos + |p|, pieces[1..]);
        var m := MeasurePieces(buf, pos, pieces);
        if m.Within? {
          PutTwice(buf, pos, p, rest);
        } else if !FirstSlips(m, buf) {
          PutTwice(buf, pos, p, rest[..m.at - pos - |p|]);
          assert (p + rest)[..m.at - pos] == p + rest[..m.at - pos - |p|];
        }
      } else {
        PutNothing(buf, pos);
        assert Flatten(pieces)[..0] == [];
      }
    }
  }

  lemma PutNothing(buf: seq<Octet>, pos: nat)
    requires pos <= |buf|
    ensures Put(buf, pos, []) == buf
  {}

  lemma PutLength(buf: seq<Octet>, pos: nat, bytes: seq<Octet>)
    requires pos + |bytes| <= |buf|
    ensures |Put(buf, pos, bytes)| == |buf|
    ensures HoldsAt(Put(buf, pos, bytes), pos, bytes)
  {}

  /** Only the length of the buffer matters for what fits. */
  lemma {:induction false} SameRoom(a: seq<Octet>, b: seq<Octet>, pos: nat, pieces: seq<seq<Octet>>)
    requires |a| == |b|
    ensures MeasurePieces(a, pos, pieces) == MeasurePieces(b, pos, pieces)
    ensures FirstSlips(MeasurePieces(a, pos, pieces), a) == FirstSlips(MeasurePieces(b, pos, pieces), b)
    decreases |pieces|
  {
    if pieces != [] {
      SameRoom(a, b, pos + |pieces[0]|, pieces[1..]);
    }
  }

  /** What was pushed where there was room is popped from there. */
  lemma PushThenPop(shape: Shape, v: Value, buf: seq<Octet>, pos: nat)
    requires Fits(shape, v) && pos + |Encode(v)| <= |buf| < TWO_32
    ensures var w := PushPieces(buf, pos, Pieces(v));
            w.status == Pushed && Pop(shape, w.buf, pos) == Popped(v, w.pos)
  {
    hide Pop, Pieces, PushPieces, Put, Fits;
    PushIsExact(buf, pos, Pieces(v));
    PutLength(buf, pos, Encode(v));
    PopsWhatWasPushed(shape, v, Put(buf, pos, Encode(v)), pos);
  }
}
