/** Unsigned 32-bit numbers as the four bytes a little-endian machine stores. */
module LittleEndian {
  import opened Octets

  const TWO_32: nat := 0x1_0000_0000

  function ToNat(b: seq<Octet>): (n: nat)
    requires |b| == 4
    ensures n < TWO_32
  {
    b[0] + 256 * (b[1] + 256 * (b[2] + 256 * (b[3] as int)))
  }

  function FromNat(n: nat): (b: seq<Octet>)
    requires n < TWO_32
    ensures |b| == 4
  {
    [n % 256, n / 256 % 256, n / 256 / 256 % 256, n / 256 / 256 / 256]
  }

  lemma ToFrom(n: nat)
    requires n < TWO_32
    ensures ToNat(FromNat(n)) == n
  {
    var n1, n2, n3 := n / 256, n / 256 / 256, n / 256 / 256 / 256;
    assert n2 == n2 % 256 + 256 * n3;
    assert n1 == n1 % 256 + 256 * n2;
    assert n == n % 256 + 256 * n1;
  }

  lemma LowDigit(d: int, m: int)
    requires 0 <= d < 256
    ensures (d + 256 * m) % 256 == d && (d + 256 * m) / 256 == m
  {}

  lemma FromTo(b: seq<Octet>)
    requires |b| == 4
    ensures FromNat(ToNat(b)) == b
  {
    var n2 := b[2] + 256 * (b[3] as int);
    var n1 := b[1] + 256 * n2;
    LowDigit(b[0], n1);
    LowDigit(b[1], n2);
    LowDigit(b[2], b[3]);
  }

  /** The bytes are the digits to base 256, the least significant first. */
  lemma ByteOrder(b: seq<Octet>)
    requires |b| == 4
    ensures ToNat(b) == (b[0] as int) + 0x100 * (b[1] as int) + 0x1_0000 * (b[2] as int) + 0x100_0000 * (b[3] as int)
    ensures ToNat(b) % 0x100 == b[0] && ToNat(b) / 0x100 % 0x100 == b[1]
    ensures ToNat(b) / 0x1_0000 % 0x100 == b[2] && ToNat(b) / 0x100_0000 == b[3]
  {
    var n2 := b[2] + 256 * (b[3] as int);
    var n1 := b[1] + 256 * n2;
    LowDigit(b[0], n1);
    LowDigit(b[1], n2);
    LowDigit(b[2], b[3]);
    HighDigits(ToNat(b));
  }

  lemma HighDigits(n: nat)
    ensures n / 0x1_0000 == n / 0x100 / 0x100 && n / 0x100_0000 == n / 0x100 / 0x100 / 0x100
  {
    var n1, n2, n3 := n / 0x100, n / 0x100 / 0x100, n / 0x100 / 0x100 / 0x100;
    assert n == n % 0x100 + 0x100 * (n1 % 0x100) + 0x1_0000 * n2;
    assert n == n % 0x100 + 0x100 * (n1 % 0x100) + 0x1_0000 * (n2 % 0x100) + 0x100_0000 * n3;
  }

  lemma ByteOrderOf(n: nat)
    requires n < 0x1_0000_0000
    ensures FromNat(n)[0] == n % 0x100 && FromNat(n)[1] == n / 0x100 % 0x100
    ensures FromNat(n)[2] == n / 0x1_0000 % 0x100 && FromNat(n)[3] == n / 0x100_0000
  {
    HighDigits(n);
  }
}
