/** Bytes and the big-endian integers that `struct.pack("!...")` writes. */
module Bytes {

  /** A Python byte: an int in 0..255. */
  type byte = x: int | 0 <= x < 256

  const U16Limit: nat := 0x1_0000

  /** The byte of `'\n'`. */
  const Newline: byte := 10

  /** `struct.pack("!H", n)`: two bytes, most significant first. */
  function Be16(n: nat): (r: seq<byte>)
    requires n < U16Limit
    ensures |r| == 2 && (r[0] as int) * 256 + r[1] == n
  {
    [n / 256, n % 256]
  }

  /** `struct.unpack("!H", s)`. */
  function ParseBe16(s: seq<byte>): (n: nat)
    requires |s| == 2
    ensures n < U16Limit
  {
    (s[0] as int) * 256 + s[1]
  }

  lemma ParseBe16OfBe16(n: nat)
    requires n < U16Limit
    ensures ParseBe16(Be16(n)) == n
  {
  }

  lemma Be16OfParseBe16(s: seq<byte>)
    requires |s| == 2
    ensures Be16(ParseBe16(s)) == s
  {
    DivModUnique(ParseBe16(s), s[0], s[1], 256);
  }

  /** Python's `sum(data)` over a byte string. */
  function Sum(s: seq<byte>): (r: nat)
    ensures r <= 255 * |s|
    ensures (forall i :: 0 <= i < |s| ==> s[i] == 0) ==> r == 0
  {
    if s == [] then 0 else s[0] + Sum(s[1..])
  }

  lemma {:induction false} SumConcat(a: seq<byte>, b: seq<byte>)
    ensures Sum(a + b) == Sum(a) + Sum(b)
  {
    if a != [] {
      assert (a + b)[1..] == a[1..] + b;
      SumConcat(a[1..], b);
    } else {
      assert a + b == b;
    }
  }

  /** Replacing one byte moves the sum by exactly the difference of the two bytes. */
  lemma {:induction false} SumUpdate(s: seq<byte>, i: nat, b: byte)
    requires i < |s|
    ensures Sum(s[i := b]) == Sum(s) - s[i] + b
  {
    if i > 0 {
      assert s[i := b][1..] == s[1..][i - 1 := b];
      SumUpdate(s[1..], i - 1, b);
    }
  }

  /** Two values closer than a modulus, but not equal, have different residues. */
  lemma ModDistinct(x: int, y: int, m: int)
    requires 0 < m && x != y && -m < x - y < m
    ensures x % m != y % m
  {
    var qx, qy := x / m, y / m;
    assert x == qx * m + x % m && y == qy * m + y % m;
    assert x % m - y % m == (x - y) - (qx - qy) * m;
    MultipleInsideIsZero(qx - qy, m);
  }

  /** Euclidean division is unique: a quotient and a remainder in range are
      the ones `/` and `%` give. */
  lemma DivModUnique(a: int, q: int, r: int, m: int)
    requires 0 < m && a == q * m + r && 0 <= r < m
    ensures a / m == q && a % m == r
  {
    assert (q - a / m) * m == q * m - (a / m) * m;
    MultipleInsideIsZero(q - a / m, m);
  }

  /** Residues add: the residue of a sum is the residue of the residues' sum. */
  lemma ModAdd(x: int, y: int, m: int)
    requires 0 < m
    ensures (x + y) % m == (x % m + y % m) % m
  {
    var s := x % m + y % m;
    var q := x / m + y / m + s / m;
    assert q * m == (x / m) * m + (y / m) * m + (s / m) * m;
    DivModUnique(x + y, q, s % m, m);
  }

  lemma MultipleInsideIsZero(k: int, m: int)
    requires 0 < m
    ensures -m < k * m < m ==> k == 0
  {
    if k >= 1 {
      assert k * m == (k - 1) * m + m;
      assert (k - 1) * m >= 0;
    } else if k <= -1 {
      assert k * m == (k + 1) * m - m;
      assert (k + 1) * m <= 0;
    }
  }
}
