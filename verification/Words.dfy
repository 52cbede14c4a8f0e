/** Bytes, little-endian words and Go's fixed-width integer conversions. */
module Words {

  type byte = x: int | 0 <= x < 256

  const TWO_31 := 0x8000_0000
  const TWO_32 := 0x1_0000_0000
  const TWO_63 := 0x8000_0000_0000_0000
  const TWO_64 := 0x1_0000_0000_0000_0000

  type int32 = x: int | -0x8000_0000 <= x < 0x8000_0000
  type int64 = x: int | -0x8000_0000_0000_0000 <= x < 0x8000_0000_0000_0000
  type uint64 = x: int | 0 <= x < 0x1_0000_0000_0000_0000

  /** Go's `uint64(x)` for a signed `x`: sign extension. */
  function Uint64(x: int64): uint64 {
    if x < 0 then x + TWO_64 else x
  }

  /** Go's `int64(u)`, also `int(u)` on 64-bit platforms. */
  function Int64(u: uint64): int64 {
    if u >= TWO_63 then u - TWO_64 else u
  }

  /** Go's `int32(u)`: the low half, signed. */
  function Int32(u: uint64): int32 {
    var low := u % TWO_32;
    if low >= TWO_31 then low - TWO_32 else low
  }

  /** Two's-complement wrap-around of a sum of two `int64` values. */
  function Wrap64(x: int): int64
    requires -TWO_64 <= x < TWO_64
  {
    if x >= TWO_63 then x - TWO_64 else if x < -TWO_63 then x + TWO_64 else x
  }

  function Pow256(k: nat): (p: nat)
    ensures p >= 1
  {
    if k == 0 then 1 else 256 * Pow256(k - 1)
  }

  /** The `k` low bytes of `n`, least significant first. */
  function ToLittleEndian(n: nat, k: nat): (s: seq<byte>)
    ensures |s| == k
  {
    if k == 0 then [] else [n % 256] + ToLittleEndian(n / 256, k - 1)
  }

  function FromLittleEndian(s: seq<byte>): (n: nat)
    ensures n < Pow256(|s|)
  {
    if s == [] then 0 else s[0] + 256 * FromLittleEndian(s[1..])
  }

  lemma {:induction false} LittleEndianRoundTrip(n: nat, k: nat)
    requires n < Pow256(k)
    ensures FromLittleEndian(ToLittleEndian(n, k)) == n
  {
    if k > 0 {
      LittleEndianRoundTrip(n / 256, k - 1);
      assert ToLittleEndian(n, k)[1..] == ToLittleEndian(n / 256, k - 1);
    }
  }

  lemma WordSizes()
    ensures Pow256(1) == 256 && Pow256(4) == TWO_32 && Pow256(8) == TWO_64
  {
    assert Pow256(2) == 0x1_0000;
    assert Pow256(3) == 0x100_0000;
    assert Pow256(5) == 0x100_0000_0000;
    assert Pow256(6) == 0x1_0000_0000_0000;
    assert Pow256(7) == 0x100_0000_0000_0000;
  }

  /** Signed and unsigned views of one word are inverse to each other, and truncating a sign-extended
      32-bit value gives it back. */
  lemma SignedViews(x: int64, y: int32, u: uint64)
    ensures Int64(Uint64(x)) == x && Uint64(Int64(u)) == u && Int32(Uint64(y)) == y
  {
    LowHalf(y);
  }

  lemma LowHalf(y: int32)
    ensures Uint64(y) % TWO_32 == if y < 0 then y + TWO_32 else y
  {
    if y < 0 {
      assert y + TWO_64 == (TWO_32 - 1) * TWO_32 + (y + TWO_32);
    }
  }

  /** `mem` with `s` written at `at`. */
  function Splice(mem: seq<byte>, at: nat, s: seq<byte>): (mem': seq<byte>)
    requires at + |s| <= |mem|
    ensures |mem'| == |mem|
  {
    mem[..at] + s + mem[at + |s|..]
  }

  lemma SpliceElsewhere(mem: seq<byte>, at: nat, s: seq<byte>, lo: nat, hi: nat)
    requires at + |s| <= |mem| && lo <= hi <= |mem| && (hi <= at || at + |s| <= lo)
    ensures Splice(mem, at, s)[lo..hi] == mem[lo..hi]
  {
  }

  // ----- what the words are, byte by byte

  lemma DivisionIsUnique(n: nat, d: nat, q: nat, r: nat)
    requires r < d && n == q * d + r
    ensures n / d == q
  {
    var q' := n / d;
    Ordered(q' + 1, q, d);
    Ordered(q + 1, q', d);
  }

  lemma Ordered(a: nat, b: nat, d: nat)
    ensures a <= b ==> a * d <= b * d
  {
  }

  lemma Regroup(q: nat, b: nat, r: nat, a: nat)
    ensures (q * b + r) * a == q * (a * b) + r * a && a * b == b * a
  {
    assert (q * b + r) * a == (q * b) * a + r * a;
    assert (q * b) * a == q * (b * a);
  }

  lemma Remainders(a: nat, b: nat, q: nat, r: nat, q': nat, r': nat)
    requires r < a && r' < b && q == q' * b + r'
    ensures a * b > 0 && q * a + r == q' * (a * b) + (r' * a + r) && r' * a + r < a * b
  {
    Regroup(q', b, r', a);
    Ordered(r' + 1, b, a);
    Ordered(1, b, a);
    assert (r' + 1) * a == r' * a + a;
  }

  /** Dividing twice is dividing by the product. */
  lemma DivideTwice(n: nat, a: nat, b: nat)
    requires a > 0 && b > 0
    ensures a * b > 0 && n / a / b == n / (a * b)
  {
    var q, r := n / a, n % a;
    var q', r' := q / b, q % b;
    Remainders(a, b, q, r, q', r');
    DivisionIsUnique(n, a * b, q', r' * a + r);
  }

  /** Byte `j` of a little-endian word is the `j`-th base-256 digit. */
  lemma {:induction false} LittleEndianDigit(n: nat, k: nat, j: nat)
    requires j < k
    ensures ToLittleEndian(n, k)[j] == n / Pow256(j) % 256
  {
    if j > 0 {
      LittleEndianDigit(n / 256, k - 1, j - 1);
      DivideTwice(n, 256, Pow256(j - 1));
    }
  }

  /** The conversions keep the value modulo the width: with their types this determines them. */
  lemma ConversionsAreCongruent(u: uint64, x: int64)
    ensures (u - Int32(u)) % TWO_32 == 0
    ensures u - Int64(u) == 0 || u - Int64(u) == TWO_64
    ensures Uint64(x) - x == 0 || Uint64(x) - x == TWO_64
  {
  }
}
