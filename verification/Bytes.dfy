/** Bytes, the exclusive-or of two bytes, and byte buffers. */
module Bytes {

  type byte = b: int | 0 <= b < 256

  function Pow2(k: nat): (r: nat)
    ensures 1 <= r
  {
    if k == 0 then 1 else 2 * Pow2(k - 1)
  }

  /** Exclusive-or of two k-bit numbers, bit by bit. */
  function XorBits(a: nat, b: nat, k: nat): (r: nat)
    requires a < Pow2(k) && b < Pow2(k)
    ensures r < Pow2(k)
  {
    if k == 0 then 0
    else 2 * XorBits(a / 2, b / 2, k - 1) + (a + b) % 2
  }

  function Xor(a: byte, b: byte): byte {
    assert Pow2(8) == 256;
    XorBits(a, b, 8)
  }

  lemma XorStep(a: nat, b: nat, half: nat)
    ensures var r := 2 * half + (a + b) % 2;
      r / 2 == half && (r + b) % 2 == a % 2 && r % 2 == if a % 2 == b % 2 then 0 else 1
  {
  }

  lemma {:induction false} XorBitsTwice(a: nat, b: nat, k: nat)
    requires a < Pow2(k) && b < Pow2(k)
    ensures XorBits(XorBits(a, b, k), b, k) == a
  {
    if k != 0 {
      var half := XorBits(a / 2, b / 2, k - 1);
      var r := XorBits(a, b, k);
      XorStep(a, b, half);
      XorBitsTwice(a / 2, b / 2, k - 1);
      assert XorBits(r, b, k) == 2 * XorBits(half, b / 2, k - 1) + (r + b) % 2;
    }
  }

  /** Applying the same mask a second time gives the byte back. */
  lemma XorTwice(a: byte, b: byte)
    ensures Xor(Xor(a, b), b) == a
  {
    assert Pow2(8) == 256;
    XorBitsTwice(a, b, 8);
  }

  /** Bit `k` of a number. */
  function Bit(n: nat, k: nat): (r: nat)
    ensures r < 2
  {
    if k == 0 then n % 2 else Bit(n / 2, k - 1)
  }

  lemma {:induction false} XorBitsBit(a: nat, b: nat, n: nat, k: nat)
    requires a < Pow2(n) && b < Pow2(n) && k < n
    ensures Bit(XorBits(a, b, n), k) == if Bit(a, k) == Bit(b, k) then 0 else 1
  {
    var half := XorBits(a / 2, b / 2, n - 1);
    var r := XorBits(a, b, n);
    assert r == 2 * half + (a + b) % 2;
    XorStep(a, b, half);
    if k != 0 {
      XorBitsBit(a / 2, b / 2, n - 1, k - 1);
      BitOfHalf(r, k);
      BitOfHalf(a, k);
      BitOfHalf(b, k);
    }
  }

  lemma BitOfHalf(n: nat, k: nat)
    requires k > 0
    ensures Bit(n, k) == Bit(n / 2, k - 1)
  {
  }

  /** What the exclusive-or is: a bit of it is one exactly when the two bits differ. */
  lemma XorBit(a: byte, b: byte, k: nat)
    requires k < 8
    ensures Bit(Xor(a, b), k) == if Bit(a, k) == Bit(b, k) then 0 else 1
  {
    assert Pow2(8) == 256;
    XorBitsBit(a, b, 8, k);
  }

  /** Bit `k` is the quotient by 2^k, modulo two. */
  lemma {:induction false} BitIsQuotient(n: nat, k: nat)
    ensures Bit(n, k) == n / Pow2(k) % 2
  {
    if k != 0 {
      BitIsQuotient(n / 2, k - 1);
      HalfDivided(n, Pow2(k - 1));
    }
  }

  lemma HalfDivided(n: nat, p: nat)
    requires p > 0
    ensures n / (2 * p) == n / 2 / p
  {
    var q, r := n / 2 / p, n / 2 % p;
    assert p * q + r == n / 2;
    Regrouped(p, q);
    DividedBy(n, 2 * p, q, 2 * r + n % 2);
  }

  lemma Regrouped(p: int, q: int)
    ensures 2 * p * q == 2 * (p * q)
  {
  }

  lemma DividedBy(n: nat, d: nat, q: nat, r: nat)
    requires n == d * q + r && r < d
    ensures n / d == q
  {
    var q', r' := n / d, n % d;
    assert d * q' + r' == n;
    if q > q' {
      MoreTimes(d, q', q);
    } else if q < q' {
      MoreTimes(d, q, q');
    }
  }

  lemma {:induction false} MoreTimes(d: nat, m: int, n: int)
    requires m < n
    ensures d * m + d <= d * n
    decreases n - m
  {
    Distributed(d, n - 1);
    if m < n - 1 {
      MoreTimes(d, m, n - 1);
    }
  }

  lemma Distributed(d: int, n: int)
    ensures d * (n + 1) == d * n + d
  {
  }

  /** A new buffer holding the given bytes. */
  method NewBuffer(contents: seq<byte>) returns (a: array<byte>)
    ensures fresh(a) && a[..] == contents
  {
    a := new byte[|contents|](i requires 0 <= i < |contents| => contents[i]);
  }

  /** Copies `n` bytes of `src`, from `lo` on, to the front of `dst`. */
  method CopyInto(dst: array<byte>, src: array<byte>, lo: nat, n: nat)
    requires dst != src && n <= dst.Length && lo + n <= src.Length
    modifies dst
    ensures forall i :: 0 <= i < n ==> dst[i] == src[lo + i]
    ensures forall i :: n <= i < dst.Length ==> dst[i] == old(dst[i])
  {
    for i := 0 to n
      invariant forall j :: 0 <= j < i ==> dst[j] == src[lo + j]
      invariant forall j :: i <= j < dst.Length ==> dst[j] == old(dst[j])
    {
      dst[i] := src[lo + i];
    }
  }
}
