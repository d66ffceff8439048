/** The cipher as the streams use it: a key and a first counter derived from pass phrase and salt,
    and a keystream that is exclusive-ored onto the payload at absolute offsets. */
module Keystream {
  import opened Bytes

  const BLOCK_SIZE := 16

  type Block = b: seq<byte> | |b| == BLOCK_SIZE witness seq(BLOCK_SIZE, _ => 0)

  /** What key derivation yields: the cipher key and the initial counter block read as a number. */
  datatype Secret = Secret(key: seq<byte>, counter: nat)

  /** The two library functions the streams call; nothing is assumed about them. */
  datatype Primitives = Primitives(
    derive: (seq<byte>, seq<byte>) -> Secret,
    encryptBlock: (seq<byte>, nat) -> Block
  ) {
    /** Counter mode, section 6.5 of NIST SP 800-38A: block number i / 16 of the stream is the
        encrypted counter, and the counter wraps around at 128 bits. */
    function At(secret: Secret, i: nat): byte {
      encryptBlock(secret.key, (secret.counter + i / BLOCK_SIZE) % Pow2(128))[i % BLOCK_SIZE]
    }

    function StreamFor(pass: seq<byte>, salt: seq<byte>): nat -> byte {
      var secret := derive(pass, salt);
      i => At(secret, i)
    }
  }

  /** `data`, which sits at payload offset `off`, under the keystream `ks`. */
  function Ctr(ks: nat -> byte, off: nat, data: seq<byte>): (r: seq<byte>)
    ensures |r| == |data|
  {
    seq(|data|, i requires 0 <= i < |data| => Xor(data[i], ks(off + i)))
  }

  /** Encrypting turns a bit over exactly where the keystream has a one. */
  lemma CtrBit(ks: nat -> byte, off: nat, data: seq<byte>, i: nat, k: nat)
    requires i < |data| && k < 8
    ensures Bit(Ctr(ks, off, data)[i], k) != Bit(data[i], k) <==> Bit(ks(off + i), k) == 1
  {
    XorBit(data[i], ks(off + i), k);
  }

  /** The blocks of the keystream are the encrypted counters, one after the other, modulo 2^128. */
  lemma StreamBlock(prims: Primitives, pass: seq<byte>, salt: seq<byte>, n: nat, i: nat)
    requires i < 16
    ensures var secret := prims.derive(pass, salt);
      prims.StreamFor(pass, salt)(16 * n + i) == prims.encryptBlock(secret.key, (secret.counter + n) % Pow2(128))[i]
  {
    BlockPosition(n, i);
  }

  lemma BlockPosition(n: nat, i: nat)
    requires i < 16
    ensures (16 * n + i) / 16 == n && (16 * n + i) % 16 == i
  {
  }

  /** Advancing the first counter by `n` blocks shifts the keystream by sixteen bytes for each. */
  lemma CounterShift(prims: Primitives, secret: Secret, n: nat, i: nat)
    ensures prims.At(secret.(counter := secret.counter + n), i) == prims.At(secret, i + 16 * n)
  {
    assert (i + 16 * n) / 16 == i / 16 + n && (i + 16 * n) % 16 == i % 16;
  }

  /** Decrypting is encrypting again. */
  lemma CtrTwice(ks: nat -> byte, off: nat, data: seq<byte>)
    ensures Ctr(ks, off, Ctr(ks, off, data)) == data
  {
    forall i | 0 <= i < |data|
      ensures Ctr(ks, off, Ctr(ks, off, data))[i] == data[i]
    {
      XorTwice(data[i], ks(off + i));
    }
  }

  /** A stream may be processed piece by piece, each piece at its own offset. */
  lemma CtrAppend(ks: nat -> byte, off: nat, a: seq<byte>, b: seq<byte>)
    ensures Ctr(ks, off, a + b) == Ctr(ks, off, a) + Ctr(ks, off + |a|, b)
  {
    assert forall i :: 0 <= i < |a + b| ==> Ctr(ks, off, a + b)[i] == (Ctr(ks, off, a) + Ctr(ks, off + |a|, b))[i];
  }

  /** Exclusive-ors the keystream onto `data[..n]` in place. */
  method XorKeyStreamAt(data: array<byte>, n: nat, ks: nat -> byte, off: nat)
    requires n <= data.Length
    modifies data
    ensures data[..] == Ctr(ks, off, old(data[..n])) + old(data[n..])
  {
    for i := 0 to n
      invariant forall j :: 0 <= j < i ==> data[j] == Xor(old(data[j]), ks(off + j))
      invariant forall j :: i <= j < data.Length ==> data[j] == old(data[j])
    {
      data[i] := Xor(data[i], ks(off + i));
    }
  }
}
