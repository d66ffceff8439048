/** Transparent encryption of a backup stream. The stored form is an eight-byte header, an
    eight-byte salt and then the payload under the keystream, so payload offset i is found at
    stored offset i + 16. */
module CryptoStream {
  import opened Bytes
  import opened Common
  import opened Keystream
  import opened Streams

  const HEADER: seq<byte> := [68, 66, 67, 67, 114, 121, 112, 116]  // "DBCCrypt"
  const SALT_LENGTH := 8

  /** The whole stored form of `plain`, encrypted in one shot. */
  function Sealed(prims: Primitives, pass: seq<byte>, salt: seq<byte>, plain: seq<byte>): seq<byte> {
    HEADER + salt + Ctr(prims.StreamFor(pass, salt), 0, plain)
  }

  /** What a sealed stream looks like from outside: the letters "DBCCrypt", eight bytes of salt, and
      then the payload, byte for byte, with exactly those bits turned over where the keystream of pass
      phrase and salt has a one. */
  ghost predicate IsEncrypted(prims: Primitives, pass: seq<byte>, stored: seq<byte>, plain: seq<byte>) {
    && |stored| == 16 + |plain|
    && (forall i :: 0 <= i < 8 ==> stored[i] == "DBCCrypt"[i] as int)
    && forall i, k {:trigger Bit(stored[16 + i], k)} :: 0 <= i < |plain| && 0 <= k < 8 ==>
      (Bit(stored[16 + i], k) != Bit(plain[i], k)
       <==> Bit(prims.StreamFor(pass, stored[8..16])(i), k) == 1)
  }

  lemma SealedIsEncrypted(prims: Primitives, pass: seq<byte>, salt: seq<byte>, plain: seq<byte>)
    requires |salt| == SALT_LENGTH
    ensures IsEncrypted(prims, pass, Sealed(prims, pass, salt, plain), plain)
    ensures Sealed(prims, pass, salt, plain)[8..16] == salt
  {
    var stored := Sealed(prims, pass, salt, plain);
    SealedParts(salt, Ctr(prims.StreamFor(pass, salt), 0, plain));
    forall i: nat, k: nat {:trigger Bit(stored[16 + i], k)} | i < |plain| && k < 8
      ensures Bit(stored[16 + i], k) != Bit(plain[i], k) <==> Bit(prims.StreamFor(pass, stored[8..16])(i), k) == 1
    {
      SealedBit(prims, pass, salt, plain, i, k);
    }
  }

  lemma SealedBit(prims: Primitives, pass: seq<byte>, salt: seq<byte>, plain: seq<byte>, i: nat, k: nat)
    requires |salt| == SALT_LENGTH && i < |plain| && k < 8
    ensures var stored := Sealed(prims, pass, salt, plain);
      Bit(stored[16 + i], k) != Bit(plain[i], k) <==> Bit(prims.StreamFor(pass, stored[8..16])(i), k) == 1
  {
    var ks := prims.StreamFor(pass, salt);
    SealedParts(salt, Ctr(ks, 0, plain));
    CtrBit(ks, 0, plain, i, k);
  }

  lemma SealedParts(salt: seq<byte>, payload: seq<byte>)
    requires |salt| == SALT_LENGTH
    ensures var stored := HEADER + salt + payload;
      && stored[8..16] == salt && (forall i :: 0 <= i < 8 ==> stored[i] == "DBCCrypt"[i] as int)
      && forall i :: 0 <= i < |payload| ==> stored[16 + i] == payload[i]
  {
    var stored := HEADER + salt + payload;
    assert stored[8..16] == salt;
    forall i | 0 <= i < 8
      ensures stored[i] == "DBCCrypt"[i] as int
    {
      assert i == 0 || i == 1 || i == 2 || i == 3 || i == 4 || i == 5 || i == 6 || i == 7;
    }
  }

  // ----- Writer -----

  /** Encrypts what is written to it and passes whole blocks on to `next`; up to fifteen bytes wait
      in `buf` for more data or for `Close`. */
  class CryptoWriteCloser {
    const ks: nat -> byte
    const next: Pipe
    var blocksWritten: nat
    var buf: seq<byte>
    ghost const preamble: seq<byte>   // what `next` held when the payload began
    ghost var accepted: seq<byte>     // every payload byte taken so far
    ghost var closed: bool

    constructor (ks: nat -> byte, next: Pipe)
      ensures this.ks == ks && this.next == next && preamble == next.data
      ensures blocksWritten == 0 && buf == [] && accepted == [] && !closed
    {
      this.ks, this.next := ks, next;
      blocksWritten, buf := 0, [];
      preamble, accepted, closed := next.data, [], false;
    }

    /** Until the pipe breaks, all whole blocks of the accepted payload are in the pipe, encrypted,
        and the rest is in `buf`; after `Close` the whole payload is in the pipe. */
    ghost predicate Valid()
      reads this, next
    {
      !next.broken ==>
        if closed then next.data == preamble + Ctr(ks, 0, accepted)
        else
          && |buf| < BLOCK_SIZE
          && |accepted| == blocksWritten * BLOCK_SIZE + |buf|
          && buf == accepted[blocksWritten * BLOCK_SIZE..]
          && next.data == preamble + Ctr(ks, 0, accepted[..blocksWritten * BLOCK_SIZE])
    }

    /** Takes all of `p` or fails; `p` itself is never changed, the blocks are encrypted in a copy.
        After a failure `buf` may share memory with that copy and so hold encrypted bytes. */
    method Write(p: array<byte>) returns (n: nat, err: bool)
      requires Valid() && !closed
      modifies this, next
      ensures Valid() && !closed
      ensures err == next.broken
      ensures next.broken && !old(next.broken) ==> next.mayFail
      ensures !err ==> n == p.Length && accepted == old(accepted) + p[..] && !old(next.broken)
      ensures err ==> n == 0
    {
      ghost var done, taken := blocksWritten * BLOCK_SIZE, p[..];
      var joined := buf + p[..];
      var data := NewBuffer(joined);
      var availBlocks := data.Length / BLOCK_SIZE;
      var encDataLen := availBlocks * BLOCK_SIZE;
      EncryptFront(data, encDataLen, ks, blocksWritten * BLOCK_SIZE);
      var blocks := data[..encDataLen];
      var wn, werr := next.Write(blocks);
      if werr || wn != encDataLen {
        var shared: bool := *;
        if shared && |buf| <= data.Length {
          buf := data[..|buf|];
        }
        return 0, true;
      }
      assert blocks[..wn] == blocks;
      if !next.broken {
        ExtendPayload(ks, preamble, accepted, taken, joined, done, encDataLen);
      }
      blocksWritten := blocksWritten + availBlocks;
      buf := data[encDataLen..];
      accepted := accepted + taken;
      return p.Length, false;
    }

    /** Encrypts and writes what is left in the buffer. The buffer is not cleared, which is why
        this must happen once. */
    method Close() returns (err: bool)
      requires Valid() && !closed
      modifies this, next
      ensures closed && Valid() && accepted == old(accepted)
      ensures err || old(next.broken) ==> next.broken
      ensures next.broken && !old(next.broken) ==> err && next.mayFail
    {
      closed := true;
      ghost var done := blocksWritten * BLOCK_SIZE;
      if |buf| == 0 {
        assert !next.broken ==> accepted[..done] == accepted;
        return false;
      }
      if !next.broken {
        CompletePayload(ks, preamble, accepted, done);
      }
      var data := NewBuffer(buf);
      EncryptAll(data, ks, blocksWritten * BLOCK_SIZE);
      buf := data[..];
      var n, werr := next.Write(buf);
      if werr || n != data.Length {
        return true;
      }
      assert buf[..n] == buf;
      return false;
    }
  }

  method EncryptFront(data: array<byte>, n: nat, ks: nat -> byte, off: nat)
    requires n <= data.Length
    modifies data
    ensures data[..n] == Ctr(ks, off, old(data[..n])) && data[n..] == old(data[n..])
  {
    XorKeyStreamAt(data, n, ks, off);
    assert data[..n] == data[..][..n] && data[n..] == data[..][n..];
  }

  method EncryptAll(data: array<byte>, ks: nat -> byte, off: nat)
    modifies data
    ensures data[..] == Ctr(ks, off, old(data[..]))
  {
    assert data[..data.Length] == data[..];
    XorKeyStreamAt(data, data.Length, ks, off);
  }

  lemma CompletePayload(ks: nat -> byte, preamble: seq<byte>, accepted: seq<byte>, done: nat)
    requires done <= |accepted|
    ensures preamble + Ctr(ks, 0, accepted[..done]) + Ctr(ks, done, accepted[done..])
      == preamble + Ctr(ks, 0, accepted)
  {
    CtrAppend(ks, 0, accepted[..done], accepted[done..]);
    assert accepted[..done] + accepted[done..] == accepted;
  }

  /** One more write: `joined` is the buffered rest of `accepted` followed by `taken`, and `enc`
      bytes of it go to the pipe behind the `done` bytes that are there already. */
  lemma ExtendPayload(ks: nat -> byte, preamble: seq<byte>, accepted: seq<byte>, taken: seq<byte>,
                      joined: seq<byte>, done: nat, enc: nat)
    requires done <= |accepted| && joined == accepted[done..] + taken && enc <= |joined|
    ensures var all := accepted + taken;
      && all[done + enc..] == joined[enc..]
      && preamble + Ctr(ks, 0, all[..done + enc])
         == preamble + Ctr(ks, 0, accepted[..done]) + Ctr(ks, done, joined[..enc])
  {
    var all := accepted + taken;
    assert all == accepted[..done] + joined;
    assert all[..done + enc] == accepted[..done] + joined[..enc];
    CtrAppend(ks, 0, accepted[..done], joined[..enc]);
  }

  /** Writes header and salt and hands out the writer for the payload. `salt` is what the random
      source gave; when it gave too little, nothing is written. */
  method NewWriter(prims: Primitives, next: Pipe, pass: seq<byte>, salt: seq<byte>)
    returns (w: Option<CryptoWriteCloser>)
    modifies next
    ensures w.None? <==> next.broken || |salt| != SALT_LENGTH
    ensures next.broken && !old(next.broken) ==> next.mayFail
    ensures |salt| != SALT_LENGTH ==> next.data == old(next.data) && next.broken == old(next.broken)
    ensures w.Some? ==>
      && fresh(w.value) && w.value.next == next && w.value.ks == prims.StreamFor(pass, salt)
      && w.value.Valid() && !w.value.closed && w.value.accepted == []
      && w.value.preamble == old(next.data) + HEADER + salt
  {
    if |salt| != SALT_LENGTH {
      return None;
    }
    var hdr := HEADER + salt;
    var n, err := next.Write(hdr);
    if err || n != BLOCK_SIZE {
      return None;
    }
    assert hdr[..n] == hdr;
    assert old(next.data) + hdr == old(next.data) + HEADER + salt;
    var cw := new CryptoWriteCloser(prims.StreamFor(pass, salt), next);
    assert Ctr(cw.ks, 0, []) == [];
    return Some(cw);
  }

  function Flatten(chunks: seq<seq<byte>>): seq<byte> {
    if chunks == [] then [] else Flatten(chunks[..|chunks| - 1]) + chunks[|chunks| - 1]
  }

  /** However the payload is cut into writes, the stored form is that of the whole payload
      encrypted in one shot. Only a pipe that fails on the way leaves nothing. */
  method EncryptChunks(prims: Primitives, pass: seq<byte>, salt: seq<byte>, chunks: seq<seq<byte>>, mayFail: bool)
    returns (stored: Option<seq<byte>>)
    ensures stored.None? ==> mayFail || |salt| != SALT_LENGTH
    ensures |salt| != SALT_LENGTH ==> stored.None?
    ensures stored.Some? ==> stored.value == Sealed(prims, pass, salt, Flatten(chunks))
    ensures stored.Some? ==> IsEncrypted(prims, pass, stored.value, Flatten(chunks)) && stored.value[8..16] == salt
  {
    var pipe := new Pipe(mayFail);
    var w := NewWriter(prims, pipe, pass, salt);
    if w.None? {
      return None;
    }
    var cw := w.value;
    for i := 0 to |chunks|
      invariant cw.Valid() && !cw.closed && cw.next == pipe && fresh(cw) && fresh(pipe)
      invariant cw.ks == prims.StreamFor(pass, salt) && cw.preamble == HEADER + salt
      invariant !pipe.broken && pipe.mayFail == mayFail && cw.accepted == Flatten(chunks[..i])
    {
      var chunk := chunks[i];
      var p := NewBuffer(chunk);
      var n, err := cw.Write(p);
      if err {
        return None;
      }
      assert chunks[..i + 1][..i] == chunks[..i];
    }
    assert chunks[..|chunks|] == chunks;
    var err := cw.Close();
    SealedIsEncrypted(prims, pass, salt, Flatten(chunks));
    return if pipe.broken then None else Some(pipe.data);
  }

  // ----- Reader -----

  datatype ReadOutcome =
    | Done
    | Failed     // the underlying read failed
    | Panicked   // slice bounds out of range

  datatype Opened = Opened(reader: CryptoReaderAt) | NotAStream | OpenFailed

  /** The end, in payload offsets, of the block-aligned window that a read of `k` bytes fetches. */
  function WindowEnd(k: nat, off: nat): nat {
    var aligned := (off + k) / BLOCK_SIZE;
    BLOCK_SIZE * (if aligned <= off / BLOCK_SIZE then off / BLOCK_SIZE + 1 else aligned)
  }

  function Min(a: int, b: int): int {
    if a < b then a else b
  }

  /** The exact number of bytes a read of `k` bytes at `off` yields from a payload of `total`. */
  function ReadCount(k: nat, off: nat, total: nat): int {
    Min(k, Min(total - off, WindowEnd(k, off) - off))
  }

  /** The same without naming the window: the count ends the buffer, the payload or the last block that
      lies wholly in reach, whichever comes first. */
  ghost predicate IsReadCount(n: int, k: nat, off: nat, total: nat) {
    var stop := 16 * (if (off + k) / 16 > off / 16 then (off + k) / 16 else off / 16 + 1);
    && n <= k && off + n <= total && off + n <= stop
    && (n == k || off + n == total || off + n == stop)
  }

  lemma ReadCountIs(k: nat, off: nat, total: nat)
    ensures IsReadCount(ReadCount(k, off, total), k, off, total)
  {
  }

  datatype CryptoReaderAt = CryptoReaderAt(ks: nat -> byte, next: StoredObject) {

    /** The payload: everything after header and salt, under the keystream once more. */
    ghost function Payload(): seq<byte>
      requires BLOCK_SIZE <= |next.content|
    {
      Ctr(ks, 0, next.content[BLOCK_SIZE..])
    }

    /** Fetches `len` stored bytes from the block boundary `start` and decrypts them in place. */
    method FetchWindow(start: nat, len: nat) returns (data: array<byte>, got: nat, err: ReadError)
      requires BLOCK_SIZE <= start && BLOCK_SIZE <= |next.content|
      ensures fresh(data) && data.Length == len
      ensures err.Failure? ==> next.mayFail
      ensures !err.Failure? ==> got == next.Available(len, start)
      ensures !err.Failure? ==>
        forall i :: 0 <= i < got ==> data[i] == Payload()[start - BLOCK_SIZE + i]
    {
      data := new byte[len];
      got, err := next.ReadAt(data, data.Length, start);
      if !err.Failure? {
        ghost var fetched := data[..];
        assert data[..data.Length] == fetched;
        XorKeyStreamAt(data, data.Length, ks, start - BLOCK_SIZE);
        forall i | 0 <= i < got
          ensures data[i] == Payload()[start - BLOCK_SIZE + i]
        {
          assert data[..][i] == Xor(fetched[i], ks(start - BLOCK_SIZE + i));
        }
      }
    }

    /** Reads into `p[..k]` from payload offset `off`. The count may be short without any error.
        Past the end of the payload an unaligned offset runs into slice bounds. */
    method ReadAt(p: array<byte>, k: nat, off: nat) returns (n: nat, outcome: ReadOutcome)
      requires k <= p.Length
      requires BLOCK_SIZE <= |next.content|
      modifies p
      ensures outcome.Done? && off <= |Payload()| ==>
        && n == ReadCount(k, off, |Payload()|)
        && forall i :: 0 <= i < n ==> p[i] == Payload()[off + i]
      ensures outcome.Done? && off <= |Payload()| ==> IsReadCount(n, k, off, |Payload()|)
      ensures !outcome.Done? || off > |Payload()| ==> n == 0
      ensures forall i :: n <= i < p.Length ==> p[i] == old(p[i])
      ensures outcome.Failed? ==> next.mayFail
      ensures outcome.Panicked? ==> off > |Payload()| && off % BLOCK_SIZE != 0
      ensures off > |Payload()| && off % BLOCK_SIZE != 0 ==> !outcome.Done?
    {
      var intOff := off + BLOCK_SIZE;
      var readStartOff := intOff / BLOCK_SIZE * BLOCK_SIZE;
      var readEndOff := (intOff + k) / BLOCK_SIZE * BLOCK_SIZE;
      if readEndOff == readStartOff {
        readEndOff := readEndOff + BLOCK_SIZE;
      }
      WindowBounds(k, off);
      var data, got, err := FetchWindow(readStartOff, readEndOff - readStartOff);
      if err.Failure? {
        return 0, Failed;
      }
      WindowCount(k, off, |next.content|, got);
      var lo := intOff - readStartOff;
      var ePos := Min(got, lo + k);
      if lo > ePos {
        return 0, Panicked;
      }
      n := Min(k, ePos - lo);
      ReadCountIs(k, off, |Payload()|);
      CopyInto(p, data, lo, n);
      return n, Done;
    }
  }

  /** The window starts at the block of `off` and ends at `WindowEnd`, both shifted by the preamble. */
  lemma WindowBounds(k: nat, off: nat)
    ensures (off + BLOCK_SIZE) / BLOCK_SIZE * BLOCK_SIZE == off - off % BLOCK_SIZE + BLOCK_SIZE
    ensures var start := (off + BLOCK_SIZE) / BLOCK_SIZE * BLOCK_SIZE;
      var end := (off + BLOCK_SIZE + k) / BLOCK_SIZE * BLOCK_SIZE;
      start < (if end == start then end + BLOCK_SIZE else end) == WindowEnd(k, off) + BLOCK_SIZE
  {
  }

  /** What is left of a fetched window after skipping to the wanted byte: exactly `ReadCount` bytes
      inside the payload; past its end nothing, or an empty slice whose bounds are reversed. */
  lemma WindowCount(k: nat, off: nat, size: nat, got: nat)
    requires BLOCK_SIZE <= size
    requires var start := off - off % BLOCK_SIZE + BLOCK_SIZE;
      got == if start >= size then 0 else Min(WindowEnd(k, off) + BLOCK_SIZE - start, size - start)
    ensures var lo := off % BLOCK_SIZE;
      var ePos := Min(got, lo + k);
      if off + BLOCK_SIZE <= size then lo <= ePos && Min(k, ePos - lo) == ReadCount(k, off, size - BLOCK_SIZE)
      else if lo != 0 then ePos < lo
      else Min(k, ePos - lo) == 0
  {
  }

  /** Every read with room in the buffer and payload left makes progress, so a loop of reads ends;
      and a read can stop short of the buffer by less than one block only. */
  lemma ReadsMakeProgress(k: nat, off: nat, total: nat)
    requires off <= total
    ensures 0 <= ReadCount(k, off, total) <= k && off + ReadCount(k, off, total) <= total
    ensures 0 < k && off < total ==> 0 < ReadCount(k, off, total)
    ensures k - BLOCK_SIZE < ReadCount(k, off, total) || off + ReadCount(k, off, total) == total
  {
  }

  /** Checks header and salt and derives the key. A stream that ends right after the salt may be
      refused, because reading the salt may already report the end of the file. */
  method NewReaderAt(prims: Primitives, next: StoredObject, pass: seq<byte>) returns (r: Opened)
    ensures r.Opened? ==>
      && BLOCK_SIZE <= |next.content| && next.content[..|HEADER|] == HEADER
      && r.reader == CryptoReaderAt(prims.StreamFor(pass, next.content[|HEADER|..BLOCK_SIZE]), next)
    ensures r.OpenFailed? ==> next.mayFail
    ensures r.NotAStream? ==> |next.content| <= BLOCK_SIZE || next.content[..|HEADER|] != HEADER
  {
    var hdrBuf := new byte[|HEADER|];
    var n, err := next.ReadAt(hdrBuf, hdrBuf.Length, 0);
    if !err.NoError? {
      return if err.Eof? then NotAStream else OpenFailed;
    }
    assert hdrBuf[..] == next.content[..|HEADER|];
    if hdrBuf[..] != HEADER {
      return NotAStream;
    }
    var salt := new byte[SALT_LENGTH];
    n, err := next.ReadAt(salt, salt.Length, |HEADER|);
    if !err.NoError? {
      return if err.Eof? then NotAStream else OpenFailed;
    }
    if n != SALT_LENGTH {
      return NotAStream;
    }
    assert salt[..] == next.content[|HEADER|..BLOCK_SIZE];
    return Opened(CryptoReaderAt(prims.StreamFor(pass, salt[..]), next));
  }

  /** What the reader sees of a sealed stream is the payload that was sealed. */
  lemma SealedOpens(prims: Primitives, pass: seq<byte>, salt: seq<byte>, plain: seq<byte>)
    requires |salt| == SALT_LENGTH
    ensures var stored := Sealed(prims, pass, salt, plain);
      && |stored| == BLOCK_SIZE + |plain|
      && stored[..|HEADER|] == HEADER && stored[|HEADER|..BLOCK_SIZE] == salt
      && Ctr(prims.StreamFor(pass, salt), 0, stored[BLOCK_SIZE..]) == plain
  {
    var ks := prims.StreamFor(pass, salt);
    var stored := Sealed(prims, pass, salt, plain);
    assert stored[BLOCK_SIZE..] == Ctr(ks, 0, plain);
    CtrTwice(ks, 0, plain);
  }
}
