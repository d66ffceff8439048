/** Reading sections of a backup through a loop of reads, whether it is stored in the clear or
    encrypted. Reads may be short without an error; the loops rely on every read making progress. */
module Sections {
  import opened Bytes
  import opened Common
  import opened CryptoStream
  import opened Keystream
  import opened Streams

  /** What a restore reads from: the stored object itself or the decrypting reader on it. */
  datatype Source = Plain(stored: StoredObject) | Decrypted(reader: CryptoReaderAt) {

    ghost predicate Valid() {
      Decrypted? ==> BLOCK_SIZE <= |reader.next.content|
    }

    ghost function View(): seq<byte>
      requires Valid()
    {
      match this
      case Plain(o) => o.content
      case Decrypted(r) => r.Payload()
    }

    /** The payload size: the stored size, less the preamble when the backup is encrypted. */
    function Size(): (n: nat)
      requires Valid()
      ensures n == |View()|
    {
      match this
      case Plain(o) => |o.content|
      case Decrypted(r) => |r.next.content| - BLOCK_SIZE
    }

    ghost function MayFail(): bool {
      match this
      case Plain(o) => o.mayFail
      case Decrypted(r) => r.next.mayFail
    }

    method ReadAt(p: array<byte>, k: nat, off: nat) returns (n: nat, err: ReadError)
      requires Valid() && off <= |View()| && k <= p.Length
      modifies p
      ensures !err.Failure? ==> n <= k && off + n <= |View()|
      ensures !err.Failure? ==> forall i :: 0 <= i < n ==> p[i] == View()[off + i]
      ensures !err.Failure? && 0 < k && off < |View()| ==> 0 < n
      ensures err.Eof? ==> off + n == |View()|
      ensures err.Failure? ==> MayFail()
    {
      match this
      case Plain(o) =>
        n, err := o.ReadAt(p, k, off);
      case Decrypted(r) =>
        var outcome;
        n, outcome := r.ReadAt(p, k, off);
        err := if outcome.Done? then NoError else Failure;
        ReadsMakeProgress(k, off, |View()|);
    }
  }

  /** A cursor over the bytes `off..limit` of a source. */
  class SectionReader {
    const src: Source
    const limit: int
    var off: int

    constructor (src: Source, off: int, size: int)
      ensures this.src == src && this.off == off && limit == off + size
    {
      this.src, this.off, this.limit := src, off, off + size;
    }

    ghost predicate Valid()
      reads this
    {
      src.Valid() && 0 <= off <= limit <= |src.View()|
    }

    method Read(p: array<byte>) returns (n: nat, err: ReadError)
      requires Valid()
      modifies this`off, p
      ensures !err.Failure? ==>
        && Valid() && off == old(off) + n && n <= p.Length
        && p[..n] == src.View()[old(off)..off]
      ensures err.NoError? && 0 < p.Length ==> 0 < n
      ensures err.Eof? ==> off == limit
      ensures err.Failure? ==> src.MayFail()
    {
      if off >= limit {
        return 0, Eof;
      }
      var k := if p.Length > limit - off then limit - off else p.Length;
      n, err := src.ReadAt(p, k, off);
      off := off + n;
    }
  }

  /** Reads the rest of a section with buffers of any sizes until its end is reported. Whatever the
      sizes, the loop ends and the bytes are exactly the section's. */
  method ReadAll(sr: SectionReader) returns (data: Option<seq<byte>>)
    requires sr.Valid()
    modifies sr
    ensures data.None? ==> sr.src.MayFail()
    ensures data.Some? ==> data.value == sr.src.View()[old(sr.off)..sr.limit]
  {
    var read := [];
    while true
      invariant sr.Valid() && old(sr.off) <= sr.off
      invariant read == sr.src.View()[old(sr.off)..sr.off]
      decreases sr.limit - sr.off
    {
      var room: nat :| 0 < room;
      var p := new byte[room];
      ghost var before := sr.off;
      var n, err := sr.Read(p);
      if err.Failure? {
        return None;
      }
      assert sr.src.View()[old(sr.off)..before] + sr.src.View()[before..sr.off]
          == sr.src.View()[old(sr.off)..sr.off];
      read := read + p[..n];
      if err.Eof? {
        return Some(read);
      }
    }
  }

  /** Reads `size` bytes at `off`, in the way every reader above the streams does. */
  method ReadSection(src: Source, off: nat, size: nat) returns (data: Option<seq<byte>>)
    requires src.Valid() && off + size <= |src.View()|
    ensures data.None? ==> src.MayFail()
    ensures data.Some? ==> data.value == src.View()[off..off + size]
  {
    var sr := new SectionReader(src, off, size);
    data := ReadAll(sr);
  }
}
