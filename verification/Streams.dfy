/** The two ends of the storage path that the streams are layered on: a pipe to write to and a
    stored object to read from. Both may fail at any time. */
module Streams {
  import opened Bytes

  /** The writing end of the upload pipe. `data` is what the reading end has received. A write
      that fails or is cut short means that the reading end is gone, so every later write fails. */
  class Pipe {
    var data: seq<byte>
    var broken: bool
    const mayFail: bool   // whether the reading end may go away at all

    constructor (mayFail: bool)
      ensures data == [] && !broken && this.mayFail == mayFail
    {
      data, broken, this.mayFail := [], false, mayFail;
    }

    method Write(p: seq<byte>) returns (n: nat, err: bool)
      modifies this
      ensures n <= |p| && data == old(data) + p[..n]
      ensures broken == (old(broken) || err || n < |p|)
      ensures old(broken) ==> err && n == 0
      ensures broken && !old(broken) ==> mayFail
    {
      if broken {
        return 0, true;
      }
      if !mayFail {
        n, err := |p|, false;
      } else {
        n :| 0 <= n <= |p|;
        err := *;
      }
      data := data + p[..n];
      broken := err || n < |p|;
    }
  }

  datatype ReadError = NoError | Eof | Failure

  /** A stored object opened for random access, for example an S3 object or a file. */
  class StoredObject {
    const content: seq<byte>
    const mayFail: bool   // whether reads may fail at all

    constructor (content: seq<byte>, mayFail: bool)
      ensures this.content == content && this.mayFail == mayFail
    {
      this.content, this.mayFail := content, mayFail;
    }

    /** Reads into `p[..k]`. A full read that ends exactly at the end of the object may or may not
        report the end of the file; bytes of `p` beyond the returned count may be scratched. */
    method ReadAt(p: array<byte>, k: nat, off: nat) returns (n: nat, err: ReadError)
      requires k <= p.Length
      modifies p
      ensures forall i :: k <= i < p.Length ==> p[i] == old(p[i])
      ensures !err.Failure? ==> n == Available(k, off)
      ensures !err.Failure? ==> forall i :: 0 <= i < n ==> p[i] == content[off + i]
      ensures n < k ==> !err.NoError?
      ensures err.Failure? ==> mayFail
      ensures err.Eof? ==> off + n >= |content|
    {
      var broken: bool := *;
      if mayFail && broken {
        return 0, Failure;
      }
      n := Available(k, off);
      for i := 0 to n
        invariant forall j :: k <= j < p.Length ==> p[j] == old(p[j])
        invariant forall j :: 0 <= j < i ==> p[j] == content[off + j]
      {
        p[i] := content[off + i];
      }
      var early: bool := *;
      err := if n < k || (early && off + n >= |content|) then Eof else NoError;
    }

    function Available(k: nat, off: nat): (n: nat)
      ensures n <= k && (off <= |content| ==> off + n <= |content|)
    {
      if off >= |content| then 0
      else if k <= |content| - off then k
      else |content| - off
    }
  }
}
