/** Writing an archive into the upload pipe, directly or through the encrypting writer. */
module ArchiveWriting {
  import opened ArchiveFormat
  import opened Bytes
  import opened Common
  import opened CryptoStream
  import opened FooterBytes
  import opened FooterText
  import opened Streams

  /** Where an archive is written to: the upload pipe, directly or through the encrypting writer. */
  datatype Sink = Clear(pipe: Pipe) | Encrypting(cw: CryptoWriteCloser) {

    ghost function Repr(): set<object> {
      match this
      case Clear(p) => {p}
      case Encrypting(cw) => {cw, cw.next}
    }

    ghost predicate Valid()
      reads Repr()
    {
      Encrypting? ==> cw.Valid() && !cw.closed
    }

    ghost predicate Broken()
      reads Repr()
    {
      match this
      case Clear(p) => p.broken
      case Encrypting(cw) => cw.next.broken
    }

    /** All bytes taken so far. */
    ghost function Taken(): seq<byte>
      reads Repr()
    {
      match this
      case Clear(p) => p.data
      case Encrypting(cw) => cw.accepted
    }

    ghost function MayFail(): bool {
      match this
      case Clear(p) => p.mayFail
      case Encrypting(cw) => cw.next.mayFail
    }

    method Write(p: array<byte>) returns (n: nat, err: bool)
      requires Valid()
      modifies Repr()
      ensures Broken() && !old(Broken()) ==> MayFail()
      ensures Valid() && n <= p.Length
      ensures old(Broken()) ==> Broken()
      ensures !Broken() ==> !err && n == p.Length && Taken() == old(Taken()) + p[..]
      ensures Broken() ==> err || n < p.Length
    {
      match this
      case Clear(pipe) =>
        n, err := pipe.Write(p[..]);
        assert p[..][..p.Length] == p[..];
      case Encrypting(cw) =>
        n, err := cw.Write(p);
    }
  }

  /** How writing the footer ends; a negative padding length is a run-time panic. */
  datatype Closing = Closed | WriteFailed | Panicked

  /** Writes the footer as JSON text, padded with zero bytes. The encoder sorts the names; nothing
      below depends on the order, so any order is allowed here. */
  method EncodeTo(footer: Footer, w: Sink) returns (r: Closing)
    requires w.Valid()
    modifies w.Repr()
    ensures w.Valid() && (old(w.Broken()) ==> w.Broken())
    ensures w.Broken() && !old(w.Broken()) ==> w.MayFail()
    ensures r.Panicked? <==> TextLength(footer) > PAD_SIZE
    ensures r.Panicked? ==> w.Broken() == old(w.Broken()) && w.Taken() == old(w.Taken())
    ensures r.WriteFailed? ==> w.Broken()
    ensures r.Closed? ==> !w.Broken() && old(w.Taken()) <= w.Taken()
    ensures r.Closed? ==> IsFooter(w.Taken()[|old(w.Taken())|..], footer)
  {
    var listed: seq<Entry> := [];
    var todo := footer.Keys;
    ghost var done: Footer := map[];
    while todo != {}
      invariant todo <= footer.Keys && Lists(listed, done)
      invariant done == map name | name in footer && name !in todo :: footer[name]
    {
      var name :| name in todo;
      done := done[name := footer[name]];
      assert Without(done, name) == map n | n in footer && n !in todo :: footer[n];
      listed := [(name, footer[name])] + listed;
      todo := todo - {name};
    }
    assert done == footer;
    assert Lists(listed, footer);
    FooterTextLength(listed, footer);
    if |TextBytes(listed)| > PAD_SIZE {
      return Closing.Panicked;
    }
    var buf := NewBuffer(EncodeFooter(listed));
    var n, err := w.Write(buf);
    r := if err || n < buf.Length then WriteFailed else Closed;
    if r.Closed? {
      assert w.Taken()[|old(w.Taken())|..] == EncodeFooter(listed);
    }
  }

  function Lookup(footer: Footer, name: string): FileInfo {
    if name in footer then footer[name] else FileInfo(0, 0)
  }

  /** What the writer keeps as footer: the layout of the files, except that the size of an open
      file is filled in when it is closed. */
  ghost predicate FooterMatches(footer: Footer, files: seq<File>, openFile: string) {
    if openFile == "" then footer == Layout(files)
    else
      && files != [] && Last(files).0 == openFile
      && footer == Layout(Init(files))[openFile := FileInfo(|Body(Init(files))|, 0)]
  }

  lemma CloseLast(footer: Footer, files: seq<File>, openFile: string)
    requires FooterMatches(footer, files, openFile) && openFile != ""
    ensures openFile in footer
    ensures footer[openFile := footer[openFile].(size := |Body(files)| - footer[openFile].start)] == Layout(files)
  {
  }

  lemma AddFile(files: seq<File>, name: string)
    requires DistinctNames(files) && name !in Layout(files)
    ensures var more := files + [(name, [])];
      && DistinctNames(more) && Body(more) == Body(files)
      && FooterMatches(Layout(files)[name := FileInfo(|Body(files)|, 0)], more, name)
  {
    assert Init(files + [(name, [])]) == files;
  }

  lemma GrowLast(footer: Footer, files: seq<File>, openFile: string, data: seq<byte>)
    requires DistinctNames(files) && FooterMatches(footer, files, openFile) && openFile != ""
    ensures var grown := Grow(files, data);
      DistinctNames(grown) && FooterMatches(footer, grown, openFile) && Body(grown) == Body(files) + data
  {
    var grown := Grow(files, data);
    assert Init(grown) == Init(files) && Last(grown) == (openFile, Last(files).1 + data);
    assert Body(Init(files)) + Last(files).1 + data == Body(Init(files)) + (Last(files).1 + data);
  }

  /** What the sink has taken, the files and the writer's records agree. */
  ghost predicate InStep(base: seq<byte>, taken: seq<byte>, files: seq<File>, footer: Footer, openFile: string, written: int) {
    && DistinctNames(files)
    && FooterMatches(footer, files, openFile)
    && written == |Body(files)|
    && taken == base + Body(files)
  }

  /** They still do when a new file is opened. */
  lemma OpenedInStep(base: seq<byte>, taken: seq<byte>, files: seq<File>, footer: Footer, written: int, name: string)
    requires InStep(base, taken, files, footer, "", written) && name !in footer
    ensures InStep(base, taken, files + [(name, [])], footer[name := FileInfo(written, 0)], name, written)
  {
    AddFile(files, name);
  }

  /** And when the open file is closed. */
  lemma ClosedLastInStep(base: seq<byte>, taken: seq<byte>, files: seq<File>, footer: Footer, openFile: string, written: int)
    requires InStep(base, taken, files, footer, openFile, written) && openFile != ""
    ensures openFile in footer
    ensures InStep(base, taken, files, footer[openFile := footer[openFile].(size := written - footer[openFile].start)], "", written)
  {
    CloseLast(footer, files, openFile);
  }

  /** They still do after more bytes of the open file. */
  lemma WrittenInStep(base: seq<byte>, taken: seq<byte>, files: seq<File>, footer: Footer, openFile: string, written: int,
                      data: seq<byte>)
    requires InStep(base, taken, files, footer, openFile, written) && openFile != ""
    ensures InStep(base, taken + data, Grow(files, data), footer, openFile, written + |data|)
  {
    GrowLast(footer, files, openFile, data);
  }

  /** What was taken since the beginning is an archive of the files, if 64-bit offsets can describe
      it. */
  ghost predicate Archived(base: seq<byte>, taken: seq<byte>, files: seq<File>) {
    base <= taken && (|Body(files)| <= INT64_MAX ==> IsArchive(taken[|base|..], files))
  }

  /** The footer behind the body makes an archive. */
  lemma ClosedInStep(base: seq<byte>, before: seq<byte>, after: seq<byte>, files: seq<File>, footer: Footer, written: int)
    requires InStep(base, before, files, footer, "", written)
    requires before <= after && IsFooter(after[|before|..], footer)
    ensures Archived(base, after, files)
  {
    BodyAndFooter(base, files, after);
  }

  class ArchiveWriter {
    var footer: Footer
    const next: Sink
    var openFile: string   // "" while no file is open
    var written: nat
    ghost const base: seq<byte>      // what the sink had taken when the archive began
    ghost var files: seq<File>       // the files in creation order

    constructor (next: Sink)
      ensures this.next == next && base == next.Taken()
      ensures footer == map[] && openFile == "" && written == 0 && files == []
    {
      this.next, base := next, next.Taken();
      footer, openFile, written, files := map[], "", 0, [];
    }

    ghost function Repr(): set<object> {
      {this} + next.Repr()
    }

    /** Until the sink breaks, it has taken exactly the files' contents, and the footer agrees. */
    ghost predicate Valid()
      reads Repr()
    {
      && next.Valid() && this !in next.Repr()
      && (!next.Broken() ==> InStep(base, next.Taken(), files, footer, openFile, written))
    }

    method CloseIfOpen()
      requires Valid()
      modifies this`footer, this`openFile
      ensures Valid() && openFile == "" && footer.Keys <= old(footer.Keys) + {old(openFile)}
      ensures !next.Broken() ==> footer == Layout(files)
    {
      if openFile != "" {
        var info := Lookup(footer, openFile);
        info := info.(size := written - Lookup(footer, openFile).start);
        footer := footer[openFile := info];
        openFile := "";
        if !next.Broken() {
          ClosedLastInStep(base, next.Taken(), files, old(footer), old(openFile), written);
        }
      }
    }

    /** Starts a new file. A name that was used before is refused, and then no file is open. */
    method Create(name: string) returns (taken: bool)
      requires Valid()
      modifies this`footer, this`openFile, this`files
      ensures Valid() && next.Broken() == old(next.Broken()) && next.Taken() == old(next.Taken())
      ensures taken || openFile == name
      ensures !next.Broken() ==>
        && taken == (name in Layout(old(files)))
        && (taken ==> files == old(files) && openFile == "")
        && (!taken ==> files == old(files) + [(name, [])] && openFile == name)
    {
      CloseIfOpen();
      taken := name in footer;
      if !taken {
        Begin(name);
      }
    }

    /** Starts a file of a new name. */
    method Begin(name: string)
      requires Valid() && openFile == "" && name !in footer
      modifies this`footer, this`openFile, this`files
      ensures Valid() && openFile == name && files == old(files) + [(name, [])]
    {
      ghost var before, closed := files, footer;
      openFile := name;
      footer := footer[name := FileInfo(written, 0)];
      files := files + [(name, [])];
      if !next.Broken() {
        OpenedInStep(base, next.Taken(), before, closed, written, name);
      }
    }

    /** Appends to the open file; without one nothing is written. */
    method Write(data: array<byte>) returns (n: nat, err: bool)
      requires Valid()
      modifies this, next.Repr()
      ensures Valid() && openFile == old(openFile) && footer == old(footer)
      ensures old(next.Broken()) ==> next.Broken()
      ensures next.Broken() && !old(next.Broken()) ==> next.MayFail()
      ensures old(openFile) == "" ==> err && n == 0 && files == old(files) && next.Broken() == old(next.Broken())
      ensures old(openFile) != "" && !next.Broken() ==>
        && !err && n == data.Length
        && old(files) != [] && files == Grow(old(files), data[..])
      ensures old(openFile) != "" && next.Broken() ==> err || n < data.Length
    {
      if openFile == "" {
        return 0, true;
      }
      ghost var taken, before := next.Taken(), written;
      n, err := next.Write(data);
      if err {
        return;
      }
      written := written + n;
      if !next.Broken() {
        WrittenInStep(base, taken, files, footer, openFile, before, data[..]);
        files := Grow(files, data[..]);
      }
    }

    /** Closes the open file and writes the footer. */
    method Close() returns (r: Closing)
      requires Valid()
      modifies this`footer, this`openFile, next.Repr()
      ensures openFile == "" && next.Valid() && (old(next.Broken()) ==> next.Broken())
      ensures next.Broken() && !old(next.Broken()) ==> next.MayFail()
      ensures r.Closed? ==> !next.Broken() && Archived(base, next.Taken(), files)
      ensures r.WriteFailed? ==> next.Broken()
      ensures !next.Broken() ==> footer == Layout(files)
      ensures r.Panicked? <==> TextLength(footer) > PAD_SIZE
    {
      CloseIfOpen();
      r := WriteFooter();
    }

    /** Writes the footer when all files are closed. */
    method WriteFooter() returns (r: Closing)
      requires Valid() && openFile == ""
      modifies next.Repr()
      ensures next.Valid() && (old(next.Broken()) ==> next.Broken())
      ensures next.Broken() && !old(next.Broken()) ==> next.MayFail()
      ensures r.Closed? ==> !next.Broken() && Archived(base, next.Taken(), files)
      ensures r.WriteFailed? ==> next.Broken()
      ensures !next.Broken() ==> footer == Layout(files)
      ensures r.Panicked? <==> TextLength(footer) > PAD_SIZE
    {
      ghost var taken, broken := next.Taken(), next.Broken();
      assert !broken ==> InStep(base, taken, files, footer, "", written);
      r := EncodeTo(footer, next);
      if r.Closed? {
        ClosedInStep(base, taken, next.Taken(), files, footer, written);
      }
    }
  }
}
