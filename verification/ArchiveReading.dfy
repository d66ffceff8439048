/** Reading an archive back from its source. */
module ArchiveReading {
  import opened ArchiveFormat
  import opened Bytes
  import opened Common
  import opened FooterBytes
  import opened FooterText
  import opened Sections

  datatype FooterRead = FooterOk(footer: Footer) | FooterUnreadable | FooterMalformed

  /** Reads the last `PAD_SIZE` bytes and decodes them. A plain object that is shorter refuses the
      negative offset. */
  method DecodeFrom(src: Source, size: nat) returns (r: FooterRead)
    requires src.Valid() && size <= |src.View()| && (size < PAD_SIZE ==> src.Plain?)
    ensures r.FooterOk? ==>
      PAD_SIZE <= size && DecodeFooter(src.View()[size - PAD_SIZE..size]) == Some(r.footer)
    ensures r.FooterUnreadable? ==> src.MayFail() || size < PAD_SIZE
    ensures r.FooterMalformed? ==>
      PAD_SIZE <= size && DecodeFooter(src.View()[size - PAD_SIZE..size]).None?
  {
    if size < PAD_SIZE {
      return FooterUnreadable;
    }
    var raw := ReadSection(src, size - PAD_SIZE, PAD_SIZE);
    if raw.None? {
      return FooterUnreadable;
    }
    var f := DecodeFooter(raw.value);
    return if f.Some? then FooterOk(f.value) else FooterMalformed;
  }

  datatype ArchiveReader = ArchiveReader(footer: Footer, next: Source) {

    /** The section of the named file, or nothing when the footer does not list it. */
    method Open(name: string) returns (sr: Option<SectionReader>)
      ensures sr.Some? <==> name in footer
      ensures sr.Some? ==>
        && fresh(sr.value) && sr.value.src == next
        && sr.value.off == footer[name].start && sr.value.limit == footer[name].start + footer[name].size
    {
      if name !in footer {
        return None;
      }
      var info := footer[name];
      var section := new SectionReader(next, info.start, info.size);
      return Some(section);
    }
  }

  datatype FileRead = Content(data: seq<byte>) | NotExist | Unreadable

  /** Reads one file through the section loop. */
  method ReadNamed(reader: ArchiveReader, name: string) returns (r: FileRead)
    requires reader.next.Valid()
    requires name in reader.footer ==>
      var info := reader.footer[name];
      0 <= info.start && 0 <= info.size && info.start + info.size <= |reader.next.View()|
    ensures r.NotExist? ==> name !in reader.footer
    ensures r.Unreadable? ==> reader.next.MayFail()
    ensures r.Content? ==>
      && name in reader.footer
      && var info := reader.footer[name];
         r.data == reader.next.View()[info.start..info.start + info.size]
  {
    var sr := reader.Open(name);
    if sr.None? {
      return NotExist;
    }
    var data := ReadAll(sr.value);
    return if data.Some? then Content(data.value) else Unreadable;
  }

  /** Opens an archive: what is decoded is the layout of its files. */
  method NewArchiveReader(src: Source, size: nat, ghost files: seq<File>) returns (r: Option<ArchiveReader>)
    requires src.Valid() && size == |src.View()| && IsArchive(src.View(), files)
    ensures r.Some? ==> r.value == ArchiveReader(Layout(files), src)
    ensures r.None? ==> src.MayFail()
  {
    ArchiveFooter(src.View(), files);
    var footer := DecodeFrom(src, size);
    return if footer.FooterOk? then Some(ArchiveReader(footer.footer, src)) else None;
  }

  /** Opens an archive and reads one file. Whatever the buffer sizes, the bytes are those written
      under the name. */
  method ReadFile(src: Source, name: string, ghost files: seq<File>) returns (r: FileRead)
    requires src.Valid() && IsArchive(src.View(), files)
    ensures r.Content? ==> ContentOf(files, name) == Some(r.data)
    ensures r.NotExist? ==> ContentOf(files, name) == None
    ensures r.Unreadable? ==> src.MayFail()
  {
    ArchiveLocates(Body(files), src.View(), files, name);
    var reader := NewArchiveReader(src, src.Size(), files);
    if reader.None? {
      return Unreadable;
    }
    r := ReadNamed(reader.value, name);
  }

  function Unpacked(out: map<string, seq<byte>>, name: string): Option<seq<byte>> {
    if name in out then Some(out[name]) else None
  }

  /** The footer finds exactly the files, and every entry points at the file's content. */
  ghost predicate Locates(f: Footer, view: seq<byte>, files: seq<File>, name: string) {
    && (ContentOf(files, name).Some? <==> name in f)
    && (name in f ==>
      && 0 <= f[name].start && 0 <= f[name].size && f[name].start + f[name].size <= |view|
      && ContentOf(files, name) == Some(view[f[name].start..f[name].start + f[name].size]))
  }

  /** Reads every file that the footer lists, in any order. */
  method ReadAllFiles(reader: ArchiveReader, ghost files: seq<File>) returns (out: Option<map<string, seq<byte>>>)
    requires reader.next.Valid()
    requires forall name :: Locates(reader.footer, reader.next.View(), files, name)
    ensures out.None? ==> reader.next.MayFail()
    ensures out.Some? ==> forall name :: Unpacked(out.value, name) == ContentOf(files, name)
  {
    var todo := reader.footer.Keys;
    var done: map<string, seq<byte>> := map[];
    while todo != {}
      invariant todo <= reader.footer.Keys
      invariant done.Keys == reader.footer.Keys - todo
      invariant forall name :: name in done ==> ContentOf(files, name) == Some(done[name])
    {
      var name :| name in todo;
      assert Locates(reader.footer, reader.next.View(), files, name);
      var r := ReadNamed(reader, name);
      if !r.Content? {
        return None;
      }
      done := done[name := r.data];
      todo := todo - {name};
    }
    forall name
      ensures Unpacked(done, name) == ContentOf(files, name)
    {
      assert Locates(reader.footer, reader.next.View(), files, name);
    }
    return Some(done);
  }

  /** Unpacks an archive: what comes out is all of it and nothing else. */
  method Unpack(src: Source, ghost files: seq<File>) returns (out: Option<map<string, seq<byte>>>)
    requires src.Valid() && IsArchive(src.View(), files)
    ensures out.None? ==> src.MayFail()
    ensures out.Some? ==> forall name :: Unpacked(out.value, name) == ContentOf(files, name)
  {
    var reader := NewArchiveReader(src, src.Size(), files);
    if reader.None? {
      return None;
    }
    forall name
      ensures Locates(Layout(files), src.View(), files, name)
    {
      ArchiveLocates(Body(files), src.View(), files, name);
    }
    out := ReadAllFiles(reader.value, files);
  }
}
