/** The handler that serves the database's requests, writing the archive as they come in. */
module BackupWriting {
  import opened ArchiveFormat
  import opened ArchiveWriting
  import opened BackupRequests
  import opened Bytes
  import opened Common
  import opened FooterBytes
  import opened FooterText

  lemma GrowTwice(files: seq<File>, a: seq<byte>, b: seq<byte>)
    requires files != []
    ensures Grow(Grow(files, a), b) == Grow(files, a + b)
  {
    assert Init(Grow(files, a)) == Init(files);
    assert Last(files).1 + a + b == Last(files).1 + (a + b);
  }

  lemma GrowNothing(files: seq<File>)
    requires files != []
    ensures Grow(files, []) == files
  {
    assert Last(files).1 + [] == Last(files).1;
  }

  lemma GrowNew(files: seq<File>, name: string, body: seq<byte>)
    ensures Grow(files + [(name, [])], body) == files + [(name, body)]
  {
    assert Init(files + [(name, [])]) == files;
    assert [] + body == body;
  }

  method WritePiece(aw: ArchiveWriter, piece: seq<byte>) returns (err: bool)
    requires aw.Valid() && aw.openFile != ""
    modifies aw, aw.next.Repr()
    ensures aw.Valid() && aw.openFile == old(aw.openFile) && aw.footer == old(aw.footer)
    ensures old(aw.next.Broken()) ==> aw.next.Broken()
    ensures aw.next.Broken() && !old(aw.next.Broken()) ==> aw.next.MayFail()
    ensures err == aw.next.Broken()
    ensures !err ==> old(aw.files) != [] && aw.files == Grow(old(aw.files), piece)
  {
    var buf := NewBuffer(piece);
    var n, werr := aw.Write(buf);
    err := werr || n < buf.Length;
  }

  /** Copies a body to the open file in pieces of any size. */
  method Copy(aw: ArchiveWriter, body: seq<byte>, bodyFails: bool) returns (err: bool)
    requires aw.Valid() && aw.openFile != ""
    modifies aw, aw.next.Repr()
    ensures aw.Valid() && aw.openFile == old(aw.openFile) && aw.footer == old(aw.footer)
    ensures old(aw.next.Broken()) ==> aw.next.Broken()
    ensures aw.next.Broken() && !old(aw.next.Broken()) ==> aw.next.MayFail()
    ensures !aw.next.Broken() ==>
      && err == bodyFails
      && old(aw.files) != [] && aw.files == Grow(old(aw.files), body)
    ensures aw.next.Broken() && !old(aw.next.Broken()) ==> err
  {
    ghost var done: seq<byte> := [];
    var rest := body;
    if !aw.next.Broken() {
      GrowNothing(aw.files);
    }
    while rest != []
      invariant aw.Valid() && aw.openFile == old(aw.openFile) && aw.footer == old(aw.footer)
      invariant aw.next.Broken() == old(aw.next.Broken()) && done + rest == body
      invariant !aw.next.Broken() ==> old(aw.files) != [] && aw.files == Grow(old(aw.files), done)
      decreases |rest|
    {
      var k: nat :| 0 < k <= |rest|;
      ghost var piece := rest[..k];
      err := WritePiece(aw, rest[..k]);
      if err {
        return;
      }
      if !aw.next.Broken() {
        GrowTwice(old(aw.files), done, piece);
      }
      assert done + piece + rest[k..] == done + rest;
      done, rest := done + piece, rest[k..];
    }
    assert done == body;
    return bodyFails;
  }

  datatype Finish = Finished | Failed | Panicked

  class BackupWriter {
    var memFS: map<string, seq<byte>>
    const aw: ArchiveWriter

    constructor (aw: ArchiveWriter)
      requires aw.Valid() && aw.files == []
      ensures this.aw == aw && Valid() && State() == EMPTY
    {
      this.aw, memFS := aw, map[];
    }

    ghost function Repr(): set<object> {
      {this} + aw.Repr()
    }

    /** The state that the requests act on. */
    ghost function State(): FileSystem
      reads this, aw
    {
      FileSystem(aw.files, memFS)
    }

    ghost predicate Valid()
      reads Repr()
    {
      && aw.Valid() && this !in aw.Repr()
      && "" !in memFS
      && (!aw.next.Broken() ==> Separated(State()))
    }

    /** Answers one request. Until the sink breaks, state and response are those of `Serve`. */
    method ServeHTTP(r: Request) returns (response: Response)
      requires Valid()
      modifies Repr()
      ensures Valid() && (old(aw.next.Broken()) ==> aw.next.Broken())
      ensures aw.next.Broken() && !old(aw.next.Broken()) ==> aw.next.MayFail()
      ensures !aw.next.Broken() ==> (State(), response) == Serve(old(State()), r)
    {
      var name := if URL_PREFIX <= r.path then r.path[|URL_PREFIX|..] else r.path;
      if r.contentLength.Invalid? {
        return Reply(400);
      }
      if IsData(name) {
        response := PutData(name, r);
      } else if "BACKUP" <= name || "progress/BACKUP" <= name {
        response := ServeMetaFile(name, r);
      } else {
        response := Reply(400);
      }
    }

    method ServeMetaFile(name: string, r: Request) returns (response: Response)
      requires Valid() && IsMeta(name)
      modifies this`memFS
      ensures Valid() && aw.next.Broken() == old(aw.next.Broken())
      ensures State() == ServeMeta(old(State()), name, r).0
      ensures response == ServeMeta(old(State()), name, r).1
    {
      KindsOfNames(name);
      ServeMetaSeparated(State(), name, r);
      match r.method_
      case Delete =>
        memFS := memFS - {name};
        response := Reply(204);
      case Get =>
        response := if name in memFS then Response(200, memFS[name]) else Reply(404);
      case Put =>
        memFS := memFS[name := r.body];
        response := Reply(if r.bodyFails then 400 else if WrongLength(r) then 500 else 201);
      case OtherMethod =>
        response := Reply(405);
    }

    method PutData(name: string, r: Request) returns (response: Response)
      requires Valid() && IsData(name)
      modifies Repr()
      ensures Valid() && (old(aw.next.Broken()) ==> aw.next.Broken())
      ensures aw.next.Broken() && !old(aw.next.Broken()) ==> aw.next.MayFail()
      ensures !aw.next.Broken() ==> (State(), response) == ServeData(old(State()), name, r)
    {
      if !r.method_.Put? {
        return Reply(405);
      }
      ghost var s := State();
      var taken := aw.Create(name);
      if taken {
        return Reply(500);
      }
      KindsOfNames(name);
      var err := Copy(aw, r.body, r.bodyFails);
      response := Reply(if err || WrongLength(r) then 500 else 201);
      if !aw.next.Broken() {
        GrowNew(s.files, name, r.body);
        ServeDataSeparated(s, name, r);
      }
    }

    /** Writes the memory files behind the data files, in any order. */
    method FlushMem() returns (err: bool, ghost flushed: seq<File>)
      requires Valid()
      modifies aw.Repr()
      ensures aw.Valid()
      ensures old(aw.next.Broken()) ==> aw.next.Broken()
      ensures aw.next.Broken() && !old(aw.next.Broken()) ==> aw.next.MayFail()
      ensures memFS == old(memFS)
      ensures err ==> aw.next.Broken()
      ensures !err ==> ListsMem(flushed, memFS)
      ensures !err && !aw.next.Broken() ==> aw.files == old(aw.files) + flushed
    {
      ghost var files := aw.files;
      var todo := memFS.Keys;
      ghost var done: map<string, seq<byte>> := map[];
      flushed := [];
      assert files + flushed == files;
      while todo != {}
        invariant aw.Valid() && todo <= memFS.Keys && memFS == old(memFS)
        invariant aw.next.Broken() == old(aw.next.Broken())
        invariant done == map name | name in memFS && name !in todo :: memFS[name]
        invariant ListsMem(flushed, done)
        invariant !aw.next.Broken() ==> aw.files == files + flushed
      {
        var name :| name in todo;
        if !aw.next.Broken() {
          FlushStored(files, flushed, done);
        }
        err := FlushFile(aw, name, memFS[name]);
        if err {
          return;
        }
        ghost var f := (name, memFS[name]);
        ExtendFlush(flushed, done, f);
        assert files + flushed + [f] == files + (flushed + [f]);
        flushed, done := flushed + [f], done[name := memFS[name]];
        todo := todo - {name};
      }
      assert done == memFS;
      err := false;
    }

    /** Writes what is held in memory and closes the archive. */
    method Close() returns (r: Finish, ghost flushed: seq<File>)
      requires Valid()
      modifies Repr()
      ensures aw.next.Valid() && (old(aw.next.Broken()) ==> aw.next.Broken() && !r.Finished?)
      ensures r.Failed? ==> aw.next.Broken()
      ensures aw.next.Broken() && !old(aw.next.Broken()) ==> aw.next.MayFail()
      ensures r.Finished? ==>
        && ListsMem(flushed, old(memFS)) && !aw.next.Broken()
        && aw.base <= aw.next.Taken()
        && var all := old(aw.files) + flushed;
           (|Body(all)| <= INT64_MAX ==> IsArchive(aw.next.Taken()[|aw.base|..], all))
      ensures r.Panicked? && !aw.next.Broken() ==>
        && ListsMem(flushed, old(memFS))
        && TextLength(Layout(old(aw.files) + flushed)) > PAD_SIZE
    {
      var err;
      err, flushed := FlushMem();
      if err {
        return Failed, flushed;
      }
      var closing := aw.Close();
      match closing
      case Closed => r := Finished;
      case WriteFailed => r := Failed;
      case Panicked => r := Finish.Panicked;
    }
  }

  /** Creates one memory file in the archive and writes its content. */
  method FlushFile(aw: ArchiveWriter, name: string, data: seq<byte>) returns (err: bool)
    requires aw.Valid() && name != ""
    requires !aw.next.Broken() ==> name !in Layout(aw.files)
    modifies aw.Repr()
    ensures aw.Valid()
    ensures old(aw.next.Broken()) ==> aw.next.Broken()
    ensures aw.next.Broken() && !old(aw.next.Broken()) ==> aw.next.MayFail()
    ensures err ==> aw.next.Broken()
    ensures !err ==> aw.next.Broken() == old(aw.next.Broken())
    ensures !err && !aw.next.Broken() ==> aw.files == old(aw.files) + [(name, data)]
  {
    var taken := aw.Create(name);
    if taken {
      return true;
    }
    GrowNew(old(aw.files), name, data);
    err := Copy(aw, data, false);
  }

  lemma ExtendFlush(fs: seq<File>, mem: map<string, seq<byte>>, f: File)
    requires ListsMem(fs, mem) && f.0 !in mem
    ensures ListsMem(fs + [f], mem[f.0 := f.1])
  {
    assert Init(fs + [f]) == fs;
    assert mem[f.0 := f.1] - {f.0} == mem;
  }
}
