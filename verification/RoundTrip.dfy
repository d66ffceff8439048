/** From the database's requests to the restored file: archive, encryption, storage, decryption and
    the reading loop composed. */
module RoundTrip {
  import opened ArchiveFormat
  import opened ArchiveReading
  import opened ArchiveWriting
  import opened BackupRequests
  import opened BackupWriting
  import opened Bytes
  import opened Common
  import opened CryptoStream
  import opened FooterBytes
  import opened FooterText
  import opened Keystream
  import opened Sections
  import opened Streams

  /** The archive can be described with 64-bit offsets. */
  ghost predicate FitsOffsets(s: FileSystem) {
    forall fs :: ListsMem(fs, s.mem) ==> |Body(s.files + fs)| <= INT64_MAX
  }

  /** The footer for a file system is longer than the space reserved for it. */
  ghost predicate Overflows(s: FileSystem) {
    exists fs: seq<File> :: ListsMem(fs, s.mem) && TextLength(Layout(s.files + fs)) > PAD_SIZE
  }

  /** `payload` is the closed archive of a file system, its memory files flushed in some order. */
  ghost predicate IsClosed(payload: seq<byte>, s: FileSystem) {
    exists fs: seq<File> :: ListsMem(fs, s.mem) && IsArchive(payload, s.files + fs)
  }

  /** The stored form: the payload itself without a pass phrase, and sealed with one. */
  function StoredForm(prims: Primitives, pass: seq<byte>, salt: seq<byte>, payload: seq<byte>): seq<byte> {
    if pass == [] then payload else Sealed(prims, pass, salt, payload)
  }

  ghost predicate IsBackup(prims: Primitives, pass: seq<byte>, stored: seq<byte>, s: FileSystem) {
    exists salt, payload ::
      |salt| == SALT_LENGTH && IsClosed(payload, s) && stored == StoredForm(prims, pass, salt, payload)
  }

  /** The stored bytes are a closed archive with the bits of the keystream turned over. */
  ghost predicate IsClosedEncrypted(prims: Primitives, pass: seq<byte>, stored: seq<byte>, s: FileSystem)
    requires |stored| >= 16
  {
    exists payload :: IsClosed(payload, s) && IsEncrypted(prims, pass, stored, payload)
  }

  /** The footer finds a name exactly when something is stored under it, and then it points at
      those bytes. */
  ghost predicate FindsStored(f: Footer, payload: seq<byte>, s: FileSystem, name: string) {
    && (Stored(s, name).Some? <==> name in f)
    && (name in f ==>
      && 0 <= f[name].start && 0 <= f[name].size && f[name].start + f[name].size <= |payload|
      && Stored(s, name) == Some(payload[f[name].start..f[name].start + f[name].size]))
  }

  /** Flushing the memory files of a reachable state leaves under each name what is stored there. */
  lemma Flushed(rs: seq<Request>, fs: seq<File>, name: string)
    requires ListsMem(fs, Run(rs).mem)
    ensures ContentOf(Run(rs).files + fs, name) == Stored(Run(rs), name)
  {
    AlwaysSeparated(rs);
    FlushStored(Run(rs).files, fs, Run(rs).mem);
  }

  lemma LayoutFinds(payload: seq<byte>, files: seq<File>, s: FileSystem, name: string)
    requires DistinctNames(files) && Body(files) <= payload
    requires ContentOf(files, name) == Stored(s, name)
    ensures FindsStored(Layout(files), payload, s, name)
  {
    ArchiveLocates(Body(files), payload, files, name);
  }

  lemma ArchiveHasBody(payload: seq<byte>, files: seq<File>)
    requires IsArchive(payload, files)
    ensures DistinctNames(files) && Body(files) <= payload
  {
  }

  /** A closed archive locates every name that the request machine holds, and no other. */
  lemma ClosedArchiveReads(payload: seq<byte>, rs: seq<Request>, fs: seq<File>, name: string)
    requires ListsMem(fs, Run(rs).mem) && IsArchive(payload, Run(rs).files + fs)
    ensures FindsStored(Layout(Run(rs).files + fs), payload, Run(rs), name)
  {
    Flushed(rs, fs, name);
    ArchiveHasBody(payload, Run(rs).files + fs);
    LayoutFinds(payload, Run(rs).files + fs, Run(rs), name);
  }

  /** The end-to-end law on stored bytes: decrypting what follows the preamble yields the archive,
      its last bytes decode to a footer, and the footer locates exactly what the requests stored. */
  lemma StoredBytesRestore(prims: Primitives, pass: seq<byte>, salt: seq<byte>, payload: seq<byte>,
                           rs: seq<Request>, name: string)
    requires |salt| == SALT_LENGTH && IsClosed(payload, Run(rs))
    ensures var stored := Sealed(prims, pass, salt, payload);
      && |stored| == BLOCK_SIZE + |payload|
      && Ctr(prims.StreamFor(pass, stored[|HEADER|..BLOCK_SIZE]), 0, stored[BLOCK_SIZE..]) == payload
    ensures PAD_SIZE <= |payload|
    ensures exists f ::
      && DecodeFooter(payload[|payload| - PAD_SIZE..|payload|]) == Some(f)
      && FindsStored(f, payload, Run(rs), name)
  {
    SealedOpens(prims, pass, salt, payload);
    var fs: seq<File> :| ListsMem(fs, Run(rs).mem) && IsArchive(payload, Run(rs).files + fs);
    ArchiveFooter(payload, Run(rs).files + fs);
    ClosedArchiveReads(payload, rs, fs, name);
  }

  /** The pipe itself, or an encrypting writer on it when there is a pass phrase. */
  method Destination(prims: Primitives, pipe: Pipe, pass: seq<byte>, salt: seq<byte>) returns (dest: Option<Sink>)
    requires pipe.data == []
    modifies pipe
    ensures pipe.broken && !old(pipe.broken) ==> pipe.mayFail
    ensures dest.None? ==> pass != [] && (pipe.broken || |salt| != SALT_LENGTH)
    ensures dest.Some? && pass == [] ==> dest.value == Clear(pipe) && pipe.data == [] && pipe.broken == old(pipe.broken)
    ensures dest.Some? && pass != [] ==>
      && dest.value.Encrypting? && fresh(dest.value.cw) && dest.value.cw.next == pipe && !pipe.broken
      && dest.value.cw.ks == prims.StreamFor(pass, salt) && dest.value.cw.preamble == HEADER + salt
      && dest.value.Valid() && dest.value.Taken() == [] && |salt| == SALT_LENGTH
  {
    if pass == [] {
      return Some(Clear(pipe));
    }
    var cw := NewWriter(prims, pipe, pass, salt);
    if cw.None? {
      return None;
    }
    return Some(Encrypting(cw.value));
  }

  /** Names are plain and of at most `maxName` characters, and there are few enough of them. */
  ghost predicate IsSmall(s: FileSystem, maxName: nat) {
    && (forall name :: Stored(s, name).Some? ==> IsPlain(name) && |name| <= maxName)
    && |Layout(s.files).Keys + s.mem.Keys| * (maxName + 53) + 3 <= PAD_SIZE
  }

  /** Backups with plain names fit: below the bound on their number the footer cannot overflow. */
  lemma SmallBackupsFit(rs: seq<Request>, maxName: nat)
    requires FitsOffsets(Run(rs)) && IsSmall(Run(rs), maxName)
    ensures !Overflows(Run(rs))
  {
    var s := Run(rs);
    AlwaysSeparated(rs);
    forall fs: seq<File> | ListsMem(fs, s.mem)
      ensures TextLength(Layout(s.files + fs)) <= PAD_SIZE
    {
      var all := s.files + fs;
      FlushStored(s.files, fs, s.mem);
      forall name | name in Layout(all)
        ensures IsPlain(name) && |name| <= maxName
        ensures 0 <= Layout(all)[name].start <= INT64_MAX && 0 <= Layout(all)[name].size <= INT64_MAX
      {
        ContentLocated(all, name);
      }
      assert |Layout(all)| == |Layout(all).Keys|;
      FooterFits(Layout(all), maxName);
    }
  }

  /** How making a backup ends: with an error that aborts the upload, or a run-time panic, or none. */
  datatype BackupEnd = Completed | Aborted | Panicked

  /** Makes one backup: serves the database's requests, closes the archive and then the cipher.
      `databaseOk` tells whether the database reports success. When nothing fails, and the pipe has not
      broken either, it has received a backup of what the requests stored. A broken pipe may be
      overlooked here, but not by the upload that reads from it. */
  method CreateBackup(prims: Primitives, pipe: Pipe, pass: seq<byte>, salt: seq<byte>, rs: seq<Request>, databaseOk: bool)
    returns (r: BackupEnd)
    requires pipe.data == []
    requires FitsOffsets(Run(rs))
    modifies pipe
    ensures pipe.broken && !old(pipe.broken) ==> pipe.mayFail
    ensures r.Completed? ==> databaseOk
    ensures r.Completed? && !pipe.broken ==> IsBackup(prims, pass, pipe.data, Run(rs))
    ensures r.Completed? && !pipe.broken ==>
      if pass == [] then IsClosed(pipe.data, Run(rs))
      else |pipe.data| >= 16 && pipe.data[8..16] == salt && IsClosedEncrypted(prims, pass, pipe.data, Run(rs))
    ensures r.Aborted? ==> !databaseOk || pipe.broken || (pass != [] && |salt| != SALT_LENGTH)
    ensures r.Panicked? ==> pipe.broken || Overflows(Run(rs))
  {
    var dest := Destination(prims, pipe, pass, salt);
    if dest.None? {
      return Aborted;
    }
    r := EngineCreateBackup(dest.value, rs, databaseOk);
    if r.Completed? {
      ghost var payload := dest.value.Taken();
      if dest.value.Encrypting? {
        var err := dest.value.cw.Close();
        r := if err then Aborted else Completed;
      }
      ghost var used := if pass == [] then seq(SALT_LENGTH, i => 0) else salt;
      assert !pipe.broken ==> pipe.data == StoredForm(prims, pass, used, payload);
      if pass != [] {
        SealedIsEncrypted(prims, pass, salt, payload);
      }
    }
  }

  lemma OverflowsWith(s: FileSystem, fs: seq<File>)
    requires ListsMem(fs, s.mem)
    requires TextLength(Layout(s.files + fs)) > PAD_SIZE
    ensures Overflows(s)
  {
  }

  lemma ClosedWith(payload: seq<byte>, taken: seq<byte>, s: FileSystem, fs: seq<File>)
    requires ListsMem(fs, s.mem) && taken[0..] == payload && IsArchive(payload, s.files + fs)
    ensures IsClosed(taken, s)
  {
    assert taken[0..] == taken;
  }

  /** The responses are those that the requests before each call for. */
  ghost predicate AreResponses(rs: seq<Request>, responses: seq<Response>) {
    |responses| <= |rs| && forall i :: 0 <= i < |responses| ==> responses[i] == ResponseTo(rs, i)
  }

  lemma OneMoreResponse(rs: seq<Request>, responses: seq<Response>, response: Response)
    requires |responses| < |rs| && AreResponses(rs, responses)
    requires response == Serve(Run(rs[..|responses|]), rs[|responses|]).1
    ensures AreResponses(rs, responses + [response])
  {
  }

  /** Serves the requests in turn. */
  method ServeAll(bw: BackupWriter, rs: seq<Request>) returns (responses: seq<Response>)
    requires bw.Valid() && bw.State() == EMPTY
    modifies bw.Repr()
    ensures bw.Valid() && (old(bw.aw.next.Broken()) ==> bw.aw.next.Broken())
    ensures bw.aw.next.Broken() && !old(bw.aw.next.Broken()) ==> bw.aw.next.MayFail()
    ensures |responses| == |rs|
    ensures !bw.aw.next.Broken() ==> bw.State() == Run(rs) && AreResponses(rs, responses)
  {
    responses := [];
    for i := 0 to |rs|
      invariant bw.Valid() && (old(bw.aw.next.Broken()) ==> bw.aw.next.Broken())
      invariant bw.aw.next.Broken() && !old(bw.aw.next.Broken()) ==> bw.aw.next.MayFail()
      invariant |responses| == i
      invariant !bw.aw.next.Broken() ==> bw.State() == Run(rs[..i]) && AreResponses(rs, responses)
    {
      var response := ServeNext(bw, rs, i);
      if !bw.aw.next.Broken() {
        OneMoreResponse(rs, responses, response);
      }
      responses := responses + [response];
    }
    TakeAll(rs);
  }

  method ServeNext(bw: BackupWriter, rs: seq<Request>, i: nat) returns (response: Response)
    requires bw.Valid() && i < |rs|
    requires !bw.aw.next.Broken() ==> bw.State() == Run(rs[..i])
    modifies bw.Repr()
    ensures bw.Valid() && (old(bw.aw.next.Broken()) ==> bw.aw.next.Broken())
    ensures bw.aw.next.Broken() && !old(bw.aw.next.Broken()) ==> bw.aw.next.MayFail()
    ensures !bw.aw.next.Broken() ==> bw.State() == Run(rs[..i + 1]) && response == Serve(Run(rs[..i]), rs[i]).1
  {
    RunNext(rs, i);
    response := bw.ServeHTTP(rs[i]);
  }

  /** Closes the archive at the end of a backup. A failed write is only logged. */
  method CloseBackup(bw: BackupWriter, ghost s: FileSystem) returns (panicked: bool)
    requires bw.Valid() && bw.aw.base == [] && FitsOffsets(s)
    requires !bw.aw.next.Broken() ==> bw.State() == s
    modifies bw.Repr()
    ensures bw.aw.next.Valid() && (old(bw.aw.next.Broken()) ==> bw.aw.next.Broken())
    ensures bw.aw.next.Broken() && !old(bw.aw.next.Broken()) ==> bw.aw.next.MayFail()
    ensures panicked ==> bw.aw.next.Broken() || Overflows(s)
    ensures !panicked && !bw.aw.next.Broken() ==> IsClosed(bw.aw.next.Taken(), s)
  {
    var r, fs := bw.Close();
    panicked := r.Panicked?;
    if r.Finished? {
      ClosedWith(bw.aw.next.Taken()[0..], bw.aw.next.Taken(), s, fs);
    } else if panicked && !bw.aw.next.Broken() {
      OverflowsWith(s, fs);
    }
  }

  /** Serves the requests in turn and closes the archive, also when the database fails. */
  method EngineCreateBackup(dest: Sink, rs: seq<Request>, databaseOk: bool) returns (r: BackupEnd)
    requires dest.Valid() && dest.Taken() == []
    requires FitsOffsets(Run(rs))
    modifies dest.Repr()
    ensures dest.Valid() && (old(dest.Broken()) ==> dest.Broken())
    ensures dest.Broken() && !old(dest.Broken()) ==> dest.MayFail()
    ensures r.Completed? ==> databaseOk
    ensures r.Completed? && !dest.Broken() ==> IsClosed(dest.Taken(), Run(rs))
    ensures r.Aborted? ==> !databaseOk
    ensures r.Panicked? ==> dest.Broken() || Overflows(Run(rs))
  {
    var aw := new ArchiveWriter(dest);
    var bw := new BackupWriter(aw);
    var responses := ServeAll(bw, rs);
    var panicked := CloseBackup(bw, Run(rs));
    r := if panicked then BackupEnd.Panicked else if databaseOk then Completed else Aborted;
  }

  /** Opens a stored backup with its pass phrase. */
  method OpenBackup(prims: Primitives, stored: StoredObject, pass: seq<byte>, ghost s: FileSystem)
    returns (src: Option<Source>)
    requires IsBackup(prims, pass, stored.content, s)
    ensures src.None? ==> stored.mayFail
    ensures src.Some? ==> src.value.MayFail() == stored.mayFail
    ensures src.Some? ==> src.value.Valid() && IsClosed(src.value.View(), s)
  {
    ghost var salt, payload :| |salt| == SALT_LENGTH && IsClosed(payload, s)
      && stored.content == StoredForm(prims, pass, salt, payload);
    if pass == [] {
      return Some(Plain(stored));
    }
    SealedOpens(prims, pass, salt, payload);
    var opening := NewReaderAt(prims, stored, pass);
    if !opening.Opened? {
      return None;
    }
    src := Some(Decrypted(opening.reader));
    assert src.value.View() == payload;
  }

  /** Restores one file of a stored backup. */
  method RestoreFile(prims: Primitives, stored: StoredObject, pass: seq<byte>, name: string, ghost rs: seq<Request>)
    returns (r: FileRead)
    requires IsBackup(prims, pass, stored.content, Run(rs))
    ensures r.Content? ==> Stored(Run(rs), name) == Some(r.data)
    ensures r.NotExist? ==> Stored(Run(rs), name) == None
    ensures r.Unreadable? ==> stored.mayFail
  {
    var src := OpenBackup(prims, stored, pass, Run(rs));
    if src.None? {
      return Unreadable;
    }
    ghost var s := Run(rs);
    ghost var fs: seq<File> :| ListsMem(fs, s.mem) && IsArchive(src.value.View(), s.files + fs);
    AlwaysSeparated(rs);
    FlushStored(s.files, fs, s.mem);
    r := ReadFile(src.value, name, s.files + fs);
  }

  /** Unpacks a whole stored backup. */
  method UnpackBackup(prims: Primitives, stored: StoredObject, pass: seq<byte>, ghost rs: seq<Request>)
    returns (out: Option<map<string, seq<byte>>>)
    requires IsBackup(prims, pass, stored.content, Run(rs))
    ensures out.None? ==> stored.mayFail
    ensures out.Some? ==> forall name :: Unpacked(out.value, name) == Stored(Run(rs), name)
  {
    var src := OpenBackup(prims, stored, pass, Run(rs));
    if src.None? {
      return None;
    }
    ghost var s := Run(rs);
    ghost var fs: seq<File> :| ListsMem(fs, s.mem) && IsArchive(src.value.View(), s.files + fs);
    AlwaysSeparated(rs);
    FlushStored(s.files, fs, s.mem);
    out := Unpack(src.value, s.files + fs);
  }

  /** The whole way: a backup gives back, under every name, exactly what the requests left there.
      Only failing storage, a failing database or random source, or a footer that does not fit, can
      prevent that. */
  method BackupAndRestore(prims: Primitives, pass: seq<byte>, salt: seq<byte>, rs: seq<Request>, databaseOk: bool,
                          name: string, mayFail: bool)
    returns (r: FileRead)
    requires FitsOffsets(Run(rs))
    ensures r.Content? ==> Stored(Run(rs), name) == Some(r.data)
    ensures r.NotExist? ==> Stored(Run(rs), name) == None
    ensures r.Unreadable? ==> mayFail || !databaseOk || Overflows(Run(rs)) || (pass != [] && |salt| != SALT_LENGTH)
  {
    var pipe := new Pipe(mayFail);
    var end := CreateBackup(prims, pipe, pass, salt, rs, databaseOk);
    if !end.Completed? || pipe.broken {
      return Unreadable;
    }
    var stored := new StoredObject(pipe.data, mayFail);
    r := RestoreFile(prims, stored, pass, name, rs);
  }
}
