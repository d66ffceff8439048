/** The HTTP file system that the database writes its backup to, as a state machine over requests:
    data files go straight into the archive, meta files live in memory until the backup is closed. */
module BackupRequests {
  import opened ArchiveFormat
  import opened Bytes
  import opened Common
  import opened FooterText

  datatype Method = Put | Get | Delete | OtherMethod

  datatype ContentLength = Absent | Invalid | Length(n: int)

  /** `body` is what can be read of the request body; reading it may then fail. */
  datatype Request = Request(
    method_: Method, path: string, contentLength: ContentLength, body: seq<byte>, bodyFails: bool
  )

  datatype Response = Response(status: nat, body: seq<byte>)

  /** The files in the archive in creation order, and the files held in memory. */
  datatype FileSystem = FileSystem(files: seq<File>, mem: map<string, seq<byte>>)

  const EMPTY := FileSystem([], map[])

  const URL_PREFIX := "/crdb-backup/"

  function FileName(r: Request): string {
    if URL_PREFIX <= r.path then r.path[|URL_PREFIX|..] else r.path
  }

  predicate IsData(name: string) {
    |name| >= 4 && name[|name| - 4..] == ".sst"
  }

  predicate IsMeta(name: string) {
    !IsData(name) && ("BACKUP" <= name || "progress/BACKUP" <= name)
  }

  /** A declared length that is positive and differs from what was read. */
  predicate WrongLength(r: Request) {
    r.contentLength.Length? && r.contentLength.n > 0 && |r.body| != r.contentLength.n
  }

  function Reply(status: nat): Response {
    Response(status, [])
  }

  function Serve(s: FileSystem, r: Request): (FileSystem, Response) {
    var name := FileName(r);
    if r.contentLength.Invalid? then (s, Reply(400))
    else if IsData(name) then ServeData(s, name, r)
    else if IsMeta(name) then ServeMeta(s, name, r)
    else (s, Reply(400))
  }

  /** A data file can be put once; whatever of its body was read stays in the archive. */
  function ServeData(s: FileSystem, name: string, r: Request): (FileSystem, Response) {
    if !r.method_.Put? then (s, Reply(405))
    else if name in Layout(s.files) then (s, Reply(500))
    else
      (s.(files := s.files + [(name, r.body)]), Reply(if r.bodyFails || WrongLength(r) then 500 else 201))
  }

  /** A meta file can be put again, read back and deleted. */
  function ServeMeta(s: FileSystem, name: string, r: Request): (FileSystem, Response) {
    match r.method_
    case Delete => (s.(mem := s.mem - {name}), Reply(204))
    case Get => (s, if name in s.mem then Response(200, s.mem[name]) else Reply(404))
    case Put =>
      (s.(mem := s.mem[name := r.body]),
       Reply(if r.bodyFails then 400 else if WrongLength(r) then 500 else 201))
    case OtherMethod => (s, Reply(405))
  }

  /** The state after a sequence of requests. */
  function Run(rs: seq<Request>): FileSystem {
    if rs == [] then EMPTY else Serve(Run(Init(rs)), Last(rs)).0
  }

  lemma RunNext(rs: seq<Request>, i: nat)
    requires i < |rs|
    ensures Run(rs[..i + 1]) == Serve(Run(rs[..i]), rs[i]).0
  {
    assert Init(rs[..i + 1]) == rs[..i] && Last(rs[..i + 1]) == rs[i];
  }

  /** The response to request `i` of a sequence. */
  function ResponseTo(rs: seq<Request>, i: nat): Response
    requires i < |rs|
  {
    Serve(Run(rs[..i]), rs[i]).1
  }

  // ----- Closing -----

  /** `fs` lists the files held in memory, each once, in some order. */
  predicate ListsMem(fs: seq<File>, mem: map<string, seq<byte>>) {
    if fs == [] then mem == map[]
    else
      && Last(fs).0 in mem && mem[Last(fs).0] == Last(fs).1
      && ListsMem(Init(fs), mem - {Last(fs).0})
  }

  /** What the closed archive holds under a name: memory is written behind the data files. */
  function Stored(s: FileSystem, name: string): Option<seq<byte>> {
    if name in s.mem then Some(s.mem[name]) else ContentOf(s.files, name)
  }

  // ----- The two kinds of names never meet -----

  ghost predicate Separated(s: FileSystem) {
    && DistinctNames(s.files)
    && (forall name :: name in Layout(s.files) ==> IsData(name))
    && (forall name :: name in s.mem ==> IsMeta(name))
  }

  lemma AddedLayout(files: seq<File>, f: File)
    requires DistinctNames(files) && f.0 !in Layout(files)
    ensures DistinctNames(files + [f])
    ensures Layout(files + [f]).Keys == Layout(files).Keys + {f.0}
    ensures forall name :: ContentOf(files + [f], name) == if name == f.0 then Some(f.1) else ContentOf(files, name)
  {
    assert Init(files + [f]) == files && Last(files + [f]) == f;
  }

  lemma ServeDataSeparated(s: FileSystem, name: string, r: Request)
    requires Separated(s) && IsData(name)
    ensures Separated(ServeData(s, name, r).0)
  {
    if name !in Layout(s.files) {
      AddedLayout(s.files, (name, r.body));
    }
  }

  lemma ServeMetaSeparated(s: FileSystem, name: string, r: Request)
    requires IsMeta(name)
    ensures Separated(s) ==> Separated(ServeMeta(s, name, r).0)
  {
  }

  /** In every reachable state the archive holds data files only and memory holds meta files only. */
  lemma {:induction false} AlwaysSeparated(rs: seq<Request>)
    ensures Separated(Run(rs))
  {
    if rs != [] {
      var s, r := Run(Init(rs)), Last(rs);
      AlwaysSeparated(Init(rs));
      if IsData(FileName(r)) {
        ServeDataSeparated(s, FileName(r), r);
      } else if IsMeta(FileName(r)) {
        ServeMetaSeparated(s, FileName(r), r);
      }
    }
  }

  /** The kinds exclude each other, and neither includes the empty name, which the archive writer
      uses to say that no file is open. */
  lemma KindsOfNames(name: string)
    ensures !(IsData(name) && IsMeta(name))
    ensures IsData(name) || IsMeta(name) ==> name != ""
  {
  }

  /** Writing the memory files behind the data files never meets a name that is taken, and the
      closed archive holds exactly what `Stored` says. */
  lemma {:induction false} FlushStored(files: seq<File>, fs: seq<File>, mem: map<string, seq<byte>>)
    requires Separated(FileSystem(files, mem)) && ListsMem(fs, mem)
    ensures DistinctNames(files + fs)
    ensures Layout(files + fs).Keys == Layout(files).Keys + mem.Keys
    ensures forall name :: ContentOf(files + fs, name) == Stored(FileSystem(files, mem), name)
  {
    if fs == [] {
      assert files + fs == files;
    } else {
      var f, before := Last(fs), files + Init(fs);
      FlushStored(files, Init(fs), mem - {f.0});
      AppendLast(files, fs);
      FlushStep(files, before, f, mem);
    }
  }

  lemma FlushStep(files: seq<File>, before: seq<File>, f: File, mem: map<string, seq<byte>>)
    requires f.0 in mem && mem[f.0] == f.1 && f.0 !in Layout(files)
    requires DistinctNames(before)
    requires Layout(before).Keys == Layout(files).Keys + (mem - {f.0}).Keys
    requires forall name :: ContentOf(before, name) == Stored(FileSystem(files, mem - {f.0}), name)
    ensures DistinctNames(before + [f])
    ensures Layout(before + [f]).Keys == Layout(files).Keys + mem.Keys
    ensures forall name :: ContentOf(before + [f], name) == Stored(FileSystem(files, mem), name)
  {
    AddedLayout(before, f);
  }

  // ----- What a closed backup holds -----

  /** The request changes the file of that name if it is accepted. */
  predicate Mutates(r: Request, name: string) {
    && FileName(r) == name
    && ((IsData(name) && r.method_.Put?) || (IsMeta(name) && (r.method_.Put? || r.method_.Delete?)))
  }

  predicate Accepted(response: Response) {
    response.status == 201 || response.status == 204
  }

  /** Requests that do not mutate a name leave what is stored under it alone, and so does a put of
      a data file that exists already. */
  lemma OthersKeepStored(s: FileSystem, r: Request, name: string)
    requires Separated(s)
    requires !Mutates(r, name) || (IsData(name) && name in Layout(s.files))
    ensures Stored(Serve(s, r).0, name) == Stored(s, name)
    ensures IsData(name) ==> (name in Layout(Serve(s, r).0.files) <==> name in Layout(s.files))
  {
    var other := FileName(r);
    if r.contentLength.Invalid? {
    } else if IsData(other) {
      if r.method_.Put? && other !in Layout(s.files) {
        AddedLayout(s.files, (other, r.body));
      }
    } else if IsMeta(other) {
      MetaKeepsStored(s, other, r, name);
    }
  }

  lemma MetaKeepsStored(s: FileSystem, other: string, r: Request, name: string)
    requires other != name || r.method_.Get? || r.method_.OtherMethod?
    ensures Stored(ServeMeta(s, other, r).0, name) == Stored(s, name)
    ensures ServeMeta(s, other, r).0.files == s.files
  {
  }

  /** An accepted mutating request takes effect at once. */
  lemma AcceptedTakesEffect(s: FileSystem, r: Request, name: string)
    requires Separated(s) && Mutates(r, name) && Accepted(Serve(s, r).1)
    ensures Stored(Serve(s, r).0, name) == if r.method_.Put? then Some(r.body) else None
    ensures !r.bodyFails || r.method_.Delete?
    ensures IsData(name) ==> name in Layout(Serve(s, r).0.files)
  {
    if IsData(name) {
      AddedLayout(s.files, (name, r.body));
    } else {
      NoMetaInArchive(s, name);
    }
  }

  lemma NoMetaInArchive(s: FileSystem, name: string)
    requires Separated(s) && IsMeta(name)
    ensures ContentOf(s.files, name) == None
  {
    ContentLocated(s.files, name);
  }

  /** If the last request that mutates a name was accepted, the backup holds that request's body
      under the name, or no such file when it was a delete. */
  lemma {:induction false} LastAcceptedIsStored(rs: seq<Request>, i: nat, name: string)
    requires i < |rs| && Mutates(rs[i], name) && Accepted(ResponseTo(rs, i))
    requires forall j :: i < j < |rs| ==> !Mutates(rs[j], name)
    ensures Stored(Run(rs), name) == if rs[i].method_.Put? then Some(rs[i].body) else None
  {
    AlwaysSeparated(Init(rs));
    if i == |rs| - 1 {
      assert rs[..i] == Init(rs);
      AcceptedTakesEffect(Run(Init(rs)), rs[i], name);
    } else {
      assert rs[..i] == Init(rs)[..i];
      LastAcceptedIsStored(Init(rs), i, name);
      OthersKeepStored(Run(Init(rs)), Last(rs), name);
    }
  }

  /** A data file keeps the body of the first put that reached the archive, whatever follows: later
      puts of the name are refused. */
  lemma {:induction false} FirstDataPutStays(rs: seq<Request>, i: nat, name: string)
    requires i < |rs| && IsData(name) && Mutates(rs[i], name) && !rs[i].contentLength.Invalid?
    requires forall j :: 0 <= j < i ==> !Mutates(rs[j], name) || rs[j].contentLength.Invalid?
    ensures Stored(Run(rs), name) == Some(rs[i].body)
    ensures name in Layout(Run(rs).files)
  {
    var s := Run(Init(rs));
    AlwaysSeparated(Init(rs));
    if i == |rs| - 1 {
      AbsentBefore(Init(rs), name);
      AddedLayout(s.files, (name, rs[i].body));
    } else {
      FirstDataPutStays(Init(rs), i, name);
      OthersKeepStored(s, Last(rs), name);
    }
  }

  lemma LaterDataPutRefused(rs: seq<Request>, i: nat, j: nat, name: string)
    requires i < j < |rs| && IsData(name) && Mutates(rs[i], name) && !rs[i].contentLength.Invalid?
    requires Mutates(rs[j], name)
    ensures !Accepted(ResponseTo(rs, j))
  {
    PutReachesArchive(rs[..j], i, name);
  }

  lemma {:induction false} PutReachesArchive(rs: seq<Request>, i: nat, name: string)
    requires i < |rs| && IsData(name) && Mutates(rs[i], name) && !rs[i].contentLength.Invalid?
    ensures name in Layout(Run(rs).files)
  {
    var s := Run(Init(rs));
    AlwaysSeparated(Init(rs));
    if i == |rs| - 1 {
      if name !in Layout(s.files) {
        AddedLayout(s.files, (name, rs[i].body));
      }
    } else {
      PutReachesArchive(Init(rs), i, name);
      OthersKeepStored(s, Last(rs), name);
    }
  }

  /** A data file that no put has reached is not in the archive. */
  lemma {:induction false} AbsentBefore(rs: seq<Request>, name: string)
    requires IsData(name)
    requires forall j :: 0 <= j < |rs| ==> !Mutates(rs[j], name) || rs[j].contentLength.Invalid?
    ensures name !in Layout(Run(rs).files) && Stored(Run(rs), name) == None
  {
    AlwaysSeparated(rs);
    ContentLocated(Run(rs).files, name);
    if rs != [] {
      AbsentBefore(Init(rs), name);
      AlwaysSeparated(Init(rs));
      if !Last(rs).contentLength.Invalid? {
        OthersKeepStored(Run(Init(rs)), Last(rs), name);
      }
    }
  }

  // ----- Which requests are served how -----

  /** Names by their ending and beginning. */
  lemma KindByEnds(name: string)
    ensures IsData(name) <==> exists stem :: name == stem + ".sst"
    ensures IsMeta(name) <==>
      (!IsData(name) && exists rest :: name == "BACKUP" + rest || name == "progress/BACKUP" + rest)
  {
    if |name| >= 4 {
      assert name == name[..|name| - 4] + name[|name| - 4..];
    }
    if IsData(name) {
      assert name == name[..|name| - 4] + ".sst";
    }
    if "BACKUP" <= name {
      assert name == "BACKUP" + name[6..];
    }
    if "progress/BACKUP" <= name {
      assert name == "progress/BACKUP" + name[15..];
    }
  }

  /** The name is the path behind the prefix; other paths are names themselves. */
  lemma NameBehindPrefix(r: Request, name: string)
    ensures r.path == "/crdb-backup/" + name ==> FileName(r) == name
    ensures !("/crdb-backup/" <= r.path) ==> FileName(r) == r.path
  {
  }

  /** A body that could be read to the end, of the declared length if one was declared. */
  predicate IsSound(r: Request) {
    !r.bodyFails && (r.contentLength.Length? && r.contentLength.n > 0 ==> |r.body| == r.contentLength.n)
  }

  /** The request reaches the file of that name: it mutates it, and its length can be read. */
  predicate Reaches(r: Request, name: string) {
    Mutates(r, name) && !r.contentLength.Invalid?
  }

  /** What memory holds under a meta name is decided by the last request that reached it, whatever was
      answered: the body of a put, as far as it could be read, and nothing after a delete. */
  function LastBody(rs: seq<Request>, name: string): Option<seq<byte>> {
    if rs == [] then None
    else if !Reaches(Last(rs), name) then LastBody(Init(rs), name)
    else if Last(rs).method_.Put? then Some(Last(rs).body)
    else None
  }

  lemma {:induction false} MemIsLastBody(rs: seq<Request>, name: string)
    requires IsMeta(name)
    ensures LastBody(rs, name) == if name in Run(rs).mem then Some(Run(rs).mem[name]) else None
  {
    if rs != [] {
      MemIsLastBody(Init(rs), name);
    }
  }

  /** The answer to every request, from the requests before it alone. */
  lemma ResponseFromHistory(rs: seq<Request>, i: nat)
    requires i < |rs|
    ensures var r, name := rs[i], FileName(rs[i]);
      var reached := exists j :: 0 <= j < i && Reaches(rs[j], name);
      ResponseTo(rs, i) ==
        if r.contentLength.Invalid? then Response(400, [])
        else if IsData(name) then
          Response(if !r.method_.Put? then 405 else if reached || !IsSound(r) then 500 else 201, [])
        else if IsMeta(name) then
          match r.method_
          case Get =>
            var body := LastBody(rs[..i], name);
            if body.Some? then Response(200, body.value) else Response(404, [])
          case Put => Response(if r.bodyFails then 400 else if !IsSound(r) then 500 else 201, [])
          case Delete => Response(204, [])
          case OtherMethod => Response(405, [])
        else Response(400, [])
  {
    var name, before := FileName(rs[i]), rs[..i];
    if IsMeta(name) {
      MemIsLastBody(before, name);
    } else if IsData(name) {
      if j :| 0 <= j < i && Reaches(rs[j], name) {
        assert before[j] == rs[j];
        PutReachesArchive(before, j, name);
      } else {
        assert forall j :: 0 <= j < i ==> before[j] == rs[j];
        AbsentBefore(before, name);
      }
    }
  }

  /** Reading back: a get of a meta file answers with the body of the last put that reached it, and
      404 when there was none or it was deleted since. */
  lemma {:induction false} ReadBack(rs: seq<Request>, i: nat, j: nat, name: string)
    requires j < i < |rs| && IsMeta(name) && FileName(rs[i]) == name
    requires rs[i].method_.Get? && !rs[i].contentLength.Invalid?
    requires Reaches(rs[j], name) && forall k :: j < k < i ==> !Reaches(rs[k], name)
    ensures ResponseTo(rs, i) == if rs[j].method_.Put? then Response(200, rs[j].body) else Response(404, [])
  {
    ResponseFromHistory(rs, i);
    LastReached(rs[..i], j, name);
  }

  lemma {:induction false} LastReached(rs: seq<Request>, j: nat, name: string)
    requires j < |rs| && Reaches(rs[j], name) && forall k :: j < k < |rs| ==> !Reaches(rs[k], name)
    ensures LastBody(rs, name) == if rs[j].method_.Put? then Some(rs[j].body) else None
  {
    if j != |rs| - 1 {
      LastReached(Init(rs), j, name);
    }
  }

  lemma ReadNothing(rs: seq<Request>, i: nat, name: string)
    requires i < |rs| && IsMeta(name) && FileName(rs[i]) == name
    requires rs[i].method_.Get? && !rs[i].contentLength.Invalid?
    requires forall k :: 0 <= k < i ==> !Reaches(rs[k], name)
    ensures ResponseTo(rs, i) == Response(404, [])
  {
    ResponseFromHistory(rs, i);
    NeverReached(rs[..i], name);
  }

  lemma {:induction false} NeverReached(rs: seq<Request>, name: string)
    requires forall k :: 0 <= k < |rs| ==> !Reaches(rs[k], name)
    ensures LastBody(rs, name) == None
  {
    if rs != [] {
      NeverReached(Init(rs), name);
    }
  }

  /** Exactly which mutating requests are accepted: deletes of meta files, and puts with a sound body,
      of a data file only the first that reaches it. */
  lemma AcceptedExactly(rs: seq<Request>, i: nat, name: string)
    requires i < |rs| && Mutates(rs[i], name)
    ensures Accepted(ResponseTo(rs, i)) <==>
      && Reaches(rs[i], name)
      && (rs[i].method_.Put? ==> IsSound(rs[i]))
      && (IsData(name) ==> forall j :: 0 <= j < i ==> !Reaches(rs[j], name))
  {
    ResponseFromHistory(rs, i);
    KindsOfNames(name);
  }
}
