/** The storage in operation: any sequence of uploads, cleanups, crashes with restarts and outside
    deletions, and cleanups that are repeated until one succeeds. */
module Operation {
  import opened Bytes
  import opened Common
  import opened Labels
  import opened RetentionStore
  import opened Storage
  import opened StorageProtocol

  datatype Call =
    | Upload(name: string, data: seq<byte>)
    | Cleanup
    | Restart
    | Outside(name: string)   // somebody else deletes an object

  /** Without a loaded storage uploads and cleanups are skipped. */
  datatype CallResult = Done | Failed | Skipped

  /** Nobody else deletes anything, and all backups have names. */
  ghost predicate AreOrdinary(calls: seq<Call>) {
    forall c :: c in calls ==> !c.Outside? && (c.Upload? ==> c.name != "")
  }

  /** For every instant the point-in-time search has one answer. */
  ghost predicate HasOneAnswer(tf: TimeFormat, es: Entries) {
    forall pit, r1, r2 :: Answers(tf, es, pit, r1) && Answers(tf, es, pit, r2) ==> r1 == r2
  }

  // ----- What each call does to the bucket and the labels in memory -----

  /** An upload that is done has put its object and saved the labels. Without failing calls it can
      only be refused labels, and then it has put its object. */
  ghost predicate UploadDid(mayFail: bool, name: string, data: seq<byte>, result: CallResult, w: World, w': World) {
    && w.memory.Some? && w'.memory.Some? && !result.Skipped?
    && (result.Done? ==> w'.objects == w.objects[name := data] && w'.stored == w'.memory)
    && (result.Failed? && !mayFail ==> w'.objects == w.objects[name := data] && w'.stored == w.stored && w'.memory == w.memory)
  }

  /** A cleanup takes the steps of one cleanup, all of them when it is done. */
  ghost predicate CleanupDid(tf: TimeFormat, cfg: RetentionConfig, mayFail: bool, result: CallResult, before: Run, after: Run)
    requires before.worlds != [] && |before.steps| < |after.worlds| && |before.steps| <= |after.steps|
  {
    && Last(before.worlds).memory.Some? && !result.Skipped?
    && IsCleanup(tf, cfg, after.Since(|before.steps|), Last(before.worlds).memory.value)
    && (result.Done? ==> IsCompleteCleanup(tf, cfg, after.Since(|before.steps|), Last(before.worlds).memory.value))
    && (result.Failed? ==> mayFail)
  }

  /** A restart loses the labels in memory, and when it is done they are loaded again. */
  ghost predicate RestartDid(mayFail: bool, result: CallResult, before: Run, after: Run)
    requires before.worlds != [] && after.worlds != []
  {
    var w, w' := Last(before.worlds), Last(after.worlds);
    if result.Done? then
      after.steps == before.steps + [Crash, Load] && w' == w.(memory := Some(Loaded(w.stored)))
    else
      result.Failed? && mayFail && after.steps == before.steps + [Crash] && w' == w.(memory := None)
  }

  /** One call led from one run to the other. */
  ghost predicate Performed(tf: TimeFormat, cfg: RetentionConfig, mayFail: bool, call: Call, result: CallResult,
                            before: Run, after: Run)
  {
    && before.worlds != [] && |before.steps| < |before.worlds|
    && before.worlds <= after.worlds && before.steps <= after.steps
    && if result.Skipped? then
         (call.Upload? || call.Cleanup?) && Last(before.worlds).memory.None? && after == before
       else match call
         case Upload(name, data) =>
           UploadDid(mayFail, name, data, result, Last(before.worlds), Last(after.worlds))
         case Cleanup =>
           CleanupDid(tf, cfg, mayFail, result, before, after)
         case Restart =>
           RestartDid(mayFail, result, before, after)
         case Outside(name) =>
           var w := Last(before.worlds);
           result.Done? && after == before.Then(Vanish(name), w.(objects := w.objects - {name}))
  }

  /** One call. */
  method Perform(bucket: Bucket, storage: Option<Storage>, call: Call, tf: TimeFormat, cfg: RetentionConfig)
    returns (next: Option<Storage>, result: CallResult)
    requires bucket.Valid() && tf == bucket.tf && cfg == bucket.cfg
    requires storage.Some? ==> storage.value.Valid() && storage.value.bucket == bucket
    requires storage.None? ==> bucket.memory.None?
    modifies bucket
    modifies if storage.Some? then {storage.value.labels.store} else {}
    ensures bucket.Valid()
    ensures next.Some? ==> next.value.Valid() && next.value.bucket == bucket
    ensures next.None? ==> bucket.memory.None?
    ensures next.Some? && next != storage ==> fresh(next.value.labels.store)
    ensures old(bucket.named) && (call.Upload? ==> call.name != "") ==> bucket.named
    ensures forall name :: Vanish(name) in bucket.run.steps ==> Vanish(name) in old(bucket.run.steps) || call == Outside(name)
    ensures Performed(tf, cfg, bucket.mayFail, call, result, old(bucket.run), bucket.run)
  {
    next, result := storage, Skipped;
    match call
    case Upload(name, data) =>
      if storage.Some? {
        result := PerformUpload(storage.value, name, data);
      }
    case Cleanup =>
      if storage.Some? {
        var ok := storage.value.CleanupBackups();
        result := if ok then Done else Failed;
      }
    case Restart =>
      next, result := PerformRestart(bucket, tf, cfg);
    case Outside(name) =>
      ghost var steps := bucket.run.steps;
      bucket.Lose(name);
      if storage.Some? {
        storage.value.Later(bucket.clock, steps);
      }
      result := Done;
  }

  method PerformUpload(storage: Storage, name: string, data: seq<byte>) returns (result: CallResult)
    requires storage.Valid()
    modifies storage.bucket, storage.labels.store
    ensures storage.Valid() && Extends(old(storage.bucket.run), storage.bucket.run)
    ensures storage.bucket.named == (old(storage.bucket.named) && name != "")
    ensures UploadDid(storage.bucket.mayFail, name, data, result, old(storage.bucket.Here()), storage.bucket.Here())
  {
    ghost var added;
    var r;
    r, added := storage.UploadFromReader(name, data);
    result := if r.Uploaded? then Done else Failed;
  }

  method PerformRestart(bucket: Bucket, tf: TimeFormat, cfg: RetentionConfig)
    returns (next: Option<Storage>, result: CallResult)
    requires bucket.Valid() && tf == bucket.tf && cfg == bucket.cfg
    modifies bucket`memory, bucket`run
    ensures bucket.Valid() && Extends(old(bucket.run), bucket.run)
    ensures next.Some? ==>
      next.value.Valid() && next.value.bucket == bucket && fresh(next.value) && fresh(next.value.labels.store)
    ensures next.None? ==> bucket.memory.None?
    ensures RestartDid(bucket.mayFail, result, old(bucket.run), bucket.run)
  {
    ghost var before := bucket.run;
    bucket.Die();
    ExtendsThen(before, before, Crash, bucket.Here());
    ghost var w := bucket.Here();
    next := NewStorage(bucket, tf, cfg);
    ExtendsThen(before, before.Then(Crash, w), Load, bucket.Here());
    ThenTwice(before, Crash, w, Load, bucket.Here());
    result := if next.Some? then Done else Failed;
  }

  /** Whatever is done to a bucket, in whatever order, with calls failing and processes crashing at
      any point. The runs after each call tell what it did. Unless somebody else deleted its object,
      a backup was in the bucket at every moment at which the label file listed it with a live label,
      and a label that the file ever listed and that is live in the end is still listed, with the
      object there. When nobody else deletes, all backups have names and all formats are well
      behaved, the point-in-time search has one answer in the end. */
  method Operate(objects: map<string, seq<byte>>, clock: Time, mayFail: bool, tf: TimeFormat, cfg: RetentionConfig,
                 calls: seq<Call>)
    returns (bucket: Bucket, storage: Option<Storage>, results: seq<CallResult>, ghost runs: seq<Run>)
    ensures bucket.Valid() && bucket.tf == tf && bucket.cfg == cfg
    ensures storage.Some? ==> storage.value.Valid() && storage.value.bucket == bucket
    ensures |results| == |calls| && |runs| == |calls| + 1
    ensures runs[0] == Run([World(objects, None, None, clock)], []) && Last(runs) == bucket.run
    ensures forall i :: 0 <= i < |calls| ==> Performed(tf, cfg, mayFail, calls[i], results[i], runs[i], runs[i + 1])
    ensures forall name, i: nat {:trigger Safe(tf, cfg, bucket.run.worlds[i], name)} ::
      Outside(name) !in calls && i < |bucket.run.worlds| ==> Safe(tf, cfg, bucket.run.worlds[i], name)
    ensures forall name, i: nat, l {:trigger Lists(bucket.run.worlds[i].stored, name, l)} ::
      Outside(name) !in calls && i < |bucket.run.worlds| ==>
      (Lists(bucket.run.worlds[i].stored, name, l) && Live(tf, cfg, l, bucket.clock) ==>
        Lists(bucket.labelFile, name, l) && name in bucket.objects)
    ensures storage.Some? && AreRegular(tf, cfg) && AreOrdinary(calls) ==>
      HasOneAnswer(tf, storage.value.labels.store.Entries)
  {
    bucket := new Bucket(objects, clock, mayFail, tf, cfg);
    storage, results, runs := None, [], [bucket.run];
    for i := 0 to |calls|
      invariant fresh(bucket) && bucket.Valid() && bucket.tf == tf && bucket.cfg == cfg && bucket.mayFail == mayFail
      invariant storage.Some? ==> storage.value.Valid() && storage.value.bucket == bucket && fresh(storage.value.labels.store)
      invariant storage.None? ==> bucket.memory.None?
      invariant IsRecord(tf, cfg, mayFail, calls[..i], results, runs)
      invariant runs[0] == Run([World(objects, None, None, clock)], []) && Last(runs) == bucket.run
      invariant forall name :: Vanish(name) in bucket.run.steps ==> Outside(name) in calls[..i]
      invariant (forall c :: c in calls[..i] && c.Upload? ==> c.name != "") ==> bucket.named
    {
      TakeNext(calls, i);
      var result;
      storage, result := Perform(bucket, storage, calls[i], tf, cfg);
      RecordNext(tf, cfg, mayFail, calls[..i], results, runs, calls[i], result, bucket.run);
      results, runs := results + [result], runs + [bucket.run];
    }
    TakeAll(calls);
    SafeThroughout(bucket, calls);
    PromisesKept(bucket, calls);
    if storage.Some? && AreRegular(tf, cfg) && AreOrdinary(calls) {
      AnswersAgree(storage.value, calls);
    }
  }

  ghost predicate IsRecord(tf: TimeFormat, cfg: RetentionConfig, mayFail: bool, calls: seq<Call>, results: seq<CallResult>,
                           runs: seq<Run>)
  {
    && |results| == |calls| && |runs| == |calls| + 1
    && forall i :: 0 <= i < |calls| ==> Performed(tf, cfg, mayFail, calls[i], results[i], runs[i], runs[i + 1])
  }

  lemma RecordNext(tf: TimeFormat, cfg: RetentionConfig, mayFail: bool, calls: seq<Call>, results: seq<CallResult>,
                   runs: seq<Run>, call: Call, result: CallResult, r: Run)
    requires IsRecord(tf, cfg, mayFail, calls, results, runs)
    requires Performed(tf, cfg, mayFail, call, result, Last(runs), r)
    ensures IsRecord(tf, cfg, mayFail, calls + [call], results + [result], runs + [r])
  {
    var calls', results', runs' := calls + [call], results + [result], runs + [r];
    forall i | 0 <= i < |calls'|
      ensures Performed(tf, cfg, mayFail, calls'[i], results'[i], runs'[i], runs'[i + 1])
    {
      if i < |calls| {
        assert Performed(tf, cfg, mayFail, calls[i], results[i], runs[i], runs[i + 1]);
      }
    }
  }

  lemma AnswersAgree(s: Storage, calls: seq<Call>)
    requires s.Valid() && s.bucket.named && AreOrdinary(calls)
    requires forall name :: Vanish(name) in s.bucket.run.steps ==> Outside(name) in calls
    requires AreRegular(s.bucket.tf, s.bucket.cfg)
    ensures HasOneAnswer(s.bucket.tf, s.labels.store.Entries)
  {
    var es := s.labels.store.Entries;
    forall pit, r1, r2 | Answers(s.bucket.tf, es, pit, r1) && Answers(s.bucket.tf, es, pit, r2)
      ensures r1 == r2
    {
      AllCandidatesRegular(s, pit);
      OneAnswer(s, pit, r1, r2);
    }
  }

  lemma SafeThroughout(bucket: Bucket, calls: seq<Call>)
    requires bucket.Valid() && forall name :: Vanish(name) in bucket.run.steps ==> Outside(name) in calls
    ensures forall name, i: nat {:trigger Safe(bucket.tf, bucket.cfg, bucket.run.worlds[i], name)} ::
      Outside(name) !in calls && i < |bucket.run.worlds| ==> Safe(bucket.tf, bucket.cfg, bucket.run.worlds[i], name)
  {
    forall name, i: nat | Outside(name) !in calls && i < |bucket.run.worlds|
      ensures Safe(bucket.tf, bucket.cfg, bucket.run.worlds[i], name)
    {
      EveryMomentSafe(bucket, name, i);
    }
  }

  lemma PromisesKept(bucket: Bucket, calls: seq<Call>)
    requires bucket.Valid() && forall name :: Vanish(name) in bucket.run.steps ==> Outside(name) in calls
    ensures forall name, i: nat, l {:trigger Lists(bucket.run.worlds[i].stored, name, l)} ::
      Outside(name) !in calls && i < |bucket.run.worlds| ==>
      (Lists(bucket.run.worlds[i].stored, name, l) && Live(bucket.tf, bucket.cfg, l, bucket.clock) ==>
        Lists(bucket.labelFile, name, l) && name in bucket.objects)
  {
    forall name, i: nat, l | Outside(name) !in calls && i < |bucket.run.worlds|
      && Lists(bucket.run.worlds[i].stored, name, l) && Live(bucket.tf, bucket.cfg, l, bucket.clock)
      ensures Lists(bucket.labelFile, name, l) && name in bucket.objects
    {
      PromiseKept(bucket, name, l, i);
    }
  }

  // ----- Repeating a cleanup -----

  lemma OutlookFurther(tf: TimeFormat, cfg: RetentionConfig, a: World, b: World, r: Run, es: Entries)
    requires a.now <= b.now && SameOutlook(tf, cfg, a, b) && r.worlds != []
    requires r.worlds[0] == b.(memory := Some(es)) && b.stored == Some(es) && IsCleanup(tf, cfg, r, es)
    ensures a.now <= Last(r.worlds).now && SameOutlook(tf, cfg, a, Last(r.worlds))
    ensures IsCleaned(tf, cfg, r.worlds[0], es, Last(r.worlds)) ==> IsCleaned(tf, cfg, a, a.stored.value, Last(r.worlds))
  {
    CleanupKeepsOutlook(tf, cfg, r, es, |r.worlds| - 1);
  }

  /** Loads the labels and cleans up. Even when it fails, it does not change what later cleanups will
      leave. */
  method LoadAndCleanUp(bucket: Bucket, tf: TimeFormat, cfg: RetentionConfig, ghost start: World) returns (ok: bool)
    requires bucket.Valid() && tf == bucket.tf && cfg == bucket.cfg
    requires start.now <= bucket.clock && SameOutlook(tf, cfg, start, bucket.Here())
    modifies bucket
    ensures bucket.Valid()
    ensures start.now <= bucket.clock && SameOutlook(tf, cfg, start, bucket.Here())
    ensures !ok ==> bucket.mayFail
    ensures ok ==> IsCleaned(tf, cfg, start, start.stored.value, bucket.Here())
  {
    ghost var w := bucket.Here();
    var storage := NewStorage(bucket, tf, cfg);
    if storage.None? {
      return false;
    }
    ghost var loaded := bucket.run;
    assert Last(loaded.worlds) == w.(memory := w.stored);
    ok := storage.value.CleanupBackups();
    ghost var part := bucket.run.Since(|loaded.steps|);
    assert part.worlds[0] == Last(loaded.worlds) && Last(part.worlds) == bucket.Here();
    OutlookFurther(tf, cfg, start, w, part, w.stored.value);
    if ok {
      CompleteCleans(tf, cfg, part, w.stored.value);
    }
  }

  /** Tries until a cleanup succeeds. Whatever the failed attempts have done, bucket and label file end
      as one cleanup at the end would have left them. */
  method CleanUpUntilDone(bucket: Bucket, tf: TimeFormat, cfg: RetentionConfig, attempts: nat) returns (ok: bool)
    requires bucket.Valid() && tf == bucket.tf && cfg == bucket.cfg && bucket.labelFile.Some?
    modifies bucket
    ensures bucket.Valid()
    ensures !ok ==> bucket.mayFail || attempts == 0
    ensures ok ==> IsCleaned(tf, cfg, old(bucket.Here()), old(bucket.labelFile).value, bucket.Here())
  {
    ghost var start := bucket.Here();
    for i := 0 to attempts
      invariant bucket.Valid() && start.now <= bucket.clock && SameOutlook(tf, cfg, start, bucket.Here())
      invariant i > 0 ==> bucket.mayFail
    {
      ok := LoadAndCleanUp(bucket, tf, cfg, start);
      if ok {
        return;
      }
    }
    ok := false;
  }
}
