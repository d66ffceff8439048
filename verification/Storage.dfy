/** The storage of one location: uploads, cleanup and downloads over a bucket whose calls may fail
    at any time, with or without having taken effect. A crash between two steps of the storage looks
    to the bucket like a failing call after which the labels are loaded again. */
module Storage {
  import opened Bytes
  import opened Common
  import opened LabelManager
  import opened LabelRuns
  import opened Labels
  import opened Lineage
  import opened RetentionStore
  import opened StorageProtocol

  datatype Stat = Found | NoSuchKey | StatFailed

  /** More steps were taken, and meanwhile nobody else deleted anything. */
  ghost predicate Extends(before: Run, after: Run) {
    && before.worlds <= after.worlds && before.steps <= after.steps
    && forall name :: Vanish(name) in after.steps ==> Vanish(name) in before.steps
  }

  /** Only entries were deleted and forgotten. */
  ghost predicate Sweeps(before: Run, after: Run) {
    && before.worlds <= after.worlds && before.steps <= after.steps
    && forall j :: |before.steps| <= j < |after.steps| ==> IsSweep(after.steps[j])
  }

  lemma ExtendsThen(before: Run, r: Run, s: Step, w: World)
    requires Extends(before, r) && !s.Vanish?
    ensures Extends(before, r.Then(s, w))
  {
  }

  lemma ExtendsFurther(before: Run, mid: Run, after: Run)
    requires Extends(before, mid) && Extends(mid, after)
    ensures Extends(before, after)
  {
  }

  lemma SweepsThen(before: Run, r: Run, s: Step, w: World)
    requires Sweeps(before, r) && IsSweep(s)
    ensures Sweeps(before, r.Then(s, w))
  {
  }

  lemma SweepsFurther(before: Run, mid: Run, after: Run)
    requires Sweeps(before, mid) && Sweeps(mid, after)
    ensures Sweeps(before, after)
  {
    forall j | |before.steps| <= j < |after.steps|
      ensures IsSweep(after.steps[j])
    {
      if j < |mid.steps| {
        assert after.steps[j] == mid.steps[j];
      }
    }
  }

  function Loaded(file: Option<Entries>): Entries {
    if file.Some? then file.value else map[]
  }

  /** The bucket. Its ghost state is the run that the storage makes it take, with the labels that
      the process keeps in memory; every change of either is one step of the run. */
  class Bucket {
    var objects: map<string, seq<byte>>
    var labelFile: Option<Entries>
    var clock: Time
    const mayFail: bool   // whether calls may fail at all
    ghost const tf: TimeFormat
    ghost const cfg: RetentionConfig
    ghost var memory: Option<Entries>
    ghost var run: Run
    ghost var saved: History   // of the labels in the label file
    ghost var named: bool      // no backup had the empty name

    /** A bucket that no storage has used yet. */
    constructor (objects: map<string, seq<byte>>, clock: Time, mayFail: bool, ghost tf: TimeFormat, ghost cfg: RetentionConfig)
      ensures Valid() && run == Run([Here()], []) && named
      ensures this.objects == objects && labelFile == None && memory == None && this.clock == clock
      ensures this.mayFail == mayFail && this.tf == tf && this.cfg == cfg
    {
      this.objects, labelFile, this.clock, this.mayFail := objects, None, clock, mayFail;
      this.tf, this.cfg, memory, saved, named := tf, cfg, None, UNUSED, true;
      run := Run([World(objects, None, None, clock)], []);
      new;
      UnusedLineage(tf, cfg, clock, []);
    }

    ghost function Here(): World
      reads this
    {
      World(objects, labelFile, memory, clock)
    }

    /** The run began without label file, and the saved labels have a history. */
    ghost predicate Recorded()
      reads this
    {
      && run.Valid(tf, cfg) && run.worlds[0].stored.None? && run.worlds[0].memory.None?
      && IsLineage(tf, cfg, saved, Last(run.worlds).now, run.steps, named)
      && Last(saved.states).entries == Loaded(labelFile)
    }

    ghost predicate Valid()
      reads this
    {
      Recorded() && Last(run.worlds) == Here()
    }

    ghost method Record(s: Step)
      requires Recorded() && Takes(tf, cfg, Last(run.worlds), s, Here())
      modifies this`run
      ensures Valid() && run == old(run).Then(s, Here())
    {
      ExtendTrace(tf, cfg, run, s, Here());
      LineageLater(tf, cfg, saved, Last(run.worlds).now, run.steps, named, clock, run.steps + [s], named);
      run := run.Then(s, Here());
    }

    /** The process dies, and the labels in memory are lost. */
    ghost method Die()
      requires Valid()
      modifies this`memory, this`run
      ensures Valid() && memory == None && run == old(run).Then(Crash, Here())
    {
      memory := None;
      Record(Crash);
    }

    /** A change of the labels in memory. */
    ghost method Remember(s: Step, es: Entries)
      requires Valid() && Takes(tf, cfg, Here(), s, Here().(memory := Some(es)))
      modifies this`memory, this`run
      ensures Valid() && memory == Some(es) && run == old(run).Then(s, Here())
    {
      memory := Some(es);
      Record(s);
    }

    /** Notes whether a backup has a name. */
    ghost method Note(name: string)
      requires Valid()
      modifies this`named
      ensures Valid() && named == (old(named) && name != "")
    {
      LineageLater(tf, cfg, saved, clock, run.steps, named, clock, run.steps, named && name != "");
      named := named && name != "";
    }

    /** Somebody else deletes an object. */
    method Lose(name: string)
      requires Valid()
      modifies this`objects, this`run
      ensures Valid() && objects == old(objects) - {name} && run == old(run).Then(Vanish(name), Here())
    {
      objects := objects - {name};
      Record(Vanish(name));
    }

    method Now() returns (t: Time)
      requires Valid()
      modifies this`clock, this`run
      ensures Valid() && t == clock && old(clock) <= t && run == old(run).Then(Tick(t), Here())
    {
      t :| clock <= t;
      clock := t;
      Record(Tick(t));
    }

    method PutObject(name: string, data: seq<byte>) returns (ok: bool)
      requires Valid()
      modifies this`objects, this`run
      ensures Valid()
      ensures !ok ==> mayFail
      ensures ok ==> objects == old(objects)[name := data] && run == old(run).Then(Step.PutObject(name, data), Here())
      ensures !ok ==> (
        || (objects == old(objects) && run == old(run))
        || (objects == old(objects)[name := data] && run == old(run).Then(Step.PutObject(name, data), Here())))
    {
      var fails: bool := *;
      ok := !mayFail || !fails;
      var arrived: bool := *;
      if ok || arrived {
        objects := objects[name := data];
        Record(Step.PutObject(name, data));
      }
    }

    method RemoveObject(name: string) returns (ok: bool)
      requires Valid() && memory.Some? && name in memory.value && memory.value[name] == []
      modifies this`objects, this`run
      ensures Valid()
      ensures !ok ==> mayFail
      ensures ok ==> objects == old(objects) - {name} && run == old(run).Then(DeleteObject(name), Here())
      ensures !ok ==> (
        || (objects == old(objects) && run == old(run))
        || (objects == old(objects) - {name} && run == old(run).Then(DeleteObject(name), Here())))
    {
      var fails: bool := *;
      ok := !mayFail || !fails;
      var arrived: bool := *;
      if ok || arrived {
        objects := objects - {name};
        Record(DeleteObject(name));
      }
    }

    method StatObject(name: string) returns (r: Stat)
      ensures r.Found? ==> name in objects
      ensures r.NoSuchKey? ==> name !in objects
      ensures r.StatFailed? ==> mayFail
    {
      var fails: bool := *;
      r := if mayFail && fails then StatFailed else if name in objects then Found else NoSuchKey;
    }

    /** Saves the labels, whose history this is. */
    method PutLabels(es: Entries, ghost history: History) returns (ok: bool)
      requires Valid() && memory == Some(es)
      requires IsLineage(tf, cfg, history, clock, run.steps, named) && Last(history.states).entries == es
      modifies this`labelFile, this`run, this`saved
      ensures Valid()
      ensures !ok ==> mayFail
      ensures ok ==> labelFile == Some(es) && run == old(run).Then(Save, Here())
      ensures !ok ==> (
        || (labelFile == old(labelFile) && run == old(run))
        || (labelFile == Some(es) && run == old(run).Then(Save, Here())))
    {
      var fails: bool := *;
      ok := !mayFail || !fails;
      var arrived: bool := *;
      if ok || arrived {
        labelFile, saved := Some(es), history;
        Record(Save);
      }
    }
  }

  lemma MinusOneMore<K, V>(m: map<K, V>, gone: set<K>, k: K)
    ensures m - gone - {k} == m - (gone + {k})
  {
  }

  /** What was done since is a cleanup that has not saved. */
  ghost predicate IsUnsaved(tf: TimeFormat, cfg: RetentionConfig, before: Run, r: Run, es: Entries) {
    && |before.steps| + 2 <= |r.steps| && |r.worlds| == |r.steps| + 1
    && IsCleanup(tf, cfg, r.Since(|before.steps|), es)
    && !Last(r.Since(|before.steps|).steps).Save?
  }

  lemma CleanupSoFar(tf: TimeFormat, cfg: RetentionConfig, before: Run, now: Time, mid: Run, after: Run, es: Entries)
    requires before.Valid(tf, cfg) && after.Valid(tf, cfg) && Last(before.worlds).memory == Some(es)
    requires mid.steps == before.steps + [Tick(now), CleanMemory]
    requires before.worlds <= mid.worlds && Sweeps(mid, after)
    ensures IsUnsaved(tf, cfg, before, after, es) && Extends(before, after)
  {
    var n := |before.steps|;
    var part := after.Since(n);
    assert part.worlds[0] == Last(before.worlds);
    forall j | 0 <= j < |part.steps|
      ensures Takes(tf, cfg, part.worlds[j], part.steps[j], part.worlds[j + 1])
      ensures IsCleanupAt(part, j) && !part.steps[j].Save?
    {
      assert part.steps[j] == after.steps[n + j];
      if j < 2 {
        assert after.steps[n + j] == mid.steps[n + j];
      }
    }
    forall name | Vanish(name) in after.steps
      ensures Vanish(name) in before.steps
    {
      var j :| 0 <= j < |after.steps| && after.steps[j] == Vanish(name);
      if j < |mid.steps| {
        assert mid.steps[j] == Vanish(name);
      }
    }
  }

  /** And when it saves at its end. */
  lemma CleanupSaved(tf: TimeFormat, cfg: RetentionConfig, before: Run, r: Run, es: Entries, w: World)
    requires r.Then(Save, w).Valid(tf, cfg) && IsUnsaved(tf, cfg, before, r, es) && IsSwept(Last(r.worlds))
    ensures IsCompleteCleanup(tf, cfg, r.Then(Save, w).Since(|before.steps|), es)
  {
    var n := |before.steps|;
    var part, more := r.Since(n), r.Then(Save, w).Since(n);
    assert more == part.Then(Save, w);
    assert forall j :: 0 <= j < |more.steps| ==> more.steps[j] == r.Then(Save, w).steps[n + j];
    forall j | 0 <= j < |more.steps|
      ensures Takes(tf, cfg, more.worlds[j], more.steps[j], more.worlds[j + 1])
      ensures IsCleanupAt(more, j)
    {
      if j < |part.steps| {
        assert IsCleanupAt(part, j) && Takes(tf, cfg, part.worlds[j], part.steps[j], part.worlds[j + 1]);
      }
    }
  }

  lemma MissingNext<T>(gone: set<string>, seen: seq<string>, objects: map<string, T>, es: Entries, e: string)
    requires forall d :: d in gone <==> d in seen && d !in objects
    ensures var gone' := gone + if e in objects then {} else {e};
      && (forall d :: d in gone' <==> d in seen + [e] && d !in objects)
      && es - gone' == if e in objects then es - gone else es - gone - {e}
  {
  }

  lemma KeptEntry(tf: TimeFormat, cfg: RetentionConfig, es: Entries, now: Time, e: string)
    requires e in KeptEntries(tf, cfg, es, now)
    ensures IsKept(tf, cfg, es, e, now) && KeptEntries(tf, cfg, es, now)[e] == LiveLabels(tf, cfg, es[e], now)
  {
  }

  lemma ThenTwice(r: Run, s1: Step, w1: World, s2: Step, w2: World)
    ensures r.Then(s1, w1).Then(s2, w2).steps == r.steps + [s1, s2]
    ensures r.worlds <= r.Then(s1, w1).Then(s2, w2).worlds
  {
  }

  datatype UploadResult = Uploaded | PutFailed | NoLabelsAdded | SaveFailed

  class Storage {
    const bucket: Bucket
    const labels: Manager

    constructor (bucket: Bucket, labels: Manager)
      ensures this.bucket == bucket && this.labels == labels
    {
      this.bucket, this.labels := bucket, labels;
    }

    ghost predicate Valid()
      reads this, bucket, labels.store
    {
      && bucket.Valid() && labels.store.Valid()
      && labels.store.tf == bucket.tf && labels.retention == bucket.cfg
      && bucket.memory == Some(labels.store.Entries)
      && IsLineage(bucket.tf, bucket.cfg, labels.store.history, bucket.clock, bucket.run.steps, bucket.named)
    }

    /** The history of the labels is still one after more steps. */
    lemma Later(now: Time, steps: seq<Step>)
      requires IsLineage(bucket.tf, bucket.cfg, labels.store.history, now, steps, bucket.named)
      requires now <= bucket.clock && steps <= bucket.run.steps
      ensures IsLineage(bucket.tf, bucket.cfg, labels.store.history, bucket.clock, bucket.run.steps, bucket.named)
    {
      LineageLater(bucket.tf, bucket.cfg, labels.store.history, now, steps, bucket.named,
                   bucket.clock, bucket.run.steps, bucket.named);
    }

    /** Puts the object first, then grants labels, then saves them. Whatever fails, the bucket has
        only taken steps of the protocol. A named backup that arrives is refused labels exactly when
        all are known, and gets exactly the free ones that parse. A name that was not listed before
        ends up unlisted, with its object there, exactly when the object arrived and got no label. */
    method UploadFromReader(name: string, data: seq<byte>) returns (r: UploadResult, ghost added: seq<Label>)
      requires Valid()
      modifies bucket, labels.store
      ensures Valid() && Extends(old(bucket.run), bucket.run) && bucket.named == (old(bucket.named) && name != "")
      ensures labels.store.Entries == WithLabels(old(labels.store.Entries), name, added)
      ensures forall l :: l in added ==>
        l.format in labels.retention && l == LabelFor(bucket.tf, labels.retention, l.format, bucket.clock)
      ensures !r.PutFailed? ==> bucket.objects == old(bucket.objects)[name := data]
      ensures r.PutFailed? ==> added == []
      ensures r.PutFailed? ==> bucket.objects in {old(bucket.objects), old(bucket.objects)[name := data]}
      ensures r.Uploaded? ==> bucket.labelFile == Some(labels.store.Entries)
      ensures r.PutFailed? || r.SaveFailed? ==> bucket.mayFail
      ensures r.NoLabelsAdded? ==> added == []
      ensures r.PutFailed? || r.NoLabelsAdded? ==> bucket.labelFile == old(bucket.labelFile)
      ensures r.NoLabelsAdded? ==> labels.store.Entries == old(labels.store.Entries)
      ensures !r.PutFailed? && name != "" && "" !in old(labels.store.Entries) ==>
        IsExact(bucket.tf, bucket.cfg, old(labels.store.Now()), bucket.clock, !r.NoLabelsAdded?, added)
      ensures name !in old(labels.store.Entries) && name !in Loaded(old(bucket.labelFile)) ==>
        (Unlisted(bucket.Here(), name) <==> name in bucket.objects && added == [])
    {
      added := [];
      ghost var before := bucket.run;
      var ok := PutBackup(name, data);
      if !ok {
        return PutFailed, added;
      }
      ghost var put := bucket.run;
      r, added := LabelBackup(name);
      ExtendsFurther(before, put, bucket.run);
    }

    /** Grants the labels of a backup whose object has arrived, and saves them. */
    method LabelBackup(name: string) returns (r: UploadResult, ghost added: seq<Label>)
      requires Valid() && name in bucket.objects && (bucket.named ==> name != "")
      modifies bucket`clock, bucket`run, bucket`memory, bucket`labelFile, bucket`saved, labels.store
      ensures Valid() && Extends(old(bucket.run), bucket.run) && !r.PutFailed?
      ensures labels.store.Entries == WithLabels(old(labels.store.Entries), name, added)
      ensures forall l :: l in added ==>
        l.format in labels.retention && l == LabelFor(bucket.tf, labels.retention, l.format, bucket.clock)
      ensures r.Uploaded? ==> bucket.labelFile == Some(labels.store.Entries)
      ensures r.SaveFailed? ==>
        bucket.mayFail && bucket.labelFile in {old(bucket.labelFile), Some(labels.store.Entries)}
      ensures r.NoLabelsAdded? ==> added == [] && bucket.labelFile == old(bucket.labelFile)
      ensures name != "" && "" !in old(labels.store.Entries) ==>
        IsExact(bucket.tf, bucket.cfg, old(labels.store.Now()), bucket.clock, !r.NoLabelsAdded?, added)
    {
      ghost var before := bucket.run;
      var ok;
      ok, added := GrantLabels(name);
      ghost var granted := bucket.run;
      if !ok {
        return NoLabelsAdded, added;
      }
      ok := SaveLabels();
      ExtendsFurther(before, granted, bucket.run);
      r := if ok then Uploaded else SaveFailed;
    }

    /** Puts the object of a backup. */
    method PutBackup(name: string, data: seq<byte>) returns (ok: bool)
      requires Valid()
      modifies bucket`objects, bucket`run, bucket`named
      ensures Valid() && Extends(old(bucket.run), bucket.run) && bucket.named == (old(bucket.named) && name != "")
      ensures !ok ==> bucket.mayFail
      ensures bucket.objects == old(bucket.objects)[name := data] || (!ok && bucket.objects == old(bucket.objects))
    {
      ghost var before, named := bucket.run, bucket.named;
      bucket.Note(name);
      LineageLater(bucket.tf, bucket.cfg, labels.store.history, bucket.clock, before.steps, named,
                   bucket.clock, before.steps, bucket.named);
      ok := bucket.PutObject(name, data);
      Later(bucket.clock, before.steps);
      ExtendsThen(before, before, Step.PutObject(name, data), bucket.Here());
    }

    /** Saves the labels in memory. */
    method SaveLabels() returns (ok: bool)
      requires Valid()
      modifies bucket`labelFile, bucket`run, bucket`saved
      ensures Valid() && Extends(old(bucket.run), bucket.run)
      ensures !ok ==> bucket.mayFail
      ensures bucket.labelFile == Some(labels.store.Entries) || (!ok && bucket.labelFile == old(bucket.labelFile))
      ensures bucket.run == old(bucket.run).Then(Save, bucket.Here()) || (!ok && bucket.run == old(bucket.run))
    {
      ghost var before := bucket.run;
      ok := bucket.PutLabels(labels.store.Entries, labels.store.history);
      Later(bucket.clock, before.steps);
      ExtendsThen(before, before, Save, bucket.Here());
    }

    /** Reads the clock. */
    method ReadClock() returns (now: Time)
      requires Valid()
      modifies bucket`clock, bucket`run
      ensures Valid() && now == bucket.clock && old(bucket.clock) <= now
      ensures bucket.run == old(bucket.run).Then(Tick(now), bucket.Here())
    {
      ghost var clock, steps := bucket.clock, bucket.run.steps;
      now := bucket.Now();
      Later(clock, steps);
    }

    /** Adds the labels of a backup whose object has arrived. */
    method GrantLabels(name: string) returns (ok: bool, ghost added: seq<Label>)
      requires Valid() && name in bucket.objects && (bucket.named ==> name != "")
      modifies bucket`clock, bucket`run, bucket`memory, labels.store
      ensures Valid() && Extends(old(bucket.run), bucket.run)
      ensures labels.store.Entries == WithLabels(old(labels.store.Entries), name, added)
      ensures forall l :: l in added ==>
        l.format in labels.retention && l == LabelFor(bucket.tf, labels.retention, l.format, bucket.clock)
      ensures name != "" && "" !in old(labels.store.Entries) ==>
        IsExact(bucket.tf, bucket.cfg, old(labels.store.Now()), bucket.clock, ok, added)
      ensures !ok ==> added == []
    {
      ghost var before := bucket.run;
      var now := ReadClock();
      ExtendsThen(before, before, Tick(now), bucket.Here());
      ghost var ticked := bucket.run;
      ok, added := AddBackup(name, now);
      ExtendsThen(before, ticked, AddLabels(name, added), bucket.Here());
    }

    method AddBackup(name: string, now: Time) returns (ok: bool, ghost added: seq<Label>)
      requires Valid() && now == bucket.clock && name in bucket.objects && (bucket.named ==> name != "")
      modifies bucket`run, bucket`memory, labels.store
      ensures Valid() && bucket.run == old(bucket.run).Then(AddLabels(name, added), bucket.Here())
      ensures labels.store.Entries == WithLabels(old(labels.store.Entries), name, added)
      ensures forall l :: l in added ==>
        l.format in labels.retention && l == LabelFor(bucket.tf, labels.retention, l.format, now)
      ensures name != "" && "" !in old(labels.store.Entries) ==>
        IsExact(bucket.tf, bucket.cfg, old(labels.store.Now()), now, ok, added)
      ensures !ok ==> added == []
    {
      ghost var h, steps, order := labels.store.history, bucket.run.steps, [];
      ok, order, added := labels.Add(name, now);
      LineageAdd(bucket.tf, bucket.cfg, h, labels.store.history, name, now, order, steps, bucket.named);
      bucket.Remember(AddLabels(name, added), labels.store.Entries);
      Later(now, steps);
    }

    /** Deletes the objects of all entries without live labels, forgets entries whose object is gone
        and saves the labels. Its steps are those of one cleanup, complete when it succeeds. Then
        bucket and label file are cleaned; when it fails, the bucket is where a cleanup may be
        restarted, or the failing call was the save and had taken effect after all. When it succeeds,
        exactly the objects are gone that are listed without a label that stays. */
    method CleanupBackups() returns (ok: bool)
      requires Valid()
      modifies bucket, labels.store
      ensures Valid() && Extends(old(bucket.run), bucket.run) && bucket.named == old(bucket.named)
      ensures !ok ==> bucket.mayFail
      ensures IsCleanup(bucket.tf, bucket.cfg, bucket.run.Since(|old(bucket.run.steps)|), old(labels.store.Entries))
      ensures ok ==>
        IsCompleteCleanup(bucket.tf, bucket.cfg, bucket.run.Since(|old(bucket.run.steps)|), old(labels.store.Entries))
      ensures var start, es := old(bucket.Here()), old(labels.store.Entries);
        if ok then IsCleaned(bucket.tf, bucket.cfg, start, es, bucket.Here())
        else
          || UnderWay(bucket.tf, bucket.cfg, start, es, bucket.Here())
          || IsCleaned(bucket.tf, bucket.cfg, start, es, bucket.Here())
      ensures ok ==> forall name :: name in old(bucket.objects) ==>
        (name !in bucket.objects <==> IsDead(bucket.tf, bucket.cfg, old(labels.store.Entries), name, bucket.clock))
    {
      ghost var before, es := bucket.run, labels.store.Entries;
      ok := Sweep();
      if ok {
        ok := SaveCleaned(before, es);
      }
      CleanupEnds(bucket.tf, bucket.cfg, before, bucket.run, es);
      if ok {
        CleanupDeletes(bucket.tf, bucket.cfg, before, bucket.run, es);
      }
    }

    /** A cleanup up to its save. */
    method Sweep() returns (ok: bool)
      requires Valid()
      modifies bucket`clock, bucket`objects, bucket`run, bucket`memory, labels.store
      ensures Valid() && Extends(old(bucket.run), bucket.run)
      ensures !ok ==> bucket.mayFail
      ensures IsUnsaved(bucket.tf, bucket.cfg, old(bucket.run), bucket.run, old(labels.store.Entries))
      ensures ok ==> IsSwept(bucket.Here())
    {
      ghost var before, es := bucket.run, labels.store.Entries;
      var now := DropExpired();
      ghost var mid := bucket.run;
      ok := DeleteUnretained(Last(before.worlds), es);
      ghost var deleted := bucket.run;
      if ok {
        ok := ForgetMissing(Last(before.worlds), es);
        SweepsFurther(mid, deleted, bucket.run);
      }
      CleanupSoFar(bucket.tf, bucket.cfg, before, now, mid, bucket.run, es);
    }

    /** Reads the clock and drops the expired labels. */
    method DropExpired() returns (now: Time)
      requires Valid()
      modifies bucket`clock, bucket`run, bucket`memory, labels.store
      ensures Valid() && old(bucket.run.worlds) <= bucket.run.worlds && now == bucket.clock && old(bucket.clock) <= now
      ensures bucket.run.steps == old(bucket.run.steps) + [Tick(now), CleanMemory]
      ensures labels.store.Entries == CleanEntries(bucket.tf, bucket.cfg, old(labels.store.Entries), now)
    {
      ghost var before := bucket.run;
      now := ReadClock();
      ghost var w, h, steps := bucket.Here(), labels.store.history, bucket.run.steps;
      labels.CleanRetentions(now);
      LineageNext(bucket.tf, bucket.cfg, h, Clean(bucket.cfg, now), State(labels.store.Entries, labels.store.labels),
                  now, steps, bucket.named);
      bucket.Remember(CleanMemory, labels.store.Entries);
      ThenTwice(before, Tick(now), w, CleanMemory, bucket.Here());
      Later(now, steps);
    }

    /** Saves the labels at the end of a cleanup. */
    method SaveCleaned(ghost before: Run, ghost es: Entries) returns (ok: bool)
      requires Valid() && Extends(before, bucket.run) && IsSwept(bucket.Here())
      requires IsUnsaved(bucket.tf, bucket.cfg, before, bucket.run, es)
      modifies bucket`labelFile, bucket`run, bucket`saved
      ensures Valid() && Extends(before, bucket.run)
      ensures !ok ==> bucket.mayFail
      ensures IsCleanup(bucket.tf, bucket.cfg, bucket.run.Since(|before.steps|), es)
      ensures ok ==> IsCompleteCleanup(bucket.tf, bucket.cfg, bucket.run.Since(|before.steps|), es)
    {
      ghost var r := bucket.run;
      assert IsSwept(Last(r.worlds));
      ok := SaveLabels();
      ExtendsFurther(before, r, bucket.run);
      if bucket.run != r {
        CleanupSaved(bucket.tf, bucket.cfg, before, r, es, bucket.Here());
      }
    }

    /** Forgets an entry whose object is gone. */
    method ForgetEntry(entry: string)
      requires Valid() && entry !in bucket.objects
      requires Vanish(entry) in bucket.run.steps || LabelsOf(labels.store.Entries, entry) == []
      modifies bucket`run, bucket`memory, labels.store
      ensures Valid() && bucket.run == old(bucket.run).Then(Forget(entry), bucket.Here())
      ensures labels.store.Entries == old(labels.store.Entries) - {entry}
    {
      ghost var h, steps := labels.store.history, bucket.run.steps;
      labels.store.Remove(entry);
      LineageNext(bucket.tf, bucket.cfg, h, Drop(entry), State(labels.store.Entries, labels.store.labels),
                  bucket.clock, steps, bucket.named);
      bucket.Remember(Forget(entry), labels.store.Entries);
      Later(bucket.clock, steps);
    }

    /** Deletes the object of an entry without labels, then the entry. */
    method DeleteEntry(entry: string) returns (ok: bool)
      requires Valid() && entry in labels.store.Entries && labels.store.Entries[entry] == []
      modifies bucket`objects, bucket`run, bucket`memory, labels.store
      ensures Valid() && Sweeps(old(bucket.run), bucket.run)
      ensures !ok ==> bucket.mayFail
      ensures ok ==> bucket.objects == old(bucket.objects) - {entry}
      ensures ok ==> labels.store.Entries == old(labels.store.Entries) - {entry}
    {
      ghost var before := bucket.run;
      ok := bucket.RemoveObject(entry);
      Later(bucket.clock, before.steps);
      SweepsThen(before, before, DeleteObject(entry), bucket.Here());
      if ok {
        ghost var mid := bucket.run;
        ForgetEntry(entry);
        SweepsThen(before, mid, Forget(entry), bucket.Here());
      }
    }

    method DeleteUnretained(ghost start: World, ghost es: Entries) returns (ok: bool)
      requires Valid() && bucket.objects == start.objects
      requires labels.store.Entries == CleanEntries(bucket.tf, bucket.cfg, es, bucket.clock)
      modifies bucket`objects, bucket`run, bucket`memory, labels.store
      ensures Valid() && Sweeps(old(bucket.run), bucket.run)
      ensures !ok ==> bucket.mayFail
      ensures ok ==> bucket.objects == CleanedObjects(bucket.tf, bucket.cfg, start.objects, es, bucket.clock)
      ensures ok ==> labels.store.Entries == KeptEntries(bucket.tf, bucket.cfg, es, bucket.clock)
    {
      var unretained := labels.store.ListEntries(false);
      ghost var all, gone := labels.store.Entries, {};
      ok, gone := DeleteEach(unretained);
      if ok {
        assert forall e :: e in gone <==> e in all && all[e] == [];
        DeletedAll(bucket.tf, bucket.cfg, start.objects, es, bucket.clock, gone);
      }
    }

    /** Deletes the objects of the entries, none of which has labels, and the entries. */
    method DeleteEach(names: seq<string>) returns (ok: bool, ghost gone: set<string>)
      requires Valid() && forall i, j :: 0 <= i < j < |names| ==> names[i] != names[j]
      requires forall e :: e in names ==> e in labels.store.Entries && labels.store.Entries[e] == []
      modifies bucket`objects, bucket`run, bucket`memory, labels.store
      ensures Valid() && Sweeps(old(bucket.run), bucket.run)
      ensures !ok ==> bucket.mayFail
      ensures ok ==> forall e :: e in gone <==> e in names
      ensures ok ==> bucket.objects == old(bucket.objects) - gone && labels.store.Entries == old(labels.store.Entries) - gone
    {
      gone := {};
      for i := 0 to |names|
        invariant Valid() && Sweeps(old(bucket.run), bucket.run)
        invariant forall e :: e in gone <==> e in names[..i]
        invariant bucket.objects == old(bucket.objects) - gone
        invariant labels.store.Entries == old(labels.store.Entries) - gone
      {
        var entry := names[i];
        TakeNext(names, i);
        assert entry in names && entry !in gone;
        MinusOneMore(old(bucket.objects), gone, entry);
        MinusOneMore(old(labels.store.Entries), gone, entry);
        ghost var mid := bucket.run;
        ok := DeleteEntry(entry);
        SweepsFurther(old(bucket.run), mid, bucket.run);
        if !ok {
          return;
        }
        gone := gone + {entry};
      }
      TakeAll(names);
      ok := true;
    }

    /** An entry with live labels has its object, unless somebody else deleted it. */
    lemma MissingVanished(es: Entries, entry: string)
      requires Valid() && IsKeptAs(es, entry) && entry !in bucket.objects
      ensures Vanish(entry) in bucket.run.steps
    {
      if Vanish(entry) !in bucket.run.steps {
        var l := labels.store.Entries[entry][0];
        LiveLabelsAre(bucket.tf, bucket.cfg, es[entry], bucket.clock, l);
        assert HoldsLabel(labels.store.Entries, entry, l);
        EveryMomentSafe(bucket, entry, |bucket.run.worlds| - 1);
      }
    }

    /** Forgets an entry with live labels if its object is gone. */
    method ForgetIfMissing(entry: string, ghost es: Entries) returns (ok: bool)
      requires Valid() && IsKeptAs(es, entry)
      modifies bucket`run, bucket`memory, labels.store
      ensures Valid() && Sweeps(old(bucket.run), bucket.run)
      ensures !ok ==> bucket.mayFail
      ensures ok && entry in bucket.objects ==> labels.store.Entries == old(labels.store.Entries)
      ensures ok && entry !in bucket.objects ==> labels.store.Entries == old(labels.store.Entries) - {entry}
    {
      var stat := bucket.StatObject(entry);
      if stat.StatFailed? {
        return false;
      }
      if stat.NoSuchKey? {
        MissingVanished(es, entry);
        ghost var before := bucket.run;
        ForgetEntry(entry);
        SweepsThen(before, before, Forget(entry), bucket.Here());
      }
      ok := true;
    }

    method ForgetMissing(ghost start: World, ghost es: Entries) returns (ok: bool)
      requires Valid()
      requires bucket.objects == CleanedObjects(bucket.tf, bucket.cfg, start.objects, es, bucket.clock)
      requires labels.store.Entries == KeptEntries(bucket.tf, bucket.cfg, es, bucket.clock)
      modifies bucket`run, bucket`memory, labels.store
      ensures Valid() && Sweeps(old(bucket.run), bucket.run)
      ensures !ok ==> bucket.mayFail
      ensures ok ==> labels.store.Entries == CleanedFile(bucket.tf, bucket.cfg, start.objects, es, bucket.clock)
      ensures ok ==> IsSwept(bucket.Here())
    {
      var retained := labels.store.ListEntries(true);
      forall e | e in retained
        ensures IsKeptAs(es, e)
      {
        KeptEntry(bucket.tf, bucket.cfg, es, bucket.clock, e);
      }
      ghost var gone;
      ok, gone := ForgetEach(retained, es);
      if ok {
        ForgottenAll(bucket.tf, bucket.cfg, start.objects, es, bucket.clock, gone);
      }
    }

    /** The entry has its live labels, and there are some. */
    ghost predicate IsKeptAs(es: Entries, e: string)
      reads this, bucket, labels.store
    {
      && e in labels.store.Entries && IsKept(bucket.tf, bucket.cfg, es, e, bucket.clock)
      && labels.store.Entries[e] == LiveLabels(bucket.tf, bucket.cfg, es[e], bucket.clock)
    }

    /** Forgets those of the entries whose object is gone. */
    method ForgetEach(names: seq<string>, ghost es: Entries) returns (ok: bool, ghost gone: set<string>)
      requires Valid() && forall i, j :: 0 <= i < j < |names| ==> names[i] != names[j]
      requires forall e :: e in names ==> IsKeptAs(es, e)
      modifies bucket`run, bucket`memory, labels.store
      ensures Valid() && Sweeps(old(bucket.run), bucket.run)
      ensures !ok ==> bucket.mayFail
      ensures ok ==> forall e :: e in gone <==> e in names && e !in bucket.objects
      ensures ok ==> labels.store.Entries == old(labels.store.Entries) - gone
    {
      gone := {};
      for i := 0 to |names|
        invariant Valid() && Sweeps(old(bucket.run), bucket.run)
        invariant forall e :: e in gone <==> e in names[..i] && e !in bucket.objects
        invariant labels.store.Entries == old(labels.store.Entries) - gone
      {
        var entry := names[i];
        TakeNext(names, i);
        assert entry in names && entry !in gone;
        MissingNext(gone, names[..i], bucket.objects, old(labels.store.Entries), entry);
        ghost var mid := bucket.run;
        ok := ForgetIfMissing(entry, es);
        SweepsFurther(old(bucket.run), mid, bucket.run);
        if !ok {
          return;
        }
        gone := gone + if entry in bucket.objects then {} else {entry};
      }
      TakeAll(names);
      ok := true;
    }

    /** The object of the backup closest to and not after the instant. Nothing comes back only when a
        call fails, when no label qualifies, when the answer's labels have all expired, or when
        somebody else deleted its object. */
    method DownloadPITBackup(pit: Time) returns (r: Option<seq<byte>>)
      requires Valid()
      ensures r.None? ==> bucket.mayFail || exists name ::
        && Answers(bucket.tf, labels.store.Entries, pit, name)
        && (name == "" || (
          && name !in bucket.objects
          && (Vanish(name) in bucket.run.steps
              || !HasLive(bucket.tf, bucket.cfg, Some(labels.store.Entries), name, bucket.clock))))
      ensures r.Some? ==> exists name ::
        Answers(bucket.tf, labels.store.Entries, pit, name) && name in bucket.objects && r.value == bucket.objects[name]
      ensures r.Some? ==> exists name ::
        name != "" && IsClosest(bucket.tf, labels.store.Entries, pit, name) && name in bucket.objects
        && r.value == bucket.objects[name]
    {
      var backup := labels.GetClosestOlderBackup(pit);
      if backup.None? {
        return None;
      }
      if Vanish(backup.value) !in bucket.run.steps {
        EveryMomentSafe(bucket, backup.value, |bucket.run.worlds| - 1);
      }
      var stat := bucket.StatObject(backup.value);
      r := if stat.Found? then Some(bucket.objects[backup.value]) else None;
    }
  }

  /** The backup is listed, and none of its labels stays. */
  ghost predicate IsDead(tf: TimeFormat, cfg: RetentionConfig, es: Entries, name: string, now: Time) {
    name in es && forall l :: l in es[name] ==> !StaysAt(tf, cfg, l, now)
  }

  lemma CleanupDeletes(tf: TimeFormat, cfg: RetentionConfig, before: Run, r: Run, es: Entries)
    requires before.worlds != [] && Extends(before, r) && |before.worlds| == |before.steps| + 1 && r.Valid(tf, cfg)
    requires IsCompleteCleanup(tf, cfg, r.Since(|before.steps|), es)
    ensures forall name :: name in Last(before.worlds).objects ==>
      (name !in Last(r.worlds).objects <==> IsDead(tf, cfg, es, name, Last(r.worlds).now))
  {
    var part := r.Since(|before.steps|);
    assert part.worlds[0] == Last(before.worlds) && Last(part.worlds) == Last(r.worlds);
    forall name | name in Last(before.worlds).objects
      ensures name !in Last(r.worlds).objects <==> IsDead(tf, cfg, es, name, Last(r.worlds).now)
    {
      DeletedExactly(tf, cfg, part, es, name);
    }
  }

  /** Where a cleanup ends. */
  lemma CleanupEnds(tf: TimeFormat, cfg: RetentionConfig, before: Run, r: Run, es: Entries)
    requires before.worlds != [] && Extends(before, r) && |before.worlds| == |before.steps| + 1 && r.Valid(tf, cfg)
    requires IsCleanup(tf, cfg, r.Since(|before.steps|), es)
    ensures var start, w := Last(before.worlds), Last(r.worlds);
      UnderWay(tf, cfg, start, es, w) || IsCleaned(tf, cfg, start, es, w)
    ensures IsCompleteCleanup(tf, cfg, r.Since(|before.steps|), es) ==> IsCleaned(tf, cfg, Last(before.worlds), es, Last(r.worlds))
  {
    var part := r.Since(|before.steps|);
    assert part.worlds[0] == Last(before.worlds) && part.worlds[|part.steps|] == Last(r.worlds);
    CleanupAtAnyMoment(tf, cfg, part, es, |part.steps|);
    if IsCompleteCleanup(tf, cfg, part, es) {
      CompleteCleans(tf, cfg, part, es);
    }
  }

  /** Loads the labels from the bucket; a missing file means an empty store. The labels continue the
      history of those that were saved. */
  method NewStorage(bucket: Bucket, tf: TimeFormat, cfg: RetentionConfig) returns (s: Option<Storage>)
    requires bucket.Valid() && tf == bucket.tf && cfg == bucket.cfg
    modifies bucket`memory, bucket`run
    ensures bucket.Valid() && Extends(old(bucket.run), bucket.run)
    ensures s.None? ==> bucket.mayFail && bucket.memory == old(bucket.memory) && bucket.run == old(bucket.run)
    ensures s.Some? ==>
      && s.value.Valid() && s.value.bucket == bucket && fresh(s.value.labels.store)
      && s.value.labels.store.Entries == Loaded(bucket.labelFile)
      && bucket.run == old(bucket.run).Then(Load, bucket.Here())
  {
    var fails: bool := *;
    if bucket.mayFail && fails {
      return None;
    }
    var loaded := Loaded(bucket.labelFile);
    var store := new RetentionStore(tf, loaded, bucket.saved);
    LineageNext(bucket.tf, cfg, bucket.saved, Reload, State(store.Entries, store.labels), bucket.clock, bucket.run.steps,
                bucket.named);
    ghost var steps := bucket.run.steps;
    bucket.Remember(Load, loaded);
    var storage := new Storage(bucket, Manager(cfg, store));
    storage.Later(bucket.clock, steps);
    s := Some(storage);
  }

  /** Whatever the storages of a bucket have done, and wherever they were cut short, every backup
      with a live stored label was in the bucket at every moment, unless somebody else deleted it. */
  lemma EveryMomentSafe(bucket: Bucket, name: string, i: nat)
    requires bucket.Valid() && i < |bucket.run.worlds| && Vanish(name) !in bucket.run.steps
    ensures Inv(bucket.tf, bucket.cfg, bucket.run.worlds[i], name) && Safe(bucket.tf, bucket.cfg, bucket.run.worlds[i], name)
  {
    var start := bucket.run.worlds[0];
    EmptyStart(bucket.tf, bucket.cfg, start.objects, start.now, name);
    AlwaysSafe(bucket.tf, bucket.cfg, bucket.run, name, i);
  }

  /** What the label file promises is kept, unless somebody else deletes the object. */
  lemma PromiseKept(bucket: Bucket, name: string, l: Label, i: nat)
    requires bucket.Valid() && i < |bucket.run.worlds| && Vanish(name) !in bucket.run.steps
    requires Lists(bucket.run.worlds[i].stored, name, l) && Live(bucket.tf, bucket.cfg, l, bucket.clock)
    ensures Lists(bucket.labelFile, name, l) && name in bucket.objects
  {
    var start := bucket.run.worlds[0];
    EmptyStart(bucket.tf, bucket.cfg, start.objects, start.now, name);
    LiveLabelStays(bucket.tf, bucket.cfg, bucket.run, name, l, i, |bucket.run.worlds| - 1);
  }

  /** In every storage the point-in-time search has one answer, when nobody else deleted objects, all
      backups have names, and the labels to choose from are regular. */
  lemma OneAnswer(s: Storage, pit: Time, r1: string, r2: string)
    requires s.Valid() && s.bucket.named && forall name :: Vanish(name) !in s.bucket.run.steps
    requires CandidatesRegular(s.bucket.tf, s.bucket.cfg, s.labels.store.Entries, pit)
    requires Answers(s.bucket.tf, s.labels.store.Entries, pit, r1) && Answers(s.bucket.tf, s.labels.store.Entries, pit, r2)
    ensures r1 == r2
  {
    LineageIsSerial(s.bucket.tf, s.bucket.cfg, s.labels.store.history, s.bucket.clock, s.bucket.run.steps);
    SearchHasOneAnswer(s.bucket.tf, s.bucket.cfg, s.labels.store.history, pit, r1, r2);
  }

  /** With well behaved formats the labels to choose from are. */
  lemma AllCandidatesRegular(s: Storage, pit: Time)
    requires s.Valid() && s.bucket.named && forall name :: Vanish(name) !in s.bucket.run.steps
    requires AreRegular(s.bucket.tf, s.bucket.cfg)
    ensures CandidatesRegular(s.bucket.tf, s.bucket.cfg, s.labels.store.Entries, pit)
  {
    LineageIsSerial(s.bucket.tf, s.bucket.cfg, s.labels.store.history, s.bucket.clock, s.bucket.run.steps);
    HeldAreRegular(s.bucket.tf, s.bucket.cfg, s.labels.store.history, pit);
  }

  /** The label file gives each label that outlasts its name to the first backup whose attempt at it
      was saved, until a cleanup after its hold time. */
  lemma FirstSavedUploadOwns(bucket: Bucket, f: string, name: string, backup: string)
    requires bucket.Valid() && bucket.named && forall b :: Vanish(b) !in bucket.run.steps
    requires f in bucket.cfg && bucket.tf.parse(name, f).Some?
    requires OnlyFormat(bucket.tf, bucket.cfg, f, name) && Outlasts(bucket.tf, bucket.cfg, f, name)
    ensures Holds(Loaded(bucket.labelFile), backup, name) <==>
      (OwnerOf(bucket.saved.events, f, name) == Some(backup)
       && !CleanedAfter(bucket.saved.events, ExpiryOf(bucket.tf, bucket.cfg, f, name)))
  {
    FirstOwns(bucket.tf, bucket.cfg, bucket.saved, bucket.clock, bucket.run.steps, f, name, backup);
  }
}
