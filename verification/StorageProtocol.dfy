/** Backups and their labels in the bucket. Objects and the label file are changed by separate
    calls, and the process may die between any two of them. */
module StorageProtocol {
  import opened Bytes
  import opened Common
  import opened Labels
  import opened RetentionStore

  /** What survives a crash, objects and label file; what does not, the labels in memory; and the
      clock. `None` in memory means that no process has loaded the labels. */
  datatype World = World(
    objects: map<string, seq<byte>>,
    stored: Option<Entries>,
    memory: Option<Entries>,
    now: Time
  )

  datatype Step =
    | Tick(time: Time)
    | Crash
    | Load
    | PutObject(name: string, data: seq<byte>)
    | AddLabels(name: string, added: seq<Label>)
    | CleanMemory
    | DeleteObject(name: string)    // of an entry that memory holds without labels
    | Forget(name: string)          // an entry whose object is gone
    | Save
    | Vanish(name: string)          // somebody else deletes an object

  ghost predicate Takes(tf: TimeFormat, cfg: RetentionConfig, w: World, s: Step, w': World) {
    match s
    case Tick(t) => w.now <= t && w' == w.(now := t)
    case Crash => w' == w.(memory := None)
    case Load => w' == w.(memory := Some(if w.stored.Some? then w.stored.value else map[]))
    case PutObject(name, data) => w' == w.(objects := w.objects[name := data])
    case AddLabels(name, added) =>
      && w.memory.Some? && name in w.objects
      && w' == w.(memory := Some(WithLabels(w.memory.value, name, added)))
    case CleanMemory =>
      && w.memory.Some?
      && w' == w.(memory := Some(CleanEntries(tf, cfg, w.memory.value, w.now)))
    case DeleteObject(name) =>
      && w.memory.Some? && name in w.memory.value && w.memory.value[name] == []
      && w' == w.(objects := w.objects - {name})
    case Forget(name) =>
      && w.memory.Some? && name !in w.objects
      && w' == w.(memory := Some(w.memory.value - {name}))
    case Save => w.memory.Some? && w' == w.(stored := w.memory)
    case Vanish(name) => w' == w.(objects := w.objects - {name})
  }

  /** A run: the worlds and the steps between them. */
  datatype Run = Run(worlds: seq<World>, steps: seq<Step>) {
    ghost function Until(i: nat): Run
      requires i < |worlds| && i <= |steps|
    {
      Run(worlds[..i + 1], steps[..i])
    }

    /** What happened since there were only `n` steps. */
    ghost function Since(n: nat): Run
      requires n < |worlds| && n <= |steps|
    {
      Run(worlds[n..], steps[n..])
    }

    ghost predicate Valid(tf: TimeFormat, cfg: RetentionConfig) {
      && |worlds| == |steps| + 1
      && forall i {:trigger steps[i]} :: 0 <= i < |steps| ==> Takes(tf, cfg, worlds[i], steps[i], worlds[i + 1])
    }

    ghost function Then(s: Step, w: World): Run {
      Run(worlds + [w], steps + [s])
    }
  }

  lemma ExtendTrace(tf: TimeFormat, cfg: RetentionConfig, r: Run, s: Step, w: World)
    requires r.Valid(tf, cfg) && Takes(tf, cfg, Last(r.worlds), s, w)
    ensures r.Then(s, w).Valid(tf, cfg) && Last(r.Then(s, w).worlds) == w
  {
  }

  // ----- Safety -----

  ghost predicate HasLive(tf: TimeFormat, cfg: RetentionConfig, es: Option<Entries>, name: string, now: Time) {
    es.Some? && exists l :: HoldsLabel(es.value, name, l) && Live(tf, cfg, l, now)
  }

  /** A backup that the stored label file still lists with a live label is in the bucket. */
  ghost predicate Safe(tf: TimeFormat, cfg: RetentionConfig, w: World, name: string) {
    HasLive(tf, cfg, w.stored, name, w.now) ==> name in w.objects
  }

  /** What every step keeps for one backup: live labels in memory have their object too, and memory
      has not lost a live label that is stored. */
  ghost predicate Inv(tf: TimeFormat, cfg: RetentionConfig, w: World, name: string) {
    && Safe(tf, cfg, w, name)
    && (HasLive(tf, cfg, w.memory, name, w.now) ==> name in w.objects)
    && (w.memory.Some? && w.stored.Some? ==>
      forall l :: HoldsLabel(w.stored.value, name, l) && Live(tf, cfg, l, w.now) ==> HoldsLabel(w.memory.value, name, l))
  }

  /** A label that is live later is live now. */
  lemma LiveEarlier(tf: TimeFormat, cfg: RetentionConfig, es: Option<Entries>, name: string, now: Time, later: Time)
    requires now <= later && HasLive(tf, cfg, es, name, later)
    ensures HasLive(tf, cfg, es, name, now)
  {
    var l :| HoldsLabel(es.value, name, l) && Live(tf, cfg, l, later);
    assert Live(tf, cfg, l, now);
  }

  lemma CleanKeepsLive(tf: TimeFormat, cfg: RetentionConfig, es: Entries, name: string, now: Time)
    ensures HasLive(tf, cfg, Some(CleanEntries(tf, cfg, es, now)), name, now) <==> HasLive(tf, cfg, Some(es), name, now)
  {
    var cleaned := CleanEntries(tf, cfg, es, now);
    if name in es {
      forall l
        ensures l in cleaned[name] <==> l in es[name] && Live(tf, cfg, l, now)
      {
        LiveLabelsAre(tf, cfg, es[name], now, l);
      }
      if l :| HoldsLabel(es, name, l) && Live(tf, cfg, l, now) {
        assert HoldsLabel(cleaned, name, l);
      }
      if l :| HoldsLabel(cleaned, name, l) && Live(tf, cfg, l, now) {
        assert HoldsLabel(es, name, l);
      }
    }
  }

  lemma CleanKeepsLabels(tf: TimeFormat, cfg: RetentionConfig, es: Entries, name: string, now: Time)
    ensures forall l :: HoldsLabel(es, name, l) && Live(tf, cfg, l, now) ==> HoldsLabel(CleanEntries(tf, cfg, es, now), name, l)
  {
    forall l | HoldsLabel(es, name, l) && Live(tf, cfg, l, now)
      ensures HoldsLabel(CleanEntries(tf, cfg, es, now), name, l)
    {
      LiveLabelsAre(tf, cfg, es[name], now, l);
    }
  }

  lemma AddKeepsLive(tf: TimeFormat, cfg: RetentionConfig, es: Entries, e: string, added: seq<Label>, name: string, now: Time)
    ensures HasLive(tf, cfg, Some(es), name, now) ==> HasLive(tf, cfg, Some(WithLabels(es, e, added)), name, now)
    ensures name != e && HasLive(tf, cfg, Some(WithLabels(es, e, added)), name, now) ==> HasLive(tf, cfg, Some(es), name, now)
  {
    var more := WithLabels(es, e, added);
    if l :| HoldsLabel(es, name, l) && Live(tf, cfg, l, now) {
      assert HoldsLabel(more, name, l);
    }
    if name != e {
      if l :| HoldsLabel(more, name, l) && Live(tf, cfg, l, now) {
        assert HoldsLabel(es, name, l);
      }
    }
  }

  lemma InvStep(tf: TimeFormat, cfg: RetentionConfig, w: World, s: Step, w': World, name: string)
    requires Inv(tf, cfg, w, name) && Takes(tf, cfg, w, s, w') && s != Vanish(name)
    ensures Inv(tf, cfg, w', name)
  {
    match s
    case Tick(t) =>
      if HasLive(tf, cfg, w.stored, name, t) {
        LiveEarlier(tf, cfg, w.stored, name, w.now, t);
      }
      if HasLive(tf, cfg, w.memory, name, t) {
        LiveEarlier(tf, cfg, w.memory, name, w.now, t);
      }
    case AddLabels(e, added) =>
      AddKeepsLive(tf, cfg, w.memory.value, e, added, name, w.now);
    case CleanMemory =>
      CleanKeepsLive(tf, cfg, w.memory.value, name, w.now);
      CleanKeepsLabels(tf, cfg, w.memory.value, name, w.now);
    case Forget(e) =>
      if e != name {
        OthersKeepLive(tf, cfg, w.memory.value, e, name, w.now);
      }
    case _ =>
  }

  lemma OthersKeepLive(tf: TimeFormat, cfg: RetentionConfig, es: Entries, e: string, name: string, now: Time)
    requires e != name
    ensures HasLive(tf, cfg, Some(es - {e}), name, now) <==> HasLive(tf, cfg, Some(es), name, now)
  {
    assert forall l :: HoldsLabel(es - {e}, name, l) <==> HoldsLabel(es, name, l);
  }

  /** Safety over whole runs. Load, upload and cleanup may be cut short by a crash after any step and
      begun again, calls may fail, and the clock runs on: at every moment, a backup that the stored
      label file lists with a live label is in the bucket, unless somebody else deleted it. */
  lemma {:induction false} AlwaysSafe(tf: TimeFormat, cfg: RetentionConfig, r: Run, name: string, i: nat)
    requires r.Valid(tf, cfg) && Inv(tf, cfg, r.worlds[0], name)
    requires Vanish(name) !in r.steps
    requires i < |r.worlds|
    ensures Inv(tf, cfg, r.worlds[i], name) && Safe(tf, cfg, r.worlds[i], name)
  {
    if i != 0 {
      AlwaysSafe(tf, cfg, r, name, i - 1);
      assert Takes(tf, cfg, r.worlds[i - 1], r.steps[i - 1], r.worlds[i]);
      InvStep(tf, cfg, r.worlds[i - 1], r.steps[i - 1], r.worlds[i], name);
    }
  }

  /** What is promised is kept: over every run in which nobody else deletes the object, a label that
      the label file once listed stays listed, and the object stays there, as long as it is live. */
  lemma {:induction false} LiveLabelStays(tf: TimeFormat, cfg: RetentionConfig, r: Run, name: string, l: Label, i: nat, j: nat)
    requires r.Valid(tf, cfg) && Inv(tf, cfg, r.worlds[0], name) && Vanish(name) !in r.steps
    requires i <= j < |r.worlds| && Lists(r.worlds[i].stored, name, l) && Live(tf, cfg, l, r.worlds[j].now)
    ensures Lists(r.worlds[j].stored, name, l) && name in r.worlds[j].objects
    decreases j
  {
    if i != j {
      assert Takes(tf, cfg, r.worlds[j - 1], r.steps[j - 1], r.worlds[j]);
      LiveLabelStays(tf, cfg, r, name, l, i, j - 1);
      AlwaysSafe(tf, cfg, r, name, j - 1);
    }
    AlwaysSafe(tf, cfg, r, name, j);
  }

  ghost predicate Lists(file: Option<Entries>, name: string, l: Label) {
    file.Some? && HoldsLabel(file.value, name, l)
  }

  // ----- Contents -----

  /** What was last put under the name. */
  function LastPut(steps: seq<Step>, name: string): Option<seq<byte>> {
    if steps == [] then None
    else if Last(steps).PutObject? && Last(steps).name == name then Some(Last(steps).data)
    else LastPut(Init(steps), name)
  }

  /** At every moment of every run the object under a name is what was last put there, or what was
      there in the beginning. */
  lemma {:induction false} ContentIsLastPut(tf: TimeFormat, cfg: RetentionConfig, r: Run, name: string, i: nat)
    requires r.Valid(tf, cfg) && i < |r.worlds| && name in r.worlds[i].objects
    ensures var put := LastPut(r.steps[..i], name);
      if put.Some? then r.worlds[i].objects[name] == put.value
      else name in r.worlds[0].objects && r.worlds[i].objects[name] == r.worlds[0].objects[name]
  {
    if i != 0 {
      assert Takes(tf, cfg, r.worlds[i - 1], r.steps[i - 1], r.worlds[i]);
      assert Init(r.steps[..i]) == r.steps[..i - 1] && Last(r.steps[..i]) == r.steps[i - 1];
      if name in r.worlds[i - 1].objects {
        ContentIsLastPut(tf, cfg, r, name, i - 1);
      }
    }
  }

  /** A bucket without label file is a possible beginning. */
  lemma EmptyStart(tf: TimeFormat, cfg: RetentionConfig, objects: map<string, seq<byte>>, now: Time, name: string)
    ensures Inv(tf, cfg, World(objects, None, None, now), name)
  {
  }

  // ----- Objects that no label file lists -----

  /** The object is in the bucket, and neither the label file nor memory lists it. */
  ghost predicate Unlisted(w: World, name: string) {
    && name in w.objects
    && (w.stored.Some? ==> name !in w.stored.value)
    && (w.memory.Some? ==> name !in w.memory.value)
  }

  /** An upload that got no label, or that crashed before its labels were saved, leaves its object
      behind for good: no run of cleanups, however often restarted, deletes it, until somebody else
      does or another backup of that name is given a label. */
  lemma {:induction false} UnlistedStays(tf: TimeFormat, cfg: RetentionConfig, r: Run, name: string, i: nat)
    requires r.Valid(tf, cfg) && Unlisted(r.worlds[0], name) && i < |r.worlds|
    requires forall j :: 0 <= j < |r.steps| ==>
      r.steps[j] != Vanish(name) && (r.steps[j].AddLabels? && r.steps[j].name == name ==> r.steps[j].added == [])
    ensures Unlisted(r.worlds[i], name)
  {
    if i != 0 {
      UnlistedStays(tf, cfg, r, name, i - 1);
      assert Takes(tf, cfg, r.worlds[i - 1], r.steps[i - 1], r.worlds[i]);
    }
  }

  /** Such uploads exist for every name: one that crashes before its labels are saved, and one that
      gets no label. */
  lemma UploadsCanBeUnlisted(tf: TimeFormat, cfg: RetentionConfig, name: string, data: seq<byte>, now: Time)
    ensures exists r: Run ::
      && r.Valid(tf, cfg) && r.worlds[0] == World(map[], None, None, now)
      && r.steps == [Load, PutObject(name, data), Crash] && Unlisted(Last(r.worlds), name)
    ensures exists r: Run ::
      && r.Valid(tf, cfg) && r.worlds[0] == World(map[], None, None, now)
      && r.steps == [Load, PutObject(name, data), AddLabels(name, []), Save] && Unlisted(Last(r.worlds), name)
  {
    var empty := World(map[], None, None, now);
    var loaded := empty.(memory := Some(map[]));
    var put := loaded.(objects := map[name := data]);
    var crashed := Run([empty, loaded, put, put.(memory := None)], [Load, PutObject(name, data), Crash]);
    assert crashed.Valid(tf, cfg) && Unlisted(Last(crashed.worlds), name);
    var saved := put.(stored := Some(map[]));
    var unlabelled := Run([empty, loaded, put, put, saved], [Load, PutObject(name, data), AddLabels(name, []), Save]);
    assert unlabelled.Valid(tf, cfg) && Unlisted(Last(unlabelled.worlds), name);
  }

  // ----- What a cleanup does -----

  predicate IsSweep(s: Step) {
    s.DeleteObject? || s.Forget?
  }

  /** Nothing is left to delete or to forget. */
  predicate IsSwept(w: World) {
    w.memory.Some? && forall name :: name in w.memory.value ==> w.memory.value[name] != [] && name in w.objects
  }

  /** A run of one cleanup of the entries `es` in memory, as far as it came: it reads the clock,
      drops expired labels, deletes and forgets, and may save when nothing is left to do. */
  ghost predicate IsCleanup(tf: TimeFormat, cfg: RetentionConfig, r: Run, es: Entries) {
    && r.Valid(tf, cfg) && r.worlds[0].memory == Some(es)
    && forall j :: 0 <= j < |r.steps| ==> IsCleanupAt(r, j)
  }

  predicate IsCleanupAt(r: Run, j: nat)
    requires j < |r.steps| && |r.worlds| == |r.steps| + 1
  {
    if j == 0 then r.steps[j].Tick?
    else if j == 1 then r.steps[j].CleanMemory?
    else IsSweep(r.steps[j]) || (r.steps[j].Save? && j == |r.steps| - 1 && IsSwept(r.worlds[j]))
  }

  /** The cleanup came to its end and saved. */
  ghost predicate IsCompleteCleanup(tf: TimeFormat, cfg: RetentionConfig, r: Run, es: Entries) {
    IsCleanup(tf, cfg, r, es) && r.steps != [] && Last(r.steps).Save?
  }

  /** What holds between the steps of a cleanup after the expired labels were dropped. */
  ghost predicate Sweeping(tf: TimeFormat, cfg: RetentionConfig, start: World, es: Entries, w: World) {
    && w.stored == start.stored && start.now <= w.now && w.memory.Some?
    && (forall name :: name in w.memory.value ==> name in es && w.memory.value[name] == LiveLabels(tf, cfg, es[name], w.now))
    && (forall name :: name in w.objects ==> name in start.objects && w.objects[name] == start.objects[name])
    && (forall name :: name in start.objects && name !in w.objects ==> name in es && !IsKept(tf, cfg, es, name, w.now))
    && (forall name :: name in es && name !in w.memory.value ==> name !in w.objects)
  }

  lemma {:induction false} CleanupSweeps(tf: TimeFormat, cfg: RetentionConfig, r: Run, es: Entries, i: nat)
    requires IsCleanup(tf, cfg, r, es) && 2 <= i < |r.worlds|
    requires i == |r.steps| ==> !Last(r.steps).Save?
    ensures Sweeping(tf, cfg, r.worlds[0], es, r.worlds[i])
  {
    assert IsCleanupAt(r, i - 1) && Takes(tf, cfg, r.worlds[i - 1], r.steps[i - 1], r.worlds[i]);
    if i == 2 {
      assert IsCleanupAt(r, 0) && Takes(tf, cfg, r.worlds[0], r.steps[0], r.worlds[1]);
    } else {
      CleanupSweeps(tf, cfg, r, es, i - 1);
      SweepStep(tf, cfg, r.worlds[0], es, r.worlds[i - 1], r.steps[i - 1], r.worlds[i]);
    }
  }

  lemma SweepStep(tf: TimeFormat, cfg: RetentionConfig, start: World, es: Entries, w: World, s: Step, w': World)
    requires Sweeping(tf, cfg, start, es, w) && IsSweep(s) && Takes(tf, cfg, w, s, w')
    ensures Sweeping(tf, cfg, start, es, w')
  {
    if s.DeleteObject? {
      assert !IsKept(tf, cfg, es, s.name, w.now);
    }
    forall name | name in w'.memory.value
      ensures name in es && w'.memory.value[name] == LiveLabels(tf, cfg, es[name], w.now)
    {
      assert w'.memory.value[name] == w.memory.value[name];
    }
  }

  /** The end of a cleanup is fixed, whatever the order in which it deletes and forgets. */
  lemma SweptIsCleaned(tf: TimeFormat, cfg: RetentionConfig, start: World, es: Entries, w: World)
    requires Sweeping(tf, cfg, start, es, w) && IsSwept(w)
    ensures w.objects == CleanedObjects(tf, cfg, start.objects, es, w.now)
    ensures w.memory == Some(CleanedFile(tf, cfg, start.objects, es, w.now))
  {
    var objects, file := CleanedObjects(tf, cfg, start.objects, es, w.now), CleanedFile(tf, cfg, start.objects, es, w.now);
    assert w.objects == objects;
    forall name
      ensures name in w.memory.value <==> name in file
      ensures name in file ==> w.memory.value[name] == file[name]
    {
    }
    assert w.memory.value == file;
  }

  /** Bucket and label file are those that a cleanup of `es` from `start` leaves. */
  ghost predicate IsCleaned(tf: TimeFormat, cfg: RetentionConfig, start: World, es: Entries, w: World) {
    && start.now <= w.now
    && w.objects == CleanedObjects(tf, cfg, start.objects, es, w.now)
    && w.stored == Some(CleanedFile(tf, cfg, start.objects, es, w.now))
  }

  lemma CompleteCleans(tf: TimeFormat, cfg: RetentionConfig, r: Run, es: Entries)
    requires IsCompleteCleanup(tf, cfg, r, es)
    ensures IsCleaned(tf, cfg, r.worlds[0], es, Last(r.worlds))
  {
    var last := |r.steps| - 1;
    assert IsCleanupAt(r, last) && Takes(tf, cfg, r.worlds[last], r.steps[last], r.worlds[last + 1]);
    assert last >= 2 && IsCleanupAt(r, last - 1);
    CleanupUntil(tf, cfg, r, es, last);
    CleanupSweeps(tf, cfg, r.Until(last), es, last);
    SweptIsCleaned(tf, cfg, r.worlds[0], es, r.worlds[last]);
  }

  /** A cleanup up to a moment before its save. */
  lemma CleanupUntil(tf: TimeFormat, cfg: RetentionConfig, r: Run, es: Entries, i: nat)
    requires IsCleanup(tf, cfg, r, es) && i < |r.worlds|
    requires i == |r.steps| && r.steps != [] ==> !Last(r.steps).Save?
    ensures IsCleanup(tf, cfg, r.Until(i), es)
    ensures forall j :: 0 <= j < i ==> IsCleanupStep(r.steps[j])
  {
    var b := r.Until(i);
    forall j | 0 <= j < i
      ensures Takes(tf, cfg, b.worlds[j], b.steps[j], b.worlds[j + 1])
      ensures IsCleanupAt(b, j) && IsCleanupStep(r.steps[j])
    {
      assert b.steps[j] == r.steps[j] && IsCleanupAt(r, j);
    }
  }

  /** Which objects a completed cleanup deletes: exactly those that the labels in memory listed, with
      no label among theirs that stays under the configuration and the time of this cleanup. */
  lemma DeletedExactly(tf: TimeFormat, cfg: RetentionConfig, r: Run, es: Entries, name: string)
    requires IsCompleteCleanup(tf, cfg, r, es) && name in r.worlds[0].objects
    ensures name !in Last(r.worlds).objects
      <==> name in es && forall l :: l in es[name] ==> !StaysAt(tf, cfg, l, Last(r.worlds).now)
    ensures name in Last(r.worlds).objects ==> Last(r.worlds).objects[name] == r.worlds[0].objects[name]
  {
    CompleteCleans(tf, cfg, r, es);
    if name in es {
      KeptHasStaying(tf, cfg, es, name, Last(r.worlds).now);
    }
  }

  lemma KeptHasStaying(tf: TimeFormat, cfg: RetentionConfig, es: Entries, name: string, now: Time)
    requires name in es
    ensures IsKept(tf, cfg, es, name, now) <==> exists l :: l in es[name] && StaysAt(tf, cfg, l, now)
  {
    var live := LiveLabels(tf, cfg, es[name], now);
    forall l
      ensures l in live <==> l in es[name] && StaysAt(tf, cfg, l, now)
    {
      LiveLabelsAre(tf, cfg, es[name], now, l);
      LiveIsStaying(tf, cfg, l, now);
    }
    assert live != [] ==> live[0] in live;
  }

  /** What it saves: the labels that stay, of the backups that still have their object. */
  lemma SavedExactly(tf: TimeFormat, cfg: RetentionConfig, r: Run, es: Entries, name: string, l: Label)
    requires IsCompleteCleanup(tf, cfg, r, es)
    ensures Lists(Last(r.worlds).stored, name, l)
      <==> HoldsLabel(es, name, l) && StaysAt(tf, cfg, l, Last(r.worlds).now) && name in r.worlds[0].objects
    ensures Last(r.worlds).stored.Some? && (name in Last(r.worlds).stored.value ==> name in Last(r.worlds).objects)
  {
    CompleteCleans(tf, cfg, r, es);
    LiveIsStaying(tf, cfg, l, Last(r.worlds).now);
    if name in es {
      LiveLabelsAre(tf, cfg, es[name], Last(r.worlds).now, l);
    }
  }

  // ----- Cleanup can be restarted -----

  /** Entries with a live label. */
  predicate IsKept(tf: TimeFormat, cfg: RetentionConfig, es: Entries, name: string, now: Time) {
    name in es && LiveLabels(tf, cfg, es[name], now) != []
  }

  /** The objects after an uninterrupted cleanup at time `now`: exactly the listed backups without a
      live label are gone. */
  function CleanedObjects(tf: TimeFormat, cfg: RetentionConfig, objects: map<string, seq<byte>>, es: Entries, now: Time)
    : map<string, seq<byte>>
  {
    map name | name in objects && (name in es ==> IsKept(tf, cfg, es, name, now)) :: objects[name]
  }

  /** The label file after it: the live labels of the backups that still have their object. */
  function CleanedFile(tf: TimeFormat, cfg: RetentionConfig, objects: map<string, seq<byte>>, es: Entries, now: Time): Entries {
    map name | name in es && IsKept(tf, cfg, es, name, now) && name in objects :: LiveLabels(tf, cfg, es[name], now)
  }

  /** The live labels of the entries that have any. */
  function KeptEntries(tf: TimeFormat, cfg: RetentionConfig, es: Entries, now: Time): Entries {
    map name | name in es && IsKept(tf, cfg, es, name, now) :: LiveLabels(tf, cfg, es[name], now)
  }

  /** Deleting exactly the entries without live labels yields the cleaned objects. */
  lemma DeletedAll(tf: TimeFormat, cfg: RetentionConfig, objects: map<string, seq<byte>>, es: Entries, now: Time, gone: set<string>)
    requires forall e :: e in gone <==> e in es && !IsKept(tf, cfg, es, e, now)
    ensures objects - gone == CleanedObjects(tf, cfg, objects, es, now)
    ensures CleanEntries(tf, cfg, es, now) - gone == KeptEntries(tf, cfg, es, now)
  {
  }

  /** Forgetting exactly the entries without object yields the cleaned label file. */
  lemma ForgottenAll(tf: TimeFormat, cfg: RetentionConfig, objects: map<string, seq<byte>>, es: Entries, now: Time, gone: set<string>)
    requires forall e :: e in gone <==> e in KeptEntries(tf, cfg, es, now) && e !in CleanedObjects(tf, cfg, objects, es, now)
    ensures KeptEntries(tf, cfg, es, now) - gone == CleanedFile(tf, cfg, objects, es, now)
  {
  }

  predicate IsCleanupStep(s: Step) {
    s.Tick? || s.CleanMemory? || s.DeleteObject? || s.Forget?
  }

  /** What holds while a cleanup of the loaded entries `es` is under way, before it saves: the file
      is as it was, and only dead backups have lost their object. */
  ghost predicate UnderWay(tf: TimeFormat, cfg: RetentionConfig, start: World, es: Entries, w: World) {
    && w.stored == start.stored && start.now <= w.now && w.memory.Some?
    && (forall name :: name in w.objects ==> name in start.objects && w.objects[name] == start.objects[name])
    && (forall name :: name in start.objects && name !in w.objects ==> name in es && !IsKept(tf, cfg, es, name, w.now))
    && (forall name :: name in w.memory.value && IsKept(tf, cfg, es, name, w.now) ==>
      LiveLabels(tf, cfg, w.memory.value[name], w.now) == LiveLabels(tf, cfg, es[name], w.now))
    && (forall name :: name in w.memory.value ==> name in es)
  }

  lemma KeptEarlier(tf: TimeFormat, cfg: RetentionConfig, es: Entries, name: string, now: Time, later: Time)
    requires now <= later && IsKept(tf, cfg, es, name, later)
    ensures IsKept(tf, cfg, es, name, now)
  {
    CleanTwice(tf, cfg, es[name], now, later);
  }

  lemma UnderWayTick(tf: TimeFormat, cfg: RetentionConfig, start: World, es: Entries, w: World, t: Time)
    requires UnderWay(tf, cfg, start, es, w) && w.now <= t
    ensures UnderWay(tf, cfg, start, es, w.(now := t))
  {
    forall name | IsKept(tf, cfg, es, name, t)
      ensures IsKept(tf, cfg, es, name, w.now)
      ensures name in w.memory.value ==> LiveLabels(tf, cfg, w.memory.value[name], t) == LiveLabels(tf, cfg, es[name], t)
    {
      KeptEarlier(tf, cfg, es, name, w.now, t);
      if name in w.memory.value {
        CleanTwice(tf, cfg, es[name], w.now, t);
        CleanTwice(tf, cfg, w.memory.value[name], w.now, t);
      }
    }
  }

  lemma UnderWayStep(tf: TimeFormat, cfg: RetentionConfig, start: World, es: Entries, w: World, s: Step, w': World)
    requires UnderWay(tf, cfg, start, es, w) && Takes(tf, cfg, w, s, w') && IsCleanupStep(s)
    ensures UnderWay(tf, cfg, start, es, w')
  {
    match s
    case Tick(t) =>
      UnderWayTick(tf, cfg, start, es, w, t);
    case CleanMemory =>
      forall name | name in w.memory.value
        ensures LiveLabels(tf, cfg, w'.memory.value[name], w.now) == LiveLabels(tf, cfg, w.memory.value[name], w.now)
      {
        CleanTwice(tf, cfg, w.memory.value[name], w.now, w.now);
      }
    case DeleteObject(name) =>
      assert LiveLabels(tf, cfg, w.memory.value[name], w.now) == [];
    case Forget(name) =>
  }

  /** A cleanup that is cut short anywhere before it saves, then loaded and run again at a later
      time, ends exactly like one that ran at that later time only. */
  lemma RestartedCleanup(tf: TimeFormat, cfg: RetentionConfig, start: World, es: Entries, w: World, later: Time)
    requires start.stored == Some(es) && UnderWay(tf, cfg, start, es, w) && w.now <= later
    ensures CleanedObjects(tf, cfg, w.objects, es, later) == CleanedObjects(tf, cfg, start.objects, es, later)
    ensures CleanedFile(tf, cfg, w.objects, es, later) == CleanedFile(tf, cfg, start.objects, es, later)
  {
    forall name | IsKept(tf, cfg, es, name, later)
      ensures name in start.objects <==> name in w.objects
    {
      KeptEarlier(tf, cfg, es, name, w.now, later);
    }
  }

  /** And one that completed, followed by another one later, ends like the later one alone. */
  lemma RepeatedCleanup(tf: TimeFormat, cfg: RetentionConfig, objects: map<string, seq<byte>>, es: Entries, now: Time, later: Time)
    requires now <= later
    ensures var objects', es' := CleanedObjects(tf, cfg, objects, es, now), CleanedFile(tf, cfg, objects, es, now);
      && CleanedObjects(tf, cfg, objects', es', later) == CleanedObjects(tf, cfg, objects, es, later)
      && CleanedFile(tf, cfg, objects', es', later) == CleanedFile(tf, cfg, objects, es, later)
  {
    var objects', es' := CleanedObjects(tf, cfg, objects, es, now), CleanedFile(tf, cfg, objects, es, now);
    forall name
      ensures IsKept(tf, cfg, es, name, later) ==> IsKept(tf, cfg, es, name, now)
      ensures name in es' ==> LiveLabels(tf, cfg, es'[name], later) == LiveLabels(tf, cfg, es[name], later)
    {
      if name in es {
        CleanTwice(tf, cfg, es[name], now, later);
        if IsKept(tf, cfg, es, name, later) {
          KeptEarlier(tf, cfg, es, name, now, later);
        }
      }
    }
  }

  /** The world right after loading is the beginning of a cleanup. */
  lemma CleanupStarts(tf: TimeFormat, cfg: RetentionConfig, start: World, es: Entries)
    requires start.memory == Some(es)
    ensures UnderWay(tf, cfg, start, es, start)
  {
  }

  /** Every moment of a run of cleanup steps is a place where it can be cut short. */
  lemma {:induction false} CleanupUnderWay(tf: TimeFormat, cfg: RetentionConfig, r: Run, es: Entries, i: nat)
    requires r.Valid(tf, cfg) && r.worlds[0].memory == Some(es) && i < |r.worlds|
    requires forall j :: 0 <= j < |r.steps| ==> IsCleanupStep(r.steps[j])
    ensures UnderWay(tf, cfg, r.worlds[0], es, r.worlds[i])
  {
    if i == 0 {
      CleanupStarts(tf, cfg, r.worlds[0], es);
    } else {
      CleanupUnderWay(tf, cfg, r, es, i - 1);
      assert Takes(tf, cfg, r.worlds[i - 1], r.steps[i - 1], r.worlds[i]);
      UnderWayStep(tf, cfg, r.worlds[0], es, r.worlds[i - 1], r.steps[i - 1], r.worlds[i]);
    }
  }

  /** Wherever a cleanup is cut short, it is under way, or it has saved and left a cleaned bucket. */
  lemma CleanupAtAnyMoment(tf: TimeFormat, cfg: RetentionConfig, r: Run, es: Entries, i: nat)
    requires IsCleanup(tf, cfg, r, es) && i < |r.worlds|
    ensures UnderWay(tf, cfg, r.worlds[0], es, r.worlds[i]) || IsCleaned(tf, cfg, r.worlds[0], es, r.worlds[i])
  {
    if i == |r.steps| && r.steps != [] && Last(r.steps).Save? {
      CompleteCleans(tf, cfg, r, es);
    } else {
      CleanupUntil(tf, cfg, r, es, i);
      CleanupUnderWay(tf, cfg, r.Until(i), es, i);
    }
  }

  /** Cleaning from either world, at any later time, leaves the same bucket and label file. */
  ghost predicate SameOutlook(tf: TimeFormat, cfg: RetentionConfig, a: World, b: World) {
    && a.stored.Some? && b.stored.Some?
    && forall later :: a.now <= later && b.now <= later ==>
      && CleanedObjects(tf, cfg, a.objects, a.stored.value, later) == CleanedObjects(tf, cfg, b.objects, b.stored.value, later)
      && CleanedFile(tf, cfg, a.objects, a.stored.value, later) == CleanedFile(tf, cfg, b.objects, b.stored.value, later)
  }

  lemma CleanupKeepsOutlook(tf: TimeFormat, cfg: RetentionConfig, r: Run, es: Entries, i: nat)
    requires IsCleanup(tf, cfg, r, es) && r.worlds[0].stored == Some(es) && i < |r.worlds|
    ensures r.worlds[0].now <= r.worlds[i].now && SameOutlook(tf, cfg, r.worlds[0], r.worlds[i])
  {
    var start, w := r.worlds[0], r.worlds[i];
    CleanupAtAnyMoment(tf, cfg, r, es, i);
    forall later | w.now <= later
      ensures CleanedObjects(tf, cfg, w.objects, w.stored.value, later) == CleanedObjects(tf, cfg, start.objects, es, later)
      ensures CleanedFile(tf, cfg, w.objects, w.stored.value, later) == CleanedFile(tf, cfg, start.objects, es, later)
    {
      if UnderWay(tf, cfg, start, es, w) {
        RestartedCleanup(tf, cfg, start, es, w, later);
      } else {
        RepeatedCleanup(tf, cfg, start.objects, es, w.now, later);
      }
    }
  }

  /** A cleanup is cut short after any of its steps by a crash; later the labels are loaded again and
      a cleanup runs to its end. Bucket and label file are then exactly those that one uninterrupted
      cleanup, ending at the same time, would have left. */
  lemma CutShortAndRestarted(tf: TimeFormat, cfg: RetentionConfig, cut: Run, i: nat, again: Run, once: Run, es: Entries)
    requires IsCleanup(tf, cfg, cut, es) && cut.worlds[0].stored == Some(es) && i < |cut.worlds|
    requires again.worlds != [] && again.worlds[0].objects == cut.worlds[i].objects
    requires again.worlds[0].stored == cut.worlds[i].stored && cut.worlds[i].now <= again.worlds[0].now
    requires again.worlds[0].stored.Some? && IsCompleteCleanup(tf, cfg, again, again.worlds[0].stored.value)
    requires IsCompleteCleanup(tf, cfg, once, es) && once.worlds[0].objects == cut.worlds[0].objects
    requires Last(again.worlds).now == Last(once.worlds).now
    ensures Last(again.worlds).objects == Last(once.worlds).objects
    ensures Last(again.worlds).stored == Last(once.worlds).stored
  {
    CleanupKeepsOutlook(tf, cfg, cut, es, i);
    CompleteCleans(tf, cfg, again, again.worlds[0].stored.value);
    CompleteCleans(tf, cfg, once, es);
  }
}
