/** The label manager: grants a new backup every configured label that is still free. */
module LabelManager {
  import opened Common
  import opened LabelRuns
  import opened Labels
  import opened RetentionStore

  const HOUR: int := 3_600_000_000_000
  const DAY: int := 24 * HOUR
  const WEEK: int := 7 * DAY
  const MONTH: int := 31 * DAY
  const TWELVE_MONTHS: int := 12 * MONTH

  const DEFAULT_RETENTION: RetentionConfig := map[
    "%Y-%m" := TWELVE_MONTHS,
    "%Y-w%V" := MONTH,
    "%Y-%m-%d" := WEEK,
    "%Y-%m-%dT%H" := DAY,
    "%Y-%m-%dT%H-%M-%S" := HOUR
  ]

  /** The label of format `f` that a backup may get at time `now`. */
  function LabelFor(tf: TimeFormat, cfg: RetentionConfig, f: string, now: Time): Label
    requires f in cfg
  {
    Label(f, cfg[f], tf.format(now, f))
  }

  /** The attempts of one backup at all labels, in the order of the formats. */
  ghost function Attempts(tf: TimeFormat, cfg: RetentionConfig, entry: string, now: Time, order: seq<string>): seq<Event>
    requires forall f :: f in order ==> f in cfg
  {
    seq(|order|, i requires 0 <= i < |order| => Grant(entry, LabelFor(tf, cfg, order[i], now), now))
  }

  // ----- What an addition does -----

  /** The attempt was not refused as a duplicate. */
  ghost predicate Taken(h: History, i: nat)
    requires i < |h.events| && |h.states| == |h.events| + 1
  {
    h.events[i].Grant? && !Duplicate(h.states[i + 1].index, h.events[i].added.name)
  }

  ghost predicate SomeTaken(h: History, start: nat)
    requires |h.states| == |h.events| + 1
  {
    exists i: nat :: start <= i < |h.events| && Taken(h, i)
  }

  ghost predicate SomeGranted(tf: TimeFormat, h: History, start: nat)
    requires |h.states| == |h.events| + 1
  {
    exists i: nat :: start <= i < |h.events| && Taken(h, i)
      && tf.parse(h.events[i].added.name, h.events[i].added.format).Some?
  }

  lemma TakenNext(tf: TimeFormat, h: History, ev: Event, s: State, start: nat)
    requires |h.states| == |h.events| + 1 && start <= |h.events| && ev.Grant?
    ensures SomeTaken(h.Then(ev, s), start) <==> SomeTaken(h, start) || !Duplicate(s.index, ev.added.name)
    ensures SomeGranted(tf, h.Then(ev, s), start) <==>
      (SomeGranted(tf, h, start) || (!Duplicate(s.index, ev.added.name) && tf.parse(ev.added.name, ev.added.format).Some?))
  {
    var more := h.Then(ev, s);
    forall i: nat | start <= i < |h.events|
      ensures Taken(more, i) <==> Taken(h, i)
      ensures more.events[i] == h.events[i]
    {
    }
    assert Taken(more, |h.events|) <==> !Duplicate(s.index, ev.added.name);
  }

  /** The label of format `f` is not known. */
  ghost predicate IsFree(tf: TimeFormat, s: State, now: Time, f: string) {
    !Known(s, tf.format(now, f))
  }

  ghost predicate SomeFree(tf: TimeFormat, s: State, now: Time, order: seq<string>) {
    exists f :: f in order && IsFree(tf, s, now, f)
  }

  /** An addition to this store gives the backup the label of that name, for format `f`. */
  ghost predicate Gives(tf: TimeFormat, s: State, now: Time, f: string, name: string) {
    name == tf.format(now, f) && IsFree(tf, s, now, f) && tf.parse(name, f).Some?
  }

  /** An addition succeeds exactly when some label is free, and gives exactly the free labels that
      parse. */
  ghost predicate IsExact(tf: TimeFormat, cfg: RetentionConfig, s: State, now: Time, ok: bool, added: seq<Label>) {
    && (ok <==> exists f :: f in cfg && IsFree(tf, s, now, f))
    && (forall name :: HasName(added, name) <==> exists f :: f in cfg && Gives(tf, s, now, f, name))
  }

  /** After attempts at the formats in `order`, the added labels are those that the store gives, and
      the store knows what it knew before and those. */
  ghost predicate Accounts(tf: TimeFormat, before: State, now: Time, order: seq<string>, s: State, added: seq<Label>) {
    && "" !in s.entries
    && (forall name :: Known(s, name) <==> Known(before, name) || HasName(added, name))
    && (forall name :: HasName(added, name) <==> exists f :: f in order && Gives(tf, before, now, f, name))
  }

  lemma AccountsNext(tf: TimeFormat, before: State, now: Time, order: seq<string>, s: State, added: seq<Label>,
                     entry: string, l: Label, s': State)
    requires Accounts(tf, before, now, order, s, added) && entry != ""
    requires Next(tf, s, Grant(entry, l, now), s') && l.name == tf.format(now, l.format)
    ensures var taken := !Duplicate(s'.index, l.name);
      && Accounts(tf, before, now, order + [l.format], s', if taken && tf.parse(l.name, l.format).Some? then added + [l] else added)
      && (SomeFree(tf, before, now, order + [l.format]) <==> taken || SomeFree(tf, before, now, order))
  {
    var f0, order' := l.format, order + [l.format];
    var taken := !Duplicate(s'.index, l.name);
    var granted := taken && tf.parse(l.name, f0).Some?;
    var added' := if granted then added + [l] else added;
    RebuiltKnows(s.entries, s.index, s'.index, l.name);
    assert taken <==> !Known(before, l.name) && !HasName(added, l.name);
    assert f0 in order' && forall f :: f in order' <==> f in order || f == f0;
    forall name
      ensures Known(s', name) <==> Known(before, name) || HasName(added', name)
      ensures HasName(added', name) <==> exists f :: f in order' && Gives(tf, before, now, f, name)
    {
      GrantKnows(tf, s, Grant(entry, l, now), s', name);
      HasNameAppend(added, l, name);
      GivenNext(tf, before, now, order, f0, name);
    }
    if HasName(added, l.name) {
      var f :| f in order && Gives(tf, before, now, f, l.name);
      assert IsFree(tf, before, now, f);
    }
  }

  lemma GivenNext(tf: TimeFormat, before: State, now: Time, order: seq<string>, f0: string, name: string)
    ensures (exists f :: f in order + [f0] && Gives(tf, before, now, f, name))
      <==> (exists f :: f in order && Gives(tf, before, now, f, name)) || Gives(tf, before, now, f0, name)
  {
    var order' := order + [f0];
    assert f0 in order' && forall f :: f in order' <==> f in order || f == f0;
  }

  /** After an attempt the store knows what it knew before, and the name if it was granted. */
  lemma GrantKnows(tf: TimeFormat, s: State, ev: Event, s': State, name: string)
    requires ev.Grant? && ev.entry != "" && Next(tf, s, ev, s') && "" !in s.entries
    ensures "" !in s'.entries
    ensures var granted := !Duplicate(s'.index, ev.added.name) && tf.parse(ev.added.name, ev.added.format).Some?;
      Known(s', name) <==> Known(s, name) || (granted && name == ev.added.name)
  {
    RebuiltKnows(s.entries, s.index, s'.index, name);
    if !Duplicate(s'.index, ev.added.name) && tf.parse(ev.added.name, ev.added.format).Some? {
      GrantHeld(s.entries, ev.entry, ev.added, name);
    }
  }

  lemma GrantHeld(es: Entries, e: string, l: Label, name: string)
    ensures Held(es[e := LabelsOf(es, e) + [l]], name) <==> Held(es, name) || name == l.name
  {
    var es' := es[e := LabelsOf(es, e) + [l]];
    GrantHolds(es, e, l, e, name);
    if Held(es, name) {
      var d :| Holds(es, d, name);
      GrantHolds(es, e, l, d, name);
    }
    if Held(es', name) {
      var d :| Holds(es', d, name);
      GrantHolds(es, e, l, d, name);
    }
  }

  /** The attempts at `order` led from one history to the other. */
  ghost predicate IsAttempted(tf: TimeFormat, cfg: RetentionConfig, entry: string, now: Time, past: History, h: History,
                              order: seq<string>)
  {
    && h.IsRun(tf) && (forall f :: f in order ==> f in cfg)
    && h.events == past.events + Attempts(tf, cfg, entry, now, order)
    && past.states <= h.states
  }

  /** They added these labels. */
  ghost predicate IsGranted(tf: TimeFormat, cfg: RetentionConfig, entry: string, now: Time, before: Entries, after: Entries,
                            added: seq<Label>)
  {
    && after == WithLabels(before, entry, added)
    && (forall l :: l in added ==> l.format in cfg && l == LabelFor(tf, cfg, l.format, now))
  }

  /** `count` of them were not refused. */
  ghost predicate IsCounted(tf: TimeFormat, h: History, start: nat, added: seq<Label>, count: int)
    requires |h.states| == |h.events| + 1
  {
    && count >= 0 && (count > 0 <==> SomeTaken(h, start))
    && (added != [] <==> SomeGranted(tf, h, start))
  }

  /** And for named entries it depends on the store before only which ones. */
  ghost predicate IsAccounted(tf: TimeFormat, entry: string, now: Time, before: State, s: State, order: seq<string>,
                              added: seq<Label>, count: int)
  {
    entry != "" && "" !in before.entries ==>
      && Accounts(tf, before, now, order, s, added)
      && (count > 0 <==> SomeFree(tf, before, now, order))
  }

  ghost predicate IsAddition(tf: TimeFormat, cfg: RetentionConfig, entry: string, now: Time, past: History, h: History,
                             order: seq<string>, added: seq<Label>, count: int)
  {
    && past.IsRun(tf)
    && IsAttempted(tf, cfg, entry, now, past, h, order)
    && IsGranted(tf, cfg, entry, now, Last(past.states).entries, Last(h.states).entries, added)
    && IsCounted(tf, h, |past.events|, added, count)
    && IsAccounted(tf, entry, now, Last(past.states), Last(h.states), order, added, count)
  }

  lemma AdditionNext(tf: TimeFormat, cfg: RetentionConfig, entry: string, now: Time, past: History, h: History,
                     order: seq<string>, added: seq<Label>, count: int, f: string, s: State)
    requires IsAddition(tf, cfg, entry, now, past, h, order, added, count) && f in cfg
    requires h.Then(Grant(entry, LabelFor(tf, cfg, f, now), now), s).IsRun(tf)
    ensures var l := LabelFor(tf, cfg, f, now);
      var taken := !Duplicate(s.index, l.name);
      IsAddition(tf, cfg, entry, now, past, h.Then(Grant(entry, l, now), s), order + [f],
                 if taken && tf.parse(l.name, f).Some? then added + [l] else added, if taken then count + 1 else count)
  {
    var l := LabelFor(tf, cfg, f, now);
    var ev := Grant(entry, l, now);
    LastNext(tf, h, ev, s);
    AttemptedNext(tf, cfg, entry, now, past, h, order, f, s);
    GrantedNext(tf, cfg, entry, now, Last(past.states).entries, Last(h.states), added, f, s);
    TakenNext(tf, h, ev, s, |past.events|);
    AccountedNext(tf, entry, now, Last(past.states), Last(h.states), order, added, count, l, s);
  }

  lemma AttemptedNext(tf: TimeFormat, cfg: RetentionConfig, entry: string, now: Time, past: History, h: History,
                      order: seq<string>, f: string, s: State)
    requires IsAttempted(tf, cfg, entry, now, past, h, order) && f in cfg
    requires h.Then(Grant(entry, LabelFor(tf, cfg, f, now), now), s).IsRun(tf)
    ensures IsAttempted(tf, cfg, entry, now, past, h.Then(Grant(entry, LabelFor(tf, cfg, f, now), now), s), order + [f])
  {
    AttemptsAppend(tf, cfg, entry, now, order, f);
  }

  lemma GrantedNext(tf: TimeFormat, cfg: RetentionConfig, entry: string, now: Time, before: Entries, s: State,
                    added: seq<Label>, f: string, s': State)
    requires IsGranted(tf, cfg, entry, now, before, s.entries, added) && f in cfg
    requires Next(tf, s, Grant(entry, LabelFor(tf, cfg, f, now), now), s')
    ensures var l := LabelFor(tf, cfg, f, now);
      IsGranted(tf, cfg, entry, now, before, s'.entries,
                if !Duplicate(s'.index, l.name) && tf.parse(l.name, f).Some? then added + [l] else added)
  {
    WithMoreLabels(before, entry, added, LabelFor(tf, cfg, f, now));
  }

  lemma AccountedNext(tf: TimeFormat, entry: string, now: Time, before: State, s: State, order: seq<string>,
                      added: seq<Label>, count: int, l: Label, s': State)
    requires IsAccounted(tf, entry, now, before, s, order, added, count) && count >= 0
    requires Next(tf, s, Grant(entry, l, now), s') && l.name == tf.format(now, l.format)
    ensures var taken := !Duplicate(s'.index, l.name);
      IsAccounted(tf, entry, now, before, s', order + [l.format],
                  if taken && tf.parse(l.name, l.format).Some? then added + [l] else added, if taken then count + 1 else count)
  {
    if entry != "" && "" !in before.entries {
      AccountsNext(tf, before, now, order, s, added, entry, l, s');
    }
  }

  lemma LastNext(tf: TimeFormat, h: History, ev: Event, s: State)
    requires h.IsRun(tf) && h.Then(ev, s).IsRun(tf)
    ensures Next(tf, Last(h.states), ev, s)
  {
    assert h.Then(ev, s).events[|h.events|] == ev;
  }

  datatype Manager = Manager(retention: RetentionConfig, store: RetentionStore) {

    /** Adds a backup: one attempt for every configured format, in any order, all at one reading of
        the clock. It fails exactly when every attempt was refused as a duplicate. For named entries
        that is: exactly when every label is known already. The backup then gets exactly the free
        labels that parse, whatever the order; so it may succeed and still get none. */
    method Add(entryName: string, now: Time) returns (ok: bool, ghost order: seq<string>, ghost added: seq<Label>)
      requires store.Valid()
      modifies store
      ensures store.Valid()
      ensures forall f :: f in order <==> f in retention
      ensures store.history.events == old(store.history.events) + Attempts(store.tf, retention, entryName, now, order)
      ensures old(store.history.states) <= store.history.states
      ensures store.Entries == WithLabels(old(store.Entries), entryName, added)
      ensures forall l :: l in added ==> l.format in retention && l == LabelFor(store.tf, retention, l.format, now)
      ensures ok <==> SomeTaken(store.history, |old(store.history.events)|)
      ensures added != [] <==> SomeGranted(store.tf, store.history, |old(store.history.events)|)
      ensures entryName != "" && "" !in old(store.Entries) ==>
        IsExact(store.tf, retention, old(store.Now()), now, ok, added)
    {
      var addedLabels := 0;
      var todo := retention.Keys;
      ghost var past, tf := store.history, store.tf;
      order, added := [], [];
      while todo != {}
        invariant todo <= retention.Keys && store.Valid()
        invariant forall f :: f in order <==> f in retention && f !in todo
        invariant IsAddition(tf, retention, entryName, now, past, store.history, order, added, addedLabels)
      {
        var format :| format in todo;
        var l := LabelFor(store.tf, retention, format, now);
        ghost var h := store.history;
        var result := store.AddEntry(entryName, l, now);
        AdditionNext(tf, retention, entryName, now, past, h, order, added, addedLabels, format,
                     State(store.Entries, store.labels));
        if !result.DuplicateLabel? {
          addedLabels := addedLabels + 1;
        }
        if result.Added? {
          added := added + [l];
        }
        order := order + [format];
        todo := todo - {format};
      }
      ok := addedLabels != 0;
    }

    /** Drops the labels that are no longer covered by their retention. */
    method CleanRetentions(now: Time)
      requires store.Valid()
      modifies store
      ensures store.Valid()
      ensures store.Entries == CleanEntries(store.tf, retention, old(store.Entries), now)
      ensures forall e, l ::
        (HoldsLabel(store.Entries, e, l) <==> HoldsLabel(old(store.Entries), e, l) && StaysAt(store.tf, retention, l, now))
      ensures store.history == old(store.history).Then(Clean(retention, now), State(store.Entries, store.labels))
    {
      store.CleanupLabels(retention, now);
    }

    /** The backup closest to and not after the instant; none exactly when no label qualifies, as
        long as no entry has the empty name. */
    method GetClosestOlderBackup(pointInTime: Time) returns (r: Option<string>)
      ensures r.Some? ==> r.value != "" && Answers(store.tf, store.Entries, pointInTime, r.value)
      ensures r.None? ==> Answers(store.tf, store.Entries, pointInTime, "")
      ensures IsClosest(store.tf, store.Entries, pointInTime, if r.Some? then r.value else "")
    {
      var backup := store.FindRetainedBackupForPointInTime(pointInTime);
      r := if backup == "" then None else Some(backup);
    }
  }

  lemma WithMoreLabels(es: Entries, e: string, added: seq<Label>, l: Label)
    ensures WithLabels(WithLabels(es, e, added), e, [l]) == WithLabels(es, e, added + [l])
  {
    if added == [] {
      assert added + [l] == [l];
    } else {
      assert LabelsOf(es, e) + added + [l] == LabelsOf(es, e) + (added + [l]);
    }
  }

  lemma AttemptsAppend(tf: TimeFormat, cfg: RetentionConfig, entry: string, now: Time, order: seq<string>, f: string)
    requires f in cfg && forall g :: g in order ==> g in cfg
    ensures Attempts(tf, cfg, entry, now, order + [f])
      == Attempts(tf, cfg, entry, now, order) + [Grant(entry, LabelFor(tf, cfg, f, now), now)]
  {
  }

  /** The attempts of one `Add` follow the configuration and read the clock once, so a run made of
      them meets the hypotheses of the theorems about runs. */
  lemma AddReadsOnce(tf: TimeFormat, cfg: RetentionConfig, events: seq<Event>, entry: string, now: Time, order: seq<string>)
    requires OnSchedule(tf, cfg, events, now)
    requires forall f :: f in order <==> f in cfg
    ensures OnSchedule(tf, cfg, events + Attempts(tf, cfg, entry, now, order), now)
  {
    var batch := Attempts(tf, cfg, entry, now, order);
    var all := events + batch;
    forall i: nat, g | i < |all| && all[i].Grant? && g in cfg
      ensures Batched(all, i, g)
    {
      if i < |events| {
        assert Batched(events, i, g);
        var j: nat :| AttemptedWith(events, i, j, g);
        assert AttemptedWith(all, i, j, g);
      } else {
        var j: nat :| j < |order| && order[j] == g;
        assert all[|events| + j] == batch[j];
        assert AttemptedWith(all, i, |events| + j, g);
      }
    }
    forall i | 0 <= i < |all|
      ensures Follows(tf, cfg, all[i])
    {
      if i < |events| {
        assert all[i] == events[i];
      } else {
        assert all[i] == batch[i - |events|];
      }
    }
  }

  // ----- Additions at concrete inputs -----

  /** An addition that succeeds although the backup gets no label and is not listed: for every format
      whose name for this time does not parse. */
  method AddWithoutLabel(tf: TimeFormat, format: string, hold: int, entryName: string, now: Time)
    returns (ok: bool, entries: Entries)
    requires entryName != "" && tf.parse(tf.format(now, format), format).None?
    ensures ok && entries == map[]
  {
    ghost var past := History([State(map[], map[])], []);
    var store := new RetentionStore(tf, map[], past);
    var manager := Manager(map[format := hold], store);
    assert RebuiltAt(map[], map[], store.labels, tf.format(now, format));
    ghost var before := State(store.Entries, store.labels);
    assert IsFree(tf, before, now, format);
    ghost var order, added;
    ok, order, added := manager.Add(entryName, now);
    NoNames(added);
    entries := store.Entries;
  }

  lemma NoNames(ls: seq<Label>)
    ensures ls == [] <==> forall name :: !HasName(ls, name)
  {
    if ls != [] {
      assert HasName(ls, ls[0].name);
    }
  }

  lemma AddedHeld(es: Entries, e: string, added: seq<Label>, name: string)
    requires HasName(added, name)
    ensures Holds(WithLabels(es, e, added), e, name)
  {
    var i :| 0 <= i < |added| && added[i].name == name;
    assert (LabelsOf(es, e) + added)[|LabelsOf(es, e)| + i] == added[i];
  }

  /** A second addition at the same time: it fails, and the first one has got everything. */
  method AddTwice(tf: TimeFormat, retention: RetentionConfig, first: string, second: string, now: Time)
    returns (ok1: bool, ok2: bool, entries: Entries)
    requires first != "" && second != "" && first != second
    requires forall f :: f in retention ==> tf.parse(tf.format(now, f), f).Some?
    ensures ok1 <==> retention != map[]
    ensures !ok2 && second !in entries
    ensures first in entries <==> ok1
  {
    ghost var past := History([State(map[], map[])], []);
    var store := new RetentionStore(tf, map[], past);
    var manager := Manager(retention, store);
    ghost var before := State(store.Entries, store.labels);
    forall f | f in retention
      ensures IsFree(tf, before, now, f) && Gives(tf, before, now, f, tf.format(now, f))
    {
      assert RebuiltAt(map[], map[], store.labels, tf.format(now, f));
    }
    ghost var order, added;
    ok1, order, added := manager.Add(first, now);
    NoNames(added);
    forall f | f in retention
      ensures !IsFree(tf, State(store.Entries, store.labels), now, f)
    {
      AddedHeld(map[], first, added, tf.format(now, f));
    }
    ok2, order, added := manager.Add(second, now);
    entries := store.Entries;
  }

  // ----- The default retention -----

  /** How long a period of a default format can last. */
  function LongestPeriod(f: string): (d: int)
    ensures d > 0
  {
    match f
    case "%Y-%m" => MONTH
    case "%Y-w%V" => WEEK
    case "%Y-%m-%d" => DAY
    case "%Y-%m-%dT%H" => HOUR
    case _ => HOUR / 3600
  }

  /** The default retention holds the labels of a format to the end of their period, when a month lasts
      at most 31 days, a week seven days, and so on. Months, days, hours and seconds do; the default
      week format has names for which this fails. */
  lemma DefaultsOutlastPeriods(tf: TimeFormat, f: string)
    requires f in DEFAULT_RETENTION && forall t :: t < PeriodStart(tf, t, f) + LongestPeriod(f)
    ensures OutlastsPeriods(tf, DEFAULT_RETENTION, f)
  {
    assert LongestPeriod(f) <= DEFAULT_RETENTION[f];
  }

  /** Longer periods are held strictly longer. */
  lemma DefaultsOrdered(f: string, g: string)
    requires f in DEFAULT_RETENTION && g in DEFAULT_RETENTION
    ensures LongestPeriod(f) < LongestPeriod(g) ==> DEFAULT_RETENTION[f] < DEFAULT_RETENTION[g]
  {
  }

  /** Of the days, in nanoseconds, the labels of this one and of the six before are live, and of the
      seventh before only at midnight; whatever hold time they were stored with. */
  lemma DailyLabelsLive(tf: TimeFormat, hold: int, now: Time, k: nat)
    requires forall t: Time :: tf.parse(tf.format(t, "%Y-%m-%d"), "%Y-%m-%d") == Some(t - t % 86_400_000_000_000)
    ensures StaysAt(tf, DEFAULT_RETENTION, Label("%Y-%m-%d", hold, tf.format(now - 86_400_000_000_000 * k, "%Y-%m-%d")), now)
      <==> k < 7 || (k == 7 && now % 86_400_000_000_000 == 0)
  {
    var day := now - 86_400_000_000_000 * k;
    assert day % 86_400_000_000_000 == now % 86_400_000_000_000;
    assert DEFAULT_RETENTION["%Y-%m-%d"] == 7 * 86_400_000_000_000;
  }

  /** Of the hours those of this one and the twenty-three before, and of the one before that only on the
      hour. */
  lemma HourlyLabelsLive(tf: TimeFormat, hold: int, now: Time, k: nat)
    requires forall t: Time :: tf.parse(tf.format(t, "%Y-%m-%dT%H"), "%Y-%m-%dT%H") == Some(t - t % 3_600_000_000_000)
    ensures StaysAt(tf, DEFAULT_RETENTION, Label("%Y-%m-%dT%H", hold, tf.format(now - 3_600_000_000_000 * k, "%Y-%m-%dT%H")), now)
      <==> k < 24 || (k == 24 && now % 3_600_000_000_000 == 0)
  {
    var hour := now - 3_600_000_000_000 * k;
    assert hour % 3_600_000_000_000 == now % 3_600_000_000_000;
    assert DEFAULT_RETENTION["%Y-%m-%dT%H"] == 24 * 3_600_000_000_000;
  }

  // A formatting library that meets all assumptions: it names a period by a letter for its format
  // and the number of its first instant.

  function Unary(n: int): string {
    if n < 0 then ['-'] + seq(-n, _ => 'i') else ['+'] + seq(n, _ => 'i')
  }

  function UnaryValue(s: string): int {
    if s != [] && s[0] == '-' then 1 - |s| else |s| - 1
  }

  lemma UnaryReads(n: int)
    ensures UnaryValue(Unary(n)) == n
  {
  }

  function Letter(f: string): char {
    match f
    case "%Y-%m" => 'm'
    case "%Y-w%V" => 'w'
    case "%Y-%m-%d" => 'd'
    case "%Y-%m-%dT%H" => 'h'
    case _ => 's'
  }

  function Floor(t: Time, f: string): Time {
    t - t % LongestPeriod(f)
  }

  lemma FloorMonotone(t: Time, u: Time, f: string)
    ensures t <= u ==> Floor(t, f) <= Floor(u, f)
    ensures Floor(Floor(t, f), f) == Floor(t, f) <= t < Floor(t, f) + LongestPeriod(f)
  {
    var d := LongestPeriod(f);
    if t <= u {
      MultiplesApart(d, t / d, u / d);
    }
    assert (t - t % d) % d == 0 by {
      MultipleOf(d, t / d);
    }
  }

  lemma MultiplesApart(d: int, m: int, n: int)
    requires d > 0 && m <= n
    ensures d * m <= d * n
  {
  }

  lemma MultipleOf(d: int, m: int)
    requires d > 0
    ensures d * m % d == 0
  {
    var q, r := d * m / d, d * m % d;
    assert d * (m - q) == r;
    if m - q >= 1 {
      MultiplesApart(d, 1, m - q);
    } else if m - q <= -1 {
      MultiplesApart(d, m - q, -1);
    }
  }

  function SimpleFormat(): TimeFormat {
    TimeFormat(
      (t: Time, f: string) => [Letter(f)] + Unary(Floor(t, f)),
      (s: string, f: string) => if s != [] then Some(UnaryValue(s[1..])) else None)
  }

  lemma SimpleFormatParses(t: Time, f: string)
    ensures SimpleFormat().parse(SimpleFormat().format(t, f), f) == Some(Floor(t, f))
    ensures PeriodStart(SimpleFormat(), t, f) == Floor(t, f)
  {
    assert ([Letter(f)] + Unary(Floor(t, f)))[1..] == Unary(Floor(t, f));
    UnaryReads(Floor(t, f));
  }

  lemma SimpleNames(t: Time, u: Time, f: string, g: string)
    requires f in DEFAULT_RETENTION && g in DEFAULT_RETENTION
    ensures SimpleFormat().format(t, f) == SimpleFormat().format(u, g) <==> f == g && Floor(t, f) == Floor(u, g)
  {
    var a, b := SimpleFormat().format(t, f), SimpleFormat().format(u, g);
    SimpleFormatParses(t, f);
    SimpleFormatParses(u, g);
    if a == b {
      assert Letter(f) == a[0] == b[0] == Letter(g);
    }
  }

  /** The assumptions about formats contradict neither each other nor the default hold times: an
      invented formatting library meets them all. */
  lemma AssumptionsCanBeMet()
    ensures exists tf :: AreRegular(tf, DEFAULT_RETENTION)
  {
    var tf := SimpleFormat();
    forall f | f in DEFAULT_RETENTION
      ensures NamesPeriods(tf, DEFAULT_RETENTION, f) && OutlastsPeriods(tf, DEFAULT_RETENTION, f)
    {
      SimpleNamesPeriods(f);
      DefaultsOutlastPeriods(tf, f);
    }
    assert AreRegular(tf, DEFAULT_RETENTION);
  }

  lemma SimpleNamesPeriods(f: string)
    requires f in DEFAULT_RETENTION
    ensures NamesPeriods(SimpleFormat(), DEFAULT_RETENTION, f)
    ensures forall t :: t < PeriodStart(SimpleFormat(), t, f) + LongestPeriod(f)
  {
    var tf := SimpleFormat();
    forall t
      ensures PeriodStart(tf, t, f) == Floor(t, f) && tf.parse(tf.format(t, f), f).Some?
      ensures Floor(Floor(t, f), f) == Floor(t, f) <= t < Floor(t, f) + LongestPeriod(f)
    {
      SimpleFormatParses(t, f);
      FloorMonotone(t, t, f);
    }
    forall t, u | t <= u
      ensures PeriodStart(tf, t, f) <= PeriodStart(tf, u, f)
    {
      FloorMonotone(t, u, f);
    }
    forall g, t, u | g in DEFAULT_RETENTION
      ensures tf.format(t, f) == tf.format(u, g) <==> f == g && Floor(t, f) == Floor(u, g)
    {
      SimpleNames(t, u, f, g);
    }
  }
}
