/** The retention store: which backup holds which labels, and an index from label name to backup
    that guards against giving a label to a second backup. */
module RetentionStore {
  import opened Common
  import opened Labels

  // ----- The store as a state machine -----

  datatype State = State(entries: Entries, index: map<string, string>)

  /** What can happen to a store. `Grant` is one attempt to add a label, at the given time. */
  datatype Event =
    | Grant(entry: string, added: Label, time: Time)
    | Clean(config: RetentionConfig, time: Time)
    | Drop(entry: string)
    | Reload

  /** After rebuilding, the index points to a holder of every name that is held; names that are not
      held any more keep what the index said before. */
  ghost predicate RebuiltAt(es: Entries, before: map<string, string>, after: map<string, string>, name: string) {
    if Held(es, name) then name in after && Holds(es, after[name], name)
    else (name in after <==> name in before) && (name in before ==> after[name] == before[name])
  }

  ghost predicate Rebuilt(es: Entries, before: map<string, string>, after: map<string, string>) {
    forall name :: RebuiltAt(es, before, after, name)
  }

  /** The index names another entry for the label; the empty string counts as no entry. */
  predicate Duplicate(index: map<string, string>, name: string) {
    name in index && index[name] != ""
  }

  /** The store knows the name: some entry holds it, or the index says so. */
  ghost predicate Known(s: State, name: string) {
    Held(s.entries, name) || Duplicate(s.index, name)
  }

  /** An index that was just rebuilt names an entry for exactly the known names. */
  lemma RebuiltKnows(es: Entries, before: map<string, string>, after: map<string, string>, name: string)
    requires Rebuilt(es, before, after) && "" !in es
    ensures Duplicate(after, name) <==> Known(State(es, before), name)
  {
    assert RebuiltAt(es, before, after, name);
  }

  function LabelsOf(es: Entries, e: string): seq<Label> {
    if e in es then es[e] else []
  }

  function WithLabels(es: Entries, e: string, added: seq<Label>): Entries {
    if added == [] then es else es[e := LabelsOf(es, e) + added]
  }

  ghost predicate Next(tf: TimeFormat, s: State, ev: Event, s': State) {
    match ev
    case Grant(e, l, _) =>
      && Rebuilt(s.entries, s.index, s'.index)
      && s'.entries ==
           if Duplicate(s'.index, l.name) || tf.parse(l.name, l.format).None? then s.entries
           else WithLabels(s.entries, e, [l])
    case Clean(cfg, t) =>
      && s'.entries == CleanEntries(tf, cfg, s.entries, t)
      && Rebuilt(s'.entries, s.index, s'.index)
    case Drop(e) =>
      && s'.entries == s.entries - {e}
      && Rebuilt(s'.entries, s.index, s'.index)
    case Reload =>
      && s'.entries == s.entries
      && Rebuilt(s'.entries, map[], s'.index)
  }

  /** A run: states and the events between them. */
  datatype History = History(states: seq<State>, events: seq<Event>) {
    ghost predicate IsRun(tf: TimeFormat) {
      && |states| == |events| + 1
      && forall i {:trigger events[i]} :: 0 <= i < |events| ==> Next(tf, states[i], events[i], states[i + 1])
    }

    ghost function Then(ev: Event, s: State): History {
      History(states + [s], events + [ev])
    }
  }

  lemma ExtendRun(tf: TimeFormat, h: History, ev: Event, s: State)
    requires h.IsRun(tf) && Next(tf, Last(h.states), ev, s)
    ensures h.Then(ev, s).IsRun(tf) && Last(h.Then(ev, s).states) == s
  {
  }

  // ----- The store as the code keeps it -----

  datatype AddResult = Added | DuplicateLabel | InvalidLabel

  class RetentionStore {
    const tf: TimeFormat
    var Entries: Entries
    var labels: map<string, string>
    ghost var history: History   // everything that happened to these labels, saved and loaded in between

    /** A store as loaded from its stored entries. It continues the history of the store that saved
        them. */
    constructor (tf: TimeFormat, loaded: Entries, ghost past: History)
      requires past.IsRun(tf) && Last(past.states).entries == loaded
      ensures Valid() && this.tf == tf && Entries == loaded
      ensures Rebuilt(loaded, map[], labels) && history == past.Then(Reload, State(loaded, labels))
    {
      this.tf, Entries, labels, history := tf, loaded, map[], past;
      new;
      RebuildLabels();
      ExtendRun(tf, past, Reload, State(Entries, labels));
      history := past.Then(Reload, State(Entries, labels));
    }

    ghost predicate Valid()
      reads this
    {
      history.IsRun(tf) && Last(history.states) == State(Entries, labels)
    }

    /** The entries and the index as they are. */
    function Now(): State
      reads this
    {
      State(Entries, labels)
    }

    /** Enters every held label into the index and removes nothing from it. */
    method RebuildLabels()
      modifies this`labels
      ensures Rebuilt(Entries, old(labels), labels)
    {
      var todo := Entries.Keys;
      ghost var part: Entries := map[];
      while todo != {}
        invariant todo <= Entries.Keys
        invariant part == map e | e in Entries && e !in todo :: Entries[e]
        invariant Rebuilt(part, old(labels), labels)
      {
        var e :| e in todo;
        var ls := Entries[e];
        StartEntry(part, e, old(labels), labels);
        for i := 0 to |ls|
          invariant Rebuilt(part[e := ls[..i]], old(labels), labels)
        {
          EnterLabel(part, e, ls[..i], ls[i], old(labels), labels);
          assert ls[..i + 1] == ls[..i] + [ls[i]];
          labels := labels[ls[i].name := e];
        }
        assert ls[..|ls|] == ls;
        part := part[e := ls];
        todo := todo - {e};
      }
      assert part == Entries;
    }

    /** Adds the label to the entry unless the index knows its name or it does not parse. */
    method AddEntry(entry: string, added: Label, ghost time: Time) returns (r: AddResult)
      requires Valid()
      modifies this
      ensures Valid() && history == old(history).Then(Grant(entry, added, time), State(Entries, labels))
      ensures r.DuplicateLabel? <==> Duplicate(labels, added.name)
      ensures r.DuplicateLabel? <==> added.name in labels && labels[added.name] != ""
      ensures "" !in old(Entries) ==> (r.DuplicateLabel? <==> Known(State(old(Entries), old(labels)), added.name))
      ensures r.InvalidLabel? <==> !Duplicate(labels, added.name) && tf.parse(added.name, added.format).None?
      ensures Entries == if r.Added? then WithLabels(old(Entries), entry, [added]) else old(Entries)
    {
      RebuildLabels();
      if "" !in Entries {
        RebuiltKnows(Entries, old(labels), labels, added.name);
      }
      if added.name in labels && labels[added.name] != "" {
        r := DuplicateLabel;
      } else if tf.parse(added.name, added.format).None? {
        r := InvalidLabel;
      } else {
        Entries := Entries[entry := LabelsOf(Entries, entry) + [added]];
        r := Added;
      }
      ExtendRun(tf, history, Grant(entry, added, time), State(Entries, labels));
      history := history.Then(Grant(entry, added, time), State(Entries, labels));
    }

    method RetainedLabels(ls: seq<Label>, retention: RetentionConfig, now: Time) returns (retained: seq<Label>)
      ensures retained == LiveLabels(tf, retention, ls, now)
    {
      retained := [];
      for i := 0 to |ls|
        invariant retained == LiveLabels(tf, retention, ls[..i], now)
      {
        assert Init(ls[..i + 1]) == ls[..i];
        var labelTime := tf.parse(ls[i].name, ls[i].format);
        if labelTime.None? {
          continue;
        }
        var retainFor := ls[i].hold;
        if ls[i].format in retention && retention[ls[i].format] > 0 {
          retainFor := retention[ls[i].format];
        }
        if labelTime.value + retainFor < now {
          continue;
        }
        retained := retained + [ls[i]];
      }
      assert ls[..|ls|] == ls;
    }

    /** Removes labels that are no longer live; entries stay, even without labels. */
    method CleanupLabels(retention: RetentionConfig, now: Time)
      requires Valid()
      modifies this
      ensures Valid() && history == old(history).Then(Clean(retention, now), State(Entries, labels))
      ensures Entries == CleanEntries(tf, retention, old(Entries), now)
      ensures Entries.Keys == old(Entries).Keys
      ensures forall e, l :: HoldsLabel(Entries, e, l) <==> HoldsLabel(old(Entries), e, l) && StaysAt(tf, retention, l, now)
    {
      var todo := Entries.Keys;
      while todo != {}
        invariant todo <= Entries.Keys == old(Entries).Keys && labels == old(labels) && history == old(history)
        invariant forall e :: e in Entries ==>
          Entries[e] == if e in todo then old(Entries)[e] else LiveLabels(tf, retention, old(Entries)[e], now)
      {
        var entry :| entry in todo;
        var retained := RetainedLabels(Entries[entry], retention, now);
        Entries := Entries[entry := retained];
        todo := todo - {entry};
      }
      assert Entries == CleanEntries(tf, retention, old(Entries), now);
      CleanedHolds(tf, retention, old(Entries), now);
      RebuildLabels();
      ExtendRun(tf, history, Clean(retention, now), State(Entries, labels));
      history := history.Then(Clean(retention, now), State(Entries, labels));
    }

    /** Deletes the entry; its names stay in the index. */
    method Remove(entry: string)
      requires Valid()
      modifies this
      ensures Valid() && history == old(history).Then(Drop(entry), State(Entries, labels))
      ensures Entries == old(Entries) - {entry}
    {
      Entries := Entries - {entry};
      RebuildLabels();
      ExtendRun(tf, history, Drop(entry), State(Entries, labels));
      history := history.Then(Drop(entry), State(Entries, labels));
    }

    /** Finds the entry with the label closest to, and not after, the given instant, going through
        entries in any order. Durations saturate at `MAX_DURATION`. */
    method FindRetainedBackupForPointInTime(pointInTime: Time) returns (closest: string)
      ensures Answers(tf, Entries, pointInTime, closest)
      ensures IsClosest(tf, Entries, pointInTime, closest)
    {
      closest := "";
      var distance := MAX_DURATION;
      var todo := Entries.Keys;
      ghost var seen: Entries := map[];
      while todo != {}
        invariant todo <= Entries.Keys
        invariant seen == map e | e in Entries && e !in todo :: Entries[e]
        invariant Closest(tf, seen, pointInTime, closest, distance)
      {
        var entry :| entry in todo;
        var ls := Entries[entry];
        ClosestStart(tf, seen, entry, pointInTime, closest, distance);
        for i := 0 to |ls|
          invariant Closest(tf, seen[entry := ls[..i]], pointInTime, closest, distance)
        {
          ClosestStep(tf, seen, entry, ls[..i], ls[i], pointInTime, closest, distance);
          assert ls[..i + 1] == ls[..i] + [ls[i]];
          var labelTime := tf.parse(ls[i].name, ls[i].format);
          if labelTime.None? || labelTime.value > pointInTime {
            continue;
          }
          var dist := Saturated(pointInTime - labelTime.value);
          if dist >= distance {
            continue;
          }
          closest, distance := entry, dist;
        }
        assert ls[..|ls|] == ls;
        seen := seen[entry := ls];
        todo := todo - {entry};
      }
      assert seen == Entries;
      AnswersAreClosest(tf, Entries, pointInTime, closest);
    }

    predicate IsEntryRetained(entry: string)
      reads this
    {
      entry in Entries && |Entries[entry]| > 0
    }

    /** Lists the entries that still have labels, or those that have none, in any order. */
    method ListEntries(retained: bool) returns (out: seq<string>)
      ensures forall e :: e in out <==> e in Entries && IsEntryRetained(e) == retained
      ensures forall i, j :: 0 <= i < j < |out| ==> out[i] != out[j]
    {
      var todo := Entries.Keys;
      out := [];
      while todo != {}
        invariant todo <= Entries.Keys
        invariant forall e :: e in out <==> e in Entries && e !in todo && IsEntryRetained(e) == retained
        invariant forall i, j :: 0 <= i < j < |out| ==> out[i] != out[j]
      {
        var e :| e in todo;
        if IsEntryRetained(e) == retained {
          out := out + [e];
        }
        todo := todo - {e};
      }
    }
  }

  // ----- Point-in-time search -----

  const MAX_DURATION := 0x7fff_ffff_ffff_ffff

  function Saturated(d: int): int {
    if d > MAX_DURATION then MAX_DURATION else d
  }

  /** A label that can be chosen for an instant: not after it, and less than the greatest
      representable duration before it. */
  predicate Candidate(tf: TimeFormat, l: Label, pit: Time) {
    var t := tf.parse(l.name, l.format);
    t.Some? && t.value <= pit && pit - t.value < MAX_DURATION
  }

  function Distance(tf: TimeFormat, l: Label, pit: Time): int
    requires Candidate(tf, l, pit)
  {
    pit - tf.parse(l.name, l.format).value
  }

  ghost predicate HoldsLabel(es: Entries, e: string, l: Label) {
    e in es && l in es[e]
  }

  /** After a cleanup every entry holds exactly those of its labels that stay. */
  lemma CleanedHolds(tf: TimeFormat, cfg: RetentionConfig, es: Entries, now: Time)
    ensures forall e, l :: HoldsLabel(CleanEntries(tf, cfg, es, now), e, l) <==> HoldsLabel(es, e, l) && StaysAt(tf, cfg, l, now)
  {
    forall e, l
      ensures HoldsLabel(CleanEntries(tf, cfg, es, now), e, l) <==> HoldsLabel(es, e, l) && StaysAt(tf, cfg, l, now)
    {
      LiveIsStaying(tf, cfg, l, now);
      if e in es {
        LiveLabelsAre(tf, cfg, es[e], now, l);
      }
    }
  }

  /** `r` holds a candidate that no other candidate is closer than; without candidates it is "". */
  ghost predicate Answers(tf: TimeFormat, es: Entries, pit: Time, r: string) {
    if exists e, l :: HoldsLabel(es, e, l) && Candidate(tf, l, pit) then
      exists l :: HoldsLabel(es, r, l) && Candidate(tf, l, pit)
        && forall e', l' :: HoldsLabel(es, e', l') && Candidate(tf, l', pit) ==>
             Distance(tf, l, pit) <= Distance(tf, l', pit)
    else r == ""
  }

  /** What an answer is, in so many words: an entry with a label of the latest time not after the
      instant, or "" when no label has a time not after it, or none that is less than 2^63 - 1
      nanoseconds before it. */
  ghost predicate IsClosest(tf: TimeFormat, es: Entries, pit: Time, r: string) {
    if exists e, l :: HoldsLabel(es, e, l) && IsNear(tf, l, pit) then
      exists l :: HoldsLabel(es, r, l) && IsNear(tf, l, pit)
        && forall e', l' :: HoldsLabel(es, e', l') ==>
             (tf.parse(l'.name, l'.format).Some? && tf.parse(l'.name, l'.format).value <= pit ==>
               tf.parse(l'.name, l'.format).value <= tf.parse(l.name, l.format).value)
    else r == ""
  }

  ghost predicate IsNear(tf: TimeFormat, l: Label, pit: Time) {
    match tf.parse(l.name, l.format)
    case None => false
    case Some(t) => t <= pit && pit - t < 9_223_372_036_854_775_807
  }

  lemma AnswersAreClosest(tf: TimeFormat, es: Entries, pit: Time, r: string)
    requires Answers(tf, es, pit, r)
    ensures IsClosest(tf, es, pit, r)
  {
    forall l: Label
      ensures IsNear(tf, l, pit) <==> Candidate(tf, l, pit)
    {
    }
    if exists e, l :: HoldsLabel(es, e, l) && Candidate(tf, l, pit) {
      var l :| HoldsLabel(es, r, l) && Candidate(tf, l, pit)
        && forall e', l' :: HoldsLabel(es, e', l') && Candidate(tf, l', pit) ==> Distance(tf, l, pit) <= Distance(tf, l', pit);
      assert IsNear(tf, l, pit);
      forall e', l' | HoldsLabel(es, e', l') && tf.parse(l'.name, l'.format).Some? && tf.parse(l'.name, l'.format).value <= pit
        ensures tf.parse(l'.name, l'.format).value <= tf.parse(l.name, l.format).value
      {
      }
    }
  }

  /** What the search knows about the labels it has seen. */
  ghost predicate Closest(tf: TimeFormat, es: Entries, pit: Time, r: string, distance: int) {
    && distance <= MAX_DURATION
    && (forall e, l :: HoldsLabel(es, e, l) && Candidate(tf, l, pit) ==> distance <= Distance(tf, l, pit))
    && (if distance == MAX_DURATION then r == ""
        else exists l :: HoldsLabel(es, r, l) && Candidate(tf, l, pit) && Distance(tf, l, pit) == distance)
  }

  lemma ClosestStart(tf: TimeFormat, seen: Entries, e: string, pit: Time, r: string, distance: int)
    requires e !in seen && Closest(tf, seen, pit, r, distance)
    ensures Closest(tf, seen[e := []], pit, r, distance)
  {
    var more := seen[e := []];
    assert forall d, m :: HoldsLabel(more, d, m) <==> HoldsLabel(seen, d, m);
  }

  lemma ClosestStep(tf: TimeFormat, seen: Entries, e: string, ls: seq<Label>, l: Label,
                    pit: Time, r: string, distance: int)
    requires e !in seen && Closest(tf, seen[e := ls], pit, r, distance)
    ensures var more := seen[e := ls + [l]];
      if Candidate(tf, l, pit) && Distance(tf, l, pit) < distance
      then Closest(tf, more, pit, e, Distance(tf, l, pit))
      else Closest(tf, more, pit, r, distance)
  {
    var before, more := seen[e := ls], seen[e := ls + [l]];
    assert forall d, m :: HoldsLabel(more, d, m) <==> HoldsLabel(before, d, m) || (d == e && m == l);
  }

  // ----- Rebuilding the index, label by label -----

  lemma StartEntry(part: Entries, e: string, before: map<string, string>, after: map<string, string>)
    requires Rebuilt(part, before, after) && e !in part
    ensures Rebuilt(part[e := []], before, after)
  {
    var more := part[e := []];
    forall name: string
      ensures RebuiltAt(more, before, after, name)
    {
      assert RebuiltAt(part, before, after, name);
      SameHolders(part, more, name);
    }
  }

  lemma SameHolders(a: Entries, b: Entries, name: string)
    requires forall e :: Holds(a, e, name) <==> Holds(b, e, name)
    ensures Held(a, name) <==> Held(b, name)
  {
    if Held(a, name) {
      var e :| Holds(a, e, name);
      assert Holds(b, e, name);
    }
    if Held(b, name) {
      var e :| Holds(b, e, name);
      assert Holds(a, e, name);
    }
  }

  lemma EnterLabel(part: Entries, e: string, ls: seq<Label>, l: Label,
                   before: map<string, string>, after: map<string, string>)
    requires e !in part && Rebuilt(part[e := ls], before, after)
    ensures Rebuilt(part[e := ls + [l]], before, after[l.name := e])
  {
    var es, es', after' := part[e := ls], part[e := ls + [l]], after[l.name := e];
    forall name: string
      ensures RebuiltAt(es', before, after', name)
    {
      assert RebuiltAt(es, before, after, name);
      HasNameAppend(ls, l, name);
      if name == l.name {
        assert Holds(es', e, name);
      } else {
        SameHolders(es, es', name);
      }
    }
  }
}
