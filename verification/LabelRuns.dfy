/** What holds over whole runs of a retention store: whose label is whose, for how long, and that
    the point-in-time search has one answer. */
module LabelRuns {
  import opened Common
  import opened Labels
  import opened RetentionStore

  // ----- The index and the entries -----

  ghost predicate WellFormed(s: State) {
    UniqueNames(s.entries) && "" !in s.entries
  }

  lemma CleanHolds(tf: TimeFormat, cfg: RetentionConfig, es: Entries, now: Time, e: string, name: string)
    ensures Holds(CleanEntries(tf, cfg, es, now), e, name)
      <==> e in es && exists l :: l in es[e] && l.name == name && Live(tf, cfg, l, now)
  {
    if e in es {
      var live := LiveLabels(tf, cfg, es[e], now);
      if HasName(live, name) {
        var i :| 0 <= i < |live| && live[i].name == name;
        LiveLabelsAre(tf, cfg, es[e], now, live[i]);
      }
      if l :| l in es[e] && l.name == name && Live(tf, cfg, l, now) {
        LiveLabelsAre(tf, cfg, es[e], now, l);
        var i :| 0 <= i < |live| && live[i] == l;
        assert live[i].name == name;
      }
    }
  }

  lemma GrantHolds(es: Entries, e: string, l: Label, e': string, name: string)
    ensures Holds(es[e := LabelsOf(es, e) + [l]], e', name)
      <==> Holds(es, e', name) || (e' == e && name == l.name)
  {
    HasNameAppend(LabelsOf(es, e), l, name);
  }

  lemma CleanSubset(tf: TimeFormat, cfg: RetentionConfig, es: Entries, now: Time, e: string, name: string)
    requires Holds(CleanEntries(tf, cfg, es, now), e, name)
    ensures Holds(es, e, name)
  {
    CleanHolds(tf, cfg, es, now, e, name);
    var l :| l in es[e] && l.name == name && Live(tf, cfg, l, now);
    var i :| 0 <= i < |es[e]| && es[e][i] == l;
  }

  /** Whatever happens to a store, no label name is ever held by two entries. */
  lemma NamesStayUnique(tf: TimeFormat, s: State, ev: Event, s': State)
    requires WellFormed(s) && Next(tf, s, ev, s') && (ev.Grant? ==> ev.entry != "")
    ensures WellFormed(s')
  {
    forall e1, e2, name | Holds(s'.entries, e1, name) && Holds(s'.entries, e2, name)
      ensures e1 == e2
    {
      match ev
      case Grant(e, l, _) =>
        if s'.entries != s.entries {
          GrantHolds(s.entries, e, l, e1, name);
          GrantHolds(s.entries, e, l, e2, name);
          if name == l.name {
            GrantedNameWasFree(tf, s, ev, s');
          }
        }
      case Clean(cfg, t) =>
        CleanSubset(tf, cfg, s.entries, t, e1, name);
        CleanSubset(tf, cfg, s.entries, t, e2, name);
      case Drop(e) =>
        assert Holds(s.entries, e1, name) && Holds(s.entries, e2, name);
      case Reload =>
    }
  }

  /** Entries are named: the empty string stands for no entry. */
  ghost predicate Named(events: seq<Event>) {
    forall i :: 0 <= i < |events| && events[i].Grant? ==> events[i].entry != ""
  }

  /** Over every run from a well-formed store: no label name is ever held by two entries. */
  lemma {:induction false} NamesAlwaysUnique(tf: TimeFormat, h: History, i: nat)
    requires h.IsRun(tf) && WellFormed(h.states[0]) && Named(h.events) && i < |h.states|
    ensures WellFormed(h.states[i])
  {
    if i != 0 {
      NamesAlwaysUnique(tf, h, i - 1);
      assert Next(tf, h.states[i - 1], h.events[i - 1], h.states[i]);
      NamesStayUnique(tf, h.states[i - 1], h.events[i - 1], h.states[i]);
    }
  }

  /** A label that is granted was not held by any entry: the index covers all held labels when the
      duplicate check is made. */
  lemma GrantedNameWasFree(tf: TimeFormat, s: State, ev: Event, s': State)
    requires ev.Grant? && Next(tf, s, ev, s') && "" !in s.entries && s'.entries != s.entries
    ensures !Held(s.entries, ev.added.name)
  {
    assert RebuiltAt(s.entries, s.index, s'.index, ev.added.name);
  }

  /** The index knows no names but held ones. */
  ghost predicate IndexExact(s: State) {
    forall name :: name in s.index ==> Held(s.entries, name)
  }

  /** Exactly when an attempt is refused as a duplicate: some entry holds the name, or the index
      still remembers it from an entry that has lost it. */
  lemma DuplicateExactly(tf: TimeFormat, s: State, ev: Event, s': State)
    requires ev.Grant? && Next(tf, s, ev, s') && "" !in s.entries
    ensures Duplicate(s'.index, ev.added.name) <==> Known(s, ev.added.name)
    ensures IndexExact(s) ==> (Duplicate(s'.index, ev.added.name) <==> Held(s.entries, ev.added.name))
  {
    var name := ev.added.name;
    RebuiltKnows(s.entries, s.index, s'.index, name);
    if name in s.index && IndexExact(s) {
      assert Held(s.entries, name);
    }
  }

  /** Loading makes the index exact, and attempts keep it so. */
  lemma IndexStaysExact(tf: TimeFormat, s: State, ev: Event, s': State)
    requires Next(tf, s, ev, s')
    requires ev.Reload? || (ev.Grant? && IndexExact(s))
    ensures IndexExact(s')
  {
    forall name | name in s'.index
      ensures Held(s'.entries, name)
    {
      if ev.Reload? {
        assert RebuiltAt(s'.entries, map[], s'.index, name);
      } else {
        assert RebuiltAt(s.entries, s.index, s'.index, name);
        assert Held(s.entries, name);
        var e :| Holds(s.entries, e, name);
        GrantHolds(s.entries, ev.entry, ev.added, e, name);
        assert Holds(s'.entries, e, name);
      }
    }
  }

  /** In every run, from any loading until the next cleanup or removal, the index holds just the held
      names. */
  lemma {:induction false} IndexExactUntilCleanup(tf: TimeFormat, h: History, loaded: nat, i: nat)
    requires h.IsRun(tf) && loaded < i < |h.states| && h.events[loaded].Reload?
    requires forall j :: loaded < j < i ==> h.events[j].Grant? || h.events[j].Reload?
    ensures IndexExact(h.states[i])
  {
    if i - 1 != loaded {
      IndexExactUntilCleanup(tf, h, loaded, i - 1);
    }
    assert Next(tf, h.states[i - 1], h.events[i - 1], h.states[i]);
    IndexStaysExact(tf, h.states[i - 1], h.events[i - 1], h.states[i]);
  }

  /** From loading until the next cleanup or removal an attempt is refused exactly when some entry
      holds the name. */
  lemma RefusedExactlyWhenHeld(tf: TimeFormat, h: History, loaded: nat, i: nat)
    requires h.IsRun(tf) && WellFormed(h.states[0]) && Named(h.events)
    requires loaded < i < |h.events| && h.events[loaded].Reload? && h.events[i].Grant?
    requires forall j :: loaded < j < i ==> h.events[j].Grant? || h.events[j].Reload?
    ensures Duplicate(h.states[i + 1].index, h.events[i].added.name)
      <==> Held(h.states[i].entries, h.events[i].added.name)
  {
    IndexExactUntilCleanup(tf, h, loaded, i);
    NamesAlwaysUnique(tf, h, i);
    assert Next(tf, h.states[i], h.events[i], h.states[i + 1]);
    DuplicateExactly(tf, h.states[i], h.events[i], h.states[i + 1]);
  }

  /** A first addition to a store that was just loaded: it is refused exactly when some entry holds
      the name, and rejected as invalid exactly when nobody holds it and it does not parse. */
  method AddToLoaded(tf: TimeFormat, loaded: Entries, entry: string, added: Label, ghost time: Time)
    returns (r: AddResult, entries: Entries)
    requires "" !in loaded
    ensures r.DuplicateLabel? <==> Held(loaded, added.name)
    ensures r.InvalidLabel? <==> !Held(loaded, added.name) && tf.parse(added.name, added.format).None?
    ensures entries == if r.Added? then WithLabels(loaded, entry, [added]) else loaded
  {
    ghost var past := History([State(loaded, map[])], []);
    var store := new RetentionStore(tf, loaded, past);
    IndexStaysExact(tf, past.states[0], Reload, State(store.Entries, store.labels));
    r := store.AddEntry(entry, added, time);
    entries := store.Entries;
  }

  /** After a removal the index may be wrong: here nobody holds the name, yet adding it is refused. */
  lemma StaleIndexRefuses(tf: TimeFormat, t: Time)
    ensures exists s, dropped, s' ::
      && WellFormed(s) && IndexExact(s)
      && Next(tf, s, Drop("a"), dropped)
      && !Held(dropped.entries, "day")
      && Next(tf, dropped, Grant("b", Label("f", 1, "day"), t), s')
      && s'.entries == dropped.entries
  {
    var l := Label("f", 1, "day");
    var s := State(map["a" := [l]], map["day" := "a"]);
    var dropped := State(map[], map["day" := "a"]);
    assert s.entries - {"a"} == dropped.entries;
    assert s.entries["a"][0].name == "day";
    assert Holds(s.entries, "a", "day");
    forall name: string
      ensures RebuiltAt(dropped.entries, s.index, dropped.index, name)
    {
    }
    assert Next(tf, s, Drop("a"), dropped);
    assert Next(tf, dropped, Grant("b", l, t), dropped);
  }

  // ----- Runs in which the configuration changes -----

  lemma HeldNext(tf: TimeFormat, s: State, ev: Event, s': State, e: string, l: Label)
    requires Next(tf, s, ev, s') && !(ev.Drop? && ev.entry == e) && !(ev.Grant? && ev.entry == e && ev.added == l)
    ensures HoldsLabel(s'.entries, e, l)
      <==> HoldsLabel(s.entries, e, l) && (ev.Clean? ==> StaysAt(tf, ev.config, l, ev.time))
  {
    if ev.Clean? {
      CleanedHolds(tf, ev.config, s.entries, ev.time);
    }
  }

  /** Over every run, whatever configuration each cleanup has: an entry still holds a label exactly
      when the label stayed at every cleanup in between, under the configuration of that cleanup, and
      its own hold time where that says nothing. */
  lemma {:induction false} LabelSurvivesExactly(tf: TimeFormat, h: History, e: string, l: Label, i: nat, j: nat)
    requires h.IsRun(tf) && i <= j < |h.states| && HoldsLabel(h.states[i].entries, e, l)
    requires forall k :: i <= k < j ==>
      !(h.events[k].Drop? && h.events[k].entry == e)
      && !(h.events[k].Grant? && h.events[k].entry == e && h.events[k].added == l)
    ensures HoldsLabel(h.states[j].entries, e, l)
      <==> forall k :: i <= k < j && h.events[k].Clean? ==> StaysAt(tf, h.events[k].config, l, h.events[k].time)
    decreases j
  {
    if i != j {
      LabelSurvivesExactly(tf, h, e, l, i, j - 1);
      assert Next(tf, h.states[j - 1], h.events[j - 1], h.states[j]);
      HeldNext(tf, h.states[j - 1], h.events[j - 1], h.states[j], e, l);
    }
  }

  // ----- Runs with one configuration and a clock that does not go back -----

  ghost predicate IsTimed(ev: Event) {
    ev.Grant? || ev.Clean?
  }

  ghost function TimeOf(ev: Event): Time
    requires IsTimed(ev)
  {
    match ev
    case Grant(_, _, t) => t
    case Clean(_, t) => t
  }

  /** The event follows the configuration: labels carry its hold time and are named after the time
      of the attempt; cleanups use it. */
  ghost predicate Follows(tf: TimeFormat, cfg: RetentionConfig, ev: Event) {
    match ev
    case Grant(e, l, t) =>
      l.format in cfg && l.hold == cfg[l.format] && l.name == tf.format(t, l.format)
    case Clean(c, _) => c == cfg
    case Drop(_) => true
    case Reload => true
  }

  /** A run from the empty store; `Reload` stands for saving the store and loading it again. */
  ghost predicate IsSerial(tf: TimeFormat, cfg: RetentionConfig, h: History) {
    && h.IsRun(tf) && h.states[0] == State(map[], map[])
    && (forall i :: 0 <= i < |h.events| ==> Follows(tf, cfg, h.events[i]))
    && Named(h.events)
    && (forall i, j :: 0 <= i <= j < |h.events| && IsTimed(h.events[i]) && IsTimed(h.events[j]) ==>
      TimeOf(h.events[i]) <= TimeOf(h.events[j]))
  }

  /** Nobody is removed while holding the label of that name. */
  ghost predicate HolderStays(h: History, name: string)
    requires |h.states| == |h.events| + 1
  {
    forall i :: 0 <= i < |h.events| && h.events[i].Drop? ==>
      !Holds(h.states[i].entries, h.events[i].entry, name)
  }

  ghost function Before(h: History): History
    requires h.events != [] && h.states != []
  {
    History(Init(h.states), Init(h.events))
  }

  /** The event is an attempt at the label of that format and name. */
  ghost predicate IsGrantOf(ev: Event, f: string, name: string) {
    ev.Grant? && ev.added.format == f && ev.added.name == name
  }

  /** The first attempt at a label. */
  ghost function FirstGrant(events: seq<Event>, f: string, name: string): (r: Option<nat>)
    ensures r.Some? ==> r.value < |events| && IsGrantOf(events[r.value], f, name)
    ensures r.Some? ==> forall i :: 0 <= i < r.value ==> !IsGrantOf(events[i], f, name)
    ensures r.None? ==> forall i :: 0 <= i < |events| ==> !IsGrantOf(events[i], f, name)
  {
    if events == [] then None
    else
      var earlier := FirstGrant(Init(events), f, name);
      if earlier.Some? then earlier
      else if IsGrantOf(Last(events), f, name) then Some(|events| - 1)
      else None
  }

  ghost predicate CleanedAfter(events: seq<Event>, t: Time) {
    exists i :: 0 <= i < |events| && events[i].Clean? && t < events[i].time
  }

  /** Every stored label carries the configuration's hold time, reads as a time and is the name of
      some time. */
  ghost predicate IsProper(tf: TimeFormat, cfg: RetentionConfig, l: Label) {
    && l.format in cfg && l.hold == cfg[l.format] && tf.parse(l.name, l.format).Some?
    && exists t :: l.name == tf.format(t, l.format)
  }

  ghost predicate AllProper(tf: TimeFormat, cfg: RetentionConfig, es: Entries) {
    forall e, l :: HoldsLabel(es, e, l) ==> IsProper(tf, cfg, l)
  }

  lemma ProperStep(tf: TimeFormat, cfg: RetentionConfig, s: State, ev: Event, s': State)
    requires AllProper(tf, cfg, s.entries) && Next(tf, s, ev, s') && Follows(tf, cfg, ev)
    ensures AllProper(tf, cfg, s'.entries)
  {
    forall e, l | HoldsLabel(s'.entries, e, l)
      ensures IsProper(tf, cfg, l)
    {
      match ev
      case Grant(e0, l0, _) =>
        assert HoldsLabel(s.entries, e, l) || l == l0;
      case Clean(c, t) =>
        LiveLabelsAre(tf, c, s.entries[e], t, l);
        assert HoldsLabel(s.entries, e, l);
      case Drop(_) =>
        assert HoldsLabel(s.entries, e, l);
      case Reload =>
    }
  }

  lemma BeforeSerial(tf: TimeFormat, cfg: RetentionConfig, h: History)
    requires IsSerial(tf, cfg, h) && h.events != []
    ensures IsSerial(tf, cfg, Before(h))
    ensures Next(tf, Last(Before(h).states), Last(h.events), Last(h.states))
    ensures Follows(tf, cfg, Last(h.events))
  {
    var b := Before(h);
    forall i {:trigger b.events[i]} | 0 <= i < |b.events|
      ensures Next(tf, b.states[i], b.events[i], b.states[i + 1])
    {
      assert b.events[i] == h.events[i];
    }
    assert Last(h.events) == h.events[|h.events| - 1];
  }

  lemma {:induction false} AlwaysProper(tf: TimeFormat, cfg: RetentionConfig, h: History)
    requires h.IsRun(tf) && h.states[0] == State(map[], map[])
    requires forall i :: 0 <= i < |h.events| ==> Follows(tf, cfg, h.events[i])
    ensures AllProper(tf, cfg, Last(h.states).entries)
    decreases |h.events|
  {
    if h.events != [] {
      var b, n := Before(h), |h.events| - 1;
      forall i {:trigger b.events[i]} | 0 <= i < |b.events|
        ensures Next(tf, b.states[i], b.events[i], b.states[i + 1])
      {
        assert b.events[i] == h.events[i];
      }
      AlwaysProper(tf, cfg, b);
      assert Next(tf, h.states[n], h.events[n], h.states[n + 1]) && Follows(tf, cfg, h.events[n]);
      ProperStep(tf, cfg, h.states[n], h.events[n], h.states[n + 1]);
    }
  }

  // ----- The first attempt owns the label -----

  /** The label of that name is held by `owner` and by nobody else, and the index does not say
      otherwise. Nobody owns a label that was never attempted. */
  ghost predicate LabelState(s: State, name: string, owner: Option<string>, held: bool) {
    && (forall e :: Holds(s.entries, e, name) <==> held && owner == Some(e))
    && (name in s.index ==> owner == Some(s.index[name]))
  }

  lemma GrantStep(tf: TimeFormat, s: State, ev: Event, s': State, name: string, owner: Option<string>, held: bool)
    requires ev.Grant? && ev.entry != "" && Next(tf, s, ev, s')
    requires ev.added.name == name ==> tf.parse(name, ev.added.format).Some?
    requires LabelState(s, name, owner, held) && owner != Some("")
    requires ev.added.name == name ==> (held <==> owner.Some?)
    ensures ev.added.name != name ==> LabelState(s', name, owner, held)
    ensures ev.added.name == name && owner.None? ==> LabelState(s', name, Some(ev.entry), true)
    ensures ev.added.name == name && owner.Some? ==> LabelState(s', name, owner, held)
  {
    assert RebuiltAt(s.entries, s.index, s'.index, name);
    assert owner.Some? && held ==> Holds(s.entries, owner.value, name);
    forall e
      ensures s'.entries != s.entries ==>
        (Holds(s'.entries, e, name) <==> Holds(s.entries, e, name) || (e == ev.entry && name == ev.added.name))
    {
      GrantHolds(s.entries, ev.entry, ev.added, e, name);
    }
  }

  lemma CleanStep(tf: TimeFormat, cfg: RetentionConfig, s: State, t: Time, s': State,
                  f: string, name: string, owner: Option<string>, held: bool)
    requires f in cfg && tf.parse(name, f).Some? && OnlyFormat(tf, cfg, f, name)
    requires AllProper(tf, cfg, s.entries) && Next(tf, s, Clean(cfg, t), s')
    requires LabelState(s, name, owner, held)
    ensures LabelState(s', name, owner, held && t <= ExpiryOf(tf, cfg, f, name))
  {
    forall e
      ensures Holds(s'.entries, e, name) <==> Holds(s.entries, e, name) && t <= ExpiryOf(tf, cfg, f, name)
    {
      CleanHolds(tf, cfg, s.entries, t, e, name);
      if Holds(s.entries, e, name) {
        var i :| 0 <= i < |s.entries[e]| && s.entries[e][i].name == name;
        ProperLabelLive(tf, cfg, s.entries, e, s.entries[e][i], t, f);
      }
      if l :| e in s.entries && l in s.entries[e] && l.name == name && Live(tf, cfg, l, t) {
        ProperLabelLive(tf, cfg, s.entries, e, l, t, f);
        CleanSubset(tf, cfg, s.entries, t, e, name);
      }
    }
    assert RebuiltAt(s'.entries, s.index, s'.index, name);
  }

  lemma ProperLabelLive(tf: TimeFormat, cfg: RetentionConfig, es: Entries, e: string, l: Label, t: Time, f: string)
    requires f in cfg && tf.parse(l.name, f).Some? && OnlyFormat(tf, cfg, f, l.name)
    requires AllProper(tf, cfg, es) && HoldsLabel(es, e, l)
    ensures l.format == f && (Live(tf, cfg, l, t) <==> t <= ExpiryOf(tf, cfg, f, l.name))
  {
    assert IsProper(tf, cfg, l);
    var u :| l.name == tf.format(u, l.format);
  }

  lemma DropStep(tf: TimeFormat, s: State, e0: string, s': State, name: string, owner: Option<string>, held: bool)
    requires Next(tf, s, Drop(e0), s') && !Holds(s.entries, e0, name)
    requires LabelState(s, name, owner, held)
    ensures LabelState(s', name, owner, held)
  {
    assert forall e :: Holds(s'.entries, e, name) <==> Holds(s.entries, e, name);
    assert RebuiltAt(s'.entries, s.index, s'.index, name);
  }

  lemma ReloadStep(tf: TimeFormat, s: State, s': State, name: string, owner: Option<string>, held: bool)
    requires Next(tf, s, Reload, s') && LabelState(s, name, owner, held)
    ensures LabelState(s', name, owner, held)
  {
    assert RebuiltAt(s'.entries, map[], s'.index, name);
  }

  /** A label that outlasts its name cannot have expired when it is attempted. */
  lemma NotExpiredYet(tf: TimeFormat, cfg: RetentionConfig, h: History, f: string, name: string)
    requires f in cfg && tf.parse(name, f).Some? && Outlasts(tf, cfg, f, name) && IsSerial(tf, cfg, h)
    requires h.events != [] && IsGrantOf(Last(h.events), f, name)
    ensures !CleanedAfter(h.events, ExpiryOf(tf, cfg, f, name))
  {
    var last := |h.events| - 1;
    assert Follows(tf, cfg, h.events[last]);
    forall i | 0 <= i < |h.events| && h.events[i].Clean?
      ensures h.events[i].time <= ExpiryOf(tf, cfg, f, name)
    {
      assert TimeOf(h.events[i]) <= TimeOf(h.events[last]);
    }
  }

  lemma CleanedAfterLast(events: seq<Event>, t: Time)
    requires events != []
    ensures CleanedAfter(events, t) <==> CleanedAfter(Init(events), t) || (Last(events).Clean? && t < Last(events).time)
  {
    if CleanedAfter(Init(events), t) {
      var i :| 0 <= i < |Init(events)| && Init(events)[i].Clean? && t < Init(events)[i].time;
      assert events[i].Clean? && t < events[i].time;
    }
  }

  /** Whose the label is: the entry of the first attempt at it. */
  ghost function OwnerOf(events: seq<Event>, f: string, name: string): Option<string> {
    var k := FirstGrant(events, f, name);
    if k.Some? then Some(events[k.value].entry) else None
  }

  ghost predicate IsHeld(tf: TimeFormat, cfg: RetentionConfig, events: seq<Event>, f: string, name: string)
    requires f in cfg && tf.parse(name, f).Some?
  {
    OwnerOf(events, f, name).Some? && !CleanedAfter(events, ExpiryOf(tf, cfg, f, name))
  }

  /** The state of one label at the end of a run. */
  ghost predicate OwnedByFirst(tf: TimeFormat, cfg: RetentionConfig, h: History, f: string, name: string)
    requires f in cfg && tf.parse(name, f).Some? && h.states != []
  {
    && LabelState(Last(h.states), name, OwnerOf(h.events, f, name), IsHeld(tf, cfg, h.events, f, name))
    && OwnerOf(h.events, f, name) != Some("")
  }

  lemma OwnerAfterGrant(tf: TimeFormat, cfg: RetentionConfig, h: History, f: string, name: string)
    requires f in cfg && tf.parse(name, f).Some? && OnlyFormat(tf, cfg, f, name) && Outlasts(tf, cfg, f, name)
    requires IsSerial(tf, cfg, h) && h.events != [] && Last(h.events).Grant?
    requires OwnedByFirst(tf, cfg, Before(h), f, name)
    ensures OwnedByFirst(tf, cfg, h, f, name)
  {
    var b, ev := Before(h), Last(h.events);
    BeforeSerial(tf, cfg, h);
    CleanedAfterLast(h.events, ExpiryOf(tf, cfg, f, name));
    assert ev.added.name == name <==> IsGrantOf(ev, f, name);
    if IsGrantOf(ev, f, name) {
      NotExpiredYet(tf, cfg, h, f, name);
    }
    GrantStep(tf, Last(b.states), ev, Last(h.states), name,
              OwnerOf(b.events, f, name), IsHeld(tf, cfg, b.events, f, name));
  }

  lemma OwnerAfterOther(tf: TimeFormat, cfg: RetentionConfig, h: History, f: string, name: string)
    requires f in cfg && tf.parse(name, f).Some? && OnlyFormat(tf, cfg, f, name)
    requires IsSerial(tf, cfg, h) && HolderStays(h, name)
    requires h.events != [] && !Last(h.events).Grant? && OwnedByFirst(tf, cfg, Before(h), f, name)
    ensures OwnedByFirst(tf, cfg, h, f, name)
  {
    var b, last := Before(h), |h.events| - 1;
    BeforeSerial(tf, cfg, h);
    CleanedAfterLast(h.events, ExpiryOf(tf, cfg, f, name));
    var s, s' := Last(b.states), Last(h.states);
    var owner, held := OwnerOf(b.events, f, name), IsHeld(tf, cfg, b.events, f, name);
    assert OwnerOf(h.events, f, name) == owner;
    match Last(h.events)
    case Clean(_, t) =>
      AlwaysProper(tf, cfg, b);
      CleanStep(tf, cfg, s, t, s', f, name, owner, held);
    case Drop(e) =>
      assert h.events[last].Drop? && h.states[last] == s;
      DropStep(tf, s, e, s', name, owner, held);
    case Reload =>
      ReloadStep(tf, s, s', name, owner, held);
  }

  lemma HolderStayed(h: History, name: string)
    requires |h.states| == |h.events| + 1 && h.events != [] && HolderStays(h, name)
    ensures HolderStays(Before(h), name)
  {
    var b := Before(h);
    assert forall i :: 0 <= i < |b.events| ==> b.events[i] == h.events[i] && b.states[i] == h.states[i];
  }

  /** Over whole runs, for one label and whatever the other labels and formats are like: if no other
      format yields its name and it outlasts its name, then it is held by the first backup that
      attempted it, until a cleanup after its hold time, and never by another. */
  lemma {:induction false} FirstAttemptOwns(tf: TimeFormat, cfg: RetentionConfig, h: History, f: string, name: string)
    requires f in cfg && tf.parse(name, f).Some? && OnlyFormat(tf, cfg, f, name) && Outlasts(tf, cfg, f, name)
    requires IsSerial(tf, cfg, h) && HolderStays(h, name)
    ensures OwnedByFirst(tf, cfg, h, f, name)
    ensures forall e ::
      (Holds(Last(h.states).entries, e, name) <==>
       OwnerOf(h.events, f, name) == Some(e) && !CleanedAfter(h.events, ExpiryOf(tf, cfg, f, name)))
    decreases |h.events|
  {
    if h.events != [] {
      BeforeSerial(tf, cfg, h);
      HolderStayed(h, name);
      FirstAttemptOwns(tf, cfg, Before(h), f, name);
      if Last(h.events).Grant? {
        OwnerAfterGrant(tf, cfg, h, f, name);
      } else {
        OwnerAfterOther(tf, cfg, h, f, name);
      }
    }
  }

  /** The same in terms of periods: the label of a well behaved format for the period that starts at
      `p` is held by the first backup attempted in that period. Nothing is asked of other formats
      but that they do not yield its names. */
  lemma FirstOfPeriodOwns(tf: TimeFormat, cfg: RetentionConfig, h: History, f: string, p: Time)
    requires f in cfg && NamesPeriods(tf, cfg, f) && OutlastsPeriods(tf, cfg, f)
    requires IsSerial(tf, cfg, h) && PeriodStart(tf, p, f) == p && HolderStays(h, tf.format(p, f))
    ensures forall e ::
      (Holds(Last(h.states).entries, e, tf.format(p, f)) <==>
       OwnerOf(h.events, f, tf.format(p, f)) == Some(e) && !CleanedAfter(h.events, p + cfg[f]))
    ensures forall i :: 0 <= i < |h.events| && h.events[i].Grant? && h.events[i].added.format == f ==>
      (IsGrantOf(h.events[i], f, tf.format(p, f)) <==> PeriodStart(tf, h.events[i].time, f) == p)
  {
    RegularNames(tf, cfg, f, p);
    FirstAttemptOwns(tf, cfg, h, f, tf.format(p, f));
    forall i | 0 <= i < |h.events| && h.events[i].Grant? && h.events[i].added.format == f
      ensures IsGrantOf(h.events[i], f, tf.format(p, f)) <==> PeriodStart(tf, h.events[i].time, f) == p
    {
      assert Follows(tf, cfg, h.events[i]);
    }
  }

  // ----- Exactly which labels have one owner -----

  ghost function UntilState(h: History, n: nat): History
    requires n < |h.states| && n <= |h.events|
  {
    History(h.states[..n + 1], h.events[..n])
  }

  lemma UntilSerial(tf: TimeFormat, cfg: RetentionConfig, h: History, n: nat, name: string)
    requires IsSerial(tf, cfg, h) && HolderStays(h, name) && n < |h.states|
    ensures IsSerial(tf, cfg, UntilState(h, n)) && HolderStays(UntilState(h, n), name)
    ensures Last(UntilState(h, n).states) == h.states[n]
  {
    var b := UntilState(h, n);
    forall i {:trigger b.events[i]} | 0 <= i < |b.events|
      ensures Next(tf, b.states[i], b.events[i], b.states[i + 1])
    {
      assert b.events[i] == h.events[i];
    }
  }

  /** No two backups ever hold the label of that name, not even one after the other. */
  ghost predicate HasOneHolder(h: History, name: string) {
    forall i, j, e1, e2 :: 0 <= i < |h.states| && 0 <= j < |h.states| ==>
      Holds(h.states[i].entries, e1, name) && Holds(h.states[j].entries, e2, name) ==> e1 == e2
  }

  lemma OwnerHolds(tf: TimeFormat, cfg: RetentionConfig, h: History, f: string, name: string, n: nat, e: string)
    requires f in cfg && tf.parse(name, f).Some? && OnlyFormat(tf, cfg, f, name) && Outlasts(tf, cfg, f, name)
    requires IsSerial(tf, cfg, h) && HolderStays(h, name)
    requires n < |h.states| && Holds(h.states[n].entries, e, name)
    ensures OwnerOf(h.events, f, name) == Some(e)
  {
    UntilSerial(tf, cfg, h, n, name);
    FirstAttemptOwns(tf, cfg, UntilState(h, n), f, name);
    var k := FirstGrant(h.events[..n], f, name).value;
    assert h.events[..n][k] == h.events[k];
    assert forall i :: 0 <= i < k ==> h.events[..n][i] == h.events[i];
  }

  /** A label of a format that shares no names has one holder in every run, if and only if it is held
      until the last time that has its name. */
  lemma OneHolderExactly(tf: TimeFormat, cfg: RetentionConfig, f: string, name: string)
    requires f in cfg && tf.parse(name, f).Some? && OnlyFormat(tf, cfg, f, name)
    ensures Outlasts(tf, cfg, f, name)
      <==> forall h :: IsSerial(tf, cfg, h) && HolderStays(h, name) ==> HasOneHolder(h, name)
  {
    if Outlasts(tf, cfg, f, name) {
      forall h | IsSerial(tf, cfg, h) && HolderStays(h, name)
        ensures HasOneHolder(h, name)
      {
        forall i, j, e1, e2 | 0 <= i < |h.states| && 0 <= j < |h.states|
          && Holds(h.states[i].entries, e1, name) && Holds(h.states[j].entries, e2, name)
          ensures e1 == e2
        {
          OwnerHolds(tf, cfg, h, f, name, i, e1);
          OwnerHolds(tf, cfg, h, f, name, j, e2);
        }
      }
    } else {
      var t :| tf.format(t, f) == name && t > ExpiryOf(tf, cfg, f, name);
      var h := RegrantRun(cfg, f, name, t);
      RegrantRuns(tf, cfg, f, name, t);
    }
  }

  /** The label goes to one backup, expires, and goes to another one. */
  ghost function RegrantRun(cfg: RetentionConfig, f: string, name: string, t: Time): History
    requires f in cfg
  {
    var l := Label(f, cfg[f], name);
    History([State(map[], map[]), State(map["a" := [l]], map[]), State(map["a" := []], map[]),
             State(map["a" := [], "b" := [l]], map[])],
            [Grant("a", l, t), Clean(cfg, t), Grant("b", l, t)])
  }

  lemma RegrantSteps(tf: TimeFormat, cfg: RetentionConfig, f: string, name: string, t: Time)
    requires f in cfg && tf.parse(name, f).Some? && t > ExpiryOf(tf, cfg, f, name)
    ensures RegrantRun(cfg, f, name, t).IsRun(tf)
  {
    var h, l := RegrantRun(cfg, f, name, t), Label(f, cfg[f], name);
    var s := h.states;
    NobodyHolds(map["a" := []]);
    NobodyHolds(map[]);
    assert LabelsOf(map[], "a") + [l] == [l] && LabelsOf(s[2].entries, "b") + [l] == [l];
    assert s[3].entries == s[2].entries["b" := [l]];
    assert Next(tf, s[0], h.events[0], s[1]);
    assert Init([l]) == [] && LiveLabels(tf, cfg, [l], t) == [];
    assert s[2].entries == CleanEntries(tf, cfg, s[1].entries, t);
    assert Next(tf, s[1], h.events[1], s[2]);
    assert Next(tf, s[2], h.events[2], s[3]);
  }

  lemma RegrantRuns(tf: TimeFormat, cfg: RetentionConfig, f: string, name: string, t: Time)
    requires f in cfg && tf.parse(name, f).Some? && tf.format(t, f) == name && t > ExpiryOf(tf, cfg, f, name)
    ensures var h := RegrantRun(cfg, f, name, t);
      IsSerial(tf, cfg, h) && HolderStays(h, name) && !HasOneHolder(h, name)
  {
    var s := RegrantRun(cfg, f, name, t).states;
    RegrantSteps(tf, cfg, f, name, t);
    assert s[1].entries["a"][0].name == name && s[3].entries["b"][0].name == name;
    assert Holds(s[1].entries, "a", name) && Holds(s[3].entries, "b", name);
  }

  lemma NobodyHolds(es: Entries)
    requires forall e :: e in es ==> es[e] == []
    ensures Rebuilt(es, map[], map[])
  {
    forall name: string
      ensures RebuiltAt(es, map[], map[], name)
    {
    }
  }

  // ----- One answer per instant -----

  /** Every attempt of one backup reads the clock once: the attempts at all configured formats come
      together, with the same entry and time. */
  ghost predicate SameBatch(events: seq<Event>, i: nat, j: nat)
    requires i < |events| && j < |events|
  {
    forall k :: 0 <= k < |events| && (i <= k <= j || j <= k <= i) ==>
      events[k].Grant? && events[i].Grant? && events[k].entry == events[i].entry && events[k].time == events[i].time
  }

  ghost predicate AttemptedWith(events: seq<Event>, i: nat, j: nat, g: string)
    requires i < |events|
  {
    j < |events| && SameBatch(events, i, j) && events[j].Grant? && events[j].added.format == g
  }

  ghost predicate Batched(events: seq<Event>, i: nat, g: string)
    requires i < |events|
  {
    exists j: nat :: AttemptedWith(events, i, j, g)
  }

  ghost predicate OneReading(cfg: RetentionConfig, events: seq<Event>) {
    forall i: nat, g {:trigger Batched(events, i, g)} :: i < |events| && events[i].Grant? && g in cfg ==>
      Batched(events, i, g)
  }

  /** The events follow the configuration, in time order up to `now`, with one reading of the clock
      for each addition. */
  ghost predicate OnSchedule(tf: TimeFormat, cfg: RetentionConfig, events: seq<Event>, now: Time) {
    && (forall i :: 0 <= i < |events| ==> Follows(tf, cfg, events[i]))
    && (forall i, j :: 0 <= i <= j < |events| && IsTimed(events[i]) && IsTimed(events[j]) ==>
      TimeOf(events[i]) <= TimeOf(events[j]))
    && (forall i :: 0 <= i < |events| && IsTimed(events[i]) ==> TimeOf(events[i]) <= now)
    && OneReading(cfg, events)
  }

  lemma OneReadingNext(cfg: RetentionConfig, events: seq<Event>, ev: Event)
    requires OneReading(cfg, events) && !ev.Grant?
    ensures OneReading(cfg, events + [ev])
  {
    var all := events + [ev];
    forall i: nat, g | i < |all| && all[i].Grant? && g in cfg
      ensures Batched(all, i, g)
    {
      assert Batched(events, i, g);
      var j: nat :| AttemptedWith(events, i, j, g);
      assert AttemptedWith(all, i, j, g);
    }
  }

  lemma OnScheduleNext(tf: TimeFormat, cfg: RetentionConfig, events: seq<Event>, ev: Event, now: Time)
    requires OnSchedule(tf, cfg, events, now) && !ev.Grant? && Follows(tf, cfg, ev)
    requires ev.Clean? ==> ev.time == now
    ensures OnSchedule(tf, cfg, events + [ev], now)
  {
    OneReadingNext(cfg, events, ev);
  }

  /** Regular labels that read as the same time were first attempted by the same backup. */
  lemma SameStartSameOwner(tf: TimeFormat, cfg: RetentionConfig, h: History, f: string, n1: string, g: string, n2: string)
    requires IsRegular(tf, cfg, f, n1) && IsRegular(tf, cfg, g, n2) && tf.parse(n1, f) == tf.parse(n2, g)
    requires IsSerial(tf, cfg, h) && OneReading(cfg, h.events)
    requires OwnerOf(h.events, f, n1).Some? && OwnerOf(h.events, g, n2).Some?
    ensures OwnerOf(h.events, f, n1) == OwnerOf(h.events, g, n2)
  {
    var k, m := FirstGrant(h.events, f, n1).value, FirstGrant(h.events, g, n2).value;
    if h.events[k].time <= h.events[m].time {
      EarlierAttemptWins(tf, cfg, h, f, n1, g, n2, k, m);
    } else {
      EarlierAttemptWins(tf, cfg, h, g, n2, f, n1, m, k);
    }
  }

  /** An addition at time `t` also attempts the label `n2`, when a later one does and its period has
      begun. */
  lemma AttemptedToo(tf: TimeFormat, cfg: RetentionConfig, h: History, k: nat, m: nat, g: string, n2: string)
    returns (j: nat)
    requires IsRegular(tf, cfg, g, n2) && IsSerial(tf, cfg, h) && OneReading(cfg, h.events)
    requires k < |h.events| && m < |h.events| && h.events[k].Grant? && IsGrantOf(h.events[m], g, n2)
    requires tf.parse(n2, g).value <= h.events[k].time <= h.events[m].time
    ensures j < |h.events| && IsGrantOf(h.events[j], g, n2) && SameBatch(h.events, k, j)
  {
    assert Batched(h.events, k, g);
    j :| AttemptedWith(h.events, k, j, g);
    assert h.events[j].time == h.events[k].time;
    assert Follows(tf, cfg, h.events[j]) && Follows(tf, cfg, h.events[m]);
  }

  lemma EarlierAttemptWins(tf: TimeFormat, cfg: RetentionConfig, h: History, f: string, n1: string, g: string, n2: string,
                           k: nat, m: nat)
    requires IsRegular(tf, cfg, f, n1) && IsRegular(tf, cfg, g, n2) && tf.parse(n1, f) == tf.parse(n2, g)
    requires IsSerial(tf, cfg, h) && OneReading(cfg, h.events)
    requires FirstGrant(h.events, f, n1) == Some(k) && FirstGrant(h.events, g, n2) == Some(m)
    requires h.events[k].time <= h.events[m].time
    ensures h.events[k].entry == h.events[m].entry
  {
    assert Follows(tf, cfg, h.events[k]) && Follows(tf, cfg, h.events[m]);
    var j := AttemptedToo(tf, cfg, h, k, m, g, n2);
    assert m <= j;
    if m < k {
      // then attempt m is not later either, and its batch tries the first label before k does
      assert TimeOf(h.events[m]) <= TimeOf(h.events[k]);
      var i := AttemptedToo(tf, cfg, h, m, k, f, n1);
      assert k <= i;
    }
  }

  ghost predicate HoldersStay(h: History)
    requires |h.states| == |h.events| + 1
  {
    forall name :: HolderStays(h, name)
  }

  /** The holder of a regular label owns it. */
  lemma HolderOwns(tf: TimeFormat, cfg: RetentionConfig, h: History, e: string, l: Label)
    requires IsRegular(tf, cfg, l.format, l.name) && IsSerial(tf, cfg, h) && HolderStays(h, l.name)
    requires HoldsLabel(Last(h.states).entries, e, l)
    ensures OwnerOf(h.events, l.format, l.name) == Some(e)
  {
    FirstAttemptOwns(tf, cfg, h, l.format, l.name);
    var ls := Last(h.states).entries[e];
    var i :| 0 <= i < |ls| && ls[i] == l;
    assert Holds(Last(h.states).entries, e, l.name);
  }

  /** The labels among which the search chooses are regular. */
  ghost predicate CandidatesRegular(tf: TimeFormat, cfg: RetentionConfig, es: Entries, pit: Time) {
    forall e, l :: HoldsLabel(es, e, l) && Candidate(tf, l, pit) ==> IsRegular(tf, cfg, l.format, l.name)
  }

  /** With well behaved formats all held labels are regular. */
  lemma HeldAreRegular(tf: TimeFormat, cfg: RetentionConfig, h: History, pit: Time)
    requires AreRegular(tf, cfg) && IsSerial(tf, cfg, h)
    ensures CandidatesRegular(tf, cfg, Last(h.states).entries, pit)
  {
    AlwaysProper(tf, cfg, h);
    forall e, l | HoldsLabel(Last(h.states).entries, e, l)
      ensures IsRegular(tf, cfg, l.format, l.name)
    {
      assert IsProper(tf, cfg, l);
      var u :| l.name == tf.format(u, l.format);
      RegularNames(tf, cfg, l.format, u);
    }
  }

  /** The label for which a search chose its answer. */
  lemma ChosenLabel(tf: TimeFormat, es: Entries, pit: Time, r: string) returns (l: Label)
    requires Answers(tf, es, pit, r) && exists e, m :: HoldsLabel(es, e, m) && Candidate(tf, m, pit)
    ensures HoldsLabel(es, r, l) && Candidate(tf, l, pit)
    ensures forall e, m :: HoldsLabel(es, e, m) && Candidate(tf, m, pit) ==> Distance(tf, l, pit) <= Distance(tf, m, pit)
  {
    l :| HoldsLabel(es, r, l) && Candidate(tf, l, pit)
      && forall e, m :: HoldsLabel(es, e, m) && Candidate(tf, m, pit) ==> Distance(tf, l, pit) <= Distance(tf, m, pit);
  }

  /** In every store reached by a run two regular labels of equal time belong to the same backup. */
  lemma EqualTimeSameHolder(tf: TimeFormat, cfg: RetentionConfig, h: History, e1: string, l1: Label, e2: string, l2: Label)
    requires IsSerial(tf, cfg, h) && HoldersStay(h) && OneReading(cfg, h.events)
    requires HoldsLabel(Last(h.states).entries, e1, l1) && HoldsLabel(Last(h.states).entries, e2, l2)
    requires IsRegular(tf, cfg, l1.format, l1.name) && IsRegular(tf, cfg, l2.format, l2.name)
    requires tf.parse(l1.name, l1.format) == tf.parse(l2.name, l2.format)
    ensures e1 == e2
  {
    assert HolderStays(h, l1.name) && HolderStays(h, l2.name);
    HolderOwns(tf, cfg, h, e1, l1);
    HolderOwns(tf, cfg, h, e2, l2);
    SameStartSameOwner(tf, cfg, h, l1.format, l1.name, l2.format, l2.name);
  }

  /** So the point-in-time search has one answer, whatever the iteration order, as long as the labels
      that it can choose are regular. */
  lemma SearchHasOneAnswer(tf: TimeFormat, cfg: RetentionConfig, h: History, pit: Time, r1: string, r2: string)
    requires IsSerial(tf, cfg, h) && HoldersStay(h) && OneReading(cfg, h.events)
    requires CandidatesRegular(tf, cfg, Last(h.states).entries, pit)
    requires Answers(tf, Last(h.states).entries, pit, r1) && Answers(tf, Last(h.states).entries, pit, r2)
    ensures r1 == r2
  {
    var es := Last(h.states).entries;
    if exists e, l :: HoldsLabel(es, e, l) && Candidate(tf, l, pit) {
      var l1 := ChosenLabel(tf, es, pit, r1);
      var l2 := ChosenLabel(tf, es, pit, r2);
      assert Distance(tf, l1, pit) == Distance(tf, l2, pit);
      EqualTimeSameHolder(tf, cfg, h, r1, l1, r2, l2);
    }
  }
}
