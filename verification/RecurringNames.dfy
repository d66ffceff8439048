/** What happens to labels whose names recur, as week names with a calendar year do: a label can go to
    a second backup, and the point-in-time search can have two answers. */
module RecurringNames {
  import opened Common
  import opened LabelManager
  import opened LabelRuns
  import opened Labels
  import opened RetentionStore

  /** Months and weeks, where the name of the first week recurs after the second one. */
  function Recurring(): TimeFormat {
    TimeFormat(
      (t: Time, f: string) => if f == "m" then "m1" else if 10 <= t < 20 then "w2" else "w1",
      (name: string, f: string) => if name == "w2" then Some(10) else Some(0))
  }

  const RECURRING_RETENTION: RetentionConfig := map["m" := 100, "w" := 10]

  /** Backup "a" at time 0, a cleanup at time 15, loading, and backup "b" at time 20. */
  ghost function RecurringRun(): History {
    var m, w := Label("m", 100, "m1"), Label("w", 10, "w1");
    History(
      [State(map[], map[]),
       State(map["a" := [m]], map[]),
       State(map["a" := [m, w]], map["m1" := "a"]),
       State(map["a" := [m]], map["m1" := "a"]),
       State(map["a" := [m]], map["m1" := "a"]),
       State(map["a" := [m]], map["m1" := "a"]),
       State(map["a" := [m], "b" := [w]], map["m1" := "a"])],
      [Grant("a", m, 0), Grant("a", w, 0), Clean(RECURRING_RETENTION, 15), Reload, Grant("b", m, 20), Grant("b", w, 20)])
  }

  lemma OneHeld(m: Label, before: map<string, string>)
    requires before == map[] || before == map[m.name := "a"]
    ensures Rebuilt(map["a" := [m]], before, map[m.name := "a"])
  {
    var es: Entries := map["a" := [m]];
    assert es["a"][0] == m && Holds(es, "a", m.name);
    forall name: string
      ensures RebuiltAt(es, before, map[m.name := "a"], name)
    {
    }
  }

  lemma RecurringBegins()
    ensures var h, tf := RecurringRun(), Recurring();
      && Next(tf, h.states[0], h.events[0], h.states[1])
      && Next(tf, h.states[1], h.events[1], h.states[2])
  {
    var m, w := Label("m", 100, "m1"), Label("w", 10, "w1");
    NobodyHolds(map[]);
    OneHeld(m, map[]);
    assert LabelsOf(map[], "a") + [m] == [m] && [m] + [w] == [m, w];
  }

  lemma RecurringGoesOn()
    ensures var h, tf := RecurringRun(), Recurring();
      && Next(tf, h.states[2], h.events[2], h.states[3])
      && Next(tf, h.states[3], h.events[3], h.states[4])
      && Next(tf, h.states[4], h.events[4], h.states[5])
      && Next(tf, h.states[5], h.events[5], h.states[6])
  {
    var m, w := Label("m", 100, "m1"), Label("w", 10, "w1");
    RecurringClean();
    OneHeld(m, map[]);
    OneHeld(m, map["m1" := "a"]);
    assert LabelsOf(map["a" := [m]], "b") + [w] == [w];
  }

  lemma RecurringClean()
    ensures CleanEntries(Recurring(), RECURRING_RETENTION, RecurringRun().states[2].entries, 15)
      == RecurringRun().states[3].entries
  {
    var m, w := Label("m", 100, "m1"), Label("w", 10, "w1");
    var tf, cfg := Recurring(), RECURRING_RETENTION;
    assert Init([m, w]) == [m] && Init([m]) == [];
    assert LiveLabels(tf, cfg, [], 15) == [];
    assert LiveLabels(tf, cfg, [m], 15) == [m];
    assert LiveLabels(tf, cfg, [m, w], 15) == [m];
  }

  lemma RecurringIsRun()
    ensures RecurringRun().IsRun(Recurring())
  {
    var h, tf := RecurringRun(), Recurring();
    RecurringBegins();
    RecurringGoesOn();
    forall i {:trigger h.events[i]} | 0 <= i < |h.events|
      ensures Next(tf, h.states[i], h.events[i], h.states[i + 1])
    {
      assert i == 0 || i == 1 || i == 2 || i == 3 || i == 4 || i == 5;
    }
  }

  lemma RecurringFollows(i: nat)
    requires i < |RecurringRun().events|
    ensures var ev := RecurringRun().events[i];
      && Follows(Recurring(), RECURRING_RETENTION, ev) && !ev.Drop?
      && (IsTimed(ev) ==> TimeOf(ev) == if i < 2 then 0 else if i == 2 then 15 else 20)
      && (ev.Grant? ==> ev.entry != "")
  {
    var ev := RecurringRun().events[i];
    if i < 3 {
      assert i == 0 || i == 1 || i == 2;
    } else {
      assert i == 3 || i == 4 || i == 5;
    }
  }

  lemma RecurringIsSerial()
    ensures IsSerial(Recurring(), RECURRING_RETENTION, RecurringRun()) && HoldersStay(RecurringRun())
  {
    var h := RecurringRun();
    RecurringIsRun();
    forall i: nat | i < |h.events|
      ensures Follows(Recurring(), RECURRING_RETENTION, h.events[i]) && !h.events[i].Drop?
      ensures IsTimed(h.events[i]) ==> TimeOf(h.events[i]) == if i < 2 then 0 else if i == 2 then 15 else 20
      ensures h.events[i].Grant? ==> h.events[i].entry != ""
    {
      RecurringFollows(i);
    }
  }

  lemma RecurringAnswers()
    ensures var es := Last(RecurringRun().states).entries;
      Answers(Recurring(), es, 5, "a") && Answers(Recurring(), es, 5, "b")
  {
    var es, tf := Last(RecurringRun().states).entries, Recurring();
    var m, w := Label("m", 100, "m1"), Label("w", 10, "w1");
    assert HoldsLabel(es, "a", m) && HoldsLabel(es, "b", w);
    assert Candidate(tf, m, 5) && Candidate(tf, w, 5) && Distance(tf, m, 5) == Distance(tf, w, 5) == 5;
    forall e, l | HoldsLabel(es, e, l)
      ensures l == m || l == w
    {
    }
  }

  /** Where a name recurs after its hold time, the search has two answers: the run meets all other
      assumptions, yet for the instant 5 both backups answer, and "b" was made at time 20. */
  lemma RecurringNameTwoAnswers()
    ensures var h, tf, cfg := RecurringRun(), Recurring(), RECURRING_RETENTION;
      && IsSerial(tf, cfg, h) && HoldersStay(h) && OneReading(cfg, h.events)
      && Answers(tf, Last(h.states).entries, 5, "a") && Answers(tf, Last(h.states).entries, 5, "b")
      && h.events[5].entry == "b" && h.events[5].time == 20
      && OnlyFormat(tf, cfg, "w", "w1") && !Outlasts(tf, cfg, "w", "w1")
  {
    RecurringIsSerial();
    RecurringReadings();
    RecurringAnswers();
    assert Recurring().format(20, "w") == "w1";
  }

  lemma RecurringReadings()
    ensures OneReading(RECURRING_RETENTION, RecurringRun().events)
  {
    var events := RecurringRun().events;
    forall i: nat, g | i < |events| && events[i].Grant? && g in RECURRING_RETENTION
      ensures Batched(events, i, g)
    {
      var j: nat := (if i < 2 then 0 else 4) + (if g == "m" then 0 else 1);
      assert AttemptedWith(events, i, j, g);
    }
  }

  // ----- The default week format -----

  const WEEK_FORMAT := "%Y-w%V"

  /** Midnight of 1 January and of 30 December 2024. The latter has the calendar year 2024 and is in
      the first ISO week, of 2025. */
  const NEW_YEAR_2024: Time := 19723 * DAY
  const DECEMBER_30_2024: Time := 20087 * DAY

  /** The default retention does not hold the label "2024-w01" until the last time that has its name,
      when that name reads as a time of the first week of 2024. So some run gives it to two
      backups. */
  lemma DefaultWeekRecurs(tf: TimeFormat)
    requires tf.format(DECEMBER_30_2024, WEEK_FORMAT) == "2024-w01"
    requires tf.parse("2024-w01", WEEK_FORMAT).Some?
    requires tf.parse("2024-w01", WEEK_FORMAT).value <= NEW_YEAR_2024 + WEEK
    requires OnlyFormat(tf, DEFAULT_RETENTION, WEEK_FORMAT, "2024-w01")
    ensures !Outlasts(tf, DEFAULT_RETENTION, WEEK_FORMAT, "2024-w01")
    ensures exists h :: IsSerial(tf, DEFAULT_RETENTION, h) && HolderStays(h, "2024-w01") && !HasOneHolder(h, "2024-w01")
  {
    assert DECEMBER_30_2024 > ExpiryOf(tf, DEFAULT_RETENTION, WEEK_FORMAT, "2024-w01");
    OneHolderExactly(tf, DEFAULT_RETENTION, WEEK_FORMAT, "2024-w01");
  }
}
