/** Retention labels: what a label is, when it expires, and what the label library promises. */
module Labels {
  import opened Common

  /** Instants in nanoseconds, in UTC. */
  type Time = int

  /** A label as it is stored: its format, the hold time of the day it was added, and its name. */
  datatype Label = Label(format: string, hold: int, name: string)

  /** Which labels each backup holds. */
  type Entries = map<string, seq<Label>>

  /** How long labels of each format are kept. */
  type RetentionConfig = map<string, int>

  /** The time formatting library. */
  datatype TimeFormat = TimeFormat(
    format: (Time, string) -> string,
    parse: (string, string) -> Option<Time>
  )

  // ----- Expiry -----

  /** The current configuration overrides the hold time in the label when it is positive. */
  function RetainFor(cfg: RetentionConfig, l: Label): int {
    if l.format in cfg && cfg[l.format] > 0 then cfg[l.format] else l.hold
  }

  /** A label is live until its hold time has passed; one that cannot be parsed is never live. */
  predicate Live(tf: TimeFormat, cfg: RetentionConfig, l: Label, now: Time) {
    var t := tf.parse(l.name, l.format);
    t.Some? && now <= t.value + RetainFor(cfg, l)
  }

  function LiveLabels(tf: TimeFormat, cfg: RetentionConfig, ls: seq<Label>, now: Time): seq<Label> {
    if ls == [] then []
    else LiveLabels(tf, cfg, Init(ls), now) + (if Live(tf, cfg, Last(ls), now) then [Last(ls)] else [])
  }

  function CleanEntries(tf: TimeFormat, cfg: RetentionConfig, es: Entries, now: Time): Entries {
    map e | e in es :: LiveLabels(tf, cfg, es[e], now)
  }

  /** What keeps a label, in so many words: it reads as a time, and not more has passed since than
      its hold time, which is the configured one for its format if that is positive, and otherwise
      the one in the label. */
  ghost predicate StaysAt(tf: TimeFormat, cfg: RetentionConfig, l: Label, now: Time) {
    match tf.parse(l.name, l.format)
    case None => false
    case Some(t) =>
      && (l.format in cfg && cfg[l.format] > 0 ==> now <= t + cfg[l.format])
      && (!(l.format in cfg && cfg[l.format] > 0) ==> now <= t + l.hold)
  }

  lemma LiveIsStaying(tf: TimeFormat, cfg: RetentionConfig, l: Label, now: Time)
    ensures Live(tf, cfg, l, now) <==> StaysAt(tf, cfg, l, now)
  {
  }

  lemma {:induction false} LiveLabelsAre(tf: TimeFormat, cfg: RetentionConfig, ls: seq<Label>, now: Time, l: Label)
    ensures l in LiveLabels(tf, cfg, ls, now) <==> l in ls && Live(tf, cfg, l, now)
  {
    if ls != [] {
      LiveLabelsAre(tf, cfg, Init(ls), now, l);
      assert ls == Init(ls) + [Last(ls)];
    }
  }

  /** Cleaning early first makes no difference to cleaning later. */
  lemma {:induction false} CleanTwice(tf: TimeFormat, cfg: RetentionConfig, ls: seq<Label>, t1: Time, t2: Time)
    requires t1 <= t2
    ensures LiveLabels(tf, cfg, LiveLabels(tf, cfg, ls, t1), t2) == LiveLabels(tf, cfg, ls, t2)
  {
    if ls != [] {
      CleanTwice(tf, cfg, Init(ls), t1, t2);
      var early := LiveLabels(tf, cfg, Init(ls), t1);
      if Live(tf, cfg, Last(ls), t1) {
        assert Init(early + [Last(ls)]) == early;
      } else {
        assert early + [] == early;
      }
    }
  }

  // ----- Names -----

  predicate HasName(ls: seq<Label>, name: string) {
    exists i :: 0 <= i < |ls| && ls[i].name == name
  }

  predicate Holds(es: Entries, e: string, name: string) {
    e in es && HasName(es[e], name)
  }

  ghost predicate Held(es: Entries, name: string) {
    exists e :: Holds(es, e, name)
  }

  lemma HasNameAppend(ls: seq<Label>, l: Label, name: string)
    ensures HasName(ls + [l], name) <==> HasName(ls, name) || l.name == name
  {
    if HasName(ls, name) {
      var i :| 0 <= i < |ls| && ls[i].name == name;
      assert (ls + [l])[i].name == name;
    } else if l.name == name {
      assert (ls + [l])[|ls|].name == name;
    }
  }

  /** No label name occurs at two entries. */
  ghost predicate UniqueNames(es: Entries) {
    forall e1, e2, name :: Holds(es, e1, name) && Holds(es, e2, name) ==> e1 == e2
  }

  // ----- What is asked of label names -----

  /** No other configured format ever yields the name. */
  ghost predicate OnlyFormat(tf: TimeFormat, cfg: RetentionConfig, f: string, name: string) {
    forall g, t :: g in cfg && tf.format(t, g) == name ==> g == f
  }

  /** When the label can expire. */
  function ExpiryOf(tf: TimeFormat, cfg: RetentionConfig, f: string, name: string): Time
    requires f in cfg && tf.parse(name, f).Some?
  {
    tf.parse(name, f).value + cfg[f]
  }

  /** The label is held until the last time that has its name. */
  ghost predicate Outlasts(tf: TimeFormat, cfg: RetentionConfig, f: string, name: string)
    requires f in cfg && tf.parse(name, f).Some?
  {
    forall t :: tf.format(t, f) == name ==> t <= ExpiryOf(tf, cfg, f, name)
  }

  /** The times with this name are an interval that begins at the time it reads as. */
  ghost predicate NamesInterval(tf: TimeFormat, f: string, name: string)
    requires tf.parse(name, f).Some?
  {
    var p := tf.parse(name, f).value;
    && (forall t :: tf.format(t, f) == name ==> p <= t)
    && (forall t, u :: p <= t <= u && tf.format(u, f) == name ==> tf.format(t, f) == name)
  }

  /** A label that behaves as its makers expect. */
  ghost predicate IsRegular(tf: TimeFormat, cfg: RetentionConfig, f: string, name: string) {
    && f in cfg && tf.parse(name, f).Some? && OnlyFormat(tf, cfg, f, name)
    && Outlasts(tf, cfg, f, name) && NamesInterval(tf, f, name)
  }

  // ----- The same, asked of formats -----

  /** The start of the period of format `f` that contains `t`. */
  function PeriodStart(tf: TimeFormat, t: Time, f: string): Time {
    var p := tf.parse(tf.format(t, f), f);
    if p.Some? then p.value else t
  }

  /** The format names periods: parsing yields their start, they are intervals in time order, a name
      identifies its period, and no other configured format yields such a name. A calendar year
      combined with an ISO week is not like that at the end of a year. */
  ghost predicate NamesPeriods(tf: TimeFormat, cfg: RetentionConfig, f: string) {
    && (forall t :: tf.parse(tf.format(t, f), f).Some? && PeriodStart(tf, t, f) <= t)
    && (forall t :: PeriodStart(tf, PeriodStart(tf, t, f), f) == PeriodStart(tf, t, f))
    && (forall t, u :: t <= u ==> PeriodStart(tf, t, f) <= PeriodStart(tf, u, f))
    && (forall t, u :: tf.format(t, f) == tf.format(u, f) <==> PeriodStart(tf, t, f) == PeriodStart(tf, u, f))
    && (forall g, t, u :: g in cfg && tf.format(t, f) == tf.format(u, g) ==> g == f)
  }

  /** Labels of the format are held at least to the end of their period. */
  ghost predicate OutlastsPeriods(tf: TimeFormat, cfg: RetentionConfig, f: string)
    requires f in cfg
  {
    forall t :: t <= PeriodStart(tf, t, f) + cfg[f]
  }

  ghost predicate NeverParses(tf: TimeFormat, f: string) {
    forall t :: tf.parse(tf.format(t, f), f).None?
  }

  /** Every configured format is well behaved, or its labels are never added at all. */
  ghost predicate AreRegular(tf: TimeFormat, cfg: RetentionConfig) {
    forall f :: f in cfg ==> (NamesPeriods(tf, cfg, f) && OutlastsPeriods(tf, cfg, f)) || NeverParses(tf, f)
  }

  /** All labels of a well behaved format are regular. */
  lemma RegularNames(tf: TimeFormat, cfg: RetentionConfig, f: string, u: Time)
    requires f in cfg && NamesPeriods(tf, cfg, f) && OutlastsPeriods(tf, cfg, f)
    ensures IsRegular(tf, cfg, f, tf.format(u, f))
    ensures tf.parse(tf.format(u, f), f) == Some(PeriodStart(tf, u, f))
  {
    var name, p := tf.format(u, f), PeriodStart(tf, u, f);
    forall t, v | p <= t <= v && tf.format(v, f) == name
      ensures tf.format(t, f) == name
    {
      assert PeriodStart(tf, p, f) <= PeriodStart(tf, t, f) <= PeriodStart(tf, v, f);
    }
  }
}
