/** The labels of one location over its whole life: everything that happened to them, in every
    process that loaded them, as far as it was saved. */
module Lineage {
  import opened Common
  import opened LabelManager
  import opened LabelRuns
  import opened Labels
  import opened RetentionStore
  import opened StorageProtocol

  /** Entries were removed without labels, or after somebody else had deleted the object. */
  ghost predicate DropsJustified(h: History, steps: seq<Step>)
    requires |h.states| == |h.events| + 1
  {
    forall i :: 0 <= i < |h.events| && h.events[i].Drop? ==>
      Vanish(h.events[i].entry) in steps || LabelsOf(h.states[i].entries, h.events[i].entry) == []
  }

  /** A history that the storage of one location can make, up to the time `now` and in the course of
      these steps. `named` tells that no backup had the empty name. */
  ghost predicate IsLineage(tf: TimeFormat, cfg: RetentionConfig, h: History, now: Time, steps: seq<Step>, named: bool) {
    && h.IsRun(tf) && h.states[0] == State(map[], map[])
    && OnSchedule(tf, cfg, h.events, now)
    && DropsJustified(h, steps)
    && (named ==> Named(h.events))
  }

  const UNUSED: History := History([State(map[], map[])], [])

  lemma UnusedLineage(tf: TimeFormat, cfg: RetentionConfig, now: Time, steps: seq<Step>)
    ensures IsLineage(tf, cfg, UNUSED, now, steps, true)
  {
  }

  lemma LineageLater(tf: TimeFormat, cfg: RetentionConfig, h: History, now: Time, steps: seq<Step>, named: bool,
                     now': Time, steps': seq<Step>, named': bool)
    requires IsLineage(tf, cfg, h, now, steps, named)
    requires now <= now' && steps <= steps' && (named' ==> named)
    ensures IsLineage(tf, cfg, h, now', steps', named')
  {
    forall i | 0 <= i < |h.events| && h.events[i].Drop? && Vanish(h.events[i].entry) in steps
      ensures Vanish(h.events[i].entry) in steps'
    {
      var j :| 0 <= j < |steps| && steps[j] == Vanish(h.events[i].entry);
      assert steps'[j] == steps[j];
    }
  }

  /** A cleanup, a justified removal or a reload continues a lineage. */
  lemma LineageNext(tf: TimeFormat, cfg: RetentionConfig, h: History, ev: Event, s: State, now: Time, steps: seq<Step>,
                    named: bool)
    requires IsLineage(tf, cfg, h, now, steps, named) && h.Then(ev, s).IsRun(tf) && !ev.Grant?
    requires ev.Clean? ==> ev == Clean(cfg, now)
    requires ev.Drop? ==> Vanish(ev.entry) in steps || LabelsOf(Last(h.states).entries, ev.entry) == []
    ensures IsLineage(tf, cfg, h.Then(ev, s), now, steps, named)
  {
    OnScheduleNext(tf, cfg, h.events, ev, now);
    var more := h.Then(ev, s);
    forall i | 0 <= i < |more.events| && more.events[i].Drop?
      ensures Vanish(more.events[i].entry) in steps || LabelsOf(more.states[i].entries, more.events[i].entry) == []
    {
      if i < |h.events| {
        assert more.events[i] == h.events[i] && more.states[i] == h.states[i];
      }
    }
  }

  /** So does the addition of a backup. */
  lemma LineageAdd(tf: TimeFormat, cfg: RetentionConfig, h: History, more: History, entry: string, now: Time,
                   order: seq<string>, steps: seq<Step>, named: bool)
    requires IsLineage(tf, cfg, h, now, steps, named) && more.IsRun(tf) && h.states <= more.states
    requires (forall f :: f in order <==> f in cfg) && more.events == h.events + Attempts(tf, cfg, entry, now, order)
    requires named ==> entry != ""
    ensures IsLineage(tf, cfg, more, now, steps, named)
  {
    AddReadsOnce(tf, cfg, h.events, entry, now, order);
    forall i | 0 <= i < |more.events| && more.events[i].Drop?
      ensures Vanish(more.events[i].entry) in steps || LabelsOf(more.states[i].entries, more.events[i].entry) == []
    {
      assert i < |h.events|;
      assert more.events[i] == h.events[i] && more.states[i] == h.states[i];
    }
  }

  /** A lineage with named backups and no outside deletions is a run of the kind that the theorems
      about labels speak of: in particular its cleanups never remove the holder of a label. */
  lemma LineageIsSerial(tf: TimeFormat, cfg: RetentionConfig, h: History, now: Time, steps: seq<Step>)
    requires IsLineage(tf, cfg, h, now, steps, true) && forall name :: Vanish(name) !in steps
    ensures IsSerial(tf, cfg, h) && HoldersStay(h) && OneReading(cfg, h.events)
  {
  }

  /** In such a lineage a label that outlasts its name, and shares it with no other format, is held by
      the first backup that attempted it, until a cleanup after its hold time, and never by another. */
  lemma FirstOwns(tf: TimeFormat, cfg: RetentionConfig, h: History, now: Time, steps: seq<Step>, f: string, name: string, e: string)
    requires IsLineage(tf, cfg, h, now, steps, true) && forall backup :: Vanish(backup) !in steps
    requires f in cfg && tf.parse(name, f).Some? && OnlyFormat(tf, cfg, f, name) && Outlasts(tf, cfg, f, name)
    ensures Holds(Last(h.states).entries, e, name) <==>
      (OwnerOf(h.events, f, name) == Some(e) && !CleanedAfter(h.events, ExpiryOf(tf, cfg, f, name)))
  {
    LineageIsSerial(tf, cfg, h, now, steps);
    assert HolderStays(h, name);
    FirstAttemptOwns(tf, cfg, h, f, name);
  }

  /** A changed configuration. The labels come from a run under the old one; then a cleanup runs to its
      end under the new one. It deletes exactly the listed backups all of whose labels have passed the
      new hold time of their format, or the old one where the new configuration has none. */
  lemma ReconfiguredCleanup(tf: TimeFormat, was: RetentionConfig, cfg: RetentionConfig, h: History, now: Time,
                            steps: seq<Step>, named: bool, r: Run, name: string)
    requires IsLineage(tf, was, h, now, steps, named) && IsCompleteCleanup(tf, cfg, r, Last(h.states).entries)
    requires name in r.worlds[0].objects
    ensures var es, later := Last(h.states).entries, Last(r.worlds).now;
      name !in Last(r.worlds).objects
      <==> name in es && forall l :: l in es[name] ==>
        l.format in was && tf.parse(l.name, l.format).Some?
        && later > tf.parse(l.name, l.format).value
                   + (if l.format in cfg && cfg[l.format] > 0 then cfg[l.format] else was[l.format])
  {
    var es := Last(h.states).entries;
    DeletedExactly(tf, cfg, r, es, name);
    AlwaysProper(tf, was, h);
    if name in es {
      forall l | l in es[name]
        ensures IsProper(tf, was, l)
      {
        assert HoldsLabel(es, name, l);
      }
    }
  }
}
