/** The status conditions of a backup object: one per component, and "Ready" derived from them. */
module Status {
  import opened Common

  datatype ConditionStatus = True | False | Unknown

  datatype Condition = Condition(
    type_: string, status: ConditionStatus, generation: int, changed: int, reason: string, message: string
  )

  const SECRET_EXISTS := "db-backup.nect.com/secretExists"
  const SERVICE_EXISTS := "db-backup.nect.com/serviceExists"
  const STS_EXISTS := "db-backup.nect.com/stsExists"
  const READY := "Ready"

  const COMPONENTS: seq<string> := [SECRET_EXISTS, SERVICE_EXISTS, STS_EXISTS]

  predicate IsComponent(t: string) {
    t == SECRET_EXISTS || t == SERVICE_EXISTS || t == STS_EXISTS
  }

  // ----- What the list of conditions says -----

  function Count(cs: seq<Condition>, t: string): nat {
    if cs == [] then 0 else Count(Init(cs), t) + (if Last(cs).type_ == t then 1 else 0)
  }

  function StatusOf(cs: seq<Condition>, t: string): Option<ConditionStatus> {
    if cs == [] then None
    else if Last(cs).type_ == t then Some(Last(cs).status)
    else StatusOf(Init(cs), t)
  }

  /** Some component's condition has the status. */
  ghost predicate SomeComponent(cs: seq<Condition>, s: ConditionStatus) {
    exists i :: 0 <= i < |cs| && IsComponent(cs[i].type_) && cs[i].status == s
  }

  /** False wins over Unknown and Unknown over True, in whatever order the conditions are listed. */
  ghost function ReadyOf(cs: seq<Condition>): ConditionStatus {
    if SomeComponent(cs, False) then False
    else if SomeComponent(cs, Unknown) then Unknown
    else True
  }

  function Message(s: ConditionStatus): string {
    match s
    case True => "Everything looks fine"
    case Unknown => "One or more conditions are in unknown state"
    case False => "One or more conditions are not fine"
  }

  /** The same condition, up to the time of its last change. */
  predicate SaysTheSame(a: Condition, b: Condition) {
    a.type_ == b.type_ && a.status == b.status && a.reason == b.reason && a.message == b.message
    && a.generation == b.generation
  }

  predicate AlreadySaid(cs: seq<Condition>, c: Condition) {
    exists i :: 0 <= i < |cs| && SaysTheSame(cs[i], c)
  }

  function Replaced(cs: seq<Condition>, c: Condition): seq<Condition> {
    if cs == [] then [] else Replaced(Init(cs), c) + [if Last(cs).type_ == c.type_ then c else Last(cs)]
  }

  function WithCondition(cs: seq<Condition>, c: Condition): seq<Condition> {
    if AlreadySaid(cs, c) then cs
    else Replaced(cs, c) + (if Count(cs, c.type_) == 0 then [c] else [])
  }

  lemma {:induction false} ReplacedSays(cs: seq<Condition>, c: Condition, t: string)
    ensures Count(Replaced(cs, c), t) == Count(cs, t)
    ensures StatusOf(Replaced(cs, c), t) ==
      if t == c.type_ && Count(cs, t) > 0 then Some(c.status) else StatusOf(cs, t)
  {
    if cs != [] {
      ReplacedSays(Init(cs), c, t);
      assert Init(Replaced(cs, c)) == Replaced(Init(cs), c);
    }
  }

  lemma {:induction false} Counts(cs: seq<Condition>, i: nat)
    requires i < |cs|
    ensures Count(cs, cs[i].type_) >= 1
    ensures Count(cs, cs[i].type_) == 1 ==> StatusOf(cs, cs[i].type_) == Some(cs[i].status)
  {
    if i < |cs| - 1 {
      assert Init(cs)[i] == cs[i];
      Counts(Init(cs), i);
    }
  }

  lemma {:induction false} StatusListed(cs: seq<Condition>, t: string)
    ensures StatusOf(cs, t).None? <==> Count(cs, t) == 0
    ensures StatusOf(cs, t).Some? ==> exists i :: 0 <= i < |cs| && cs[i].type_ == t && Some(cs[i].status) == StatusOf(cs, t)
  {
    if cs != [] {
      StatusListed(Init(cs), t);
      if Last(cs).type_ != t && StatusOf(cs, t).Some? {
        var i :| 0 <= i < |Init(cs)| && Init(cs)[i].type_ == t && Some(Init(cs)[i].status) == StatusOf(cs, t);
        assert cs[i] == Init(cs)[i];
      }
    }
  }

  /** Setting a condition that occurs at most once: it occurs exactly once with the new status, and
      every other type is left as it was. */
  lemma SetSays(cs: seq<Condition>, c: Condition, t: string)
    requires Count(cs, c.type_) <= 1
    ensures Count(WithCondition(cs, c), t) == if t == c.type_ then 1 else Count(cs, t)
    ensures StatusOf(WithCondition(cs, c), t) == if t == c.type_ then Some(c.status) else StatusOf(cs, t)
  {
    if AlreadySaid(cs, c) {
      var i :| 0 <= i < |cs| && SaysTheSame(cs[i], c);
      Counts(cs, i);
    } else {
      ReplacedSays(cs, c, t);
      if Count(cs, c.type_) == 0 {
        assert Init(Replaced(cs, c) + [c]) == Replaced(cs, c);
      } else {
        assert Replaced(cs, c) + [] == Replaced(cs, c);
      }
    }
  }

  /** The condition of that type, when there is one. */
  function ConditionOf(cs: seq<Condition>, t: string): Option<Condition> {
    if cs == [] then None
    else if Last(cs).type_ == t then Some(Last(cs))
    else ConditionOf(Init(cs), t)
  }

  lemma {:induction false} ReplacedConditions(cs: seq<Condition>, c: Condition, t: string)
    ensures ConditionOf(Replaced(cs, c), t) ==
      if t == c.type_ && Count(cs, t) > 0 then Some(c) else ConditionOf(cs, t)
  {
    if cs != [] {
      ReplacedConditions(Init(cs), c, t);
      assert Init(Replaced(cs, c)) == Replaced(Init(cs), c);
    }
  }

  lemma {:induction false} OnlyCondition(cs: seq<Condition>, i: nat)
    requires i < |cs| && Count(cs, cs[i].type_) == 1
    ensures ConditionOf(cs, cs[i].type_) == Some(cs[i])
  {
    if i < |cs| - 1 {
      assert Init(cs)[i] == cs[i];
      Counts(Init(cs), i);
      OnlyCondition(Init(cs), i);
    }
  }

  /** The condition of that type says this. */
  ghost predicate Says(cs: seq<Condition>, t: string, status: ConditionStatus, generation: int, reason: string, message: string) {
    match ConditionOf(cs, t)
    case None => false
    case Some(c) => c == Condition(t, status, generation, c.changed, reason, message)
  }

  /** "Ready" says what is derived from the components, with its reason and message. */
  ghost predicate SaysReady(cs: seq<Condition>, generation: int) {
    match ReadyOf(cs)
    case True => Says(cs, READY, True, generation, "calculateReady", "Everything looks fine")
    case Unknown => Says(cs, READY, Unknown, generation, "calculateReady", "One or more conditions are in unknown state")
    case False => Says(cs, READY, False, generation, "calculateReady", "One or more conditions are not fine")
  }

  /** Setting a condition makes it the only one of its type, with the new status, generation, reason and
      message. Its time is the new one, unless it said exactly that before: then it keeps its time. All
      other conditions are as before. */
  lemma SetIsTheOnly(cs: seq<Condition>, c: Condition)
    requires Count(cs, c.type_) <= 1
    ensures var after, before := WithCondition(cs, c), ConditionOf(cs, c.type_);
      && Count(after, c.type_) == 1
      && ConditionOf(after, c.type_) == 
           Some(if before.Some? && before.value == c.(changed := before.value.changed) then before.value else c)
      && forall t :: t != c.type_ ==> ConditionOf(after, t) == ConditionOf(cs, t)
  {
    SetSays(cs, c, c.type_);
    if AlreadySaid(cs, c) {
      var i :| 0 <= i < |cs| && SaysTheSame(cs[i], c);
      Counts(cs, i);
      OnlyCondition(cs, i);
    } else {
      ConditionListed(cs, c.type_);
      forall t
        ensures ConditionOf(WithCondition(cs, c), t) == if t == c.type_ then Some(c) else ConditionOf(cs, t)
      {
        ReplacedConditions(cs, c, t);
        if Count(cs, c.type_) == 0 {
          assert Init(Replaced(cs, c) + [c]) == Replaced(cs, c);
        } else {
          assert Replaced(cs, c) + [] == Replaced(cs, c);
        }
      }
    }
  }

  lemma {:induction false} ConditionListed(cs: seq<Condition>, t: string)
    ensures ConditionOf(cs, t).Some? ==> exists i :: 0 <= i < |cs| && cs[i].type_ == t && Some(cs[i]) == ConditionOf(cs, t)
  {
    if cs != [] && Last(cs).type_ != t && ConditionOf(cs, t).Some? {
      ConditionListed(Init(cs), t);
      var i :| 0 <= i < |Init(cs)| && Init(cs)[i].type_ == t && Some(Init(cs)[i]) == ConditionOf(cs, t);
      assert cs[i] == Init(cs)[i];
    }
  }

  /** Every component has one condition, and so has "Ready". */
  ghost predicate Complete(cs: seq<Condition>) {
    Count(cs, READY) == 1 && forall t :: IsComponent(t) ==> Count(cs, t) == 1
  }

  /** With one condition for every component, "Ready" depends on their statuses only. */
  lemma ReadyDepends(cs: seq<Condition>, s: ConditionStatus)
    requires forall t :: IsComponent(t) ==> Count(cs, t) == 1
    ensures SomeComponent(cs, s) <==>
      Some(s) in [StatusOf(cs, SECRET_EXISTS), StatusOf(cs, SERVICE_EXISTS), StatusOf(cs, STS_EXISTS)]
  {
    if SomeComponent(cs, s) {
      var i :| 0 <= i < |cs| && IsComponent(cs[i].type_) && cs[i].status == s;
      Counts(cs, i);
    }
    StatusListed(cs, SECRET_EXISTS);
    StatusListed(cs, SERVICE_EXISTS);
    StatusListed(cs, STS_EXISTS);
  }

  /** Reordering the conditions does not change "Ready". */
  lemma ReadyIgnoresOrder(cs: seq<Condition>, ds: seq<Condition>)
    requires multiset(cs) == multiset(ds)
    ensures ReadyOf(cs) == ReadyOf(ds)
  {
    forall s
      ensures SomeComponent(cs, s) <==> SomeComponent(ds, s)
    {
      if SomeComponent(cs, s) {
        var i :| 0 <= i < |cs| && IsComponent(cs[i].type_) && cs[i].status == s;
        assert cs[i] in multiset(ds);
        assert cs[i] in ds;
      }
      if SomeComponent(ds, s) {
        var i :| 0 <= i < |ds| && IsComponent(ds[i].type_) && ds[i].status == s;
        assert ds[i] in multiset(cs);
        assert ds[i] in cs;
      }
    }
  }

  // ----- The status object -----

  class DatabaseBackupStatus {
    var Conditions: seq<Condition>

    constructor ()
      ensures Conditions == []
    {
      Conditions := [];
    }

    /** Replaces the condition of that type, or appends it; a condition that says the same already
        leaves the list untouched. */
    method SetCondition(condType: string, generation: int, status: ConditionStatus, reason: string, message: string, now: int)
      modifies this
      ensures Conditions == WithCondition(old(Conditions), Condition(condType, status, generation, now, reason, message))
    {
      var found := false;
      var nc := Condition(condType, status, generation, now, reason, message);
      var tmp: seq<Condition> := [];
      for i := 0 to |Conditions|
        invariant Conditions == old(Conditions)
        invariant tmp == Replaced(Conditions[..i], nc) && (found <==> Count(Conditions[..i], condType) > 0)
        invariant forall j :: 0 <= j < i ==> !SaysTheSame(Conditions[j], nc)
      {
        var cond := Conditions[i];
        assert Init(Conditions[..i + 1]) == Conditions[..i];
        if cond.type_ != condType {
          tmp := tmp + [cond];
          continue;
        }
        if cond.status == nc.status && cond.reason == nc.reason && cond.message == nc.message
          && cond.generation == nc.generation {
          assert SaysTheSame(Conditions[i], nc);
          return;
        }
        tmp := tmp + [nc];
        found := true;
      }
      assert Conditions[..|Conditions|] == Conditions;
      if !found {
        tmp := tmp + [nc];
      } else {
        assert tmp + [] == tmp;
      }
      Conditions := tmp;
    }

    /** Derives "Ready" from the components. */
    method CalculateReady(generation: int, now: int)
      modifies this
      ensures var ready := ReadyOf(old(Conditions));
        Conditions == WithCondition(old(Conditions), Condition(READY, ready, generation, now, "calculateReady", Message(ready)))
    {
      var message := Message(True);
      var readyStatus := True;
      for i := 0 to |Conditions|
        invariant Conditions == old(Conditions)
        invariant readyStatus == ReadyOf(Conditions[..i]) && message == Message(readyStatus)
      {
        var cond := Conditions[i];
        assert Conditions[..i + 1] == Conditions[..i] + [cond];
        OneMore(Conditions[..i], cond);
        if !IsComponent(cond.type_) {
          continue;
        }
        if cond.status == Unknown && readyStatus == True {
          message, readyStatus := "One or more conditions are in unknown state", Unknown;
        } else if cond.status == Unknown {
        } else if cond.status != True {
          message, readyStatus := "One or more conditions are not fine", False;
        }
      }
      assert Conditions[..|Conditions|] == Conditions;
      SetCondition(READY, generation, readyStatus, "calculateReady", message, now);
    }

    method Set(condType: string, generation: int, status: ConditionStatus, reason: string, message: string, now: int)
      modifies this
      ensures Complete(old(Conditions)) && IsComponent(condType) ==>
        && Complete(Conditions)
        && StatusOf(Conditions, READY) == Some(ReadyOf(Conditions))
        && StatusOf(Conditions, condType) == Some(status)
        && (forall t :: t != condType && t != READY ==> StatusOf(Conditions, t) == StatusOf(old(Conditions), t))
        && Says(Conditions, condType, status, generation, reason, message)
        && SaysReady(Conditions, generation)
        && (forall t :: t != condType && t != READY ==> ConditionOf(Conditions, t) == ConditionOf(old(Conditions), t))
    {
      ghost var before := Conditions;
      SetCondition(condType, generation, status, reason, message, now);
      ghost var middle := Conditions;
      CalculateReady(generation, now);
      if Complete(before) && IsComponent(condType) {
        forall t
          ensures Count(middle, t) == if t == condType then 1 else Count(before, t)
          ensures StatusOf(middle, t) == if t == condType then Some(status) else StatusOf(before, t)
        {
          SetSays(before, Condition(condType, status, generation, now, reason, message), t);
        }
        DerivedReady(middle, Conditions, generation, now);
        SetIsTheOnly(before, Condition(condType, status, generation, now, reason, message));
        SetIsTheOnly(middle, Condition(READY, ReadyOf(middle), generation, now, "calculateReady", Message(ReadyOf(middle))));
      }
    }

    /** The three components start out as not existing, whatever was said about them before; other
        conditions stay. This takes a list in which none of the four types occurs twice. */
    method InitStatus(generation: int, now: int)
      modifies this
      ensures IsPlain(old(Conditions)) ==> IsReset(old(Conditions), Conditions, generation)
    {
      for i := 0 to 3
        invariant IsPlain(old(Conditions)) ==> IsInitialized(old(Conditions), Conditions, i, generation)
      {
        ghost var before := Conditions;
        SetCondition(COMPONENTS[i], generation, False, "init", "Object status initialized", now);
        if IsPlain(old(Conditions)) {
          InitializeNext(old(Conditions), before, i, Condition(COMPONENTS[i], False, generation, now, "init", "Object status initialized"));
        }
      }
      ghost var middle := Conditions;
      CalculateReady(generation, now);
      if IsPlain(old(Conditions)) {
        InitializedReady(old(Conditions), middle, Conditions, generation, now);
      }
    }
  }

  /** The three components and "Ready" occur once and are False, and all else is as before. */
  ghost predicate IsReset(before: seq<Condition>, cs: seq<Condition>, generation: int) {
    && Complete(cs) && StatusOf(cs, READY) == Some(False) && SaysReady(cs, generation)
    && (forall t :: IsComponent(t) ==>
      StatusOf(cs, t) == Some(False) && Says(cs, t, False, generation, "init", "Object status initialized"))
    && (forall t :: !IsComponent(t) && t != READY ==>
      ConditionOf(cs, t) == ConditionOf(before, t) && StatusOf(cs, t) == StatusOf(before, t))
  }

  lemma InitializedReady(before: seq<Condition>, cs: seq<Condition>, ds: seq<Condition>, generation: int, now: int)
    requires IsPlain(before) && IsInitialized(before, cs, 3, generation)
    requires ds == WithCondition(cs, Condition(READY, ReadyOf(cs), generation, now, "calculateReady", Message(ReadyOf(cs))))
    ensures IsReset(before, ds, generation)
  {
    forall t
      ensures IsComponent(t) ==>
        Count(cs, t) == 1 && StatusOf(cs, t) == Some(False) && Says(cs, t, False, generation, "init", "Object status initialized")
      ensures !IsComponent(t) ==>
        Count(cs, t) == Count(before, t) && StatusOf(cs, t) == StatusOf(before, t) && ConditionOf(cs, t) == ConditionOf(before, t)
    {
      AllInitialized(before, cs, generation, t);
    }
    ReadyDepends(cs, False);
    DerivedReady(cs, ds, generation, now);
    SetIsTheOnly(cs, Condition(READY, False, generation, now, "calculateReady", Message(False)));
  }

  lemma AllInitialized(before: seq<Condition>, cs: seq<Condition>, generation: int, t: string)
    requires IsInitialized(before, cs, 3, generation)
    ensures IsComponent(t) ==>
      Count(cs, t) == 1 && StatusOf(cs, t) == Some(False) && Says(cs, t, False, generation, "init", "Object status initialized")
    ensures !IsComponent(t) ==>
      Count(cs, t) == Count(before, t) && StatusOf(cs, t) == StatusOf(before, t) && ConditionOf(cs, t) == ConditionOf(before, t)
  {
    TakeAll(COMPONENTS);
    assert IsInitializedAt(before, cs, 3, generation, t);
    assert IsComponent(t) <==> t in COMPONENTS;
  }

  /** No component occurs twice, and neither does "Ready". */
  ghost predicate IsPlain(cs: seq<Condition>) {
    Count(cs, READY) <= 1 && forall t :: IsComponent(t) ==> Count(cs, t) <= 1
  }

  /** A type is initialized when it is among the first `n` components, and as before otherwise. */
  ghost predicate IsInitializedAt(before: seq<Condition>, cs: seq<Condition>, n: nat, generation: int, t: string)
    requires n <= 3
  {
    if t in COMPONENTS[..n] then
      && Count(cs, t) == 1 && StatusOf(cs, t) == Some(False)
      && Says(cs, t, False, generation, "init", "Object status initialized")
    else
      Count(cs, t) == Count(before, t) && StatusOf(cs, t) == StatusOf(before, t) && ConditionOf(cs, t) == ConditionOf(before, t)
  }

  ghost predicate IsInitialized(before: seq<Condition>, cs: seq<Condition>, n: nat, generation: int)
    requires n <= 3
  {
    forall t :: IsInitializedAt(before, cs, n, generation, t)
  }

  lemma InitializeNextAt(before: seq<Condition>, cs: seq<Condition>, n: nat, c: Condition, t: string)
    requires n < 3 && IsInitializedAt(before, cs, n, c.generation, t) && Count(cs, c.type_) <= 1
    requires c == Condition(COMPONENTS[n], False, c.generation, c.changed, "init", "Object status initialized")
    ensures IsInitializedAt(before, WithCondition(cs, c), n + 1, c.generation, t)
  {
    TakeNext(COMPONENTS, n);
    SetIsTheOnly(cs, c);
    SetSays(cs, c, t);
  }

  lemma InitializeNext(before: seq<Condition>, cs: seq<Condition>, n: nat, c: Condition)
    requires n < 3 && IsPlain(before) && IsInitialized(before, cs, n, c.generation)
    requires c == Condition(COMPONENTS[n], False, c.generation, c.changed, "init", "Object status initialized")
    ensures IsInitialized(before, WithCondition(cs, c), n + 1, c.generation)
  {
    assert IsInitializedAt(before, cs, n, c.generation, c.type_);
    assert IsComponent(c.type_) && c.type_ !in COMPONENTS[..n];
    var next := n + 1;
    forall t: string
      ensures IsInitializedAt(before, WithCondition(cs, c), next, c.generation, t)
    {
      InitializeNextAt(before, cs, n, c, t);
    }
  }

  lemma OneMore(cs: seq<Condition>, c: Condition)
    ensures forall s :: SomeComponent(cs + [c], s) <==> SomeComponent(cs, s) || (IsComponent(c.type_) && c.status == s)
  {
    forall s
      ensures SomeComponent(cs + [c], s) <==> SomeComponent(cs, s) || (IsComponent(c.type_) && c.status == s)
    {
      if SomeComponent(cs, s) {
        var i :| 0 <= i < |cs| && IsComponent(cs[i].type_) && cs[i].status == s;
        assert (cs + [c])[i] == cs[i];
      }
      if IsComponent(c.type_) && c.status == s {
        assert (cs + [c])[|cs|] == c;
      }
    }
  }

  /** Deriving "Ready" leaves the components alone. */
  lemma DerivedReady(cs: seq<Condition>, ds: seq<Condition>, generation: int, now: int)
    requires Count(cs, READY) <= 1 && forall t :: IsComponent(t) ==> Count(cs, t) == 1
    requires ds == WithCondition(cs, Condition(READY, ReadyOf(cs), generation, now, "calculateReady", Message(ReadyOf(cs))))
    ensures Complete(ds) && StatusOf(ds, READY) == Some(ReadyOf(cs)) && ReadyOf(ds) == ReadyOf(cs)
    ensures forall t :: t != READY ==> StatusOf(ds, t) == StatusOf(cs, t)
  {
    var c := Condition(READY, ReadyOf(cs), generation, now, "calculateReady", Message(ReadyOf(cs)));
    forall t
      ensures Count(ds, t) == if t == READY then 1 else Count(cs, t)
      ensures StatusOf(ds, t) == if t == READY then Some(c.status) else StatusOf(cs, t)
    {
      SetSays(cs, c, t);
    }
    ReadyDepends(cs, False);
    ReadyDepends(cs, Unknown);
    ReadyDepends(ds, False);
    ReadyDepends(ds, Unknown);
  }

  /** The status that a component was last set to; it starts out as False. */
  function LastSet(sets: seq<Condition>, t: string): ConditionStatus {
    if sets == [] then False
    else if Last(sets).type_ == t then Last(sets).status
    else LastSet(Init(sets), t)
  }

  function Derived(a: ConditionStatus, b: ConditionStatus, c: ConditionStatus): ConditionStatus {
    if a == False || b == False || c == False then False
    else if a == Unknown || b == Unknown || c == Unknown then Unknown
    else True
  }

  lemma ReadyIsDerived(cs: seq<Condition>)
    requires Complete(cs)
    ensures forall t :: IsComponent(t) ==> StatusOf(cs, t).Some?
    ensures ReadyOf(cs) == Derived(StatusOf(cs, SECRET_EXISTS).value, StatusOf(cs, SERVICE_EXISTS).value,
                                   StatusOf(cs, STS_EXISTS).value)
  {
    forall t | IsComponent(t)
      ensures StatusOf(cs, t).Some?
    {
      StatusListed(cs, t);
    }
    ReadyDepends(cs, False);
    ReadyDepends(cs, Unknown);
  }

  /** The last set of a component, if there was one. */
  function LastSetOf(sets: seq<Condition>, t: string): Option<Condition> {
    if sets == [] then None
    else if Last(sets).type_ == t then Some(Last(sets))
    else LastSetOf(Init(sets), t)
  }

  /** Every type occurs once, every component says what it was last set to, with reason, message and
      generation, and "Ready" is derived from the three. */
  ghost predicate Reflects(cs: seq<Condition>, sets: seq<Condition>) {
    && Complete(cs)
    && (forall t :: IsComponent(t) ==> StatusOf(cs, t) == Some(LastSet(sets, t)))
    && (forall t :: IsComponent(t) && LastSetOf(sets, t).Some? ==>
      var c := LastSetOf(sets, t).value;
      Says(cs, t, c.status, c.generation, c.reason, c.message))
    && StatusOf(cs, READY) ==
      Some(Derived(LastSet(sets, SECRET_EXISTS), LastSet(sets, SERVICE_EXISTS), LastSet(sets, STS_EXISTS)))
  }

  /** After initialising, the conditions reflect any sequence of sets, each at its own time and with
      its own generation, reason and message. */
  method ApplySets(generation: int, now: int, sets: seq<Condition>) returns (cs: seq<Condition>)
    requires forall i :: 0 <= i < |sets| ==> IsComponent(sets[i].type_)
    ensures Reflects(cs, sets)
  {
    var status := new DatabaseBackupStatus();
    status.InitStatus(generation, now);
    ReadyDepends(status.Conditions, False);
    for i := 0 to |sets|
      invariant fresh(status) && Complete(status.Conditions)
      invariant StatusOf(status.Conditions, READY) == Some(ReadyOf(status.Conditions))
      invariant forall t :: IsComponent(t) ==> StatusOf(status.Conditions, t) == Some(LastSet(sets[..i], t))
      invariant forall t :: IsComponent(t) && LastSetOf(sets[..i], t).Some? ==>
        var c := LastSetOf(sets[..i], t).value;
        Says(status.Conditions, t, c.status, c.generation, c.reason, c.message)
    {
      assert Init(sets[..i + 1]) == sets[..i];
      var c := sets[i];
      status.Set(c.type_, c.generation, c.status, c.reason, c.message, c.changed);
    }
    assert sets[..|sets|] == sets;
    cs := status.Conditions;
    ReadyIsDerived(cs);
  }
}
