/** The finalizer protocol of the controller. The handlers for one backup object run one at a time,
    but every API call may fail, with or without effect, and between any two calls users may delete
    and create the object and other controllers may change their own finalizers. */
module Finalizers {
  import opened Common

  const FINALIZER := "db-backup.nect.com/finalizer"

  datatype Kind = Secret | Service | StatefulSet

  const ALL_KINDS: set<Kind> := {Secret, Service, StatefulSet}

  datatype Object = Object(finalizers: seq<string>, deleting: bool, hash: string)

  /** The backup object, and the resources that the controller owns for it. What a resource contains
      stands for the hash of the generated resources that it was written from. */
  datatype State = State(object_: Option<Object>, resources: map<Kind, string>) {
    /** The object carries our finalizer. */
    predicate Claimed() {
      object_.Some? && FINALIZER in object_.value.finalizers
    }

    /** It is ours and waits for us to let it go. */
    predicate Doomed() {
      Claimed() && object_.value.deleting
    }
  }

  /** A claimed object is still claimed, with the same stored hash; a doomed one is still doomed. */
  predicate Keeps(a: State, b: State) {
    && (a.Claimed() ==> b.Claimed() && b.object_.value.hash == a.object_.value.hash)
    && (a.Doomed() ==> b.Doomed())
  }

  /** An object that is being deleted goes away with its last finalizer. */
  function Collected(o: Object): Option<Object> {
    if o.deleting && o.finalizers == [] then None else Some(o)
  }

  datatype Step =
    | UserCreates(object_: Object)
    | UserDeletes
    | OthersPatch(finalizers: seq<string>)
    | Patch(finalizers: seq<string>)
    | WriteStatus(hash: string)
    | Upsert(kind: Kind, content: string)
    | Remove(kind: Kind)

  predicate IsForeign(s: Step) {
    s.UserCreates? || s.UserDeletes? || s.OthersPatch?
  }

  /** The steps and what they need: we give up our finalizer only when no resource is left, and make
      resources only for a claimed object. */
  ghost predicate Takes(a: State, s: Step, b: State) {
    match s
    case UserCreates(o) => a.object_.None? && !o.deleting && b == a.(object_ := Some(o))
    case UserDeletes =>
      a.object_.Some? && b == a.(object_ := Collected(a.object_.value.(deleting := true)))
    case OthersPatch(fs) =>
      && a.object_.Some? && (FINALIZER in fs <==> a.Claimed())
      && b == a.(object_ := Collected(a.object_.value.(finalizers := fs)))
    case Patch(fs) =>
      && a.object_.Some? && (FINALIZER in fs || a.resources == map[])
      && b == a.(object_ := Collected(a.object_.value.(finalizers := fs)))
    case WriteStatus(hash) => a.object_.Some? && b == a.(object_ := Some(a.object_.value.(hash := hash)))
    case Upsert(k, content) => a.Claimed() && b == a.(resources := a.resources[k := content])
    case Remove(k) => b == a.(resources := a.resources - {k})
  }

  /** Owned resources exist only while the object carries our finalizer. */
  predicate Safe(s: State) {
    s.resources != map[] ==> s.Claimed()
  }

  datatype Run = Run(states: seq<State>, steps: seq<Step>) {
    ghost predicate Valid() {
      && |states| == |steps| + 1
      && forall i {:trigger steps[i]} :: 0 <= i < |steps| ==> Takes(states[i], steps[i], states[i + 1])
    }

    ghost function Then(step: Step, s: State): Run {
      Run(states + [s], steps + [step])
    }
  }

  /** The run has gone on. */
  ghost predicate Grows(before: Run, after: Run) {
    before.states <= after.states && before.steps <= after.steps
  }

  /** Meanwhile only users and other controllers have done anything. */
  ghost predicate OnlyForeign(before: Run, after: Run) {
    Grows(before, after) && forall j :: |before.steps| <= j < |after.steps| ==> IsForeign(after.steps[j])
  }

  /** Meanwhile we have not patched the finalizers. */
  ghost predicate NoPatch(before: Run, after: Run) {
    Grows(before, after) && forall j :: |before.steps| <= j < |after.steps| ==> !after.steps[j].Patch?
  }

  /** Meanwhile every patch of ours has sent exactly the other finalizers, in their order, that the
      object carried at some moment since. */
  ghost predicate KeepsOthers(before: Run, after: Run) {
    && Grows(before, after)
    && forall j :: |before.steps| <= j < |after.steps| && after.steps[j].Patch? ==> SentOthers(after, |before.steps|, j)
  }

  ghost predicate SentOthers(r: Run, since: nat, j: nat)
    requires j < |r.steps| && r.steps[j].Patch?
  {
    exists i :: since <= i <= j && i < |r.states| && CarriesOthers(r.states[i], r.steps[j].finalizers)
  }

  ghost predicate CarriesOthers(s: State, fs: seq<string>) {
    s.object_.Some? && Others(s.object_.value.finalizers) == Others(fs)
  }

  lemma NoPatchKeepsOthers(before: Run, mid: Run, after: Run)
    requires KeepsOthers(before, mid) && NoPatch(mid, after)
    ensures KeepsOthers(before, after)
  {
    forall j | |before.steps| <= j < |after.steps| && after.steps[j].Patch?
      ensures SentOthers(after, |before.steps|, j)
    {
      assert mid.steps[j] == after.steps[j] && SentOthers(mid, |before.steps|, j);
      var i :| |before.steps| <= i <= j && i < |mid.states| && CarriesOthers(mid.states[i], mid.steps[j].finalizers);
      assert CarriesOthers(after.states[i], after.steps[j].finalizers);
    }
  }

  /** A handler that does nothing to finalizers, followed by one that keeps the others. */
  lemma KeepsOthersLater(before: Run, mid: Run, after: Run)
    requires NoPatch(before, mid) && KeepsOthers(mid, after)
    ensures KeepsOthers(before, after)
  {
    forall j | |before.steps| <= j < |after.steps| && after.steps[j].Patch?
      ensures SentOthers(after, |before.steps|, j)
    {
      assert j >= |mid.steps|;
      assert SentOthers(after, |mid.steps|, j);
    }
  }

  /** Sending the other finalizers of the object that was fetched, with or without ours. */
  lemma FetchedOthersSent(before: Run, fetched: Run, mid: Run, after: Run, b: Object, fs: seq<string>)
    requires fetched.states != [] && |fetched.states| == |fetched.steps| + 1 && after.Valid()
    requires NoPatch(before, fetched) && Last(fetched.states).object_ == Some(b) && Others(fs) == Others(b.finalizers)
    requires NoPatch(fetched, mid) && Grows(mid, after)
    requires forall j :: |mid.steps| <= j < |after.steps| ==> IsForeign(after.steps[j]) || after.steps[j] == Patch(fs)
    ensures KeepsOthers(before, after)
  {
    var n := |fetched.steps|;
    forall j | |before.steps| <= j < |after.steps| && after.steps[j].Patch?
      ensures SentOthers(after, |before.steps|, j)
    {
      assert j >= |fetched.steps|;
      assert j >= |mid.steps|;
      assert after.steps[j] == Patch(fs) && after.states[n] == Last(fetched.states);
      assert CarriesOthers(after.states[n], after.steps[j].finalizers);
    }
  }

  /** What the environment does never unclaims the object, saves it from deletion or touches
      resources. */
  lemma ForeignKeepsClaim(a: State, s: Step, b: State)
    requires Takes(a, s, b) && IsForeign(s)
    ensures Keeps(a, b) && b.resources == a.resources
  {
  }

  lemma SafeStep(a: State, s: Step, b: State)
    requires Safe(a) && Takes(a, s, b)
    ensures Safe(b)
  {
  }

  /** Every run from a safe state is safe at every moment. */
  lemma {:induction false} AlwaysSafe(r: Run, i: nat)
    requires r.Valid() && Safe(r.states[0]) && i < |r.states|
    ensures Safe(r.states[i])
  {
    if i != 0 {
      AlwaysSafe(r, i - 1);
      assert Takes(r.states[i - 1], r.steps[i - 1], r.states[i]);
      SafeStep(r.states[i - 1], r.steps[i - 1], r.states[i]);
    }
  }

  // ----- The API -----

  datatype Outcome = Ok | NotFound | Failed

  /** The cluster as the handlers see it. The ghost state records every state it was in. */
  class Cluster {
    var state: State
    const mayFail: bool   // whether calls may fail at all
    ghost var run: Run
    ghost const start: State

    constructor (start: State, mayFail: bool)
      ensures Valid() && state == start && this.start == start && this.mayFail == mayFail && run == Run([start], [])
    {
      state, this.start, this.mayFail := start, start, mayFail;
      run := Run([start], []);
    }

    /** Every state so far followed from the one before by one step. */
    ghost predicate Valid()
      reads this
    {
      run.Valid() && run.states[0] == start && Last(run.states) == state
    }

    ghost method Record(s: Step)
      requires run.Valid() && run.states[0] == start && Takes(Last(run.states), s, state)
      modifies this`run
      ensures Valid() && run == old(run).Then(s, state)
    {
      run := run.Then(s, state);
    }

    /** Any number of foreign steps. */
    method Interfere()
      requires Valid()
      modifies this
      ensures Valid() && OnlyForeign(old(run), run) && state.resources == old(state.resources)
      ensures Keeps(old(state), state)
    {
      var n: nat :| 0 <= n;
      for i := 0 to n
        invariant Valid() && OnlyForeign(old(run), run) && state.resources == old(state.resources)
        invariant Keeps(old(state), state)
      {
        ForeignStep();
      }
    }

    method ForeignStep()
      requires Valid()
      modifies this
      ensures Valid() && OnlyForeign(old(run), run) && state.resources == old(state.resources)
      ensures Keeps(old(state), state)
    {
      var o: Object := *;
      var fs: seq<string> := *;
      var deletes: bool := *;
      ghost var before := state;
      if state.object_.None? {
        if !o.deleting {
          state := state.(object_ := Some(o));
          Record(UserCreates(o));
          ForeignKeepsClaim(before, UserCreates(o), state);
        }
      } else if deletes {
        state := state.(object_ := Collected(state.object_.value.(deleting := true)));
        Record(UserDeletes);
        ForeignKeepsClaim(before, UserDeletes, state);
      } else if (FINALIZER in fs) == state.Claimed() {
        state := state.(object_ := Collected(state.object_.value.(finalizers := fs)));
        Record(OthersPatch(fs));
        ForeignKeepsClaim(before, OthersPatch(fs), state);
      }
    }

    method Fetch() returns (r: Outcome, b: Object)
      requires Valid()
      modifies this
      ensures Valid() && OnlyForeign(old(run), run) && state.resources == old(state.resources)
      ensures Keeps(old(state), state)
      ensures r.Ok? ==> state.object_ == Some(b)
      ensures r.NotFound? ==> state.object_.None?
      ensures r.Failed? ==> mayFail
    {
      Interfere();
      var fails: bool := *;
      b := Object([], false, "");
      if mayFail && fails {
        return Failed, b;
      }
      if state.object_.None? {
        return NotFound, b;
      }
      return Ok, state.object_.value;
    }

    /** Replaces the list of finalizers. The API refuses to add our finalizer to an object that is
        being deleted. */
    method PatchFinalizers(fs: seq<string>) returns (r: Outcome)
      requires Valid() && (FINALIZER in fs || state.resources == map[])
      modifies this
      ensures Valid() && Grows(old(run), run) && state.resources == old(state.resources)
      ensures forall j :: |old(run.steps)| <= j < |run.steps| ==> IsForeign(run.steps[j]) || run.steps[j] == Patch(fs)
      ensures r.Ok? ==> (state.Claimed() <==> FINALIZER in fs)
      ensures r.Ok? ==> |run.steps| > |old(run.steps)| && Last(run.steps) == Patch(fs)
      ensures FINALIZER in fs ==> Keeps(old(state), state)
      ensures state.Claimed() && old(state.Claimed()) ==> Keeps(old(state), state)
      ensures old(state.Claimed()) && !r.Ok? ==> mayFail
    {
      Interfere();
      if state.object_.None? {
        return NotFound;
      }
      if state.object_.value.deleting && FINALIZER in fs && !state.Claimed() {
        return Failed;
      }
      var fails, arrives: bool := *, *;
      r := if mayFail && fails then Failed else Ok;
      if r.Ok? || arrives {
        state := state.(object_ := Collected(state.object_.value.(finalizers := fs)));
        Record(Patch(fs));
      }
    }

    method UpdateStatus(hash: string) returns (r: Outcome)
      requires Valid()
      modifies this
      ensures Valid() && NoPatch(old(run), run) && state.resources == old(state.resources)
      ensures old(state.Claimed()) ==>
        state.Claimed() && state.object_.value.hash in {hash, old(state.object_.value.hash)}
      ensures old(state.Doomed()) ==> state.Doomed()
      ensures r.Ok? ==> state.object_.Some? && state.object_.value.hash == hash
      ensures old(state.Claimed()) && !r.Ok? ==> mayFail
    {
      Interfere();
      if state.object_.None? {
        return NotFound;
      }
      var fails, arrives: bool := *, *;
      r := if mayFail && fails then Failed else Ok;
      if r.Ok? || arrives {
        state := state.(object_ := Some(state.object_.value.(hash := hash)));
        Record(WriteStatus(hash));
      }
    }

    /** Updates or patches an existing resource. */
    method Update(k: Kind, content: string) returns (r: Outcome)
      requires Valid() && state.Claimed()
      modifies this
      ensures Valid() && NoPatch(old(run), run) && Keeps(old(state), state)
      ensures r.Ok? ==> k in old(state.resources) && state.resources == old(state.resources)[k := content]
      ensures r.NotFound? ==> k !in state.resources && state.resources == old(state.resources)
      ensures r.Failed? ==> mayFail
    {
      Interfere();
      if k !in state.resources {
        return NotFound;
      }
      r := Write(k, content);
    }

    method Create(k: Kind, content: string) returns (r: Outcome)
      requires Valid() && state.Claimed()
      modifies this
      ensures Valid() && NoPatch(old(run), run) && Keeps(old(state), state)
      ensures r.Ok? ==> state.resources == old(state.resources)[k := content]
      ensures !r.Ok? ==> mayFail
    {
      Interfere();
      r := Write(k, content);
    }

    method Write(k: Kind, content: string) returns (r: Outcome)
      requires Valid() && state.Claimed()
      modifies this
      ensures Valid() && NoPatch(old(run), run) && state.object_ == old(state.object_)
      ensures r.Ok? ==> state.resources == old(state.resources)[k := content]
      ensures !r.Ok? ==> r.Failed? && mayFail
    {
      var fails, arrives: bool := *, *;
      r := if mayFail && fails then Failed else Ok;
      if r.Ok? || arrives {
        state := state.(resources := state.resources[k := content]);
        Record(Upsert(k, content));
      }
    }

    method Delete(k: Kind) returns (r: Outcome)
      requires Valid()
      modifies this
      ensures Valid() && NoPatch(old(run), run) && Keeps(old(state), state)
      ensures state.resources.Keys <= old(state.resources).Keys
      ensures r.Ok? || r.NotFound? ==> state.resources == old(state.resources) - {k}
      ensures r.Failed? ==> mayFail
    {
      Interfere();
      var fails, arrives: bool := *, *;
      if mayFail && fails && !arrives {
        return Failed;
      }
      r := if mayFail && fails then Failed else if k in state.resources then Ok else NotFound;
      state := state.(resources := state.resources - {k});
      Record(Remove(k));
    }
  }

  // ----- The handlers -----

  function Others(fs: seq<string>): seq<string> {
    if fs == [] then []
    else Others(Init(fs)) + (if Last(fs) == FINALIZER then [] else [Last(fs)])
  }

  lemma {:induction false} OthersAre(fs: seq<string>, f: string)
    ensures f in Others(fs) <==> f in fs && f != FINALIZER
    ensures |Others(fs)| <= |fs|
    ensures |Others(fs)| == |fs| <==> FINALIZER !in fs
  {
    if fs != [] {
      OthersAre(Init(fs), f);
      assert fs == Init(fs) + [Last(fs)];
    }
  }

  /** Leaving ours out again, or putting it in front, does not change the others. */
  lemma {:induction false} OthersAgain(fs: seq<string>)
    ensures Others(Others(fs)) == Others(fs) && Others([FINALIZER] + Others(fs)) == Others(fs)
  {
    if fs != [] {
      OthersAgain(Init(fs));
      var o := Others(Init(fs));
      if Last(fs) == FINALIZER {
        assert Others(fs) == o;
      } else {
        assert Init(o + [Last(fs)]) == o;
        assert Init([FINALIZER] + (o + [Last(fs)])) == [FINALIZER] + o;
      }
    } else {
      assert Init([FINALIZER]) == [];
    }
  }

  method OtherFinalizers(fs: seq<string>) returns (others: seq<string>)
    ensures others == Others(fs)
  {
    others := [];
    for i := 0 to |fs|
      invariant others == Others(fs[..i])
    {
      assert Init(fs[..i + 1]) == fs[..i];
      if fs[i] == FINALIZER {
        continue;
      }
      others := others + [fs[i]];
    }
    assert fs[..|fs|] == fs;
  }

  /** `wanted` is the hash of the generated resources, or nothing when generating them fails. */
  class Controller {
    const cluster: Cluster

    constructor (cluster: Cluster)
      ensures this.cluster == cluster
    {
      this.cluster := cluster;
    }

    /** Claims an object that is not claimed yet, and gives it an empty status; a claimed one is left
        alone. */
    method HandleAdd() returns (ok: bool)
      requires cluster.Valid()
      modifies cluster
      ensures cluster.Valid() && KeepsOthers(old(cluster.run), cluster.run)
      ensures forall j :: |old(cluster.run.steps)| <= j < |cluster.run.steps| && cluster.run.steps[j].Patch? ==>
        cluster.run.steps[j].finalizers == [FINALIZER] + Others(cluster.run.steps[j].finalizers)
      ensures cluster.state.resources == old(cluster.state.resources)
      ensures old(cluster.state.Claimed()) ==> OnlyForeign(old(cluster.run), cluster.run)
      ensures Keeps(old(cluster.state), cluster.state)
      ensures ok ==> cluster.state.Claimed()
      ensures ok ==> OnlyForeign(old(cluster.run), cluster.run) || cluster.state.object_.value.hash == ""
      ensures old(cluster.state.Claimed()) && !cluster.mayFail ==> ok
    {
      ghost var before := cluster.run;
      var r, b := cluster.Fetch();
      if !r.Ok? {
        return false;
      }
      if FINALIZER in b.finalizers {
        return true;
      }
      ghost var fetched := cluster.run;
      var others := OtherFinalizers(b.finalizers);
      r := cluster.PatchFinalizers([FINALIZER] + others);
      OthersAgain(b.finalizers);
      FetchedOthersSent(before, fetched, fetched, cluster.run, b, [FINALIZER] + others);
      if !r.Ok? {
        return false;
      }
      ghost var patched := cluster.run;
      r := cluster.UpdateStatus("");
      NoPatchKeepsOthers(before, patched, cluster.run);
      return r.Ok?;
    }

    /** Brings the resources of a claimed object up to date; `applied` tells that they were written.
        When the stored hash is the wanted one, they are not. Success without writing means that the
        hash matched, or that the object was gone at some moment, or that it was only claimed: then
        nothing was touched; or that it was doomed and has been let go. A failure keeps the old hash.
        Without failing calls every update of a claimed object goes through, and a doomed object is
        let go with nothing left behind. */
    method HandleUpdate(wanted: Option<string>) returns (ok: bool, ghost applied: bool)
      requires cluster.Valid()
      modifies cluster
      ensures cluster.Valid() && KeepsOthers(old(cluster.run), cluster.run)
      ensures applied ==> ok && wanted.Some? && cluster.state.Claimed() && AllWritten(cluster.state, wanted.value)
      ensures applied && !cluster.mayFail ==> cluster.state.object_.value.hash == wanted.value
      ensures old(cluster.state.Claimed()) && wanted == Some(old(cluster.state.object_).value.hash) ==>
        !applied && (cluster.state.Claimed() ==> cluster.state.resources.Keys <= old(cluster.state.resources).Keys)
      ensures ok && !applied && cluster.state.Claimed() ==> cluster.state.resources == old(cluster.state.resources)
      ensures ok && !applied && old(cluster.state.Claimed()) && cluster.state.Claimed() ==>
        wanted == Some(cluster.state.object_.value.hash) && OnlyForeign(old(cluster.run), cluster.run)
      ensures ok && !cluster.state.Claimed() ==>
        || (exists i :: |old(cluster.run.steps)| <= i < |cluster.run.states| && cluster.run.states[i].object_.None?)
        || (exists i :: |old(cluster.run.steps)| <= i < |cluster.run.states| && cluster.run.states[i].Doomed())
      ensures !ok && old(cluster.state.Claimed()) && cluster.state.Claimed() ==>
        cluster.state.object_.value.hash == old(cluster.state.object_.value.hash)
      ensures ok && old(cluster.state.Doomed()) ==> cluster.state.resources == map[] && !cluster.state.Claimed()
      ensures !cluster.mayFail && old(cluster.state.Claimed()) && wanted.Some? ==> ok
      ensures !cluster.mayFail && old(cluster.state.Doomed()) ==> ok
      ensures !cluster.mayFail && !ok ==>
        exists i :: |old(cluster.run.steps)| <= i < |cluster.run.states| && cluster.run.states[i].object_.Some?
    {
      applied := false;
      ghost var before := cluster.run;
      var r, b := cluster.Fetch();
      ghost var fetched := cluster.run;
      assert cluster.run.states[|cluster.run.steps|] == cluster.state;
      if !r.Ok? {
        return r.NotFound?, false;
      }
      if FINALIZER !in b.finalizers {
        ok := HandleAdd();
        KeepsOthersLater(before, fetched, cluster.run);
        return;
      }
      if b.deleting {
        ok := HandleDelete();
        KeepsOthersLater(before, fetched, cluster.run);
        return;
      }
      if wanted.None? {
        return false, false;
      }
      if wanted.value == b.hash {
        return true, false;
      }
      ok := UpsertAll(wanted.value);
      applied := ok;
      var written := cluster.UpdateStatus(if ok then wanted.value else b.hash);
    }

    method UpsertAll(content: string) returns (ok: bool)
      requires cluster.Valid() && cluster.state.Claimed()
      modifies cluster
      ensures cluster.Valid() && NoPatch(old(cluster.run), cluster.run) && Keeps(old(cluster.state), cluster.state)
      ensures !ok ==> cluster.mayFail
      ensures ok ==> AllWritten(cluster.state, content)
    {
      var todo := ALL_KINDS;
      while todo != {}
        invariant cluster.Valid() && NoPatch(old(cluster.run), cluster.run) && todo <= ALL_KINDS
        invariant Keeps(old(cluster.state), cluster.state)
        invariant forall k :: k in ALL_KINDS && k !in todo ==> IsWritten(cluster.state, k, content)
      {
        var k :| k in todo;
        var r := cluster.Update(k, content);
        if r.NotFound? {
          r := cluster.Create(k, content);
        }
        if !r.Ok? {
          return false;
        }
        todo := todo - {k};
      }
      return true;
    }

    /** Removes all owned resources, and only then our finalizer. */
    method HandleDelete() returns (ok: bool)
      requires cluster.Valid()
      modifies cluster
      ensures cluster.Valid() && KeepsOthers(old(cluster.run), cluster.run)
      ensures cluster.state.resources.Keys <= old(cluster.state.resources).Keys
      ensures ok ==> cluster.state.resources == map[]
      ensures ok && old(cluster.state.Claimed()) ==> !cluster.state.Claimed()
      ensures cluster.state.Claimed() ==> Keeps(old(cluster.state), cluster.state)
      ensures !cluster.mayFail && old(cluster.state.Claimed()) ==> ok
    {
      ghost var before := cluster.run;
      var r, b := cluster.Fetch();
      if !r.Ok? {
        return false;
      }
      ghost var fetched := cluster.run;
      var todo := ALL_KINDS;
      AllKinds(cluster.state.resources.Keys);
      while todo != {}
        invariant cluster.Valid() && NoPatch(fetched, cluster.run) && todo <= ALL_KINDS
        invariant cluster.state.resources.Keys <= todo && cluster.state.resources.Keys <= old(cluster.state.resources).Keys
        invariant Keeps(old(cluster.state), cluster.state)
      {
        var k :| k in todo;
        r := cluster.Delete(k);
        if r.Failed? {
          return false;
        }
        todo := todo - {k};
      }
      ghost var mid := cluster.run;
      ok := RemoveFinalizer(b.finalizers);
      OthersAgain(b.finalizers);
      FetchedOthersSent(before, fetched, mid, cluster.run, b, Others(b.finalizers));
    }

    /** Sends the other finalizers of the list, when ours is in it. */
    method RemoveFinalizer(fs: seq<string>) returns (ok: bool)
      requires cluster.Valid() && cluster.state.resources == map[]
      modifies cluster
      ensures cluster.Valid() && Grows(old(cluster.run), cluster.run) && cluster.state.resources == map[]
      ensures forall j :: |old(cluster.run.steps)| <= j < |cluster.run.steps| ==>
        IsForeign(cluster.run.steps[j]) || cluster.run.steps[j] == Patch(Others(fs))
      ensures ok && FINALIZER in fs ==>
        |cluster.run.steps| > |old(cluster.run.steps)| && Last(cluster.run.steps) == Patch(Others(fs))
      ensures FINALIZER !in fs ==> ok && cluster.run == old(cluster.run)
      ensures ok && FINALIZER in fs ==> !cluster.state.Claimed()
      ensures cluster.state.Claimed() ==> Keeps(old(cluster.state), cluster.state)
      ensures !cluster.mayFail && old(cluster.state.Claimed()) ==> ok
    {
      var others := OtherFinalizers(fs);
      OthersAre(fs, FINALIZER);
      if |others| == |fs| {
        return true;
      }
      var r := cluster.PatchFinalizers(others);
      return r.Ok?;
    }
  }

  predicate IsWritten(s: State, k: Kind, content: string) {
    k in s.resources && s.resources[k] == content
  }

  /** The three resources are there, written from the wanted ones. */
  predicate AllWritten(s: State, content: string) {
    IsWritten(s, Secret, content) && IsWritten(s, Service, content) && IsWritten(s, StatefulSet, content)
  }

  lemma AllKinds(ks: set<Kind>)
    ensures ks <= ALL_KINDS
  {
    forall k | k in ks
      ensures k in ALL_KINDS
    {
      match k
      case Secret =>
      case Service =>
      case StatefulSet =>
    }
  }

  /** Whatever the handlers, the users and the other controllers have done to a cluster that began in
      a safe state: at every moment at which the object was gone, or not ours, none of the owned
      resources existed. */
  lemma NothingLeftBehind(cluster: Cluster, i: nat)
    requires cluster.Valid() && Safe(cluster.start) && i < |cluster.run.states|
    ensures cluster.run.states[i].object_.None? ==> cluster.run.states[i].resources == map[]
    ensures !cluster.run.states[i].Claimed() ==> cluster.run.states[i].resources == map[]
  {
    AlwaysSafe(cluster.run, i);
  }

  // ----- The controller in operation -----

  datatype Call = Added | Updated(wanted: Option<string>) | Deleted

  /** What a call of a handler did, with the other controllers and users in between: an addition
      claims the object; an update writes all resources, or finds the stored hash to be the wanted
      one, or lets a doomed object go; a deletion leaves nothing and lets a claimed object go. Without
      failing calls they succeed on claimed objects. */
  ghost predicate Handled(call: Call, ok: bool, mayFail: bool, before: Run, after: Run)
    requires before.states != [] && after.states != []
  {
    var s, s' := Last(before.states), Last(after.states);
    && KeepsOthers(before, after)
    && match call
       case Added =>
         && s'.resources == s.resources && Keeps(s, s') && (ok ==> s'.Claimed())
         && (s.Claimed() ==> OnlyForeign(before, after))
         && (!mayFail && s.Claimed() ==> ok)
       case Updated(wanted) =>
         && (ok && s'.Claimed() ==>
           (wanted.Some? && AllWritten(s', wanted.value)) || s'.resources == s.resources)
         && (ok && s.Claimed() && s'.Claimed() ==>
           (wanted.Some? && AllWritten(s', wanted.value)) || wanted == Some(s'.object_.value.hash))
         && (!ok && s.Claimed() && s'.Claimed() ==> s'.object_.value.hash == s.object_.value.hash)
         && (ok && s.Doomed() ==> s'.resources == map[] && !s'.Claimed())
         && (!mayFail && s.Claimed() && (wanted.Some? || s.Doomed()) ==> ok)
       case Deleted =>
         && (ok ==> s'.resources == map[]) && (ok && s.Claimed() ==> !s'.Claimed())
         && (s'.Claimed() ==> Keeps(s, s')) && (!mayFail && s.Claimed() ==> ok)
  }

  ghost predicate IsRecord(calls: seq<Call>, oks: seq<bool>, mayFail: bool, runs: seq<Run>) {
    && |oks| == |calls| && |runs| == |calls| + 1
    && (forall i :: 0 <= i < |runs| ==> runs[i].Valid())
    && forall i :: 0 <= i < |calls| ==>
      Handled(calls[i], oks[i], mayFail, runs[i], runs[i + 1])
  }

  lemma RecordNext(calls: seq<Call>, oks: seq<bool>, mayFail: bool, runs: seq<Run>, call: Call, ok: bool, r: Run)
    requires IsRecord(calls, oks, mayFail, runs) && r.Valid() && Handled(call, ok, mayFail, Last(runs), r)
    ensures IsRecord(calls + [call], oks + [ok], mayFail, runs + [r])
  {
    var calls', oks', runs' := calls + [call], oks + [ok], runs + [r];
    forall i | 0 <= i < |calls'|
      ensures Handled(calls'[i], oks'[i], mayFail, runs'[i], runs'[i + 1])
    {
      if i < |calls| {
        assert Handled(calls[i], oks[i], mayFail, runs[i], runs[i + 1]);
      }
    }
  }

  method Handle(controller: Controller, call: Call) returns (ok: bool)
    requires controller.cluster.Valid()
    modifies controller.cluster
    ensures controller.cluster.Valid()
    ensures Handled(call, ok, controller.cluster.mayFail, old(controller.cluster.run), controller.cluster.run)
  {
    match call
    case Added =>
      ok := controller.HandleAdd();
    case Updated(wanted) =>
      ghost var applied;
      ok, applied := controller.HandleUpdate(wanted);
    case Deleted =>
      ok := controller.HandleDelete();
  }

  /** Any sequence of calls of the handlers, from any safe state, for instance an empty cluster. The
      runs after each call tell what it did, and every state in them is safe. */
  method Operate(start: State, calls: seq<Call>, mayFail: bool)
    returns (end: State, oks: seq<bool>, ghost runs: seq<Run>)
    requires Safe(start)
    ensures IsRecord(calls, oks, mayFail, runs)
    ensures runs[0] == Run([start], []) && Last(Last(runs).states) == end
    ensures forall i :: 0 <= i < |Last(runs).states| ==> Safe(Last(runs).states[i])
    ensures end.object_.None? ==> end.resources == map[]
  {
    var cluster := new Cluster(start, mayFail);
    var controller := new Controller(cluster);
    oks, runs := [], [cluster.run];
    for n := 0 to |calls|
      invariant fresh(cluster) && controller.cluster == cluster && cluster.Valid() && cluster.mayFail == mayFail
      invariant IsRecord(calls[..n], oks, mayFail, runs)
      invariant runs[0] == Run([start], []) && Last(runs) == cluster.run && cluster.start == start
    {
      TakeNext(calls, n);
      var ok := Handle(controller, calls[n]);
      RecordNext(calls[..n], oks, mayFail, runs, calls[n], ok, cluster.run);
      oks, runs := oks + [ok], runs + [cluster.run];
    }
    TakeAll(calls);
    end := cluster.state;
    forall i | 0 <= i < |cluster.run.states|
      ensures Safe(cluster.run.states[i])
    {
      AlwaysSafe(cluster.run, i);
    }
  }

  /** Deletion completes: when calls do not fail, one update after a user deleted a claimed object
      lets it go, with nothing left. */
  method DeletedObjectGoes(start: State, wanted: Option<string>) returns (end: State)
    requires start.Doomed()
    ensures end.resources == map[] && !end.Claimed()
  {
    var cluster := new Cluster(start, false);
    var controller := new Controller(cluster);
    ghost var applied;
    var ok;
    ok, applied := controller.HandleUpdate(wanted);
    end := cluster.state;
  }
}
