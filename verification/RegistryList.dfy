/** Which session list ends up on disk when saves overlap.

A goroutine lists the sessions under the registry's read lock and saves the list after
releasing it, so another goroutine's newer list can be saved first and then overwritten. */
module RegistryList {
  import opened Bytes
  import opened RegistryLocks
  import LC = Lifecycle

  // ---- A session only moves forward ---------------------------------------------------

  predicate Creating(pc: Pc) {
    pc.CreateAsk? || pc.CreateWait? || pc.CreateIn?
  }

  /** A session is registered by the one goroutine that created it. */
  ghost predicate Created(s: State)
  {
    && (forall t <- s.pcs :: Creating(s.pcs[t]) ==> s.pcs[t].id !in s.ever)
    && (forall t <- s.pcs, u <- s.pcs ::
          t != u && Creating(s.pcs[t]) && Creating(s.pcs[u]) ==> s.pcs[t].id != s.pcs[u].id)
  }

  /** A session is removed only while registered. */
  ghost predicate Removable(s: State)
  {
    forall t <- s.pcs :: s.pcs[t].DeleteRemove? ==> s.pcs[t].id in s.registered
  }

  ghost predicate Owned(s: State)
  {
    Created(s) && Removable(s)
  }

  /** Not yet registered, listed as running, listed as exited, removed. */
  function Phase(s: State, id: Id): nat {
    if id in s.registered then (if id in s.status && s.status[id].StatusRunning? then 1 else 2)
    else if id in s.ever then 3 else 0
  }

  /** The step registers or removes the session, or is its exit while it is registered. */
  predicate Changes(s: State, step: Step, id: Id) {
    || (step.Next? && step.t in s.pcs && (s.pcs[step.t] == CreateIn(id) || s.pcs[step.t] == DeleteRemove(id)))
    || (step == Exits(id) && Phase(s, id) == 1)
  }

  lemma NextCreated(s: State, t: nat)
    requires Created(s) && Enabled(s, Next(t))
    ensures Created(NextStep(s, t))
  {
    NextCreating(s, t);
  }

  /** A step of a goroutine changes `ever` only for the session it registers itself. */
  lemma NextCreating(s: State, t: nat)
    requires Enabled(s, Next(t))
    ensures var n := NextStep(s, t);
            && n.pcs == s.pcs[t := n.pcs[t]]
            && (Creating(n.pcs[t]) ==> Creating(s.pcs[t]) && n.pcs[t].id == s.pcs[t].id && n.ever == s.ever)
            && (n.ever == s.ever || (s.pcs[t].CreateIn? && n.ever == s.ever + {s.pcs[t].id}))
  {
  }

  lemma NextRemovable(s: State, t: nat)
    requires Inv(s) && Removable(s) && Enabled(s, Next(t))
    ensures Removable(NextStep(s, t))
  {
    var n := NextStep(s, t);
    assert GoroutineOk(s, t, s.pcs[t]);
    forall u <- n.pcs | n.pcs[u].DeleteRemove?
      ensures n.pcs[u].id in n.registered
    {
      assert GoroutineOk(s, u, s.pcs[u]);
    }
  }

  lemma StepOwned(s: State, step: Step)
    requires Inv(s) && Owned(s) && Enabled(s, step)
    ensures Owned(Apply(s, step))
  {
    match step
    case Next(t) =>
      NextCreated(s, t);
      NextRemovable(s, t);
    case Create(t, id) =>
      assert forall u <- s.pcs :: Creating(s.pcs[u]) ==> GoroutineOk(s, u, s.pcs[u]);
    case _ =>
  }

  lemma {:induction false} RunOwned(states: seq<State>, steps: seq<Step>, i: nat)
    requires IsRun(states, steps) && i < |states|
    ensures Inv(states[i]) && Owned(states[i])
  {
    RunKeeps(states, steps, i);
    if i > 0 {
      RunOwned(states, steps, i - 1);
      StepOwned(states[i - 1], steps[i - 1]);
    }
  }

  lemma PhaseStep(s: State, step: Step, id: Id)
    requires Inv(s) && Owned(s) && Enabled(s, step)
    ensures if Changes(s, step, id) then Phase(s, id) < Phase(Apply(s, step), id)
            else Phase(s, id) == Phase(Apply(s, step), id)
  {
  }

  ghost predicate Changed(states: seq<State>, steps: seq<Step>, k: nat, i: nat, id: Id)
    requires i <= |steps| < |states|
  {
    exists m: nat :: k <= m < i && Changes(states[m], steps[m], id)
  }

  lemma {:induction false} PhaseGrows(states: seq<State>, steps: seq<Step>, k: nat, i: nat, id: Id)
    requires IsRun(states, steps) && k <= i < |states|
    ensures if Changed(states, steps, k, i, id) then Phase(states[k], id) < Phase(states[i], id)
            else Phase(states[k], id) == Phase(states[i], id)
  {
    if k < i {
      PhaseGrows(states, steps, k, i - 1, id);
      PhaseNext(states, steps, i - 1, id);
      ChangedNext(states, steps, k, i, id);
    }
  }

  lemma PhaseNext(states: seq<State>, steps: seq<Step>, i: nat, id: Id)
    requires IsRun(states, steps) && i < |steps|
    ensures if Changes(states[i], steps[i], id) then Phase(states[i], id) < Phase(states[i + 1], id)
            else Phase(states[i], id) == Phase(states[i + 1], id)
  {
    RunOwned(states, steps, i);
    PhaseStep(states[i], steps[i], id);
  }

  lemma ChangedNext(states: seq<State>, steps: seq<Step>, k: nat, i: nat, id: Id)
    requires k < i <= |steps| < |states|
    ensures Changed(states, steps, k, i, id)
            <==> Changed(states, steps, k, i - 1, id) || Changes(states[i - 1], steps[i - 1], id)
  {
    var last: nat := i - 1;
    if Changes(states[last], steps[last], id) {
      assert Changed(states, steps, k, i, id);
    }
  }

  // ---- When two lists are the same ------------------------------------------------------

  /** The session came after the first state and is gone again in the second. */
  predicate CameAndWent(first: State, second: State, id: Id) {
    id !in first.ever && id !in second.registered
  }

  /** Every session that changed in between came and went in between. */
  ghost predicate NothingMissing(states: seq<State>, steps: seq<Step>, k: nat, i: nat)
    requires i <= |steps| < |states| && k <= i
  {
    forall id :: Changed(states, steps, k, i, id) ==> CameAndWent(states[k], states[i], id)
  }

  /** What a list says of one session: absent, running or exited. */
  lemma EntryIsPhase(s: State, id: Id)
    requires Inv(s)
    ensures id in Listed(s) <==> 1 <= Phase(s, id) <= 2
    ensures id in Listed(s) ==> (Listed(s)[id].StatusRunning? <==> Phase(s, id) == 1)
  {
  }

  lemma ListsAgree(states: seq<State>, steps: seq<Step>, k: nat, i: nat)
    requires IsRun(states, steps) && k <= i < |states|
    ensures Listed(states[k]) == Listed(states[i]) <==> NothingMissing(states, steps, k, i)
  {
    var a, b := Listed(states[k]), Listed(states[i]);
    RunOwned(states, steps, k);
    RunOwned(states, steps, i);
    forall id
      ensures (id in a <==> id in b) && (id in a && id in b ==> a[id] == b[id])
              <==> (Changed(states, steps, k, i, id) ==> CameAndWent(states[k], states[i], id))
    {
      PhaseGrows(states, steps, k, i, id);
      EntryIsPhase(states[k], id);
      EntryIsPhase(states[i], id);
    }
    SameMaps(a, b);
  }

  lemma SameMaps(a: map<Id, LC.Status>, b: map<Id, LC.Status>)
    ensures a == b <==> forall id :: (id in a <==> id in b) && (id in a && id in b ==> a[id] == b[id])
  {
    if forall id :: (id in a <==> id in b) && (id in a && id in b ==> a[id] == b[id]) {
      assert a.Keys == b.Keys;
    }
  }

  // ---- The list that was saved last --------------------------------------------------------

  predicate HasSnapshot(pc: Pc) {
    pc.CleanInner? || pc.CleanOuter? || pc.CleanSave? || pc.PersistSave?
  }

  /** The step in which a goroutine lists the sessions. */
  predicate Lists(s: State, step: Step) {
    step.Next? && step.t in s.pcs && (s.pcs[step.t].CleanSecond? || s.pcs[step.t].PersistIn?)
  }

  predicate Saves(s: State, step: Step) {
    step.Next? && step.t in s.pcs && (s.pcs[step.t].CleanSave? || s.pcs[step.t].PersistSave?)
  }

  /** Where a goroutine's snapshot comes from. */
  lemma SnapshotStep(s: State, step: Step, t: nat)
    requires Enabled(s, step) && t in Apply(s, step).pcs && HasSnapshot(Apply(s, step).pcs[t])
    ensures t in s.pcs
    ensures (Lists(s, step) && step.t == t && Apply(s, step).pcs[t].snapshot == Listed(s))
            || (HasSnapshot(s.pcs[t]) && Apply(s, step).pcs[t].snapshot == s.pcs[t].snapshot)
  {
  }

  lemma {:induction false} SnapshotTaken(states: seq<State>, steps: seq<Step>, i: nat, t: nat) returns (k: nat)
    requires IsRun(states, steps) && i < |states| && t in states[i].pcs && HasSnapshot(states[i].pcs[t])
    ensures k < i && Lists(states[k], steps[k]) && steps[k].t == t && states[i].pcs[t].snapshot == Listed(states[k])
  {
    assert i > 0;
    k := i - 1;
    SnapshotStep(states[k], steps[k], t);
    if !(Lists(states[k], steps[k]) && steps[k].t == t) {
      k := SnapshotTaken(states, steps, k, t);
    }
  }

  lemma SaveStep(s: State, step: Step)
    requires Enabled(s, step)
    ensures Apply(s, step).saved == if Saves(s, step) then s.saved + [s.pcs[step.t].snapshot] else s.saved
  {
  }

  lemma {:induction false} LastSave(states: seq<State>, steps: seq<Step>, i: nat) returns (w: nat)
    requires IsRun(states, steps) && i < |states| && states[i].saved != []
    ensures w < i && Saves(states[w], steps[w]) && forall m :: w < m < i ==> !Saves(states[m], steps[m])
    ensures states[i].saved[|states[i].saved| - 1] == states[w].pcs[steps[w].t].snapshot
  {
    assert i > 0;
    w := i - 1;
    SaveStep(states[w], steps[w]);
    if !Saves(states[w], steps[w]) {
      w := LastSave(states, steps, w);
    }
  }

  /** The list on disk is the one that some goroutine took at step k and saved at step w, no
  save having followed. It is the registry's list now exactly when every session that was
  registered, removed or exited since step k, not since step w, has both come and gone. */
  lemma SavedList(states: seq<State>, steps: seq<Step>, i: nat) returns (k: nat, w: nat)
    requires IsRun(states, steps) && i < |states| && states[i].saved != []
    ensures k < w < i && Lists(states[k], steps[k]) && Saves(states[w], steps[w]) && steps[k].t == steps[w].t
    ensures forall m :: w < m < i ==> !Saves(states[m], steps[m])
    ensures var last := states[i].saved[|states[i].saved| - 1];
            last == Listed(states[k]) && (last == Listed(states[i]) <==> NothingMissing(states, steps, k, i))
  {
    w := LastSave(states, steps, i);
    k := SnapshotTaken(states, steps, w, steps[w].t);
    ListsAgree(states, steps, k, i);
  }

  // ---- Every change is followed by a save ---------------------------------------------------

  predicate Persisting(pc: Pc) {
    pc.PersistLock? || pc.PersistIn? || pc.PersistSave? || pc.Done?
  }

  /** What a step does to a goroutine inside persist: it lists before it saves, and saves
  before it is done. */
  ghost predicate Persists(s: State, step: Step, n: State, t: nat)
  {
    t in s.pcs && Persisting(s.pcs[t]) ==>
      && t in n.pcs && Persisting(n.pcs[t])
      && (n.pcs[t].PersistSave? ==> s.pcs[t].PersistSave? || (Lists(s, step) && step.t == t))
      && (n.pcs[t].Done? ==> s.pcs[t].Done? || (Saves(s, step) && step.t == t && s.pcs[t].PersistSave?))
  }

  lemma PersistStep(s: State, step: Step, t: nat)
    requires Enabled(s, step)
    ensures Persists(s, step, Apply(s, step), t)
  {
  }

  lemma {:induction false} PersistAll(states: seq<State>, steps: seq<Step>, a: nat, i: nat, t: nat)
    returns (k: nat, w: nat)
    requires a <= i <= |steps| < |states| && t in states[a].pcs && states[a].pcs[t].PersistLock?
    requires forall m: nat :: a <= m < i ==> Persists(states[m], steps[m], states[m + 1], t)
    ensures t in states[i].pcs && Persisting(states[i].pcs[t])
    ensures states[i].pcs[t].PersistSave? || states[i].pcs[t].Done? ==>
              a <= k < i && Lists(states[k], steps[k]) && steps[k].t == t
    ensures states[i].pcs[t].Done? ==> k < w < i && Saves(states[w], steps[w]) && steps[w].t == t
  {
    k, w := a, a;
    if a < i {
      var last: nat := i - 1;
      k, w := PersistAll(states, steps, a, last, t);
      assert Persists(states[last], steps[last], states[last + 1], t);
      if !states[last].pcs[t].PersistSave? && !states[last].pcs[t].Done? {
        k := last;
      } else if states[last].pcs[t].PersistSave? {
        w := last;
      }
    }
  }

  /** The step with which Create registers, Delete removes, or Terminate finds its session. */
  predicate MustPersist(s: State, step: Step) {
    step.Next? && step.t in s.pcs &&
    var pc := s.pcs[step.t];
    pc.CreateIn? || pc.DeleteRemove? || (pc.TerminateAsk? && pc.id in s.registered)
  }

  /** Whoever changes the registry, or terminates a session, has listed the registry after
  that and saved the list by the time it is done. */
  lemma ChangeIsSaved(states: seq<State>, steps: seq<Step>, m: nat, i: nat) returns (k: nat, w: nat)
    requires IsRun(states, steps) && m < i < |states| && MustPersist(states[m], steps[m])
    requires steps[m].t in states[i].pcs && states[i].pcs[steps[m].t].Done?
    ensures m < k < w < i && Lists(states[k], steps[k]) && Saves(states[w], steps[w])
    ensures steps[k].t == steps[m].t == steps[w].t
  {
    assert Enabled(states[m], steps[m]);
    var t := steps[m].t;
    forall l: nat | m + 1 <= l < i
      ensures Persists(states[l], steps[l], states[l + 1], t)
    {
      PersistStep(states[l], steps[l], t);
    }
    k, w := PersistAll(states, steps, m + 1, i, t);
  }

  // ---- A deleted session comes back on disk ---------------------------------------------------

  /** Goroutine 0 creates session 5 and lists it; before it saves, the session exits and
  goroutine 1 deletes it and saves the empty list. */
  function LateStep(i: nat): Step {
    match i
    case 0 => Create(0, 5)
    case 6 => Exits(5)
    case 7 => Delete(1, 5)
    case _ => Next(if i < 6 || i == 15 then 0 else 1)
  }

  function CreateState(i: nat): State {
    var s := Init().(status := map[5 := LC.StatusRunning]);
    var done := s.(registered := {5}, ever := {5});
    match i
    case 1 => s.(pcs := map[0 := CreateAsk(5)])
    case 2 => s.(pcs := map[0 := CreateWait(5)], announced := Some(0))
    case 3 => s.(pcs := map[0 := CreateIn(5)], writer := Some(0))
    case 4 => done.(pcs := map[0 := PersistLock])
    case 5 => done.(pcs := map[0 := PersistIn])
    case _ => done.(pcs := map[0 := PersistSave(map[5 := LC.StatusRunning])])
  }

  function DeleteState(i: nat): State {
    var late := PersistSave(map[5 := LC.StatusRunning]);
    var s := Init().(status := map[5 := LC.StatusExited], registered := {5}, ever := {5});
    var gone := s.(registered := {});
    match i
    case 7 => s.(pcs := map[0 := late])
    case 8 => s.(pcs := map[0 := late, 1 := DeleteAsk(5)])
    case 9 => s.(pcs := map[0 := late, 1 := DeleteWait(5)], announced := Some(1))
    case 10 => s.(pcs := map[0 := late, 1 := DeleteIn(5)], writer := Some(1))
    case 11 => s.(pcs := map[0 := late, 1 := DeleteRemove(5)], writer := Some(1))
    case 12 => gone.(pcs := map[0 := late, 1 := PersistLock])
    case 13 => gone.(pcs := map[0 := late, 1 := PersistIn])
    case 14 => gone.(pcs := map[0 := late, 1 := PersistSave(map[])])
    case 15 => gone.(pcs := map[0 := late, 1 := Done], saved := [map[]])
    case _ => gone.(pcs := map[0 := Done, 1 := Done], saved := [map[], map[5 := LC.StatusRunning]])
  }

  function LateState(i: nat): State {
    if i == 0 then Init() else if i <= 6 then CreateState(i) else DeleteState(i)
  }

  lemma CreateSteps(i: nat)
    requires i < 6
    ensures Enabled(LateState(i), LateStep(i)) && LateState(i + 1) == Apply(LateState(i), LateStep(i))
  {
    var n := Apply(LateState(i), LateStep(i));
    assert i == 5 ==> Listed(LateState(i)) == map[5 := LC.StatusRunning];
    assert LateState(i + 1).pcs == n.pcs && LateState(i + 1).registered == n.registered;
  }

  lemma DeleteSteps(i: nat)
    requires 6 <= i < 12
    ensures Enabled(LateState(i), LateStep(i)) && LateState(i + 1) == Apply(LateState(i), LateStep(i))
  {
    var n := Apply(LateState(i), LateStep(i));
    assert LateState(i + 1).pcs == n.pcs && LateState(i + 1).registered == n.registered;
    assert LateState(i + 1).status == n.status;
  }

  lemma SaveSteps(i: nat)
    requires 12 <= i < 16
    ensures Enabled(LateState(i), LateStep(i)) && LateState(i + 1) == Apply(LateState(i), LateStep(i))
  {
    var n := Apply(LateState(i), LateStep(i));
    assert i == 13 ==> Listed(LateState(i)) == map[];
    assert LateState(i + 1).pcs == n.pcs && LateState(i + 1).saved == n.saved;
  }

  /** At rest the registry is empty and the saved list shows the deleted session running. */
  lemma DeletedComesBack() returns (states: seq<State>, steps: seq<Step>)
    ensures IsRun(states, steps) && |steps| == 16
    ensures states[16].registered == {} && forall t <- states[16].pcs :: states[16].pcs[t].Done?
    ensures states[16].saved == [map[], map[5 := LC.StatusRunning]]
  {
    states := seq(17, i requires 0 <= i < 17 => LateState(i));
    steps := seq(16, i requires 0 <= i < 16 => LateStep(i));
    forall i | 0 <= i < 16
      ensures Enabled(states[i], steps[i]) && states[i + 1] == Apply(states[i], steps[i])
    {
      if i < 6 {
        CreateSteps(i);
      } else if i < 12 {
        DeleteSteps(i);
      } else {
        SaveSteps(i);
      }
    }
  }
}
