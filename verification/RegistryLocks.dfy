/** The session registry under its read-write mutex: Create, Delete, Terminate and
CleanupAll racing with each other and with sessions that exit by themselves.

The mutex is sync.RWMutex: a writer first announces itself, which keeps new readers out,
and then waits for the readers inside to leave. CleanupAll holds a read lock while it
calls ListAll, which takes a second one. */
module RegistryLocks {
  import opened Bytes
  import LC = Lifecycle

  type Id = nat

  datatype Pc =
    | CreateAsk(id: Id) | CreateWait(id: Id) | CreateIn(id: Id)
    | DeleteAsk(id: Id) | DeleteWait(id: Id) | DeleteIn(id: Id) | DeleteRemove(id: Id)
    | CleanFirst                                        // before CleanupAll's own read lock
    | CleanSecond                                       // inside it, before ListAll's
    | CleanInner(snapshot: map<Id, LC.Status>)             // inside both
    | CleanOuter(snapshot: map<Id, LC.Status>)
    | CleanSave(snapshot: map<Id, LC.Status>)              // both released, sessions terminated
    | TerminateAsk(id: Id)                                 // before Terminate's lookup
    | PersistLock | PersistIn | PersistSave(snapshot: map<Id, LC.Status>)
    | Refused | Done

  datatype State = State(
    status: map<Id, LC.Status>,      // of every session ever created
    registered: set<Id>, ever: set<Id>,
    announced: Option<nat>, writer: Option<nat>,
    pcs: map<nat, Pc>,
    saved: seq<map<Id, LC.Status>>)

  datatype Step =
    | Exits(id: Id)
    | Create(t: nat, id: Id) | Delete(t: nat, id: Id) | Terminate(t: nat, id: Id) | Cleanup(t: nat)
    | Next(t: nat)

  /** The number of read locks a goroutine holds. */
  function Reads(pc: Pc): nat {
    match pc
    case CleanSecond => 1
    case CleanInner(_) => 2
    case CleanOuter(_) => 1
    case PersistIn => 1
    case _ => 0
  }

  predicate WriterIn(pc: Pc) {
    pc.CreateIn? || pc.DeleteIn? || pc.DeleteRemove?
  }

  predicate NoReaders(s: State) {
    forall t <- s.pcs :: Reads(s.pcs[t]) == 0
  }

  predicate CanRead(s: State) {
    s.writer.None? && s.announced.None?
  }

  predicate Enabled(s: State, step: Step) {
    match step
    case Exits(id) => id in s.status
    case Create(t, id) => t !in s.pcs && id !in s.status
    case Delete(t, _) => t !in s.pcs
    case Terminate(t, _) => t !in s.pcs
    case Cleanup(t) => t !in s.pcs
    case Next(t) =>
      t in s.pcs &&
      (match s.pcs[t]
       case CreateAsk(_) => s.writer.None? && s.announced.None?
       case DeleteAsk(_) => s.writer.None? && s.announced.None?
       case CreateWait(_) => NoReaders(s)
       case DeleteWait(_) => NoReaders(s)
       case TerminateAsk(_) => CanRead(s)
       case CleanFirst => CanRead(s)
       case CleanSecond => CanRead(s)
       case PersistLock => CanRead(s)
       case Refused => false
       case Done => false
       case _ => true)
  }

  function Listed(s: State): map<Id, LC.Status> {
    map id | id in s.registered && id in s.status :: s.status[id]
  }

  function Goto(s: State, t: nat, pc: Pc): State {
    s.(pcs := s.pcs[t := pc])
  }

  function NextStep(s: State, t: nat): State
    requires Enabled(s, Next(t))
  {
    match s.pcs[t]
    case CreateAsk(id) => Goto(s, t, CreateWait(id)).(announced := Some(t))
    case CreateWait(id) => Goto(s, t, CreateIn(id)).(announced := None, writer := Some(t))
    case CreateIn(id) =>
      Goto(s, t, PersistLock).(registered := s.registered + {id}, ever := s.ever + {id}, writer := None)
    case DeleteAsk(id) => Goto(s, t, DeleteWait(id)).(announced := Some(t))
    case DeleteWait(id) => Goto(s, t, DeleteIn(id)).(announced := None, writer := Some(t))
    case DeleteIn(id) =>
      if id !in s.registered then Goto(s, t, Done).(writer := None)
      else if id in s.status && s.status[id].StatusRunning? then Goto(s, t, Refused).(writer := None)
      else Goto(s, t, DeleteRemove(id))
    case DeleteRemove(id) => Goto(s, t, PersistLock).(registered := s.registered - {id}, writer := None)
    case TerminateAsk(id) => Goto(s, t, if id in s.registered then PersistLock else Done)
    case CleanFirst => Goto(s, t, CleanSecond)
    case CleanSecond => Goto(s, t, CleanInner(Listed(s)))
    case CleanInner(snapshot) => Goto(s, t, CleanOuter(snapshot))
    case CleanOuter(snapshot) => Goto(s, t, CleanSave(snapshot))
    case CleanSave(snapshot) => Goto(s, t, Done).(saved := s.saved + [snapshot])
    case PersistLock => Goto(s, t, PersistIn)
    case PersistIn => Goto(s, t, PersistSave(Listed(s)))
    case PersistSave(snapshot) => Goto(s, t, Done).(saved := s.saved + [snapshot])
  }

  function Apply(s: State, step: Step): State
    requires Enabled(s, step)
  {
    match step
    case Exits(id) => s.(status := s.status[id := LC.StatusExited])
    case Create(t, id) => Goto(s, t, CreateAsk(id)).(status := s.status[id := LC.StatusRunning])
    case Delete(t, id) => Goto(s, t, DeleteAsk(id))
    case Terminate(t, id) => Goto(s, t, TerminateAsk(id))
    case Cleanup(t) => Goto(s, t, CleanFirst)
    case Next(t) => NextStep(s, t)
  }

  function Init(): State {
    State(map[], {}, {}, None, None, map[], [])
  }

  ghost predicate IsRun(states: seq<State>, steps: seq<Step>)
  {
    && |states| == |steps| + 1 && states[0] == Init()
    && forall i :: 0 <= i < |steps| ==> Enabled(states[i], steps[i]) && states[i + 1] == Apply(states[i], steps[i])
  }

  // ---- Invariant ----------------------------------------------------------------

  ghost predicate GoroutineOk(s: State, t: nat, pc: Pc)
  {
    && (WriterIn(pc) <==> s.writer == Some(t))
    && (pc.CreateWait? || pc.DeleteWait? <==> s.announced == Some(t))
    && (s.writer.Some? ==> Reads(pc) == 0)
    && (pc.CreateAsk? || pc.CreateWait? || pc.CreateIn? ==> pc.id in s.status)
    && (pc.DeleteRemove? ==> pc.id in s.status && s.status[pc.id].StatusExited?)
  }

  ghost predicate Inv(s: State)
  {
    && s.registered <= s.ever <= s.status.Keys
    && (forall id <- s.ever :: id !in s.registered ==> s.status[id].StatusExited?)
    && (s.writer.Some? ==> s.writer.value in s.pcs && s.announced.None?)
    && (s.announced.Some? ==> s.announced.value in s.pcs)
    && forall t <- s.pcs :: GoroutineOk(s, t, s.pcs[t])
  }

  lemma NextKeepsOther(s: State, t: nat, u: nat)
    requires Inv(s) && Enabled(s, Next(t)) && u in s.pcs && u != t
    ensures GoroutineOk(NextStep(s, t), u, s.pcs[u])
  {
    assert GoroutineOk(s, u, s.pcs[u]) && GoroutineOk(s, t, s.pcs[t]);
  }

  lemma NextKeeps(s: State, t: nat)
    requires Inv(s) && Enabled(s, Next(t))
    ensures Inv(NextStep(s, t))
  {
    assert GoroutineOk(s, t, s.pcs[t]);
    forall u <- s.pcs | u != t
      ensures GoroutineOk(NextStep(s, t), u, s.pcs[u])
    {
      NextKeepsOther(s, t, u);
    }
  }

  lemma StepKeeps(s: State, step: Step)
    requires Inv(s) && Enabled(s, step)
    ensures Inv(Apply(s, step))
  {
    match step
    case Next(t) => NextKeeps(s, t);
    case _ =>
      var n := Apply(s, step);
      forall u <- n.pcs
        ensures GoroutineOk(n, u, n.pcs[u])
      {
        assert u in s.pcs ==> GoroutineOk(s, u, s.pcs[u]);
      }
  }

  lemma {:induction false} RunKeeps(states: seq<State>, steps: seq<Step>, i: nat)
    requires IsRun(states, steps) && i < |states|
    ensures Inv(states[i])
  {
    if i > 0 {
      RunKeeps(states, steps, i - 1);
      StepKeeps(states[i - 1], steps[i - 1]);
    }
  }

  // ---- Deleting only exited sessions ------------------------------------------------

  /** In every run a session that was registered and no longer is has exited. */
  lemma AbsentMeansExited(states: seq<State>, steps: seq<Step>, i: nat, id: Id)
    requires IsRun(states, steps) && i < |states| && id in states[i].ever && id !in states[i].registered
    ensures id in states[i].status && states[i].status[id].StatusExited?
  {
    RunKeeps(states, steps, i);
  }

  /** A session leaves the registry only in Delete's removal step, with the write lock held
  and the session exited at that very moment, not merely when it was tested. */
  lemma OnlyDeleteRemoves(states: seq<State>, steps: seq<Step>, i: nat, id: Id)
    requires IsRun(states, steps) && i < |steps| && id in states[i].registered && id !in states[i + 1].registered
    ensures steps[i].Next? && states[i].pcs[steps[i].t] == DeleteRemove(id)
    ensures id in states[i].status && states[i].status[id].StatusExited? && states[i].writer == Some(steps[i].t)
  {
    RunKeeps(states, steps, i);
    var s, step := states[i], steps[i];
    assert states[i + 1] == Apply(s, step);
    assert step.Next?;
    assert GoroutineOk(s, step.t, s.pcs[step.t]);
  }

  // ---- CleanupAll's two read locks ----------------------------------------------------

  /** A writer has announced itself between CleanupAll's two read locks. */
  ghost predicate Caught(s: State, t: nat)
  {
    t in s.pcs && s.pcs[t].CleanSecond? && s.announced.Some?
  }

  /** Between its two read locks CleanupAll can go on exactly when no writer waits. */
  lemma SecondReadLock(states: seq<State>, steps: seq<Step>, i: nat, t: nat)
    requires IsRun(states, steps) && i < |states| && t in states[i].pcs && states[i].pcs[t].CleanSecond?
    ensures Enabled(states[i], Next(t)) <==> !Caught(states[i], t)
  {
    RunKeeps(states, steps, i);
    assert GoroutineOk(states[i], t, states[i].pcs[t]);
  }

  lemma CaughtStays(s: State, step: Step, t: nat)
    requires Inv(s) && Caught(s, t) && Enabled(s, step)
    ensures Caught(Apply(s, step), t) && Apply(s, step).announced == s.announced
  {
    var w := s.announced.value;
    assert GoroutineOk(s, t, s.pcs[t]) && GoroutineOk(s, w, s.pcs[w]);
    assert !NoReaders(s);
    if step.Next? {
      assert GoroutineOk(s, step.t, s.pcs[step.t]);
    }
  }

  lemma CaughtBlocks(s: State, t: nat)
    requires Inv(s) && Caught(s, t)
    ensures !Enabled(s, Next(t)) && !Enabled(s, Next(s.announced.value)) && !CanRead(s)
  {
    var w := s.announced.value;
    assert GoroutineOk(s, t, s.pcs[t]) && GoroutineOk(s, w, s.pcs[w]);
    assert !NoReaders(s);
  }

  lemma CaughtNext(states: seq<State>, steps: seq<Step>, i: nat, t: nat)
    requires IsRun(states, steps) && i < |steps| && Caught(states[i], t)
    ensures Caught(states[i + 1], t) && states[i + 1].announced == states[i].announced
  {
    RunKeeps(states, steps, i);
    CaughtStays(states[i], steps[i], t);
  }

  lemma CaughtNow(states: seq<State>, steps: seq<Step>, i: nat, t: nat)
    requires IsRun(states, steps) && i < |states| && Caught(states[i], t)
    ensures !Enabled(states[i], Next(t)) && !Enabled(states[i], Next(states[i].announced.value)) && !CanRead(states[i])
  {
    RunKeeps(states, steps, i);
    CaughtBlocks(states[i], t);
  }

  /** Otherwise the two wait for each other for ever: no step of anyone ends it, and every
  later Create, Delete, persist and CleanupAll blocks behind them. */
  lemma {:induction false} CaughtForEver(states: seq<State>, steps: seq<Step>, i: nat, j: nat, t: nat)
    requires IsRun(states, steps) && i <= j < |states| && Caught(states[i], t)
    ensures Caught(states[j], t) && states[j].announced == states[i].announced
    ensures !Enabled(states[j], Next(t)) && !Enabled(states[j], Next(states[i].announced.value)) && !CanRead(states[j])
  {
    if i < j {
      CaughtForEver(states, steps, i, j - 1, t);
      CaughtNext(states, steps, j - 1, t);
    }
    CaughtNow(states, steps, j, t);
  }

  /** It happens: a Delete asks for the lock at the wrong moment. */
  function DeadlockState(i: nat): State {
    var s := Init();
    match i
    case 0 => s
    case 1 => s.(pcs := map[0 := CleanFirst])
    case 2 => s.(pcs := map[0 := CleanSecond])
    case 3 => s.(pcs := map[0 := CleanSecond, 1 := DeleteAsk(7)])
    case _ => s.(pcs := map[0 := CleanSecond, 1 := DeleteWait(7)], announced := Some(1))
  }

  function DeadlockStep(i: nat): Step {
    match i
    case 0 => Cleanup(0)
    case 1 => Next(0)
    case 2 => Delete(1, 7)
    case _ => Next(1)
  }

  lemma DeadlockSteps(i: nat)
    requires i < 4
    ensures Enabled(DeadlockState(i), DeadlockStep(i))
    ensures DeadlockState(i + 1) == Apply(DeadlockState(i), DeadlockStep(i))
  {
    assert DeadlockState(i + 1).pcs == Apply(DeadlockState(i), DeadlockStep(i)).pcs;
  }

  lemma CleanupCanDeadlock() returns (states: seq<State>, steps: seq<Step>)
    ensures IsRun(states, steps) && |steps| == 4 && Caught(states[4], 0)
  {
    states := seq(5, i requires 0 <= i < 5 => DeadlockState(i));
    steps := seq(4, i requires 0 <= i < 4 => DeadlockStep(i));
    forall i | 0 <= i < 4
      ensures Enabled(states[i], steps[i]) && states[i + 1] == Apply(states[i], steps[i])
    {
      DeadlockSteps(i);
    }
  }

  // ---- No other deadlock -------------------------------------------------------------------

  predicate Ended(pc: Pc) {
    pc.Done? || pc.Refused?
  }

  /** While some goroutine has not ended and no CleanupAll is caught, some goroutine can move. */
  lemma WhoCanMove(s: State, t: nat) returns (u: nat)
    requires Inv(s) && t in s.pcs && !Ended(s.pcs[t]) && forall c :: !Caught(s, c)
    ensures Enabled(s, Next(u))
  {
    if s.writer.Some? {
      u := s.writer.value;
      assert GoroutineOk(s, u, s.pcs[u]);
    } else if s.announced.Some? {
      u := s.announced.value;
      assert GoroutineOk(s, u, s.pcs[u]);
      if !NoReaders(s) {
        u :| u in s.pcs && Reads(s.pcs[u]) != 0;
        assert GoroutineOk(s, u, s.pcs[u]) && !Caught(s, u);
      }
    } else {
      u := t;
      assert GoroutineOk(s, t, s.pcs[t]);
    }
  }

  /** CleanupAll caught between its locks is the only deadlock: when nothing can move, every
  goroutine has ended or one is caught. */
  lemma OnlyCleanupDeadlocks(states: seq<State>, steps: seq<Step>, i: nat)
    requires IsRun(states, steps) && i < |states| && forall u :: !Enabled(states[i], Next(u))
    ensures (forall t <- states[i].pcs :: Ended(states[i].pcs[t])) || exists c :: Caught(states[i], c)
  {
    RunKeeps(states, steps, i);
    if forall c :: !Caught(states[i], c) {
      forall t <- states[i].pcs
        ensures Ended(states[i].pcs[t])
      {
        if !Ended(states[i].pcs[t]) {
          var u := WhoCanMove(states[i], t);
        }
      }
    }
  }

  /** What Delete decides on finding the registry as it is: nothing to do for an unknown
  session, a refusal for a running one, and a removal for an exited one, which takes the
  session out. */
  lemma DeleteDecides(states: seq<State>, steps: seq<Step>, i: nat, t: nat, id: Id)
    requires IsRun(states, steps) && i < |steps| && steps[i] == Next(t)
    ensures t in states[i].pcs && t in states[i + 1].pcs
    ensures var s, pc := states[i], states[i + 1].pcs[t];
            states[i].pcs[t] == DeleteIn(id) ==>
              if id !in s.registered then pc.Done?
              else id in s.status && pc == if s.status[id].StatusRunning? then Refused else DeleteRemove(id)
    ensures states[i].pcs[t] == DeleteRemove(id) ==> id !in states[i + 1].registered
  {
    RunKeeps(states, steps, i);
    DeleteStep(states[i], t, id);
  }

  /** Terminate of an unknown session ends at once; of a known one it goes on to save. */
  lemma TerminateDecides(states: seq<State>, steps: seq<Step>, i: nat, t: nat, id: Id)
    requires IsRun(states, steps) && i < |steps| && steps[i] == Next(t)
    requires t in states[i].pcs && states[i].pcs[t] == TerminateAsk(id)
    ensures t in states[i + 1].pcs
    ensures states[i + 1].pcs[t] == if id in states[i].registered then PersistLock else Done
    ensures states[i + 1].saved == states[i].saved && states[i + 1].registered == states[i].registered
  {
    assert Enabled(states[i], steps[i]);
  }

  /** Read locks are taken and given back one at a time. */
  lemma OneLockAtATime(states: seq<State>, steps: seq<Step>, i: nat, t: nat)
    requires IsRun(states, steps) && i < |steps| && t in states[i].pcs && t in states[i + 1].pcs
    ensures -1 <= Reads(states[i + 1].pcs[t]) - Reads(states[i].pcs[t]) <= 1
  {
    LockStep(states[i], steps[i], t);
  }

  lemma LockStep(s: State, step: Step, t: nat)
    requires Enabled(s, step) && t in s.pcs && t in Apply(s, step).pcs
    ensures -1 <= Reads(Apply(s, step).pcs[t]) - Reads(s.pcs[t]) <= 1
  {
  }

  lemma DeleteStep(s: State, t: nat, id: Id)
    requires Inv(s) && Enabled(s, Next(t))
    ensures t in NextStep(s, t).pcs
    ensures s.pcs[t] == DeleteIn(id) ==>
              if id !in s.registered then NextStep(s, t).pcs[t].Done?
              else id in s.status
                   && NextStep(s, t).pcs[t] == if s.status[id].StatusRunning? then Refused else DeleteRemove(id)
    ensures s.pcs[t] == DeleteRemove(id) ==> id !in NextStep(s, t).registered
  {
  }
}
