/** Whether Appends come back: who holds the session mutexes, why an Append fails, and that
none waits for ever. */
module MessageProgress {
  import opened Bytes
  import opened Paths
  import opened Storage
  import opened MessageLog

  // ---- Who holds a mutex -----------------------------------------------------------------

  /** A held mutex is held by a call that is between its load and its rename. */
  ghost predicate HeldOk(s: State, ref: nat)
  {
    ref in s.held ==> Holds(s, s.held[ref]) && s.calls[s.held[ref]].pc.ref == ref
  }

  ghost predicate AllHeldOk(s: State)
  {
    forall ref :: HeldOk(s, ref)
  }

  /** How a step of call t can change who holds a mutex: taking it, keeping it, or giving it
  back. */
  ghost predicate HandsOver(s: State, n: State, t: nat)
    requires t in s.calls && t in n.calls
  {
    && n.calls == s.calls[t := n.calls[t]]
    && if Locked(s.calls[t].pc) then
         if Locked(n.calls[t].pc) then n.held == s.held && n.calls[t].pc.ref == s.calls[t].pc.ref
         else n.held == s.held - {s.calls[t].pc.ref}
       else if Locked(n.calls[t].pc) then n.held == s.held[n.calls[t].pc.ref := t]
       else n.held == s.held
  }

  lemma GoHandsOver(s: State, t: nat)
    requires Enabled(s, Go(t))
    ensures HandsOver(s, GoStep(s, t), t)
  {
    match s.calls[t].pc
    case ToSave =>
    case Saving(_, _) =>
    case ToLock =>
    case HasLock(_) =>
    case ToLoad(_) =>
    case ToIndex(_, _, _) =>
    case Indexing(_, _, _, _, stage) =>
  }

  lemma FaultHandsOver(s: State, t: nat)
    requires Enabled(s, Fault(t))
    ensures HandsOver(s, FaultStep(s, t), t)
  {
  }

  lemma HandingOverKeeps(s: State, n: State, t: nat)
    requires t in s.calls && t in n.calls && HandsOver(s, n, t) && AllHeldOk(s)
    requires forall u <- s.calls :: Locked(s.calls[u].pc) ==>
               s.calls[u].pc.ref in s.held && s.held[s.calls[u].pc.ref] == u
    ensures AllHeldOk(n)
  {
    forall ref
      ensures HeldOk(n, ref)
    {
      assert HeldOk(s, ref);
    }
  }

  lemma StepKeepsHeld(s: State, step: Step)
    requires Inv(s) && AllHeldOk(s) && Enabled(s, step)
    ensures AllHeldOk(Apply(s, step))
  {
    assert forall u <- s.calls :: CallOk(s, u, s.calls[u]);
    match step
    case Begin(t, m) => BeginKeepsHeld(s, t, m);
    case Go(t) =>
      GoHandsOver(s, t);
      HandingOverKeeps(s, GoStep(s, t), t);
    case Fault(t) =>
      FaultHandsOver(s, t);
      HandingOverKeeps(s, FaultStep(s, t), t);
    case LoadFault(t) => HandingOverKeeps(s, Apply(s, step), t);
    case Crash =>
  }

  lemma BeginKeepsHeld(s: State, t: nat, m: Message)
    requires AllHeldOk(s) && Enabled(s, Begin(t, m))
    ensures AllHeldOk(Apply(s, Begin(t, m)))
  {
    forall ref
      ensures HeldOk(Apply(s, Begin(t, m)), ref)
    {
      assert HeldOk(s, ref);
    }
  }

  /** In every run a mutex is held only by an Append that is between its load and its rename:
  one that has succeeded or failed has given it back. */
  lemma {:induction false} HeldByAWorkingCall(states: seq<State>, steps: seq<Step>, i: nat)
    requires IsRun(states, steps) && i < |states|
    ensures AllHeldOk(states[i])
  {
    if i > 0 {
      HeldByAWorkingCall(states, steps, i - 1);
      RunKeeps(states, steps, i - 1);
      StepKeepsHeld(states[i - 1], steps[i - 1]);
    }
  }

  // ---- Why an Append fails ---------------------------------------------------------------

  predicate Valid(m: Message) {
    ValidId(m.session) && ValidId(m.id)
  }

  /** An Append fails exactly when one of its file operations does, or at its start for an
  invalid id; a failed index load is not among the reasons. */
  lemma FailsExactly(s: State, step: Step, t: nat)
    requires Enabled(s, step) && t in s.calls && !s.calls[t].pc.Failed? && t in Apply(s, step).calls
    ensures Apply(s, step).calls[t].pc.Failed? <==>
            step == Fault(t) || (step == Go(t) && s.calls[t].pc.ToSave? && !Valid(s.calls[t].message))
  {
    match step
    case Go(u) =>
      if u == t {
        GoFails(s, t);
      }
    case _ =>
  }

  lemma GoFails(s: State, t: nat)
    requires Enabled(s, Go(t))
    ensures GoStep(s, t).calls[t].pc.Failed? <==> s.calls[t].pc.ToSave? && !Valid(s.calls[t].message)
  {
    match s.calls[t].pc
    case ToSave =>
    case Saving(_, _) =>
    case Indexing(_, _, _, _, _) =>
    case _ =>
  }

  // ---- Every Append returns -----------------------------------------------------------------

  predicate Ended(pc: Pc) {
    pc.Succeeded? || pc.Failed?
  }

  /** No call can take its next step. */
  ghost predicate AtRest(s: State)
  {
    forall t :: !Enabled(s, Go(t))
  }

  /** No deadlock: when no Append can move, all have succeeded or failed. */
  lemma RestMeansEnded(states: seq<State>, steps: seq<Step>, i: nat, t: nat)
    requires IsRun(states, steps) && i < |states| && AtRest(states[i]) && t in states[i].calls
    ensures Ended(states[i].calls[t].pc)
  {
    RunKeeps(states, steps, i);
    HeldByAWorkingCall(states, steps, i);
    if !Ended(states[i].calls[t].pc) {
      var u := WhoCanGo(states[i], t);
    }
  }

  /** While a call has not ended, it can go on, or the one it waits for can. */
  lemma WhoCanGo(s: State, t: nat) returns (u: nat)
    requires Inv(s) && AllHeldOk(s) && t in s.calls && !Ended(s.calls[t].pc)
    ensures Enabled(s, Go(u))
  {
    if s.storeLock.Some? {
      u := s.storeLock.value;
      assert CallOk(s, u, s.calls[u]);
    } else if s.calls[t].pc.HasLock? && s.calls[t].pc.ref in s.held {
      assert HeldOk(s, s.calls[t].pc.ref);
      u := s.held[s.calls[t].pc.ref];
    } else {
      u := t;
    }
  }

  /** The steps left to a call. */
  function Rank(pc: Pc): nat {
    match pc
    case ToSave => 18
    case Saving(_, stage) => 17 - Order(stage)
    case ToLock => 10
    case HasLock(_) => 9
    case ToLoad(_) => 8
    case ToIndex(_, _, _) => 7
    case Indexing(_, _, _, _, stage) => 6 - Order(stage)
    case Succeeded => 0
    case Failed => 0
  }

  function Work(calls: map<nat, Call>, n: nat): nat {
    if n == 0 then 0 else Work(calls, n - 1) + if n - 1 in calls then Rank(calls[n - 1].pc) else 0
  }

  lemma {:induction false} WorkChange(calls: map<nat, Call>, t: nat, c: Call, n: nat)
    requires t in calls
    ensures Work(calls[t := c], n) == Work(calls, n) + if t < n then Rank(c.pc) - Rank(calls[t].pc) else 0
  {
    if n > 0 {
      WorkChange(calls, t, c, n - 1);
    }
  }

  /** The steps of the Appends themselves; the others start an Append or stop the process. */
  predicate Internal(step: Step) {
    step.Go? || step.Fault? || step.LoadFault?
  }

  lemma GoLowers(s: State, t: nat)
    requires Enabled(s, Go(t)) && CallOk(s, t, s.calls[t])
    ensures Rank(GoStep(s, t).calls[t].pc) < Rank(s.calls[t].pc)
  {
    match s.calls[t].pc
    case ToSave =>
    case Saving(_, stage) =>
    case Indexing(_, _, _, _, stage) =>
    case _ =>
  }

  lemma StepWorks(s: State, step: Step, n: nat)
    requires Inv(s) && Enabled(s, step) && Internal(step) && forall t <- s.calls :: t < n
    ensures Work(Apply(s, step).calls, n) < Work(s.calls, n) && Apply(s, step).calls.Keys == s.calls.Keys
  {
    StepLowers(s, step);
    WorkChange(s.calls, step.t, Apply(s, step).calls[step.t], n);
  }

  lemma StepLowers(s: State, step: Step)
    requires Inv(s) && Enabled(s, step) && Internal(step)
    ensures step.t in s.calls && step.t in Apply(s, step).calls
    ensures var c := Apply(s, step).calls[step.t];
            Apply(s, step).calls == s.calls[step.t := c] && Rank(c.pc) < Rank(s.calls[step.t].pc)
  {
    assert CallOk(s, step.t, s.calls[step.t]);
    match step
    case Go(t) =>
      GoHandsOver(s, t);
      GoLowers(s, t);
    case Fault(t) => FaultHandsOver(s, t);
    case LoadFault(_) =>
  }

  /** Every Append returns: left alone, the Appends come to rest within a bounded number of
  steps, whatever file operations and loads fail, and at rest each has succeeded or failed. */
  lemma {:induction false} AppendsReturn(states: seq<State>, steps: seq<Step>, i: nat, j: nat, n: nat)
    requires IsRun(states, steps) && i <= j < |states|
    requires forall m :: i <= m < j ==> Internal(steps[m])
    requires forall t <- states[i].calls :: t < n
    ensures j - i + Work(states[j].calls, n) <= Work(states[i].calls, n)
    ensures states[j].calls.Keys == states[i].calls.Keys
    ensures AtRest(states[j]) ==> forall t <- states[i].calls :: t in states[j].calls && Ended(states[j].calls[t].pc)
  {
    if i < j {
      AppendsReturn(states, steps, i, j - 1, n);
      assert forall t <- states[j - 1].calls :: t in states[i].calls;
      RunKeeps(states, steps, j - 1);
      StepWorks(states[j - 1], steps[j - 1], n);
    }
    if AtRest(states[j]) {
      forall t <- states[j].calls
        ensures Ended(states[j].calls[t].pc)
      {
        RestMeansEnded(states, steps, j, t);
      }
    }
  }

  // ---- Temporary files ------------------------------------------------------------------------

  /** The temporary names that the first i steps have abandoned: those being written at a
  crash, and those whose rename failed. */
  ghost function Stray(states: seq<State>, steps: seq<Step>, i: nat): set<nat>
    requires i <= |steps| < |states|
  {
    if i == 0 then {} else Stray(states, steps, i - 1) + Abandoned(states[i - 1], steps[i - 1])
  }

  ghost function Abandoned(s: State, step: Step): set<nat>
  {
    match step
    case Crash => set t | t in s.calls && Busy(s.calls[t].pc) :: s.calls[t].pc.temp
    case Fault(t) =>
      if t in s.calls && Busy(s.calls[t].pc) && s.calls[t].pc.stage.ToRename? then {s.calls[t].pc.temp} else {}
    case _ => {}
  }

  ghost predicate InUse(s: State, n: nat)
  {
    s.storeLock.Some? && s.storeLock.value in s.calls
    && Busy(s.calls[s.storeLock.value].pc) && s.calls[s.storeLock.value].pc.temp == n
  }

  ghost predicate TempsOk(s: State, stray: set<nat>)
  {
    && (forall n: nat :: Temp(n) in s.files ==> n < s.nextTemp && (n in stray || InUse(s, n)))
    && (forall t <- s.calls :: Busy(s.calls[t].pc) ==> s.calls[t].pc.temp < s.nextTemp)
  }

  /** What a step of call t does to the temporary files and the store's lock. */
  lemma GoOnTemps(s: State, t: nat)
    requires Enabled(s, Go(t)) && CallOk(s, t, s.calls[t])
    ensures var n := GoStep(s, t);
            && s.nextTemp <= n.nextTemp && t in n.calls
            && (Busy(n.calls[t].pc) ==>
                  && n.storeLock == Some(t)
                  && n.calls[t].pc.temp == if Busy(s.calls[t].pc) then s.calls[t].pc.temp else s.nextTemp)
            && (Busy(n.calls[t].pc) && !Busy(s.calls[t].pc) ==> n.nextTemp == s.nextTemp + 1)
            && (!Busy(s.calls[t].pc) ==> n.files == s.files && (s.storeLock.None? || n.storeLock == s.storeLock))
            && (forall k: nat :: Temp(k) in n.files ==>
                  Temp(k) in s.files || (Busy(s.calls[t].pc) && k == s.calls[t].pc.temp && Busy(n.calls[t].pc)))
            && (Busy(s.calls[t].pc) && !Busy(n.calls[t].pc) ==> Temp(s.calls[t].pc.temp) !in n.files)
  {
    match s.calls[t].pc
    case ToSave =>
    case Saving(_, stage) =>
    case ToIndex(_, _, _) =>
    case Indexing(_, _, _, _, stage) =>
    case _ =>
  }

  lemma GoKeepsTemps(s: State, t: nat, stray: set<nat>)
    requires Inv(s) && TempsOk(s, stray) && Enabled(s, Go(t))
    ensures TempsOk(GoStep(s, t), stray)
  {
    assert CallOk(s, t, s.calls[t]);
    GoOnTemps(s, t);
    GoHandsOver(s, t);
  }

  lemma FaultKeepsTemps(s: State, t: nat, stray: set<nat>)
    requires Inv(s) && TempsOk(s, stray) && Enabled(s, Fault(t))
    ensures TempsOk(FaultStep(s, t), stray + Abandoned(s, Fault(t)))
  {
    assert CallOk(s, t, s.calls[t]);
  }

  lemma CrashKeepsTemps(s: State, stray: set<nat>)
    requires Inv(s) && TempsOk(s, stray)
    ensures TempsOk(Apply(s, Crash), stray + Abandoned(s, Crash))
  {
    forall n: nat | Temp(n) in s.files
      ensures n in stray + Abandoned(s, Crash)
    {
      assert InUse(s, n) ==> s.storeLock.value in s.calls && n in Abandoned(s, Crash);
    }
  }

  lemma StepKeepsTemps(s: State, step: Step, stray: set<nat>)
    requires Inv(s) && TempsOk(s, stray) && Enabled(s, step)
    ensures TempsOk(Apply(s, step), stray + Abandoned(s, step))
  {
    match step
    case Begin(t, m) => assert s.storeLock != Some(t);
    case Go(t) => GoKeepsTemps(s, t, stray);
    case Fault(t) => FaultKeepsTemps(s, t, stray);
    case LoadFault(t) => assert CallOk(s, t, s.calls[t]);
    case Crash => CrashKeepsTemps(s, stray);
  }

  /** In every run a temporary file is one being written, or was abandoned by a crash or a
  failed rename; and the next name is unused. */
  lemma {:induction false} TempsAccounted(states: seq<State>, steps: seq<Step>, i: nat)
    requires IsRun(states, steps) && i < |states|
    ensures TempsOk(states[i], Stray(states, steps, i))
  {
    if i > 0 {
      TempsAccounted(states, steps, i - 1);
      RunKeeps(states, steps, i - 1);
      StepKeepsTemps(states[i - 1], steps[i - 1], Stray(states, steps, i - 1));
    }
  }

  /** A crash leaves the files, and neither an Append nor a lock. */
  lemma CrashStops(states: seq<State>, steps: seq<Step>, i: nat)
    requires IsRun(states, steps) && i < |steps| && steps[i].Crash?
    ensures states[i + 1].files == states[i].files && states[i + 1].calls.Keys == {}
    ensures states[i + 1].storeLock.None? && states[i + 1].held.Keys == {}
  {
    assert Enabled(states[i], steps[i]);
  }

  /** The store's lock keeps loads and saves apart, and saves from each other: while a call
  writes a file no other call writes or loads, whatever session it is for. */
  lemma SavesExclude(states: seq<State>, steps: seq<Step>, i: nat, t: nat)
    requires IsRun(states, steps) && i < |steps| && t in states[i].calls && Busy(states[i].calls[t].pc)
    ensures forall u <- states[i].calls :: u != t ==> !Busy(states[i].calls[u].pc)
    ensures (steps[i].Go? || steps[i].LoadFault?) && steps[i].t in states[i].calls ==>
              !states[i].calls[steps[i].t].pc.ToLoad?
  {
    RunKeeps(states, steps, i);
    assert forall u <- states[i].calls :: CallOk(states[i], u, states[i].calls[u]);
    assert Enabled(states[i], steps[i]);
  }
}
