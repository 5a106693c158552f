/** What holds in every run of ReadProtocol: no bytes lost or repeated across a reader's
Reads, exact outcomes, and which wake-ups can be lost. */
module ReadGuarantees {
  import opened Bytes
  import opened ReadProtocol
  import L = LogSpec

  lemma {:induction false} RunKeeps(policy: Policy, states: seq<State>, steps: seq<Step>, i: nat)
    requires IsRun(policy, states, steps) && i < |states|
    ensures Inv(states[i])
  {
    if i == 0 {
      InitInv(states[0].size);
    } else {
      RunKeeps(policy, states, steps, i - 1);
      StepKeeps(states[i - 1], steps[i - 1]);
    }
  }

  // ---- Conservation and exact outcomes ---------------------------------------

  /** In every reachable state each registered reader's ring is the last min(size, n) of
  the n bytes written since its cursor, and delivered, overwritten and pending bytes add
  up to everything written since it registered. */
  lemma Conservation(policy: Policy, states: seq<State>, steps: seq<Step>, i: nat, id: int)
    requires IsRun(policy, states, steps) && i < |states| && id in states[i].readers
    ensures var s := states[i];
            && L.WellFormed(s.log) && id in s.log.readers && s.readers[id] < |s.rings|
            && var r, ring := s.log.readers[id], s.rings[s.readers[id]];
            && ring == LastN(s.log.bytes[r.cursor..], s.size)
            && L.Delivered(r.got) + L.Skipped(r.got) + (|s.log.bytes| - r.cursor - |ring|) + |ring|
               == |s.log.bytes| - r.start
            && |ring| <= |s.log.bytes| - r.cursor
  {
    RunKeeps(policy, states, steps, i);
    L.Conservation(states[i].log, id);
  }

  /** However many Reads of one reader overlap, what two of them returned are disjoint
  stretches of the one log. */
  lemma ReadsAreDisjoint(policy: Policy, states: seq<State>, steps: seq<Step>, i: nat, t: nat, u: nat)
    requires IsRun(policy, states, steps) && i < |states| && t != u
    requires var c := states[i].calls;
             t in c && u in c && c[t].id == c[u].id && c[t].pc.Done? && c[u].pc.Done?
             && c[t].pc.outcome.Data? && c[u].pc.outcome.Data?
    ensures var x, y, log := states[i].calls[t].pc.outcome, states[i].calls[u].pc.outcome, states[i].log.bytes;
            && 0 < |x.bytes| <= x.at <= |log| && x.bytes == log[x.at - |x.bytes|..x.at]
            && 0 < |y.bytes| <= y.at <= |log| && y.bytes == log[y.at - |y.bytes|..y.at]
            && (x.at <= y.at - |y.bytes| || y.at <= x.at - |x.bytes|)
  {
    RunKeeps(policy, states, steps, i);
    var s := states[i];
    assert CallOk(s, t, s.calls[t]) && CallOk(s, u, s.calls[u]) && Disjoint(s.calls[t], s.calls[u]);
  }

  ghost predicate Exact(s: State, n: State, c: Call)
    requires c.pc.Done? && L.Sane(s.log)
  {
    match c.pc.outcome
    case Data(bytes, at) =>
      && c.id in s.readers && c.id in s.log.readers && n.log == L.Drain(s.log, c.id)
      && bytes == L.Pending(s.log, c.id) && at == |s.log.bytes|
    case ErrReader => c.id !in s.readers
    case EOF => s.closed && (c.id in s.log.readers ==> L.Pending(s.log, c.id) == [])
    case NoData => !s.closed && c.id in s.log.readers && L.Pending(s.log, c.id) == []
    case FinalNil => false
  }

  /** Why a Read may return without data and without an error: it was not to wait, it tested
  its deadline after that had passed, or it polled its context after that was cancelled. */
  predicate GivesUp(s: State, step: Step, t: nat) {
    || (step.Enter? && step.t == t && !step.waits)
    || (step == Loop(t) && t in s.calls && s.calls[t].deadline)
    || (step == Ctx(t) && t in s.calls && s.calls[t].cancelled)
  }

  /** The step on which a Read returns decides its outcome exactly: data only from a ring
  that is registered at that moment (and then all of it, which moves the reader's cursor
  to the end of the log), ErrReader only for an unregistered id, EOF only from a closed
  buffer with nothing pending, no data only for a reason, and never the final (nil, nil). */
  lemma OutcomeIsExact(policy: Policy, states: seq<State>, steps: seq<Step>, i: nat, t: nat)
    requires IsRun(policy, states, steps) && i < |steps|
    requires t !in states[i].calls || !states[i].calls[t].pc.Done?
    requires t in states[i + 1].calls && states[i + 1].calls[t].pc.Done?
    ensures L.Sane(states[i].log) && Exact(states[i], states[i + 1], states[i + 1].calls[t])
    ensures states[i + 1].calls[t].pc.outcome.NoData? ==> GivesUp(states[i], steps[i], t)
  {
    RunKeeps(policy, states, steps, i);
    assert t in states[i].calls ==> CallOk(states[i], t, states[i].calls[t]);
    FinishIsExact(states[i], steps[i], t);
    if states[i + 1].calls[t].pc.outcome.NoData? {
      NoDataHasReason(states[i], steps[i], t);
    }
  }

  lemma NoDataHasReason(s: State, step: Step, t: nat)
    requires Enabled(AsWritten, s, step) && (t in s.calls ==> !s.calls[t].pc.Done?)
    requires t in Apply(s, step).calls && Apply(s, step).calls[t].pc == Done(NoData)
    ensures GivesUp(s, step, t)
  {
    if t in s.calls {
      ReturnsBy(s, step, t);
      if step == Loop(t) {
        LoopReturns(s, t);
      }
    } else {
      assert step.Enter? && step.t == t;
      EnterReturns(s, t, step.id, step.waits);
    }
  }

  lemma LoopReturns(s: State, t: nat)
    requires At(s, t, AtLoop)
    ensures var c := s.calls[t];
            && t in AfterLoop(s, t).calls
            && (AfterLoop(s, t).calls[t].pc.Done? <==> RingAt(s, c.ring) != [] || (!s.closed && c.deadline))
            && (AfterLoop(s, t).calls[t].pc == Done(NoData) ==> c.deadline)
  {
  }

  lemma EnterReturns(s: State, t: nat, id: int, waits: bool)
    ensures t in AfterEnter(s, t, id, waits).calls
    ensures AfterEnter(s, t, id, waits).calls[t].pc.Done? <==>
            id !in s.readers || RingAt(s, s.readers[id]) != [] || s.closed || !waits
    ensures AfterEnter(s, t, id, waits).calls[t].pc == Done(NoData) ==> !waits
  {
  }

  /** When a step ends a Read: at once for an unknown id, pending data, a closed buffer or a
  timeout that is not positive; at the loop's test for data or a passed deadline; at the
  poll for a cancelled context; on waking for an id that has been unregistered; and at the
  end. In all other cases it goes on. */
  predicate Returns(s: State, step: Step, t: nat) {
    match step
    case Enter(u, id, waits) =>
      u == t && (id !in s.readers || RingAt(s, s.readers[id]) != [] || s.closed || !waits)
    case Loop(u) =>
      u == t && t in s.calls && (RingAt(s, s.calls[t].ring) != [] || (!s.closed && s.calls[t].deadline))
    case Ctx(u) => u == t && t in s.calls && s.calls[t].cancelled
    case Wake(u) => u == t && t in s.calls && s.calls[t].id !in s.readers
    case End(u) => u == t
    case _ => false
  }

  lemma ReturnsExactly(policy: Policy, states: seq<State>, steps: seq<Step>, i: nat, t: nat)
    requires IsRun(policy, states, steps) && i < |steps| && t in states[i + 1].calls
    requires t in states[i].calls ==> !states[i].calls[t].pc.Done?
    ensures states[i + 1].calls[t].pc.Done? <==> Returns(states[i], steps[i], t)
  {
    StepReturns(states[i], steps[i], t);
  }

  lemma StepReturns(s: State, step: Step, t: nat)
    requires Enabled(AsWritten, s, step) && t in Apply(s, step).calls && (t in s.calls ==> !s.calls[t].pc.Done?)
    ensures Apply(s, step).calls[t].pc.Done? <==> Returns(s, step, t)
  {
    match step
    case Enter(u, id, waits) => EnterOne(s, u, id, waits, t);
    case Loop(u) => LoopOne(s, u, t);
    case _ =>
  }

  lemma EnterOne(s: State, u: nat, id: int, waits: bool, t: nat)
    requires u !in s.calls && t in AfterEnter(s, u, id, waits).calls && (t in s.calls ==> !s.calls[t].pc.Done?)
    ensures AfterEnter(s, u, id, waits).calls[t].pc.Done? <==> Returns(s, Enter(u, id, waits), t)
  {
    EnterReturns(s, u, id, waits);
  }

  lemma LoopOne(s: State, u: nat, t: nat)
    requires At(s, u, AtLoop) && t in AfterLoop(s, u).calls && (t in s.calls ==> !s.calls[t].pc.Done?)
    ensures AfterLoop(s, u).calls[t].pc.Done? <==> Returns(s, Loop(u), t)
  {
    LoopReturns(s, u);
  }

  lemma FinishIsExact(s: State, step: Step, t: nat)
    requires RingsFollowLog(s) && Enabled(AsWritten, s, step)
    requires t in s.calls ==> CallOk(s, t, s.calls[t]) && !s.calls[t].pc.Done?
    requires t in Apply(s, step).calls && Apply(s, step).calls[t].pc.Done?
    ensures Exact(s, Apply(s, step), Apply(s, step).calls[t])
  {
    if t in s.calls {
      ReturnIsExact(s, step, t);
    } else {
      assert step.Enter? && step.t == t;
      EnterIsExact(s, t, step.id, step.waits);
    }
  }

  lemma ReturnIsExact(s: State, step: Step, t: nat)
    requires RingsFollowLog(s) && Enabled(AsWritten, s, step)
    requires t in s.calls && CallOk(s, t, s.calls[t]) && !s.calls[t].pc.Done?
    requires t in Apply(s, step).calls && Apply(s, step).calls[t].pc.Done?
    ensures Exact(s, Apply(s, step), Apply(s, step).calls[t])
  {
    ReturnsBy(s, step, t);
    match step
    case Loop(_) => LoopIsExact(s, t);
    case Ctx(_) => CtxIsExact(s, t);
    case Wake(_) => WakeIsExact(s, t);
    case End(_) => EndIsExact(s, t);
    case _ =>
  }

  lemma ReturnsBy(s: State, step: Step, t: nat)
    requires Enabled(AsWritten, s, step) && t in s.calls && !s.calls[t].pc.Done? && Apply(s, step).calls[t].pc.Done?
    ensures step == Loop(t) || step == Ctx(t) || step == Wake(t) || step == End(t)
  {
  }

  lemma WakeIsExact(s: State, t: nat)
    requires RingsFollowLog(s) && Enabled(AsWritten, s, Wake(t)) && Apply(s, Wake(t)).calls[t].pc.Done?
    ensures Exact(s, Apply(s, Wake(t)), Apply(s, Wake(t)).calls[t])
  {
  }

  lemma EndIsExact(s: State, t: nat)
    requires RingsFollowLog(s) && At(s, t, AtEnd) && CallOk(s, t, s.calls[t])
    ensures Exact(s, Apply(s, End(t)), Apply(s, End(t)).calls[t])
  {
  }

  lemma CtxIsExact(s: State, t: nat)
    requires RingsFollowLog(s) && At(s, t, AtCtx) && CallOk(s, t, s.calls[t]) && Apply(s, Ctx(t)).calls[t].pc.Done?
    ensures Exact(s, Apply(s, Ctx(t)), Apply(s, Ctx(t)).calls[t])
  {
  }

  lemma EnterIsExact(s: State, t: nat, id: int, waits: bool)
    requires RingsFollowLog(s) && Enabled(AsWritten, s, Enter(t, id, waits))
    requires AfterEnter(s, t, id, waits).calls[t].pc.Done?
    ensures Exact(s, AfterEnter(s, t, id, waits), AfterEnter(s, t, id, waits).calls[t])
  {
    if id in s.readers && s.rings[s.readers[id]] != [] {
      TakeRings(s, t, Call(id, s.readers[id], AtLoop, false, false, false, false));
    }
  }

  lemma LoopIsExact(s: State, t: nat)
    requires RingsFollowLog(s) && At(s, t, AtLoop) && CallOk(s, t, s.calls[t]) && AfterLoop(s, t).calls[t].pc.Done?
    ensures Exact(s, AfterLoop(s, t), AfterLoop(s, t).calls[t])
  {
    if s.rings[s.calls[t].ring] != [] {
      TakeRings(s, t, s.calls[t].(missed := false));
    }
  }

  /** The ring a Read captured at entry stays the one its id is mapped to for as long as
  the id is registered, because ids are never reused. */
  lemma CapturedRing(policy: Policy, states: seq<State>, steps: seq<Step>, i: nat, t: nat)
    requires IsRun(policy, states, steps) && i < |states| && t in states[i].calls && !states[i].calls[t].pc.Done?
    ensures var c := states[i].calls[t];
            c.id in states[i].readers ==> states[i].readers[c.id] == c.ring
  {
    RunKeeps(policy, states, steps, i);
    assert CallOk(states[i], t, states[i].calls[t]);
  }

  // ---- Wake-ups ---------------------------------------------------------------

  /** A parked Read whose deadline or context has fired, with its goroutine's only
  Broadcast already spent. */
  predicate Lost(s: State, t: nat) {
    t in s.calls && s.calls[t].pc.Parked? && Raised(s.calls[t]) && !s.calls[t].armed
  }

  /** The goroutine broadcasts while the call is between its test and its wait. */
  predicate FiresInWindow(s: State, step: Step, t: nat) {
    step == Fire(t) && t in s.calls && (s.calls[t].pc.AtCtx? || s.calls[t].pc.AtPark?)
  }

  /** Data, Close and Unregister never lose a wake-up, under either policy: a parked Read
  whose condition they falsified is owed a Broadcast that needs no lock. */
  lemma ParkedIsOwed(policy: Policy, states: seq<State>, steps: seq<Step>, i: nat, t: nat)
    requires IsRun(policy, states, steps) && i < |states| && At(states[i], t, Parked)
    ensures var s, c := states[i], states[i].calls[t];
            && RingAt(s, c.ring) == []
            && (s.closed || c.id !in s.readers ==>
                  Enabled(policy, s, Broadcast) && At(Apply(s, Broadcast), t, Woken))
  {
    RunKeeps(policy, states, steps, i);
    assert CallOk(states[i], t, states[i].calls[t]);
  }

  /** How one step changes the flag that says a Broadcast fell in the window. */
  lemma MissedStep(policy: Policy, s: State, step: Step, t: nat)
    requires Enabled(policy, s, step) && t in Apply(s, step).calls
    requires t in s.calls && s.calls[t].missed ==> !s.calls[t].armed
    ensures Apply(s, step).calls[t].missed <==>
            FiresInWindow(s, step, t) || (t in s.calls && s.calls[t].missed && step != Loop(t))
  {
    match step
    case Enter(u, id, waits) => EnterMissed(s, u, id, waits, t);
    case Loop(u) => LoopMissed(s, u, t);
    case Write(_) =>
    case Broadcast =>
    case Fire(u) => FireMissed(s, u, t);
    case _ =>
  }

  lemma EnterMissed(s: State, u: nat, id: int, waits: bool, t: nat)
    requires u !in s.calls && t in AfterEnter(s, u, id, waits).calls
    ensures AfterEnter(s, u, id, waits).calls[t].missed <==> t in s.calls && s.calls[t].missed
  {
  }

  lemma LoopMissed(s: State, u: nat, t: nat)
    requires u in s.calls && t in AfterLoop(s, u).calls
    ensures AfterLoop(s, u).calls[t].missed <==> t in s.calls && s.calls[t].missed && u != t
  {
  }

  lemma FireMissed(s: State, u: nat, t: nat)
    requires Enabled(AsWritten, s, Fire(u)) && t in s.calls && (s.calls[t].missed ==> !s.calls[t].armed)
    ensures Apply(s, Fire(u)).calls[t].missed <==> FiresInWindow(s, Fire(u), t) || s.calls[t].missed
  {
  }

  /** When the timer goroutine takes the mutex first, no wake-up is lost in any run. */
  lemma {:induction false} UnderLockNeverLoses(states: seq<State>, steps: seq<Step>, i: nat, t: nat)
    requires IsRun(UnderLock, states, steps) && i < |states| && t in states[i].calls
    ensures !states[i].calls[t].missed && !Lost(states[i], t)
  {
    RunKeeps(UnderLock, states, steps, i);
    assert CallOk(states[i], t, states[i].calls[t]);
    if i > 0 {
      RunKeeps(UnderLock, states, steps, i - 1);
      assert t in states[i - 1].calls ==> CallOk(states[i - 1], t, states[i - 1].calls[t]);
      MissedStep(UnderLock, states[i - 1], steps[i - 1], t);
      if t in states[i - 1].calls {
        UnderLockNeverLoses(states, steps, i - 1, t);
      }
    }
  }

  /** Step k is a Broadcast by t's goroutine inside t's test-to-wait window, and t has not
  tested again before step i. */
  ghost predicate FiredInLastWindow(states: seq<State>, steps: seq<Step>, k: nat, i: nat, t: nat)
    requires i <= |steps| < |states|
  {
    k < i && FiresInWindow(states[k], steps[k], t) && forall m :: k < m < i ==> steps[m] != Loop(t)
  }

  ghost predicate FiredBeforeWaiting(states: seq<State>, steps: seq<Step>, i: nat, t: nat)
    requires i <= |steps| < |states|
  {
    exists k: nat :: FiredInLastWindow(states, steps, k, i, t)
  }

  /** MissedStep, and that calls never disappear, for every step of a run. */
  ghost predicate MissedRule(s: State, step: Step, n: State, t: nat)
  {
    && (t in s.calls ==> t in n.calls)
    && (t in n.calls ==>
          (n.calls[t].missed <==> FiresInWindow(s, step, t) || (t in s.calls && s.calls[t].missed && step != Loop(t))))
  }

  lemma RunMissedRule(policy: Policy, states: seq<State>, steps: seq<Step>, t: nat)
    requires IsRun(policy, states, steps)
    ensures t !in states[0].calls
    ensures forall i: nat :: i < |steps| ==> MissedRule(states[i], steps[i], states[i + 1], t)
  {
    forall i: nat | i < |steps|
      ensures MissedRule(states[i], steps[i], states[i + 1], t)
    {
      RunKeeps(policy, states, steps, i);
      assert t in states[i].calls ==> CallOk(states[i], t, states[i].calls[t]);
      if t in states[i + 1].calls {
        MissedStep(policy, states[i], steps[i], t);
      }
      if t in states[i].calls {
        CallStays(policy, states[i], steps[i], t);
      }
    }
  }

  lemma CallStays(policy: Policy, s: State, step: Step, t: nat)
    requires Enabled(policy, s, step) && t in s.calls
    ensures t in Apply(s, step).calls
  {
  }

  lemma {:induction false} MissedMeans(states: seq<State>, steps: seq<Step>, i: nat, t: nat)
    requires |states| == |steps| + 1 && i < |states| && t !in states[0].calls
    requires forall k: nat :: k < |steps| ==> MissedRule(states[k], steps[k], states[k + 1], t)
    ensures t in states[i].calls && states[i].calls[t].missed <==> FiredBeforeWaiting(states, steps, i, t)
  {
    if i > 0 {
      assert MissedRule(states[i - 1], steps[i - 1], states[i - 1 + 1], t);
      MissedMeans(states, steps, i - 1, t);
      if FiresInWindow(states[i - 1], steps[i - 1], t) {
        assert FiredInLastWindow(states, steps, i - 1, i, t);
      } else {
        WindowStep(states, steps, i - 1, i, t);
      }
    }
  }

  lemma WindowStep(states: seq<State>, steps: seq<Step>, i: nat, j: nat, t: nat)
    requires j == i + 1 <= |steps| < |states| && !FiresInWindow(states[i], steps[i], t)
    ensures FiredBeforeWaiting(states, steps, j, t) <==> FiredBeforeWaiting(states, steps, i, t) && steps[i] != Loop(t)
  {
    forall k: nat
      ensures FiredInLastWindow(states, steps, k, j, t)
              <==> FiredInLastWindow(states, steps, k, i, t) && steps[i] != Loop(t)
    {
    }
  }

  /** As written, a wake-up is lost exactly when the goroutine's Broadcast fell between a
  test and the wait that followed it. */
  lemma LostExactlyWhenFiredInWindow(policy: Policy, states: seq<State>, steps: seq<Step>, i: nat, t: nat)
    requires IsRun(policy, states, steps) && i < |states| && At(states[i], t, Parked)
    ensures Lost(states[i], t) <==> FiredBeforeWaiting(states, steps, i, t)
  {
    RunKeeps(policy, states, steps, i);
    assert CallOk(states[i], t, states[i].calls[t]);
    RunMissedRule(policy, states, steps, t);
    MissedMeans(states, steps, i, t);
  }
}
