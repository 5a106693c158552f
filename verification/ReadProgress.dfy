/** Whether blocked Reads come back: the run in which one does not, why only a broadcast
from elsewhere can rescue it, and the guarantee that holds when the timer goroutine
takes the mutex before it broadcasts. */
module ReadProgress {
  import opened Bytes
  import opened ReadProtocol
  import opened ReadGuarantees
  import L = LogSpec

  /** One reader, one Read on it, nothing written. */
  function Scene(pc: Pc, deadline: bool, armed: bool, missed: bool): State {
    State(1, [[]], map[0 := 0], 1, false, if Holding(pc) then Some(0) else None,
          map[0 := Call(0, 0, pc, deadline, false, armed, missed)], 0, L.NewReader(L.Empty(1)))
  }

  /** The run, state by state: the Read enters and tests, then its deadline passes and
  its goroutine broadcasts to nobody, then the Read parks. */
  function SceneState(i: nat): State {
    match i
    case 0 => Init(1)
    case 1 => State(1, [[]], map[0 := 0], 1, false, None, map[], 0, L.NewReader(L.Empty(1)))
    case 2 => Scene(AtLoop, false, true, false)
    case 3 => Scene(AtCtx, false, true, false)
    case 4 => Scene(AtPark, false, true, false)
    case 5 => Scene(AtPark, true, true, false)
    case 6 => Scene(AtPark, true, false, true)
    case _ => Scene(Parked, true, false, true)
  }

  function SceneStep(i: nat): Step {
    match i
    case 0 => NewReader
    case 1 => Enter(0, 0, true)
    case 2 => Loop(0)
    case 3 => Ctx(0)
    case 4 => Deadline(0)
    case 5 => Fire(0)
    case _ => Park(0)
  }

  lemma SceneSteps(i: nat)
    requires i < 7
    ensures Enabled(AsWritten, SceneState(i), SceneStep(i)) && SceneState(i + 1) == Apply(SceneState(i), SceneStep(i))
  {
    assert RingAt(Scene(AtLoop, false, true, false), 0) == [];
  }

  /** A deadline that passes between Read's test and its wait is never noticed: the one
  Broadcast finds nobody waiting, and the call then parks. */
  lemma LostWakeUpRun() returns (states: seq<State>, steps: seq<Step>)
    ensures IsRun(AsWritten, states, steps) && |steps| == 7
    ensures Lost(states[7], 0) && states[7].calls[0].deadline
    ensures !Enabled(UnderLock, states[5], steps[5])
  {
    states, steps := seq(8, i requires 0 <= i < 8 => SceneState(i)), seq(7, i requires 0 <= i < 7 => SceneStep(i));
    forall i | 0 <= i < 7
      ensures Enabled(AsWritten, states[i], steps[i]) && states[i + 1] == Apply(states[i], steps[i])
    {
      SceneSteps(i);
    }
  }

  /** A Broadcast owed by Close or Unregister, an accepted Write, or the goroutine of
  another call. */
  predicate Rescues(s: State, step: Step, t: nat) {
    || step == Broadcast
    || (step.Write? && step.chunk != [] && !s.closed)
    || (step.Fire? && step.t != t)
  }

  lemma OnlyOthersRescue(policy: Policy, s: State, step: Step, t: nat)
    requires Lost(s, t) && Enabled(policy, s, step)
    ensures Lost(Apply(s, step), t) <==> !Rescues(s, step, t)
  {
    match step
    case Enter(_, _, _) =>
    case Loop(_) =>
    case Write(_) =>
    case _ =>
  }

  /** Nothing the stuck call, its goroutine, time or its caller can do ends the wait: for as
  long as no one else broadcasts, and in every such continuation, it stays lost. */
  lemma {:induction false} LostUntilRescued(
    policy: Policy, states: seq<State>, steps: seq<Step>, i: nat, j: nat, t: nat)
    requires IsRun(policy, states, steps) && i <= j < |states| && Lost(states[i], t)
    requires forall m :: i <= m < j ==> !Rescues(states[m], steps[m], t)
    ensures Lost(states[j], t)
  {
    if i < j {
      LostUntilRescued(policy, states, steps, i, j - 1, t);
      OnlyOthersRescue(policy, states[j - 1], steps[j - 1], t);
    }
  }

  // ---- Quiet states ------------------------------------------------------------

  /** Steps the running goroutines take by themselves; the others need the outside world
  to call a method, let time pass or cancel. */
  predicate Internal(step: Step) {
    step.Broadcast? || step.Loop? || step.Ctx? || step.Park? || step.Wake? || step.End? || step.Fire?
  }

  ghost predicate Quiet(policy: Policy, s: State)
  {
    forall step | Internal(step) :: !Enabled(policy, s, step)
  }

  /** No deadlock: when nothing can move by itself, every Read has returned or is waiting
  on an open buffer, a registered reader and an empty ring; and unless its wake-up was
  lost, neither its deadline nor its context has fired. */
  lemma QuietMeansWaiting(policy: Policy, states: seq<State>, steps: seq<Step>, i: nat, t: nat)
    requires IsRun(policy, states, steps) && i < |states| && t in states[i].calls
    requires Quiet(policy, states[i])
    ensures var s, c := states[i], states[i].calls[t];
            || c.pc.Done?
            || (&& c.pc.Parked? && RingAt(s, c.ring) == [] && !s.closed && c.id in s.readers
                && (Raised(c) ==> Lost(s, t)))
    ensures policy.UnderLock? && Raised(states[i].calls[t]) ==> states[i].calls[t].pc.Done?
  {
    var s := states[i];
    RunKeeps(policy, states, steps, i);
    assert CallOk(s, t, s.calls[t]);
    if s.lock.Some? {
      var step := HolderCanMove(policy, s);
    }
    assert !Enabled(policy, s, Broadcast) && !Enabled(policy, s, Wake(t)) && !Enabled(policy, s, End(t));
    assert !Enabled(policy, s, Fire(t));
    if policy.UnderLock? {
      UnderLockNeverLoses(states, steps, i, t);
    }
  }

  lemma HolderCanMove(policy: Policy, s: State) returns (step: Step)
    requires Inv(s) && s.lock.Some?
    ensures Internal(step) && Enabled(policy, s, step)
  {
    var t := s.lock.value;
    assert CallOk(s, t, s.calls[t]);
    step := match s.calls[t].pc
      case AtLoop => Loop(t)
      case AtCtx => Ctx(t)
      case _ => Park(t);
  }

  // ---- Quiet states are reached --------------------------------------------------

  function Rank(pc: Pc): nat {
    match pc
    case Woken => 5
    case AtLoop => 4
    case AtCtx => 3
    case AtPark => 2
    case Parked => 1
    case AtEnd => 1
    case Done(_) => 0
  }

  /** The work left in one call: the steps to its next wait, and k for a Broadcast its
  goroutine may still send. */
  function Load(c: Call, k: nat): nat {
    Rank(c.pc) + if c.armed then k else 0
  }

  function Total(calls: map<nat, Call>, n: nat, k: nat): nat {
    if n == 0 then 0
    else Total(calls, n - 1, k) + if n - 1 in calls then Load(calls[n - 1], k) else 0
  }

  lemma {:induction false} TotalChange(calls: map<nat, Call>, t: nat, c: Call, n: nat, k: nat)
    requires t in calls
    ensures Total(calls[t := c], n, k) == Total(calls, n, k) + if t < n then Load(c, k) - Load(calls[t], k) else 0
  {
    if n > 0 {
      TotalChange(calls, t, c, n - 1, k);
    }
  }

  lemma {:induction false} TotalWake(calls: map<nat, Call>, n: nat, k: nat)
    ensures Total(WakeAll(calls), n, k) <= Total(calls, n, k) + 4 * n
  {
    if n > 0 {
      TotalWake(calls, n - 1, k);
    }
  }

  /** An upper bound on how many internal steps can follow. */
  function Work(s: State, n: nat): nat {
    var k := 4 * n + 1;
    s.owed * k + Total(s.calls, n, k)
  }

  lemma BroadcastWorks(s: State, n: nat)
    requires s.owed > 0
    ensures Work(Apply(s, Broadcast), n) < Work(s, n)
  {
    var k := 4 * n + 1;
    TotalWake(s.calls, n, k);
    assert (s.owed - 1) * k == s.owed * k - k;
  }

  lemma FireWorks(s: State, t: nat, n: nat)
    requires Enabled(AsWritten, s, Fire(t)) && t < n
    ensures Work(Apply(s, Fire(t)), n) < Work(s, n)
  {
    var k := 4 * n + 1;
    var fired := s.calls[t].(armed := false, missed := s.calls[t].pc.AtCtx? || s.calls[t].pc.AtPark?);
    TotalChange(s.calls, t, fired, n, k);
    TotalWake(s.calls[t := fired], n, k);
  }

  /** The remaining internal steps change one call, to a place of lower rank. */
  lemma CallStepWorks(s: State, step: Step, n: nat)
    requires Enabled(AsWritten, s, step) && Internal(step) && !step.Broadcast? && !step.Fire? && step.t < n
    ensures Work(Apply(s, step), n) < Work(s, n)
  {
    var c := Apply(s, step).calls[step.t];
    CallStepLowers(s, step);
    TotalChange(s.calls, step.t, c, n, 4 * n + 1);
  }

  lemma CallStepLowers(s: State, step: Step)
    requires Enabled(AsWritten, s, step) && Internal(step) && !step.Broadcast? && !step.Fire?
    ensures step.t in s.calls && step.t in Apply(s, step).calls
    ensures var n, c := Apply(s, step), Apply(s, step).calls[step.t];
            n.calls == s.calls[step.t := c] && n.owed == s.owed
            && Rank(c.pc) < Rank(s.calls[step.t].pc) && c.armed == s.calls[step.t].armed
  {
    match step
    case Loop(t) => LoopLowers(s, t);
    case Ctx(_) =>
    case Park(_) =>
    case Wake(_) =>
    case End(_) =>
    case _ =>
  }

  lemma LoopLowers(s: State, t: nat)
    requires At(s, t, AtLoop)
    ensures t in AfterLoop(s, t).calls
    ensures var n, c := AfterLoop(s, t), AfterLoop(s, t).calls[t];
            n.calls == s.calls[t := c] && n.owed == s.owed && Rank(c.pc) < Rank(AtLoop) && c.armed == s.calls[t].armed
  {
  }

  lemma InternalStepWorks(policy: Policy, s: State, step: Step, n: nat)
    requires Enabled(policy, s, step) && Internal(step) && forall t <- s.calls :: t < n
    ensures Work(Apply(s, step), n) < Work(s, n)
    ensures Apply(s, step).calls.Keys == s.calls.Keys
  {
    match step
    case Broadcast => BroadcastWorks(s, n);
    case Fire(t) => FireWorks(s, t, n);
    case _ => CallStepWorks(s, step, n);
  }

  /** Left alone, the goroutines reach a quiet state within Work steps. */
  lemma {:induction false} InternalStepsRunOut(
    policy: Policy, states: seq<State>, steps: seq<Step>, i: nat, j: nat, n: nat)
    requires IsRun(policy, states, steps) && i <= j < |states|
    requires forall m :: i <= m < j ==> Internal(steps[m])
    requires forall t <- states[i].calls :: t < n
    ensures j - i + Work(states[j], n) <= Work(states[i], n) && states[j].calls.Keys == states[i].calls.Keys
  {
    if i < j {
      InternalStepsRunOut(policy, states, steps, i, j - 1, n);
      assert forall t <- states[j - 1].calls :: t in states[i].calls;
      InternalStepWorks(policy, states[j - 1], steps[j - 1], n);
      assert states[j] == Apply(states[j - 1], steps[j - 1]);
    }
  }

  lemma RaisedStays(policy: Policy, s: State, step: Step, t: nat)
    requires Enabled(policy, s, step) && t in s.calls && Raised(s.calls[t])
    ensures t in Apply(s, step).calls && Raised(Apply(s, step).calls[t])
  {
    match step
    case Enter(_, _, _) =>
    case Loop(_) =>
    case Fire(_) =>
    case _ =>
  }

  /** A deadline that has passed, or a cancellation, is never forgotten. */
  lemma {:induction false} EventRaises(policy: Policy, states: seq<State>, steps: seq<Step>, i: nat, j: nat, t: nat)
    requires IsRun(policy, states, steps) && i < j < |states| && (steps[i] == Deadline(t) || steps[i] == Cancel(t))
    ensures t in states[j].calls && Raised(states[j].calls[t])
  {
    assert Enabled(policy, states[j - 1], steps[j - 1]);
    if i + 1 < j {
      EventRaises(policy, states, steps, i, j - 1, t);
      RaisedStays(policy, states[j - 1], steps[j - 1], t);
    }
  }

  lemma {:induction false} RaisedStaysRun(policy: Policy, states: seq<State>, steps: seq<Step>, i: nat, j: nat, t: nat)
    requires IsRun(policy, states, steps) && i <= j < |states|
    requires forall m :: i <= m < j ==> Internal(steps[m])
    requires t in states[i].calls && Raised(states[i].calls[t])
    ensures t in states[j].calls && Raised(states[j].calls[t])
  {
    if i < j {
      RaisedStaysRun(policy, states, steps, i, j - 1, t);
      RaisedStays(policy, states[j - 1], steps[j - 1], t);
      assert states[j] == Apply(states[j - 1], steps[j - 1]);
    }
  }

  /** What the changelog intends of the deadline: with the broadcast under the mutex,
  once a Read's deadline or context has fired, the goroutines left alone come to rest
  within a bounded number of steps, and at rest that Read has returned. */
  lemma RaisedReadsReturn(states: seq<State>, steps: seq<Step>, i: nat, j: nat, t: nat, n: nat)
    requires IsRun(UnderLock, states, steps) && i <= j < |states|
    requires forall m :: i <= m < j ==> Internal(steps[m])
    requires t in states[i].calls && Raised(states[i].calls[t]) && forall u <- states[i].calls :: u < n
    ensures j - i <= Work(states[i], n)
    ensures Quiet(UnderLock, states[j]) ==> t in states[j].calls && states[j].calls[t].pc.Done?
  {
    InternalStepsRunOut(UnderLock, states, steps, i, j, n);
    RaisedStaysRun(UnderLock, states, steps, i, j, t);
    if Quiet(UnderLock, states[j]) {
      QuietMeansWaiting(UnderLock, states, steps, j, t);
    }
  }
}
