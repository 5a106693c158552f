/** Every interleaving of NewReader, Unregister, Write, Read and Close on one Buffer.

The state holds what the goroutines share (rings, the reader map, the closed flag, the
mutex and the condition variable's wait list) and one record per Read call. A step is
one stretch of code between two points where another goroutine can act. Stretches that
run under the mutex are split only inside Read's wait loop, where the unlocked timer
goroutine can act between the tests and the wait. `log` is auxiliary: it follows the
same steps on the log view and never influences them. */
module ReadProtocol {
  import opened Bytes
  import L = LogSpec

  /** What a Read returned. `Data` records the log length at the moment of its drain;
  `NoData` is (nil, nil) from a non-positive timeout, a deadline or a cancelled context;
  `FinalNil` is the (nil, nil) on the last line of Read. */
  datatype Outcome = Data(bytes: Text, at: nat) | ErrReader | EOF | NoData | FinalNil

  /** Where a Read call is. In AtLoop, AtCtx and AtPark it holds the mutex: about to test
  the loop condition and the deadline, about to poll the context, about to enter Wait.
  AtEnd is after the loop and the unlock, about to look at `closed` once more. */
  datatype Pc = AtLoop | AtCtx | AtPark | Parked | Woken | AtEnd | Done(outcome: Outcome)

  /** One Read call with its timer goroutine: `armed` until the goroutine has sent its
  one Broadcast; `missed` when it sent it between the call's last test and its wait. */
  datatype Call = Call(id: int, ring: nat, pc: Pc, deadline: bool, cancelled: bool, armed: bool, missed: bool)

  datatype State = State(
    size: nat, rings: seq<Text>, readers: map<int, nat>, nextID: int, closed: bool,
    lock: Option<nat>, calls: map<nat, Call>,
    owed: nat,      // Unregister and Close calls that have unlocked but not yet broadcast
    log: L.Log)

  datatype Step =
    | NewReader | Unregister(id: int) | Write(chunk: Text) | Close
    | Broadcast                                     // the last line of an Unregister or Close
    | Enter(t: nat, id: int, waits: bool)           // Read, with timeout > 0 iff waits
    | Loop(t: nat) | Ctx(t: nat) | Park(t: nat) | Wake(t: nat) | End(t: nat)
    | Deadline(t: nat) | Cancel(t: nat)             // time passes; the caller gives up
    | Fire(t: nat)                                  // the timer goroutine's Broadcast

  /** The code broadcasts from the timer goroutine without the mutex; UnderLock is the
  variant that takes it first. */
  datatype Policy = AsWritten | UnderLock

  predicate Holding(pc: Pc) {
    pc.AtLoop? || pc.AtCtx? || pc.AtPark?
  }

  predicate At(s: State, t: nat, pc: Pc) {
    t in s.calls && s.calls[t].pc == pc
  }

  predicate Raised(c: Call) {
    c.deadline || c.cancelled
  }

  predicate Enabled(policy: Policy, s: State, step: Step) {
    match step
    case NewReader => s.lock.None?
    case Unregister(_) => s.lock.None?
    case Write(_) => s.lock.None?
    case Close => s.lock.None?
    case Broadcast => s.owed > 0
    case Enter(t, _, _) => s.lock.None? && t !in s.calls
    case Loop(t) => At(s, t, AtLoop)
    case Ctx(t) => At(s, t, AtCtx)
    case Park(t) => At(s, t, AtPark)
    case Wake(t) => At(s, t, Woken) && s.lock.None?
    case End(t) => At(s, t, AtEnd)
    case Deadline(t) => t in s.calls
    case Cancel(t) => t in s.calls
    case Fire(t) => t in s.calls && s.calls[t].armed && Raised(s.calls[t]) && (policy.UnderLock? ==> s.lock.None?)
  }

  function WakeAll(calls: map<nat, Call>): map<nat, Call> {
    map t | t in calls :: if calls[t].pc.Parked? then calls[t].(pc := Woken) else calls[t]
  }

  function Put(s: State, t: nat, c: Call): State {
    s.(calls := s.calls[t := c])
  }

  /** Return from Read, releasing the mutex. */
  function Finish(s: State, t: nat, c: Call, outcome: Outcome): State {
    Put(s, t, c.(pc := Done(outcome))).(lock := None)
  }

  function RingAt(s: State, ring: nat): Text {
    if ring < |s.rings| then s.rings[ring] else []
  }

  function Drained(log: L.Log, id: int): L.Log {
    if L.Sane(log) && id in log.readers then L.Drain(log, id) else log
  }

  /** Drain the ring captured at entry and return its bytes. */
  function Take(s: State, t: nat, c: Call): State
    requires RingAt(s, c.ring) != []
  {
    var next := s.(rings := s.rings[c.ring := []], log := Drained(s.log, c.id));
    Finish(next, t, c, Data(s.rings[c.ring], |s.log.bytes|))
  }

  function Pushed(s: State, chunk: Text): seq<Text> {
    seq(|s.rings|, k requires 0 <= k < |s.rings| =>
      if k in s.readers.Values then LastN(s.rings[k] + chunk, s.size) else s.rings[k])
  }

  function AfterNewReader(s: State): State {
    s.(rings := s.rings + [[]], readers := s.readers[s.nextID := |s.rings|],
       nextID := s.nextID + 1, log := L.NewReader(s.log))
  }

  function AfterWrite(s: State, chunk: Text): State {
    if chunk == [] || s.closed then s
    else s.(rings := Pushed(s, chunk), log := L.Write(s.log, chunk), calls := WakeAll(s.calls))
  }

  function AfterEnter(s: State, t: nat, id: int, waits: bool): State {
    var c := Call(id, if id in s.readers then s.readers[id] else 0, AtLoop, false, false, false, false);
    if id !in s.readers then Finish(s, t, c, ErrReader)
    else if RingAt(s, c.ring) != [] then Take(s, t, c)
    else if s.closed then Finish(s, t, c, EOF)
    else if !waits then Finish(s, t, c, NoData)
    else Put(s, t, c.(armed := true)).(lock := Some(t))
  }

  function AfterLoop(s: State, t: nat): State
    requires t in s.calls
  {
    var c := s.calls[t].(missed := false);
    if RingAt(s, c.ring) == [] && !s.closed then
      if c.deadline then Finish(s, t, c, NoData) else Put(s, t, c.(pc := AtCtx))
    else if RingAt(s, c.ring) != [] then Take(s, t, c)
    else Put(s, t, c.(pc := AtEnd)).(lock := None)
  }

  function Apply(s: State, step: Step): State
    requires Enabled(AsWritten, s, step)
  {
    match step
    case NewReader =>
      if s.closed then s else AfterNewReader(s)
    case Unregister(id) => s.(readers := s.readers - {id}, owed := s.owed + 1, log := L.Unregister(s.log, id))
    case Write(chunk) => AfterWrite(s, chunk)
    case Close => s.(closed := true, owed := s.owed + 1, log := L.Close(s.log))
    case Broadcast => s.(owed := s.owed - 1, calls := WakeAll(s.calls))
    case Enter(t, id, waits) => AfterEnter(s, t, id, waits)
    case Loop(t) => AfterLoop(s, t)
    case Ctx(t) =>
      var c := s.calls[t];
      if c.cancelled then Finish(s, t, c, NoData) else Put(s, t, c.(pc := AtPark))
    case Park(t) => Put(s, t, s.calls[t].(pc := Parked)).(lock := None)
    case Wake(t) =>
      var c := s.calls[t];
      if c.id !in s.readers then Finish(s, t, c, ErrReader)
      else Put(s, t, c.(pc := AtLoop)).(lock := Some(t))
    case End(t) => Put(s, t, s.calls[t].(pc := Done(if s.closed then EOF else FinalNil)))
    case Deadline(t) => Put(s, t, s.calls[t].(deadline := true))
    case Cancel(t) => Put(s, t, s.calls[t].(cancelled := true))
    case Fire(t) =>
      var c := s.calls[t];
      s.(calls := WakeAll(s.calls[t := c.(armed := false, missed := c.pc.AtCtx? || c.pc.AtPark?)]))
  }

  function Init(size: nat): State {
    State(size, [], map[], 0, false, None, map[], 0, L.Empty(size))
  }

  /** The states a run passes through, one per step taken. */
  ghost predicate IsRun(policy: Policy, states: seq<State>, steps: seq<Step>)
  {
    && |states| == |steps| + 1
    && states[0] == Init(states[0].size) && states[0].size > 0
    && forall i :: 0 <= i < |steps| ==>
         Enabled(policy, states[i], steps[i]) && states[i + 1] == Apply(states[i], steps[i])
  }

  // ---- The invariant ---------------------------------------------------------

  /** Every registered reader's ring is what the log view has pending for it. */
  ghost predicate RingsFollowLog(s: State)
  {
    && L.WellFormed(s.log)
    && s.log.size == s.size && s.log.nextID == s.nextID && s.log.closed == s.closed
    && s.log.readers.Keys == s.readers.Keys
    && (forall id <- s.readers :: s.readers[id] < |s.rings| && s.rings[s.readers[id]] == L.Pending(s.log, id))
    && (forall i <- s.readers, j <- s.readers :: i != j ==> s.readers[i] != s.readers[j])
  }

  ghost predicate OutcomeOk(s: State, c: Call, o: Outcome)
  {
    match o
    case Data(bytes, at) =>
      && 0 <= c.id < s.nextID && 0 < |bytes| <= at <= |s.log.bytes| && bytes == s.log.bytes[at - |bytes|..at]
      && (c.id in s.log.readers ==> at <= s.log.readers[c.id].cursor)
    case EOF => s.closed
    case FinalNil => false
    case _ => true
  }

  ghost predicate CallOk(s: State, t: nat, c: Call)
  {
    && (s.lock == Some(t) <==> Holding(c.pc))
    && (c.missed ==> !c.armed)
    && (if c.pc.Done? then OutcomeOk(s, c, c.pc.outcome)
        else
          && 0 <= c.id < s.nextID && c.ring < |s.rings|
          && (c.id in s.readers ==> s.readers[c.id] == c.ring)
          && (Holding(c.pc) ==> c.id in s.readers)
          && (c.pc.AtCtx? || c.pc.AtPark? ==> s.rings[c.ring] == [] && !s.closed)
          && (c.pc.Parked? ==> s.rings[c.ring] == [] && (s.closed || c.id !in s.readers ==> s.owed > 0))
          && (c.pc.AtEnd? ==> s.rings[c.ring] == [] && s.closed)
          && (!c.armed ==> Raised(c))
          && (c.pc.AtCtx? && !c.armed ==> c.missed || c.cancelled)
          && (c.pc.AtPark? || c.pc.Parked? ==> (!c.armed <==> c.missed)))
  }

  /** The bytes two Reads of one reader returned come from disjoint parts of the log. */
  ghost predicate Disjoint(c: Call, d: Call)
  {
    c.id == d.id && c.pc.Done? && d.pc.Done? && c.pc.outcome.Data? && d.pc.outcome.Data? ==>
      var x, y := c.pc.outcome, d.pc.outcome;
      x.at <= y.at - |y.bytes| || y.at <= x.at - |x.bytes|
  }

  ghost predicate AllDisjoint(s: State)
  {
    forall t <- s.calls, u <- s.calls :: t != u ==> Disjoint(s.calls[t], s.calls[u])
  }

  ghost predicate Core(s: State)
  {
    && RingsFollowLog(s)
    && (s.lock.Some? ==> s.lock.value in s.calls)
    && (forall t <- s.calls :: CallOk(s, t, s.calls[t]))
  }

  ghost predicate Inv(s: State)
  {
    Core(s) && AllDisjoint(s)
  }

  // ---- Every step keeps the invariant ---------------------------------------

  lemma InitInv(size: nat)
    requires size > 0
    ensures Inv(Init(size))
  {
  }

  lemma NewReaderPending(s: State, id: int)
    requires RingsFollowLog(s) && !s.closed && id in AfterNewReader(s).readers
    ensures var n := AfterNewReader(s);
            id in n.log.readers && n.readers[id] < |n.rings| && n.rings[n.readers[id]] == L.Pending(n.log, id)
  {
    L.NewReaderViews(s.log);
    assert L.Views(AfterNewReader(s).log)[id] == L.Pending(AfterNewReader(s).log, id);
  }

  lemma NewReaderRings(s: State)
    requires RingsFollowLog(s) && !s.closed
    ensures RingsFollowLog(AfterNewReader(s))
  {
    var n := AfterNewReader(s);
    L.NewReaderKeeps(s.log);
    forall id <- n.readers
      ensures n.readers[id] < |n.rings| && n.rings[n.readers[id]] == L.Pending(n.log, id)
    {
      NewReaderPending(s, id);
    }
  }

  lemma NewReaderKeeps(s: State)
    requires Core(s) && Enabled(AsWritten, s, NewReader)
    ensures Core(Apply(s, NewReader))
  {
    if !s.closed {
      var n := Apply(s, NewReader);
      NewReaderRings(s);
      forall t <- n.calls
        ensures CallOk(n, t, n.calls[t])
      {
        assert CallOk(s, t, s.calls[t]);
      }
    }
  }

  lemma UnregisterKeeps(s: State, id: int)
    requires Core(s) && Enabled(AsWritten, s, Unregister(id))
    ensures Core(Apply(s, Unregister(id)))
  {
    var n := Apply(s, Unregister(id));
    L.UnregisterViews(s.log, id);
    forall i <- n.readers
      ensures n.readers[i] < |n.rings| && n.rings[n.readers[i]] == L.Pending(n.log, i)
    {
      assert L.Views(n.log)[i] == L.Views(s.log)[i];
    }
    forall t <- n.calls
      ensures CallOk(n, t, n.calls[t])
    {
      assert CallOk(s, t, s.calls[t]);
    }
  }

  lemma WriteRings(s: State, chunk: Text)
    requires RingsFollowLog(s) && chunk != [] && !s.closed
    ensures RingsFollowLog(AfterWrite(s, chunk))
  {
    var n := AfterWrite(s, chunk);
    L.WriteViews(s.log, chunk);
    L.WriteKeeps(s.log, chunk);
    forall id <- n.readers
      ensures n.readers[id] < |n.rings| && n.rings[n.readers[id]] == L.Pending(n.log, id)
    {
      assert s.readers[id] in s.readers.Values;
      assert L.Views(n.log)[id] == L.Pushed(L.Views(s.log), chunk, s.size)[id];
    }
  }

  lemma WriteKeeps(s: State, chunk: Text)
    requires Core(s) && Enabled(AsWritten, s, Write(chunk))
    ensures Core(Apply(s, Write(chunk)))
  {
    if chunk != [] && !s.closed {
      var n := Apply(s, Write(chunk));
      WriteRings(s, chunk);
      forall t <- n.calls
        ensures CallOk(n, t, n.calls[t])
      {
        WriteKeepsCall(s, chunk, t);
      }
    }
  }

  lemma WriteKeepsCall(s: State, chunk: Text, t: nat)
    requires s.lock.None? && chunk != [] && !s.closed && !s.log.closed && t in s.calls && CallOk(s, t, s.calls[t])
    requires forall id <- s.readers :: s.readers[id] < |s.rings|
    ensures CallOk(AfterWrite(s, chunk), t, AfterWrite(s, chunk).calls[t])
  {
    if s.calls[t].pc.Done? {
      StableOutcome(s, AfterWrite(s, chunk), s.calls[t]);
    }
  }

  /** The log only grows, so what a finished Read returned stays where it was. */
  lemma StableOutcome(s: State, n: State, c: Call)
    requires c.pc.Done? && OutcomeOk(s, c, c.pc.outcome)
    requires s.log.bytes <= n.log.bytes && s.nextID <= n.nextID && (s.closed ==> n.closed)
    requires c.id in n.log.readers ==> c.id in s.log.readers && n.log.readers[c.id].cursor >= s.log.readers[c.id].cursor
    ensures OutcomeOk(n, c, c.pc.outcome)
  {
    match c.pc.outcome
    case Data(bytes, at) => assert n.log.bytes[at - |bytes|..at] == s.log.bytes[at - |bytes|..at];
    case _ =>
  }

  lemma CloseKeeps(s: State)
    requires Core(s) && Enabled(AsWritten, s, Close)
    ensures Core(Apply(s, Close))
  {
    var n := Apply(s, Close);
    L.CloseViews(s.log);
    forall i <- n.readers
      ensures n.readers[i] < |n.rings| && n.rings[n.readers[i]] == L.Pending(n.log, i)
    {
      assert L.Views(n.log)[i] == L.Views(s.log)[i];
    }
    forall t <- n.calls
      ensures CallOk(n, t, n.calls[t])
    {
      assert CallOk(s, t, s.calls[t]);
    }
  }

  /** The parts of TakeKeeps: the rings, the returned bytes, the other calls. */
  lemma TakeRings(s: State, t: nat, c: Call)
    requires RingsFollowLog(s) && c.id in s.readers && s.readers[c.id] == c.ring && RingAt(s, c.ring) != []
    ensures RingsFollowLog(Take(s, t, c))
    ensures L.Pending(s.log, c.id) == s.rings[c.ring] && Take(s, t, c).log == L.Drain(s.log, c.id)
  {
    var n := Take(s, t, c);
    L.DrainViews(s.log, c.id);
    L.DrainKeeps(s.log, c.id);
    forall i <- n.readers
      ensures n.readers[i] < |n.rings| && n.rings[n.readers[i]] == L.Pending(n.log, i)
    {
      assert L.Views(n.log)[i] == if i == c.id then [] else L.Views(s.log)[i];
    }
  }

  lemma TakeOutcome(s: State, t: nat, c: Call)
    requires RingsFollowLog(s) && c.id in s.readers && s.readers[c.id] == c.ring && RingAt(s, c.ring) != []
    ensures OutcomeOk(Take(s, t, c), c, Data(s.rings[c.ring], |s.log.bytes|))
    ensures |s.rings[c.ring]| <= |s.log.bytes| - s.log.readers[c.id].cursor
  {
    ReaderFacts(s, c.id);
    DrainOutcome(s, t, c);
  }

  /** What RingsFollowLog says about one registered reader. */
  ghost predicate ReaderOf(s: State, id: int)
  {
    && 0 <= id < s.nextID && L.Sane(s.log) && id in s.log.readers && s.log.readers[id].cursor <= |s.log.bytes|
    && id in s.readers && RingAt(s, s.readers[id]) == L.Pending(s.log, id)
  }

  lemma ReaderFacts(s: State, id: int)
    requires RingsFollowLog(s) && id in s.readers
    ensures ReaderOf(s, id)
  {
  }

  lemma DrainOutcome(s: State, t: nat, c: Call)
    requires ReaderOf(s, c.id) && s.readers[c.id] == c.ring && RingAt(s, c.ring) != []
    ensures OutcomeOk(Take(s, t, c), c, Data(s.rings[c.ring], |s.log.bytes|))
    ensures |s.rings[c.ring]| <= |s.log.bytes| - s.log.readers[c.id].cursor
  {
    L.PendingIsTail(s.log, c.id);
    L.DrainCursor(s.log, c.id);
  }

  lemma TakeOther(s: State, t: nat, c: Call, u: nat)
    requires RingsFollowLog(s) && c.id in s.readers && s.readers[c.id] == c.ring && RingAt(s, c.ring) != []
    requires s.lock == Some(t) || s.lock.None?
    requires u in s.calls && u != t && CallOk(s, u, s.calls[u])
    ensures CallOk(Take(s, t, c), u, s.calls[u])
  {
    if s.calls[u].pc.Done? {
      StableOutcome(s, Take(s, t, c), s.calls[u]);
    }
  }

  lemma TakeKeeps(s: State, t: nat, c: Call)
    requires RingsFollowLog(s) && c.id in s.readers && s.readers[c.id] == c.ring && RingAt(s, c.ring) != []
    requires (s.lock == Some(t) || s.lock.None?) && !c.missed
    requires forall u <- s.calls :: u != t ==> CallOk(s, u, s.calls[u])
    ensures Core(Take(s, t, c))
  {
    TakeRings(s, t, c);
    TakeOutcome(s, t, c);
    forall u <- s.calls | u != t
      ensures CallOk(Take(s, t, c), u, s.calls[u])
    {
      TakeOther(s, t, c, u);
    }
  }

  /** New data starts where the reader's cursor was, past everything returned before. */
  lemma TakeDisjoint(s: State, t: nat, c: Call)
    requires Inv(s) && c.id in s.readers && s.readers[c.id] == c.ring && RingAt(s, c.ring) != []
    requires t in s.calls ==> !s.calls[t].pc.Done?
    ensures AllDisjoint(Take(s, t, c))
  {
    var n := Take(s, t, c);
    TakeOutcome(s, t, c);
    forall u <- s.calls | u != t
      ensures Disjoint(n.calls[t], s.calls[u]) && Disjoint(s.calls[u], n.calls[t])
    {
      assert CallOk(s, u, s.calls[u]);
    }
  }

  /** Call t returned no data on the way from s to n. */
  ghost predicate NoNewData(s: State, n: State, t: nat)
    requires t in n.calls
  {
    n.calls[t].pc.Done? && n.calls[t].pc.outcome.Data? ==>
      t in s.calls && n.calls[t].pc == s.calls[t].pc && n.calls[t].id == s.calls[t].id
  }

  lemma NoNewDataDisjoint(s: State, n: State)
    requires AllDisjoint(s) && forall t <- n.calls :: NoNewData(s, n, t)
    ensures AllDisjoint(n)
  {
    forall t <- n.calls, u <- n.calls | t != u
      ensures Disjoint(n.calls[t], n.calls[u])
    {
      assert NoNewData(s, n, t) && NoNewData(s, n, u);
      assert t in s.calls && u in s.calls ==> Disjoint(s.calls[t], s.calls[u]);
    }
  }

  lemma MostStepsReturnNoData(s: State, step: Step)
    requires Enabled(AsWritten, s, step)
    requires step.Enter? && step.id in s.readers ==> RingAt(s, s.readers[step.id]) == []
    requires step.Loop? ==> RingAt(s, s.calls[step.t].ring) == []
    ensures forall t <- Apply(s, step).calls :: NoNewData(s, Apply(s, step), t)
  {
  }

  lemma EnterKeeps(s: State, t: nat, id: int, waits: bool)
    requires Core(s) && Enabled(AsWritten, s, Enter(t, id, waits))
    ensures Core(Apply(s, Enter(t, id, waits)))
  {
    if id in s.readers && s.rings[s.readers[id]] != [] {
      TakeKeeps(s, t, Call(id, s.readers[id], AtLoop, false, false, false, false));
    } else {
      ChangeOne(s, Apply(s, Enter(t, id, waits)), t);
    }
  }

  lemma LoopKeeps(s: State, t: nat)
    requires Core(s) && Enabled(AsWritten, s, Loop(t))
    ensures Core(Apply(s, Loop(t)))
  {
    var c := s.calls[t];
    assert CallOk(s, t, c);
    if s.rings[c.ring] != [] {
      TakeKeeps(s, t, c.(missed := false));
    } else {
      ChangeOne(s, Apply(s, Loop(t)), t);
    }
  }

  /** A step that touches one call and the mutex, and returns no data, only has to
  restore that call's own condition. */
  lemma ChangeOne(s: State, n: State, t: nat)
    requires Core(s) && t in n.calls && n == s.(calls := s.calls[t := n.calls[t]], lock := n.lock)
    requires CallOk(n, t, n.calls[t])
    requires n.lock == s.lock || (s.lock.None? && n.lock == Some(t)) || (s.lock == Some(t) && n.lock.None?)
    ensures Core(n)
  {
    forall u <- n.calls | u != t
      ensures CallOk(n, u, n.calls[u])
    {
      assert CallOk(s, u, s.calls[u]);
    }
  }

  /** A Broadcast moves every parked call to Woken and changes nothing else. */
  lemma WakeAllKeeps(s: State, owed: nat)
    requires Core(s)
    ensures Core(s.(calls := WakeAll(s.calls), owed := owed))
  {
    var n := s.(calls := WakeAll(s.calls), owed := owed);
    forall t <- n.calls
      ensures CallOk(n, t, n.calls[t])
    {
      assert CallOk(s, t, s.calls[t]);
    }
  }

  lemma CallStepKeeps(s: State, step: Step)
    requires Core(s) && Enabled(AsWritten, s, step)
    requires step.Ctx? || step.Park? || step.Wake? || step.End? || step.Deadline? || step.Cancel?
    ensures Core(Apply(s, step))
  {
    assert CallOk(s, step.t, s.calls[step.t]);
    ChangeOne(s, Apply(s, step), step.t);
  }

  /** The timer goroutine's step, as a change to its own call followed by a wake-up. */
  function Fired(c: Call): Call {
    if c.pc.Parked? then c.(armed := false, missed := false, pc := Woken)
    else c.(armed := false, missed := c.pc.AtCtx? || c.pc.AtPark?)
  }

  lemma FireIsWake(s: State, t: nat)
    requires Enabled(AsWritten, s, Fire(t))
    ensures Apply(s, Fire(t)).calls == WakeAll(s.calls[t := Fired(s.calls[t])])
  {
  }

  lemma FireKeeps(s: State, t: nat)
    requires Core(s) && Enabled(AsWritten, s, Fire(t))
    ensures Core(Apply(s, Fire(t)))
  {
    assert CallOk(s, t, s.calls[t]);
    var fired := Put(s, t, Fired(s.calls[t]));
    ChangeOne(s, fired, t);
    WakeAllKeeps(fired, s.owed);
    FireIsWake(s, t);
  }

  lemma StepKeepsCore(s: State, step: Step)
    requires Core(s) && Enabled(AsWritten, s, step)
    ensures Core(Apply(s, step))
  {
    match step
    case NewReader => NewReaderKeeps(s);
    case Unregister(id) => UnregisterKeeps(s, id);
    case Write(chunk) => WriteKeeps(s, chunk);
    case Close => CloseKeeps(s);
    case Broadcast => WakeAllKeeps(s, s.owed - 1);
    case Enter(t, id, waits) => EnterKeeps(s, t, id, waits);
    case Loop(t) => LoopKeeps(s, t);
    case Fire(t) => FireKeeps(s, t);
    case _ => CallStepKeeps(s, step);
  }

  lemma StepKeepsDisjoint(s: State, step: Step)
    requires Inv(s) && Enabled(AsWritten, s, step)
    ensures AllDisjoint(Apply(s, step))
  {
    if step.Enter? && step.id in s.readers && s.rings[s.readers[step.id]] != [] {
      TakeDisjoint(s, step.t, Call(step.id, s.readers[step.id], AtLoop, false, false, false, false));
    } else if step.Loop? && RingAt(s, s.calls[step.t].ring) != [] {
      assert CallOk(s, step.t, s.calls[step.t]);
      TakeDisjoint(s, step.t, s.calls[step.t].(missed := false));
    } else {
      MostStepsReturnNoData(s, step);
      NoNewDataDisjoint(s, Apply(s, step));
    }
  }

  lemma StepKeeps(s: State, step: Step)
    requires Inv(s) && Enabled(AsWritten, s, step)
    ensures Inv(Apply(s, step))
  {
    StepKeepsCore(s, step);
    StepKeepsDisjoint(s, step);
  }
}
