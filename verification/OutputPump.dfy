/** The goroutines that copy a process's stdout and stderr into its buffer.

Each pump reads a chunk of at most 4096 bytes, writes it to the buffer, and stops on a
read error or once the done channel is closed. The buffer is its log view, with one
auxiliary tag per byte saying which pump wrote it. Proved for any number of pumps. */
module OutputPump {
  import opened Bytes
  import L = LogSpec

  const CHUNK := 4096

  /** `last` says the read that produced the chunk also returned an error. */
  datatype Pc = ToRead | ToWrite(chunk: Text, last: bool) | ToCheck | Stopped

  /** `stream` is what the process has written to this pipe so far, `taken` how much of it
  the pump has read; `failed` records a read error. */
  datatype Pump = Pump(stream: Text, taken: nat, failed: bool, pc: Pc)

  datatype State = State(pumps: seq<Pump>, log: L.Log, tags: seq<nat>, done: bool)

  datatype Step =
    | Produce(p: nat, bytes: Text) | CloseBuffer | CloseDone
    | Read(p: nat, n: nat, err: bool) | Write(p: nat) | Check(p: nat)

  predicate Enabled(s: State, step: Step) {
    match step
    case Produce(p, _) => p < |s.pumps|
    case CloseBuffer => true
    case CloseDone => true
    case Read(p, n, _) =>
      p < |s.pumps| && s.pumps[p].pc == ToRead && n <= CHUNK && s.pumps[p].taken + n <= |s.pumps[p].stream|
    case Write(p) => p < |s.pumps| && s.pumps[p].pc.ToWrite?
    case Check(p) => p < |s.pumps| && s.pumps[p].pc == ToCheck
  }

  function SetPump(s: State, p: nat, pump: Pump): State
    requires p < |s.pumps|
  {
    s.(pumps := s.pumps[p := pump])
  }

  function AfterRead(pump: Pump, n: nat, err: bool): Pump
    requires pump.taken + n <= |pump.stream|
  {
    var chunk := pump.stream[pump.taken..pump.taken + n];
    pump.(taken := pump.taken + n, failed := err,
          pc := if n > 0 then ToWrite(chunk, err) else if err then Stopped else ToCheck)
  }

  function Apply(s: State, step: Step): State
    requires Enabled(s, step)
  {
    match step
    case Produce(p, bytes) => SetPump(s, p, s.pumps[p].(stream := s.pumps[p].stream + bytes))
    case CloseBuffer => s.(log := L.Close(s.log))
    case CloseDone => s.(done := true)
    case Read(p, n, err) => SetPump(s, p, AfterRead(s.pumps[p], n, err))
    case Write(p) =>
      var chunk := s.pumps[p].pc.chunk;
      SetPump(s, p, Written(s.pumps[p]))
        .(log := L.Write(s.log, chunk),
          tags := if s.log.closed then s.tags else s.tags + seq(|chunk|, i => p))
    case Check(p) => SetPump(s, p, s.pumps[p].(pc := if s.done then Stopped else ToRead))
  }

  ghost predicate IsInit(s: State)
  {
    && s.log.bytes == [] && s.tags == [] && !s.log.closed && !s.done
    && forall p :: 0 <= p < |s.pumps| ==> s.pumps[p] == Pump([], 0, false, ToRead)
  }

  ghost predicate IsRun(states: seq<State>, steps: seq<Step>)
  {
    && |states| == |steps| + 1 && IsInit(states[0])
    && forall i :: 0 <= i < |steps| ==> Enabled(states[i], steps[i]) && states[i + 1] == Apply(states[i], steps[i])
  }

  /** The bytes of the log that pump p wrote. */
  function Of(bytes: Text, tags: seq<nat>, p: nat): Text
    requires |bytes| == |tags|
  {
    if bytes == [] then []
    else Of(bytes[..|bytes| - 1], tags[..|tags| - 1], p) + if tags[|tags| - 1] == p then [bytes[|bytes| - 1]] else []
  }

  function Held(pump: Pump): Text {
    if pump.pc.ToWrite? then pump.pc.chunk else []
  }

  /** A pump and its share of the log: what it has taken is in the log, then in its hands. */
  ghost predicate Consistent(pump: Pump, mine: Text, closed: bool, done: bool)
  {
    && |Held(pump)| <= pump.taken <= |pump.stream|
    && Held(pump) == pump.stream[pump.taken - |Held(pump)|..pump.taken]
    && mine <= pump.stream
    && |mine| <= pump.taken - |Held(pump)|
    && (!closed ==> |mine| == pump.taken - |Held(pump)|)
    && (pump.pc.ToWrite? ==> pump.pc.last == pump.failed && pump.pc.chunk != [])
    && (pump.pc.Stopped? ==> pump.failed || done)
    && (pump.failed ==> pump.pc.ToWrite? || pump.pc.Stopped?)
    && |Held(pump)| <= 4096
  }

  ghost predicate PumpOk(s: State, p: nat)
    requires |s.tags| == |s.log.bytes| && p < |s.pumps|
  {
    Consistent(s.pumps[p], Of(s.log.bytes, s.tags, p), s.log.closed, s.done)
  }

  ghost predicate Inv(s: State)
  {
    && |s.tags| == |s.log.bytes|
    && forall p :: 0 <= p < |s.pumps| ==> PumpOk(s, p)
  }

  /** Each pump's bytes of a text are those of its first part and then those of its second. */
  lemma {:induction false} OfConcat(x: Text, tagsX: seq<nat>, y: Text, tagsY: seq<nat>, p: nat)
    requires |x| == |tagsX| && |y| == |tagsY|
    ensures Of(x + y, tagsX + tagsY, p) == Of(x, tagsX, p) + Of(y, tagsY, p)
  {
    if y == [] {
      assert x + y == x && tagsX + tagsY == tagsX;
    } else {
      var n := |y| - 1;
      OfConcat(x, tagsX, y[..n], tagsY[..n], p);
      assert (x + y)[..|x| + n] == x + y[..n];
      assert (tagsX + tagsY)[..|x| + n] == tagsX + tagsY[..n];
    }
  }

  /** A text of one pump's bytes is all that pump's and nobody else's. */
  lemma {:induction false} OfOwn(chunk: Text, tags: seq<nat>, q: nat, p: nat)
    requires |chunk| == |tags| && forall k :: 0 <= k < |tags| ==> tags[k] == q
    ensures Of(chunk, tags, p) == if p == q then chunk else []
  {
    if chunk != [] {
      var n := |chunk| - 1;
      OfOwn(chunk[..n], tags[..n], q, p);
      assert chunk[..n] + [chunk[n]] == chunk;
    }
  }

  /** Appending a chunk of pump q adds it to q's bytes and to nobody else's. */
  lemma OfAppend(bytes: Text, tags: seq<nat>, chunk: Text, q: nat, p: nat)
    requires |bytes| == |tags|
    ensures Of(bytes + chunk, tags + seq(|chunk|, i => q), p) == Of(bytes, tags, p) + if p == q then chunk else []
  {
    OfConcat(bytes, tags, chunk, seq(|chunk|, i => q), p);
    OfOwn(chunk, seq(|chunk|, i => q), q, p);
  }

  lemma WriteKeeps(s: State, p: nat)
    requires Inv(s) && Enabled(s, Write(p))
    ensures Inv(Apply(s, Write(p)))
  {
    var n := Apply(s, Write(p));
    forall q | 0 <= q < |n.pumps|
      ensures PumpOk(n, q)
    {
      assert PumpOk(s, p) && PumpOk(s, q);
      WriteKeepsPump(s, p, q);
    }
  }

  lemma WriteKeepsPump(s: State, p: nat, q: nat)
    requires |s.tags| == |s.log.bytes| && Enabled(s, Write(p)) && q < |s.pumps| && PumpOk(s, p) && PumpOk(s, q)
    ensures var n := Apply(s, Write(p)); |n.tags| == |n.log.bytes| && PumpOk(n, q)
  {
    var n, chunk := Apply(s, Write(p)), s.pumps[p].pc.chunk;
    OfAppend(s.log.bytes, s.tags, chunk, p, q);
    var mine := Of(s.log.bytes, s.tags, q);
    assert Of(n.log.bytes, n.tags, q) == if p == q && !s.log.closed then mine + chunk else mine;
    if p == q {
      assert n.pumps[q] == Written(s.pumps[q]);
      WrittenOk(s.pumps[q], mine, s.log.closed, s.done);
    }
  }

  function Written(pump: Pump): Pump
    requires pump.pc.ToWrite?
  {
    pump.(pc := if pump.pc.last then Stopped else ToCheck)
  }

  lemma WrittenOk(pump: Pump, mine: Text, closed: bool, done: bool)
    requires Consistent(pump, mine, closed, done) && pump.pc.ToWrite?
    ensures Consistent(Written(pump), if closed then mine else mine + pump.pc.chunk, closed, done)
  {
    if !closed {
      assert mine + pump.pc.chunk == pump.stream[..pump.taken];
    }
  }

  lemma ReadKeeps(s: State, p: nat, n: nat, err: bool)
    requires |s.tags| == |s.log.bytes| && Enabled(s, Read(p, n, err)) && PumpOk(s, p)
    ensures PumpOk(Apply(s, Read(p, n, err)), p)
  {
  }

  lemma OtherKeeps(s: State, step: Step, q: nat)
    requires |s.tags| == |s.log.bytes| && Enabled(s, step) && q < |s.pumps| && PumpOk(s, q)
    requires !step.Write? && !(step.Read? && step.p == q)
    ensures PumpOk(Apply(s, step), q)
  {
    match step
    case Produce(p, bytes) => ProduceKeeps(s, p, bytes, q);
    case Check(p) => CheckKeeps(s, p, q);
    case Read(p, _, _) =>
      var n := Apply(s, step);
      assert n.log == s.log && n.tags == s.tags && n.pumps[q] == s.pumps[q];
    case _ =>
  }

  lemma ProduceKeeps(s: State, p: nat, bytes: Text, q: nat)
    requires |s.tags| == |s.log.bytes| && p < |s.pumps| && q < |s.pumps| && PumpOk(s, q)
    ensures PumpOk(Apply(s, Produce(p, bytes)), q)
  {
    var n := Apply(s, Produce(p, bytes));
    assert n.log == s.log && n.tags == s.tags && n.done == s.done;
    if p == q {
      assert n.pumps[q] == s.pumps[q].(stream := s.pumps[q].stream + bytes);
      LongerStream(s.pumps[q], bytes, Of(s.log.bytes, s.tags, q), s.log.closed, s.done);
    }
  }

  lemma LongerStream(pump: Pump, bytes: Text, mine: Text, closed: bool, done: bool)
    requires Consistent(pump, mine, closed, done)
    ensures Consistent(pump.(stream := pump.stream + bytes), mine, closed, done)
  {
    assert pump.stream <= pump.stream + bytes;
    SamePart(pump.stream, pump.stream + bytes, pump.taken - |Held(pump)|, pump.taken);
  }

  lemma SamePart(part: Text, whole: Text, lo: nat, hi: nat)
    requires part <= whole && lo <= hi <= |part|
    ensures part[lo..hi] == whole[lo..hi]
  {
  }

  lemma CheckKeeps(s: State, p: nat, q: nat)
    requires |s.tags| == |s.log.bytes| && Enabled(s, Check(p)) && q < |s.pumps| && PumpOk(s, q)
    ensures PumpOk(Apply(s, Check(p)), q)
  {
  }

  lemma StepKeeps(s: State, step: Step)
    requires Inv(s) && Enabled(s, step)
    ensures Inv(Apply(s, step))
  {
    if step.Write? {
      WriteKeeps(s, step.p);
    } else {
      forall q | 0 <= q < |s.pumps|
        ensures PumpOk(Apply(s, step), q)
      {
        assert PumpOk(s, q);
        if step.Read? && step.p == q {
          ReadKeeps(s, q, step.n, step.err);
        } else {
          OtherKeeps(s, step, q);
        }
      }
    }
  }

  lemma {:induction false} RunKeeps(states: seq<State>, steps: seq<Step>, i: nat)
    requires IsRun(states, steps) && i < |states|
    ensures Inv(states[i])
  {
    if i > 0 {
      RunKeeps(states, steps, i - 1);
      StepKeeps(states[i - 1], steps[i - 1]);
    }
  }

  /** In every run the log is a merge of prefixes of the pipes' streams, in order, and
  while the buffer is open it holds everything the pumps have finished writing. */
  lemma LogMergesPrefixes(states: seq<State>, steps: seq<Step>, i: nat, p: nat)
    requires IsRun(states, steps) && i < |states| && p < |states[i].pumps|
    ensures var s, pump := states[i], states[i].pumps[p];
            && |s.tags| == |s.log.bytes|
            && Of(s.log.bytes, s.tags, p) <= pump.stream
            && (!s.log.closed ==> Of(s.log.bytes, s.tags, p) + Held(pump) <= pump.stream
                                     && |Of(s.log.bytes, s.tags, p)| + |Held(pump)| == pump.taken)
  {
    RunKeeps(states, steps, i);
    assert PumpOk(states[i], p);
  }

  /** A pump abandons output only after a read error, the done signal or Close: before
  those it is still running, and everything it has read is in the log or in its hands. */
  lemma OnlyClosingDrops(states: seq<State>, steps: seq<Step>, i: nat, p: nat)
    requires IsRun(states, steps) && i < |states| && p < |states[i].pumps|
    requires !states[i].log.closed && !states[i].done && !states[i].pumps[p].failed
    ensures !states[i].pumps[p].pc.Stopped?
    ensures |states[i].tags| == |states[i].log.bytes|
    ensures |Of(states[i].log.bytes, states[i].tags, p)| + |Held(states[i].pumps[p])| == states[i].pumps[p].taken
  {
    RunKeeps(states, steps, i);
    assert PumpOk(states[i], p);
  }

  // ---- When a pump stops -----------------------------------------------------------------

  /** After a read error a pump never reads again: it delivers what came with the error, if
  anything, and stops. */
  lemma FailedPumpStops(states: seq<State>, steps: seq<Step>, i: nat, p: nat)
    requires IsRun(states, steps) && i < |steps| && p < |states[i].pumps| && states[i].pumps[p].failed
    ensures !(steps[i].Read? && steps[i].p == p)
    ensures states[i].pumps[p].pc.ToWrite? || states[i].pumps[p].pc.Stopped?
    ensures steps[i] == Write(p) ==> p < |states[i + 1].pumps| && states[i + 1].pumps[p].pc.Stopped?
  {
    RunKeeps(states, steps, i);
    assert PumpOk(states[i], p) && Enabled(states[i], steps[i]);
  }

  /** What a pump still does once the done channel is closed and its last read is over. */
  function Left(pc: Pc): nat {
    match pc
    case ToRead => 3
    case ToWrite(_, _) => 2
    case ToCheck => 1
    case Stopped => 0
  }

  predicate Draining(s: State, p: nat) {
    s.done && p < |s.pumps| && !s.pumps[p].pc.ToRead?
  }

  /** It writes and checks, each of its steps being possible and bringing it nearer to
  stopping, and nothing else moves it. */
  lemma DrainingStep(s: State, step: Step, p: nat)
    requires Draining(s, p) && Enabled(s, step)
    ensures Draining(Apply(s, step), p)
    ensures Left(Apply(s, step).pumps[p].pc) <= Left(s.pumps[p].pc)
    ensures step == Write(p) || step == Check(p) ==> Left(Apply(s, step).pumps[p].pc) < Left(s.pumps[p].pc)
    ensures !s.pumps[p].pc.Stopped? ==> Enabled(s, Write(p)) || Enabled(s, Check(p))
  {
  }

  lemma {:induction false} StaysDraining(states: seq<State>, steps: seq<Step>, i: nat, j: nat, p: nat)
    requires IsRun(states, steps) && i <= j < |states| && Draining(states[i], p)
    ensures Draining(states[j], p)
  {
    if i < j {
      StaysDraining(states, steps, i, j - 1, p);
      DrainingStep(states[j - 1], steps[j - 1], p);
    }
  }

  lemma {:induction false} DoneStays(states: seq<State>, steps: seq<Step>, i: nat, j: nat)
    requires IsRun(states, steps) && i < j < |states| && steps[i].CloseDone?
    ensures states[j].done
  {
    assert Enabled(states[j - 1], steps[j - 1]);
    if i + 1 < j {
      DoneStays(states, steps, i, j - 1);
    }
  }

  /** Once the done channel is closed a pump reads at most once more. */
  lemma OneMoreRead(states: seq<State>, steps: seq<Step>, i: nat, m: nat, j: nat, p: nat)
    requires IsRun(states, steps) && i < m < j < |steps| && steps[i].CloseDone?
    requires steps[m].Read? && steps[m].p == p
    ensures !(steps[j].Read? && steps[j].p == p)
  {
    DoneStays(states, steps, i, m);
    assert Enabled(states[m], steps[m]) && Enabled(states[j], steps[j]);
    StaysDraining(states, steps, m + 1, j, p);
  }

  // ---- What Close drops ----------------------------------------------------------------

  lemma {:induction false} ClosedLogIsFrozen(states: seq<State>, steps: seq<Step>, i: nat, j: nat)
    requires IsRun(states, steps) && i <= j < |states| && states[i].log.closed
    ensures states[j].log == states[i].log && states[j].tags == states[i].tags && |states[j].pumps| == |states[i].pumps|
  {
    if i < j {
      ClosedLogIsFrozen(states, steps, i, j - 1);
      assert Enabled(states[j - 1], steps[j - 1]);
    }
  }

  /** After Close each pipe's share of the log is, for ever, exactly the prefix of its
  stream whose writes came before Close: what its pump had read by then, less the chunk
  in its hands. Everything later, and that chunk, is dropped. */
  lemma ShareAfterClose(states: seq<State>, steps: seq<Step>, k: nat, j: nat, p: nat)
    requires IsRun(states, steps) && k < j < |states| && p < |states[k].pumps|
    requires steps[k].CloseBuffer? && !states[k].log.closed
    ensures |states[j].tags| == |states[j].log.bytes|
    ensures var pump := states[k].pumps[p];
            && |Held(pump)| <= pump.taken <= |pump.stream|
            && Of(states[j].log.bytes, states[j].tags, p) == pump.stream[..pump.taken - |Held(pump)|]
  {
    RunKeeps(states, steps, k);
    assert PumpOk(states[k], p);
    ClosedLogIsFrozen(states, steps, k + 1, j);
  }

  /** The second pump has nothing to read; only the first moves. */
  function LossState(i: nat): State {
    var open, shut := L.Empty(1), L.Close(L.Empty(1));
    match i
    case 0 => Lossy(Pump([], 0, false, ToRead), open)
    case 1 => Lossy(Pump([65], 0, false, ToRead), open)
    case 2 => Lossy(Pump([65], 1, false, ToWrite([65], false)), open)
    case 3 => Lossy(Pump([65], 1, false, ToWrite([65], false)), shut)
    case _ => Lossy(Pump([65], 1, false, ToCheck), shut)
  }

  function Lossy(stdout: Pump, log: L.Log): State {
    State([stdout, Pump([], 0, false, ToRead)], log, [], false)
  }

  function LossStep(i: nat): Step {
    match i
    case 0 => Produce(0, [65])
    case 1 => Read(0, 1, false)
    case 2 => CloseBuffer
    case _ => Write(0)
  }

  lemma LossSteps(i: nat)
    requires i < 4
    ensures Enabled(LossState(i), LossStep(i)) && LossState(i + 1) == Apply(LossState(i), LossStep(i))
  {
    var open, a: Text := L.Empty(1), [65];
    assert a[0..1] == a;
    assert L.Write(L.Close(open), [65]) == L.Close(open);
    match i
    case 0 => assert [] + a == a;
    case _ =>
  }

  /** A run in which the process's only byte is read in time and still lost: the exit path
  closes the buffer between the pump's Read and its Write. */
  lemma CloseDropsOutput() returns (states: seq<State>, steps: seq<Step>)
    ensures IsRun(states, steps) && |steps| == 4
    ensures states[4].pumps == [Pump([65], 1, false, ToCheck), Pump([], 0, false, ToRead)]
    ensures states[4].log.closed && states[4].log.bytes == []
  {
    states, steps := seq(5, i requires 0 <= i < 5 => LossState(i)), seq(4, i requires 0 <= i < 4 => LossStep(i));
    forall i | 0 <= i < 4
      ensures Enabled(states[i], steps[i]) && states[i + 1] == Apply(states[i], steps[i])
    {
      LossSteps(i);
    }
  }

  /** A stopped pump has everything it read in the log, provided the buffer is still open. */
  lemma StoppedPumpDelivered(states: seq<State>, steps: seq<Step>, i: nat, p: nat)
    requires IsRun(states, steps) && i < |states| && p < |states[i].pumps|
    requires states[i].pumps[p].pc.Stopped? && !states[i].log.closed
    ensures |states[i].tags| == |states[i].log.bytes|
    ensures Of(states[i].log.bytes, states[i].tags, p) <= states[i].pumps[p].stream
    ensures |Of(states[i].log.bytes, states[i].tags, p)| == states[i].pumps[p].taken
  {
    LogMergesPrefixes(states, steps, i, p);
  }
}
