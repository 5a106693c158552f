/** The pumps and the buffer as one system: from what a process writes to what Reads return.

A pump's write is the buffer's write, the exit path's close is the buffer's close, and all
other steps belong to one side. */
module Pipeline {
  import opened Bytes
  import L = LogSpec
  import P = OutputPump
  import R = ReadProtocol
  import Ledger = ReadLedger

  datatype State = State(pumps: P.State, buffer: R.State)

  datatype Step = OfPump(pump: P.Step) | OfBuffer(read: R.Step)

  /** The buffer's side of a pump's step, if it has one. */
  function Shared(s: State, step: P.Step): Option<R.Step>
    requires P.Enabled(s.pumps, step)
  {
    match step
    case Write(p) => Some(R.Step.Write(s.pumps.pumps[p].pc.chunk))
    case CloseBuffer => Some(R.Step.Close)
    case _ => None
  }

  predicate Enabled(policy: R.Policy, s: State, step: Step) {
    match step
    case OfPump(p) =>
      P.Enabled(s.pumps, p) && (Shared(s, p).Some? ==> R.Enabled(policy, s.buffer, Shared(s, p).value))
    case OfBuffer(r) => !r.Write? && !r.Close? && R.Enabled(policy, s.buffer, r)
  }

  function Apply(s: State, step: Step): State
    requires Enabled(R.AsWritten, s, step)
  {
    match step
    case OfPump(p) =>
      State(P.Apply(s.pumps, p),
            if Shared(s, p).Some? then R.Apply(s.buffer, Shared(s, p).value) else s.buffer)
    case OfBuffer(r) => State(s.pumps, R.Apply(s.buffer, r))
  }

  ghost predicate IsRun(policy: R.Policy, states: seq<State>, steps: seq<Step>)
  {
    && |states| == |steps| + 1
    && P.IsInit(states[0].pumps) && states[0].buffer == R.Init(states[0].buffer.size) && states[0].buffer.size > 0
    && forall i :: 0 <= i < |steps| ==>
         Enabled(policy, states[i], steps[i]) && states[i + 1] == Apply(states[i], steps[i])
  }

  /** Both sides see one log, and every byte in it has a pump. */
  ghost predicate OneLog(s: State)
  {
    && s.pumps.log.bytes == s.buffer.log.bytes && s.pumps.log.closed == s.buffer.log.closed
    && forall tag :: tag in s.pumps.tags ==> tag < |s.pumps.pumps|
  }

  ghost predicate Inv(s: State)
  {
    P.Inv(s.pumps) && R.Inv(s.buffer) && Ledger.Ledger(s.buffer) && OneLog(s)
  }

  lemma BufferKeepsLog(s: R.State, step: R.Step)
    requires R.Enabled(R.AsWritten, s, step) && !step.Write? && !step.Close?
    ensures R.Apply(s, step).log.bytes == s.log.bytes && R.Apply(s, step).log.closed == s.log.closed
  {
    match step
    case Enter(t, id, waits) => EnterKeepsLog(s, t, id, waits);
    case Loop(t) => LoopKeepsLog(s, t);
    case _ =>
  }

  lemma EnterKeepsLog(s: R.State, t: nat, id: int, waits: bool)
    ensures var n := R.AfterEnter(s, t, id, waits); n.log.bytes == s.log.bytes && n.log.closed == s.log.closed
  {
  }

  lemma LoopKeepsLog(s: R.State, t: nat)
    requires t in s.calls
    ensures var n := R.AfterLoop(s, t); n.log.bytes == s.log.bytes && n.log.closed == s.log.closed
  {
  }

  lemma PumpKeepsOneLog(s: State, step: P.Step)
    requires Inv(s) && Enabled(R.AsWritten, s, OfPump(step))
    ensures OneLog(Apply(s, OfPump(step)))
  {
    match step
    case Write(p) => WriteKeepsOneLog(s, p);
    case _ =>
  }

  lemma WriteKeepsOneLog(s: State, p: nat)
    requires Inv(s) && Enabled(R.AsWritten, s, OfPump(P.Step.Write(p)))
    ensures OneLog(Apply(s, OfPump(P.Step.Write(p))))
  {
    assert P.PumpOk(s.pumps, p);
  }

  lemma StepKeeps(s: State, step: Step)
    requires Inv(s) && Enabled(R.AsWritten, s, step)
    ensures Inv(Apply(s, step)) && |Apply(s, step).pumps.pumps| == |s.pumps.pumps|
  {
    match step
    case OfPump(p) =>
      P.StepKeeps(s.pumps, p);
      PumpKeepsOneLog(s, p);
      if Shared(s, p).Some? {
        R.StepKeeps(s.buffer, Shared(s, p).value);
        Ledger.StepKeepsLedger(s.buffer, Shared(s, p).value);
      }
    case OfBuffer(r) =>
      R.StepKeeps(s.buffer, r);
      Ledger.StepKeepsLedger(s.buffer, r);
      BufferKeepsLog(s.buffer, r);
  }

  lemma InitKeeps(s: State)
    requires P.IsInit(s.pumps) && s.buffer == R.Init(s.buffer.size) && s.buffer.size > 0
    ensures Inv(s)
  {
    R.InitInv(s.buffer.size);
    forall p | 0 <= p < |s.pumps.pumps|
      ensures P.PumpOk(s.pumps, p)
    {
    }
  }

  lemma NextKeeps(policy: R.Policy, states: seq<State>, steps: seq<Step>, i: nat)
    requires IsRun(policy, states, steps) && i < |steps| && Inv(states[i])
    ensures Inv(states[i + 1]) && |states[i + 1].pumps.pumps| == |states[i].pumps.pumps|
  {
    EnabledAsWritten(policy, states[i], steps[i]);
    StepKeeps(states[i], steps[i]);
  }

  lemma EnabledAsWritten(policy: R.Policy, s: State, step: Step)
    requires Enabled(policy, s, step)
    ensures Enabled(R.AsWritten, s, step)
  {
  }

  lemma {:induction false} RunKeeps(policy: R.Policy, states: seq<State>, steps: seq<Step>, i: nat)
    requires IsRun(policy, states, steps) && i < |states|
    ensures Inv(states[i]) && |states[i].pumps.pumps| == |states[0].pumps.pumps|
  {
    if i == 0 {
      InitKeeps(states[0]);
    } else {
      RunKeeps(policy, states, steps, i - 1);
      NextKeeps(policy, states, steps, i - 1);
    }
  }

  // ---- What a stretch of the log holds of each pipe ---------------------------------------

  /** How much of pump p's stream the first n bytes of the log hold. */
  function Upto(s: P.State, n: nat, p: nat): nat
    requires n <= |s.log.bytes| == |s.tags|
  {
    |P.Of(s.log.bytes[..n], s.tags[..n], p)|
  }

  /** The bytes of the log from lo to hi are a merge: each comes from some pump, and the ones
  of each pump are, in order, its stream from where the log had got to at lo to where it
  had got to at hi. */
  ghost predicate Merges(s: P.State, lo: nat, hi: nat)
    requires lo <= hi <= |s.log.bytes| == |s.tags|
  {
    && (forall k :: lo <= k < hi ==> s.tags[k] < |s.pumps|)
    && forall p :: 0 <= p < |s.pumps| ==> IsStretch(s, lo, hi, p)
  }

  predicate IsStretch(s: P.State, lo: nat, hi: nat, p: nat)
    requires lo <= hi <= |s.log.bytes| == |s.tags| && p < |s.pumps|
  {
    && Upto(s, lo, p) <= Upto(s, hi, p) <= |s.pumps[p].stream|
    && P.Of(s.log.bytes[lo..hi], s.tags[lo..hi], p) == s.pumps[p].stream[Upto(s, lo, p)..Upto(s, hi, p)]
  }

  lemma StretchOf(s: P.State, lo: nat, hi: nat, p: nat)
    requires lo <= hi <= |s.log.bytes| == |s.tags| && p < |s.pumps|
    requires P.Of(s.log.bytes, s.tags, p) <= s.pumps[p].stream
    ensures IsStretch(s, lo, hi, p)
  {
    var bytes, tags := s.log.bytes, s.tags;
    OfSplit(bytes[..hi], tags[..hi], lo, p);
    OfSplit(bytes, tags, hi, p);
    assert bytes[..hi][..lo] == bytes[..lo] && tags[..hi][..lo] == tags[..lo];
    assert bytes[..hi][lo..] == bytes[lo..hi] && tags[..hi][lo..] == tags[lo..hi];
    MiddlePart(P.Of(bytes[..lo], tags[..lo], p), P.Of(bytes[lo..hi], tags[lo..hi], p),
               P.Of(bytes[hi..], tags[hi..], p), s.pumps[p].stream);
  }

  lemma OfSplit(bytes: Text, tags: seq<nat>, n: nat, p: nat)
    requires n <= |bytes| == |tags|
    ensures P.Of(bytes, tags, p) == P.Of(bytes[..n], tags[..n], p) + P.Of(bytes[n..], tags[n..], p)
  {
    P.OfConcat(bytes[..n], tags[..n], bytes[n..], tags[n..], p);
    assert bytes[..n] + bytes[n..] == bytes && tags[..n] + tags[n..] == tags;
  }

  lemma MiddlePart(a: Text, b: Text, c: Text, stream: Text)
    requires a + b + c <= stream
    ensures |a| + |b| <= |stream| && b == stream[|a|..|a| + |b|]
  {
    assert b == (a + b + c)[|a|..|a| + |b|];
  }

  lemma LogMerges(s: State, lo: nat, hi: nat)
    requires Inv(s) && lo <= hi <= |s.buffer.log.bytes|
    ensures Merges(s.pumps, lo, hi)
  {
    assert forall k :: lo <= k < hi ==> s.pumps.tags[k] in s.pumps.tags;
    forall p | 0 <= p < |s.pumps.pumps|
      ensures IsStretch(s.pumps, lo, hi, p)
    {
      assert P.PumpOk(s.pumps, p);
      StretchOf(s.pumps, lo, hi, p);
    }
  }

  // ---- End to end ---------------------------------------------------------------------------

  /** Every result of a Read is a merge of stretches of what the process wrote to its pipes,
  each starting where the log before the result had left that pipe. */
  lemma ResultsAreOutput(policy: R.Policy, states: seq<State>, steps: seq<Step>, i: nat, t: nat)
    requires IsRun(policy, states, steps) && i < |states|
    requires t in states[i].buffer.calls && Ledger.HasData(states[i].buffer.calls[t])
    ensures var o, pumps := states[i].buffer.calls[t].pc.outcome, states[i].pumps;
            && |pumps.tags| == |pumps.log.bytes| && 0 < |o.bytes| <= o.at <= |pumps.log.bytes|
            && o.bytes == pumps.log.bytes[o.at - |o.bytes|..o.at]
            && Merges(pumps, o.at - |o.bytes|, o.at)
  {
    var s := states[i].buffer;
    RunKeeps(policy, states, steps, i);
    Ledger.ResultIsTail(s, t);
    assert R.CallOk(s, t, s.calls[t]);
    LogMerges(states[i], s.calls[t].pc.outcome.at - |s.calls[t].pc.outcome.bytes|, s.calls[t].pc.outcome.at);
  }

  /** `ts` are all the calls that have returned data of the reader, in the order of their
  segments, and what they returned joins up to `text`. */
  ghost predicate Received(s: R.State, id: int, ts: seq<nat>, text: Text)
    requires id in s.log.readers
  {
    && Ledger.Sequence(s.calls, id, s.log.readers[id].got, ts)
    && (forall t <- s.calls :: Ledger.Returned(s.calls[t], id) ==> t in ts)
    && Ledger.Concat(s.calls, ts) == text
  }

  /** End to end: the results of a reader that lost nothing to overwriting, put one after the
  other, are a merge of what the process wrote to each of its pipes from the reader's
  registration to its last result, with nothing missing and nothing twice. */
  lemma ResultsJoinUp(policy: R.Policy, states: seq<State>, steps: seq<Step>, i: nat, id: int) returns (ts: seq<nat>)
    requires IsRun(policy, states, steps) && i < |states|
    requires id in states[i].buffer.log.readers && L.Skipped(states[i].buffer.log.readers[id].got) == 0
    ensures var pumps, r := states[i].pumps, states[i].buffer.log.readers[id];
            && |pumps.tags| == |pumps.log.bytes| && r.start <= r.cursor <= |pumps.log.bytes|
            && Received(states[i].buffer, id, ts, pumps.log.bytes[r.start..r.cursor])
            && Merges(pumps, r.start, r.cursor)
  {
    RunKeeps(policy, states, steps, i);
    ts := ResultsOf(states[i].buffer, id);
    LogMerges(states[i], states[i].buffer.log.readers[id].start, states[i].buffer.log.readers[id].cursor);
  }

  lemma ResultsOf(s: R.State, id: int) returns (ts: seq<nat>)
    requires R.Inv(s) && Ledger.Ledger(s) && id in s.log.readers && L.Skipped(s.log.readers[id].got) == 0
    ensures var r := s.log.readers[id];
            r.start <= r.cursor <= |s.log.bytes| && Received(s, id, ts, s.log.bytes[r.start..r.cursor])
  {
    var r := s.log.readers[id];
    assert L.ReaderOk(r, s.size, |s.log.bytes|) && Ledger.Matches(s.calls, id, r.got);
    ts := Ledger.SequenceExists(s.calls, id, r.got);
    forall t <- s.calls | Ledger.Returned(s.calls[t], id)
      ensures t in ts
    {
      Ledger.SequenceIsAll(s, id, r.got, ts, t);
    }
    Ledger.SequenceSlices(s, id, r.got, ts);
    Ledger.ConcatIsLog(s.calls, s.log.bytes, r.start, r.got, r.cursor, s.size, ts);
  }

  // ---- When only one pipe carries bytes -------------------------------------------------------

  /** A byte of the log that pump q wrote is in q's share. */
  lemma {:induction false} ShareHas(bytes: Text, tags: seq<nat>, k: nat)
    requires k < |bytes| == |tags|
    ensures P.Of(bytes, tags, tags[k]) != []
  {
    var n := |bytes| - 1;
    if k < n {
      ShareHas(bytes[..n], tags[..n], k);
    }
  }

  /** If the process has written to pipe p only, as on a terminal, any stretch of the log is
  the same stretch of what it wrote. */
  lemma OnlyOnePipe(s: State, p: nat, lo: nat, hi: nat)
    requires Inv(s) && p < |s.pumps.pumps| && lo <= hi <= |s.buffer.log.bytes|
    requires forall q :: 0 <= q < |s.pumps.pumps| && q != p ==> s.pumps.pumps[q].stream == []
    ensures hi <= |s.pumps.pumps[p].stream| && s.buffer.log.bytes[lo..hi] == s.pumps.pumps[p].stream[lo..hi]
  {
    var bytes, tags := s.pumps.log.bytes, s.pumps.tags;
    forall k | 0 <= k < |tags|
      ensures tags[k] == p
    {
      assert tags[k] in tags;
      assert P.PumpOk(s.pumps, tags[k]);
      ShareHas(bytes, tags, k);
    }
    assert P.PumpOk(s.pumps, p);
    P.OfOwn(bytes, tags, p, p);
  }

  /** Then the results join up to exactly what the process wrote in between. */
  lemma OnePipeJoinsUp(policy: R.Policy, states: seq<State>, steps: seq<Step>, i: nat, id: int, p: nat)
    returns (ts: seq<nat>)
    requires IsRun(policy, states, steps) && i < |states| && p < |states[i].pumps.pumps|
    requires forall q :: 0 <= q < |states[i].pumps.pumps| && q != p ==> states[i].pumps.pumps[q].stream == []
    requires id in states[i].buffer.log.readers && L.Skipped(states[i].buffer.log.readers[id].got) == 0
    ensures var r, stream := states[i].buffer.log.readers[id], states[i].pumps.pumps[p].stream;
            r.start <= r.cursor <= |stream| && Received(states[i].buffer, id, ts, stream[r.start..r.cursor])
  {
    RunKeeps(policy, states, steps, i);
    ts := ResultsOf(states[i].buffer, id);
    OnlyOnePipe(states[i], p, states[i].buffer.log.readers[id].start, states[i].buffer.log.readers[id].cursor);
  }
}
