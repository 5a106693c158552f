/** What concurrent Reads of one reader returned, taken together.

ReadGuarantees speaks of the segments that the log view records for a reader. Here those
segments are shown to be exactly the results of its Reads, so that conservation and the
gaps are statements about what callers received. */
module ReadLedger {
  import opened Bytes
  import opened ReadProtocol
  import G = ReadGuarantees
  import L = LogSpec

  predicate HasData(c: Call) {
    c.pc.Done? && c.pc.outcome.Data?
  }

  /** The call has returned data of this reader. */
  predicate Returned(c: Call, id: int) {
    c.id == id && HasData(c)
  }

  /** How many bytes of this reader call t has returned. */
  function Yield(calls: map<nat, Call>, t: nat, id: int): nat {
    if t in calls && Returned(calls[t], id) then |calls[t].pc.outcome.bytes| else 0
  }

  /** How many bytes of this reader the calls below n have returned. */
  function Total(calls: map<nat, Call>, id: int, n: nat): nat {
    if n == 0 then 0 else Total(calls, id, n - 1) + Yield(calls, n - 1, id)
  }

  /** The call returned exactly the bytes of the segment. */
  predicate Fits(c: Call, id: int, g: L.Segment) {
    Returned(c, id) && c.pc.outcome.at == g.hi && |c.pc.outcome.bytes| == g.hi - g.lo
  }

  ghost predicate Delivered(calls: map<nat, Call>, id: int, g: L.Segment)
  {
    exists t :: t in calls && Fits(calls[t], id, g)
  }

  ghost predicate Recorded(got: seq<L.Segment>, c: Call, id: int)
  {
    exists g :: g in got && Fits(c, id, g)
  }

  predicate Below(calls: map<nat, Call>, n: nat) {
    forall t <- calls :: t < n
  }

  ghost predicate AllDelivered(calls: map<nat, Call>, id: int, got: seq<L.Segment>)
  {
    forall g :: g in got ==> Delivered(calls, id, g)
  }

  ghost predicate AllRecorded(calls: map<nat, Call>, id: int, got: seq<L.Segment>)
  {
    forall t <- calls :: Returned(calls[t], id) ==> Recorded(got, calls[t], id)
  }

  ghost predicate AllCounted(calls: map<nat, Call>, id: int, got: seq<L.Segment>)
  {
    forall n: nat :: Below(calls, n) ==> Total(calls, id, n) == L.Delivered(got)
  }

  /** The recorded segments and the results of the Reads are the same. */
  ghost predicate Matches(calls: map<nat, Call>, id: int, got: seq<L.Segment>)
  {
    AllDelivered(calls, id, got) && AllRecorded(calls, id, got) && AllCounted(calls, id, got)
  }

  ghost predicate Ledger(s: State)
  {
    forall id <- s.log.readers :: Matches(s.calls, id, s.log.readers[id].got)
  }

  // ---- Sums --------------------------------------------------------------------------

  lemma {:induction false} SameTotal(calls: map<nat, Call>, more: map<nat, Call>, id: int, n: nat)
    requires forall t: nat :: Yield(calls, t, id) == Yield(more, t, id)
    ensures Total(calls, id, n) == Total(more, id, n)
  {
    if n > 0 {
      SameTotal(calls, more, id, n - 1);
    }
  }

  lemma {:induction false} TotalGrows(calls: map<nat, Call>, t: nat, c: Call, id: int, n: nat)
    requires Yield(calls, t, id) == 0
    ensures Total(calls[t := c], id, n) == Total(calls, id, n) + if t < n then Yield(calls[t := c], t, id) else 0
  {
    if n > 0 {
      TotalGrows(calls, t, c, id, n - 1);
      assert n - 1 != t ==> Yield(calls[t := c], n - 1, id) == Yield(calls, n - 1, id);
    }
  }

  lemma {:induction false} NothingReturned(calls: map<nat, Call>, id: int, n: nat)
    requires forall t <- calls :: !Returned(calls[t], id)
    ensures Total(calls, id, n) == 0
  {
    if n > 0 {
      NothingReturned(calls, id, n - 1);
    }
  }

  /** What has been returned stays returned. */
  ghost predicate Keeps(calls: map<nat, Call>, more: map<nat, Call>)
  {
    && calls.Keys <= more.Keys
    && forall t <- calls :: HasData(calls[t]) ==> more[t].id == calls[t].id && more[t].pc == calls[t].pc
  }

  lemma DeliveredStays(calls: map<nat, Call>, more: map<nat, Call>, id: int, g: L.Segment)
    requires Keeps(calls, more) && Delivered(calls, id, g)
    ensures Delivered(more, id, g)
  {
    var t :| t in calls && Fits(calls[t], id, g);
    assert Fits(more[t], id, g);
  }

  lemma RecordedStays(got: seq<L.Segment>, all: seq<L.Segment>, c: Call, d: Call, id: int)
    requires Recorded(got, c, id) && got <= all && d.id == c.id && d.pc == c.pc
    ensures Recorded(all, d, id)
  {
    var g :| g in got && Fits(c, id, g);
    assert g in all && Fits(d, id, g);
  }

  lemma BelowMore(calls: map<nat, Call>, more: map<nat, Call>, n: nat)
    requires calls.Keys <= more.Keys && Below(more, n)
    ensures Below(calls, n)
  {
    forall t <- calls
      ensures t < n
    {
      assert t in more;
    }
  }

  // ---- Steps that return no data of a reader ---------------------------------------------

  ghost predicate SameData(calls: map<nat, Call>, more: map<nat, Call>, id: int)
  {
    && Keeps(calls, more)
    && forall t <- more :: Returned(more[t], id) ==> t in calls && Returned(calls[t], id)
  }

  lemma SameDataCounted(calls: map<nat, Call>, more: map<nat, Call>, id: int, got: seq<L.Segment>)
    requires SameData(calls, more, id) && AllCounted(calls, id, got)
    ensures AllCounted(more, id, got)
  {
    forall n: nat | Below(more, n)
      ensures Total(more, id, n) == L.Delivered(got)
    {
      BelowMore(calls, more, n);
      SameTotal(calls, more, id, n);
    }
  }

  lemma SameDataMatches(calls: map<nat, Call>, more: map<nat, Call>, id: int, got: seq<L.Segment>)
    requires SameData(calls, more, id) && Matches(calls, id, got)
    ensures Matches(more, id, got)
  {
    forall g | g in got
      ensures Delivered(more, id, g)
    {
      DeliveredStays(calls, more, id, g);
    }
    SameDataRecorded(calls, more, id, got);
    SameDataCounted(calls, more, id, got);
  }

  lemma SameDataRecorded(calls: map<nat, Call>, more: map<nat, Call>, id: int, got: seq<L.Segment>)
    requires SameData(calls, more, id) && AllRecorded(calls, id, got)
    ensures AllRecorded(more, id, got)
  {
    forall t <- more | Returned(more[t], id)
      ensures Recorded(got, more[t], id)
    {
      RecordedStays(got, got, calls[t], more[t], id);
    }
  }

  lemma DataStays(s: State, step: Step)
    requires Enabled(AsWritten, s, step)
    ensures Keeps(s.calls, Apply(s, step).calls)
  {
    match step
    case Write(_) =>
    case Broadcast =>
    case Enter(t, id, waits) => EnterStays(s, t, id, waits);
    case Loop(t) => LoopStays(s, t);
    case Fire(_) =>
    case _ =>
  }

  lemma EnterStays(s: State, t: nat, id: int, waits: bool)
    requires t !in s.calls
    ensures Keeps(s.calls, AfterEnter(s, t, id, waits).calls)
  {
  }

  lemma LoopStays(s: State, t: nat)
    requires At(s, t, AtLoop)
    ensures Keeps(s.calls, AfterLoop(s, t).calls)
  {
  }

  /** Unless a step takes data from a ring, it leaves every reader's segments alone, and
  a reader it adds has none. */
  lemma GotStays(s: State, step: Step)
    requires Enabled(AsWritten, s, step) && L.Sane(s.log) && s.log.nextID == s.nextID
    requires step.Enter? && step.id in s.readers ==> RingAt(s, s.readers[step.id]) == []
    requires step.Loop? ==> RingAt(s, s.calls[step.t].ring) == []
    ensures forall id <- Apply(s, step).log.readers ::
              if id in s.log.readers then Apply(s, step).log.readers[id].got == s.log.readers[id].got
              else Apply(s, step).log.readers[id].got == [] && id >= s.nextID
  {
  }

  lemma QuietStepKeeps(s: State, step: Step)
    requires Core(s) && Ledger(s) && Enabled(AsWritten, s, step)
    requires step.Enter? && step.id in s.readers ==> RingAt(s, s.readers[step.id]) == []
    requires step.Loop? ==> RingAt(s, s.calls[step.t].ring) == []
    ensures Ledger(Apply(s, step))
  {
    var n := Apply(s, step);
    DataStays(s, step);
    GotStays(s, step);
    MostStepsReturnNoData(s, step);
    forall id <- n.log.readers
      ensures Matches(n.calls, id, n.log.readers[id].got)
    {
      if id !in s.log.readers {
        NewIdMatches(s, id);
      }
      assert forall t <- n.calls :: NoNewData(s, n, t);
      SameDataMatches(s.calls, n.calls, id, n.log.readers[id].got);
    }
  }

  /** No Read has returned anything for an id that was not given out yet. */
  lemma NewIdMatches(s: State, id: int)
    requires Core(s) && id >= s.nextID
    ensures Matches(s.calls, id, [])
  {
    forall t <- s.calls
      ensures !Returned(s.calls[t], id)
    {
      assert CallOk(s, t, s.calls[t]);
    }
    forall n: nat | Below(s.calls, n)
      ensures Total(s.calls, id, n) == L.Delivered([])
    {
      NothingReturned(s.calls, id, n);
    }
  }

  // ---- Steps that return data ---------------------------------------------------------

  lemma OneMoreCounted(calls: map<nat, Call>, t: nat, c: Call, id: int, got: seq<L.Segment>, g: L.Segment)
    requires AllCounted(calls, id, got) && Yield(calls, t, id) == 0 && Fits(c, id, g)
    ensures AllCounted(calls[t := c], id, got + [g])
  {
    var more := calls[t := c];
    forall n: nat | Below(more, n)
      ensures Total(more, id, n) == L.Delivered(got + [g])
    {
      assert t in more;
      BelowMore(calls, more, n);
      TotalGrows(calls, t, c, id, n);
      assert (got + [g])[..|got|] == got;
    }
  }

  lemma OneMoreMatches(calls: map<nat, Call>, t: nat, c: Call, id: int, got: seq<L.Segment>, g: L.Segment)
    requires Matches(calls, id, got) && (t in calls ==> !HasData(calls[t])) && Fits(c, id, g)
    ensures Matches(calls[t := c], id, got + [g])
  {
    var more, all := calls[t := c], got + [g];
    forall h | h in all
      ensures Delivered(more, id, h)
    {
      if h in got {
        DeliveredStays(calls, more, id, h);
      } else {
        assert h == g && Fits(more[t], id, h);
      }
    }
    forall u <- more | Returned(more[u], id)
      ensures Recorded(all, more[u], id)
    {
      if u == t {
        assert g in all;
      } else {
        RecordedStays(got, all, calls[u], more[u], id);
      }
    }
    OneMoreCounted(calls, t, c, id, got, g);
  }

  lemma TakeKeepsLedger(s: State, t: nat, c: Call)
    requires RingsFollowLog(s) && Ledger(s)
    requires c.id in s.readers && s.readers[c.id] == c.ring && RingAt(s, c.ring) != []
    requires t in s.calls ==> !s.calls[t].pc.Done?
    ensures Ledger(Take(s, t, c))
  {
    ReaderFacts(s, c.id);
    DrainKeepsLedger(s, t, c);
  }

  lemma DrainKeepsLedger(s: State, t: nat, c: Call)
    requires ReaderOf(s, c.id) && s.readers[c.id] == c.ring && RingAt(s, c.ring) != [] && Ledger(s)
    requires t in s.calls ==> !s.calls[t].pc.Done?
    ensures Ledger(Take(s, t, c))
  {
    var d := c.(pc := Done(Data(s.rings[c.ring], |s.log.bytes|)));
    var g := L.Segment(s.log.readers[c.id].cursor, |s.log.bytes| - |s.rings[c.ring]|, |s.log.bytes|);
    L.PendingIsTail(s.log, c.id);
    L.DrainCursor(s.log, c.id);
    LedgerAfter(s.calls, t, d, s.log.readers, g);
    TakeReturns(s, t, c);
    LedgerIs(Take(s, t, c), s.calls[t := d], s.log.readers, c.id, g);
  }

  lemma TakeReturns(s: State, t: nat, c: Call)
    requires ReaderOf(s, c.id) && RingAt(s, c.ring) != []
    ensures var d := c.(pc := Done(Data(s.rings[c.ring], |s.log.bytes|)));
            Take(s, t, c).calls == s.calls[t := d] && Take(s, t, c).log == L.Drain(s.log, c.id)
  {
  }

  lemma LedgerIs(n: State, calls: map<nat, Call>, readers: map<int, L.Reader>, id: int, g: L.Segment)
    requires n.calls == calls && n.log.readers.Keys == readers.Keys
    requires forall i <- readers :: n.log.readers[i].got == if i == id then readers[i].got + [g] else readers[i].got
    requires forall i <- readers :: Matches(calls, i, if i == id then readers[i].got + [g] else readers[i].got)
    ensures Ledger(n)
  {
    forall i <- n.log.readers
      ensures Matches(n.calls, i, n.log.readers[i].got)
    {
      assert i in readers;
    }
  }

  lemma LedgerAfter(calls: map<nat, Call>, t: nat, c: Call, readers: map<int, L.Reader>, g: L.Segment)
    requires forall id <- readers :: Matches(calls, id, readers[id].got)
    requires (t in calls ==> !HasData(calls[t])) && Fits(c, c.id, g)
    ensures forall id <- readers ::
              Matches(calls[t := c], id, if id == c.id then readers[id].got + [g] else readers[id].got)
  {
    forall id <- readers
      ensures Matches(calls[t := c], id, if id == c.id then readers[id].got + [g] else readers[id].got)
    {
      if id == c.id {
        OneMoreMatches(calls, t, c, id, readers[id].got, g);
      } else {
        SameDataMatches(calls, calls[t := c], id, readers[id].got);
      }
    }
  }

  lemma StepKeepsLedger(s: State, step: Step)
    requires Core(s) && Ledger(s) && Enabled(AsWritten, s, step)
    ensures Ledger(Apply(s, step))
  {
    if step.Enter? && step.id in s.readers && RingAt(s, s.readers[step.id]) != [] {
      TakeKeepsLedger(s, step.t, Call(step.id, s.readers[step.id], AtLoop, false, false, false, false));
    } else if step.Loop? && RingAt(s, s.calls[step.t].ring) != [] {
      assert CallOk(s, step.t, s.calls[step.t]);
      TakeKeepsLedger(s, step.t, s.calls[step.t].(missed := false));
    } else {
      QuietStepKeeps(s, step);
    }
  }

  // ---- Every run -------------------------------------------------------------------------

  lemma {:induction false} RunKeepsLedger(policy: Policy, states: seq<State>, steps: seq<Step>, i: nat)
    requires IsRun(policy, states, steps) && i < |states|
    ensures Ledger(states[i])
  {
    if i > 0 {
      RunKeepsLedger(policy, states, steps, i - 1);
      G.RunKeeps(policy, states, steps, i - 1);
      StepKeepsLedger(states[i - 1], steps[i - 1]);
    }
  }

  /** In every run, whatever overlaps: the bytes that all Reads of a registered reader have
  returned, the ones overwritten before they could be read, and the ones in its ring add
  up to everything written since it registered. */
  lemma OutcomesConserve(policy: Policy, states: seq<State>, steps: seq<Step>, i: nat, id: int, n: nat)
    requires IsRun(policy, states, steps) && i < |states| && id in states[i].readers && Below(states[i].calls, n)
    ensures var s := states[i];
            && L.WellFormed(s.log) && id in s.log.readers && s.readers[id] < |s.rings|
            && var r, ring := s.log.readers[id], s.rings[s.readers[id]];
            && ring == LastN(s.log.bytes[r.cursor..], s.size)
            && L.Skipped(r.got) >= 0 && |ring| <= |s.log.bytes| - r.cursor
            && Total(s.calls, id, n) + (L.Skipped(r.got) + |s.log.bytes| - r.cursor - |ring|) + |ring|
               == |s.log.bytes| - r.start
  {
    RunKeepsLedger(policy, states, steps, i);
    G.RunKeeps(policy, states, steps, i);
    L.Conservation(states[i].log, id);
    assert Matches(states[i].calls, id, states[i].log.readers[id].got);
  }

  /** `from` is where the data before this result ended: the reader's registration or the
  end of the nearest earlier result. */
  ghost predicate Precedes(calls: map<nat, Call>, id: int, start: nat, from: nat, at: nat)
  {
    && (from == start || EndsAt(calls, id, from))
    && forall v <- calls :: Returned(calls[v], id) ==> calls[v].pc.outcome.at <= from || at <= calls[v].pc.outcome.at
  }

  /** Some Read of this reader has returned data up to `at`. */
  ghost predicate EndsAt(calls: map<nat, Call>, id: int, at: nat)
  {
    exists u :: u in calls && Returned(calls[u], id) && calls[u].pc.outcome.at == at
  }

  lemma SegmentPrecedes(calls: map<nat, Call>, id: int, r: L.Reader, size: nat, k: nat)
    requires Matches(calls, id, r.got) && L.Tiles(r.start, r.got, r.cursor, size) && k < |r.got|
    ensures Precedes(calls, id, r.start, r.got[k].from, r.got[k].hi)
  {
    L.SegmentFollows(r.start, r.got, r.cursor, size, k);
    if k > 0 {
      assert Delivered(calls, id, r.got[k - 1]);
      var u :| u in calls && Fits(calls[u], id, r.got[k - 1]);
      assert EndsAt(calls, id, r.got[k].from);
    }
    forall v <- calls | Returned(calls[v], id)
      ensures calls[v].pc.outcome.at <= r.got[k].from || r.got[k].hi <= calls[v].pc.outcome.at
    {
      var m := IndexOf(r.got, calls[v]);
      EarlierOrLater(r, size, k, m);
    }
  }

  /** Each result is the last min(size, n) of the n bytes written since the nearest earlier
  result of the same reader, or since it registered: the gap before it is exactly what
  the ring had to overwrite. */
  lemma GapsAreExact(policy: Policy, states: seq<State>, steps: seq<Step>, i: nat, t: nat) returns (from: nat)
    requires IsRun(policy, states, steps) && i < |states| && t in states[i].calls
    requires HasData(states[i].calls[t]) && states[i].calls[t].id in states[i].readers
    ensures var s, c := states[i], states[i].calls[t];
            var o := c.pc.outcome;
            && c.id in s.log.readers && from <= o.at <= |s.log.bytes|
            && Precedes(s.calls, c.id, s.log.readers[c.id].start, from, o.at)
            && o.bytes == LastN(s.log.bytes[from..o.at], s.size)
  {
    RunKeepsLedger(policy, states, steps, i);
    G.RunKeeps(policy, states, steps, i);
    from := GapIsExact(states[i], t);
  }

  lemma GapIsExact(s: State, t: nat) returns (from: nat)
    requires Core(s) && Ledger(s) && t in s.calls && HasData(s.calls[t]) && s.calls[t].id in s.readers
    ensures var c := s.calls[t];
            var o := c.pc.outcome;
            && c.id in s.log.readers && from <= o.at <= |s.log.bytes|
            && Precedes(s.calls, c.id, s.log.readers[c.id].start, from, o.at)
            && o.bytes == LastN(s.log.bytes[from..o.at], s.size)
  {
    var c := s.calls[t];
    var r := s.log.readers[c.id];
    ResultIsTail(s, t);
    ReaderTiles(s, c.id);
    var k := IndexOf(r.got, c);
    from := r.got[k].from;
    SegmentPrecedes(s.calls, c.id, r, s.size, k);
    L.SegmentFollows(r.start, r.got, r.cursor, s.size, k);
    SliceIsLast(s.log.bytes, from, |c.pc.outcome.bytes|, c.pc.outcome.at, s.size);
  }

  lemma ResultIsTail(s: State, t: nat)
    requires Core(s) && t in s.calls && HasData(s.calls[t])
    ensures var o := s.calls[t].pc.outcome;
            |o.bytes| <= o.at <= |s.log.bytes| && o.bytes == s.log.bytes[o.at - |o.bytes|..o.at]
  {
    assert CallOk(s, t, s.calls[t]);
  }

  lemma ReaderTiles(s: State, id: int)
    requires Core(s) && id in s.readers
    ensures id in s.log.readers && var r := s.log.readers[id]; L.Tiles(r.start, r.got, r.cursor, s.size)
  {
    assert L.ReaderOk(s.log.readers[id], s.size, |s.log.bytes|);
  }

  lemma IndexOf(got: seq<L.Segment>, c: Call) returns (k: nat)
    requires Recorded(got, c, c.id)
    ensures k < |got| && Fits(c, c.id, got[k])
  {
    var g :| g in got && Fits(c, c.id, g);
    k :| 0 <= k < |got| && got[k] == g;
  }

  lemma SliceIsLast(bytes: Text, from: nat, n: nat, at: nat, size: nat)
    requires from <= at <= |bytes| && n == if at - from <= size then at - from else size
    ensures bytes[at - n..at] == LastN(bytes[from..at], size)
  {
  }

  lemma EarlierOrLater(r: L.Reader, size: nat, k: nat, m: nat)
    requires L.Tiles(r.start, r.got, r.cursor, size) && k < |r.got| && m < |r.got|
    ensures r.got[m].hi <= r.got[k].from || r.got[k].hi <= r.got[m].hi
  {
    L.SegmentFollows(r.start, r.got, r.cursor, size, k);
    if m < k - 1 {
      L.SegmentsIncrease(r.start, r.got, r.cursor, size, m, k - 1);
    } else if k < m {
      L.SegmentsIncrease(r.start, r.got, r.cursor, size, k, m);
    }
  }

  // ---- In order --------------------------------------------------------------------------

  /** Results come in the order of the log: what a call returns at step j lies after
  everything that Reads of the same reader had returned before. */
  lemma ReturnsInOrder(policy: Policy, states: seq<State>, steps: seq<Step>, j: nat, t: nat, u: nat)
    requires IsRun(policy, states, steps) && j < |steps|
    requires t in states[j].calls && HasData(states[j].calls[t])
    requires u !in states[j].calls || !states[j].calls[u].pc.Done?
    requires u in states[j + 1].calls && Returned(states[j + 1].calls[u], states[j].calls[t].id)
    ensures var x, y := states[j].calls[t].pc.outcome, states[j + 1].calls[u].pc.outcome;
            x.at <= y.at - |y.bytes|
  {
    var s, id := states[j], states[j].calls[t].id;
    G.OutcomeIsExact(policy, states, steps, j, u);
    G.RunKeeps(policy, states, steps, j);
    assert CallOk(s, t, s.calls[t]);
    L.PendingIsTail(s.log, id);
  }

  /** The calls ts returned the segments of got, one each. */
  ghost predicate Sequence(calls: map<nat, Call>, id: int, got: seq<L.Segment>, ts: seq<nat>)
  {
    |ts| == |got| && forall k :: 0 <= k < |ts| ==> ts[k] in calls && Fits(calls[ts[k]], id, got[k])
  }

  lemma {:induction false} SequenceExists(calls: map<nat, Call>, id: int, got: seq<L.Segment>) returns (ts: seq<nat>)
    requires AllDelivered(calls, id, got)
    ensures Sequence(calls, id, got, ts)
  {
    ts := [];
    if got != [] {
      var n := |got| - 1;
      assert forall g :: g in got[..n] ==> g in got;
      var before := SequenceExists(calls, id, got[..n]);
      assert Delivered(calls, id, got[n]);
      var t :| t in calls && Fits(calls[t], id, got[n]);
      ts := before + [t];
      forall k | 0 <= k < |ts|
        ensures ts[k] in calls && Fits(calls[ts[k]], id, got[k])
      {
        assert k < n ==> ts[k] == before[k] && got[..n][k] == got[k];
      }
    }
  }

  /** Every call that has returned data of the reader is among them. */
  lemma SequenceIsAll(s: State, id: int, got: seq<L.Segment>, ts: seq<nat>, t: nat)
    requires Inv(s) && Sequence(s.calls, id, got, ts) && AllRecorded(s.calls, id, got)
    requires t in s.calls && Returned(s.calls[t], id)
    ensures t in ts
  {
    var k := IndexOf(got, s.calls[t]);
    var u := ts[k];
    assert CallOk(s, t, s.calls[t]) && CallOk(s, u, s.calls[u]);
    assert t != u ==> Disjoint(s.calls[t], s.calls[u]);
  }

  /** What the calls ts returned, one after the other. */
  function Concat(calls: map<nat, Call>, ts: seq<nat>): Text {
    if ts == [] then []
    else
      var t := ts[|ts| - 1];
      Concat(calls, ts[..|ts| - 1]) + if t in calls && HasData(calls[t]) then calls[t].pc.outcome.bytes else []
  }

  /** Each of the calls returned the bytes of the log that its segment delivers. */
  ghost predicate Slices(calls: map<nat, Call>, bytes: Text, got: seq<L.Segment>, ts: seq<nat>)
  {
    |ts| == |got| && forall k :: 0 <= k < |ts| ==> IsSlice(calls, bytes, got[k], ts[k])
  }

  ghost predicate IsSlice(calls: map<nat, Call>, bytes: Text, g: L.Segment, t: nat)
  {
    && t in calls && HasData(calls[t]) && g.lo < g.hi <= |bytes|
    && calls[t].pc.outcome.bytes == bytes[g.lo..g.hi]
  }

  lemma SequenceSlices(s: State, id: int, got: seq<L.Segment>, ts: seq<nat>)
    requires Inv(s) && Sequence(s.calls, id, got, ts)
    ensures Slices(s.calls, s.log.bytes, got, ts)
  {
    forall k | 0 <= k < |ts|
      ensures IsSlice(s.calls, s.log.bytes, got[k], ts[k])
    {
      assert CallOk(s, ts[k], s.calls[ts[k]]);
    }
  }

  /** When nothing was overwritten, the results join up to one stretch of the log. */
  lemma {:induction false} ConcatIsLog(calls: map<nat, Call>, bytes: Text, start: nat, got: seq<L.Segment>, end: nat,
                                       size: nat, ts: seq<nat>)
    requires L.Tiles(start, got, end, size) && L.Skipped(got) == 0 && Slices(calls, bytes, got, ts) && end <= |bytes|
    ensures start <= end && Concat(calls, ts) == bytes[start..end]
    decreases |got|
  {
    if got != [] {
      var n := |got| - 1;
      var last := got[n];
      L.SegmentsTile(start, got[..n], last.from, size);
      ConcatIsLog(calls, bytes, start, got[..n], last.from, size, ts[..n]);
      assert IsSlice(calls, bytes, last, ts[n]);
      assert bytes[start..end] == bytes[start..last.lo] + bytes[last.lo..end];
    }
  }
}
