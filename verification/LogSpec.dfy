/** The meaning of the multi-reader buffer: one global log of accepted bytes and, for
each reader, a cursor into it.

Nothing here mentions rings. A reader sees the last `size` bytes written since its
cursor; draining moves the cursor to the end of the log and records the segment of the
log that was delivered. */
module LogSpec {
  import opened Bytes

  /** The bytes lo..hi of the log, delivered by one Read; `from` is where this reader's
  previous segment ended, so from..lo was overwritten before it could be read. */
  datatype Segment = Segment(from: nat, lo: nat, hi: nat)

  /** `start` is the log length when the reader registered, `cursor` the log length at
  its last non-empty drain (or `start`), `got` everything delivered to it so far. */
  datatype Reader = Reader(start: nat, cursor: nat, got: seq<Segment>)

  datatype Log = Log(size: nat, bytes: Text, readers: map<int, Reader>, nextID: int, closed: bool)

  /** The overwrite rule: a segment is non-empty and delivers the last min(size, n) of
  the n bytes written since `from`. */
  ghost predicate Follows(s: Segment, size: nat)
  {
    s.from <= s.lo < s.hi && s.hi - s.lo == if s.hi - s.from <= size then s.hi - s.from else size
  }

  /** The segments, each with the gap before it, cover start..end exactly once in order. */
  ghost predicate Tiles(start: nat, got: seq<Segment>, end: nat, size: nat)
  {
    if got == [] then start == end
    else
      var last := got[|got| - 1];
      last.hi == end && Follows(last, size) && Tiles(start, got[..|got| - 1], last.from, size)
  }

  ghost predicate ReaderOk(r: Reader, size: nat, written: nat)
  {
    r.cursor <= written && Tiles(r.start, r.got, r.cursor, size)
  }

  /** Reader ids come from the supply and cursors lie inside the log. */
  predicate Sane(l: Log)
  {
    && l.size > 0 && 0 <= l.nextID
    && forall id <- l.readers :: 0 <= id < l.nextID && l.readers[id].cursor <= |l.bytes|
  }

  /** Moreover, every reader's delivered segments obey the overwrite rule. */
  ghost predicate WellFormed(l: Log)
  {
    && Sane(l)
    && forall id <- l.readers :: ReaderOk(l.readers[id], l.size, |l.bytes|)
  }

  function Empty(size: nat): Log {
    Log(size, [], map[], 0, false)
  }

  /** What a Read by this reader would return now. */
  function Pending(l: Log, id: int): Text
    requires id in l.readers && l.readers[id].cursor <= |l.bytes|
  {
    LastN(l.bytes[l.readers[id].cursor..], l.size)
  }

  lemma PendingIsTail(l: Log, id: int)
    requires id in l.readers && l.readers[id].cursor <= |l.bytes|
    ensures var n := |Pending(l, id)|;
            n <= |l.bytes| - l.readers[id].cursor && Pending(l, id) == l.bytes[|l.bytes| - n..|l.bytes|]
  {
  }

  function NewReader(l: Log): Log {
    if l.closed then l
    else l.(readers := l.readers[l.nextID := Reader(|l.bytes|, |l.bytes|, [])], nextID := l.nextID + 1)
  }

  function Unregister(l: Log, id: int): Log {
    l.(readers := l.readers - {id})
  }

  function Write(l: Log, chunk: Text): Log {
    if l.closed then l else l.(bytes := l.bytes + chunk)
  }

  function Close(l: Log): Log {
    l.(closed := true)
  }

  function Drain(l: Log, id: int): Log
    requires id in l.readers && l.readers[id].cursor <= |l.bytes|
  {
    var n := |Pending(l, id)|;
    if n == 0 then l
    else
      var r := l.readers[id];
      var segment := Segment(r.cursor, |l.bytes| - n, |l.bytes|);
      l.(readers := l.readers[id := Reader(r.start, |l.bytes|, r.got + [segment])])
  }

  lemma DrainCursor(l: Log, id: int)
    requires id in l.readers && l.readers[id].cursor <= |l.bytes| && Pending(l, id) != []
    ensures Drain(l, id).bytes == l.bytes && id in Drain(l, id).readers && Drain(l, id).readers[id].cursor == |l.bytes|
    ensures var segment := Segment(l.readers[id].cursor, |l.bytes| - |Pending(l, id)|, |l.bytes|);
            && Drain(l, id).readers.Keys == l.readers.Keys
            && forall i <- l.readers ::
                 Drain(l, id).readers[i].got == if i == id then l.readers[i].got + [segment] else l.readers[i].got
  {
  }

  // ---- What every operation does to every reader's view ---------------------

  /** What each registered reader would get if it read now. */
  function Views(l: Log): (v: map<int, Text>)
    requires Sane(l)
    ensures v.Keys == l.readers.Keys
  {
    map id | id in l.readers :: Pending(l, id)
  }

  /** Every view after a chunk has reached every ring. */
  function Pushed(views: map<int, Text>, chunk: Text, size: nat): map<int, Text> {
    map id | id in views :: LastN(views[id] + chunk, size)
  }

  lemma NewReaderViews(l: Log)
    requires Sane(l)
    ensures Sane(NewReader(l)) && (!l.closed ==> l.nextID !in l.readers)
    ensures NewReader(l).readers.Keys == l.readers.Keys + if l.closed then {} else {l.nextID}
    ensures var after := Views(NewReader(l));
            forall id <- after :: after[id] == if id in l.readers then Views(l)[id] else []
  {
    var after := NewReader(l);
    forall i <- after.readers
      ensures Pending(after, i) == if i in l.readers then Pending(l, i) else []
    {
    }
  }

  lemma UnregisterViews(l: Log, id: int)
    requires Sane(l)
    ensures Sane(Unregister(l, id)) && Unregister(l, id).readers.Keys == l.readers.Keys - {id}
    ensures var after := Views(Unregister(l, id));
            forall i <- after :: after[i] == Views(l)[i]
  {
  }

  lemma CloseViews(l: Log)
    requires Sane(l)
    ensures Sane(Close(l)) && Views(Close(l)) == Views(l)
  {
    assert forall id <- l.readers :: Pending(Close(l), id) == Pending(l, id);
  }

  lemma WriteViews(l: Log, chunk: Text)
    requires Sane(l)
    ensures Sane(Write(l, chunk))
    ensures Views(Write(l, chunk)) == if l.closed then Views(l) else Pushed(Views(l), chunk, l.size)
  {
    if !l.closed {
      forall id <- l.readers
        ensures Pending(Write(l, chunk), id) == LastN(Pending(l, id) + chunk, l.size)
      {
        var since := l.bytes[l.readers[id].cursor..];
        assert (l.bytes + chunk)[l.readers[id].cursor..] == since + chunk;
        LastNAppend(since, chunk, l.size);
      }
    }
  }

  lemma DrainViews(l: Log, id: int)
    requires Sane(l) && id in l.readers
    ensures Sane(Drain(l, id)) && Drain(l, id).readers.Keys == l.readers.Keys
    ensures var after := Views(Drain(l, id));
            forall i <- after :: after[i] == if i == id then [] else Views(l)[i]
  {
    var after := Drain(l, id);
    forall i <- l.readers
      ensures Pending(after, i) == if i == id then [] else Pending(l, i)
    {
    }
  }

  // ---- What every operation keeps --------------------------------------------

  lemma NewReaderKeeps(l: Log)
    requires WellFormed(l)
    ensures WellFormed(NewReader(l))
  {
  }

  lemma WriteKeeps(l: Log, chunk: Text)
    requires WellFormed(l)
    ensures WellFormed(Write(l, chunk))
  {
  }

  lemma DrainKeeps(l: Log, id: int)
    requires WellFormed(l) && id in l.readers
    ensures WellFormed(Drain(l, id))
  {
    if |Pending(l, id)| > 0 {
      TilesGrow(l.readers[id], Segment(l.readers[id].cursor, |l.bytes| - |Pending(l, id)|, |l.bytes|), l.size);
    }
  }

  lemma TilesGrow(r: Reader, next: Segment, size: nat)
    requires Tiles(r.start, r.got, r.cursor, size) && next.from == r.cursor && Follows(next, size)
    ensures Tiles(r.start, r.got + [next], next.hi, size)
  {
    assert (r.got + [next])[..|r.got|] == r.got;
  }

  // ---- Conservation ----------------------------------------------------------

  ghost function Delivered(got: seq<Segment>): int
  {
    if got == [] then 0
    else Delivered(got[..|got| - 1]) + got[|got| - 1].hi - got[|got| - 1].lo
  }

  /** The bytes overwritten before they could be delivered: the gaps before segments. */
  ghost function Skipped(got: seq<Segment>): int
  {
    if got == [] then 0
    else Skipped(got[..|got| - 1]) + got[|got| - 1].lo - got[|got| - 1].from
  }

  lemma {:induction false} SegmentsTile(start: nat, got: seq<Segment>, end: nat, size: nat)
    requires Tiles(start, got, end, size)
    ensures Delivered(got) + Skipped(got) == end - start
    ensures Delivered(got) >= 0 && Skipped(got) >= 0
  {
    if got != [] {
      SegmentsTile(start, got[..|got| - 1], got[|got| - 1].from, size);
    }
  }

  /** Every byte written since registration is accounted for exactly once: delivered,
  overwritten (in a gap, or in the ring since the last drain), or still pending. */
  lemma Conservation(l: Log, id: int)
    requires WellFormed(l) && id in l.readers
    ensures var r := l.readers[id];
            var overwritten := |l.bytes| - r.cursor - |Pending(l, id)|;
            && Delivered(r.got) >= 0 && Skipped(r.got) >= 0 && overwritten >= 0
            && Delivered(r.got) + (Skipped(r.got) + overwritten) + |Pending(l, id)| == |l.bytes| - r.start
  {
    var r := l.readers[id];
    SegmentsTile(r.start, r.got, r.cursor, l.size);
  }

  /** Each segment obeys the overwrite rule, counted from the end of the one before it. */
  lemma {:induction false} SegmentFollows(start: nat, got: seq<Segment>, end: nat, size: nat, k: nat)
    requires Tiles(start, got, end, size) && k < |got|
    ensures Follows(got[k], size) && got[k].from == if k == 0 then start else got[k - 1].hi
    decreases |got|
  {
    var n := |got| - 1;
    if k < n {
      SegmentFollows(start, got[..n], got[n].from, size, k);
    }
  }

  /** The delivered segments are disjoint and increasing, and bytes are lost only to a
  full ring: a segment that does not continue the previous one fills the whole ring. */
  lemma {:induction false} SegmentsIncrease(start: nat, got: seq<Segment>, end: nat, size: nat, i: nat, j: nat)
    requires Tiles(start, got, end, size) && i < j < |got|
    ensures start <= got[i].lo < got[i].hi <= got[j].lo < got[j].hi <= end
    ensures got[j - 1].hi == got[j].lo || got[j].hi - got[j].lo == size
    decreases |got|
  {
    var n := |got| - 1;
    var init := got[..n];
    if j < n {
      SegmentsIncrease(start, init, got[n].from, size, i, j);
    } else if i + 1 < n {
      SegmentsIncrease(start, init, got[n].from, size, i, n - 1);
    } else {
      SegmentsTile(start, init[..i], init[i].from, size);
    }
  }
}
