/** The multi-reader output buffer: one overwriting ring per reader.

Each method is one critical section of the source's methods (what runs between Lock and
Unlock). The ghost field `spec` is the log view of the same history; `Valid` says that
every ring holds exactly what the log view says that reader has pending, so the rings
are a faithful bounded representation of one log with cursors. Blocking, the condition
variable and interleavings are in ReadProtocol. */
module Buffer {
  import opened Bytes
  import opened Ring
  import L = LogSpec

  const DEFAULT_MAX_BYTES := 1024 * 1024

  datatype Error = ErrClosed | ErrReader | EOF

  datatype Result<+T> = Ok(value: T) | Err(error: Error)

  /** How far a Read gets before it must block. */
  datatype Entry = Finished(result: Result<Text>) | MustWait

  /** Distinct rings inside `footprint`, each of capacity `size` and holding its view. */
  ghost predicate Rings(rings: map<int, Ring>, size: int, views: map<int, Text>, footprint: set<object>)
    reads footprint
  {
    && views.Keys == rings.Keys
    && (forall id <- rings ::
          && rings[id] in footprint && rings[id].data in footprint && rings[id].Valid()
          && rings[id].data.Length == size && rings[id].contents == views[id])
    && (forall i <- rings, j <- rings :: i != j ==> rings[i] != rings[j] && rings[i].data != rings[j].data)
  }

  method WriteOne(rings: map<int, Ring>, id: int, chunk: Text, size: nat,
                  ghost views: map<int, Text>, ghost footprint: set<object>)
    requires Rings(rings, size, views, footprint) && id in rings
    modifies footprint
    ensures Rings(rings, size, views[id := LastN(views[id] + chunk, size)], footprint)
  {
    rings[id].Write(chunk);
  }

  /** The loop of Write over all readers: every ring gets the chunk, in any order. */
  method WriteAll(rings: map<int, Ring>, chunk: Text, size: nat,
                  ghost views: map<int, Text>, ghost footprint: set<object>)
    requires Rings(rings, size, views, footprint)
    modifies footprint
    ensures Rings(rings, size, L.Pushed(views, chunk, size), footprint)
  {
    var todo := rings.Keys;
    ghost var pushed := L.Pushed(views, chunk, size);
    ghost var now := views;
    while todo != {}
      invariant todo <= rings.Keys == now.Keys == pushed.Keys
      invariant forall id <- now :: now[id] == if id in todo then views[id] else pushed[id]
      invariant Rings(rings, size, now, footprint)
    {
      Inhabited(todo);
      var id :| id in todo;
      WriteOne(rings, id, chunk, size, now, footprint);
      now := now[id := pushed[id]];
      todo := todo - {id};
    }
    assert forall id <- now :: id !in todo;
    assert forall id <- now :: now[id] == pushed[id];
    assert now == pushed;
  }

  /** Take every byte of one ring; the others keep theirs. */
  method DrainOne(rings: map<int, Ring>, id: int, size: nat,
                  ghost views: map<int, Text>, ghost after: map<int, Text>, ghost footprint: set<object>)
    returns (bytes: Option<Text>)
    requires Rings(rings, size, views, footprint) && id in rings
    requires after.Keys == views.Keys && forall i <- after :: after[i] == if i == id then [] else views[i]
    modifies footprint
    ensures Rings(rings, size, after, footprint)
    ensures bytes == if views[id] == [] then None else Some(views[id])
  {
    var ring := rings[id];
    bytes := None;
    if ring.len > 0 {
      var taken := ring.Drain();
      bytes := Some(taken);
    }
  }

  method AddOne(rings: map<int, Ring>, id: int, size: nat,
                ghost views: map<int, Text>, ghost after: map<int, Text>, ghost footprint: set<object>)
    returns (more: map<int, Ring>, ghost larger: set<object>)
    requires size > 0 && Rings(rings, size, views, footprint) && id !in rings
    requires after.Keys == views.Keys + {id}
    requires forall i <- after :: after[i] == if i in views then views[i] else []
    ensures Rings(more, size, after, larger) && fresh(larger - footprint)
  {
    var ring := new Ring(size);
    more := rings[id := ring];
    larger := footprint + {ring, ring.data};
  }

  lemma RemoveOne(rings: map<int, Ring>, id: int, size: nat,
                  views: map<int, Text>, after: map<int, Text>, footprint: set<object>)
    requires Rings(rings, size, views, footprint)
    requires after.Keys == views.Keys - {id} && forall i <- after :: after[i] == views[i]
    ensures Rings(rings - {id}, size, after, footprint)
  {
  }

  class Buffer {
    var size: int
    var readers: map<int, Ring>
    var nextID: int
    var closed: bool
    ghost var spec: L.Log
    ghost var footprint: set<object>  // the rings and their arrays

    ghost predicate Valid()
      reads this, footprint
    {
      && this !in footprint && L.Sane(spec)
      && spec.size == size && spec.nextID == nextID && spec.closed == closed
      && Rings(readers, size, L.Views(spec), footprint)
    }

    constructor (maxBytes: int)
      ensures Valid() && footprint == {}
      ensures spec == L.Empty(if maxBytes <= 0 then 1_048_576 else maxBytes)
    {
      size := if maxBytes <= 0 then DEFAULT_MAX_BYTES else maxBytes;
      readers, nextID, closed := map[], 0, false;
      spec := L.Empty(if maxBytes <= 0 then DEFAULT_MAX_BYTES else maxBytes);
      footprint := {};
    }

    /** Install a reader map that already matches the next log view. */
    method Adopt(more: map<int, Ring>, newID: int, ghost larger: set<object>, ghost next: L.Log)
      requires this !in larger && L.Sane(next) && Rings(more, size, L.Views(next), larger)
      requires next.size == size && next.nextID == newID && next.closed == closed
      modifies this`readers, this`nextID, this`footprint, this`spec
      ensures Valid() && spec == next && footprint == larger
    {
      readers, nextID, footprint, spec := more, newID, larger, next;
    }

    method NewReader() returns (r: Result<int>)
      requires Valid()
      modifies this
      ensures Valid() && fresh(footprint - old(footprint))
      ensures spec == L.NewReader(old(spec))
      ensures r == if old(closed) then Err(ErrClosed) else Ok(old(nextID))
    {
      if closed {
        return Err(ErrClosed);
      }
      L.NewReaderViews(spec);
      var id := nextID;
      var more, larger := AddOne(readers, id, size, L.Views(spec), L.Views(L.NewReader(spec)), footprint);
      Adopt(more, id + 1, larger, L.NewReader(spec));
      return Ok(id);
    }

    /** The critical section of Unregister; the broadcast that follows it is a step of
    ReadProtocol. */
    method Unregister(id: int)
      requires Valid()
      modifies this`readers, this`spec
      ensures Valid()
      ensures spec == L.Unregister(old(spec), id)
    {
      L.UnregisterViews(spec, id);
      RemoveOne(readers, id, size, L.Views(spec), L.Views(L.Unregister(spec, id)), footprint);
      readers := readers - {id};
      spec := L.Unregister(spec, id);
    }

    method Write(chunk: Text) returns (r: Result<()>)
      requires Valid()
      modifies this`spec, footprint
      ensures Valid()
      ensures spec == L.Write(old(spec), chunk)
      ensures r == if chunk != [] && old(closed) then Err(ErrClosed) else Ok(())
    {
      if |chunk| == 0 {
        assert spec.bytes + chunk == spec.bytes;
        return Ok(());
      }
      if closed {
        return Err(ErrClosed);
      }
      L.WriteViews(spec, chunk);
      WriteAll(readers, chunk, size, L.Views(spec), footprint);
      spec := L.Write(spec, chunk);
      return Ok(());
    }

    /** Take everything in a registered reader's ring; None when it is empty. */
    method Drain(id: int) returns (bytes: Option<Text>)
      requires Valid() && id in readers
      modifies this, footprint
      ensures Valid() && footprint == old(footprint) && closed == old(closed)
      ensures spec == L.Drain(old(spec), id)
      ensures bytes == var p := L.Pending(old(spec), id); if p == [] then None else Some(p)
    {
      L.DrainViews(spec, id);
      bytes := DrainOne(readers, id, size, L.Views(spec), L.Views(L.Drain(spec, id)), footprint);
      Adopt(readers, nextID, footprint, L.Drain(spec, id));
    }

    /** Read up to the point where it starts to wait. */
    method ReadEntry(id: int, timeout: int) returns (e: Entry)
      requires Valid()
      modifies this, footprint
      ensures Valid() && footprint == old(footprint)
      ensures spec == if id in old(spec).readers then L.Drain(old(spec), id) else old(spec)
      ensures e == if id !in old(spec).readers then Finished(Err(ErrReader))
                   else if L.Pending(old(spec), id) != [] then Finished(Ok(L.Pending(old(spec), id)))
                   else if old(closed) then Finished(Err(EOF))
                   else if timeout <= 0 then Finished(Ok([])) else MustWait
    {
      if id !in readers {
        return Finished(Err(ErrReader));
      }
      var bytes := Drain(id);
      if bytes.Some? {
        return Finished(Ok(bytes.value));
      }
      if closed {
        return Finished(Err(EOF));
      }
      if timeout <= 0 {
        return Finished(Ok([]));
      }
      return MustWait;
    }

    method HasMore(id: int) returns (more: bool)
      requires Valid()
      ensures more <==> id in spec.readers && L.Pending(spec, id) != []
    {
      if id !in readers {
        return false;
      }
      more := readers[id].len > 0;
    }

    /** The critical section of Close. */
    method Close()
      requires Valid()
      modifies this`closed, this`spec
      ensures Valid() && spec == L.Close(old(spec))
    {
      L.CloseViews(spec);
      closed := true;
      spec := L.Close(spec);
    }
  }
}
