/** One reader's bounded byte ring in overwrite mode, as a circular array.

The ring library itself is outside the repository; the contract modelled here is the
one the repository relies on: a write never blocks or fails, and the ring keeps the
last `capacity` bytes. */
module Ring {
  import opened Bytes

  /** Where the k-th byte after `start` lives in a circular array of n bytes. */
  function Slot(start: nat, k: nat, n: nat): int {
    if start + k < n then start + k else start + k - n
  }

  class Ring {
    ghost var contents: Text  // the unread bytes, oldest first
    var data: array<Byte>
    var start: nat
    var len: nat

    ghost predicate Valid()
      reads this, data
    {
      && start < data.Length && |contents| == len <= data.Length
      && forall k :: 0 <= k < len ==> contents[k] == data[Slot(start, k, data.Length)]
    }

    constructor (capacity: nat)
      requires capacity > 0
      ensures Valid() && fresh(data) && data.Length == capacity && contents == []
    {
      data := new Byte[capacity];
      start, len, contents := 0, 0, [];
    }

    /** Append one byte, overwriting the oldest one when the ring is full. */
    method Put(b: Byte)
      requires Valid()
      modifies this`start, this`len, this`contents, data
      ensures Valid()
      ensures contents == LastN(old(contents) + [b], data.Length)
    {
      var end := Slot(start, len, data.Length);
      data[end] := b;
      if len == data.Length {
        start := Slot(start, 1, data.Length);
      } else {
        len := len + 1;
      }
      contents := LastN(contents + [b], data.Length);
    }

    /** Append a chunk of any length: the ring keeps the last `capacity` bytes. */
    method Write(chunk: Text)
      requires Valid()
      modifies this`start, this`len, this`contents, data
      ensures Valid()
      ensures contents == LastN(old(contents) + chunk, data.Length)
    {
      ghost var was := contents;
      ghost var n := data.Length;
      assert LastN(was + chunk[..0], n) == was;
      for i := 0 to |chunk|
        invariant Valid()
        invariant contents == LastN(was + chunk[..i], n)
      {
        LastNStep(was, chunk, i, n);
        Put(chunk[i]);
      }
      assert chunk[..|chunk|] == chunk;
    }

    /** Take every unread byte. */
    method Drain() returns (bytes: Text)
      requires Valid()
      modifies this`start, this`len, this`contents
      ensures Valid()
      ensures bytes == old(contents) && contents == []
    {
      if start + len <= data.Length {
        bytes := data[start..start + len];
      } else {
        bytes := data[start..] + data[..start + len - data.Length];
      }
      assert bytes == contents;
      start, len, contents := 0, 0, [];
    }
  }
}
