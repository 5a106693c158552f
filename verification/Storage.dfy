/** The record store: one file per record, replaced by writing a temporary file and
renaming it.

A file's content is the value its JSON decodes to, or Torn for a file that was cut off
while being written; the codec is assumed lossless. Paths justifies naming files by the
record they hold: distinct accepted records have distinct paths, and no temporary name is
a record's path. */
module Storage {
  import opened Bytes
  import opened Paths

  datatype MsgType = Input | Output | System

  datatype Message = Message(id: string, session: string, typ: MsgType, content: Text, createdAt: int, byteSize: nat)

  datatype Entry = Entry(id: string, typ: MsgType, createdAt: int, byteSize: nat)

  datatype Content = Torn | Index(entries: seq<Entry>) | Stored(message: Message)

  datatype File = Record(target: Target) | Temp(n: nat)

  type Files = map<File, Content>

  datatype Error = ErrInvalidID | ErrIO | ErrNotFound

  datatype Result<+T> = Ok(value: T) | Err(error: Error)

  function EntryOf(m: Message): Entry {
    Entry(m.id, m.typ, m.createdAt, m.byteSize)
  }

  // ---- atomicWriteFile, step by step ---------------------------------------------

  datatype Stage = ToCreate | ToWrite | ToSync | ToClose | ToChmod | ToRename | Written

  /** What the step at `stage` does when it succeeds. Rename moves whatever the temporary
  file holds by then. */
  function Advance(files: Files, target: Target, content: Content, temp: nat, stage: Stage): Files {
    match stage
    case ToCreate => files[Temp(temp) := Torn]
    case ToWrite => files[Temp(temp) := content]
    case ToRename => if Temp(temp) in files then (files - {Temp(temp)})[Record(target) := files[Temp(temp)]] else files
    case _ => files
  }

  /** What is left when the step at `stage` fails: every failure but the last removes the
  temporary file. */
  function Abort(files: Files, temp: nat, stage: Stage): Files {
    if stage.ToRename? then files else files - {Temp(temp)}
  }

  function Next(stage: Stage): Stage {
    match stage
    case ToCreate => ToWrite
    case ToWrite => ToSync
    case ToSync => ToClose
    case ToClose => ToChmod
    case ToChmod => ToRename
    case _ => Written
  }

  function IndexOf(files: Files, session: string): seq<Entry> {
    var file := Record(IndexFile(session));
    if file in files && files[file].Index? then files[file].entries else []
  }

  function Lookup(files: Files, session: string, id: string): Option<Message> {
    var file := Record(MessageFile(session, id));
    if ValidId(session) && ValidId(id) && file in files && files[file].Stored? then Some(files[file].message) else None
  }

  predicate Has(files: Files, t: Target, content: Content) {
    Record(t) in files && files[Record(t)] == content
  }

  /** The record of t is the same, or absent, in both. */
  predicate SameRecord(before: Files, after: Files, t: Target) {
    if Record(t) in before then Has(after, t, before[Record(t)]) else Record(t) !in after
  }

  /** The messages found for a list of ids, in order, skipping the ones that are not. */
  function Found(files: Files, session: string, ids: seq<string>): seq<Message> {
    if ids == [] then []
    else (match Lookup(files, session, ids[0])
          case Some(m) => [m]
          case None => []) + Found(files, session, ids[1..])
  }

  /** Ids are looked up one by one: a missing one leaves no trace and stops nothing. */
  lemma {:induction false} FoundInParts(files: Files, session: string, a: seq<string>, b: seq<string>)
    ensures Found(files, session, a + b) == Found(files, session, a) + Found(files, session, b)
  {
    if a == [] {
      assert a + b == b;
    } else {
      assert (a + b)[1..] == a[1..] + b;
      FoundInParts(files, session, a[1..], b);
    }
  }

  lemma FoundOne(files: Files, session: string, id: string)
    ensures var file := Record(MessageFile(session, id));
            Found(files, session, [id]) ==
              if ValidId(session) && ValidId(id) && file in files && files[file].Stored? then [files[file].message]
              else []
  {
    assert [id][1..] == [] && Found(files, session, []) == [];
  }

  class Store {
    var files: Files
    var nextTemp: nat

    /** CreateTemp always finds an unused name. */
    ghost predicate Valid()
      reads this
    {
      forall n :: nextTemp <= n ==> Temp(n) !in files
    }

    constructor ()
      ensures Valid() && files == map[]
    {
      files, nextTemp := map[], 0;
    }

    /** `fault` is the step that fails, or Written when none does. */
    method AtomicWriteFile(target: Target, content: Content, fault: Stage) returns (r: Result<()>)
      requires Valid()
      modifies this
      ensures Valid() && (r.Ok? <==> fault == Written) && (r.Err? ==> r.error == ErrIO)
      ensures r.Ok? ==> files == old(files)[Record(target) := content]
      ensures r.Err? && fault != ToRename ==> files == old(files)
      ensures r.Err? && fault == ToRename ==> files == old(files)[Temp(old(nextTemp)) := content]
    {
      var temp := nextTemp;
      nextTemp := nextTemp + 1;
      var stage := ToCreate;
      ghost var was := files;
      while stage != Written
        invariant nextTemp == temp + 1 && forall n :: nextTemp <= n ==> Temp(n) !in files
        invariant files == match stage
                           case ToCreate => was
                           case ToWrite => was[Temp(temp) := Torn]
                           case Written => was[Record(target) := content]
                           case _ => was[Temp(temp) := content]
        decreases 6 - Order(stage)
        invariant fault != Written ==> Order(stage) <= Order(fault)
      {
        if stage == fault {
          files := Abort(files, temp, stage);
          return Err(ErrIO);
        }
        files := Advance(files, target, content, temp, stage);
        stage := Next(stage);
      }
      return Ok(());
    }

    method SaveMessage(session: string, m: Message, fault: Stage) returns (r: Result<()>)
      requires Valid()
      modifies this
      ensures Valid()
      ensures r.Ok? <==> ValidId(session) && ValidId(m.id) && fault == Written
      ensures r.Err? ==> r.error == if !ValidId(session) || !ValidId(m.id) then ErrInvalidID else ErrIO
      ensures r.Ok? ==> Has(files, MessageFile(session, m.id), Stored(m))
      ensures forall t :: t != MessageFile(session, m.id) || r.Err? ==> SameRecord(old(files), files, t)
    {
      if !ValidId(session) || !ValidId(m.id) {
        return Err(ErrInvalidID);
      }
      r := AtomicWriteFile(MessageFile(session, m.id), Stored(m), fault);
    }

    method SaveMessageIndex(session: string, entries: seq<Entry>, fault: Stage) returns (r: Result<()>)
      requires Valid()
      modifies this
      ensures Valid()
      ensures r.Ok? <==> ValidId(session) && fault == Written
      ensures r.Err? ==> r.error == if !ValidId(session) then ErrInvalidID else ErrIO
      ensures r.Ok? ==> Has(files, IndexFile(session), Index(entries))
      ensures forall t :: t != IndexFile(session) || r.Err? ==> SameRecord(old(files), files, t)
    {
      if !ValidId(session) {
        return Err(ErrInvalidID);
      }
      r := AtomicWriteFile(IndexFile(session), Index(entries), fault);
    }

    /** `readable` is false when reading the file fails. */
    method LoadMessageIndex(session: string, readable: bool) returns (r: Result<seq<Entry>>)
      ensures r == if !ValidId(session) then Err(ErrInvalidID)
                   else if Record(IndexFile(session)) !in files then Ok([])
                   else if readable && files[Record(IndexFile(session))].Index? then Ok(IndexOf(files, session))
                   else Err(ErrIO)
    {
      if !ValidId(session) {
        return Err(ErrInvalidID);
      }
      var file := Record(IndexFile(session));
      if file !in files {
        return Ok([]);
      }
      if !readable || !files[file].Index? {
        return Err(ErrIO);
      }
      return Ok(files[file].entries);
    }

    method LoadMessage(session: string, id: string) returns (r: Result<Message>)
      ensures r.Ok? <==> Lookup(files, session, id).Some?
      ensures r.Ok? ==> ValidId(session) && ValidId(id) && Has(files, MessageFile(session, id), Stored(r.value))
      ensures r.Err? && ValidId(session) && ValidId(id) ==>
                r.error == if Record(MessageFile(session, id)) in files then ErrIO else ErrNotFound
      ensures !ValidId(session) || !ValidId(id) ==> r.Err? && r.error == ErrInvalidID
      ensures r.Err? && r.error == ErrIO ==> !files[Record(MessageFile(session, id))].Stored?
    {
      if !ValidId(session) || !ValidId(id) {
        return Err(ErrInvalidID);
      }
      var file := Record(MessageFile(session, id));
      if file !in files {
        return Err(ErrNotFound);
      }
      if !files[file].Stored? {
        return Err(ErrIO);
      }
      return Ok(files[file].message);
    }

    method LoadMessages(session: string, ids: seq<string>) returns (result: seq<Message>)
      ensures result == Found(files, session, ids)
    {
      result := [];
      assert ids[0..] == ids;
      for i := 0 to |ids|
        invariant result + Found(files, session, ids[i..]) == Found(files, session, ids)
      {
        assert ids[i..][1..] == ids[i + 1..];
        var m := LoadMessage(session, ids[i]);
        if m.Err? {
          continue;
        }
        result := result + [m.value];
      }
    }
  }

  function Order(stage: Stage): nat {
    match stage
    case ToCreate => 0
    case ToWrite => 1
    case ToSync => 2
    case ToClose => 3
    case ToChmod => 4
    case ToRename => 5
    case Written => 6
  }

  class Mutex {
    constructor () {
    }
  }

  class Manager {
    const store: Store
    var locks: map<string, Mutex>

    constructor (store: Store)
      ensures this.store == store && locks == map[]
    {
      this.store := store;
      locks := map[];
    }

    /** One mutex per session, made on first use and the same one ever after. */
    method SessionLock(session: string) returns (mu: Mutex)
      modifies this`locks
      ensures locks == old(locks)[session := mu]
      ensures session in old(locks) ==> mu == old(locks)[session]
      ensures session !in old(locks) ==> fresh(mu)
    {
      if session !in locks {
        mu := new Mutex();
        locks := locks[session := mu];
      } else {
        mu := locks[session];
      }
    }

    /** Append by a goroutine that nobody interleaves with; MessageLog has the rest. When
    the index cannot be read, it is replaced by the new entry alone. */
    method Append(session: string, typ: MsgType, content: Text, id: string, now: int,
                  saveFault: Stage, readable: bool, indexFault: Stage) returns (r: Result<Message>)
      requires store.Valid()
      modifies this`locks, store
      ensures store.Valid()
      ensures r.Ok? <==> ValidId(session) && ValidId(id) && saveFault == Written && indexFault == Written
      ensures r.Ok? ==>
                && r.value == Message(id, session, typ, content, now, |content|)
                && Lookup(store.files, session, id) == Some(r.value)
                && IndexOf(store.files, session) ==
                   (if readable then IndexOf(old(store.files), session) else []) + [Entry(id, typ, now, |content|)]
      ensures r.Err? ==> SameRecord(old(store.files), store.files, IndexFile(session))
      ensures ValidId(session) && ValidId(id) && saveFault == Written ==> session in locks
      ensures forall other <- old(locks) :: other in locks && locks[other] == old(locks)[other]
      ensures forall t :: t != IndexFile(session) && t != MessageFile(session, id) ==>
                SameRecord(old(store.files), store.files, t)
    {
      var m := Message(id, session, typ, content, now, |content|);
      var saved := store.SaveMessage(session, m, saveFault);
      if saved.Err? {
        assert SameRecord(old(store.files), store.files, IndexFile(session));
        return Err(saved.error);
      }
      ghost var afterSave := store.files;
      assert SameRecord(old(store.files), afterSave, IndexFile(session));
      var mu := SessionLock(session);
      var loaded := store.LoadMessageIndex(session, readable);
      var entries := if loaded.Ok? then loaded.value else [];
      entries := entries + [EntryOf(m)];
      var indexed := store.SaveMessageIndex(session, entries, indexFault);
      assert SameRecord(afterSave, store.files, MessageFile(session, id));
      forall t | t != IndexFile(session) && t != MessageFile(session, id)
        ensures SameRecord(old(store.files), store.files, t)
      {
        assert SameRecord(old(store.files), afterSave, t) && SameRecord(afterSave, store.files, t);
      }
      if indexed.Err? {
        assert SameRecord(afterSave, store.files, IndexFile(session));
        return Err(indexed.error);
      }
      return Ok(m);
    }
  }

  /** One unreadable index, and the message appended before it is no longer listed. */
  method LoadErrorForgets() returns (before: seq<Entry>, after: seq<Entry>)
    ensures exists a, b :: before == [a] && after == [b] && a.id == "a" && b.id == "b"
  {
    var store := new Store();
    var manager := new Manager(store);
    var first := manager.Append("s", Input, [], "a", 0, Written, true, Written);
    before := IndexOf(store.files, "s");
    var second := manager.Append("s", Input, [], "b", 1, Written, false, Written);
    after := IndexOf(store.files, "s");
  }
}
