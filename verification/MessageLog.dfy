/** Concurrent Appends to the message log, with I/O faults and process crashes.

A step is one file operation of atomicWriteFile, one lock operation or one index load of
some Append. Saving takes the store's write lock and loading its read lock; the
load-extend-save of an index runs under that session's mutex. A crash stops every Append
where it is and keeps the files. */
module MessageLog {
  import opened Bytes
  import opened Paths
  import opened Storage

  datatype Pc =
    | ToSave
    | Saving(temp: nat, stage: Stage)              // writing the message, store locked
    | ToLock                                       // before sessionLock
    | HasLock(ref: nat)                            // knows its mutex, before Lock
    | ToLoad(ref: nat)                             // from here on the mutex is held
    | ToIndex(ref: nat, entries: seq<Entry>, failed: bool)
    | Indexing(ref: nat, entries: seq<Entry>, failed: bool, temp: nat, stage: Stage)
    | Succeeded | Failed

  datatype Call = Call(message: Message, pc: Pc)

  datatype State = State(
    files: Files, storeLock: Option<nat>,
    locks: map<string, nat>,           // the session mutexes, by reference
    held: map<nat, nat>,               // who holds a mutex
    nextRef: nat, nextTemp: nat,
    calls: map<nat, Call>)

  datatype Step =
    | Begin(t: nat, message: Message)
    | Go(t: nat) | Fault(t: nat) | LoadFault(t: nat)
    | Crash

  function FileOf(m: Message): Target {
    MessageFile(m.session, m.id)
  }

  predicate Busy(pc: Pc) {
    pc.Saving? || pc.Indexing?
  }

  predicate Enabled(s: State, step: Step) {
    match step
    case Begin(t, m) =>
      // A fresh id, and the message as Append builds it.
      && t !in s.calls && m.byteSize == |m.content| && Record(FileOf(m)) !in s.files
      && forall u <- s.calls :: FileOf(s.calls[u].message) != FileOf(m)
    case Go(t) =>
      t in s.calls &&
      (match s.calls[t].pc
       case ToSave => s.storeLock.None?
       case HasLock(ref) => ref !in s.held
       case ToLoad(_) => s.storeLock.None?
       case ToIndex(_, _, _) => s.storeLock.None?
       case Succeeded => false
       case Failed => false
       case _ => true)
    case Fault(t) => t in s.calls && Busy(s.calls[t].pc)
    case LoadFault(t) => t in s.calls && s.calls[t].pc.ToLoad? && s.storeLock.None?
    case Crash => true
  }

  function Goto(s: State, t: nat, pc: Pc): State
    requires t in s.calls
  {
    s.(calls := s.calls[t := s.calls[t].(pc := pc)])
  }

  function LockOf(s: State, session: string): nat {
    if session in s.locks then s.locks[session] else s.nextRef
  }

  /** The index has been renamed into place: unlock and report success. */
  function Complete(s: State, t: nat, files: Files): State
    requires t in s.calls && s.calls[t].pc.Indexing?
  {
    Goto(s, t, Succeeded).(
      files := files, storeLock := None, held := s.held - {s.calls[t].pc.ref})
  }

  function GoStep(s: State, t: nat): State
    requires Enabled(s, Go(t))
  {
    var m := s.calls[t].message;
    match s.calls[t].pc
    case ToSave =>
      if !ValidId(m.session) || !ValidId(m.id) then Goto(s, t, Failed)
      else Goto(s, t, Saving(s.nextTemp, ToCreate)).(storeLock := Some(t), nextTemp := s.nextTemp + 1)
    case Saving(temp, stage) =>
      var files := Advance(s.files, FileOf(m), Stored(m), temp, stage);
      if stage.ToRename? then Goto(s, t, ToLock).(files := files, storeLock := None)
      else Goto(s, t, Saving(temp, Next(stage))).(files := files)
    case ToLock =>
      var ref := LockOf(s, m.session);
      Goto(s, t, HasLock(ref)).(locks := s.locks[m.session := ref], nextRef := s.nextRef + 1)
    case HasLock(ref) => Goto(s, t, ToLoad(ref)).(held := s.held[ref := t])
    case ToLoad(ref) => Goto(s, t, ToIndex(ref, IndexOf(s.files, m.session), false))
    case ToIndex(ref, entries, failed) =>
      Goto(s, t, Indexing(ref, entries + [EntryOf(m)], failed, s.nextTemp, ToCreate))
        .(storeLock := Some(t), nextTemp := s.nextTemp + 1)
    case Indexing(ref, entries, failed, temp, stage) =>
      var files := Advance(s.files, IndexFile(m.session), Index(entries), temp, stage);
      if stage.ToRename? then Complete(s, t, files)
      else Goto(s, t, Indexing(ref, entries, failed, temp, Next(stage))).(files := files)
  }

  /** A file operation fails: give up, releasing what is held. */
  function FaultStep(s: State, t: nat): State
    requires Enabled(s, Fault(t))
  {
    var pc := s.calls[t].pc;
    Goto(s, t, Failed).(
      files := Abort(s.files, pc.temp, pc.stage), storeLock := None,
      held := if pc.Indexing? then s.held - {pc.ref} else s.held)
  }

  function Apply(s: State, step: Step): State
    requires Enabled(s, step)
  {
    match step
    case Begin(t, m) => s.(calls := s.calls[t := Call(m, ToSave)])
    case Go(t) => GoStep(s, t)
    case Fault(t) => FaultStep(s, t)
    case LoadFault(t) => Goto(s, t, ToIndex(s.calls[t].pc.ref, [], true))
    case Crash => s.(storeLock := None, locks := map[], held := map[], calls := map[])
  }

  function Init(): State {
    State(map[], None, map[], map[], 0, 0, map[])
  }

  ghost predicate IsRun(states: seq<State>, steps: seq<Step>)
  {
    && |states| == |steps| + 1 && states[0] == Init()
    && forall i :: 0 <= i < |steps| ==> Enabled(states[i], steps[i]) && states[i + 1] == Apply(states[i], steps[i])
  }

  // ---- The invariant: what the disk always looks like ---------------------------------

  /** Every entry names a stored message of the same type, size and time. */
  ghost predicate Named(files: Files, session: string, entries: seq<Entry>)
  {
    forall e :: e in entries ==>
      var file := Record(MessageFile(session, e.id));
      file in files && files[file].Stored? && EntryOf(files[file].message) == e
  }

  /** A record's file is complete and is that record. */
  ghost predicate RecordOk(files: Files, t: Target)
  {
    Record(t) in files ==>
      match t
      case SessionsFile => true
      case IndexFile(session) => files[Record(t)].Index? && Named(files, session, files[Record(t)].entries)
      case MessageFile(session, id) =>
        && files[Record(t)].Stored? && ValidId(session) && ValidId(id)
        && var m := files[Record(t)].message; m.session == session && m.id == id && m.byteSize == |m.content|
  }

  ghost predicate DiskOk(files: Files)
  {
    forall t :: RecordOk(files, t)
  }

  ghost predicate Distinct(entries: seq<Entry>)
  {
    forall i, j :: 0 <= i < j < |entries| ==> entries[i].id != entries[j].id
  }

  ghost predicate Unlisted(files: Files, m: Message)
  {
    forall e :: e in IndexOf(files, m.session) ==> e.id != m.id
  }

  ghost predicate TempOk(files: Files, content: Content, temp: nat, stage: Stage)
  {
    match stage
    case ToCreate => true
    case ToWrite => Temp(temp) in files
    case Written => false
    case _ => Temp(temp) in files && files[Temp(temp)] == content
  }

  predicate Locked(pc: Pc) {
    pc.ToLoad? || pc.ToIndex? || pc.Indexing?
  }

  ghost predicate CallOk(s: State, t: nat, c: Call)
  {
    var m := c.message;
    && m.byteSize == |m.content|
    && (s.storeLock == Some(t) <==> Busy(c.pc))
    && (c.pc.HasLock? || Locked(c.pc) ==> m.session in s.locks && s.locks[m.session] == c.pc.ref)
    && (Locked(c.pc) ==> c.pc.ref in s.held && s.held[c.pc.ref] == t)
    && (c.pc.ToSave? || c.pc.Saving? ==> Record(FileOf(m)) !in s.files)
    && (!c.pc.Succeeded? ==> Unlisted(s.files, m))
    && (c.pc.ToLock? || c.pc.HasLock? || Locked(c.pc) || c.pc.Succeeded? ==> Has(s.files, FileOf(m), Stored(m)))
    && (match c.pc
        case Saving(temp, stage) => ValidId(m.session) && ValidId(m.id) && TempOk(s.files, Stored(m), temp, stage)
        case ToIndex(_, entries, failed) => entries == if failed then [] else IndexOf(s.files, m.session)
        case Indexing(_, entries, failed, temp, stage) =>
          && TempOk(s.files, Index(entries), temp, stage)
          && entries == (if failed then [] else IndexOf(s.files, m.session)) + [EntryOf(m)]
        case _ => true)
  }

  ghost predicate LocksOk(s: State)
  {
    && (s.storeLock.Some? ==> s.storeLock.value in s.calls)
    && (forall x <- s.locks :: s.locks[x] < s.nextRef)
    && (forall x <- s.locks, y <- s.locks :: x != y ==> s.locks[x] != s.locks[y])
  }

  ghost predicate FreshIds(s: State)
  {
    forall t <- s.calls, u <- s.calls :: t != u ==> FileOf(s.calls[t].message) != FileOf(s.calls[u].message)
  }

  ghost predicate Inv(s: State)
  {
    && DiskOk(s.files) && (forall session :: Distinct(IndexOf(s.files, session)))
    && LocksOk(s) && FreshIds(s)
    && forall t <- s.calls :: CallOk(s, t, s.calls[t])
  }

  // ---- What file operations do to the records -------------------------------------------

  ghost predicate SameRecords(f: Files, g: Files)
  {
    forall t :: SameRecord(f, g, t)
  }

  ghost predicate OnlyChanges(f: Files, g: Files, target: Target, content: Content)
  {
    Has(g, target, content) && forall t :: t != target ==> SameRecord(f, g, t)
  }

  /** Only a successful rename touches a record, and it installs the complete content. */
  lemma AdvanceTouches(f: Files, target: Target, content: Content, temp: nat, stage: Stage)
    requires TempOk(f, content, temp, stage)
    ensures var g := Advance(f, target, content, temp, stage);
            if stage.ToRename? then OnlyChanges(f, g, target, content)
            else SameRecords(f, g) && TempOk(g, content, temp, Next(stage))
  {
  }

  lemma AbortTouches(f: Files, temp: nat, stage: Stage)
    ensures SameRecords(f, Abort(f, temp, stage))
  {
  }

  lemma SameDisk(f: Files, g: Files)
    requires DiskOk(f) && SameRecords(f, g)
    ensures DiskOk(g) && forall session :: IndexOf(g, session) == IndexOf(f, session)
  {
    forall session
      ensures IndexOf(g, session) == IndexOf(f, session)
    {
      assert SameRecord(f, g, IndexFile(session));
    }
    forall t
      ensures RecordOk(g, t)
    {
      assert SameRecord(f, g, t) && RecordOk(f, t);
      if t.IndexFile? && Record(t) in g {
        NamedStays(f, g, t.session, f[Record(t)].entries);
      }
    }
  }

  lemma NamedStays(f: Files, g: Files, session: string, entries: seq<Entry>)
    requires Named(f, session, entries)
    requires forall id :: Record(MessageFile(session, id)) in f ==> SameRecord(f, g, MessageFile(session, id))
    ensures Named(g, session, entries)
  {
    forall e | e in entries
      ensures var file := Record(MessageFile(session, e.id));
              file in g && g[file].Stored? && EntryOf(g[file].message) == e
    {
      assert SameRecord(f, g, MessageFile(session, e.id));
    }
  }

  /** A new message file changes no other record and no index. */
  lemma MessageRenamed(f: Files, g: Files, m: Message)
    requires ValidId(m.session) && ValidId(m.id)
    requires DiskOk(f) && Record(FileOf(m)) !in f && m.byteSize == |m.content|
    requires OnlyChanges(f, g, FileOf(m), Stored(m))
    ensures DiskOk(g) && forall session :: IndexOf(g, session) == IndexOf(f, session)
  {
    forall session
      ensures IndexOf(g, session) == IndexOf(f, session)
    {
      assert SameRecord(f, g, IndexFile(session));
    }
    forall t
      ensures RecordOk(g, t)
    {
      assert RecordOk(f, t) && (t != FileOf(m) ==> SameRecord(f, g, t));
      if t.IndexFile? && Record(t) in g {
        forall id | Record(MessageFile(t.session, id)) in f
          ensures SameRecord(f, g, MessageFile(t.session, id))
        {
        }
        NamedStays(f, g, t.session, f[Record(t)].entries);
      }
    }
  }

  /** An index that names stored messages changes one session's index and nothing else. */
  lemma IndexRenamed(f: Files, g: Files, session: string, entries: seq<Entry>)
    requires DiskOk(f) && Named(f, session, entries) && OnlyChanges(f, g, IndexFile(session), Index(entries))
    ensures DiskOk(g) && IndexOf(g, session) == entries
    ensures forall other :: other != session ==> IndexOf(g, other) == IndexOf(f, other)
  {
    forall other | other != session
      ensures IndexOf(g, other) == IndexOf(f, other)
    {
      assert SameRecord(f, g, IndexFile(other));
    }
    forall t
      ensures RecordOk(g, t)
    {
      assert RecordOk(f, t) && (t != IndexFile(session) ==> SameRecord(f, g, t));
      if t.IndexFile? && Record(t) in g {
        NamedStays(f, g, t.session, g[Record(t)].entries);
      }
    }
  }

  /** Extending what the index holds, or starting over, by a stored message. */
  lemma NamedExtend(f: Files, m: Message, entries: seq<Entry>)
    requires DiskOk(f) && Has(f, FileOf(m), Stored(m))
    requires entries == IndexOf(f, m.session) || entries == []
    ensures Named(f, m.session, entries + [EntryOf(m)])
  {
    assert RecordOk(f, IndexFile(m.session));
  }

  // ---- Every step keeps the invariant ----------------------------------------------------

  /** What another call needs from a step that is not its own. */
  ghost predicate Undisturbed(s: State, n: State, u: nat, c: Call)
  {
    && (n.storeLock == Some(u) <==> s.storeLock == Some(u))
    && (forall x <- s.locks :: x in n.locks && n.locks[x] == s.locks[x])
    && (Locked(c.pc) && c.pc.ref in s.held && s.held[c.pc.ref] == u ==> c.pc.ref in n.held && n.held[c.pc.ref] == u)
    && SameRecord(s.files, n.files, FileOf(c.message))
    && (Locked(c.pc) ==> IndexOf(n.files, c.message.session) == IndexOf(s.files, c.message.session))
    && (Busy(c.pc) ==> n.files == s.files)
    && (Unlisted(s.files, c.message) && !c.pc.Succeeded? ==> Unlisted(n.files, c.message))
  }

  lemma OtherKeeps(s: State, n: State, u: nat, c: Call)
    requires CallOk(s, u, c) && Undisturbed(s, n, u, c)
    ensures CallOk(n, u, c)
  {
  }

  /** A step of call t keeps the invariant if it keeps the disk, the indexes and t's own
  condition, and disturbs no other call. */
  lemma Assemble(s: State, n: State, t: nat)
    requires Inv(s) && t in s.calls && t in n.calls
    requires n.calls == s.calls[t := n.calls[t]] && n.calls[t].message == s.calls[t].message
    requires DiskOk(n.files) && LocksOk(n) && forall session :: Distinct(IndexOf(n.files, session))
    requires CallOk(n, t, n.calls[t])
    requires forall u <- s.calls :: u != t ==> Undisturbed(s, n, u, s.calls[u])
    ensures Inv(n)
  {
    forall u <- n.calls
      ensures CallOk(n, u, n.calls[u])
    {
      if u != t {
        assert CallOk(s, u, s.calls[u]);
        OtherKeeps(s, n, u, s.calls[u]);
      }
    }
    forall u <- n.calls, v <- n.calls | u != v
      ensures FileOf(n.calls[u].message) != FileOf(n.calls[v].message)
    {
      assert FileOf(s.calls[u].message) != FileOf(s.calls[v].message);
    }
  }

  /** Steps that leave every record alone: lock operations, loads, and the file steps
  before the rename. */
  lemma QuietStep(s: State, n: State, t: nat)
    requires Inv(s) && t in s.calls && t in n.calls
    requires n.calls == s.calls[t := n.calls[t]] && n.calls[t].message == s.calls[t].message
    requires SameRecords(s.files, n.files) && (s.files != n.files ==> s.storeLock == Some(t))
    requires LocksOk(n)
    requires s.storeLock == n.storeLock
             || ((s.storeLock.None? || s.storeLock == Some(t)) && (n.storeLock.None? || n.storeLock == Some(t)))
    requires forall x <- s.locks :: x in n.locks && n.locks[x] == s.locks[x]
    requires forall r <- s.held :: s.held[r] != t ==> r in n.held && n.held[r] == s.held[r]
    requires (forall session :: IndexOf(n.files, session) == IndexOf(s.files, session)) ==> CallOk(n, t, n.calls[t])
    ensures Inv(n)
  {
    SameDisk(s.files, n.files);
    forall u <- s.calls | u != t
      ensures Undisturbed(s, n, u, s.calls[u])
    {
      assert CallOk(s, u, s.calls[u]);
    }
    Assemble(s, n, t);
  }

  lemma SavedDisturbsNobody(s: State, t: nat, u: nat)
    requires Inv(s) && Enabled(s, Go(t)) && s.calls[t].pc.Saving? && s.calls[t].pc.stage.ToRename?
    requires u in s.calls && u != t
    ensures Undisturbed(s, GoStep(s, t), u, s.calls[u])
  {
    assert CallOk(s, t, s.calls[t]) && CallOk(s, u, s.calls[u]);
    assert FileOf(s.calls[u].message) != FileOf(s.calls[t].message);
  }

  lemma SavedKeeps(s: State, t: nat)
    requires Inv(s) && Enabled(s, Go(t)) && s.calls[t].pc.Saving? && s.calls[t].pc.stage.ToRename?
    ensures Inv(GoStep(s, t))
  {
    var n, m, pc := GoStep(s, t), s.calls[t].message, s.calls[t].pc;
    assert CallOk(s, t, s.calls[t]);
    AdvanceTouches(s.files, FileOf(m), Stored(m), pc.temp, pc.stage);
    MessageRenamed(s.files, n.files, m);
    forall u <- s.calls | u != t
      ensures Undisturbed(s, n, u, s.calls[u])
    {
      SavedDisturbsNobody(s, t, u);
    }
    Assemble(s, n, t);
  }

  lemma SavingKeeps(s: State, t: nat)
    requires Inv(s) && Enabled(s, Go(t)) && s.calls[t].pc.Saving? && !s.calls[t].pc.stage.ToRename?
    ensures Inv(GoStep(s, t))
  {
    var m, pc := s.calls[t].message, s.calls[t].pc;
    assert CallOk(s, t, s.calls[t]);
    AdvanceTouches(s.files, FileOf(m), Stored(m), pc.temp, pc.stage);
    QuietStep(s, GoStep(s, t), t);
  }

  lemma CompleteKeepsIndexes(s: State, t: nat)
    requires Inv(s) && Enabled(s, Go(t)) && s.calls[t].pc.Indexing? && s.calls[t].pc.stage.ToRename?
    requires CallOk(s, t, s.calls[t])
    ensures var n, m := GoStep(s, t), s.calls[t].message;
            && DiskOk(n.files) && OnlyChanges(s.files, n.files, IndexFile(m.session), Index(s.calls[t].pc.entries))
            && IndexOf(n.files, m.session) == s.calls[t].pc.entries
            && forall other :: other != m.session ==> IndexOf(n.files, other) == IndexOf(s.files, other)
  {
    var n, m, pc := GoStep(s, t), s.calls[t].message, s.calls[t].pc;
    AdvanceTouches(s.files, IndexFile(m.session), Index(pc.entries), pc.temp, pc.stage);
    NamedExtend(s.files, m, if pc.failed then [] else IndexOf(s.files, m.session));
    IndexRenamed(s.files, n.files, m.session, pc.entries);
  }

  lemma CompleteExtends(s: State, t: nat, session: string)
    requires Inv(s) && Enabled(s, Go(t)) && s.calls[t].pc.Indexing? && s.calls[t].pc.stage.ToRename?
    requires CallOk(s, t, s.calls[t])
    ensures Distinct(IndexOf(GoStep(s, t).files, session))
  {
    CompleteKeepsIndexes(s, t);
    assert Distinct(IndexOf(s.files, session));
  }

  lemma CompleteDisturbsNobody(s: State, t: nat, u: nat)
    requires Inv(s) && Enabled(s, Go(t)) && s.calls[t].pc.Indexing? && s.calls[t].pc.stage.ToRename?
    requires CallOk(s, t, s.calls[t]) && u in s.calls && u != t
    ensures Undisturbed(s, GoStep(s, t), u, s.calls[u])
  {
    CompleteKeepsIndexes(s, t);
    assert CallOk(s, u, s.calls[u]) && FileOf(s.calls[u].message) != FileOf(s.calls[t].message);
  }

  lemma CompleteKeeps(s: State, t: nat)
    requires Inv(s) && Enabled(s, Go(t)) && s.calls[t].pc.Indexing? && s.calls[t].pc.stage.ToRename?
    ensures Inv(GoStep(s, t))
  {
    var n := GoStep(s, t);
    assert CallOk(s, t, s.calls[t]);
    CompleteKeepsIndexes(s, t);
    forall session
      ensures Distinct(IndexOf(n.files, session))
    {
      CompleteExtends(s, t, session);
    }
    forall u <- s.calls | u != t
      ensures Undisturbed(s, n, u, s.calls[u])
    {
      CompleteDisturbsNobody(s, t, u);
    }
    Assemble(s, n, t);
  }

  lemma IndexingKeeps(s: State, t: nat)
    requires Inv(s) && Enabled(s, Go(t)) && s.calls[t].pc.Indexing? && !s.calls[t].pc.stage.ToRename?
    ensures Inv(GoStep(s, t))
  {
    var n, m, pc := GoStep(s, t), s.calls[t].message, s.calls[t].pc;
    assert CallOk(s, t, s.calls[t]);
    AdvanceTouches(s.files, IndexFile(m.session), Index(pc.entries), pc.temp, pc.stage);
    assert SameRecord(s.files, n.files, FileOf(m));
    QuietStep(s, n, t);
  }

  lemma FaultKeeps(s: State, t: nat)
    requires Inv(s) && Enabled(s, Fault(t))
    ensures Inv(FaultStep(s, t))
  {
    var pc := s.calls[t].pc;
    assert CallOk(s, t, s.calls[t]);
    AbortTouches(s.files, pc.temp, pc.stage);
    QuietStep(s, FaultStep(s, t), t);
  }

  // The steps that touch no file.

  lemma StartedOk(s: State, t: nat)
    requires Enabled(s, Go(t)) && s.calls[t].pc.ToSave? && CallOk(s, t, s.calls[t])
    ensures var n := GoStep(s, t); CallOk(n, t, n.calls[t])
  {
    var n, m := GoStep(s, t), s.calls[t].message;
    assert n.files == s.files && n.calls[t].message == m;
    assert n.calls[t].pc.Failed? || n.calls[t].pc == Saving(s.nextTemp, ToCreate);
    assert s.storeLock != Some(t) && n.storeLock == if n.calls[t].pc.Failed? then s.storeLock else Some(t);
  }

  lemma StartKeeps(s: State, t: nat)
    requires Inv(s) && Enabled(s, Go(t)) && s.calls[t].pc.ToSave?
    ensures Inv(GoStep(s, t))
  {
    assert CallOk(s, t, s.calls[t]);
    StartedOk(s, t);
    QuietStep(s, GoStep(s, t), t);
  }

  lemma LockKeeps(s: State, t: nat)
    requires Inv(s) && Enabled(s, Go(t)) && (s.calls[t].pc.ToLock? || s.calls[t].pc.HasLock?)
    ensures Inv(GoStep(s, t))
  {
    assert CallOk(s, t, s.calls[t]);
    QuietStep(s, GoStep(s, t), t);
  }

  lemma LoadKeeps(s: State, t: nat)
    requires Inv(s) && Enabled(s, Go(t)) && (s.calls[t].pc.ToLoad? || s.calls[t].pc.ToIndex?)
    ensures Inv(GoStep(s, t))
  {
    assert CallOk(s, t, s.calls[t]);
    QuietStep(s, GoStep(s, t), t);
  }

  lemma StepKeeps(s: State, step: Step)
    requires Inv(s) && Enabled(s, step)
    ensures Inv(Apply(s, step))
  {
    match step
    case Begin(t, m) => BeginKeeps(s, t, m);
    case Go(t) =>
      if s.calls[t].pc.Saving? {
        if s.calls[t].pc.stage.ToRename? {
          SavedKeeps(s, t);
        } else {
          SavingKeeps(s, t);
        }
      } else if s.calls[t].pc.Indexing? {
        if s.calls[t].pc.stage.ToRename? {
          CompleteKeeps(s, t);
        } else {
          IndexingKeeps(s, t);
        }
      } else if s.calls[t].pc.ToSave? {
        StartKeeps(s, t);
      } else if s.calls[t].pc.ToLock? || s.calls[t].pc.HasLock? {
        LockKeeps(s, t);
      } else {
        LoadKeeps(s, t);
      }
    case Fault(t) => FaultKeeps(s, t);
    case LoadFault(t) =>
      assert CallOk(s, t, s.calls[t]);
      QuietStep(s, Apply(s, step), t);
    case Crash =>
  }

  lemma BeginKeeps(s: State, t: nat, m: Message)
    requires Inv(s) && Enabled(s, Begin(t, m))
    ensures Inv(Apply(s, Begin(t, m)))
  {
    var n := Apply(s, Begin(t, m));
    assert RecordOk(s.files, IndexFile(m.session));
    forall u <- n.calls
      ensures CallOk(n, u, n.calls[u])
    {
      if u != t {
        assert CallOk(s, u, s.calls[u]);
        OtherKeeps(s, n, u, s.calls[u]);
      }
    }
  }

  lemma {:induction false} RunKeeps(states: seq<State>, steps: seq<Step>, i: nat)
    requires IsRun(states, steps) && i < |states|
    ensures Inv(states[i])
  {
    if i > 0 {
      RunKeeps(states, steps, i - 1);
      StepKeeps(states[i - 1], steps[i - 1]);
    }
  }

  // ---- What a reader of the directory can rely on -----------------------------------------

  /** In every reachable state, between any two file operations and after any crash, every
  record file is whole and is the record its name says, and every index entry names a
  stored message of the same type, size and time, each message once. */
  lemma DiskIsAlwaysWhole(states: seq<State>, steps: seq<Step>, i: nat, session: string)
    requires IsRun(states, steps) && i < |states|
    ensures forall t :: RecordOk(states[i].files, t)
    ensures Named(states[i].files, session, IndexOf(states[i].files, session))
    ensures Distinct(IndexOf(states[i].files, session))
  {
    RunKeeps(states, steps, i);
    assert RecordOk(states[i].files, IndexFile(session));
  }

  /** The entry has the message's id, type and time, and the length of its content. */
  predicate Describes(e: Entry, m: Message) {
    e.id == m.id && e.typ == m.typ && e.createdAt == m.createdAt && e.byteSize == |m.content|
  }

  lemma {:induction false} ListedIsFound(files: Files, session: string, entries: seq<Entry>)
    requires DiskOk(files) && Named(files, session, entries)
    ensures var found := Found(files, session, Ids(entries));
            |found| == |entries| && forall i :: 0 <= i < |entries| ==> Describes(entries[i], found[i])
  {
    if entries != [] {
      assert entries[0] in entries && RecordOk(files, MessageFile(session, entries[0].id));
      assert Ids(entries)[1..] == Ids(entries[1..]);
      ListedIsFound(files, session, entries[1..]);
    }
  }

  function Ids(entries: seq<Entry>): seq<string> {
    seq(|entries|, i requires 0 <= i < |entries| => entries[i].id)
  }

  /** The step with which call t's rename puts its index in place. */
  predicate Finishes(s: State, step: Step, session: string) {
    step.Go? && step.t in s.calls && s.calls[step.t].message.session == session
    && s.calls[step.t].pc.Indexing? && s.calls[step.t].pc.stage.ToRename?
  }

  /** What the rename of a call installs, and where. */
  function Goal(s: State, c: Call): (Target, Content)
    requires Busy(c.pc)
  {
    if c.pc.Saving? then (FileOf(c.message), Stored(c.message))
    else (IndexFile(c.message.session),
          Index((if c.pc.failed then [] else IndexOf(s.files, c.message.session)) + [EntryOf(c.message)]))
  }

  predicate Renames(s: State, step: Step) {
    step.Go? && step.t in s.calls && Busy(s.calls[step.t].pc) && s.calls[step.t].pc.stage.ToRename?
  }

  lemma RenameInstalls(s: State, t: nat)
    requires Renames(s, Go(t)) && Enabled(s, Go(t)) && CallOk(s, t, s.calls[t])
    ensures var (target, content) := Goal(s, s.calls[t]); OnlyChanges(s.files, GoStep(s, t).files, target, content)
  {
    var (target, content) := Goal(s, s.calls[t]);
    AdvanceTouches(s.files, target, content, s.calls[t].pc.temp, s.calls[t].pc.stage);
  }

  lemma OthersInstallNothing(s: State, step: Step)
    requires Enabled(s, step) && !Renames(s, step) && (step.Go? ==> CallOk(s, step.t, s.calls[step.t]))
    ensures SameRecords(s.files, Apply(s, step).files)
  {
    if step.Go? && Busy(s.calls[step.t].pc) {
      var (target, content) := Goal(s, s.calls[step.t]);
      AdvanceTouches(s.files, target, content, s.calls[step.t].pc.temp, s.calls[step.t].pc.stage);
    }
  }

  lemma StepOldOrNew(s: State, step: Step, a: Target)
    requires Inv(s) && Enabled(s, step)
    ensures SameRecord(s.files, Apply(s, step).files, a)
            || (Renames(s, step) && var (target, content) := Goal(s, s.calls[step.t]);
                a == target && Has(Apply(s, step).files, a, content))
  {
    assert step.Go? ==> CallOk(s, step.t, s.calls[step.t]);
    if Renames(s, step) {
      RenameInstalls(s, step.t);
    } else {
      OthersInstallNothing(s, step);
    }
  }

  /** Only a finishing Append changes an index, and by its own entry: at the end of what was
  there, or alone when it could not read what was there. */
  lemma StepOnIndex(s: State, step: Step, session: string)
    requires Inv(s) && Enabled(s, step)
    ensures IndexOf(Apply(s, step).files, session) ==
            if Finishes(s, step, session) then
              (if s.calls[step.t].pc.failed then [] else IndexOf(s.files, session)) + [EntryOf(s.calls[step.t].message)]
            else IndexOf(s.files, session)
  {
    assert step.Go? ==> CallOk(s, step.t, s.calls[step.t]);
    if Renames(s, step) {
      RenameInstalls(s, step.t);
    } else {
      OthersInstallNothing(s, step);
    }
    assert SameRecord(s.files, Apply(s, step).files, IndexFile(session)) || Finishes(s, step, session);
  }

  /** A step loses index entries exactly when it finishes an Append that could not load the
  entries that were there. */
  lemma LosesExactlyAfterFailedLoad(s: State, step: Step, session: string)
    requires Inv(s) && Enabled(s, step)
    ensures IndexOf(s.files, session) <= IndexOf(Apply(s, step).files, session)
            <==> !(Finishes(s, step, session) && s.calls[step.t].pc.failed && IndexOf(s.files, session) != [])
  {
    StepOnIndex(s, step, session);
    if Finishes(s, step, session) {
      assert CallOk(s, step.t, s.calls[step.t]);
      var was := IndexOf(s.files, session);
      assert was != [] ==> was[0] in was && was[0] != EntryOf(s.calls[step.t].message);
    }
  }

  /** The old-or-new guarantee: at every step of every run each record keeps its content, or
  the step is the rename of some Append, this is its one target, and it now holds the
  complete new content: a message that had no file before, or an index with the new entry
  after the entries that were loaded, which are none when loading failed. */
  lemma OldOrNew(states: seq<State>, steps: seq<Step>, i: nat, a: Target)
    requires IsRun(states, steps) && i < |steps|
    ensures SameRecord(states[i].files, states[i + 1].files, a)
            || (Renames(states[i], steps[i]) && var (target, content) := Goal(states[i], states[i].calls[steps[i].t]);
                && a == target && Has(states[i + 1].files, a, content)
                && (a.MessageFile? ==> Record(a) !in states[i].files))
  {
    RunKeeps(states, steps, i);
    StepOldOrNew(states[i], steps[i], a);
    if Renames(states[i], steps[i]) {
      assert CallOk(states[i], steps[i].t, states[i].calls[steps[i].t]);
    }
  }

  // ---- Whole runs ---------------------------------------------------------------------------

  /** The entries of the Appends to a session that finished in steps from..to, in order,
  which FinishOrderIsLockOrder shows to be the order in which they took the mutex. */
  ghost function Finished(states: seq<State>, steps: seq<Step>, session: string, from: nat, to: nat): seq<Entry>
    requires IsRun(states, steps) && from <= to < |states|
  {
    if from == to then []
    else Finished(states, steps, session, from, to - 1)
         + if Finishes(states[to - 1], steps[to - 1], session)
           then [EntryOf(states[to - 1].calls[steps[to - 1].t].message)] else []
  }

  /** The step of the last Append to finish after its index load had failed, or 0. */
  ghost function Reset(states: seq<State>, steps: seq<Step>, session: string, to: nat): (r: nat)
    requires IsRun(states, steps) && to < |states|
    ensures r <= to
  {
    if to == 0 then 0
    else
      var s, step := states[to - 1], steps[to - 1];
      if Finishes(s, step, session) && s.calls[step.t].pc.failed then to - 1 else Reset(states, steps, session, to - 1)
  }

  /** The index is the list of the finished Appends since the last reset: none is lost,
  reordered or repeated, whatever the interleaving, the faults and the crashes. */
  lemma {:induction false} IndexIsHistory(states: seq<State>, steps: seq<Step>, session: string, i: nat)
    requires IsRun(states, steps) && i < |states|
    ensures IndexOf(states[i].files, session) == Finished(states, steps, session, Reset(states, steps, session, i), i)
  {
    if i > 0 {
      var s, step := states[i - 1], steps[i - 1];
      IndexIsHistory(states, steps, session, i - 1);
      RunKeeps(states, steps, i - 1);
      StepOnIndex(s, step, session);
      if Finishes(s, step, session) && s.calls[step.t].pc.failed {
        assert Finished(states, steps, session, i - 1, i - 1) == [];
      }
    }
  }

  ghost predicate NoLoadFault(steps: seq<Step>)
  {
    forall step <- steps :: !step.LoadFault?
  }

  ghost predicate NoneFailed(s: State)
  {
    forall t <- s.calls :: var pc := s.calls[t].pc; pc.ToIndex? || pc.Indexing? ==> !pc.failed
  }

  lemma StepFailsNone(s: State, step: Step)
    requires NoneFailed(s) && Enabled(s, step) && !step.LoadFault?
    ensures NoneFailed(Apply(s, step))
  {
    var n := Apply(s, step);
    forall t <- n.calls
      ensures var pc := n.calls[t].pc; pc.ToIndex? || pc.Indexing? ==> !pc.failed
    {
      assert t in s.calls ==> var pc := s.calls[t].pc; pc.ToIndex? || pc.Indexing? ==> !pc.failed;
    }
  }

  lemma {:induction false} NothingFailed(states: seq<State>, steps: seq<Step>, i: nat)
    requires IsRun(states, steps) && i < |states| && NoLoadFault(steps)
    ensures NoneFailed(states[i])
  {
    if i > 0 {
      NothingFailed(states, steps, i - 1);
      assert steps[i - 1] in steps;
      StepFailsNone(states[i - 1], steps[i - 1]);
    }
  }

  lemma {:induction false} NeverReset(states: seq<State>, steps: seq<Step>, session: string, i: nat)
    requires IsRun(states, steps) && i < |states| && NoLoadFault(steps)
    ensures Reset(states, steps, session, i) == 0
  {
    if i > 0 {
      NothingFailed(states, steps, i - 1);
      NeverReset(states, steps, session, i - 1);
    }
  }

  /** Without load errors the index is exactly the entries of all finished Appends. */
  lemma IndexIsFinished(states: seq<State>, steps: seq<Step>, session: string, i: nat)
    requires IsRun(states, steps) && i < |states| && NoLoadFault(steps)
    ensures IndexOf(states[i].files, session) == Finished(states, steps, session, 0, i)
  {
    IndexIsHistory(states, steps, session, i);
    NeverReset(states, steps, session, i);
  }

  lemma IndexGrows(states: seq<State>, steps: seq<Step>, session: string, i: nat)
    requires IsRun(states, steps) && i < |steps| && NoLoadFault(steps)
    ensures IndexOf(states[i].files, session) <= IndexOf(states[i + 1].files, session)
  {
    RunKeeps(states, steps, i);
    NothingFailed(states, steps, i);
    LosesExactlyAfterFailedLoad(states[i], steps[i], session);
  }

  /** Without load errors the index only grows, by appending. */
  lemma {:induction false} IndexOnlyGrows(states: seq<State>, steps: seq<Step>, session: string, i: nat, j: nat)
    requires IsRun(states, steps) && i <= j < |states| && NoLoadFault(steps)
    ensures IndexOf(states[i].files, session) <= IndexOf(states[j].files, session)
  {
    if i < j {
      IndexOnlyGrows(states, steps, session, i, j - 1);
      IndexGrows(states, steps, session, j - 1);
    }
  }

  ghost predicate Listed(s: State, m: Message)
  {
    EntryOf(m) in IndexOf(s.files, m.session) && Has(s.files, FileOf(m), Stored(m))
  }

  lemma ListedStays(s: State, step: Step, m: Message)
    requires Inv(s) && NoneFailed(s) && Enabled(s, step) && Listed(s, m)
    ensures Listed(Apply(s, step), m)
  {
    StepOnIndex(s, step, m.session);
    StepOldOrNew(s, step, FileOf(m));
    assert step.Go? ==> CallOk(s, step.t, s.calls[step.t]);
  }

  lemma GoSucceeds(s: State, t: nat)
    requires Enabled(s, Go(t)) && GoStep(s, t).calls[t].pc.Succeeded?
    ensures s.calls[t].pc.Indexing? && s.calls[t].pc.stage.ToRename?
  {
  }

  lemma SucceedsByFinishing(s: State, step: Step, t: nat)
    requires Enabled(s, step) && t in Apply(s, step).calls && Apply(s, step).calls[t].pc.Succeeded?
    ensures t in s.calls && s.calls[t].message == Apply(s, step).calls[t].message
    ensures s.calls[t].pc.Succeeded? || (step == Go(t) && Renames(s, step) && s.calls[t].pc.Indexing?)
  {
    if step == Go(t) {
      GoSucceeds(s, t);
    }
  }

  lemma FinishingLists(s: State, t: nat)
    requires Inv(s) && Renames(s, Go(t)) && s.calls[t].pc.Indexing?
    ensures Listed(GoStep(s, t), s.calls[t].message)
  {
    var m := s.calls[t].message;
    assert CallOk(s, t, s.calls[t]);
    RenameInstalls(s, t);
    assert SameRecord(s.files, GoStep(s, t).files, FileOf(m));
  }

  lemma ListedNext(states: seq<State>, steps: seq<Step>, i: nat, m: Message)
    requires IsRun(states, steps) && i < |steps| && NoLoadFault(steps) && Listed(states[i], m)
    ensures Listed(states[i + 1], m)
  {
    RunKeeps(states, steps, i);
    NothingFailed(states, steps, i);
    ListedStays(states[i], steps[i], m);
  }

  lemma SuccessNext(states: seq<State>, steps: seq<Step>, i: nat, t: nat)
    requires IsRun(states, steps) && i < |steps| && t in states[i + 1].calls && states[i + 1].calls[t].pc.Succeeded?
    ensures t in states[i].calls && states[i].calls[t].message == states[i + 1].calls[t].message
    ensures states[i].calls[t].pc.Succeeded? || Listed(states[i + 1], states[i].calls[t].message)
  {
    SucceedsByFinishing(states[i], steps[i], t);
    if !states[i].calls[t].pc.Succeeded? {
      RunKeeps(states, steps, i);
      FinishingLists(states[i], t);
    }
  }

  lemma {:induction false} ListedSinceSuccess(states: seq<State>, steps: seq<Step>, i: nat, t: nat)
    requires IsRun(states, steps) && i < |states| && NoLoadFault(steps)
    requires t in states[i].calls && states[i].calls[t].pc.Succeeded?
    ensures Listed(states[i], states[i].calls[t].message)
  {
    if i > 0 {
      SuccessNext(states, steps, i - 1, t);
      if states[i - 1].calls[t].pc.Succeeded? {
        ListedSinceSuccess(states, steps, i - 1, t);
        ListedNext(states, steps, i - 1, states[i].calls[t].message);
      }
    }
  }

  /** Without load errors, a successful Append's message is stored and listed ever after,
  crashes included. */
  lemma {:induction false} SuccessIsListed(states: seq<State>, steps: seq<Step>, i: nat, j: nat, t: nat)
    requires IsRun(states, steps) && i <= j < |states| && NoLoadFault(steps)
    requires t in states[i].calls && states[i].calls[t].pc.Succeeded?
    ensures Listed(states[j], states[i].calls[t].message)
  {
    if i == j {
      ListedSinceSuccess(states, steps, i, t);
    } else {
      SuccessIsListed(states, steps, i, j - 1, t);
      ListedNext(states, steps, j - 1, states[i].calls[t].message);
    }
  }

  /** Two Appends to one session are never both between load and rename. */
  lemma OneIndexer(states: seq<State>, steps: seq<Step>, i: nat, t: nat, u: nat)
    requires IsRun(states, steps) && i < |states| && t in states[i].calls && u in states[i].calls
    requires Locked(states[i].calls[t].pc) && Locked(states[i].calls[u].pc)
    requires states[i].calls[t].message.session == states[i].calls[u].message.session
    ensures t == u
  {
    RunKeeps(states, steps, i);
    assert CallOk(states[i], t, states[i].calls[t]) && CallOk(states[i], u, states[i].calls[u]);
  }

  // ---- The lock order ------------------------------------------------------------------

  predicate Holds(s: State, t: nat) {
    t in s.calls && Locked(s.calls[t].pc)
  }

  /** The step with which a call takes its session's mutex. */
  predicate TakesMutex(s: State, step: Step, session: string) {
    step.Go? && step.t in s.calls && s.calls[step.t].pc.HasLock? && s.calls[step.t].message.session == session
  }

  /** Step p takes the mutex for the Append to `session` that finishes at step i, and that
  Append holds it in between. */
  ghost predicate TakenFor(states: seq<State>, steps: seq<Step>, session: string, p: nat, i: nat)
    requires IsRun(states, steps) && p < i < |steps|
  {
    && TakesMutex(states[p], steps[p], session) && Finishes(states[i], steps[i], session) && steps[p].t == steps[i].t
    && HeldFor(states, session, steps[i].t, p + 1, i)
  }

  ghost predicate HeldFor(states: seq<State>, session: string, t: nat, k: nat, i: nat)
    requires i < |states|
  {
    forall m :: k <= m <= i ==> Holds(states[m], t) && states[m].calls[t].message.session == session
  }

  /** A call comes to hold its mutex only by taking it. */
  lemma HoldsSince(s: State, step: Step, t: nat)
    requires Enabled(s, step) && Holds(Apply(s, step), t)
    ensures t in s.calls && s.calls[t].message == Apply(s, step).calls[t].message
    ensures Holds(s, t) || (step == Go(t) && s.calls[t].pc.HasLock?)
  {
    match step
    case Begin(_, _) =>
    case Go(u) =>
      if u == t {
        GoTakes(s, t);
      }
    case Fault(_) =>
    case LoadFault(_) =>
    case Crash =>
  }

  lemma GoTakes(s: State, t: nat)
    requires Enabled(s, Go(t)) && Locked(GoStep(s, t).calls[t].pc)
    ensures Locked(s.calls[t].pc) || s.calls[t].pc.HasLock?
  {
  }

  lemma HoldsSinceAt(states: seq<State>, steps: seq<Step>, k: nat, t: nat)
    requires IsRun(states, steps) && k < |steps| && Holds(states[k + 1], t)
    ensures t in states[k].calls && states[k].calls[t].message == states[k + 1].calls[t].message
    ensures Holds(states[k], t) || (steps[k] == Go(t) && states[k].calls[t].pc.HasLock?)
  {
    HoldsSince(states[k], steps[k], t);
  }

  /** Every finishing Append took the mutex, and has held it since. */
  lemma {:induction false} FinisherTook(states: seq<State>, steps: seq<Step>, session: string, k: nat, i: nat)
    returns (p: nat)
    requires IsRun(states, steps) && k <= i < |steps| && Finishes(states[i], steps[i], session)
    requires HeldFor(states, session, steps[i].t, k, i)
    ensures p < i && TakenFor(states, steps, session, p, i)
    decreases k
  {
    var t := steps[i].t;
    assert Holds(states[k], t) && k > 0;
    HoldsSinceAt(states, steps, k - 1, t);
    p := k - 1;
    if Holds(states[p], t) {
      assert HeldFor(states, session, t, p, i);
      p := FinisherTook(states, steps, session, p, i);
    }
  }

  /** Nobody takes a session's mutex while an Append to it holds it. */
  lemma HolderExcludes(s: State, step: Step, session: string, t: nat)
    requires Inv(s) && Enabled(s, step) && Holds(s, t) && s.calls[t].message.session == session
    ensures !TakesMutex(s, step, session)
  {
    assert CallOk(s, t, s.calls[t]);
    assert step.Go? ==> CallOk(s, step.t, s.calls[step.t]);
  }

  lemma FinishReleases(states: seq<State>, steps: seq<Step>, session: string, i: nat)
    requires IsRun(states, steps) && i < |steps| && Finishes(states[i], steps[i], session)
    ensures !Holds(states[i + 1], steps[i].t)
  {
    assert Enabled(states[i], steps[i]);
  }

  /** The Appends to a session finish in the order in which they took its mutex. */
  lemma FinishOrderIsLockOrder(states: seq<State>, steps: seq<Step>, session: string, p: nat, i: nat, q: nat, j: nat)
    requires IsRun(states, steps) && p < i < |steps| && q < j < |steps|
    requires TakenFor(states, steps, session, p, i) && TakenFor(states, steps, session, q, j)
    ensures p < q <==> i < j
    ensures p < q ==> i < q
  {
    if p < q <= i {
      RunKeeps(states, steps, q);
      HolderExcludes(states[q], steps[q], session, steps[i].t);
    }
    if q < p <= j {
      RunKeeps(states, steps, p);
      HolderExcludes(states[p], steps[p], session, steps[j].t);
    }
    FinishReleases(states, steps, session, i);
    FinishReleases(states, steps, session, j);
  }

  // ---- List, then GetMany ------------------------------------------------------------------

  lemma {:induction false} NamedForever(states: seq<State>, steps: seq<Step>, i: nat, j: nat, session: string)
    requires IsRun(states, steps) && i <= j < |states|
    ensures Named(states[j].files, session, IndexOf(states[i].files, session))
  {
    if i == j {
      DiskIsAlwaysWhole(states, steps, i, session);
    } else {
      NamedForever(states, steps, i, j - 1, session);
      NamedNext(states, steps, j - 1, session, IndexOf(states[i].files, session));
    }
  }

  lemma NamedNext(states: seq<State>, steps: seq<Step>, i: nat, session: string, entries: seq<Entry>)
    requires IsRun(states, steps) && i < |steps| && Named(states[i].files, session, entries)
    ensures Named(states[i + 1].files, session, entries)
  {
    forall id | Record(MessageFile(session, id)) in states[i].files
      ensures SameRecord(states[i].files, states[i + 1].files, MessageFile(session, id))
    {
      OldOrNew(states, steps, i, MessageFile(session, id));
    }
    NamedStays(states[i].files, states[i + 1].files, session, entries);
  }

  /** Every message that List showed at one moment is found by GetMany at any later one, in
  order, with the listed type, size and time, whatever Appends, faults and crashes come in
  between. */
  lemma ListThenGetMany(states: seq<State>, steps: seq<Step>, i: nat, j: nat, session: string)
    requires IsRun(states, steps) && i <= j < |states|
    ensures var entries := IndexOf(states[i].files, session);
            var found := Found(states[j].files, session, Ids(entries));
            |found| == |entries| && forall k :: 0 <= k < |entries| ==> Describes(entries[k], found[k])
  {
    NamedForever(states, steps, i, j, session);
    RunKeeps(states, steps, j);
    ListedIsFound(states[j].files, session, IndexOf(states[i].files, session));
  }
}
