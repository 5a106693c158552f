/** CleanupAll's data flow: which session list ends up on disk.

The sessions' statuses change by themselves (a terminated process takes a while to
exit), which is modelled by nondeterministic choices between polls. Locking is in
RegistryLocks. */
module Registry {
  import LC = Lifecycle

  class Session {
    var status: LC.Status
    ghost var asked: bool  // Terminate has been called

    constructor ()
      ensures status == LC.StatusRunning && !asked
    {
      status, asked := LC.StatusRunning, false;
    }

    /** Terminate, as far as the registry sees it: the session may or may not have exited
    when it returns, and never starts running again. */
    method Terminate()
      modifies this
      ensures asked && (old(status).StatusExited? ==> status.StatusExited?)
    {
      asked := true;
      if * {
        status := LC.StatusExited;
      }
    }
  }

  class Manager {
    var sessions: map<string, Session>
    var stored: map<string, LC.Status>  // the contents of sessions.json

    constructor ()
      ensures sessions == map[] && stored == map[]
    {
      sessions, stored := map[], map[];
    }

    ghost function Infos(): (infos: map<string, LC.Status>)
      reads this, sessions.Values
      ensures infos.Keys == sessions.Keys
    {
      map id | id in sessions :: sessions[id].status
    }

    method ListAll() returns (infos: map<string, LC.Status>)
      ensures infos == Infos()
    {
      infos := map id | id in sessions :: sessions[id].status;
    }

    /** Register a newly started session; it may exit at any moment after this. */
    method Create(id: string) returns (session: Session)
      modifies this
      ensures fresh(session) && session.status == LC.StatusRunning
      ensures sessions == old(sessions)[id := session] && stored == Infos()
    {
      session := new Session();
      sessions := sessions[id := session];
      stored := ListAll();
    }

    /** Remove an exited session; refuse a running one. */
    method Delete(id: string) returns (ok: bool)
      modifies this
      ensures ok <==> !(id in old(sessions) && old(sessions[id].status).StatusRunning?)
      ensures sessions == if ok then old(sessions) - {id} else old(sessions)
      ensures stored == if ok && id in old(sessions) then Infos() else old(stored)
    {
      if id !in sessions {
        assert sessions - {id} == sessions;
        return true;
      }
      if sessions[id].status.StatusRunning? {
        return false;
      }
      sessions := sessions - {id};
      stored := ListAll();
      return true;
    }

    /** Time passes: any running session may exit. */
    method Elapse(cells: seq<Session>)
      modifies cells`status
      ensures forall c :: c in cells && old(c.status).StatusExited? ==> c.status.StatusExited?
    {
      for i := 0 to |cells|
        invariant forall c :: c in cells && old(c.status).StatusExited? ==> c.status.StatusExited?
      {
        if * {
          cells[i].status := LC.StatusExited;
        }
      }
    }

    method AllExited(cells: seq<Session>) returns (all: bool)
      ensures all <==> forall c :: c in cells ==> c.status.StatusExited?
    {
      for i := 0 to |cells|
        invariant forall c :: c in cells[..i] ==> c.status.StatusExited?
      {
        if cells[i].status.StatusRunning? {
          assert cells[i] in cells;
          return false;
        }
        assert cells[..i + 1] == cells[..i] + [cells[i]];
      }
      assert cells[..|cells|] == cells;
      return true;
    }

    /** `list` is the registered sessions in some order; `polls` how many times the wait
    loop looks before its deadline. What is stored is the list as it was when CleanupAll
    began, whatever the sessions did meanwhile. */
    method CleanupAll(list: seq<Session>, polls: nat) returns (sawAllExited: bool)
      requires forall c :: c in list <==> c in sessions.Values
      modifies this`stored, list
      ensures stored == old(Infos()) && sessions == old(sessions)
      ensures (forall id <- stored :: stored[id].StatusExited?)
              <==> old(forall id <- sessions :: sessions[id].status.StatusExited?)
      ensures polls > 0 && old(forall id <- sessions :: sessions[id].status.StatusExited?) ==> sawAllExited
      ensures sawAllExited ==> forall id <- sessions :: Infos()[id].StatusExited?
      ensures forall c :: c in list && old(c.status).StatusExited? ==> c.status.StatusExited?
      ensures forall c :: c in list ==> c.asked
    {
      var snapshot := ListAll();
      for i := 0 to |list|
        invariant forall c :: c in list && old(c.status).StatusExited? ==> c.status.StatusExited?
        invariant forall k :: 0 <= k < i ==> list[k].asked
      {
        list[i].Terminate();
      }
      sawAllExited := false;
      ghost var done := forall c :: c in list ==> old(c.status).StatusExited?;
      for k := 0 to polls
        invariant k > 0 ==> !done
        invariant forall c :: c in list ==> c.asked
        invariant forall c :: c in list && old(c.status).StatusExited? ==> c.status.StatusExited?
      {
        sawAllExited := AllExited(list);
        if sawAllExited {
          break;
        }
        Elapse(list);
      }
      if old(forall id <- sessions :: sessions[id].status.StatusExited?) {
        forall c | c in list
          ensures old(c.status).StatusExited?
        {
          assert c in sessions.Values;
        }
      }
      if sawAllExited {
        forall id <- sessions
          ensures Infos()[id].StatusExited?
        {
          assert sessions[id] in sessions.Values;
        }
      }
      stored := snapshot;
    }
  }

  /** One running session: CleanupAll terminates it and sees it exit, and the list it stores
  still shows it running. */
  method StoredStillRunning() returns (manager: Manager)
    ensures "a" in manager.sessions && manager.sessions["a"].status.StatusExited?
    ensures manager.stored == map["a" := LC.StatusRunning]
  {
    manager := new Manager();
    var session := manager.Create("a");
    assert manager.sessions == map["a" := session] && manager.sessions["a"] == session;
    assert manager.Infos() == map["a" := LC.StatusRunning];
    var sawAllExited := manager.CleanupAll([session], 1);
    if !sawAllExited {
      session.status := LC.StatusExited;
    }
  }
}
