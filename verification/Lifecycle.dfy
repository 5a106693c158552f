/** How a session ends: one exit goroutine racing any number of Terminate calls.

A step is one statement of the exit goroutine or of one Terminate call that another
goroutine could observe. Both run the same finishing body under exitOnce (with different
exit codes and messages), so its progress is kept with the once itself. The process is
the events "it is done" and its exit code; signals, timers and other users of the
session's mutex are steps of the environment. */
module Lifecycle {
  import opened Bytes

  datatype Status = StatusRunning | StatusExited

  /** Who runs a finishing body. */
  datatype Who = ExitGoroutine | Fallback(t: nat)

  datatype Stage = ToLock | ToSetStatus | ToSetCode | ToUnlock | ToCloseBuffer | ToAppend | ToLeave

  datatype ExitOnce = Fresh | Finishing(who: Who, stage: Stage) | Finished(who: Who)

  datatype TermOnce = Unclaimed | Claimed(t: nat) | Completed

  datatype Holder = Finisher(who: Who) | Other

  datatype ExitPc = AwaitDone | CloseDone | AtExitOnce | InBody | Ended

  datatype TermPc =
    | AtTermOnce | ToSignal | InGrace | ToCloseExec | InWait
    | AtFallback | InFallback | ToReturn | Returned

  datatype Call = Call(force: bool, pc: TermPc)

  datatype Message = ProcessExited(code: int) | ProcessTerminated

  /** The fields a finishing body works on; `code` is the exit code the process will
  report. */
  datatype Session = Session(
    code: int, mu: Option<Holder>, status: Status, exitCode: Option<int>,
    bufferClosed: bool, messages: seq<Message>, exitOnce: ExitOnce)

  /** `done` says that execSession.Done() is closed, `signalled` that SIGTERM has been sent,
  `closed` that execSession.Close() has been called. */
  datatype Process = Process(done: bool, signalled: bool, closed: bool)

  datatype State = State(
    session: Session, process: Process,
    doneClosed: bool,         // the channel that stops the pumps
    termOnce: TermOnce, exitPc: ExitPc, calls: map<nat, Call>)

  datatype Step =
    | ProcessExits | OtherLocks | OtherUnlocks
    | Exit                                        // the exit goroutine's next statement
    | Start(t: nat, force: bool) | Term(t: nat)   // a Terminate call and its next statement
    | GraceExpires(t: nat) | WaitExpires(t: nat)

  function CodeOf(s: Session, who: Who): int {
    if who.ExitGoroutine? then s.code else -1
  }

  function MessageOf(s: Session, who: Who): Message {
    if who.ExitGoroutine? then ProcessExited(s.code) else ProcessTerminated
  }

  predicate BodyEnabled(s: Session) {
    s.exitOnce.Finishing? && (s.exitOnce.stage.ToLock? ==> s.mu.None?)
  }

  /** One statement of the finishing body. */
  function Body(s: Session): Session
    requires s.exitOnce.Finishing?
  {
    var who := s.exitOnce.who;
    match s.exitOnce.stage
    case ToLock => s.(mu := Some(Finisher(who)), exitOnce := Finishing(who, ToSetStatus))
    case ToSetStatus => s.(status := StatusExited, exitOnce := Finishing(who, ToSetCode))
    case ToSetCode => s.(exitCode := Some(CodeOf(s, who)), exitOnce := Finishing(who, ToUnlock))
    case ToUnlock => s.(mu := None, exitOnce := Finishing(who, ToCloseBuffer))
    case ToCloseBuffer => s.(bufferClosed := true, exitOnce := Finishing(who, ToAppend))
    case ToAppend => s.(messages := s.messages + [MessageOf(s, who)], exitOnce := Finishing(who, ToLeave))
    case ToLeave => s.(exitOnce := Finished(who))
  }

  function Claim(s: Session, who: Who): Session {
    s.(exitOnce := Finishing(who, ToLock))
  }

  predicate Enabled(s: State, step: Step) {
    match step
    case ProcessExits => true
    case OtherLocks => s.session.mu.None?
    case OtherUnlocks => s.session.mu == Some(Other)
    case Exit =>
      (match s.exitPc
       case AwaitDone => s.process.done
       case CloseDone => true
       case AtExitOnce => !s.session.exitOnce.Finishing?
       case InBody => BodyEnabled(s.session)
       case Ended => false)
    case Start(t, _) => t !in s.calls
    case Term(t) =>
      t in s.calls &&
      (match s.calls[t].pc
       case AtTermOnce => !s.termOnce.Claimed?
       case InGrace => s.process.done
       case InWait => s.process.done
       case AtFallback => !s.session.exitOnce.Finishing?
       case InFallback => BodyEnabled(s.session)
       case Returned => false
       case _ => true)
    case GraceExpires(t) => t in s.calls && s.calls[t].pc == InGrace
    case WaitExpires(t) => t in s.calls && s.calls[t].pc == InWait
  }

  function Goto(s: State, t: nat, pc: TermPc): State
    requires t in s.calls
  {
    s.(calls := s.calls[t := s.calls[t].(pc := pc)])
  }

  function ExitStep(s: State): State
    requires Enabled(s, Exit)
  {
    match s.exitPc
    case AwaitDone => s.(exitPc := CloseDone)
    case CloseDone => s.(doneClosed := true, exitPc := AtExitOnce)
    case AtExitOnce =>
      if s.session.exitOnce.Fresh? then s.(session := Claim(s.session, ExitGoroutine), exitPc := InBody)
      else s.(exitPc := Ended)
    case InBody => s.(session := Body(s.session), exitPc := if s.session.exitOnce.stage.ToLeave? then Ended else InBody)
  }

  function TermStep(s: State, t: nat): State
    requires Enabled(s, Term(t))
  {
    match s.calls[t].pc
    case AtTermOnce =>
      if s.termOnce.Completed? then Goto(s, t, Returned)
      else Goto(s, t, if s.calls[t].force then ToCloseExec else ToSignal).(termOnce := Claimed(t))
    case ToSignal => Goto(s, t, InGrace).(process := s.process.(signalled := true))
    case InGrace => Goto(s, t, ToReturn)
    case ToCloseExec => Goto(s, t, InWait).(process := s.process.(closed := true))
    case InWait => Goto(s, t, AtFallback)
    case AtFallback =>
      if s.session.exitOnce.Fresh? then Goto(s, t, InFallback).(session := Claim(s.session, Fallback(t)))
      else Goto(s, t, ToReturn)
    case InFallback =>
      Goto(s, t, if s.session.exitOnce.stage.ToLeave? then ToReturn else InFallback).(session := Body(s.session))
    case ToReturn => Goto(s, t, Returned).(termOnce := Completed)
  }

  function Apply(s: State, step: Step): State
    requires Enabled(s, step)
  {
    match step
    case ProcessExits => s.(process := s.process.(done := true))
    case OtherLocks => s.(session := s.session.(mu := Some(Other)))
    case OtherUnlocks => s.(session := s.session.(mu := None))
    case Exit => ExitStep(s)
    case Start(t, force) => s.(calls := s.calls[t := Call(force, AtTermOnce)])
    case Term(t) => TermStep(s, t)
    case GraceExpires(t) => Goto(s, t, ToCloseExec)
    case WaitExpires(t) => Goto(s, t, AtFallback)
  }

  function Init(code: int): State {
    State(Session(code, None, StatusRunning, None, false, [], Fresh),
          Process(false, false, false), false, Unclaimed, AwaitDone, map[])
  }

  ghost predicate IsRun(states: seq<State>, steps: seq<Step>)
  {
    && |states| == |steps| + 1 && states[0] == Init(states[0].session.code)
    && forall i :: 0 <= i < |steps| ==> Enabled(states[i], steps[i]) && states[i + 1] == Apply(states[i], steps[i])
  }

  // ---- The invariant ---------------------------------------------------------------

  function Rank(stage: Stage): nat {
    match stage
    case ToLock => 0
    case ToSetStatus => 1
    case ToSetCode => 2
    case ToUnlock => 3
    case ToCloseBuffer => 4
    case ToAppend => 5
    case ToLeave => 6
  }

  /** What the finishing body has done so far, and nothing else has. */
  ghost predicate FinishOk(s: Session)
  {
    match s.exitOnce
    case Fresh => s.status.StatusRunning? && s.exitCode.None? && !s.bufferClosed && s.messages == []
    case Finishing(who, stage) =>
      && (s.status.StatusExited? <==> Rank(stage) >= 2)
      && s.exitCode == (if Rank(stage) >= 3 then Some(CodeOf(s, who)) else None)
      && (s.bufferClosed <==> Rank(stage) >= 5)
      && s.messages == (if Rank(stage) >= 6 then [MessageOf(s, who)] else [])
    case Finished(who) =>
      && s.status.StatusExited? && s.exitCode == Some(CodeOf(s, who))
      && s.bufferClosed && s.messages == [MessageOf(s, who)]
  }

  ghost predicate MuOk(s: Session)
  {
    forall who :: s.mu == Some(Finisher(who)) <==>
      s.exitOnce.Finishing? && s.exitOnce.who == who && 1 <= Rank(s.exitOnce.stage) <= 3
  }

  /** The winner of exitOnce is inside its body, and entitled to be. */
  ghost predicate WinnerOk(s: State)
  {
    match s.session.exitOnce
    case Fresh => true
    case Finishing(who, _) =>
      if who.ExitGoroutine? then s.exitPc.InBody? else who.t in s.calls && s.calls[who.t].pc.InFallback?
    case Finished(who) => if who.ExitGoroutine? then s.process.done else s.process.closed
  }

  ghost predicate ExitOk(s: State)
  {
    && (!s.exitPc.AwaitDone? ==> s.process.done)
    && (s.doneClosed <==> !s.exitPc.AwaitDone? && !s.exitPc.CloseDone?)
    && (s.exitPc.InBody? ==> s.session.exitOnce.Finishing? && s.session.exitOnce.who.ExitGoroutine?)
    && (s.exitPc.Ended? ==> s.session.exitOnce.Finished?)
  }

  predicate Inside(pc: TermPc) {
    !pc.AtTermOnce? && !pc.Returned?
  }

  /** What the one Terminate that acts leaves behind: if it closed the exec session, a
  finished exit; otherwise a process that is done. */
  predicate Settled(s: State) {
    if s.process.closed then s.session.exitOnce.Finished? else s.process.done
  }

  ghost predicate CallOk(s: State, t: nat, c: Call)
  {
    && (Inside(c.pc) <==> s.termOnce == Claimed(t))
    && (c.pc.InWait? || c.pc.AtFallback? || c.pc.InFallback? ==> s.process.closed)
    && (c.pc.InFallback? ==> s.session.exitOnce.Finishing? && s.session.exitOnce.who == Fallback(t))
    && (c.pc.ToSignal? || c.pc.InGrace? || c.pc.ToCloseExec? ==> !s.process.closed)
    && (c.pc.ToReturn? ==> Settled(s))
    && (c.pc.Returned? ==> s.termOnce.Completed?)
  }

  ghost predicate Shared(s: State)
  {
    FinishOk(s.session) && MuOk(s.session) && WinnerOk(s) && ExitOk(s)
  }

  ghost predicate Inv(s: State)
  {
    && Shared(s)
    && (s.termOnce.Claimed? ==> s.termOnce.t in s.calls)
    && (s.termOnce.Unclaimed? ==> !s.process.closed)
    && (s.termOnce.Completed? ==> Settled(s))
    && forall t <- s.calls :: CallOk(s, t, s.calls[t])
  }

  lemma BodyKeeps(s: Session)
    requires BodyEnabled(s) && FinishOk(s) && MuOk(s)
    ensures FinishOk(Body(s)) && MuOk(Body(s))
  {
  }

  lemma ExitKeepsShared(s: State)
    requires Shared(s) && Enabled(s, Exit)
    ensures Shared(ExitStep(s))
  {
    if s.exitPc.InBody? {
      BodyKeeps(s.session);
    }
  }

  lemma ExitKeepsCall(s: State, t: nat, c: Call)
    requires Shared(s) && CallOk(s, t, c) && Enabled(s, Exit)
    ensures CallOk(ExitStep(s), t, c)
  {
  }

  lemma ExitKeeps(s: State)
    requires Inv(s) && Enabled(s, Exit)
    ensures Inv(ExitStep(s)) && ExitStep(s).session.code == s.session.code
  {
    ExitKeepsShared(s);
    forall t <- s.calls
      ensures CallOk(ExitStep(s), t, s.calls[t])
    {
      assert CallOk(s, t, s.calls[t]);
      ExitKeepsCall(s, t, s.calls[t]);
    }
  }

  lemma TermKeepsShared(s: State, t: nat)
    requires Shared(s) && Enabled(s, Term(t)) && CallOk(s, t, s.calls[t])
    ensures Shared(TermStep(s, t))
  {
    if s.calls[t].pc.InFallback? {
      BodyKeeps(s.session);
    }
  }

  lemma TermKeepsCall(s: State, t: nat, u: nat, c: Call)
    requires Shared(s) && Enabled(s, Term(t)) && CallOk(s, t, s.calls[t])
    requires u in s.calls && CallOk(s, u, s.calls[u]) && c == TermStep(s, t).calls[u]
    requires s.termOnce.Unclaimed? ==> !s.process.closed
    ensures CallOk(TermStep(s, t), u, c)
  {
  }

  lemma TermKeeps(s: State, t: nat)
    requires Inv(s) && Enabled(s, Term(t))
    ensures Inv(TermStep(s, t)) && TermStep(s, t).session.code == s.session.code
  {
    var n := TermStep(s, t);
    assert CallOk(s, t, s.calls[t]);
    TermKeepsShared(s, t);
    forall u <- n.calls
      ensures CallOk(n, u, n.calls[u])
    {
      assert CallOk(s, u, s.calls[u]);
      TermKeepsCall(s, t, u, n.calls[u]);
    }
  }

  lemma StepKeeps(s: State, step: Step)
    requires Inv(s) && Enabled(s, step)
    ensures Inv(Apply(s, step)) && Apply(s, step).session.code == s.session.code
  {
    match step
    case Exit => ExitKeeps(s);
    case Term(t) => TermKeeps(s, t);
    case _ =>
      var n := Apply(s, step);
      forall u <- n.calls
        ensures CallOk(n, u, n.calls[u])
      {
        assert u in s.calls ==> CallOk(s, u, s.calls[u]);
      }
  }

  lemma {:induction false} RunKeeps(states: seq<State>, steps: seq<Step>, i: nat)
    requires IsRun(states, steps) && i < |states|
    ensures Inv(states[i]) && states[i].session.code == states[0].session.code
  {
    if i > 0 {
      RunKeeps(states, steps, i - 1);
      StepKeeps(states[i - 1], steps[i - 1]);
    }
  }

  // ---- What every run guarantees ----------------------------------------------------

  ghost predicate CodeIsWinners(s: State)
  {
    && !s.session.exitOnce.Fresh?
    && if s.session.exitOnce.who.ExitGoroutine? then s.session.exitCode == Some(s.session.code) && s.process.done
       else s.session.exitCode == Some(-1) && s.process.closed
  }

  ghost predicate MessageIsWinners(s: State)
    requires |s.session.messages| == 1
  {
    && !s.session.exitOnce.Fresh?
    && s.session.messages[0] ==
       if s.session.exitOnce.who.ExitGoroutine? then ProcessExited(s.session.code) else ProcessTerminated
  }

  /** Whenever the mutex is free an exit code is present exactly when the status is
  exited, and it is the process's code unless Terminate's fallback won exitOnce, which
  takes a closed exec session. At most one exit message is ever appended. */
  lemma ExitState(states: seq<State>, steps: seq<Step>, i: nat)
    requires IsRun(states, steps) && i < |states|
    ensures var s := states[i];
            && (!s.session.mu.Some? || s.session.mu.value.Other? ==>
                  (s.session.exitCode.Some? <==> s.session.status.StatusExited?))
            && (s.session.exitCode.Some? ==> CodeIsWinners(s)) && s.session.code == states[0].session.code
            && |s.session.messages| <= 1 && (s.session.messages != [] ==> s.session.bufferClosed && MessageIsWinners(s))
  {
    RunKeeps(states, steps, i);
    var s := states[i];
    if s.session.exitOnce.Finishing? {
      if s.session.exitOnce.who.Fallback? {
        assert CallOk(s, s.session.exitOnce.who.t, s.calls[s.session.exitOnce.who.t]);
      }
      assert s.session.mu == Some(Finisher(s.session.exitOnce.who)) <==> 1 <= Rank(s.session.exitOnce.stage) <= 3;
    }
  }

  ghost predicate Follows(s: Session, n: Session)
  {
    && (s.status.StatusExited? ==> n.status.StatusExited?)
    && (s.exitCode.Some? ==> n.exitCode == s.exitCode)
    && s.messages <= n.messages
    && (s.bufferClosed ==> n.bufferClosed)
    && (!s.exitOnce.Fresh? ==> !n.exitOnce.Fresh? && n.exitOnce.who == s.exitOnce.who)
  }

  /** Status and exit code never change back, and nothing is appended twice. */
  lemma FinalStateIsFinal(states: seq<State>, steps: seq<Step>, i: nat, j: nat)
    requires IsRun(states, steps) && i <= j < |states|
    ensures Follows(states[i].session, states[j].session)
  {
    forall m: nat | i <= m < j
      ensures Follows(states[m].session, states[m + 1].session)
    {
      NextFollows(states, steps, m);
    }
    FollowsAll(states, i, j);
  }

  lemma {:induction false} FollowsAll(states: seq<State>, i: nat, j: nat)
    requires i <= j < |states| && forall m: nat :: i <= m < j ==> Follows(states[m].session, states[m + 1].session)
    ensures Follows(states[i].session, states[j].session)
  {
    if i < j {
      FollowsAll(states, i, j - 1);
      FollowsOn(states[i].session, states[j - 1].session, states[j - 1 + 1].session);
    }
  }

  lemma NextFollows(states: seq<State>, steps: seq<Step>, i: nat)
    requires IsRun(states, steps) && i < |steps|
    ensures Follows(states[i].session, states[i + 1].session)
  {
    RunKeeps(states, steps, i);
    OneStepFinal(states[i], steps[i]);
  }

  lemma FollowsOn(s: Session, n: Session, m: Session)
    requires Follows(s, n) && Follows(n, m)
    ensures Follows(s, m)
  {
  }

  lemma BodyFollows(s: Session)
    requires FinishOk(s) && s.exitOnce.Finishing?
    ensures Follows(s, Body(s))
  {
  }

  lemma OneStepFinal(s: State, step: Step)
    requires Inv(s) && Enabled(s, step)
    ensures Follows(s.session, Apply(s, step).session)
  {
    if s.session.exitOnce.Finishing? {
      BodyFollows(s.session);
    }
    match step
    case Exit =>
    case Term(t) =>
    case _ =>
  }

  lemma OneStepClaims(s: State, step: Step)
    requires Inv(s) && Enabled(s, step) && s.session.exitOnce.Fresh? && !Apply(s, step).session.exitOnce.Fresh?
    ensures Claims(s, step, Apply(s, step).session.exitOnce.who)
  {
    match step
    case Exit =>
    case Term(t) => assert CallOk(s, t, s.calls[t]);
  }

  /** A Terminate that has returned, first or repeated, leaves the process done if nobody
  closed the exec session, and otherwise the session exited for good: status, code,
  closed buffer and message. */
  lemma TerminateReturns(states: seq<State>, steps: seq<Step>, i: nat, t: nat)
    requires IsRun(states, steps) && i < |states| && t in states[i].calls && states[i].calls[t].pc.Returned?
    ensures var s := states[i];
            if s.process.closed then
              && s.session.status.StatusExited? && s.session.exitCode.Some?
              && s.session.bufferClosed && |s.session.messages| == 1
            else s.process.done
  {
    RunKeeps(states, steps, i);
    assert CallOk(states[i], t, states[i].calls[t]);
  }

  /** Steps that need nobody outside: the goroutines' own, their timers, and an unlock. */
  predicate Internal(step: Step) {
    !step.ProcessExits? && !step.OtherLocks? && !step.Start?
  }

  /** No deadlock among the two onces and the mutex: when nothing can move by itself,
  every Terminate has returned, and if the process is done the exit goroutine is too and
  the session is exited with its buffer closed and its message appended. */
  lemma QuietMeansFinished(states: seq<State>, steps: seq<Step>, i: nat)
    requires IsRun(states, steps) && i < |states|
    requires AtRest(states[i])
    ensures forall t <- states[i].calls :: states[i].calls[t].pc.Returned?
    ensures states[i].process.done ==>
              && states[i].exitPc.Ended? && states[i].doneClosed && states[i].session.status.StatusExited?
              && states[i].session.bufferClosed && |states[i].session.messages| == 1
  {
    var s := states[i];
    RunKeeps(states, steps, i);
    if s.session.exitOnce.Finishing? {
      var step := FinisherCanMove(s);
    }
    forall t <- s.calls
      ensures s.calls[t].pc.Returned?
    {
      if !s.calls[t].pc.Returned? {
        var step := CallCanMove(s, t);
      }
    }
    assert !Enabled(s, Exit);
  }

  // ---- Rest is reached -----------------------------------------------------------------

  function TermRank(pc: TermPc): nat {
    match pc
    case AtTermOnce => 8
    case ToSignal => 7
    case InGrace => 6
    case ToCloseExec => 5
    case InWait => 4
    case AtFallback => 3
    case InFallback => 2
    case ToReturn => 1
    case Returned => 0
  }

  function ExitRank(pc: ExitPc): nat {
    match pc
    case AwaitDone => 4
    case CloseDone => 3
    case AtExitOnce => 2
    case InBody => 1
    case Ended => 0
  }

  function OnceRank(once: ExitOnce): nat {
    match once
    case Fresh => 8
    case Finishing(_, stage) => 7 - Rank(stage)
    case Finished(_) => 0
  }

  function Total(calls: map<nat, Call>, n: nat): nat {
    if n == 0 then 0 else Total(calls, n - 1) + if n - 1 in calls then TermRank(calls[n - 1].pc) else 0
  }

  lemma {:induction false} TotalChange(calls: map<nat, Call>, t: nat, c: Call, n: nat)
    requires t in calls
    ensures Total(calls[t := c], n) == Total(calls, n) + if t < n then TermRank(c.pc) - TermRank(calls[t].pc) else 0
  {
    if n > 0 {
      TotalChange(calls, t, c, n - 1);
    }
  }

  /** The statements left to the exit goroutine, the finishing body and the first n calls,
  and another user's unlock. */
  function Work(s: State, n: nat): nat {
    Shares(s) + Total(s.calls, n)
  }

  function Shares(s: State): nat {
    ExitRank(s.exitPc) + OnceRank(s.session.exitOnce) + if s.session.mu == Some(Other) then 1 else 0
  }

  lemma BodyWorks(s: Session)
    requires s.exitOnce.Finishing?
    ensures OnceRank(Body(s).exitOnce) < OnceRank(s.exitOnce) && (Body(s).mu == Some(Other) ==> s.mu == Some(Other))
  {
  }

  lemma ExitWorks(s: State)
    requires Enabled(s, Exit)
    ensures Shares(ExitStep(s)) < Shares(s) && ExitStep(s).calls == s.calls
  {
    if s.exitPc.InBody? {
      BodyWorks(s.session);
    }
  }

  /** A Terminate's step does not add to the shared work, and moves that call on or the
  finishing body. */
  lemma TermWorks(s: State, t: nat)
    requires Enabled(s, Term(t))
    ensures t in TermStep(s, t).calls
    ensures Shares(TermStep(s, t)) + TermRank(TermStep(s, t).calls[t].pc) < Shares(s) + TermRank(s.calls[t].pc)
  {
    match s.calls[t].pc
    case AtFallback =>
    case InFallback => BodyWorks(s.session);
    case _ =>
  }

  lemma TermMovesOne(s: State, t: nat)
    requires Enabled(s, Term(t))
    ensures t in TermStep(s, t).calls && TermStep(s, t).calls == s.calls[t := TermStep(s, t).calls[t]]
  {
  }

  lemma InternalStepWorks(s: State, step: Step, n: nat)
    requires Enabled(s, step) && Internal(step) && forall t <- s.calls :: t < n
    ensures Work(Apply(s, step), n) < Work(s, n) && Apply(s, step).calls.Keys == s.calls.Keys
  {
    match step
    case Exit => ExitWorks(s);
    case Term(t) =>
      TermWorks(s, t);
      TermMovesOne(s, t);
      TotalChange(s.calls, t, TermStep(s, t).calls[t], n);
    case GraceExpires(t) => TotalChange(s.calls, t, s.calls[t].(pc := ToCloseExec), n);
    case WaitExpires(t) => TotalChange(s.calls, t, s.calls[t].(pc := AtFallback), n);
    case OtherUnlocks =>
  }

  /** Every Terminate returns: left alone, the goroutines and their timers come to rest
  within a bounded number of steps, and at rest every call has returned. */
  lemma {:induction false} TerminatesReturn(states: seq<State>, steps: seq<Step>, i: nat, j: nat, n: nat)
    requires IsRun(states, steps) && i <= j < |states|
    requires forall m :: i <= m < j ==> Internal(steps[m])
    requires forall t <- states[i].calls :: t < n
    ensures j - i + Work(states[j], n) <= Work(states[i], n) && states[j].calls.Keys == states[i].calls.Keys
    ensures AtRest(states[j]) ==> forall t <- states[i].calls :: t in states[j].calls && states[j].calls[t].pc.Returned?
  {
    if i < j {
      TerminatesReturn(states, steps, i, j - 1, n);
      assert forall t <- states[j - 1].calls :: t in states[i].calls;
      InternalStepWorks(states[j - 1], steps[j - 1], n);
      assert states[j] == Apply(states[j - 1], steps[j - 1]);
    }
    if AtRest(states[j]) {
      QuietMeansFinished(states, steps, j);
    }
  }

  ghost predicate AtRest(s: State)
  {
    forall step :: Internal(step) ==> !Enabled(s, step)
  }

  lemma FinisherCanMove(s: State) returns (step: Step)
    requires Inv(s) && s.session.exitOnce.Finishing?
    ensures Internal(step) && Enabled(s, step)
  {
    var who := s.session.exitOnce.who;
    if s.session.exitOnce.stage.ToLock? && s.session.mu == Some(Other) {
      step := OtherUnlocks;
    } else {
      assert s.session.mu.Some? && s.session.mu.value.Finisher? ==> 1 <= Rank(s.session.exitOnce.stage);
      step := if who.ExitGoroutine? then Exit else Term(who.t);
    }
  }

  lemma CallCanMove(s: State, t: nat) returns (step: Step)
    requires Inv(s) && !s.session.exitOnce.Finishing? && t in s.calls && !s.calls[t].pc.Returned?
    ensures Internal(step) && Enabled(s, step)
  {
    var u := if s.calls[t].pc.AtTermOnce? && s.termOnce.Claimed? then s.termOnce.t else t;
    assert CallOk(s, u, s.calls[u]);
    if s.calls[u].pc.InGrace? {
      step := GraceExpires(u);
    } else if s.calls[u].pc.InWait? {
      step := WaitExpires(u);
    } else {
      step := Term(u);
    }
  }

  // ---- The exit goroutine is not the only authority -----------------------------------

  /** A forced Terminate of a process that exits with code 0 can still record -1: the
  process is done, but the fallback reaches exitOnce before the exit goroutine does. */
  function RaceStep(i: nat): Step {
    match i
    case 0 => Start(0, true)
    case 3 => ProcessExits
    case _ => Term(0)
  }

  /** The race, just before and while the fallback finishes. */
  function Racing(s: Session, done: bool, pc: TermPc): State {
    State(s, Process(done, false, true), false, Claimed(0), AwaitDone, map[0 := Call(true, pc)])
  }

  function RaceState(i: nat): State {
    var s := Init(0).session;
    var claimed := Claim(s, Fallback(0));
    var locked := claimed.(mu := Some(Finisher(Fallback(0))), exitOnce := Finishing(Fallback(0), ToSetStatus));
    match i
    case 0 => Init(0)
    case 1 => Init(0).(calls := map[0 := Call(true, AtTermOnce)])
    case 2 => Init(0).(termOnce := Claimed(0), calls := map[0 := Call(true, ToCloseExec)])
    case 3 => Racing(s, false, InWait)
    case 4 => Racing(s, true, InWait)
    case 5 => Racing(s, true, AtFallback)
    case 6 => Racing(claimed, true, InFallback)
    case 7 => Racing(locked, true, InFallback)
    case 8 => Racing(locked.(status := StatusExited, exitOnce := Finishing(Fallback(0), ToSetCode)), true, InFallback)
    case _ =>
      var coded := locked.(status := StatusExited, exitCode := Some(-1), exitOnce := Finishing(Fallback(0), ToUnlock));
      Racing(coded, true, InFallback)
  }

  lemma RaceSteps(i: nat)
    requires i < 9
    ensures Enabled(RaceState(i), RaceStep(i)) && RaceState(i + 1) == Apply(RaceState(i), RaceStep(i))
  {
    assert RaceState(i + 1).calls == Apply(RaceState(i), RaceStep(i)).calls;
  }

  lemma FallbackCanBeatExitGoroutine() returns (states: seq<State>, steps: seq<Step>)
    ensures IsRun(states, steps) && |steps| == 9
    ensures states[9].process.done && states[9].session.code == 0 && states[9].session.exitCode == Some(-1)
  {
    states, steps := seq(10, i requires 0 <= i < 10 => RaceState(i)), seq(9, i requires 0 <= i < 9 => RaceStep(i));
    forall i | 0 <= i < 9
      ensures Enabled(states[i], steps[i]) && states[i + 1] == Apply(states[i], steps[i])
    {
      RaceSteps(i);
    }
  }

  /** The goroutine's (or a fallback's) step that claims exitOnce. */
  predicate Claims(s: State, step: Step, who: Who) {
    && s.session.exitOnce.Fresh?
    && if who.ExitGoroutine? then step == Exit && s.exitPc.AtExitOnce?
       else step == Term(who.t) && who.t in s.calls && s.calls[who.t].pc.AtFallback?
  }

  /** The recorded code is the process's exactly when the exit goroutine is the one that
  claims exitOnce; a fallback's claim comes only after Close. */
  lemma {:induction false} FirstClaimDecides(states: seq<State>, steps: seq<Step>, i: nat) returns (k: nat)
    requires IsRun(states, steps) && i < |states| && states[i].session.exitCode.Some?
    ensures k < i && !states[i].session.exitOnce.Fresh? && Claims(states[k], steps[k], states[i].session.exitOnce.who)
    ensures states[i].session.exitCode ==
            Some(if Claims(states[k], steps[k], ExitGoroutine) then states[0].session.code else -1)
    ensures !Claims(states[k], steps[k], ExitGoroutine) ==> states[k].process.closed
  {
    ExitState(states, steps, i);
    k := ClaimOf(states, steps, i);
    RunKeeps(states, steps, k);
    if steps[k].Term? {
      assert CallOk(states[k], steps[k].t, states[k].calls[steps[k].t]);
    }
  }

  lemma {:induction false} ClaimOf(states: seq<State>, steps: seq<Step>, i: nat) returns (k: nat)
    requires IsRun(states, steps) && i < |states| && !states[i].session.exitOnce.Fresh?
    ensures k < i && Claims(states[k], steps[k], states[i].session.exitOnce.who)
  {
    k := i - 1;
    RunKeeps(states, steps, k);
    if states[k].session.exitOnce.Fresh? {
      OneStepClaims(states[k], steps[k]);
    } else {
      OneStepFinal(states[k], steps[k]);
      k := ClaimOf(states, steps, k);
    }
  }
}
