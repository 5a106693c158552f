/** Why a Terminate does what it does: a graceful one signals and waits, and closes the exec
session only after its grace period; a fallback claims the exit only after waiting for the
process. */
module Termination {
  import opened Bytes
  import opened Lifecycle

  /** The calls whose grace period has run out in the first i steps. */
  function GraceOver(steps: seq<Step>, i: nat): set<nat>
    requires i <= |steps|
  {
    if i == 0 then {}
    else GraceOver(steps, i - 1) + if steps[i - 1].GraceExpires? then {steps[i - 1].t} else {}
  }

  /** The calls that have given up waiting for the closed process. */
  function WaitOver(steps: seq<Step>, i: nat): set<nat>
    requires i <= |steps|
  {
    if i == 0 then {}
    else WaitOver(steps, i - 1) + if steps[i - 1].WaitExpires? then {steps[i - 1].t} else {}
  }

  /** Forced, or out of patience. */
  predicate MayClose(s: State, t: nat, graceOver: set<nat>) {
    t in s.calls && (s.calls[t].force || t in graceOver)
  }

  predicate Closing(pc: TermPc) {
    pc.ToCloseExec? || pc.InWait? || pc.AtFallback? || pc.InFallback?
  }

  ghost predicate CallReason(s: State, t: nat, graceOver: set<nat>, waitOver: set<nat>)
    requires t in s.calls
  {
    var c := s.calls[t];
    && (c.pc.ToSignal? || c.pc.InGrace? ==> !c.force)
    && (Inside(c.pc) && !c.pc.ToSignal? && !c.force ==> s.process.signalled)
    && (Closing(c.pc) ==> MayClose(s, t, graceOver))
    && (c.pc.AtFallback? || c.pc.InFallback? ==> s.process.done || t in waitOver)
    && (t in graceOver ==> !c.force && s.process.signalled)
  }

  ghost predicate Reasons(s: State, graceOver: set<nat>, waitOver: set<nat>)
  {
    && (forall t <- s.calls :: CallReason(s, t, graceOver, waitOver))
    && (forall t <- graceOver :: t in s.calls)
    && (s.process.signalled ==> exists t :: t in s.calls && !s.calls[t].force)
    && (s.process.closed ==> exists t :: MayClose(s, t, graceOver))
    && (!s.session.exitOnce.Fresh? && s.session.exitOnce.who.Fallback? ==>
          var t := s.session.exitOnce.who.t; MayClose(s, t, graceOver) && (s.process.done || t in waitOver))
  }

  lemma TermReason(s: State, t: nat, u: nat, graceOver: set<nat>, waitOver: set<nat>)
    requires Enabled(s, Term(t)) && CallReason(s, t, graceOver, waitOver)
    requires u in s.calls && CallReason(s, u, graceOver, waitOver)
    ensures u in TermStep(s, t).calls && CallReason(TermStep(s, t), u, graceOver, waitOver)
  {
    match s.calls[t].pc
    case AtTermOnce =>
    case ToSignal =>
    case InGrace =>
    case ToCloseExec =>
    case InWait =>
    case AtFallback =>
    case InFallback =>
    case ToReturn =>
  }

  /** What a step of call t does to the shared facts that need a reason. */
  lemma TermShared(s: State, t: nat)
    requires Enabled(s, Term(t)) && (s.calls[t].pc.InFallback? ==> s.session.exitOnce.Finishing?)
    ensures var n := TermStep(s, t);
            && n.calls.Keys == s.calls.Keys && n.process.done == s.process.done
            && (forall u <- s.calls :: n.calls[u].force == s.calls[u].force)
            && (n.process.signalled <==> s.process.signalled || s.calls[t].pc.ToSignal?)
            && (n.process.closed <==> s.process.closed || s.calls[t].pc.ToCloseExec?)
            && (if s.session.exitOnce.Fresh? && s.calls[t].pc.AtFallback? then
                  n.session.exitOnce == Finishing(Fallback(t), ToLock)
                else (n.session.exitOnce.Fresh? <==> s.session.exitOnce.Fresh?)
                     && (!s.session.exitOnce.Fresh? ==> n.session.exitOnce.who == s.session.exitOnce.who))
  {
    match s.calls[t].pc
    case AtTermOnce =>
    case ToSignal =>
    case InGrace =>
    case ToCloseExec =>
    case InWait =>
    case AtFallback =>
    case InFallback =>
    case ToReturn =>
  }

  lemma TermReasons(s: State, t: nat, graceOver: set<nat>, waitOver: set<nat>)
    requires Reasons(s, graceOver, waitOver) && Enabled(s, Term(t))
    requires s.calls[t].pc.InFallback? ==> s.session.exitOnce.Finishing?
    ensures Reasons(TermStep(s, t), graceOver, waitOver)
  {
    var n := TermStep(s, t);
    TermShared(s, t);
    forall u <- n.calls
      ensures CallReason(n, u, graceOver, waitOver)
    {
      TermReason(s, t, u, graceOver, waitOver);
    }
    assert forall u :: MayClose(s, u, graceOver) ==> MayClose(n, u, graceOver);
    assert s.calls[t].pc.ToCloseExec? ==> MayClose(s, t, graceOver);
    assert s.calls[t].pc.ToSignal? ==> !n.calls[t].force;
  }

  lemma ExitShared(s: State)
    requires Enabled(s, Exit) && ExitOk(s)
    ensures var n := ExitStep(s);
            && n.calls == s.calls && n.process == s.process
            && (n.session.exitOnce.Fresh? ==> s.session.exitOnce.Fresh?)
            && (!s.session.exitOnce.Fresh? ==> n.session.exitOnce.who == s.session.exitOnce.who)
            && (s.session.exitOnce.Fresh? && !n.session.exitOnce.Fresh? ==> n.session.exitOnce.who.ExitGoroutine?)
  {
  }

  lemma ExitReasons(s: State, graceOver: set<nat>, waitOver: set<nat>)
    requires Shared(s) && Reasons(s, graceOver, waitOver) && Enabled(s, Exit)
    ensures Reasons(ExitStep(s), graceOver, waitOver)
  {
    var n := ExitStep(s);
    ExitShared(s);
    assert forall u :: MayClose(s, u, graceOver) ==> MayClose(n, u, graceOver);
    forall u <- n.calls
      ensures CallReason(n, u, graceOver, waitOver)
    {
      assert CallReason(s, u, graceOver, waitOver);
    }
  }

  lemma GraceReasons(s: State, t: nat, graceOver: set<nat>, waitOver: set<nat>)
    requires Reasons(s, graceOver, waitOver) && Enabled(s, GraceExpires(t))
    ensures Reasons(Apply(s, GraceExpires(t)), graceOver + {t}, waitOver)
  {
    var n := Apply(s, GraceExpires(t));
    assert CallReason(s, t, graceOver, waitOver);
    assert forall u :: MayClose(s, u, graceOver) ==> MayClose(n, u, graceOver + {t});
    forall u <- n.calls
      ensures CallReason(n, u, graceOver + {t}, waitOver)
    {
      assert CallReason(s, u, graceOver, waitOver);
    }
  }

  lemma OtherReasons(s: State, step: Step, graceOver: set<nat>, waitOver: set<nat>)
    requires Reasons(s, graceOver, waitOver) && Enabled(s, step)
    requires !step.Term? && !step.Exit? && !step.GraceExpires?
    ensures Reasons(Apply(s, step), graceOver, waitOver + if step.WaitExpires? then {step.t} else {})
  {
    var n := Apply(s, step);
    assert forall u :: MayClose(s, u, graceOver) ==> MayClose(n, u, graceOver);
    forall u <- n.calls
      ensures CallReason(n, u, graceOver, waitOver + if step.WaitExpires? then {step.t} else {})
    {
      assert u in s.calls ==> CallReason(s, u, graceOver, waitOver);
    }
    assert forall u <- s.calls :: u in n.calls && n.calls[u].force == s.calls[u].force;
  }

  lemma StepReasons(s: State, step: Step, graceOver: set<nat>, waitOver: set<nat>)
    requires Inv(s) && Reasons(s, graceOver, waitOver) && Enabled(s, step)
    ensures Reasons(Apply(s, step), graceOver + if step.GraceExpires? then {step.t} else {},
                    waitOver + if step.WaitExpires? then {step.t} else {})
  {
    assert graceOver + {} == graceOver && waitOver + {} == waitOver;
    match step
    case Term(t) =>
      assert CallOk(s, t, s.calls[t]);
      TermReasons(s, t, graceOver, waitOver);
    case Exit => ExitReasons(s, graceOver, waitOver);
    case GraceExpires(t) => GraceReasons(s, t, graceOver, waitOver);
    case _ => OtherReasons(s, step, graceOver, waitOver);
  }

  lemma {:induction false} RunReasons(states: seq<State>, steps: seq<Step>, i: nat)
    requires IsRun(states, steps) && i < |states|
    ensures Reasons(states[i], GraceOver(steps, i), WaitOver(steps, i))
  {
    if i > 0 {
      RunReasons(states, steps, i - 1);
      RunKeeps(states, steps, i - 1);
      StepReasons(states[i - 1], steps[i - 1], GraceOver(steps, i - 1), WaitOver(steps, i - 1));
    }
  }

  /** The exec session is closed only by a Terminate that was forced, or that was graceful
  and whose grace period has run out. */
  lemma CloseHasReason(states: seq<State>, steps: seq<Step>, i: nat) returns (t: nat)
    requires IsRun(states, steps) && i < |states| && states[i].process.closed
    ensures t in states[i].calls
    ensures if states[i].calls[t].force then true else t in GraceOver(steps, i) && states[i].process.signalled
  {
    RunReasons(states, steps, i);
    t :| MayClose(states[i], t, GraceOver(steps, i));
    assert CallReason(states[i], t, GraceOver(steps, i), WaitOver(steps, i));
  }

  /** A fallback that has claimed the exit belongs to such a Terminate, and the process was
  done or had been waited for. */
  lemma FallbackHasReason(states: seq<State>, steps: seq<Step>, i: nat)
    requires IsRun(states, steps) && i < |states|
    requires !states[i].session.exitOnce.Fresh? && states[i].session.exitOnce.who.Fallback?
    ensures var t := states[i].session.exitOnce.who.t;
            && t in states[i].calls && (states[i].calls[t].force || t in GraceOver(steps, i))
            && (states[i].process.done || t in WaitOver(steps, i))
  {
    RunReasons(states, steps, i);
  }

  /** A process that exits within the grace period of every graceful Terminate keeps its exit
  code: nothing closes its session, and the code recorded is its own. */
  lemma GracefulKeepsCode(states: seq<State>, steps: seq<Step>, i: nat)
    requires IsRun(states, steps) && i < |states|
    requires forall t <- states[i].calls :: !states[i].calls[t].force && t !in GraceOver(steps, i)
    ensures !states[i].process.closed
    ensures states[i].session.exitCode.Some? ==> states[i].session.exitCode == Some(states[0].session.code)
  {
    RunReasons(states, steps, i);
    ExitState(states, steps, i);
  }

  /** A graceful Terminate has sent SIGTERM by the time it waits, closes or returns from its
  own attempt, and SIGTERM is sent for no other reason. */
  lemma SignalExactly(states: seq<State>, steps: seq<Step>, i: nat, t: nat)
    requires IsRun(states, steps) && i < |states| && t in states[i].calls
    ensures var c := states[i].calls[t]; Inside(c.pc) && !c.pc.ToSignal? && !c.force ==> states[i].process.signalled
    ensures states[i].process.signalled ==> exists u :: u in states[i].calls && !states[i].calls[u].force
    ensures t in GraceOver(steps, i) ==> !states[i].calls[t].force && states[i].process.signalled
  {
    RunReasons(states, steps, i);
    assert CallReason(states[i], t, GraceOver(steps, i), WaitOver(steps, i));
  }
}
