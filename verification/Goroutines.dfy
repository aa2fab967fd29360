/**
  The receive goroutine, the send goroutine, callers and Destroy, as one state machine: every
  interleaving of their atomic steps is a sequence of actions.

  Two locks guard the jobs, one each; Destroy takes both. The error that stops everything is one
  variable, tested without a lock by both loops and written by each job under its own lock only.
 */
module Goroutines {
  import opened Bytes
  import opened Errors

  const CHANNEL_BUFFER := 100

  datatype Owner = Free | Job | Destroyer

  /** Where a goroutine is. `Assign` holds the job's result, which it is about to store. */
  datatype RecvPc = RLoop | RWantLock | RCheck | RWorking | RQueueing | RAssign(result: Option<ErrorCode>) | RUnlock | RExited

  datatype SendPc = SLoop | SWantLock | SCheck | STaking | SWriting | SAssign(result: Option<ErrorCode>) | SUnlock | SExited

  datatype DestroyPc = DNotCalled | DWantIn | DWantOut | DSetError | DCloseIn | DCloseOut | DUnlockIn | DUnlockOut | DDone

  datatype State = State(
    ioErr: Option<ErrorCode>,
    inLock: Owner, outLock: Owner,
    inClosed: bool, outClosed: bool,
    inCount: nat, outCount: nat,
    recv: RecvPc, send: SendPc, destroy: DestroyPc,
    panicked: bool)

  const INIT := State(None, Free, Free, false, false, 0, 0, RLoop, SLoop, DNotCalled, false)

  /** What a receive job comes to: an error, nothing to queue, or a message. */
  datatype Work = WorkFails(error: ErrorCode) | WorkQuiet | WorkMessage

  datatype Action =
    | RecvTest | RecvLock | RecvCheck | RecvWork(work: Work) | RecvQueue | RecvAssign | RecvUnlock
    | SendTest | SendLock | SendCheck | SendTake | SendWrite(result: Option<ErrorCode>) | SendAssign | SendUnlock
    | DestroyStep
    | CallerSend | CallerRecv

  /** A step of the receive goroutine. */
  function DoRecv(s: State, a: Action): Option<State> {
    match (a, s.recv)
    case (RecvTest, RLoop) => Some(s.(recv := if s.ioErr.None? then RWantLock else RExited))
    case (RecvLock, RWantLock) => if s.inLock.Free? then Some(s.(inLock := Job, recv := RCheck)) else None
    case (RecvCheck, RCheck) => Some(s.(recv := if s.ioErr.Some? then RUnlock else RWorking))
    case (RecvWork(WorkFails(e)), RWorking) => Some(s.(recv := RAssign(Some(e))))
    case (RecvWork(WorkQuiet), RWorking) => Some(s.(recv := RAssign(None)))
    case (RecvWork(WorkMessage), RWorking) => Some(s.(recv := RQueueing))
    case (RecvQueue, RQueueing) =>
      if s.inClosed then Some(s.(panicked := true))
      else if s.inCount < CHANNEL_BUFFER then Some(s.(inCount := s.inCount + 1, recv := RAssign(None)))
      else None
    case (RecvAssign, RAssign(result)) => Some(s.(ioErr := result, recv := RUnlock))
    case (RecvUnlock, RUnlock) => Some(s.(inLock := Free, recv := RLoop))
    case _ => None
  }

  /** A step of the send goroutine; it waits for a message while it holds its lock. */
  function DoSend(s: State, a: Action): Option<State> {
    match (a, s.send)
    case (SendTest, SLoop) => Some(s.(send := if s.ioErr.None? then SWantLock else SExited))
    case (SendLock, SWantLock) => if s.outLock.Free? then Some(s.(outLock := Job, send := SCheck)) else None
    case (SendCheck, SCheck) => Some(s.(send := if s.ioErr.Some? then SUnlock else STaking))
    case (SendTake, STaking) =>
      if s.outCount > 0 then Some(s.(outCount := s.outCount - 1, send := SWriting))
      else if s.outClosed then Some(s.(send := SAssign(Some(Destroyed))))
      else None
    case (SendWrite(result), SWriting) => Some(s.(send := SAssign(result)))
    case (SendAssign, SAssign(result)) => Some(s.(ioErr := result, send := SUnlock))
    case (SendUnlock, SUnlock) => Some(s.(outLock := Free, send := SLoop))
    case _ => None
  }

  function DoDestroy(s: State): Option<State> {
    match s.destroy
    case DNotCalled => Some(s.(destroy := DWantIn))
    case DWantIn => if s.inLock.Free? then Some(s.(inLock := Destroyer, destroy := DWantOut)) else None
    case DWantOut => if s.outLock.Free? then Some(s.(outLock := Destroyer, destroy := DSetError)) else None
    case DSetError => Some(s.(ioErr := if s.ioErr.None? then Some(Destroyed) else s.ioErr, destroy := DCloseIn))
    case DCloseIn => Some(s.(inClosed := true, destroy := DCloseOut))
    case DCloseOut => Some(s.(outClosed := true, destroy := DUnlockIn))
    case DUnlockIn => Some(s.(inLock := Free, destroy := DUnlockOut))
    case DUnlockOut => Some(s.(outLock := Free, destroy := DDone))
    case DDone => None
  }

  /** Callers use the channels only; a send on a closed channel is recovered and changes nothing. */
  function DoCaller(s: State, a: Action): Option<State> {
    match a
    case CallerSend =>
      if s.outClosed then Some(s)
      else if s.outCount < CHANNEL_BUFFER then Some(s.(outCount := s.outCount + 1)) else None
    case CallerRecv =>
      if s.inCount > 0 then Some(s.(inCount := s.inCount - 1)) else if s.inClosed then Some(s) else None
    case _ => None
  }

  /** The state after an action, or `None` if it cannot happen now. */
  function Do(s: State, a: Action): Option<State> {
    if a.DestroyStep? then DoDestroy(s)
    else if a.CallerSend? || a.CallerRecv? then DoCaller(s, a)
    else if DoRecv(s, a).Some? then DoRecv(s, a)
    else DoSend(s, a)
  }

  function Exec(s: State, actions: seq<Action>): Option<State>
    decreases |actions|
  {
    if actions == [] then Some(s)
    else
      var next := Do(s, actions[0]);
      if next.None? then None else Exec(next.value, actions[1..])
  }

  /** What a caller's send and receive report. */
  function SendMessageError(s: State): Option<ErrorCode> {
    if s.outClosed then s.ioErr else None
  }

  function RecvMessageError(s: State): Option<ErrorCode> {
    if s.inCount == 0 && s.inClosed then (if s.ioErr.Some? then s.ioErr else Some(Destroyed)) else None
  }

  // ----- safety -----

  predicate RecvHolds(pc: RecvPc) {
    pc.RCheck? || pc.RWorking? || pc.RQueueing? || pc.RAssign? || pc.RUnlock?
  }

  predicate SendHolds(pc: SendPc) {
    pc.SCheck? || pc.STaking? || pc.SWriting? || pc.SAssign? || pc.SUnlock?
  }

  /** A job is past its test of the error. */
  predicate RecvBusy(s: State) {
    s.recv.RWorking? || s.recv.RQueueing? || s.recv.RAssign?
  }

  predicate SendBusy(s: State) {
    s.send.STaking? || s.send.SWriting? || s.send.SAssign?
  }

  predicate DestroyHoldsIn(pc: DestroyPc) {
    pc.DWantOut? || pc.DSetError? || pc.DCloseIn? || pc.DCloseOut? || pc.DUnlockIn?
  }

  predicate DestroyHoldsOut(pc: DestroyPc) {
    pc.DSetError? || pc.DCloseIn? || pc.DCloseOut? || pc.DUnlockIn? || pc.DUnlockOut?
  }

  /** Destroy has set the error. */
  predicate IsDestroyed(s: State) {
    s.destroy.DCloseIn? || s.destroy.DCloseOut? || s.destroy.DUnlockIn? || s.destroy.DUnlockOut? || s.destroy.DDone?
  }

  predicate Safe(s: State) {
    && (s.inLock.Job? <==> RecvHolds(s.recv)) && (s.outLock.Job? <==> SendHolds(s.send))
    && (s.inLock.Destroyer? <==> DestroyHoldsIn(s.destroy)) && (s.outLock.Destroyer? <==> DestroyHoldsOut(s.destroy))
    && (s.inClosed <==> IsDestroyed(s) && !s.destroy.DCloseIn?)
    && (s.outClosed <==> IsDestroyed(s) && !s.destroy.DCloseIn? && !s.destroy.DCloseOut?)
    && (IsDestroyed(s) ==> s.ioErr.Some? && !RecvBusy(s) && !SendBusy(s))
    && s.inCount <= CHANNEL_BUFFER && s.outCount <= CHANNEL_BUFFER
    && !s.panicked
  }

  lemma RecvStepIsSafe(s: State, a: Action)
    requires Safe(s) && DoRecv(s, a).Some?
    ensures var t := DoRecv(s, a).value; Safe(t) && (IsDestroyed(s) ==> IsDestroyed(t) && t.ioErr == s.ioErr)
  {
  }

  lemma SendStepIsSafe(s: State, a: Action)
    requires Safe(s) && DoSend(s, a).Some?
    ensures var t := DoSend(s, a).value; Safe(t) && (IsDestroyed(s) ==> IsDestroyed(t) && t.ioErr == s.ioErr)
  {
  }

  lemma DestroyStepIsSafe(s: State)
    requires Safe(s) && DoDestroy(s).Some?
    ensures var t := DoDestroy(s).value; Safe(t) && (IsDestroyed(s) ==> IsDestroyed(t) && t.ioErr == s.ioErr)
  {
  }

  lemma CallerStepIsSafe(s: State, a: Action)
    requires Safe(s) && DoCaller(s, a).Some?
    ensures var t := DoCaller(s, a).value; Safe(t) && (IsDestroyed(s) ==> IsDestroyed(t) && t.ioErr == s.ioErr)
  {
  }

  lemma StepIsSafe(s: State, a: Action)
    requires Safe(s) && Do(s, a).Some?
    ensures var t := Do(s, a).value; Safe(t) && (IsDestroyed(s) ==> IsDestroyed(t) && t.ioErr == s.ioErr)
  {
    hide Safe, IsDestroyed, DoRecv, DoSend, DoDestroy, DoCaller;
    if a.DestroyStep? {
      DestroyStepIsSafe(s);
    } else if a.CallerSend? || a.CallerRecv? {
      CallerStepIsSafe(s, a);
    } else if DoRecv(s, a).Some? {
      RecvStepIsSafe(s, a);
    } else {
      SendStepIsSafe(s, a);
    }
  }

  /**
    In every interleaving: once a queue is closed the error is set, so a caller's send on a closed
    queue fails and a receive from a drained one does; after Destroy no job is at work, both queues
    are closed and its locks are given back; and the receive job never puts a message into a closed
    queue.
   */
  lemma {:induction false} EveryInterleavingIsSafe(s: State, actions: seq<Action>)
    requires Safe(s) && Exec(s, actions).Some?
    ensures var t := Exec(s, actions).value;
            && Safe(t)
            && (t.outClosed ==> SendMessageError(t) == t.ioErr && t.ioErr.Some?)
            && (t.inClosed && t.inCount == 0 ==> RecvMessageError(t) == t.ioErr && t.ioErr.Some?)
            && (IsDestroyed(s) ==> IsDestroyed(t) && t.ioErr == s.ioErr && !RecvBusy(t) && !SendBusy(t))
            && (t.destroy.DDone? ==> t.inClosed && t.outClosed && !t.inLock.Destroyer? && !t.outLock.Destroyer?)
    decreases |actions|
  {
    hide Do, Safe;
    if actions == [] {
      SafeMeans(s);
    } else {
      StepIsSafe(s, actions[0]);
      EveryInterleavingIsSafe(Do(s, actions[0]).value, actions[1..]);
    }
  }

  lemma SafeMeans(s: State)
    requires Safe(s)
    ensures s.inClosed || s.outClosed ==> s.ioErr.Some?
    ensures IsDestroyed(s) ==> !RecvBusy(s) && !SendBusy(s)
    ensures s.destroy.DDone? ==> s.inClosed && s.outClosed && !s.inLock.Destroyer? && !s.outLock.Destroyer?
  {
  }

  lemma StartIsSafe()
    ensures Safe(INIT)
  {
  }

  // ----- errors before Destroy -----

  /** A job that passed its test may still store a success. */
  predicate MayStillSucceed(s: State) {
    || s.recv.RWorking? || s.recv.RQueueing? || s.recv == RAssign(None)
    || s.send.STaking? || s.send.SWriting? || s.send == SAssign(None)
  }

  /** Some interleaving from here on forgets the error. */
  ghost predicate CanBeForgotten(s: State) {
    exists actions :: Exec(s, actions).Some? && Exec(s, actions).value.ioErr.None?
  }

  /** An error is set and no job can still store a success. */
  predicate ErrorIsFinal(s: State) {
    s.ioErr.Some? && !MayStillSucceed(s)
  }

  lemma RecvKeepsError(s: State, a: Action)
    requires ErrorIsFinal(s) && DoRecv(s, a).Some?
    ensures ErrorIsFinal(DoRecv(s, a).value)
  {
  }

  lemma SendKeepsError(s: State, a: Action)
    requires ErrorIsFinal(s) && DoSend(s, a).Some?
    ensures ErrorIsFinal(DoSend(s, a).value)
  {
  }

  lemma DestroyKeepsError(s: State)
    requires ErrorIsFinal(s) && DoDestroy(s).Some?
    ensures ErrorIsFinal(DoDestroy(s).value)
  {
  }

  lemma CallerKeepsError(s: State, a: Action)
    requires ErrorIsFinal(s) && DoCaller(s, a).Some?
    ensures ErrorIsFinal(DoCaller(s, a).value)
  {
  }

  lemma StepKeepsError(s: State, a: Action)
    requires ErrorIsFinal(s) && Do(s, a).Some?
    ensures ErrorIsFinal(Do(s, a).value)
  {
    hide ErrorIsFinal, DoRecv, DoSend, DoDestroy, DoCaller;
    if a.DestroyStep? {
      DestroyKeepsError(s);
    } else if a.CallerSend? || a.CallerRecv? {
      CallerKeepsError(s, a);
    } else if DoRecv(s, a).Some? {
      RecvKeepsError(s, a);
    } else {
      SendKeepsError(s, a);
    }
  }

  lemma {:induction false} ErrorStays(s: State, actions: seq<Action>)
    requires ErrorIsFinal(s) && Exec(s, actions).Some?
    ensures Exec(s, actions).value.ioErr.Some?
    decreases |actions|
  {
    hide Do, MayStillSucceed;
    if actions != [] {
      StepKeepsError(s, actions[0]);
      ErrorStays(Do(s, actions[0]).value, actions[1..]);
    }
  }

  lemma Exec1(s: State, a: Action)
    requires Do(s, a).Some?
    ensures Exec(s, [a]) == Do(s, a)
  {
    hide Do;
    assert [a][1..] == [];
    assert Exec(Do(s, a).value, []) == Do(s, a);
  }

  lemma Exec2(s: State, a: Action, b: Action)
    requires Do(s, a).Some? && Do(Do(s, a).value, b).Some?
    ensures Exec(s, [a, b]) == Do(Do(s, a).value, b)
  {
    hide Do;
    assert [a, b][1..] == [b];
    Exec1(Do(s, a).value, b);
  }

  lemma Exec3(s: State, a: Action, b: Action, c: Action)
    requires Do(s, a).Some? && Do(Do(s, a).value, b).Some? && Do(Do(Do(s, a).value, b).value, c).Some?
    ensures Exec(s, [a, b, c]) == Do(Do(Do(s, a).value, b).value, c)
  {
    hide Do;
    assert [a, b, c][1..] == [b, c];
    Exec2(Do(s, a).value, b, c);
  }

  /** A receive job under way that succeeds; a caller makes room in the queue if need be. */
  lemma RecvForgets(s: State) returns (actions: seq<Action>)
    requires Safe(s) && (s.recv.RWorking? || s.recv.RQueueing? || s.recv == RAssign(None))
    ensures Exec(s, actions).Some? && Exec(s, actions).value.ioErr.None?
  {
    hide Exec;
    if s.recv.RAssign? {
      actions := [RecvAssign];
      Exec1(s, RecvAssign);
    } else if s.recv.RWorking? {
      actions := [RecvWork(WorkQuiet), RecvAssign];
      Exec2(s, RecvWork(WorkQuiet), RecvAssign);
    } else if s.inCount < CHANNEL_BUFFER {
      actions := [RecvQueue, RecvAssign];
      Exec2(s, RecvQueue, RecvAssign);
    } else {
      actions := [CallerRecv, RecvQueue, RecvAssign];
      Exec3(s, CallerRecv, RecvQueue, RecvAssign);
    }
  }

  /** A send job under way that succeeds; a caller queues a message if need be. */
  lemma SendForgets(s: State) returns (actions: seq<Action>)
    requires Safe(s) && (s.send.STaking? || s.send.SWriting? || s.send == SAssign(None))
    ensures Exec(s, actions).Some? && Exec(s, actions).value.ioErr.None?
  {
    hide Exec;
    if s.send.SAssign? {
      actions := [SendAssign];
      Exec1(s, SendAssign);
    } else if s.send.SWriting? {
      actions := [SendWrite(None), SendAssign];
      Exec2(s, SendWrite(None), SendAssign);
    } else if s.outCount > 0 {
      actions := [SendTake, SendWrite(None), SendAssign];
      Exec3(s, SendTake, SendWrite(None), SendAssign);
    } else {
      actions := [CallerSend] + [SendTake, SendWrite(None), SendAssign];
      var s1 := Do(s, CallerSend).value;
      Exec3(s1, SendTake, SendWrite(None), SendAssign);
      ExecThen(s, CallerSend, [SendTake, SendWrite(None), SendAssign]);
    }
  }

  lemma ExecThen(s: State, a: Action, actions: seq<Action>)
    requires Do(s, a).Some?
    ensures Exec(s, [a] + actions) == Exec(Do(s, a).value, actions)
  {
    hide Do;
    assert ([a] + actions)[1..] == actions;
  }

  /**
    Exactly when an error is final: in a reachable state with an error set, some continuation forgets
    it if and only if a job that already passed its test can still succeed.
   */
  lemma ForgottenIff(s: State)
    requires Safe(s) && s.ioErr.Some?
    ensures CanBeForgotten(s) <==> MayStillSucceed(s)
  {
    hide Exec, Safe, Do;
    if s.recv.RWorking? || s.recv.RQueueing? || s.recv == RAssign(None) {
      var actions := RecvForgets(s);
    } else if s.send.STaking? || s.send.SWriting? || s.send == SAssign(None) {
      var actions := SendForgets(s);
    } else {
      forall actions | Exec(s, actions).Some?
        ensures Exec(s, actions).value.ioErr.Some?
      {
        ErrorStays(s, actions);
      }
    }
  }

  lemma SendStarts()
    ensures Exec(INIT, [SendTest, SendLock, SendCheck]) == Some(INIT.(outLock := Job, send := STaking))
  {
    hide Exec;
    Exec3(INIT, SendTest, SendLock, SendCheck);
  }

  lemma RecvStarts(s: State)
    requires s.recv.RLoop? && s.inLock.Free? && s.ioErr.None?
    ensures Exec(s, [RecvTest, RecvLock, RecvCheck]) == Some(s.(inLock := Job, recv := RWorking))
  {
    hide Exec;
    Exec3(s, RecvTest, RecvLock, RecvCheck);
  }

  lemma RecvFails(s: State, e: ErrorCode)
    requires s.recv.RWorking?
    ensures Exec(s, [RecvWork(WorkFails(e)), RecvAssign]) == Some(s.(ioErr := Some(e), recv := RUnlock))
  {
    hide Exec;
    Exec2(s, RecvWork(WorkFails(e)), RecvAssign);
  }

  /** A message of the receive job reaches the queue before the job is over. */
  lemma RecvDelivers(s: State)
    requires s.recv.RWorking? && !s.inClosed && s.inCount < 100
    ensures Do(s, RecvWork(WorkMessage)).Some? && Do(Do(s, RecvWork(WorkMessage)).value, RecvAssign).None?
    ensures Exec(s, [RecvWork(WorkMessage), RecvQueue, RecvAssign])
         == Some(s.(inCount := s.inCount + 1, ioErr := None, recv := RUnlock))
  {
    hide Exec;
    Exec3(s, RecvWork(WorkMessage), RecvQueue, RecvAssign);
  }

  lemma SendActs(s: State, a: Action)
    requires DoSend(s, a).Some?
    ensures Do(s, a) == DoSend(s, a)
  {
  }

  lemma SendFails(s: State, e: ErrorCode)
    requires s.send.SWriting?
    ensures Exec(s, [SendWrite(Some(e)), SendAssign]) == Some(s.(ioErr := Some(e), send := SUnlock))
  {
    hide Exec, Do;
    var s1 := s.(send := SAssign(Some(e)));
    SendActs(s, SendWrite(Some(e)));
    SendActs(s1, SendAssign);
    Exec2(s, SendWrite(Some(e)), SendAssign);
  }

  /** An interleaving, from the start, in which the receiver fails and its error is forgotten. */
  lemma ForgottenErrorHappens(e: ErrorCode) returns (before: seq<Action>, s: State)
    ensures Exec(INIT, before) == Some(s) && Safe(s)
    ensures s.ioErr == Some(e) && CanBeForgotten(s)
  {
    hide Exec, Safe, Do;
    var s1 := INIT.(outLock := Job, send := STaking);
    var s2 := s1.(inLock := Job, recv := RWorking);
    s := s2.(ioErr := Some(e), recv := RUnlock);
    var first, second, third :=
      [SendTest, SendLock, SendCheck], [RecvTest, RecvLock, RecvCheck], [RecvWork(WorkFails(e)), RecvAssign];
    SendStarts();
    RecvStarts(s1);
    RecvFails(s2, e);
    before := first + second + third;
    ExecConcat(INIT, first, second);
    ExecConcat(INIT, first + second, third);
    StartIsSafe();
    EveryInterleavingIsSafe(INIT, before);
    ForgottenIff(s);
  }

  lemma {:induction false} ExecConcat(s: State, a: seq<Action>, b: seq<Action>)
    requires Exec(s, a).Some?
    ensures Exec(s, a + b) == Exec(Exec(s, a).value, b)
    decreases |a|
  {
    hide Do;
    if a == [] {
      assert a + b == b;
    } else {
      ExecConcat(Do(s, a[0]).value, a[1..], b);
      assert (a + b)[1..] == a[1..] + b;
    }
  }

  // ----- the first error -----

  /** An error is set and no job is at work. */
  predicate Settled(s: State) {
    s.ioErr.Some? && !RecvBusy(s) && !SendBusy(s)
  }

  /** How many steps a goroutine still takes once the error is settled. */
  function RecvLeft(pc: RecvPc): nat {
    match pc
    case RExited => 0
    case RLoop => 1
    case RUnlock => 2
    case RCheck => 3
    case _ => 4
  }

  function SendLeft(pc: SendPc): nat {
    match pc
    case SExited => 0
    case SLoop => 1
    case SUnlock => 2
    case SCheck => 3
    case _ => 4
  }

  predicate IsRecv(a: Action) {
    a.RecvTest? || a.RecvLock? || a.RecvCheck? || a.RecvWork? || a.RecvQueue? || a.RecvAssign? || a.RecvUnlock?
  }

  predicate IsSend(a: Action) {
    a.SendTest? || a.SendLock? || a.SendCheck? || a.SendTake? || a.SendWrite? || a.SendAssign? || a.SendUnlock?
  }

  function RecvSteps(actions: seq<Action>): nat {
    if actions == [] then 0 else (if IsRecv(actions[0]) then 1 else 0) + RecvSteps(actions[1..])
  }

  function SendSteps(actions: seq<Action>): nat {
    if actions == [] then 0 else (if IsSend(actions[0]) then 1 else 0) + SendSteps(actions[1..])
  }

  /** What every step keeps once the error is settled, Destroy's steps included. */
  predicate KeepsSettled(s: State, t: State) {
    && t.ioErr == s.ioErr && Settled(t)
    && RecvLeft(t.recv) <= RecvLeft(s.recv) && SendLeft(t.send) <= SendLeft(s.send)
  }

  lemma RecvSettled(s: State, a: Action)
    requires Settled(s) && DoRecv(s, a).Some?
    ensures var t := DoRecv(s, a).value; KeepsSettled(s, t) && t.send == s.send
    ensures IsRecv(a) && RecvLeft(DoRecv(s, a).value.recv) + 1 == RecvLeft(s.recv)
  {
  }

  lemma SendSettled(s: State, a: Action)
    requires Settled(s) && DoSend(s, a).Some?
    ensures var t := DoSend(s, a).value; KeepsSettled(s, t) && t.recv == s.recv
    ensures IsSend(a) && SendLeft(DoSend(s, a).value.send) + 1 == SendLeft(s.send)
  {
  }

  lemma OthersSettled(s: State, a: Action)
    requires Settled(s) && (a.DestroyStep? || a.CallerSend? || a.CallerRecv?) && Do(s, a).Some?
    ensures var t := Do(s, a).value; KeepsSettled(s, t) && t.recv == s.recv && t.send == s.send
  {
  }

  lemma StepSettled(s: State, a: Action)
    requires Settled(s) && Do(s, a).Some?
    ensures KeepsSettled(s, Do(s, a).value)
    ensures RecvLeft(Do(s, a).value.recv) + RecvSteps([a]) == RecvLeft(s.recv)
    ensures SendLeft(Do(s, a).value.send) + SendSteps([a]) == SendLeft(s.send)
  {
    hide Settled, KeepsSettled, RecvLeft, SendLeft, DoRecv, DoSend, DoDestroy, DoCaller;
    assert [a][1..] == [];
    if a.DestroyStep? || a.CallerSend? || a.CallerRecv? {
      OthersSettled(s, a);
    } else if DoRecv(s, a).Some? {
      RecvSettled(s, a);
    } else {
      SendSettled(s, a);
    }
  }

  lemma StepsOnce(actions: seq<Action>)
    requires actions != []
    ensures RecvSteps(actions) == RecvSteps([actions[0]]) + RecvSteps(actions[1..])
    ensures SendSteps(actions) == SendSteps([actions[0]]) + SendSteps(actions[1..])
  {
    assert [actions[0]][1..] == [];
  }

  /**
    The first error stays: once an error is set and no job is at work, it is the same error after
    every execution, whether or not Destroy is called; and each goroutine takes at most four more
    steps, the last of which ends it.
   */
  lemma {:induction false} FirstErrorStays(s: State, actions: seq<Action>)
    requires Settled(s) && Exec(s, actions).Some?
    ensures var t := Exec(s, actions).value;
            && t.ioErr == s.ioErr && !RecvBusy(t) && !SendBusy(t)
            && RecvSteps(actions) <= 4 && (RecvSteps(actions) == 4 ==> t.recv.RExited?)
            && SendSteps(actions) <= 4 && (SendSteps(actions) == 4 ==> t.send.SExited?)
  {
    SettledRun(s, actions);
  }

  lemma {:induction false} SettledRun(s: State, actions: seq<Action>)
    requires Settled(s) && Exec(s, actions).Some?
    ensures var t := Exec(s, actions).value;
            && t.ioErr == s.ioErr && Settled(t)
            && RecvLeft(t.recv) + RecvSteps(actions) == RecvLeft(s.recv)
            && SendLeft(t.send) + SendSteps(actions) == SendLeft(s.send)
    decreases |actions|
  {
    hide Do, Settled, RecvLeft, SendLeft, RecvSteps, SendSteps;
    if actions == [] {
      NoSteps();
    } else {
      StepSettled(s, actions[0]);
      StepsOnce(actions);
      SettledRun(Do(s, actions[0]).value, actions[1..]);
    }
  }

  lemma NoSteps()
    ensures RecvSteps([]) == 0 && SendSteps([]) == 0
  {
  }

  /** While Destroy holds both locks, a step of anyone else leaves the error and Destroy alone. */
  lemma OthersWait(s: State, a: Action)
    requires Safe(s) && s.destroy.DSetError? && !a.DestroyStep? && Do(s, a).Some?
    ensures var t := Do(s, a).value; t.ioErr == s.ioErr && t.destroy == s.destroy
  {
    if a.CallerSend? || a.CallerRecv? {
    } else if DoRecv(s, a).Some? {
      RecvWaits(s, a);
    } else {
      SendWaits(s, a);
    }
  }

  lemma RecvWaits(s: State, a: Action)
    requires Safe(s) && s.destroy.DSetError? && DoRecv(s, a).Some?
    ensures var t := DoRecv(s, a).value; t.ioErr == s.ioErr && t.destroy == s.destroy
  {
  }

  lemma SendWaits(s: State, a: Action)
    requires Safe(s) && s.destroy.DSetError? && DoSend(s, a).Some?
    ensures var t := DoSend(s, a).value; t.ioErr == s.ioErr && t.destroy == s.destroy
  {
  }

  lemma DestroySets(s: State)
    requires s.destroy.DSetError?
    ensures DoDestroy(s).Some? && IsDestroyed(DoDestroy(s).value)
    ensures DoDestroy(s).value.ioErr == if s.ioErr.Some? then s.ioErr else Some(Destroyed)
  {
  }

  /**
    Destroy stores its own error if and only if none was set when it held both locks: from there on,
    in every execution, the error is the one that was set, or `Destroyed` once Destroy has stored it.
   */
  lemma {:induction false} DestroyStores(s: State, actions: seq<Action>)
    requires Safe(s) && s.destroy.DSetError? && Exec(s, actions).Some?
    ensures var t := Exec(s, actions).value;
            && (s.ioErr.Some? ==> t.ioErr == s.ioErr)
            && (s.ioErr.None? ==> t.ioErr == if IsDestroyed(t) then Some(Destroyed) else None)
    decreases |actions|
  {
    hide Do, Safe, IsDestroyed;
    if actions == [] {
      NotYetDestroyed(s);
    } else {
      var a := actions[0];
      StepIsSafe(s, a);
      if a.DestroyStep? {
        DestroySets(s);
        assert Do(s, a) == DoDestroy(s) by {
          StepOfDestroy(s);
        }
        EveryInterleavingIsSafe(Do(s, a).value, actions[1..]);
      } else {
        OthersWait(s, a);
        DestroyStores(Do(s, a).value, actions[1..]);
      }
    }
  }

  lemma StepOfDestroy(s: State)
    ensures Do(s, DestroyStep) == DoDestroy(s)
  {
  }

  lemma NotYetDestroyed(s: State)
    requires s.destroy.DSetError?
    ensures !IsDestroyed(s)
  {
  }

  // ----- the queues -----

  /** The messages callers took from the incoming queue. */
  function Taken(s: State, actions: seq<Action>): nat
    requires Exec(s, actions).Some?
    decreases |actions|
  {
    if actions == [] then 0
    else (if actions[0].CallerRecv? && s.inCount > 0 then 1 else 0) + Taken(Do(s, actions[0]).value, actions[1..])
  }

  /** The messages callers put into the outgoing queue. */
  function Accepted(s: State, actions: seq<Action>): nat
    requires Exec(s, actions).Some?
    decreases |actions|
  {
    if actions == [] then 0
    else (if actions[0].CallerSend? && !s.outClosed then 1 else 0) + Accepted(Do(s, actions[0]).value, actions[1..])
  }

  function Count(a: Action, actions: seq<Action>): nat {
    if actions == [] then 0 else (if actions[0] == a then 1 else 0) + Count(a, actions[1..])
  }

  lemma StepConserves(s: State, a: Action)
    requires Safe(s) && Do(s, a).Some?
    ensures Do(s, a).value.inCount
         == s.inCount + (if a.RecvQueue? then 1 else 0) - (if a.CallerRecv? && s.inCount > 0 then 1 else 0)
    ensures Do(s, a).value.outCount
         == s.outCount + (if a.CallerSend? && !s.outClosed then 1 else 0) - (if a.SendTake? then 1 else 0)
  {
    if a.DestroyStep? || a.CallerSend? || a.CallerRecv? {
    } else if DoRecv(s, a).Some? {
      RecvConserves(s, a);
    } else {
      SendConserves(s, a);
    }
  }

  lemma RecvConserves(s: State, a: Action)
    requires Safe(s) && DoRecv(s, a).Some?
    ensures IsRecv(a) && DoRecv(s, a).value.outCount == s.outCount
    ensures DoRecv(s, a).value.inCount == s.inCount + if a.RecvQueue? then 1 else 0
  {
  }

  lemma SendConserves(s: State, a: Action)
    requires Safe(s) && DoSend(s, a).Some?
    ensures IsSend(a) && DoSend(s, a).value.inCount == s.inCount
    ensures DoSend(s, a).value.outCount == s.outCount - if a.SendTake? then 1 else 0
  {
  }

  /**
    Nothing is lost or made up in the queues: in every execution what the receive job queued is what
    callers took and what is still there, and what callers put in is what the send job took and what
    is still there. Each queue holds at most 100 messages.
   */
  lemma {:induction false} QueuesConserve(s: State, actions: seq<Action>)
    requires Safe(s) && Exec(s, actions).Some?
    ensures var t := Exec(s, actions).value;
            && s.inCount + Count(RecvQueue, actions) == Taken(s, actions) + t.inCount
            && s.outCount + Accepted(s, actions) == Count(SendTake, actions) + t.outCount
            && t.inCount <= 100 && t.outCount <= 100
    decreases |actions|
  {
    hide Do, Safe;
    if actions == [] {
      SafeCounts(s);
    } else {
      StepIsSafe(s, actions[0]);
      StepConserves(s, actions[0]);
      QueuesConserve(Do(s, actions[0]).value, actions[1..]);
    }
  }

  lemma SafeCounts(s: State)
    requires Safe(s)
    ensures s.inCount <= 100 && s.outCount <= 100
  {
  }

  /** A caller's send waits exactly while the queue is open and holds 100 messages. */
  lemma SendBlocksIff(s: State)
    ensures Do(s, CallerSend).None? <==> !s.outClosed && s.outCount >= 100
    ensures Do(s, CallerRecv).None? <==> !s.inClosed && s.inCount == 0
  {
  }
}
