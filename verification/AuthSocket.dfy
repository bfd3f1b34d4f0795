// doConnect, its completion lambda, disconnectAndDestroyBestEffort and close of signal/AuthSocket.cpp,
// as a protocol: one caller thread, one thread for every completion, and the listener's thread. A step
// is one critical section, or one statement that another thread can observe.

module ConnectProtocol {
  import opened Bytes

  const DEVICE_DEREGISTERED := 171
  const CONNECTION_INVALIDATED := 172

  /** A connection handle; libsignal gives at most one for each attempt, so it is numbered like it. */
  type Handle = nat

  /** The fields of a ConnectState. */
  datatype Record = Record(done: bool, abandoned: bool, error: Option<nat>, result: Option<Handle>)

  /** The fields of the socket. */
  datatype Socket = Socket(chat: Option<Handle>, connected: bool, deauthorized: bool, stopping: bool)

  /** How far the completion of an attempt has come. Refused: the call failed, there will be none. */
  datatype Completion = Refused | Running | Clearing(late: Option<Handle>) | Deleting | Notifying | Finished

  /** One `new ConnectState`: its record, its completion, and what has been done with the state and
      with the handle. */
  datatype Attempt = Attempt(
    record: Record, completion: Completion,
    callerDeletes: nat, completionDeletes: nat, gotHandle: bool, disconnects: nat, destroys: nat)

  /** Where the thread that calls connect, reconnect, close and the destructor stands. */
  datatype Caller =
    | Idle
    | Connecting
    | Issuing
    | Waiting(i: nat)
    | Collecting(i: nat)
    | Collected(i: nat, error: Option<nat>, result: Option<Handle>)
    | Listening
    | Listened
    | Announcing
    | Closing
    | ClosingFlag
    | Gone

  datatype State = State(
    socket: Socket, caller: Caller, attempts: seq<Attempt>, listener: bool, invalidations: nat)

  datatype Step =
    | Begin
    | TearDown
    | Issue(accepted: bool)
    | Complete(i: nat, error: Option<nat>, opens: bool)
    | CleanUp(i: nat)
    | DeleteLate(i: nat)
    | Notify(i: nat)
    | Wake
    | TimeOut
    | Collect
    | Install
    | InitListener(accepted: bool)
    | ClearDeauthorized
    | Announce
    | Interrupted(invalidated: bool)
    | MarkInvalidated
    | BeginClose
    | TearDownForClose
    | FinishClose
    | Destruct

  const NEW_RECORD := Record(false, false, None, None)

  function Init(): State { State(Socket(None, false, false, false), Idle, [], false, 0) }

  /** The critical section of the completion lambda. */
  function Recorded(r: Record, error: Option<nat>, result: Option<Handle>): Record {
    if r.abandoned then r
    else r.(done := true, error := error, result := if error == None && result.Some? then result else r.result)
  }

  /** disconnectAndDestroyBestEffort: a null handle is left alone. */
  function TornDown(attempts: seq<Attempt>, h: Option<Handle>): (r: seq<Attempt>)
    requires h.Some? ==> h.value < |attempts|
    ensures |r| == |attempts|
  {
    match h
    case None => attempts
    case Some(i) =>
      var a := attempts[i];
      attempts[i := a.(disconnects := a.disconnects + 1, destroys := a.destroys + 1)]
  }

  predicate Known(s: State, h: Option<Handle>) { h.Some? ==> h.value < |s.attempts| }

  predicate CallerKnown(s: State) {
    (s.caller.Waiting? || s.caller.Collecting? || s.caller.Collected?) ==> s.caller.i < |s.attempts|
  }

  predicate Enabled(s: State, step: Step) {
    s.caller != Gone && CallerKnown(s) && Known(s, s.socket.chat) &&
    match step
    case Begin => s.caller == Idle
    case TearDown => s.caller == Connecting
    case Issue(_) => s.caller == Issuing
    case Complete(i, error, opens) =>
      i < |s.attempts| && s.attempts[i].completion == Running && !(error.Some? && opens)
    case CleanUp(i) => i < |s.attempts| && s.attempts[i].completion.Clearing?
    case DeleteLate(i) => i < |s.attempts| && s.attempts[i].completion == Deleting
    case Notify(i) => i < |s.attempts| && s.attempts[i].completion == Notifying
    case Wake => s.caller.Waiting? && s.attempts[s.caller.i].record.done
    case TimeOut => s.caller.Waiting? && !s.attempts[s.caller.i].record.done
    case Collect => s.caller.Collecting?
    case Install => s.caller.Collected?
    case InitListener(accepted) => s.caller == Listening && (accepted ==> s.socket.chat.Some?)
    case ClearDeauthorized => s.caller == Listened
    case Announce => s.caller == Announcing
    case Interrupted(_) => s.listener
    case MarkInvalidated => s.invalidations > 0
    case BeginClose => s.caller == Idle
    case TearDownForClose => s.caller == Closing
    case FinishClose => s.caller == ClosingFlag
    case Destruct => s.caller == Idle && s.socket.stopping
  }

  // The completion thread of attempt i works on attempts[i] alone.

  function AfterComplete(a: Attempt, i: nat, error: Option<nat>, opens: bool): Attempt {
    var result := if opens then Some(i) else None;
    a.(record := Recorded(a.record, error, result), gotHandle := opens,
       completion := if a.record.abandoned then Clearing(if error == None then result else None) else Notifying)
  }

  function AfterCleanUp(a: Attempt): Attempt
    requires a.completion.Clearing?
  {
    var torn := if a.completion.late.Some? then 1 else 0;
    a.(completion := Deleting, disconnects := a.disconnects + torn, destroys := a.destroys + torn)
  }

  function AfterDelete(a: Attempt): Attempt {
    a.(completion := Finished, completionDeletes := a.completionDeletes + 1)
  }

  function Apply(s: State, step: Step): State
    requires Enabled(s, step)
  {
    match step
    case Begin => s.(socket := s.socket.(connected := false), caller := Connecting)
    case TearDown =>
      s.(attempts := TornDown(s.attempts, s.socket.chat), socket := s.socket.(chat := None), caller := Issuing)
    case Issue(accepted) =>
      if accepted then
        s.(attempts := s.attempts + [Attempt(NEW_RECORD, Running, 0, 0, false, 0, 0)], caller := Waiting(|s.attempts|))
      else
        s.(attempts := s.attempts + [Attempt(NEW_RECORD, Refused, 1, 0, false, 0, 0)], caller := Idle)
    case Complete(i, error, opens) =>
      s.(attempts := s.attempts[i := AfterComplete(s.attempts[i], i, error, opens)])
    case CleanUp(i) => s.(attempts := s.attempts[i := AfterCleanUp(s.attempts[i])])
    case DeleteLate(i) => s.(attempts := s.attempts[i := AfterDelete(s.attempts[i])])
    case Notify(i) => s.(attempts := s.attempts[i := s.attempts[i].(completion := Finished)])
    case Wake => s.(caller := Collecting(s.caller.i))
    case TimeOut =>
      var i := s.caller.i;
      var a := s.attempts[i];
      s.(attempts := s.attempts[i := a.(record := a.record.(abandoned := true))], caller := Idle)
    case Collect =>
      var i := s.caller.i;
      var a := s.attempts[i];
      s.(attempts := s.attempts[i := a.(callerDeletes := a.callerDeletes + 1)],
         caller := Collected(i, a.record.error, a.record.result))
    case Install =>
      (match s.caller.error
       case Some(code) =>
         s.(caller := Idle,
            socket := s.socket.(deauthorized := s.socket.deauthorized || code == DEVICE_DEREGISTERED))
       case None => s.(caller := Listening, socket := s.socket.(chat := s.caller.result)))
    case InitListener(accepted) =>
      s.(caller := if accepted then Listened else Idle, listener := s.listener || accepted)
    case ClearDeauthorized => s.(caller := Announcing, socket := s.socket.(deauthorized := false))
    case Announce => s.(caller := Idle, socket := s.socket.(connected := true))
    case Interrupted(invalidated) =>
      s.(socket := s.socket.(connected := false), invalidations := s.invalidations + if invalidated then 1 else 0)
    case MarkInvalidated =>
      s.(socket := s.socket.(deauthorized := true), invalidations := s.invalidations - 1)
    case BeginClose =>
      if s.socket.stopping then s else s.(caller := Closing, socket := s.socket.(stopping := true))
    case TearDownForClose =>
      s.(attempts := TornDown(s.attempts, s.socket.chat), socket := s.socket.(chat := None), caller := ClosingFlag)
    case FinishClose => s.(caller := Idle, socket := s.socket.(connected := false))
    case Destruct =>
      s.(attempts := TornDown(s.attempts, s.socket.chat), socket := s.socket.(chat := None), caller := Gone)
  }

  // Runs.

  predicate Run(steps: seq<Step>)
    decreases |steps|, 0
  {
    steps == [] ||
    (var front := steps[..|steps| - 1]; Run(front) && Enabled(After(front), steps[|steps| - 1]))
  }

  function After(steps: seq<Step>): State
    requires Run(steps)
    decreases |steps|, 1
  {
    if steps == [] then Init() else Apply(After(steps[..|steps| - 1]), steps[|steps| - 1])
  }

  // The invariant.

  /** What the caller has to do with an attempt. */
  datatype Role = Nothing | Waits | Collects | Holds(error: Option<nat>, result: Option<Handle>)

  function RoleOf(c: Caller, i: nat): Role {
    match c
    case Waiting(j) => if i == j then Waits else Nothing
    case Collecting(j) => if i == j then Collects else Nothing
    case Collected(j, e, r) => if i == j then Holds(e, r) else Nothing
    case _ => Nothing
  }

  function One(b: bool): nat { if b then 1 else 0 }

  /** The handle is held by the completion of the attempt, or by its record or the caller's copy. */
  predicate Pending(a: Attempt, role: Role) {
    (a.completion.Clearing? && a.completion.late.Some?) ||
    ((role == Waits || role == Collects) && a.record.result.Some?) ||
    (role.Holds? && role.result.Some?)
  }

  predicate HandleAccountedFor(a: Attempt, installed: bool, role: Role) {
    a.disconnects == a.destroys && a.destroys + One(installed) + One(Pending(a, role)) == One(a.gotHandle)
  }

  predicate AttemptOk(a: Attempt, i: nat, installed: bool, role: Role) {
    HandleAccountedFor(a, installed, role) &&
    (a.record.error.Some? ==> a.record.result == None) &&
    (a.record.result.Some? ==> a.record.result == Some(i)) &&
    (a.record.done ==> a.record.result.Some? == a.gotHandle) &&
    match a.completion
    case Refused => a.callerDeletes == 1 && a.completionDeletes == 0 && role == Nothing && !a.gotHandle && !a.record.abandoned
    case Running =>
      a.callerDeletes == 0 && a.completionDeletes == 0 && !a.record.done && !a.gotHandle && a.record.result == None &&
      role == if a.record.abandoned then Nothing else Waits
    case Clearing(late) =>
      a.callerDeletes == 0 && a.completionDeletes == 0 && a.record.abandoned && !a.record.done && role == Nothing &&
      a.gotHandle == late.Some? && !installed
    case Deleting =>
      a.callerDeletes == 0 && a.completionDeletes == 0 && a.record.abandoned && role == Nothing && !installed
    case Notifying => Delivered(a, role)
    case Finished =>
      if a.record.abandoned then
        a.callerDeletes == 0 && a.completionDeletes == 1 && role == Nothing && !installed
      else Delivered(a, role)
  }

  /** The result was handed to the caller. */
  predicate Delivered(a: Attempt, role: Role) {
    a.record.done && !a.record.abandoned && a.completionDeletes == 0 &&
    a.callerDeletes == One(role == Nothing || role.Holds?) &&
    (role.Holds? ==> role.result == a.record.result && role.error == a.record.error)
  }

  predicate SocketOk(s: State) {
    Known(s, s.socket.chat) && CallerKnown(s) &&
    (s.caller.Collected? && s.caller.result.Some? ==> s.caller.result == Some(s.caller.i)) &&
    (s.caller in {Issuing, ClosingFlag, Gone} || s.caller.Waiting? || s.caller.Collecting? || s.caller.Collected?
     ==> s.socket.chat == None) &&
    (s.caller in {Listened, Announcing} ==> s.socket.chat.Some?) &&
    (s.socket.connected ==> s.socket.chat.Some? || s.caller in {ClosingFlag, Gone}) &&
    (s.socket.connected ==> s.caller in {Idle, Closing, ClosingFlag, Gone})
  }

  predicate AllOk(attempts: seq<Attempt>, chat: Option<Handle>, c: Caller) {
    forall i | 0 <= i < |attempts| :: AttemptOk(attempts[i], i, chat == Some(i), RoleOf(c, i))
  }

  predicate Inv(s: State) { SocketOk(s) && AllOk(s.attempts, s.socket.chat, s.caller) }

  /** Attempts that a step does not work on stay as they are. */
  lemma OneChanged(s: State, t: State, i: nat)
    requires AllOk(s.attempts, s.socket.chat, s.caller)
    requires |t.attempts| == |s.attempts| && i < |s.attempts|
    requires forall j | 0 <= j < |s.attempts| && j != i ::
               t.attempts[j] == s.attempts[j] && RoleOf(t.caller, j) == RoleOf(s.caller, j) &&
               (t.socket.chat == Some(j) <==> s.socket.chat == Some(j))
    requires AttemptOk(t.attempts[i], i, t.socket.chat == Some(i), RoleOf(t.caller, i))
    ensures AllOk(t.attempts, t.socket.chat, t.caller)
  {
    hide AttemptOk, RoleOf;
  }

  /** The attempt a step works on, if it works on one that was there before. */
  function Touched(s: State, step: Step): Option<nat> {
    match step
    case Complete(i, _, _) => Some(i)
    case CleanUp(i) => Some(i)
    case DeleteLate(i) => Some(i)
    case Notify(i) => Some(i)
    case Wake | TimeOut | Collect | Install => if s.caller.Waiting? || s.caller.Collecting? || s.caller.Collected? then Some(s.caller.i) else None
    case TearDown | TearDownForClose | Destruct => s.socket.chat
    case _ => None
  }

  predicate OfCompletion(step: Step) { step.Complete? || step.CleanUp? || step.DeleteLate? || step.Notify? }

  predicate OfTearDown(step: Step) { step.TearDown? || step.TearDownForClose? || step.Destruct? }

  lemma CompletionKeeps(a: Attempt, i: nat, installed: bool, role: Role, step: Step)
    requires AttemptOk(a, i, installed, role)
    ensures step.Complete? && a.completion == Running && !(step.error.Some? && step.opens) ==>
              AttemptOk(AfterComplete(a, i, step.error, step.opens), i, installed, role)
    ensures a.completion.Clearing? ==> AttemptOk(AfterCleanUp(a), i, installed, role)
    ensures a.completion == Deleting ==> AttemptOk(AfterDelete(a), i, installed, role)
    ensures a.completion == Notifying ==> AttemptOk(a.(completion := Finished), i, installed, role)
  {
  }

  lemma CompletionOk(s: State, step: Step)
    requires Inv(s) && Enabled(s, step) && Touched(s, step).Some?
    requires OfCompletion(step)
    ensures var i, t := Touched(s, step).value, Apply(s, step);
            i < |s.attempts| == |t.attempts| && AttemptOk(t.attempts[i], i, t.socket.chat == Some(i), RoleOf(t.caller, i))
  {
    var i := Touched(s, step).value;
    assert AttemptOk(s.attempts[i], i, s.socket.chat == Some(i), RoleOf(s.caller, i));
    hide AllOk, SocketOk, AttemptOk, AfterComplete, AfterCleanUp, AfterDelete;
    CompletionKeeps(s.attempts[i], i, s.socket.chat == Some(i), RoleOf(s.caller, i), step);
  }

  lemma TearDownOk(s: State, step: Step)
    requires Inv(s) && Enabled(s, step) && Touched(s, step).Some?
    requires OfTearDown(step)
    ensures var i, t := Touched(s, step).value, Apply(s, step);
            i < |s.attempts| == |t.attempts| && AttemptOk(t.attempts[i], i, t.socket.chat == Some(i), RoleOf(t.caller, i))
  {
    var i := Touched(s, step).value;
    assert AttemptOk(s.attempts[i], i, s.socket.chat == Some(i), RoleOf(s.caller, i));
    hide AllOk;
  }

  /** The caller's part passes from waiting to collecting, holding and nothing. */
  lemma RolePasses(a: Attempt, i: nat, e: Option<nat>, r: Option<Handle>)
    ensures AttemptOk(a, i, false, Waits) && a.record.done ==> AttemptOk(a, i, false, Collects)
    ensures AttemptOk(a, i, false, Waits) && !a.record.done ==>
              AttemptOk(a.(record := a.record.(abandoned := true)), i, false, Nothing)
    ensures AttemptOk(a, i, false, Collects) ==>
              AttemptOk(a.(callerDeletes := a.callerDeletes + 1), i, false, Holds(a.record.error, a.record.result))
    ensures AttemptOk(a, i, false, Holds(e, r)) ==>
              AttemptOk(a, i, r.Some?, Nothing) && (e.Some? ==> r == None) && (r.Some? ==> r == Some(i))
  {
  }

  lemma WakeOk(s: State)
    requires Inv(s) && Enabled(s, Wake)
    ensures var i, t := s.caller.i, Apply(s, Wake);
            i < |s.attempts| == |t.attempts| && AttemptOk(t.attempts[i], i, t.socket.chat == Some(i), RoleOf(t.caller, i))
  {
    var i := s.caller.i;
    assert AttemptOk(s.attempts[i], i, false, RoleOf(s.caller, i));
    hide AllOk, AttemptOk;
    RolePasses(s.attempts[i], i, None, None);
  }

  lemma TimeOutOk(s: State)
    requires Inv(s) && Enabled(s, TimeOut)
    ensures var i, t := s.caller.i, Apply(s, TimeOut);
            i < |s.attempts| == |t.attempts| && AttemptOk(t.attempts[i], i, t.socket.chat == Some(i), RoleOf(t.caller, i))
  {
    var i := s.caller.i;
    assert AttemptOk(s.attempts[i], i, false, RoleOf(s.caller, i));
    hide AllOk, AttemptOk;
    RolePasses(s.attempts[i], i, None, None);
  }

  lemma CollectOk(s: State)
    requires Inv(s) && Enabled(s, Collect)
    ensures var i, t := s.caller.i, Apply(s, Collect);
            i < |s.attempts| == |t.attempts| && AttemptOk(t.attempts[i], i, t.socket.chat == Some(i), RoleOf(t.caller, i))
  {
    var i := s.caller.i;
    assert AttemptOk(s.attempts[i], i, false, RoleOf(s.caller, i));
    hide AllOk, AttemptOk;
    RolePasses(s.attempts[i], i, None, None);
  }

  lemma InstallOk(s: State)
    requires Inv(s) && Enabled(s, Install)
    ensures var i, t := s.caller.i, Apply(s, Install);
            i < |s.attempts| == |t.attempts| && AttemptOk(t.attempts[i], i, t.socket.chat == Some(i), RoleOf(t.caller, i))
  {
    var i := s.caller.i;
    assert AttemptOk(s.attempts[i], i, false, RoleOf(s.caller, i));
    hide AllOk, AttemptOk;
    RolePasses(s.attempts[i], i, s.caller.error, s.caller.result);
  }

  lemma CallerTouched(s: State, step: Step)
    requires Enabled(s, step) && Touched(s, step).Some? && !OfCompletion(step) && !OfTearDown(step)
    ensures step in {Wake, TimeOut, Collect, Install} && (s.caller.Waiting? || s.caller.Collecting? || s.caller.Collected?)
    ensures Touched(s, step) == Some(s.caller.i)
  {
  }

  /** The attempt a step works on keeps its invariant. */
  lemma TouchedOk(s: State, step: Step)
    requires Inv(s) && Enabled(s, step) && Touched(s, step).Some?
    ensures var i, t := Touched(s, step).value, Apply(s, step);
            i < |s.attempts| == |t.attempts| && AttemptOk(t.attempts[i], i, t.socket.chat == Some(i), RoleOf(t.caller, i))
  {
    hide AllOk, SocketOk, AttemptOk, Apply, Enabled;
    if OfCompletion(step) {
      CompletionOk(s, step);
    } else if OfTearDown(step) {
      TearDownOk(s, step);
    } else {
      CallerTouched(s, step);
      if step == Wake {
        WakeOk(s);
      } else if step == TimeOut {
        TimeOutOk(s);
      } else if step == Collect {
        CollectOk(s);
      } else {
        InstallOk(s);
      }
    }
  }

  lemma SocketKept(s: State, step: Step)
    requires Inv(s) && Enabled(s, step)
    ensures SocketOk(Apply(s, step))
  {
    hide AllOk, AfterComplete, AfterCleanUp, AfterDelete, AttemptOk, RoleOf;
    if step == Collect {
      ResultIsOwn(s, s.caller.i);
    }
  }

  lemma ResultIsOwn(s: State, i: nat)
    requires Inv(s) && i < |s.attempts|
    ensures s.attempts[i].record.result in {None, Some(i)}
  {
    assert AttemptOk(s.attempts[i], i, s.socket.chat == Some(i), RoleOf(s.caller, i));
  }

  lemma OthersUntouched(s: State, step: Step, j: nat)
    requires SocketOk(s) && Enabled(s, step) && j < |s.attempts| && Touched(s, step) != Some(j)
    ensures var t := Apply(s, step);
            |t.attempts| >= |s.attempts| && t.attempts[j] == s.attempts[j] &&
            RoleOf(t.caller, j) == RoleOf(s.caller, j) &&
            (t.socket.chat == Some(j) <==> s.socket.chat == Some(j))
  {
    hide AfterComplete, AfterCleanUp, AfterDelete;
  }

  lemma StepKeepsInv(s: State, step: Step)
    requires Inv(s) && Enabled(s, step)
    ensures Inv(Apply(s, step))
  {
    hide AttemptOk, Apply, Enabled, RoleOf, SocketOk;
    var t := Apply(s, step);
    SocketKept(s, step);
    forall j: nat | j < |s.attempts| && Touched(s, step) != Some(j)
      ensures |t.attempts| >= |s.attempts| && t.attempts[j] == s.attempts[j] &&
              RoleOf(t.caller, j) == RoleOf(s.caller, j) &&
              (t.socket.chat == Some(j) <==> s.socket.chat == Some(j))
    {
      OthersUntouched(s, step, j);
    }
    if Touched(s, step).Some? {
      TouchedOk(s, step);
      OneChanged(s, t, Touched(s, step).value);
    } else {
      NewAttemptOk(s, step);
    }
  }

  lemma NewAttemptOk(s: State, step: Step)
    requires Inv(s) && Enabled(s, step) && Touched(s, step) == None
    ensures var t := Apply(s, step);
            |t.attempts| <= |s.attempts| + 1 &&
            (|t.attempts| > |s.attempts| ==>
               AttemptOk(t.attempts[|s.attempts|], |s.attempts|, t.socket.chat == Some(|s.attempts|), RoleOf(t.caller, |s.attempts|)))
  {
    hide AllOk, AttemptOk, Apply, Enabled, RoleOf;
    if step.Issue? {
      FreshOk(|s.attempts|);
      IssueAppends(s, step.accepted);
    } else {
      Unappended(s, step);
    }
  }

  lemma IssueAppends(s: State, accepted: bool)
    requires SocketOk(s) && Enabled(s, Issue(accepted))
    ensures var t, n := Apply(s, Issue(accepted)), |s.attempts|;
            t.attempts == s.attempts + [Attempt(NEW_RECORD, if accepted then Running else Refused, One(!accepted), 0, false, 0, 0)] &&
            t.socket.chat == None && RoleOf(t.caller, n) == if accepted then Waits else Nothing
  {
    hide AllOk, AttemptOk;
  }

  lemma Unappended(s: State, step: Step)
    requires Enabled(s, step) && Touched(s, step) == None && !step.Issue?
    ensures Apply(s, step).attempts == s.attempts
  {
    hide AllOk, AttemptOk;
  }

  lemma FreshOk(i: nat)
    ensures AttemptOk(Attempt(NEW_RECORD, Running, 0, 0, false, 0, 0), i, false, Waits)
    ensures AttemptOk(Attempt(NEW_RECORD, Refused, 1, 0, false, 0, 0), i, false, Nothing)
  {
  }

  lemma {:induction false} RunKeepsInv(steps: seq<Step>)
    requires Run(steps)
    ensures Inv(After(steps))
  {
    hide Apply, Enabled, Inv;
    if steps == [] {
      InitInv();
    } else {
      var front := steps[..|steps| - 1];
      RunKeepsInv(front);
      StepKeepsInv(After(front), steps[|steps| - 1]);
    }
  }

  lemma InitInv()
    ensures Inv(Init())
  {
  }

  // What holds in every run.

  /** Both sides are past their last use of the state of the attempt. */
  predicate Settled(s: State, i: nat)
    requires i < |s.attempts|
  {
    s.attempts[i].completion in {Refused, Notifying, Finished} &&
    var role := RoleOf(s.caller, i); role == Nothing || role.Holds?
  }

  lemma AttemptInRun(steps: seq<Step>, i: nat)
    requires Run(steps) && i < |After(steps).attempts|
    ensures var s := After(steps); AttemptOk(s.attempts[i], i, s.socket.chat == Some(i), RoleOf(s.caller, i))
  {
    hide Apply, Enabled, AttemptOk;
    RunKeepsInv(steps);
  }

  /** The state of an attempt is deleted at most once, and once both sides are past it exactly once:
      by the completion if the caller gave up first, by the caller otherwise. */
  lemma DeletedExactlyOnce(steps: seq<Step>, i: nat)
    requires Run(steps) && i < |After(steps).attempts|
    ensures var s := After(steps); var a := s.attempts[i];
            a.callerDeletes + a.completionDeletes <= 1 &&
            (Settled(s, i) ==> a.callerDeletes == One(!a.record.abandoned) && a.completionDeletes == One(a.record.abandoned))
  {
    hide Run, After;
    AttemptInRun(steps, i);
  }

  /** No step that locks, reads or deletes a state comes after its deletion. */
  lemma LiveWhenUsed(steps: seq<Step>, step: Step, i: nat)
    requires Run(steps) && Enabled(After(steps), step) && Touched(After(steps), step) == Some(i)
    requires step.Complete? || step.CleanUp? || step.DeleteLate? || step.Wake? || step.TimeOut? || step.Collect?
    ensures i < |After(steps).attempts|
    ensures After(steps).attempts[i].callerDeletes + After(steps).attempts[i].completionDeletes == 0
  {
    hide Run, After;
    AttemptInRun(steps, i);
  }

  /** A handle that an attempt brought is in exactly one place: installed as chat, on its way to the
      caller or to the late clean-up, or disconnected and destroyed, each once. */
  lemma HandlesConserved(steps: seq<Step>, i: nat)
    requires Run(steps) && i < |After(steps).attempts|
    ensures var s := After(steps);
            HandleAccountedFor(s.attempts[i], s.socket.chat == Some(i), RoleOf(s.caller, i))
  {
    hide Run, After;
    AttemptInRun(steps, i);
  }

  /** When the caller is between calls and the completion is over, the handle of every attempt but the
      installed one has been disconnected and destroyed exactly once; after the destructor, all have. */
  lemma NoHandleLeft(steps: seq<Step>, i: nat)
    requires Run(steps) && i < |After(steps).attempts|
    requires After(steps).caller in {Idle, Gone} && After(steps).attempts[i].completion in {Refused, Notifying, Finished}
    ensures var s := After(steps); var a := s.attempts[i];
            a.disconnects == a.destroys == One(a.gotHandle && s.socket.chat != Some(i))
    ensures After(steps).caller == Gone ==> After(steps).attempts[i].destroys == One(After(steps).attempts[i].gotHandle)
  {
    AttemptInRun(steps, i);
    RunKeepsInv(steps);
    hide Run, After;
  }

  /** connected promises an installed handle, except in close() between tearing it down and clearing
      the flag. */
  lemma ConnectedHasHandle(steps: seq<Step>)
    requires Run(steps) && After(steps).socket.connected
    ensures After(steps).socket.chat.Some? || After(steps).caller in {ClosingFlag, Gone}
    ensures After(steps).caller in {Idle, Closing, ClosingFlag, Gone}
  {
    hide Apply, Enabled, Run, After;
    RunKeepsInv(steps);
  }

  // The connected flag and interruptions.

  predicate Clears(step: Step) { step.Begin? || step.Interrupted? || step.FinishClose? }

  /** A connection was announced and nothing since then clears the flag. */
  ghost predicate AnnouncedLast(steps: seq<Step>) {
    exists k :: 0 <= k < |steps| && steps[k] == Announce && forall j | k < j < |steps| :: !Clears(steps[j])
  }

  lemma AnnouncedLastStep(front: seq<Step>, last: Step)
    ensures AnnouncedLast(front + [last]) <==> last == Announce || (AnnouncedLast(front) && !Clears(last))
  {
    var steps, n := front + [last], |front|;
    if last == Announce {
      assert steps[n] == Announce;
    } else if AnnouncedLast(front) && !Clears(last) {
      var k :| 0 <= k < n && front[k] == Announce && forall j | k < j < n :: !Clears(front[j]);
      assert steps[k] == Announce;
    } else if AnnouncedLast(steps) {
      var k :| 0 <= k <= n && steps[k] == Announce && forall j | k < j <= n :: !Clears(steps[j]);
      assert !Clears(steps[n]) && front[k] == Announce;
      forall j | k < j < n ensures !Clears(front[j]) { assert steps[j] == front[j]; }
      assert false;
    }
  }

  /** The flag tells whether a connection was announced after the last thing that clears it. */
  lemma {:induction false} ConnectedIffAnnounced(steps: seq<Step>)
    requires Run(steps)
    ensures After(steps).socket.connected <==> AnnouncedLast(steps)
  {
    hide Run, After, Apply, Enabled, AnnouncedLast, Clears;
    if steps == [] {
      InitRun();
      assert !AnnouncedLast([]) by { NoneAnnounced(); }
    } else {
      var front, last := steps[..|steps| - 1], steps[|steps| - 1];
      LastStep(steps);
      ConnectedIffAnnounced(front);
      FlagStep(After(front), last);
      AnnouncedLastStep(front, last);
      assert front + [last] == steps;
    }
  }

  lemma NoneAnnounced()
    ensures !AnnouncedLast([])
  {
  }

  lemma LastStep(steps: seq<Step>)
    requires Run(steps) && steps != []
    ensures var front, last := steps[..|steps| - 1], steps[|steps| - 1];
            Run(front) && Enabled(After(front), last) && After(steps) == Apply(After(front), last)
  {
    hide Apply, Enabled;
  }

  lemma FlagStep(s: State, step: Step)
    requires Enabled(s, step)
    ensures Apply(s, step).socket.connected == (step == Announce || (s.socket.connected && !Clears(step)))
  {
  }

  // What the steps alone say.

  /** How the completion of an attempt was called: with an error, with a handle, or with neither. */
  datatype Completed = Completed(error: Option<nat>, opens: bool)

  function Front(steps: seq<Step>): (r: seq<Step>)
    requires Run(steps) && steps != []
    ensures Run(r) && |r| < |steps|
  {
    steps[..|steps| - 1]
  }

  /** How many attempts have been made. */
  function Issues(steps: seq<Step>): nat {
    if steps == [] then 0 else Issues(steps[..|steps| - 1]) + One(steps[|steps| - 1].Issue?)
  }

  /** The call of attempt i's completion. */
  function CompletionOf(steps: seq<Step>, i: nat): Option<Completed> {
    if steps == [] then None
    else
      var last := steps[|steps| - 1];
      if last.Complete? && last.i == i then Some(Completed(last.error, last.opens))
      else CompletionOf(steps[..|steps| - 1], i)
  }

  /** Waiting for attempt i, the last one at that time, timed out. */
  predicate TimedOut(steps: seq<Step>, i: nat) {
    steps != [] &&
    (TimedOut(steps[..|steps| - 1], i) || (steps[|steps| - 1] == TimeOut && Issues(steps[..|steps| - 1]) == i + 1))
  }

  /** The device was reported as revoked, and how often that has not been taken in yet. */
  function Unmarked(steps: seq<Step>): int {
    if steps == [] then 0
    else
      Unmarked(steps[..|steps| - 1]) +
      if steps[|steps| - 1] == Interrupted(true) then 1 else if steps[|steps| - 1] == MarkInvalidated then -1 else 0
  }

  predicate AttemptFollows(a: Attempt, i: nat, c: Option<Completed>, timedOut: bool) {
    (c == None <==> a.completion in {Refused, Running}) &&
    (a.gotHandle <==> c.Some? && c.value.opens) &&
    (c.Some? && c.value.opens ==> c.value.error == None) &&
    (a.record.abandoned <==> timedOut) &&
    (a.record.done ==>
       c.Some? && a.record.error == c.value.error && a.record.result == if c.value.opens then Some(i) else None)
  }

  predicate CallerFollows(s: State, c: Option<Completed>) {
    var last := |s.attempts| - 1;
    (s.caller.Waiting? || s.caller.Collecting? || s.caller.Collected? ==> s.caller.i == last) &&
    (s.socket.chat.Some? ==> s.socket.chat.value == last) &&
    (s.caller.Collected? ==>
       c.Some? && s.caller.error == c.value.error && s.caller.result == if c.value.opens then Some(s.caller.i) else None)
  }

  /** The state is the one that the steps lead to. */
  ghost predicate Follows(s: State, steps: seq<Step>) {
    |s.attempts| == Issues(steps) && s.invalidations == Unmarked(steps) &&
    (s.socket.stopping <==> BeginClose in steps) &&
    (forall i: nat | i >= |s.attempts| :: CompletionOf(steps, i) == None && !TimedOut(steps, i)) &&
    (forall i: nat | i < |s.attempts| ::
       AttemptFollows(s.attempts[i], i, CompletionOf(steps, i), TimedOut(steps, i))) &&
    CallerFollows(s, if s.attempts == [] then None else CompletionOf(steps, |s.attempts| - 1))
  }

  /** What one more step adds. */
  lemma StepsExtend(steps: seq<Step>, step: Step, i: nat)
    ensures Issues(steps + [step]) == Issues(steps) + One(step.Issue?)
    ensures CompletionOf(steps + [step], i) ==
            if step.Complete? && step.i == i then Some(Completed(step.error, step.opens)) else CompletionOf(steps, i)
    ensures TimedOut(steps + [step], i) <==> TimedOut(steps, i) || (step == TimeOut && Issues(steps) == i + 1)
    ensures Unmarked(steps + [step]) ==
            Unmarked(steps) + if step == Interrupted(true) then 1 else if step == MarkInvalidated then -1 else 0
  {
    assert (steps + [step])[..|steps|] == steps;
  }

  /** The attempt i after a step. */
  lemma AttemptFollowsStep(s: State, step: Step, i: nat, c: Option<Completed>, timedOut: bool)
    requires Inv(s) && Enabled(s, step) && i < |s.attempts| && AttemptFollows(s.attempts[i], i, c, timedOut)
    requires s.caller.Waiting? ==> s.caller.i == |s.attempts| - 1
    ensures i < |Apply(s, step).attempts|
    ensures AttemptFollows(Apply(s, step).attempts[i], i,
                           if step.Complete? && step.i == i then Some(Completed(step.error, step.opens)) else c,
                           timedOut || (step == TimeOut && |s.attempts| == i + 1))
  {
    if Touched(s, step) == Some(i) {
      assert AttemptOk(s.attempts[i], i, s.socket.chat == Some(i), RoleOf(s.caller, i));
    } else {
      OthersUntouched(s, step, i);
    }
  }

  lemma CallerFollowsStep(s: State, step: Step, c: Option<Completed>, timedOut: bool)
    requires Inv(s) && Enabled(s, step) && CallerFollows(s, c)
    requires s.attempts != [] ==> AttemptFollows(s.attempts[|s.attempts| - 1], |s.attempts| - 1, c, timedOut)
    ensures var last := |s.attempts| - 1;
            CallerFollows(Apply(s, step),
                          if step.Issue? then None
                          else if step.Complete? && step.i == last then Some(Completed(step.error, step.opens)) else c)
  {
    hide AllOk, AfterComplete, AfterCleanUp, AfterDelete, AttemptOk, RoleOf;
    if step == Collect || step.Complete? {
      CollectedFollows(s, step, c, timedOut);
    }
  }

  lemma CollectedFollows(s: State, step: Step, c: Option<Completed>, timedOut: bool)
    requires Inv(s) && Enabled(s, step) && CallerFollows(s, c) && (step == Collect || step.Complete?)
    requires s.attempts != [] ==> AttemptFollows(s.attempts[|s.attempts| - 1], |s.attempts| - 1, c, timedOut)
    ensures step == Collect ==>
              var a := s.attempts[s.caller.i];
              c.Some? && a.record.error == c.value.error && a.record.result == if c.value.opens then Some(s.caller.i) else None
    ensures step.Complete? && s.caller.Collected? ==> step.i != s.caller.i
  {
    if step == Collect || s.caller.Collected? {
      var i := s.caller.i;
      assert AttemptOk(s.attempts[i], i, s.socket.chat == Some(i), RoleOf(s.caller, i));
    }
  }

  lemma FollowsStep(s: State, steps: seq<Step>, step: Step)
    requires Inv(s) && Enabled(s, step) && Follows(s, steps)
    ensures Follows(Apply(s, step), steps + [step])
  {
    hide Inv, AttemptFollows, CallerFollows, Issues, CompletionOf, TimedOut, Unmarked;
    var t, all := Apply(s, step), steps + [step];
    forall i: nat ensures
        CompletionOf(all, i) == (if step.Complete? && step.i == i then Some(Completed(step.error, step.opens)) else CompletionOf(steps, i)) &&
        (TimedOut(all, i) <==> TimedOut(steps, i) || (step == TimeOut && Issues(steps) == i + 1))
    {
      StepsExtend(steps, step, i);
    }
    StepsExtend(steps, step, 0);
    CountsFollow(s, step);
    assert BeginClose in all <==> BeginClose in steps || step == BeginClose;
    WaitingIsLast(s, if s.attempts == [] then None else CompletionOf(steps, |s.attempts| - 1));
    forall i: nat | i < |s.attempts|
      ensures i < |t.attempts| && AttemptFollows(t.attempts[i], i, CompletionOf(all, i), TimedOut(all, i))
    {
      AttemptFollowsStep(s, step, i, CompletionOf(steps, i), TimedOut(steps, i));
    }
    if step.Issue? {
      NewFollows(s, step.accepted);
    }
    CallerFollowsStep(s, step, if s.attempts == [] then None else CompletionOf(steps, |s.attempts| - 1),
                      s.attempts != [] && TimedOut(steps, |s.attempts| - 1));
  }

  lemma WaitingIsLast(s: State, c: Option<Completed>)
    requires CallerFollows(s, c)
    ensures s.caller.Waiting? ==> s.caller.i == |s.attempts| - 1
  {
  }

  lemma CountsFollow(s: State, step: Step)
    requires Enabled(s, step)
    ensures var t := Apply(s, step);
            |t.attempts| == |s.attempts| + One(step.Issue?) &&
            (t.socket.stopping <==> s.socket.stopping || step == BeginClose) &&
            t.invalidations == s.invalidations
                               + (if step == Interrupted(true) then 1 else if step == MarkInvalidated then -1 else 0) &&
            (step.Complete? ==> step.i < |s.attempts|) && (step == TimeOut ==> |s.attempts| > 0)
  {
    hide AfterComplete, AfterCleanUp, AfterDelete;
  }

  lemma NewFollows(s: State, accepted: bool)
    requires Enabled(s, Issue(accepted))
    ensures AttemptFollows(Apply(s, Issue(accepted)).attempts[|s.attempts|], |s.attempts|, None, false)
  {
  }

  lemma {:induction false} RunFollows(steps: seq<Step>)
    requires Run(steps)
    ensures Follows(After(steps), steps)
    decreases |steps|
  {
    hide Run, After, Apply, Enabled, Inv, Follows;
    if steps == [] {
      InitRun();
      InitFollows();
    } else {
      LastStep(steps);
      RunFollows(Front(steps));
      RunKeepsInv(Front(steps));
      FollowsStep(After(Front(steps)), Front(steps), steps[|steps| - 1]);
      assert Front(steps) + [steps[|steps| - 1]] == steps;
    }
  }

  lemma InitFollows()
    ensures Follows(Init(), [])
  {
  }

  /** In every run what attempt i records and what the caller reads from it is what its completion was
      called with; an attempt brought a handle if and only if its completion was called with one, and it
      was abandoned if and only if waiting for it timed out. */
  lemma RecordedAsCompleted(steps: seq<Step>, i: nat)
    requires Run(steps) && i < |After(steps).attempts|
    ensures var s := After(steps); var a, c := s.attempts[i], CompletionOf(steps, i);
            (a.gotHandle <==> c.Some? && c.value.opens) && (a.record.abandoned <==> TimedOut(steps, i)) &&
            (a.record.done ==> c == Some(Completed(a.record.error, a.record.result == Some(i)))) &&
            (s.caller.Collected? && s.caller.i == i ==> c == Some(Completed(s.caller.error, s.caller.result == Some(i))))
  {
    hide Run, After;
    RunFollows(steps);
    assert AttemptFollows(After(steps).attempts[i], i, CompletionOf(steps, i), TimedOut(steps, i));
  }

  /** Whatever chat holds is the handle that the completion of the last attempt was called with. */
  lemma ChatIsLastHandle(steps: seq<Step>)
    requires Run(steps) && After(steps).socket.chat.Some?
    ensures Issues(steps) > 0 && After(steps).socket.chat == Some(Issues(steps) - 1)
    ensures CompletionOf(steps, Issues(steps) - 1) == Some(Completed(None, true))
  {
    hide Run, After;
    RunFollows(steps);
    var i := Issues(steps) - 1;
    AttemptInRun(steps, i);
    assert AttemptFollows(After(steps).attempts[i], i, CompletionOf(steps, i), TimedOut(steps, i));
    HandlesConserved(steps, i);
  }

  // The deauthorized flag and revocations.

  /** With this step the server revokes the device: an interruption that said so is taken in, or the
      last attempt was completed with the error 171 and the caller comes to it. */
  predicate Revokes(steps: seq<Step>, step: Step) {
    step == MarkInvalidated ||
    (step == Install && Issues(steps) > 0 && CompletionOf(steps, Issues(steps) - 1).Some? &&
     CompletionOf(steps, Issues(steps) - 1).value.error == Some(171))
  }

  /** A revocation has been taken in after the last ClearDeauthorized. */
  predicate Revoked(steps: seq<Step>) {
    steps != [] &&
    (Revokes(steps[..|steps| - 1], steps[|steps| - 1]) ||
     (Revoked(steps[..|steps| - 1]) && steps[|steps| - 1] != ClearDeauthorized))
  }

  lemma {:induction false} DeauthorizedIffRevoked(steps: seq<Step>)
    requires Run(steps)
    ensures After(steps).socket.deauthorized <==> Revoked(steps)
    decreases |steps|
  {
    hide Run, After, Apply, Enabled, Revokes;
    if steps == [] {
      InitRun();
    } else {
      LastStep(steps);
      DeauthorizedIffRevoked(Front(steps));
      RevocationStep(Front(steps), steps[|steps| - 1]);
    }
  }

  lemma RevocationStep(steps: seq<Step>, step: Step)
    requires Run(steps) && Enabled(After(steps), step)
    ensures Apply(After(steps), step).socket.deauthorized <==>
            Revokes(steps, step) || (After(steps).socket.deauthorized && step != ClearDeauthorized)
  {
    hide Run, After;
    RunFollows(steps);
  }

  /** Inside doConnect and not yet past `deauthorized = false`. */
  predicate BeforeClear(c: Caller) {
    c in {Connecting, Issuing, Listening, Listened} || c.Waiting? || c.Collecting? || c.Collected?
  }

  /** How the attempt goes on after a revocation that was taken in when the caller stood at from;
      announced: the flag connected has been set since. */
  predicate OnTheWay(from: Caller, s: State, announced: bool) {
    (BeforeClear(s.caller) ==> BeforeClear(from) && !announced) &&
    (s.caller == Announcing ==> (s.socket.deauthorized <==> from == Announcing) && !announced) &&
    (announced ==> (s.socket.deauthorized <==> from == Announcing)) &&
    (!BeforeClear(from) ==> s.socket.deauthorized)
  }

  lemma OnTheWayStep(from: Caller, s: State, announced: bool, step: Step)
    requires Enabled(s, step) && OnTheWay(from, s, announced) && step != Begin && step != MarkInvalidated
    ensures OnTheWay(from, Apply(s, step), announced || step == Announce)
  {
  }

  lemma {:induction false} OnTheWayRun(steps: seq<Step>, rest: seq<Step>)
    requires Run(steps) && Enabled(After(steps), MarkInvalidated) && Run(steps + [MarkInvalidated] + rest)
    requires Begin !in rest && MarkInvalidated !in rest
    ensures OnTheWay(After(steps).caller, After(steps + [MarkInvalidated] + rest), Announce in rest)
  {
    hide Run, After, Apply, Enabled, OnTheWay;
    var all := steps + [MarkInvalidated] + rest;
    LastStep(all);
    if rest == [] {
      assert all[..|all| - 1] == steps && all[|all| - 1] == MarkInvalidated;
      OnTheWayStart(After(steps));
    } else {
      var front, last := rest[..|rest| - 1], rest[|rest| - 1];
      assert all[..|all| - 1] == steps + [MarkInvalidated] + front && all[|all| - 1] == last;
      OnTheWayRun(steps, front);
      OnTheWayStep(After(steps).caller, After(steps + [MarkInvalidated] + front), Announce in front, last);
      assert Announce in rest <==> Announce in front || last == Announce by { assert front + [last] == rest; }
    }
  }

  lemma OnTheWayStart(s: State)
    requires Enabled(s, MarkInvalidated)
    ensures OnTheWay(s.caller, Apply(s, MarkInvalidated), false)
  {
  }

  /** A revocation survives the attempt during which it is taken in, once that attempt has succeeded and
      as long as no other one begins, if and only if it is taken in after `deauthorized = false`. */
  lemma RevocationSurvivesIff(steps: seq<Step>, rest: seq<Step>)
    requires Run(steps) && Enabled(After(steps), MarkInvalidated) && Run(steps + [MarkInvalidated] + rest)
    requires Begin !in rest && MarkInvalidated !in rest && Announce in rest
    ensures After(steps + [MarkInvalidated] + rest).socket.deauthorized <==> After(steps).caller == Announcing
  {
    hide Run, After, Apply, Enabled;
    OnTheWayRun(steps, rest);
  }

  /** Taken in between attempts, or at the end of one, it stays until the next connect or reconnect. */
  lemma RevocationStays(steps: seq<Step>, rest: seq<Step>)
    requires Run(steps) && Enabled(After(steps), MarkInvalidated) && Run(steps + [MarkInvalidated] + rest)
    requires Begin !in rest && MarkInvalidated !in rest && !BeforeClear(After(steps).caller)
    ensures After(steps + [MarkInvalidated] + rest).socket.deauthorized
  {
    hide Run, After, Apply, Enabled;
    OnTheWayRun(steps, rest);
  }

  lemma Extend(steps: seq<Step>, step: Step)
    requires Run(steps) && Enabled(After(steps), step)
    ensures Run(steps + [step]) && After(steps + [step]) == Apply(After(steps), step)
  {
    assert (steps + [step])[..|steps|] == steps;
  }

  /** Not a property of doConnect: an interruption that arrives once the listener is registered and
      before the flag is set is forgotten. The caller goes on, and the socket ends up connected and not
      deauthorized although the connection was invalidated. */
  lemma InterruptionForgotten(steps: seq<Step>) returns (all: seq<Step>)
    requires Run(steps) && After(steps).caller == Listened && After(steps).listener
    ensures all == steps + [Interrupted(true), MarkInvalidated, ClearDeauthorized, Announce]
    ensures Run(all) && After(all).socket.connected && !After(all).socket.deauthorized
  {
    hide Run, After;
    RunKeepsInv(steps);
    Extend(steps, Interrupted(true));
    var a := steps + [Interrupted(true)];
    Extend(a, MarkInvalidated);
    var b := a + [MarkInvalidated];
    Extend(b, ClearDeauthorized);
    var c := b + [ClearDeauthorized];
    Extend(c, Announce);
    all := c + [Announce];
  }

  /** One that arrives between the two last statements leaves the socket connected all the same. */
  lemma InterruptionOverwritten(steps: seq<Step>, invalidated: bool)
    requires Run(steps) && After(steps).caller == Announcing && After(steps).listener
    ensures var all := steps + [Interrupted(invalidated)] + [Announce];
            Run(all) && After(all).socket.connected
  {
    hide Run, After;
    RunKeepsInv(steps);
    Extend(steps, Interrupted(invalidated));
    Extend(steps + [Interrupted(invalidated)], Announce);
  }

  /** Such a run: connect, an answer in time, a registered listener. */
  lemma ListenedReachable() returns (steps: seq<Step>)
    ensures Run(steps) && After(steps).caller == Listened && After(steps).listener
  {
    hide Run, After;
    steps := [];
    InitRun();
    Extend(steps, Begin);
    steps := steps + [Begin];
    Extend(steps, TearDown);
    steps := steps + [TearDown];
    Extend(steps, Issue(true));
    steps := steps + [Issue(true)];
    Extend(steps, Complete(0, None, true));
    steps := steps + [Complete(0, None, true)];
    Extend(steps, Wake);
    steps := steps + [Wake];
    Extend(steps, Collect);
    steps := steps + [Collect];
    Extend(steps, Install);
    steps := steps + [Install];
    Extend(steps, InitListener(true));
    steps := steps + [InitListener(true)];
  }

  lemma InitRun()
    ensures Run([]) && After([]) == Init()
  {
  }

  /** Outside doConnect it is heard: the socket stays unconnected until the next connect or
      reconnect. */
  lemma {:induction false} InterruptionHeard(steps: seq<Step>, invalidated: bool, rest: seq<Step>)
    requires Run(steps + [Interrupted(invalidated)] + rest)
    requires Run(steps) && After(steps).caller in {Idle, Closing, ClosingFlag}
    requires Begin !in rest
    ensures After(steps + [Interrupted(invalidated)] + rest).caller in {Idle, Closing, ClosingFlag, Gone}
    ensures !After(steps + [Interrupted(invalidated)] + rest).socket.connected
  {
    hide Run, After, Apply, Enabled;
    var all := steps + [Interrupted(invalidated)] + rest;
    LastStep(all);
    if rest == [] {
      assert all[..|all| - 1] == steps && all[|all| - 1] == Interrupted(invalidated);
      QuietStep(After(steps), Interrupted(invalidated));
    } else {
      var front := rest[..|rest| - 1];
      assert all[..|all| - 1] == steps + [Interrupted(invalidated)] + front;
      assert all[|all| - 1] == rest[|rest| - 1];
      InterruptionHeard(steps, invalidated, front);
      QuietStep(After(steps + [Interrupted(invalidated)] + front), rest[|rest| - 1]);
    }
  }

  lemma QuietStep(s: State, step: Step)
    requires Enabled(s, step) && step != Begin && s.caller in {Idle, Closing, ClosingFlag, Gone}
    requires !s.socket.connected || step.Interrupted?
    ensures Apply(s, step).caller in {Idle, Closing, ClosingFlag, Gone} && !Apply(s, step).socket.connected
  {
  }
}

/** The objects of the source: every method is one critical section, or one stretch of code between two,
    and does to its fields what the step of the protocol does to them. */
module AuthSocket {
  import opened Bytes
  import opened ConnectProtocol

  class ConnectState {
    var done: bool
    var abandoned: bool
    var error: Option<nat>
    var result: Option<Handle>

    function View(): Record
      reads this
    {
      Record(done, abandoned, error, result)
    }

    constructor ()
      ensures View() == NEW_RECORD
    {
      done, abandoned, error, result := false, false, None, None;
    }

    /** The locked part of the completion lambda: who cleans up, and which handle came too late. */
    method Complete(err: Option<nat>, res: Option<Handle>, ghost s: State, ghost i: nat)
      returns (selfCleanup: bool, lateResult: Option<Handle>)
      requires Enabled(s, Step.Complete(i, err, res.Some?)) && s.attempts[i].record == View()
      requires res.Some? ==> res == Some(i)
      modifies this
      ensures var after := Apply(s, Step.Complete(i, err, res.Some?)).attempts[i];
              View() == after.record &&
              after.completion == if selfCleanup then Clearing(lateResult) else Notifying
    {
      selfCleanup := false;
      lateResult := None;
      if abandoned {
        selfCleanup := true;
        if err == None && res.Some? {
          lateResult := res;
        }
      } else {
        error := err;
        if err == None && res.Some? {
          result := res;
        }
        done := true;
      }
    }

    /** wait_for with its predicate, and giving up in the same critical section. */
    method WaitFor(ghost s: State) returns (ok: bool)
      requires s.caller.Waiting? && s.caller.i < |s.attempts| && s.attempts[s.caller.i].record == View()
      requires Known(s, s.socket.chat)
      modifies this
      ensures var step := if ok then Wake else TimeOut;
              Enabled(s, step) && View() == Apply(s, step).attempts[s.caller.i].record
    {
      ok := done;
      if !ok {
        abandoned := true;
      }
    }
  }

  class Impl {
    var chat: Option<Handle>
    var connected: bool
    var deauthorized: bool
    var stopping: bool

    function View(): Socket
      reads this
    {
      Socket(chat, connected, deauthorized, stopping)
    }

    constructor ()
      ensures View() == Init().socket
    {
      chat, connected, deauthorized, stopping := None, false, false, false;
    }

    /** The start of doConnect, up to tearing down what is left of the previous connection; torn is
        the handle given to disconnectAndDestroyBestEffort. */
    method StartConnect(ghost s: State) returns (torn: Option<Handle>)
      requires Enabled(s, Begin) && s.socket == View()
      modifies this
      ensures torn == old(chat)
      ensures var t := Apply(s, Begin);
              Enabled(t, TearDown) && View() == Apply(t, TearDown).socket &&
              Apply(t, TearDown).attempts == TornDown(s.attempts, torn)
    {
      connected := false;
      torn := chat;
      chat := None;
    }

    /** doConnect after the state was deleted; init_listener is the answer of that call. */
    method FinishConnect(err: Option<nat>, res: Option<Handle>, initListener: bool, ghost s: State)
      returns (thrown: bool)
      requires s.caller.Collected? && Enabled(s, Install) && s.socket == View()
      requires err == s.caller.error && res == s.caller.result
      requires Known(s, res) && (res == None ==> !initListener)
      modifies this
      ensures thrown <==> err.Some? || !initListener
      ensures var t := Apply(s, Install);
              if err.Some? then View() == t.socket && t.caller == Idle
              else var u := Apply(t, InitListener(initListener));
                   if thrown then View() == u.socket && u.caller == Idle
                   else View() == Apply(Apply(u, ClearDeauthorized), Announce).socket
    {
      if err.Some? {
        if err.value == DEVICE_DEREGISTERED {
          deauthorized := true;
        }
        return true;
      }
      chat := res;
      if !initListener {
        return true;
      }
      deauthorized := false;
      connected := true;
      return false;
    }

    /** error is the type of the error that comes with the interruption, if one does. */
    method OnConnectionInterrupted(error: Option<nat>, ghost s: State)
      requires s.listener && s.caller != Gone && CallerKnown(s) && Known(s, s.socket.chat) && s.socket == View()
      modifies this
      ensures var t := Apply(s, Interrupted(error == Some(172)));
              View() == if error == Some(172) then Apply(t, MarkInvalidated).socket else t.socket
    {
      connected := false;
      if error.Some? {
        if error.value == CONNECTION_INVALIDATED {
          deauthorized := true;
        }
      }
    }

    method Close(ghost s: State) returns (torn: Option<Handle>)
      requires Enabled(s, BeginClose) && s.socket == View()
      modifies this
      ensures torn == if old(stopping) then None else old(chat)
      ensures var t := Apply(s, BeginClose);
              if s.socket.stopping then View() == t.socket
              else var u := Apply(t, TearDownForClose);
                   View() == Apply(u, FinishClose).socket && u.attempts == TornDown(s.attempts, torn)
    {
      if stopping {
        return None;
      }
      stopping := true;
      torn := chat;
      chat := None;
      connected := false;
    }
  }
}
