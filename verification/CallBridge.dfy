// One account's calls in daemon/main.cpp: BridgeCall, IncomingSipCall, startSipDial, stopSipBridge,
// stopIncomingSipCall, onCallState and BridgeAccount::onIncomingCall. A handler is one step; RingRTC
// and the PBX choose which handler runs next.

module CallMachine {
  import opened Bytes

  type CallId = nat
  type BridgeId = nat

  /** The flags of a BridgeCall or an IncomingSipCall and the bridge it was built on. */
  datatype Leg = Leg(bridge: BridgeId, acceptSent: bool, weHungUp: bool, disconnected: bool)

  /** The call fields of AccountState. */
  datatype Account = Account(
    activeCallId: CallId, isCallee: bool, bridge: Option<BridgeId>, sipCall: Option<Leg>, incomingSipCall: Option<Leg>)

  /** What the handlers ask of RingRTC and of PJSIP. */
  datatype Command =
    | Proceed(id: CallId) | Accept(id: CallId) | HangUpSignal | StartProbe
    | Dial | Ring | AnswerSip | HangUpSip | Busy | NotFound

  datatype Event = IncomingAudio | OutgoingAudio | Ringing | Connected | Ended | Concluded | OtherState

  // The handlers.

  /** With the registration down nothing happens; a makeCall that fails leaves the leg in place. */
  function StartSipDial(a: Account, registered: bool, newBridge: BridgeId): (Account, seq<Command>) {
    if !registered then (a, [])
    else (a.(bridge := Some(newBridge), sipCall := Some(Leg(newBridge, false, false, false))), [Dial])
  }

  function StopSipBridge(a: Account): (Account, seq<Command>) {
    (a.(sipCall := None, bridge := None), if a.sipCall.Some? then [HangUpSip] else [])
  }

  function StopIncomingSipCall(a: Account): (Account, seq<Command>) {
    (a.(incomingSipCall := None, bridge := None), if a.incomingSipCall.Some? then [HangUpSip] else [])
  }

  /** can is canBridgeToSip, registered the registration startSipDial finds, probe whether an
      outgoing_call_target is configured. */
  function OnCallState(a0: Account, id: CallId, event: Event, can: bool, registered: bool, probe: bool, newBridge: BridgeId)
    : (Account, seq<Command>)
  {
    var a := a0.(activeCallId := id);
    match event
    case OutgoingAudio => (a, [Proceed(id)])
    case IncomingAudio => if can then (a.(isCallee := true), [Proceed(id)]) else (a, [])
    case Ringing => if a.isCallee && can then StartSipDial(a, registered, newBridge) else (a, [])
    case Connected =>
      if !a.isCallee && a.incomingSipCall.Some? then (a, [AnswerSip])
      else if !a.isCallee && probe then (a, [StartProbe])
      else (a, [])
    case Ended | Concluded =>
      var (b, first) := StopSipBridge(a);
      var (c, second) := StopIncomingSipCall(b);
      (c.(isCallee := false), first + second)
    case OtherState => (a, [])
  }

  /** BridgeCall::onCallState at PJSIP_INV_STATE_CONFIRMED. */
  function OnConfirmed(a: Account): (Account, seq<Command>)
    requires a.sipCall.Some?
  {
    if a.sipCall.value.acceptSent then (a, [])
    else (a.(sipCall := Some(a.sipCall.value.(acceptSent := true))), [Accept(a.activeCallId)])
  }

  /** BridgeCall::onCallState at PJSIP_INV_STATE_DISCONNECTED. */
  function OnDisconnected(a: Account): (Account, seq<Command>)
    requires a.sipCall.Some?
  {
    var leg := a.sipCall.value;
    (a.(sipCall := Some(leg.(disconnected := true))), if leg.acceptSent && !leg.weHungUp then [HangUpSignal] else [])
  }

  /** IncomingSipCall::onCallState at PJSIP_INV_STATE_DISCONNECTED. */
  function OnIncomingDisconnected(a: Account): (Account, seq<Command>)
    requires a.incomingSipCall.Some?
  {
    var leg := a.incomingSipCall.value;
    (a.(incomingSipCall := Some(leg.(weHungUp := true, disconnected := true))),
     if leg.weHungUp then [] else [HangUpSignal])
  }

  /** BridgeAccount::onIncomingCall: number is whether the request URI names one, resolved whether it
      could be resolved, started whether signal2sip_call_start_outgoing returned a call. */
  function OnIncomingCall(a: Account, number: bool, resolved: bool, started: bool, newBridge: BridgeId)
    : (Account, seq<Command>)
  {
    if a.incomingSipCall.Some? || a.sipCall.Some? then (a, [Busy])
    else if !number then (a, [NotFound])
    else
      var b := a.(bridge := Some(newBridge), incomingSipCall := Some(Leg(newBridge, false, false, false)));
      if !resolved then (StopIncomingSipCall(b).0, [Ring] + StopIncomingSipCall(b).1)
      else
        var c := b.(isCallee := false);
        if started then (c, [Ring]) else (StopIncomingSipCall(c).0, [Ring] + StopIncomingSipCall(c).1)
  }

  // RingRTC and the PBX.

  /** live: calls RingRTC may still report on; rung: those it has reported as ringing. dialledFor and
      placedFor name the Signal call of the current leg; log is every command so far. */
  datatype State = State(
    account: Account, live: set<CallId>, rung: set<CallId>, nextCall: CallId, nextBridge: BridgeId,
    dialledFor: CallId, placedFor: CallId, log: seq<Command>)

  datatype Step =
    | Signal(id: CallId, event: Event, can: bool, registered: bool, probe: bool, over: bool)
    | Confirmed
    | Disconnected
    | IncomingDisconnected
    | Invite(number: bool, resolved: bool, started: bool)
    | SetupCall

  function Init(): State { State(Account(0, false, None, None, None), {}, {}, 1, 0, 0, 0, []) }

  /** INCOMING_AUDIO comes only while no call is live, RINGING at most once for a call, and no event
      for a call that is over. An INVITE may start a call at any time; the call placed by setupAccount
      is started only while none is live. */
  predicate Enabled(s: State, step: Step) {
    match step
    case Signal(id, event, _, _, _, _) =>
      if event == IncomingAudio then s.live == {} && id == s.nextCall
      else id in s.live && (event == Ringing ==> id !in s.rung)
    case Confirmed => s.account.sipCall.Some?
    case Disconnected => s.account.sipCall.Some?
    case IncomingDisconnected => s.account.incomingSipCall.Some?
    case Invite(_, _, _) => true
    case SetupCall => s.live == {}
  }

  function Done(s: State, r: (Account, seq<Command>)): State { s.(account := r.0, log := s.log + r.1) }

  function Apply(s: State, step: Step): State
    requires Enabled(s, step)
  {
    match step
    case Signal(id, event, can, registered, probe, over) =>
      var t := Done(s, OnCallState(s.account, id, event, can, registered, probe, s.nextBridge));
      t.(live := if event == IncomingAudio then {id}
                 else if event == Concluded || (event == Ended && over) then s.live - {id} else s.live,
         rung := if event == Ringing then s.rung + {id} else s.rung,
         nextCall := if event == IncomingAudio then s.nextCall + 1 else s.nextCall,
         nextBridge := s.nextBridge + 1,
         dialledFor := if event == Ringing then id else s.dialledFor)
    case Confirmed => Done(s, OnConfirmed(s.account))
    case Disconnected => Done(s, OnDisconnected(s.account))
    case IncomingDisconnected => Done(s, OnIncomingDisconnected(s.account))
    case Invite(number, resolved, started) =>
      var t := Done(s, OnIncomingCall(s.account, number, resolved, started, s.nextBridge));
      if Placed(s.account, step) then
        t.(live := s.live + {s.nextCall}, placedFor := s.nextCall, nextCall := s.nextCall + 1,
           nextBridge := s.nextBridge + 1)
      else t.(nextBridge := s.nextBridge + 1)
    case SetupCall => s.(live := {s.nextCall}, nextCall := s.nextCall + 1)
  }

  /** The INVITE is taken as far as signal2sip_call_start_outgoing. */
  predicate Attempted(a: Account, step: Step) {
    step.Invite? && !a.incomingSipCall.Some? && !a.sipCall.Some? && step.number && step.resolved
  }

  predicate Placed(a: Account, step: Step) { Attempted(a, step) && step.started }

  predicate Run(steps: seq<Step>)
    decreases |steps|, 0
  {
    steps == [] ||
    (var front := steps[..|steps| - 1]; Run(front) && Enabled(After(front), steps[|steps| - 1]))
  }

  function After(steps: seq<Step>): State
    requires Run(steps)
    decreases |steps|, 1
  {
    if steps == [] then Init() else Apply(After(steps[..|steps| - 1]), steps[|steps| - 1])
  }

  lemma LastStep(steps: seq<Step>)
    requires Run(steps) && steps != []
    ensures var front, last := steps[..|steps| - 1], steps[|steps| - 1];
            Run(front) && Enabled(After(front), last) && After(steps) == Apply(After(front), last)
  {
    hide Apply, Enabled;
  }

  lemma Extend(steps: seq<Step>, step: Step)
    requires Run(steps) && Enabled(After(steps), step)
    ensures Run(steps + [step]) && After(steps + [step]) == Apply(After(steps), step)
  {
    assert (steps + [step])[..|steps|] == steps;
  }

  lemma InitRun()
    ensures Run([]) && After([]) == Init()
  {
  }

  // The invariant.

  function Accepts(s: State, id: CallId): nat { multiset(s.log)[Accept(id)] }

  predicate LegsOk(a: Account) {
    !(a.sipCall.Some? && a.incomingSipCall.Some?) &&
    (a.bridge.Some? <==> a.sipCall.Some? || a.incomingSipCall.Some?) &&
    (a.sipCall.Some? ==> Some(a.sipCall.value.bridge) == a.bridge && a.isCallee && !a.sipCall.value.weHungUp) &&
    (a.incomingSipCall.Some? ==> Some(a.incomingSipCall.value.bridge) == a.bridge && !a.isCallee)
  }

  predicate CallsOk(s: State) {
    var a := s.account;
    (forall c | c in s.live :: c < s.nextCall) && (forall c | c in s.rung :: c < s.nextCall) &&
    (a.isCallee ==> s.live == {a.activeCallId}) &&
    (a.sipCall.Some? ==> s.dialledFor == a.activeCallId && s.dialledFor in s.rung) &&
    (a.incomingSipCall.Some? ==> s.placedFor in s.live)
  }

  ghost predicate AcceptsOk(s: State) {
    (forall c :: Accepts(s, c) <= 1 && (c !in s.rung ==> Accepts(s, c) == 0)) &&
    (s.account.sipCall.Some? ==> Accepts(s, s.dialledFor) == if s.account.sipCall.value.acceptSent then 1 else 0)
  }

  ghost predicate Inv(s: State) { LegsOk(s.account) && CallsOk(s) && AcceptsOk(s) }

  lemma LegsKept(s: State, step: Step)
    requires Inv(s) && Enabled(s, step)
    ensures LegsOk(Apply(s, step).account)
  {
    hide AcceptsOk, Accepts;
  }

  lemma CallsKept(s: State, step: Step)
    requires Inv(s) && Enabled(s, step)
    ensures CallsOk(Apply(s, step))
  {
    hide AcceptsOk, Accepts;
  }

  lemma AcceptsKept(s: State, step: Step)
    requires Inv(s) && Enabled(s, step)
    ensures AcceptsOk(Apply(s, step))
  {
    hide LegsOk;
    var cmds := OnlyConfirmedAccepts(s, step);
    var t := Apply(s, step);
    FlagsKept(s, step);
    hide Apply, Enabled;
    forall c ensures Accepts(t, c) == Accepts(s, c) + multiset(cmds)[Accept(c)] {
      assert multiset(t.log) == multiset(s.log) + multiset(cmds);
    }
  }

  /** Only the handler of CONFIRMED sends an accept, only once for a leg, and for the active call. */
  lemma OnlyConfirmedAccepts(s: State, step: Step) returns (cmds: seq<Command>)
    requires Enabled(s, step)
    ensures Apply(s, step).log == s.log + cmds
    ensures step == Confirmed && !s.account.sipCall.value.acceptSent ==> cmds == [Accept(s.account.activeCallId)]
    ensures !(step == Confirmed && !s.account.sipCall.value.acceptSent) ==> forall c :: Accept(c) !in cmds
  {
    var t := Apply(s, step);
    cmds := t.log[|s.log|..];
  }

  /** A leg keeps its call and its flag; a new one is dialled for a call that rings for the first
      time. */
  lemma FlagsKept(s: State, step: Step)
    requires LegsOk(s.account) && CallsOk(s) && Enabled(s, step)
    ensures var t := Apply(s, step);
            s.rung <= t.rung &&
            (t.account.sipCall.Some? ==>
               if s.account.sipCall.Some? then
                 t.dialledFor == s.dialledFor &&
                 t.account.sipCall.value.acceptSent == (s.account.sipCall.value.acceptSent || step == Confirmed)
               else t.dialledFor !in s.rung && !t.account.sipCall.value.acceptSent)
  {
    hide AcceptsOk, Accepts;
  }

  lemma {:induction false} RunKeepsInv(steps: seq<Step>)
    requires Run(steps)
    ensures Inv(After(steps))
  {
    hide Apply, Enabled, LegsOk, CallsOk, AcceptsOk;
    if steps == [] {
      InitInv();
    } else {
      LastStep(steps);
      var s, last := After(steps[..|steps| - 1]), steps[|steps| - 1];
      RunKeepsInv(steps[..|steps| - 1]);
      LegsKept(s, last);
      CallsKept(s, last);
      AcceptsKept(s, last);
    }
  }

  lemma InitInv()
    ensures Inv(Init())
  {
  }

  // What the steps alone say.

  function Front(steps: seq<Step>): (r: seq<Step>)
    requires Run(steps) && steps != []
    ensures Run(r) && |r| < |steps|
  {
    steps[..|steps| - 1]
  }

  /** Which SIP leg stands: none, one dialled for a Signal call and perhaps answered, or one that came
      in and that the PBX has perhaps hung up. */
  datatype Standing = NoLeg | Dialled(id: CallId, answered: bool) | Incoming(hungUp: bool)

  predicate EndsACall(step: Step) { step.Signal? && step.event in {Ended, Concluded} }

  function StandingOf(steps: seq<Step>): Standing
    decreases |steps|
  {
    if steps == [] then NoLeg
    else
      var front, last := steps[..|steps| - 1], steps[|steps| - 1];
      var before := StandingOf(front);
      if EndsACall(last) then NoLeg
      else if last.Signal? && last.event == Ringing && last.can && last.registered && Armed(front) then
        Dialled(last.id, false)
      else if last == Invite(true, true, true) && before == NoLeg then Incoming(false)
      else if last == Confirmed && before.Dialled? then Dialled(before.id, true)
      else if last == IncomingDisconnected && before.Incoming? then Incoming(true)
      else before
  }

  /** A call that can be bridged has come in, and since then no call has ended and no INVITE, while no
      leg stood, has been taken as far as placing a call. */
  predicate Armed(steps: seq<Step>)
    decreases |steps|
  {
    steps != [] &&
    var front, last := steps[..|steps| - 1], steps[|steps| - 1];
    (last.Signal? && last.event == IncomingAudio && last.can) ||
    (Armed(front) && !EndsACall(last) &&
     !(last.Invite? && last.number && last.resolved && StandingOf(front) == NoLeg))
  }

  predicate Agrees(s: State, standing: Standing) {
    match standing
    case NoLeg => s.account.sipCall == None && s.account.incomingSipCall == None
    case Dialled(id, answered) =>
      s.account.sipCall.Some? && s.account.incomingSipCall == None && s.dialledFor == id &&
      s.account.sipCall.value.acceptSent == answered
    case Incoming(hungUp) =>
      s.account.incomingSipCall.Some? && s.account.sipCall == None && s.account.incomingSipCall.value.weHungUp == hungUp
  }

  lemma StandingStep(s: State, steps: seq<Step>, step: Step)
    requires Inv(s) && Enabled(s, step) && Agrees(s, StandingOf(steps)) && (s.account.isCallee <==> Armed(steps))
    ensures Agrees(Apply(s, step), StandingOf(steps + [step]))
    ensures Apply(s, step).account.isCallee <==> Armed(steps + [step])
  {
    hide AcceptsOk;
    assert (steps + [step])[..|steps|] == steps;
  }

  lemma {:induction false} StandingIs(steps: seq<Step>)
    requires Run(steps)
    ensures Agrees(After(steps), StandingOf(steps)) && (After(steps).account.isCallee <==> Armed(steps))
    decreases |steps|
  {
    hide Run, After, Apply, Enabled, Inv, StandingOf, Armed, Agrees;
    if steps == [] {
      InitRun();
      NothingStands();
    } else {
      LastStep(steps);
      StandingIs(Front(steps));
      RunKeepsInv(Front(steps));
      StandingStep(After(Front(steps)), Front(steps), steps[|steps| - 1]);
      assert Front(steps) + [steps[|steps| - 1]] == steps;
    }
  }

  lemma NothingStands()
    ensures Agrees(Init(), StandingOf([])) && !Armed([]) && !Init().account.isCallee
  {
  }

  /** What a step asks of RingRTC and of PJSIP, command by command, when such a leg stands. */
  ghost predicate Prescribed(cmds: seq<Command>, standing: Standing, armed: bool, step: Step) {
    (forall c :: multiset(cmds)[c] <= 1) &&
    (AnswerSip in cmds <==> step.Signal? && step.event == Connected && standing.Incoming?) &&
    (StartProbe in cmds <==> step.Signal? && step.event == Connected && step.probe && !armed && !standing.Incoming?) &&
    (forall id :: Proceed(id) in cmds <==>
                  step.Signal? && step.id == id &&
                  (step.event == OutgoingAudio || (step.event == IncomingAudio && step.can))) &&
    (forall id :: Accept(id) in cmds <==> step == Confirmed && standing == Dialled(id, false)) &&
    (Dial in cmds <==> step.Signal? && step.event == Ringing && step.can && step.registered && armed) &&
    (Ring in cmds <==> step.Invite? && step.number && standing == NoLeg) &&
    (Busy in cmds <==> step.Invite? && standing != NoLeg) &&
    (NotFound in cmds <==> step.Invite? && !step.number && standing == NoLeg) &&
    (HangUpSip in cmds <==>
       (EndsACall(step) && standing != NoLeg) ||
       (step.Invite? && step.number && standing == NoLeg && !(step.resolved && step.started))) &&
    (HangUpSignal in cmds <==>
       (step == Disconnected && standing.Dialled? && standing.answered) ||
       (step == IncomingDisconnected && standing == Incoming(false)))
  }

  function SentBy(s: State, step: Step): seq<Command>
    requires Enabled(s, step)
  {
    match step
    case Signal(id, event, can, registered, probe, _) =>
      OnCallState(s.account, id, event, can, registered, probe, s.nextBridge).1
    case Confirmed => OnConfirmed(s.account).1
    case Disconnected => OnDisconnected(s.account).1
    case IncomingDisconnected => OnIncomingDisconnected(s.account).1
    case Invite(number, resolved, started) => OnIncomingCall(s.account, number, resolved, started, s.nextBridge).1
    case SetupCall => []
  }

  lemma LogGrows(s: State, step: Step)
    requires Enabled(s, step)
    ensures Apply(s, step).log == s.log + SentBy(s, step)
  {
    if step == SetupCall {
      assert s.log + [] == s.log;
    }
  }

  lemma SignalPrescribed(s: State, standing: Standing, step: Step)
    requires Enabled(s, step) && step.Signal? && LegsOk(s.account) && Agrees(s, standing)
    ensures Prescribed(SentBy(s, step), standing, s.account.isCallee, step)
  {
  }

  lemma InvitePrescribed(s: State, standing: Standing, step: Step)
    requires Enabled(s, step) && step.Invite? && LegsOk(s.account) && Agrees(s, standing)
    ensures Prescribed(SentBy(s, step), standing, s.account.isCallee, step)
  {
  }

  lemma SipPrescribed(s: State, standing: Standing, step: Step)
    requires Enabled(s, step) && !step.Signal? && !step.Invite? && LegsOk(s.account) && Agrees(s, standing)
    requires s.account.sipCall.Some? ==> s.dialledFor == s.account.activeCallId
    ensures Prescribed(SentBy(s, step), standing, s.account.isCallee, step)
  {
  }

  /** The commands of every step of every run are those prescribed by the steps before it. */
  lemma CommandsOfAStep(steps: seq<Step>, step: Step) returns (cmds: seq<Command>)
    requires Run(steps) && Enabled(After(steps), step)
    ensures Apply(After(steps), step).log == After(steps).log + cmds
    ensures Prescribed(cmds, StandingOf(steps), Armed(steps), step)
  {
    hide Run, After, AcceptsOk, StandingOf, Armed, Prescribed, SentBy, Apply, Agrees;
    StandingIs(steps);
    RunKeepsInv(steps);
    var s := After(steps);
    cmds := SentBy(s, step);
    LogGrows(s, step);
    if step.Signal? {
      SignalPrescribed(s, StandingOf(steps), step);
    } else if step.Invite? {
      InvitePrescribed(s, StandingOf(steps), step);
    } else {
      SipPrescribed(s, StandingOf(steps), step);
    }
  }

  /** Every leg that was dialled or rung has been hung up, except the one that stands. */
  lemma {:induction false} LegsConserved(steps: seq<Step>)
    requires Run(steps)
    ensures var log := multiset(After(steps).log);
            log[Dial] + log[Ring] == log[HangUpSip] + if StandingOf(steps) == NoLeg then 0 else 1
    decreases |steps|
  {
    hide Run, After, Apply, Enabled, StandingOf, Armed;
    if steps == [] {
      InitRun();
      NothingStands();
      assert StandingOf([]) == NoLeg by { StandingAtStart(); }
    } else {
      LastStep(steps);
      var front, last := Front(steps), steps[|steps| - 1];
      LegsConserved(front);
      var cmds := CommandsOfAStep(front, last);
      StandingChanges(front, last);
      assert front + [last] == steps;
      assert multiset(After(steps).log) == multiset(After(front).log) + multiset(cmds);
      assert Dial in multiset(cmds) <==> Dial in cmds;
      assert Ring in multiset(cmds) <==> Ring in cmds;
      assert HangUpSip in multiset(cmds) <==> HangUpSip in cmds;
    }
  }

  lemma StandingAtStart()
    ensures StandingOf([]) == NoLeg
  {
  }

  lemma StandingChanges(steps: seq<Step>, step: Step)
    requires Run(steps) && Enabled(After(steps), step)
    ensures var before, after := StandingOf(steps), StandingOf(steps + [step]);
            (step.Signal? && step.event == Ringing && step.can && step.registered && Armed(steps) ==>
               before == NoLeg && after != NoLeg) &&
            (EndsACall(step) ==> after == NoLeg) &&
            (step.Invite? && before == NoLeg ==> (after != NoLeg <==> step.number && step.resolved && step.started)) &&
            (EndsACall(step) || (step.Invite? && before == NoLeg) ||
             (step.Signal? && step.event == Ringing && step.can && step.registered && Armed(steps)) ||
             (after == NoLeg <==> before == NoLeg))
  {
    StandingIs(steps);
    RunKeepsInv(steps);
    hide Run, After, AcceptsOk;
    assert (steps + [step])[..|steps|] == steps;
  }

  // What holds in every run.

  /** At most one SIP leg; a leg placed by the PBX means the account is not the callee, a dialled one
      that it is; every leg runs on the account's current bridge, and without a leg there is none. After
      ENDED or CONCLUDED of any call there is no leg, no bridge and no callee. */
  lemma OneLegOnTheCurrentBridge(steps: seq<Step>)
    requires Run(steps)
    ensures var a := After(steps).account;
            !(a.sipCall.Some? && a.incomingSipCall.Some?) &&
            (a.incomingSipCall.Some? ==> !a.isCallee && a.bridge == Some(a.incomingSipCall.value.bridge)) &&
            (a.sipCall.Some? ==> a.isCallee && a.bridge == Some(a.sipCall.value.bridge)) &&
            (a.bridge.Some? ==> a.sipCall.Some? || a.incomingSipCall.Some?)
    ensures steps != [] && steps[|steps| - 1].Signal? && steps[|steps| - 1].event in {Ended, Concluded} ==>
              After(steps).account == Account(steps[|steps| - 1].id, false, None, None, None)
  {
    RunKeepsInv(steps);
    if steps != [] {
      LastStep(steps);
    }
    hide Run, After, CallsOk, AcceptsOk;
  }

  /** A dialled leg belongs to the one live Signal call, which has rung and is the active one. */
  lemma DialledLegHasItsCall(steps: seq<Step>)
    requires Run(steps) && After(steps).account.sipCall.Some?
    ensures var s := After(steps);
            s.live == {s.dialledFor} && s.account.activeCallId == s.dialledFor && s.dialledFor in s.rung
  {
    hide Run, After, AcceptsOk;
    RunKeepsInv(steps);
  }

  /** It is never replaced, and it goes only when its own call has ended. */
  lemma DialledLegStays(steps: seq<Step>, step: Step)
    requires Run(steps) && Enabled(After(steps), step) && After(steps).account.sipCall.Some?
    ensures var s, t := After(steps), Apply(After(steps), step);
            if t.account.sipCall.Some? then
              t.dialledFor == s.dialledFor && t.account.sipCall.value.bridge == s.account.sipCall.value.bridge
            else step.Signal? && step.event in {Ended, Concluded} && step.id == s.dialledFor
  {
    hide Run, After, AcceptsOk;
    RunKeepsInv(steps);
  }

  /** A Signal call is accepted at most once, and not before it has rung. */
  lemma AcceptedAtMostOnce(steps: seq<Step>, c: CallId)
    requires Run(steps)
    ensures multiset(After(steps).log)[Accept(c)] <= 1
    ensures Accept(c) in After(steps).log ==> c in After(steps).rung
  {
    hide Run, After, LegsOk, CallsOk;
    RunKeepsInv(steps);
    assert Accepts(After(steps), c) <= 1;
    assert Accept(c) in After(steps).log ==> Accept(c) in multiset(After(steps).log);
  }

  /** The PBX answered a leg that was dialled for the call. */
  predicate AnsweredFor(steps: seq<Step>, c: CallId)
    decreases |steps|
  {
    steps != [] &&
    var front := steps[..|steps| - 1];
    AnsweredFor(front, c) ||
    (steps[|steps| - 1] == Confirmed && StandingOf(front).Dialled? && StandingOf(front).id == c)
  }

  lemma {:induction false} AcceptedOnlyWhenAnswered(steps: seq<Step>, c: CallId)
    requires Run(steps)
    ensures Accept(c) in After(steps).log <==> AnsweredFor(steps, c)
    decreases |steps|
  {
    hide Run, After, Apply, Enabled, LegsOk, StandingOf;
    if steps == [] {
      InitRun();
    } else {
      LastStep(steps);
      var front, last := Front(steps), steps[|steps| - 1];
      var s := After(front);
      AcceptedOnlyWhenAnswered(front, c);
      RunKeepsInv(front);
      StandingIs(front);
      AnswerStep(s, last, c);
    }
  }

  lemma AnswerStep(s: State, step: Step, c: CallId)
    requires Inv(s) && Enabled(s, step)
    ensures Accept(c) in Apply(s, step).log <==>
            Accept(c) in s.log || (step == Confirmed && s.account.sipCall.Some? && s.dialledFor == c)
  {
    var cmds := OnlyConfirmedAccepts(s, step);
    hide LegsOk, Apply;
    assert Accept(c) in multiset(s.log) <==> Accept(c) in s.log;
    if step == Confirmed {
      assert s.account.sipCall.Some?;
      assert Accepts(s, s.dialledFor) == if s.account.sipCall.value.acceptSent then 1 else 0;
    }
  }

  /** When the PBX hangs up a dialled leg the Signal call ends if and only if it had been accepted; an
      unanswered leg leaves the call to the other devices. */
  lemma PbxHangUpEndsAcceptedCall(steps: seq<Step>)
    requires Run(steps) && Enabled(After(steps), Disconnected)
    ensures var s := After(steps);
            Apply(s, Disconnected).log == s.log + if Accept(s.dialledFor) in s.log then [HangUpSignal] else []
  {
    hide Run, After, CallsOk;
    RunKeepsInv(steps);
    var s := After(steps);
    assert Accept(s.dialledFor) in multiset(s.log) <==> Accept(s.dialledFor) in s.log;
    assert Accepts(s, s.dialledFor) == if s.account.sipCall.value.acceptSent then 1 else 0;
  }

  // Whether a ringing call is dialled.

  /** The account is the callee if and only if it is armed. */
  lemma CalleeIffArmed(steps: seq<Step>)
    requires Run(steps)
    ensures After(steps).account.isCallee <==> Armed(steps)
  {
    hide Run, After, Armed;
    StandingIs(steps);
  }

  /** RINGING dials if and only if a call that can be bridged has come in, no call has ended and no
      INVITE has got as far as placing a call since, and the PBX can be reached now. */
  lemma RingingDialsIff(steps: seq<Step>, step: Step)
    requires Run(steps) && Enabled(After(steps), step) && step.Signal? && step.event == Ringing
    ensures var s := After(steps);
            s.account.sipCall == None &&
            (Apply(s, step).account.sipCall.Some? <==> Armed(steps) && step.can && step.registered)
  {
    CalleeIffArmed(steps);
    RunKeepsInv(steps);
    hide Run, After, AcceptsOk, Armed, StandingOf;
  }

  /** Not a property of the handlers: a call that could be bridged at INCOMING_AUDIO is not always
      dialled at RINGING. An INVITE in between, for which no call can be started, leaves no leg behind
      but also no callee. */
  lemma FailedInviteDisarms(steps: seq<Step>, id: CallId)
    requires Run(steps) && After(steps).account.isCallee && After(steps).account.sipCall == None
    requires id in After(steps).live && id !in After(steps).rung
    ensures var invite, ring := Invite(true, true, false), Signal(id, Ringing, true, true, false, false);
            Run(steps + [invite] + [ring]) && After(steps + [invite] + [ring]).account.sipCall == None &&
            After(steps + [invite] + [ring]).account.incomingSipCall == None
  {
    hide Run, After, AcceptsOk;
    RunKeepsInv(steps);
    Extend(steps, Invite(true, true, false));
    Extend(steps + [Invite(true, true, false)], Signal(id, Ringing, true, true, false, false));
  }

  /** Such a run. */
  lemma DisarmReachable() returns (steps: seq<Step>)
    ensures Run(steps) && After(steps).account.isCallee && After(steps).account.sipCall == None
    ensures 1 in After(steps).live && 1 !in After(steps).rung
  {
    hide Run, After;
    InitRun();
    var step := Signal(1, IncomingAudio, true, true, false, false);
    Extend([], step);
    steps := [] + [step];
  }

  // The leg of a call placed by the PBX.

  /** While its call is the only live one it goes only when that call has ended. */
  lemma PlacedLegStays(steps: seq<Step>, step: Step)
    requires Run(steps) && Enabled(After(steps), step) && After(steps).account.incomingSipCall.Some?
    requires After(steps).live == {After(steps).placedFor}
    ensures var s, t := After(steps), Apply(After(steps), step);
            if t.account.incomingSipCall.Some? then
              t.placedFor == s.placedFor && t.account.bridge == s.account.bridge && t.live == {t.placedFor}
            else step.Signal? && step.event in {Ended, Concluded} && step.id == s.placedFor
  {
    hide Run, After, AcceptsOk;
    RunKeepsInv(steps);
  }

  /** rest goes on from steps, and the leg stays throughout. */
  ghost predicate Held(steps: seq<Step>, rest: seq<Step>)
    decreases |rest|
  {
    Run(steps + rest) && After(steps + rest).account.incomingSipCall.Some? &&
    (rest == [] || Held(steps, rest[..|rest| - 1]))
  }

  lemma {:induction false} HeldKeepsCall(steps: seq<Step>, rest: seq<Step>)
    requires Run(steps) && Held(steps, rest) && After(steps).live == {After(steps).placedFor}
    ensures After(steps + rest).placedFor == After(steps).placedFor
    ensures After(steps + rest).live == {After(steps + rest).placedFor}
    decreases |rest|
  {
    hide Run, After, Apply, Enabled;
    if rest == [] {
      assert steps + rest == steps;
    } else {
      var front, all := rest[..|rest| - 1], steps + rest;
      LastStep(all);
      assert all[..|all| - 1] == steps + front;
      HeldKeepsCall(steps, front);
      PlacedLegStays(steps + front, all[|all| - 1]);
    }
  }

  /** step, the next one after rest, takes the leg away. */
  ghost predicate Takes(steps: seq<Step>, rest: seq<Step>, step: Step) {
    Held(steps, rest) && Enabled(After(steps + rest), step) &&
    Apply(After(steps + rest), step).account.incomingSipCall == None
  }

  /** In no continuation is the leg taken away by anything but the end of its own call, if and only if
      no other call is live now. */
  lemma PlacedLegSafeIff(steps: seq<Step>)
    requires Run(steps) && After(steps).account.incomingSipCall.Some?
    ensures var s := After(steps);
            (forall rest, step | Takes(steps, rest, step) ::
               step.Signal? && step.event in {Ended, Concluded} && step.id == s.placedFor)
            <==> s.live == {s.placedFor}
  {
    hide Run, After;
    RunKeepsInv(steps);
    var s := After(steps);
    if s.live == {s.placedFor} {
      forall rest, step | Takes(steps, rest, step)
        ensures step.Signal? && step.event in {Ended, Concluded} && step.id == s.placedFor
      {
        hide Apply, Enabled;
        HeldKeepsCall(steps, rest);
        PlacedLegStays(steps + rest, step);
      }
    } else {
      var c :| c in s.live && c != s.placedFor;
      var step := Signal(c, Ended, false, false, false, false);
      assert steps + [] == steps;
      assert Takes(steps, [], step);
    }
  }

  /** Not a property of the handlers: with a second call still to be concluded, the event of that one
      takes the leg away while the call it was placed for lives on, and nothing hangs that call up. */
  lemma PlacedLegLostToAnotherCall() returns (steps: seq<Step>)
    ensures Run(steps)
    ensures var s := After(steps);
            s.account.incomingSipCall == None && s.placedFor in s.live && HangUpSignal !in s.log
  {
    hide Run, After;
    InitRun();
    steps := [];
    Extend(steps, Signal(1, IncomingAudio, false, false, false, false));
    steps := steps + [Signal(1, IncomingAudio, false, false, false, false)];
    Extend(steps, Signal(1, Ended, false, false, false, false));
    steps := steps + [Signal(1, Ended, false, false, false, false)];
    Extend(steps, Invite(true, true, true));
    steps := steps + [Invite(true, true, true)];
    Extend(steps, Signal(1, Concluded, false, false, false, false));
    steps := steps + [Signal(1, Concluded, false, false, false, false)];
  }
}

/** The objects: the methods are the handlers of the source and do to the fields what the functions
    above do to an Account. */
module CallBridge {
  import opened Bytes
  import opened CallMachine

  /** BridgeCall and IncomingSipCall. */
  class SipLeg {
    const bridge: BridgeId
    var acceptSent: bool
    var weHungUp: bool
    var disconnected: bool

    function View(): Leg
      reads this
    {
      Leg(bridge, acceptSent, weHungUp, disconnected)
    }

    constructor (b: BridgeId)
      ensures View() == Leg(b, false, false, false)
    {
      bridge, acceptSent, weHungUp, disconnected := b, false, false, false;
    }
  }

  class AccountState {
    var activeCallId: CallId
    var isCallee: bool
    var bridge: Option<BridgeId>
    var sipCall: SipLeg?
    var incomingSipCall: SipLeg?

    predicate Valid()
      reads this
    {
      sipCall == null || sipCall != incomingSipCall
    }

    function View(): Account
      reads this, sipCall, incomingSipCall
    {
      Account(activeCallId, isCallee, bridge,
              if sipCall == null then None else Some(sipCall.View()),
              if incomingSipCall == null then None else Some(incomingSipCall.View()))
    }

    constructor ()
      ensures Valid() && View() == Init().account
    {
      activeCallId, isCallee, bridge, sipCall, incomingSipCall := 0, false, None, null, null;
    }

    method StartSipDial(registered: bool, newBridge: BridgeId) returns (cmds: seq<Command>)
      requires Valid()
      modifies this
      ensures Valid() && (View(), cmds) == CallMachine.StartSipDial(old(View()), registered, newBridge)
      ensures sipCall != old(sipCall) ==> fresh(sipCall)
      ensures incomingSipCall == old(incomingSipCall)
    {
      if !registered {
        return [];
      }
      bridge := Some(newBridge);
      sipCall := new SipLeg(newBridge);
      return [Command.Dial];
    }

    method StopSipBridge() returns (cmds: seq<Command>)
      requires Valid()
      modifies this, sipCall
      ensures Valid() && (View(), cmds) == CallMachine.StopSipBridge(old(View()))
      ensures sipCall == null && incomingSipCall == old(incomingSipCall)
    {
      cmds := [];
      if sipCall != null {
        sipCall.weHungUp := true;
        cmds := [HangUpSip];
        sipCall := null;
      }
      bridge := None;
    }

    method StopIncomingSipCall() returns (cmds: seq<Command>)
      requires Valid()
      modifies this, incomingSipCall
      ensures Valid() && (View(), cmds) == CallMachine.StopIncomingSipCall(old(View()))
      ensures incomingSipCall == null && sipCall == old(sipCall)
    {
      cmds := [];
      if incomingSipCall != null {
        incomingSipCall.weHungUp := true;
        cmds := [HangUpSip];
        incomingSipCall := null;
      }
      bridge := None;
    }

    method OnCallState(id: CallId, event: Event, can: bool, registered: bool, probe: bool, newBridge: BridgeId)
      returns (cmds: seq<Command>)
      requires Valid()
      modifies this, sipCall, incomingSipCall
      ensures Valid()
      ensures (View(), cmds) == CallMachine.OnCallState(old(View()), id, event, can, registered, probe, newBridge)
    {
      activeCallId := id;
      cmds := [];
      if event == OutgoingAudio {
        cmds := [Proceed(id)];
      } else if event == IncomingAudio {
        if can {
          isCallee := true;
          cmds := [Proceed(id)];
        }
      } else if event == Ringing && isCallee {
        if can {
          cmds := StartSipDial(registered, newBridge);
        }
      } else if event == Connected {
        if !isCallee && incomingSipCall != null {
          cmds := [AnswerSip];
        } else if !isCallee && probe {
          cmds := [StartProbe];
        }
      } else if event == Ended || event == Concluded {
        var first := StopSipBridge();
        var second := StopIncomingSipCall();
        isCallee := false;
        cmds := first + second;
      }
    }

    /** BridgeCall::onCallState. */
    method OnSipState(confirmed: bool) returns (cmds: seq<Command>)
      requires Valid() && sipCall != null
      modifies sipCall
      ensures Valid()
      ensures (View(), cmds) == if confirmed then OnConfirmed(old(View())) else OnDisconnected(old(View()))
    {
      cmds := [];
      if confirmed {
        if !sipCall.acceptSent {
          sipCall.acceptSent := true;
          cmds := [Accept(activeCallId)];
        }
      } else {
        if sipCall.acceptSent && !sipCall.weHungUp {
          cmds := [HangUpSignal];
        }
        sipCall.disconnected := true;
      }
    }

    /** IncomingSipCall::onCallState. */
    method OnIncomingSipDisconnected() returns (cmds: seq<Command>)
      requires Valid() && incomingSipCall != null
      modifies incomingSipCall
      ensures Valid() && (View(), cmds) == OnIncomingDisconnected(old(View()))
    {
      cmds := [];
      if !incomingSipCall.weHungUp {
        incomingSipCall.weHungUp := true;
        cmds := [HangUpSignal];
      }
      incomingSipCall.disconnected := true;
    }

    method OnIncomingCall(number: bool, resolved: bool, started: bool, newBridge: BridgeId)
      returns (cmds: seq<Command>)
      requires Valid()
      modifies this, incomingSipCall
      ensures Valid()
      ensures (View(), cmds) == CallMachine.OnIncomingCall(old(View()), number, resolved, started, newBridge)
    {
      if incomingSipCall != null || sipCall != null {
        return [Busy];
      }
      if !number {
        return [NotFound];
      }
      bridge := Some(newBridge);
      incomingSipCall := new SipLeg(newBridge);
      cmds := [Command.Ring];
      if !resolved {
        var stop := StopIncomingSipCall();
        return cmds + stop;
      }
      isCallee := false;
      if !started {
        var stop := StopIncomingSipCall();
        cmds := cmds + stop;
      }
    }
  }
}
