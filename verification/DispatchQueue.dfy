// EnvelopeDispatchQueue of daemon/main.cpp: any number of producers, one worker, stopAndJoin. A step is
// one critical section or one call outside them; a notification is owed from the moment its critical
// section ends.

module DispatchProtocol {
  type Work = nat

  datatype Worker = Checking | Sleeping | Running(work: Work) | Exited

  datatype Join = NotAsked | Joining | Joined | Abandoned

  /** pushed and executed are histories; late is what was pushed after the worker had returned. */
  datatype State = State(
    queue: seq<Work>, stopping: bool, worker: Worker, owed: nat, join: Join,
    pushed: seq<Work>, executed: seq<Work>, late: seq<Work>)

  datatype Step =
    | Push(work: Work)
    | Notify
    | Stop
    | Check
    | Spurious
    | Finish(threw: bool)
    | JoinDone
    | JoinTimeout

  /** After start(). */
  function Init(): State { State([], false, Checking, 0, NotAsked, [], [], []) }

  predicate Enabled(s: State, step: Step) {
    match step
    case Push(_) => true
    case Notify => s.owed > 0
    case Stop => true
    case Check => s.worker == Checking
    case Spurious => s.worker == Sleeping
    case Finish(_) => s.worker.Running?
    case JoinDone => s.join == Joining && s.worker == Exited
    case JoinTimeout => s.join == Joining
  }

  /** The worker holds the lock: take the front item, return, or sleep. */
  function Checked(s: State): State {
    if s.queue != [] then s.(worker := Running(s.queue[0]), queue := s.queue[1..])
    else if s.stopping then s.(worker := Exited)
    else s.(worker := Sleeping)
  }

  function Apply(s: State, step: Step): State
    requires Enabled(s, step)
  {
    match step
    case Push(w) =>
      s.(queue := s.queue + [w], pushed := s.pushed + [w], owed := s.owed + 1,
         late := if s.worker == Exited then s.late + [w] else s.late)
    case Notify => s.(owed := s.owed - 1, worker := if s.worker == Sleeping then Checking else s.worker)
    case Stop => s.(stopping := true, owed := s.owed + 1, join := if s.join == NotAsked then Joining else s.join)
    case Check => Checked(s)
    case Spurious => s.(worker := Checking)
    case Finish(_) => s.(worker := Checking, executed := s.executed + [s.worker.work])
    case JoinDone => s.(join := Joined)
    case JoinTimeout => s.(join := Abandoned)
  }

  predicate Run(steps: seq<Step>)
    decreases |steps|, 0
  {
    steps == [] ||
    (var front := steps[..|steps| - 1]; Run(front) && Enabled(After(front), steps[|steps| - 1]))
  }

  function After(steps: seq<Step>): State
    requires Run(steps)
    decreases |steps|, 1
  {
    if steps == [] then Init() else Apply(After(steps[..|steps| - 1]), steps[|steps| - 1])
  }

  lemma LastStep(steps: seq<Step>)
    requires Run(steps) && steps != []
    ensures var front, last := steps[..|steps| - 1], steps[|steps| - 1];
            Run(front) && Enabled(After(front), last) && After(steps) == Apply(After(front), last)
  {
    hide Apply, Enabled;
  }

  // The invariant.

  function InFlight(s: State): seq<Work> { if s.worker.Running? then [s.worker.work] else [] }

  /** Nothing is lost, duplicated or reordered. */
  predicate Accounted(s: State) { s.pushed == s.executed + InFlight(s) + s.queue }

  /** No lost wake-up: a sleeper with something to do is about to be notified. */
  predicate WillWake(s: State) { s.worker == Sleeping && (s.stopping || s.queue != []) ==> s.owed > 0 }

  predicate Inv(s: State) {
    Accounted(s) && WillWake(s) &&
    s.late == (if s.worker == Exited then s.queue else []) &&
    (s.worker == Exited ==> s.stopping) &&
    (s.join == Joined ==> s.worker == Exited) &&
    (s.join != NotAsked ==> s.stopping)
  }

  lemma StepKeepsInv(s: State, step: Step)
    requires Inv(s) && Enabled(s, step)
    ensures Inv(Apply(s, step))
  {
    var t := Apply(s, step);
    if step.Push? {
      assert t.pushed == t.executed + InFlight(t) + t.queue;
    } else if step == Check && s.queue != [] {
      assert [s.queue[0]] + s.queue[1..] == s.queue;
      assert t.pushed == t.executed + InFlight(t) + t.queue;
    } else if step.Finish? {
      assert t.pushed == t.executed + InFlight(t) + t.queue;
    }
  }

  lemma {:induction false} RunKeepsInv(steps: seq<Step>)
    requires Run(steps)
    ensures Inv(After(steps))
  {
    hide Apply, Enabled;
    if steps != [] {
      hide Inv;
      LastStep(steps);
      RunKeepsInv(steps[..|steps| - 1]);
      StepKeepsInv(After(steps[..|steps| - 1]), steps[|steps| - 1]);
    }
  }

  // What the steps alone say.

  /** The items pushed, in order. */
  function Pushes(steps: seq<Step>): seq<Work> {
    if steps == [] then []
    else
      var last := steps[|steps| - 1];
      Pushes(steps[..|steps| - 1]) + if last.Push? then [last.work] else []
  }

  /** How many items have been finished, normally or by an exception. */
  function Finishes(steps: seq<Step>): nat {
    if steps == [] then 0
    else Finishes(steps[..|steps| - 1]) + if steps[|steps| - 1].Finish? then 1 else 0
  }

  lemma {:induction false} StateFollowsSteps(steps: seq<Step>)
    requires Run(steps)
    ensures After(steps).pushed == Pushes(steps) && |After(steps).executed| == Finishes(steps)
    ensures After(steps).stopping <==> Stop in steps
    decreases |steps|
  {
    hide Apply, Enabled, Run, After;
    if steps == [] {
      InitRun();
    } else {
      var front, last := steps[..|steps| - 1], steps[|steps| - 1];
      LastStep(steps);
      StateFollowsSteps(front);
      HistoryStep(After(front), last);
      assert front + [last] == steps;
    }
  }

  lemma InitRun()
    ensures Run([]) && After([]) == Init()
  {
  }

  lemma HistoryStep(s: State, step: Step)
    requires Enabled(s, step)
    ensures Apply(s, step).pushed == s.pushed + if step.Push? then [step.work] else []
    ensures |Apply(s, step).executed| == |s.executed| + if step.Finish? then 1 else 0
    ensures Apply(s, step).stopping <==> s.stopping || step == Stop
  {
  }

  // What holds in every run.

  /** The items executed so far, the one in flight and those queued are the items pushed, in the order
      in which they were pushed; and an item is executed at every finish. */
  lemma ExecutedInOrder(steps: seq<Step>)
    requires Run(steps)
    ensures var s := After(steps);
            Pushes(steps) == s.executed + InFlight(s) + s.queue && |s.executed| == Finishes(steps)
  {
    hide Run, After;
    RunKeepsInv(steps);
    StateFollowsSteps(steps);
  }

  /** The worker returns only after a stop and with the queue empty, so with everything executed. */
  lemma ReturnsOnlyWhenDrained(steps: seq<Step>, step: Step)
    requires Run(steps) && Enabled(After(steps), step)
    requires After(steps).worker != Exited && Apply(After(steps), step).worker == Exited
    ensures step == Check && Stop in steps && After(steps).queue == []
    ensures After(steps).executed == Pushes(steps)
  {
    hide Run, After;
    RunKeepsInv(steps);
    StateFollowsSteps(steps);
  }

  lemma ReturnKeepsHistory(s: State, step: Step)
    requires Inv(s) && Enabled(s, step) && s.worker != Exited && Apply(s, step).worker == Exited
    ensures s.late == [] && Apply(s, step).late == [] && step == Check
  {
  }

  /** The worker returns with the last of these steps, and later goes on from there. */
  ghost predicate ReturnedBefore(steps: seq<Step>, later: seq<Step>) {
    Run(steps) && steps != [] && After(steps).worker == Exited && Run(steps[..|steps| - 1]) &&
    After(steps[..|steps| - 1]).worker != Exited && Run(steps + later)
  }

  /** Once it has returned nothing more is executed: after any further steps the items executed are
      those pushed before the return, and exactly the items pushed since then are left. */
  lemma {:induction false} LeftOverIsLate(steps: seq<Step>, later: seq<Step>)
    requires ReturnedBefore(steps, later)
    ensures var s := After(steps + later);
            s.worker == Exited && s.executed == Pushes(steps) && s.queue == Pushes(later) && s.late == Pushes(later)
    decreases |later|
  {
    hide Run, After, Apply, Enabled;
    if later == [] {
      assert steps + later == steps;
      LastStep(steps);
      var front := steps[..|steps| - 1];
      RunKeepsInv(steps);
      RunKeepsInv(front);
      StateFollowsSteps(steps);
      ReturnKeepsHistory(After(front), steps[|steps| - 1]);
      LateStep(After(front), steps[|steps| - 1]);
    } else {
      var all, front, last := steps + later, later[..|later| - 1], later[|later| - 1];
      LastStep(all);
      assert all[..|all| - 1] == steps + front && all[|all| - 1] == last;
      LeftOverIsLate(steps, front);
      LateStep(After(steps + front), last);
    }
  }

  lemma LateStep(s: State, step: Step)
    requires Enabled(s, step)
    ensures s.worker == Exited ==>
              var t := Apply(s, step);
              t.worker == Exited && t.executed == s.executed &&
              t.queue == s.queue + (if step.Push? then [step.work] else []) &&
              t.late == s.late + (if step.Push? then [step.work] else [])
    ensures step == Check && Apply(s, step).worker == Exited ==>
              Apply(s, step).queue == [] && Apply(s, step).executed == s.executed
  {
  }

  /** stopAndJoin finds the worker joined only after it has executed all that was pushed before its
      return. */
  lemma JoinedMeansExecuted(steps: seq<Step>)
    requires Run(steps) && After(steps).join == Joined
    ensures After(steps).worker == Exited && Pushes(steps) == After(steps).executed + After(steps).late
    ensures After(steps).late == After(steps).queue && Stop in steps
  {
    hide Run, After;
    RunKeepsInv(steps);
    StateFollowsSteps(steps);
    assert After(steps).executed + [] == After(steps).executed;
  }

  // Shutdown ends.

  predicate OfWorker(step: Step) { step in {Notify, Check, Spurious} || step.Finish? }

  /** How many steps of the worker and of owed notifications are left at most once stopping is set. */
  function Measure(s: State): nat {
    3 * |s.queue| + s.owed + match s.worker case Exited => 0 case Checking => 1 case Sleeping => 2 case Running(_) => 2
  }

  lemma WorkDecreases(s: State, step: Step)
    requires Enabled(s, step) && s.stopping && OfWorker(step)
    ensures Apply(s, step).stopping && Measure(Apply(s, step)) < Measure(s)
  {
  }

  /** It is never stuck: after a stop, until it returns, the worker, its item or an owed notification can
      go on. */
  lemma SomethingToDo(steps: seq<Step>)
    requires Run(steps) && Stop in steps && After(steps).worker != Exited
    ensures Enabled(After(steps), Check) || Enabled(After(steps), Finish(false)) || Enabled(After(steps), Notify)
  {
    hide Run, After;
    RunKeepsInv(steps);
    StateFollowsSteps(steps);
  }

  /** After a stop, with no more pushes and stops, only so many steps are left, whatever their order; if
      they have all been taken, the worker has returned and everything pushed was executed. */
  lemma {:induction false} DrainsAndReturns(steps: seq<Step>, rest: seq<Step>)
    requires Run(steps) && Stop in steps && Run(steps + rest)
    requires forall step | step in rest :: OfWorker(step)
    ensures |rest| + Measure(After(steps + rest)) <= Measure(After(steps))
    ensures (forall step | OfWorker(step) :: !Enabled(After(steps + rest), step)) ==>
              After(steps + rest).worker == Exited
    ensures After(steps).worker != Exited && After(steps + rest).worker == Exited ==>
              After(steps + rest).executed == Pushes(steps)
  {
    hide Run, After, Apply, Enabled, Measure;
    StateFollowsSteps(steps);
    Bounded(steps, rest);
    var s := After(steps + rest);
    if forall step | OfWorker(step) :: !Enabled(s, step) {
      assert OfWorker(Check) && OfWorker(Finish(false)) && OfWorker(Notify);
      if s.worker != Exited {
        SomethingToDo(steps + rest);
      }
    }
    if After(steps).worker != Exited && s.worker == Exited {
      RunKeepsInv(steps + rest);
      RunKeepsInv(steps);
      assert s.executed + [] == s.executed;
    }
  }

  lemma {:induction false} Bounded(steps: seq<Step>, rest: seq<Step>)
    requires Run(steps) && After(steps).stopping && Run(steps + rest)
    requires forall step | step in rest :: OfWorker(step)
    ensures |rest| + Measure(After(steps + rest)) <= Measure(After(steps))
    ensures After(steps + rest).stopping && After(steps + rest).pushed == After(steps).pushed
    ensures After(steps + rest).late == After(steps).late
  {
    hide Run, After, Apply, Enabled, Measure;
    if rest == [] {
      assert steps + rest == steps;
    } else {
      var front, last := rest[..|rest| - 1], rest[|rest| - 1];
      LastStep(steps + rest);
      assert (steps + rest)[..|steps + rest| - 1] == steps + front && (steps + rest)[|steps + rest| - 1] == last;
      Bounded(steps, front);
      WorkDecreases(After(steps + front), last);
      WorkKeeps(After(steps + front), last);
    }
  }

  lemma WorkKeeps(s: State, step: Step)
    requires Enabled(s, step) && OfWorker(step)
    ensures Apply(s, step).pushed == s.pushed && Apply(s, step).late == s.late
  {
  }
}

/** The object: every method is a critical section of the source and does to the fields what its step
    does to them. */
module DispatchQueue {
  import opened DispatchProtocol

  /** What the worker does when it gets the lock. */
  datatype Outcome = Sleep | Return | Take(work: Work)

  class EnvelopeDispatchQueue {
    var queue: seq<Work>
    var stopping: bool

    /** start(). */
    constructor ()
      ensures queue == Init().queue && stopping == Init().stopping
    {
      queue, stopping := [], false;
    }

    method Push(work: Work, ghost s: State)
      requires s.queue == queue && s.stopping == stopping
      modifies this
      ensures queue == Apply(s, Step.Push(work)).queue && stopping == old(stopping)
    {
      queue := queue + [work];
    }

    method Stop(ghost s: State)
      requires s.queue == queue && s.stopping == stopping
      modifies this
      ensures queue == old(queue) && stopping == Apply(s, Step.Stop).stopping
    {
      stopping := true;
    }

    /** The predicate of cv.wait and the critical section behind it. */
    method Next(ghost s: State) returns (next: Outcome)
      requires s.worker == Checking && s.queue == queue && s.stopping == stopping
      modifies this
      ensures var t := Apply(s, Check);
              queue == t.queue && stopping == t.stopping &&
              t.worker == match next case Sleep => Sleeping case Return => Exited case Take(w) => Running(w)
    {
      if !(stopping || queue != []) {
        return Sleep;
      }
      if queue == [] {
        if stopping { return Return; }
        return Sleep;
      }
      next := Take(queue[0]);
      queue := queue[1..];
    }
  }
}
