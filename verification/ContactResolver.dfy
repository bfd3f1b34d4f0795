// resolveOutgoingTarget of daemon/ContactResolver.cpp over the resolved_contact rows of
// storage/Storage.cpp: every sequence of calls, one after the other, with a clock that never goes back.

module ResolverHistory {
  import opened Bytes

  /** A resolved_contact row. */
  datatype Cached = Cached(aci: string, pni: string, resolvedAt: int)

  /** What the directory answers: the request for a token or the lookup fails, nothing comes back, or
      one result does. */
  datatype Directory = Failed | NoResult | Found(aci: string, pni: string)

  datatype Outcome = Target(id: string) | NotOnSignal | LookupFailed

  /** A lookup that brought a result, and when that was saved. */
  datatype Lookup = Lookup(target: string, at: int, aci: string, pni: string)

  /** synced: the aci of the synced contact of a number, if it has one. */
  datatype State = State(
    synced: map<string, string>, resolved: map<string, Cached>, clock: int, lookups: seq<Lookup>)

  /** Synchronising contacts may change synced in any way. */
  datatype Step =
    | Resolve(target: string, now: int, directory: Directory, savedAt: int)
    | Sync(synced: map<string, string>)

  function Init(): State { State(map[], map[], 0, []) }

  predicate Enabled(s: State, step: Step) {
    step.Resolve? ==> s.clock <= step.now <= step.savedAt
  }

  function OutcomeOf(aci: string, pni: string): Outcome {
    if aci != "" then Target(aci) else if pni != "" then Target("PNI:" + pni) else NotOnSignal
  }

  /** Neither a service id nor a number with a synced contact. */
  predicate NeedsDirectory(s: State, target: string) {
    target != "" && target[0] == '+' && !(target in s.synced && s.synced[target] != "")
  }

  predicate Hit(s: State, target: string, now: int, ttl: nat) {
    target in s.resolved && now - s.resolved[target].resolvedAt < ttl
  }

  /** The call asks the directory. */
  predicate LooksUp(s: State, step: Step, ttl: nat) {
    step.Resolve? && NeedsDirectory(s, step.target) && !Hit(s, step.target, step.now, ttl)
  }

  function OutcomeAt(s: State, step: Step, ttl: nat): Outcome
    requires step.Resolve?
  {
    if step.target == "" || step.target[0] != '+' then Target(step.target)
    else if step.target in s.synced && s.synced[step.target] != "" then Target(s.synced[step.target])
    else if Hit(s, step.target, step.now, ttl) then
      OutcomeOf(s.resolved[step.target].aci, s.resolved[step.target].pni)
    else
      match step.directory
      case Failed => LookupFailed
      case NoResult => LookupFailed
      case Found(aci, pni) => OutcomeOf(aci, pni)
  }

  function Apply(s: State, step: Step, ttl: nat): State {
    match step
    case Sync(synced) => s.(synced := synced)
    case Resolve(target, now, directory, savedAt) =>
      if LooksUp(s, step, ttl) && directory.Found? then
        s.(clock := savedAt,
           resolved := s.resolved[target := Cached(directory.aci, directory.pni, savedAt)],
           lookups := s.lookups + [Lookup(target, savedAt, directory.aci, directory.pni)])
      else s.(clock := savedAt)
  }

  predicate Run(steps: seq<Step>, ttl: nat)
    decreases |steps|, 0
  {
    steps == [] ||
    (var front := steps[..|steps| - 1]; Run(front, ttl) && Enabled(After(front, ttl), steps[|steps| - 1]))
  }

  function After(steps: seq<Step>, ttl: nat): State
    decreases |steps|, 1
  {
    if steps == [] then Init() else Apply(After(steps[..|steps| - 1], ttl), steps[|steps| - 1], ttl)
  }

  /** The last lookup for a target. */
  function Last(lookups: seq<Lookup>, target: string): Option<Lookup> {
    if lookups == [] then None
    else if lookups[|lookups| - 1].target == target then Some(lookups[|lookups| - 1])
    else Last(lookups[..|lookups| - 1], target)
  }

  /** The row of a number is its last lookup, and lookups for one number are at least ttl apart. */
  ghost predicate Inv(s: State, ttl: nat) {
    (forall target :: Last(s.lookups, target).Some? <==> target in s.resolved) &&
    (forall target | target in s.resolved ::
       Last(s.lookups, target) ==
       Some(Lookup(target, s.resolved[target].resolvedAt, s.resolved[target].aci, s.resolved[target].pni))) &&
    forall i, j | 0 <= i < j < |s.lookups| && s.lookups[i].target == s.lookups[j].target ::
      s.lookups[j].at - s.lookups[i].at >= ttl
  }

  lemma {:induction false} LastIsLast(lookups: seq<Lookup>, i: nat)
    requires i < |lookups|
    ensures Last(lookups, lookups[i].target).Some?
    ensures exists k :: i <= k < |lookups| && Last(lookups, lookups[i].target) == Some(lookups[k]) &&
                        lookups[k].target == lookups[i].target
  {
    var n := |lookups| - 1;
    if lookups[n].target != lookups[i].target {
      LastIsLast(lookups[..n], i);
      var k :| i <= k < n && Last(lookups[..n], lookups[..n][i].target) == Some(lookups[..n][k]) &&
               lookups[..n][k].target == lookups[..n][i].target;
      assert lookups[..n][k] == lookups[k];
    } else {
      assert Last(lookups, lookups[i].target) == Some(lookups[n]);
    }
  }

  lemma LastAppend(lookups: seq<Lookup>, l: Lookup, target: string)
    ensures Last(lookups + [l], target) == if l.target == target then Some(l) else Last(lookups, target)
  {
    assert (lookups + [l])[..|lookups|] == lookups;
  }

  lemma StepKeepsInv(s: State, step: Step, ttl: nat)
    requires Inv(s, ttl) && Enabled(s, step)
    ensures Inv(Apply(s, step, ttl), ttl)
  {
    if LooksUp(s, step, ttl) && step.directory.Found? {
      var l := Lookup(step.target, step.savedAt, step.directory.aci, step.directory.pni);
      var t := Apply(s, step, ttl);
      forall target ensures Last(t.lookups, target) == if l.target == target then Some(l) else Last(s.lookups, target) {
        LastAppend(s.lookups, l, target);
      }
      forall i | 0 <= i < |s.lookups| && s.lookups[i].target == step.target
        ensures step.savedAt - s.lookups[i].at >= ttl
      {
        LastIsLast(s.lookups, i);
        var k :| i <= k < |s.lookups| && Last(s.lookups, step.target) == Some(s.lookups[k]) &&
                 s.lookups[k].target == step.target;
        assert k == i || s.lookups[k].at - s.lookups[i].at >= ttl;
        assert s.resolved[step.target].resolvedAt == s.lookups[k].at;
      }
    }
  }

  lemma {:induction false} RunKeepsInv(steps: seq<Step>, ttl: nat)
    requires Run(steps, ttl)
    ensures Inv(After(steps, ttl), ttl)
    decreases |steps|
  {
    hide Apply, Enabled, Inv;
    if steps == [] {
      InitInv(ttl);
    } else {
      RunKeepsInv(steps[..|steps| - 1], ttl);
      StepKeepsInv(After(steps[..|steps| - 1], ttl), steps[|steps| - 1], ttl);
    }
  }

  lemma InitInv(ttl: nat)
    ensures Inv(Init(), ttl)
  {
  }

  /** Two lookups that brought a result for one number are at least the TTL apart, in every run. */
  lemma LookupsSpaced(steps: seq<Step>, ttl: nat, i: nat, j: nat)
    requires Run(steps, ttl)
    requires i < j < |After(steps, ttl).lookups| && After(steps, ttl).lookups[i].target == After(steps, ttl).lookups[j].target
    ensures After(steps, ttl).lookups[j].at - After(steps, ttl).lookups[i].at >= ttl
  {
    hide Run, After;
    RunKeepsInv(steps, ttl);
  }

  /** A call that needs the directory but makes no lookup gives what the last lookup for that number
      gave, be it a target or the error that the number is not on Signal; and no lookup is made as long
      as the last one is younger than the TTL. */
  lemma HitAnswersLikeTheLookup(steps: seq<Step>, ttl: nat, step: Step)
    requires Run(steps, ttl) && step.Resolve? && Enabled(After(steps, ttl), step)
    requires NeedsDirectory(After(steps, ttl), step.target)
    ensures var s := After(steps, ttl); var last := Last(s.lookups, step.target);
            (!LooksUp(s, step, ttl) <==> last.Some? && step.now - last.value.at < ttl) &&
            (!LooksUp(s, step, ttl) ==> OutcomeAt(s, step, ttl) == OutcomeOf(last.value.aci, last.value.pni))
  {
    hide Run, After;
    RunKeepsInv(steps, ttl);
  }

  /** The i-th lookup was made by a step of the run. */
  ghost predicate MadeAt(steps: seq<Step>, ttl: nat, k: nat, l: Lookup)
    requires k < |steps|
  {
    Run(steps[..k], ttl) && steps[k].Resolve? && steps[k].target == l.target && steps[k].savedAt == l.at &&
    steps[k].directory == Found(l.aci, l.pni) && LooksUp(After(steps[..k], ttl), steps[k], ttl)
  }

  lemma {:induction false} LookupMade(steps: seq<Step>, ttl: nat, i: nat) returns (k: nat)
    requires Run(steps, ttl) && i < |After(steps, ttl).lookups|
    ensures k < |steps| && MadeAt(steps, ttl, k, After(steps, ttl).lookups[i])
    decreases |steps|
  {
    var n := |steps| - 1;
    assert n >= 0;
    var front := steps[..n];
    var s := After(front, ttl);
    if i < |s.lookups| {
      hide Apply, LooksUp, Run;
      OldLookupsStay(s, steps[n], ttl);
      k := LookupMade(front, ttl, i);
      assert front[..k] == steps[..k] && front[k] == steps[k];
    } else {
      k := n;
    }
  }

  lemma OldLookupsStay(s: State, step: Step, ttl: nat)
    ensures s.lookups <= Apply(s, step, ttl).lookups
  {
  }

  lemma LastIsIn(lookups: seq<Lookup>, target: string) returns (i: nat)
    requires Last(lookups, target).Some?
    ensures i < |lookups| && Last(lookups, target) == Some(lookups[i]) && lookups[i].target == target
  {
    var n := |lookups| - 1;
    if lookups[n].target == target {
      i := n;
    } else {
      i := LastIsIn(lookups[..n], target);
    }
  }

  /** A call that needs the directory but does not ask it answers as the call that made the lookup did,
      and that call saved its result less than the TTL ago. */
  lemma HitRepeatsTheAnswer(steps: seq<Step>, ttl: nat, step: Step) returns (k: nat)
    requires Run(steps, ttl) && step.Resolve? && Enabled(After(steps, ttl), step)
    requires NeedsDirectory(After(steps, ttl), step.target) && !LooksUp(After(steps, ttl), step, ttl)
    ensures k < |steps| && Run(steps[..k], ttl) && steps[k].Resolve? && steps[k].target == step.target
    ensures steps[k].directory.Found? && LooksUp(After(steps[..k], ttl), steps[k], ttl)
    ensures step.now - steps[k].savedAt < ttl
    ensures OutcomeAt(After(steps, ttl), step, ttl) == OutcomeAt(After(steps[..k], ttl), steps[k], ttl)
  {
    HitAnswersLikeTheLookup(steps, ttl, step);
    var i := LastIsIn(After(steps, ttl).lookups, step.target);
    k := LookupMade(steps, ttl, i);
  }

  /** What a call answers: a text that is no number comes back as it is; a synced contact's ACI goes
      first; and a lookup gives the ACI, or else the PNI with its prefix, or says that the number is not
      on Signal. */
  lemma Answers(s: State, step: Step, ttl: nat)
    requires step.Resolve?
    ensures step.target == "" || step.target[0] != '+' ==> OutcomeAt(s, step, ttl) == Target(step.target)
    ensures step.target != "" && step.target[0] == '+' && step.target in s.synced && s.synced[step.target] != "" ==>
              OutcomeAt(s, step, ttl) == Target(s.synced[step.target])
    ensures LooksUp(s, step, ttl) ==>
              OutcomeAt(s, step, ttl) ==
              if !step.directory.Found? then LookupFailed
              else if step.directory.aci != "" then Target(step.directory.aci)
              else if step.directory.pni != "" then Target("PNI:" + step.directory.pni)
              else NotOnSignal
    ensures LooksUp(s, step, ttl) ==>
              step.target != "" && step.target[0] == '+' && !(step.target in s.synced && s.synced[step.target] != "")
  {
  }
}

module ContactResolver {
  import opened Bytes
  import opened ResolverHistory

  /** The two tables of Storage that the function reads and writes. */
  class Storage {
    var synced: map<string, string>
    var resolved: map<string, Cached>

    constructor ()
      ensures synced == map[] && resolved == map[]
    {
      synced, resolved := map[], map[];
    }

    method SaveResolvedContact(e164: string, aci: string, pni: string, time: int)
      modifies this`resolved
      ensures resolved == old(resolved)[e164 := Cached(aci, pni, time)]
    {
      resolved := resolved[e164 := Cached(aci, pni, time)];
    }

    method ResolveOutgoingTarget(target: string, ttlSec: nat, now: int, directory: Directory, savedAt: int, ghost s: State)
      returns (r: Outcome)
      requires s.synced == synced && s.resolved == resolved && s.clock <= now <= savedAt
      modifies this`resolved
      ensures var step := Resolve(target, now, directory, savedAt);
              r == OutcomeAt(s, step, ttlSec) && resolved == Apply(s, step, ttlSec).resolved
    {
      if target == "" || target[0] != '+' {
        return Target(target);
      }
      if target in synced {
        if synced[target] != "" {
          return Target(synced[target]);
        }
      }
      if target in resolved {
        var cached := resolved[target];
        var ageSec := now - cached.resolvedAt;
        if ageSec < ttlSec {
          if cached.aci != "" {
            return Target(cached.aci);
          }
          if cached.pni != "" {
            return Target("PNI:" + cached.pni);
          }
          return NotOnSignal;
        }
      }
      if !directory.Found? {
        return LookupFailed;
      }
      SaveResolvedContact(target, directory.aci, directory.pni, savedAt);
      if directory.aci != "" {
        return Target(directory.aci);
      }
      if directory.pni != "" {
        return Target("PNI:" + directory.pni);
      }
      return NotOnSignal;
    }
  }
}
