/** A workload reconcile: which conditions it adds on which path, and when it writes the status. */
module Reconciler {
  import opened Common
  import opened Conditions
  import opened Api
  import opened Statuses
  import opened Realizer

  datatype OwnerStatus = OwnerStatus(
    conditions: seq<Condition>,
    resources: seq<ResourceStatus>,
    observedGeneration: int,
    supplyChain: (string, string))

  datatype Lookup<T> = Fetched(value: T) | LookupFailed

  /** A supply chain; `kind` is absent if its kind is not registered in the scheme. */
  datatype SupplyChain = SupplyChain(
    name: string,
    kind: Option<string>,
    conditions: seq<Condition>,
    resources: seq<OwnerResource>)

  /** Everything a reconcile finds out from others; an error is represented by its text. */
  datatype Facts = Facts(
    labels: map<string, string>,
    labelText: string,
    chains: Lookup<seq<SupplyChain>>,
    serviceAccountError: Option<string>,
    tokenError: Option<string>,
    realizerError: Option<string>,
    world: World)

  /** The clock readings of one reconcile. */
  datatype OwnerClock = OwnerClock(adds: nat -> Time, health: nat -> Time, ready: Time, resources: nat -> Readings)

  // ---------- conditions of the owner ----------

  function ChainCondition(status: Status, reason: string, message: string): Condition {
    Condition(SUPPLY_CHAIN_READY, status, reason, message, 0)
  }

  function SubmittedCondition(status: Status, reason: string, message: string): Condition {
    Condition(RESOURCES_SUBMITTED, status, reason, message, 0)
  }

  function MissingLabels(): (c: Condition)
    ensures c.ctype == SUPPLY_CHAIN_READY && c.status == False
  {
    ChainCondition(False, "WorkloadLabelsMissing", "workload has no labels to match to supply chain")
  }

  function ChainNotFound(labelText: string): (c: Condition)
    ensures c.ctype == SUPPLY_CHAIN_READY && c.status == False
  {
    ChainCondition(False, "SupplyChainNotFound",
                   "no supply chain found where full selector is satisfied by labels: " + labelText)
  }

  function TooManyChains(): (c: Condition)
    ensures c.ctype == SUPPLY_CHAIN_READY && c.status == False
  {
    ChainCondition(False, "MultipleSupplyChainMatches", "workload may only match a single supply chain's selector")
  }

  function ChainNotReady(ready: Condition): (c: Condition)
    ensures c.ctype == SUPPLY_CHAIN_READY && c.status == False
  {
    ChainCondition(False, ready.reason, ready.message)
  }

  function NoServiceAccount(text: string): (c: Condition)
    ensures c.ctype == RESOURCES_SUBMITTED && c.status == False
  {
    SubmittedCondition(False, "ServiceAccountError", text)
  }

  function NoToken(text: string): (c: Condition)
    ensures c.ctype == RESOURCES_SUBMITTED && c.status == False
  {
    SubmittedCondition(False, "ServiceAccountTokenError", text)
  }

  function NoRealizer(text: string): (c: Condition)
    ensures c.ctype == RESOURCES_SUBMITTED && c.status == False
  {
    SubmittedCondition(False, "ResourceRealizerBuilderError", text)
  }

  function ReadyCondition(chain: SupplyChain): Condition {
    var ready := ConditionWithType(chain.conditions, "Ready");
    if ready.Some? then ready.value else Condition("", Other(""), "", "", 0)
  }

  /** How far a reconcile gets: it stops with some conditions added, or goes on to realize a chain. */
  datatype Route = Stopped(added: seq<Condition>) | Realizing(chain: SupplyChain)

  const CHAIN_READY := ChainCondition(True, "Ready", "")

  function RouteOf(f: Facts): Route {
    if |f.labels| == 0 then Stopped([MissingLabels()])
    else if f.chains.LookupFailed? then Stopped([])
    else if |f.chains.value| == 0 then Stopped([ChainNotFound(f.labelText)])
    else if |f.chains.value| > 1 then Stopped([TooManyChains()])
    else
      var chain := f.chains.value[0];
      var ready := ReadyCondition(chain);
      if chain.kind.None? then Stopped([])
      else if ready.status != True then Stopped([ChainNotReady(ready)])
      else if f.serviceAccountError.Some? then Stopped([CHAIN_READY, NoServiceAccount(f.serviceAccountError.value)])
      else if f.tokenError.Some? then Stopped([CHAIN_READY, NoToken(f.tokenError.value)])
      else if f.realizerError.Some? then Stopped([CHAIN_READY, NoRealizer(f.realizerError.value)])
      else Realizing(chain)
  }

  /** The chain's first "Ready" condition has status True. */
  ghost predicate IsReady(chain: SupplyChain) {
    exists i :: FirstReady(chain, i) && chain.conditions[i].status == True
  }

  /** `i` is the chain's first "Ready" condition. */
  ghost predicate FirstReady(chain: SupplyChain, i: int) {
    && 0 <= i < |chain.conditions| && chain.conditions[i].ctype == "Ready"
    && forall j :: 0 <= j < i ==> chain.conditions[j].ctype != "Ready"
  }

  /** Exactly one chain is found for a labelled owner. */
  predicate OneChain(f: Facts) {
    f.labels != map[] && f.chains.Fetched? && |f.chains.value| == 1
  }

  lemma ReadyIs(chain: SupplyChain)
    ensures forall i :: FirstReady(chain, i) ==> ReadyCondition(chain) == chain.conditions[i]
    ensures ReadyCondition(chain).status == True <==> IsReady(chain)
    ensures (forall c :: c in chain.conditions ==> c.ctype != "Ready") ==>
              ReadyCondition(chain).reason == ReadyCondition(chain).message == ""
  {
    hide ConditionWithType;
    forall i | FirstReady(chain, i) ensures ReadyCondition(chain) == chain.conditions[i] {
      FirstIsFound(chain.conditions, "Ready", i);
    }
    if ReadyCondition(chain).status == True {
      var i := FirstReadyOf(chain.conditions);
      assert FirstReady(chain, i);
    }
  }

  lemma {:induction false} FirstReadyOf(cs: seq<Condition>) returns (i: nat)
    requires exists c :: c in cs && c.ctype == "Ready"
    ensures i < |cs| && cs[i].ctype == "Ready" && forall j :: 0 <= j < i ==> cs[j].ctype != "Ready"
  {
    i := 0;
    if cs[0].ctype != "Ready" {
      var c :| c in cs && c.ctype == "Ready";
      assert c in cs[1..];
      var j := FirstReadyOf(cs[1..]);
      i := j + 1;
      assert forall k :: 0 < k <= i ==> cs[k] == cs[1..][k - 1];
    }
  }

  /** A chain is realized exactly if it is the only one, of a known kind and ready, and nothing fails on the way. */
  lemma RealizesExactly(f: Facts)
    ensures RouteOf(f).Realizing?
            <==> && OneChain(f) && f.chains.value[0].kind.Some? && IsReady(f.chains.value[0])
                 && f.serviceAccountError.None? && f.tokenError.None? && f.realizerError.None?
    ensures RouteOf(f).Realizing? ==> RouteOf(f).chain == f.chains.value[0]
  {
    hide ReadyCondition;
    if OneChain(f) {
      ReadyIs(f.chains.value[0]);
    }
  }

  function Unready(reason: string, message: string): seq<Condition> {
    [Condition("SupplyChainReady", False, reason, message, 0)]
  }

  function Unsubmitted(reason: string, message: string): seq<Condition> {
    [Condition("SupplyChainReady", True, "Ready", "", 0), Condition("ResourcesSubmitted", False, reason, message, 0)]
  }

  /** The conditions with which a reconcile stops without a chain. */
  lemma StopsWithoutChain(f: Facts)
    requires !OneChain(f)
    ensures RouteOf(f)
            == Stopped(
              if f.labels == map[] then
                Unready("WorkloadLabelsMissing", "workload has no labels to match to supply chain")
              else if f.chains.LookupFailed? then []
              else if f.chains.value == [] then
                Unready("SupplyChainNotFound",
                        "no supply chain found where full selector is satisfied by labels: " + f.labelText)
              else
                Unready("MultipleSupplyChainMatches", "workload may only match a single supply chain's selector"))
  {
  }

  /** The conditions with which a reconcile stops after it has found a chain, earliest reason first. */
  lemma StopsWith(f: Facts)
    requires OneChain(f) && RouteOf(f).Stopped?
    ensures var added, chain := RouteOf(f).added, f.chains.value[0];
            if chain.kind.None? then added == []
            else if !IsReady(chain) then
              && (forall i :: FirstReady(chain, i) ==>
                    added == Unready(chain.conditions[i].reason, chain.conditions[i].message))
              && ((forall c :: c in chain.conditions ==> c.ctype != "Ready") ==> added == Unready("", ""))
            else if f.serviceAccountError.Some? then
              added == Unsubmitted("ServiceAccountError", f.serviceAccountError.value)
            else if f.tokenError.Some? then added == Unsubmitted("ServiceAccountTokenError", f.tokenError.value)
            else
              f.realizerError.Some? && added == Unsubmitted("ResourceRealizerBuilderError", f.realizerError.value)
  {
    hide ReadyCondition, IsReady, MissingLabels, ChainNotFound, TooManyChains;
    ReadyIs(f.chains.value[0]);
  }

  /** The reference that the status gets once exactly one chain of a known kind is found. */
  function ChainRef(f: Facts, before: (string, string)): (string, string) {
    if |f.labels| != 0 && f.chains.Fetched? && |f.chains.value| == 1 && f.chains.value[0].kind.Some? then
      (f.chains.value[0].kind.value, f.chains.value[0].name)
    else before
  }

  /** The reference follows the only chain of a known kind, ready or not; otherwise it stays. */
  lemma ReferenceFollows(f: Facts, before: (string, string))
    ensures ChainRef(f, before) != before ==> OneChain(f) && f.chains.value[0].kind.Some?
    ensures OneChain(f) && f.chains.value[0].kind.Some? ==>
              ChainRef(f, before) == (f.chains.value[0].kind.value, f.chains.value[0].name)
  {
  }

  // ---------- owner health ----------

  /** The Healthy conditions of the resources, in order. */
  function HealthyConditions(statuses: seq<ResourceStatus>): seq<Condition> {
    if statuses == [] then []
    else
      var last := ConditionWithType(statuses[|statuses| - 1].conditions, RESOURCE_HEALTHY);
      HealthyConditions(statuses[..|statuses| - 1]) + if last.Some? then [last.value] else []
  }

  function Timed(cs: seq<Condition>, times: nat -> Time): (es: seq<Entry>)
    ensures |es| == |cs|
    ensures forall i :: 0 <= i < |es| ==> es[i] == Entry(cs[i], Positive, times(i))
  {
    seq(|cs|, i requires 0 <= i < |cs| => Entry(cs[i], Positive, times(i)))
  }

  /** The owner's health: the aggregate of its resources' health. */
  function OwnerHealth(statuses: seq<ResourceStatus>): Condition {
    var es := Timed(HealthyConditions(statuses), _ => 0);
    var all := Recorded(RESOURCES_HEALTHY, es, 0);
    all[|all| - 1].condition.(reason := "HealthyConditionRule")
  }

  lemma OwnerHealthFrom(statuses: seq<ResourceStatus>, previous: seq<Condition>, times: nat -> Time, now: Time)
    ensures var r := Finish(RESOURCES_HEALTHY, previous, Timed(HealthyConditions(statuses), times), now).conditions;
            |r| > 0 && Same(r[|r| - 1].(reason := "HealthyConditionRule"), OwnerHealth(statuses))
  {
    hide TallyOf, Finish;
    var cs := HealthyConditions(statuses);
    var es, fs := Timed(cs, times), Timed(cs, _ => 0);
    FinishKeepsContent(RESOURCES_HEALTHY, previous, es, now);
    RecordedIgnoresClock(RESOURCES_HEALTHY, es, now, fs, 0);
  }

  method OwnerHealthCondition(statuses: seq<ResourceStatus>, previous: seq<Condition>, times: nat -> Time, now: Time)
    returns (c: Condition)
    ensures Same(c, OwnerHealth(statuses))
  {
    hide TallyOf, Finish, OwnerHealth, Recorded, Disturbed, CarryAll, Same;
    var healthy := ConditionWithType(previous, RESOURCE_HEALTHY);
    var previousHealth := if healthy.Some? then [healthy.value] else [];
    var manager := new ConditionManager(RESOURCES_HEALTHY, previousHealth);
    var n := 0;
    for i := 0 to |statuses|
      invariant manager.Valid() && n == |manager.entries|
      invariant manager.entries == Timed(HealthyConditions(statuses[..i]), times)
    {
      assert statuses[..i + 1][..i] == statuses[..i];
      var found := ConditionWithType(statuses[i].conditions, RESOURCE_HEALTHY);
      if found.Some? {
        manager.Add(found.value, Positive, times(n));
        n := n + 1;
      }
    }
    assert statuses[..|statuses|] == statuses;
    var result, _ := manager.Finalize(now);
    OwnerHealthFrom(statuses, previousHealth, times, now);
    c := result[|result| - 1].(reason := "HealthyConditionRule");
  }

  // ---------- the write gate ----------

  /** The tracked statuses at the end of a reconcile that realizes `chain`. */
  ghost function Realized(s: OwnerStatus, f: Facts, chain: SupplyChain, c: OwnerClock): seq<Tracked> {
    TrackedAt(s.resources, f.world, chain.resources, c.resources, |chain.resources|)
  }

  ghost function RealizeError(s: OwnerStatus, f: Facts, chain: SupplyChain, c: OwnerClock): Option<Error> {
    FirstError(s.resources, f.world, chain.resources, c.resources, |chain.resources|)
  }

  function OwnerSubmission(err: Option<Error>): Condition {
    if err.Some? then ErrorCondition(true, err.value) else SubmittedCondition(True, "ResourceSubmissionComplete", "")
  }

  /** The conditions a reconcile adds, in order. */
  ghost function Added(s: OwnerStatus, f: Facts, c: OwnerClock): seq<Condition> {
    match RouteOf(f)
    case Stopped(added) => added
    case Realizing(chain) =>
      [CHAIN_READY, OwnerSubmission(RealizeError(s, f, chain, c)), OwnerHealth(Currents(Realized(s, f, chain, c)))]
  }

  ghost predicate ResourcesChanged(s: OwnerStatus, f: Facts, c: OwnerClock) {
    match RouteOf(f)
    case Stopped(_) => false
    case Realizing(chain) => Changed(Realized(s, f, chain, c))
  }

  ghost function ResourcesAfter(s: OwnerStatus, f: Facts, c: OwnerClock): seq<ResourceStatus> {
    match RouteOf(f)
    case Stopped(_) => s.resources
    case Realizing(chain) => Currents(Realized(s, f, chain, c))
  }

  ghost function OwnerFinish(s: OwnerStatus, f: Facts, c: OwnerClock): Finalized {
    Finish(OWNER_READY, s.conditions, Timed(Added(s, f, c), c.adds), c.ready)
  }

  /** The reconcile attempts a status write. */
  ghost predicate Writes(s: OwnerStatus, generation: int, f: Facts, c: OwnerClock) {
    OwnerFinish(s, f, c).changed || s.observedGeneration != generation || ResourcesChanged(s, f, c)
  }

  /** The status it writes. */
  ghost function Written(s: OwnerStatus, generation: int, f: Facts, c: OwnerClock): OwnerStatus {
    OwnerStatus(OwnerFinish(s, f, c).conditions, ResourcesAfter(s, f, c), generation, ChainRef(f, s.supplyChain))
  }

  // ---------- storage ----------

  function RoundOutputs(os: seq<OutputStatus>, round: Time -> Time): seq<OutputStatus> {
    seq(|os|, i requires 0 <= i < |os| => os[i].(time := round(os[i].time)))
  }

  function RoundStatus(s: ResourceStatus, round: Time -> Time): ResourceStatus {
    ResourceStatus(s.resource.(outputs := RoundOutputs(s.resource.outputs, round)),
                   RoundConditions(s.conditions, round))
  }

  /** A status as it comes back from the API server, which keeps times at its own precision. */
  function Stored(s: OwnerStatus, round: Time -> Time): OwnerStatus {
    s.(conditions := RoundConditions(s.conditions, round),
       resources := seq(|s.resources|, i requires 0 <= i < |s.resources| => RoundStatus(s.resources[i], round)))
  }

  /** What storage may do to a status. */
  ghost predicate SameOwner(a: OwnerStatus, b: OwnerStatus) {
    && SameList(a.conditions, b.conditions) && SameStatuses(a.resources, b.resources)
    && a.observedGeneration == b.observedGeneration && a.supplyChain == b.supplyChain
  }

  lemma StoredIsSame(s: OwnerStatus, round: Time -> Time)
    ensures SameOwner(s, Stored(s, round))
  {
    forall i | 0 <= i < |s.resources| ensures SameStatus(s.resources[i], Stored(s, round).resources[i]) {
    }
  }

  // ---------- the reconciler ----------

  class WorkloadReconciler {
    /** The owner's status on the API server. */
    var stored: OwnerStatus

    constructor (status: OwnerStatus)
      ensures stored == status
    {
      stored := status;
    }

    /** Everything up to realization; gives the chain to realize, or nothing if the reconcile stops here. */
    method Prepare(f: Facts, c: OwnerClock, manager: ConditionManager) returns (chain: Option<SupplyChain>)
      requires manager.Valid() && manager.entries == []
      modifies manager
      ensures manager.Valid()
      ensures match RouteOf(f)
              case Stopped(added) => chain == None && manager.entries == Timed(added, c.adds)
              case Realizing(found) => chain == Some(found) && manager.entries == Timed([CHAIN_READY], c.adds)
    {
      hide TallyOf, Disturbed, CarryAll, ConditionWithType, ChainNotReady, NoServiceAccount, NoToken, NoRealizer;
      hide IsReady, FirstReady, ReadyCondition;
      chain := FindChain(f, c, manager);
      if chain.None? || chain.value.kind.None? {
        return None;
      }
      var ready := ReadyCondition(chain.value);
      if ready.status != True {
        manager.Add(ChainNotReady(ready), Positive, c.adds(0));
        return None;
      }
      manager.Add(CHAIN_READY, Positive, c.adds(0));
      if f.serviceAccountError.Some? {
        manager.Add(NoServiceAccount(f.serviceAccountError.value), Positive, c.adds(1));
        return None;
      }
      if f.tokenError.Some? {
        manager.Add(NoToken(f.tokenError.value), Positive, c.adds(1));
        return None;
      }
      if f.realizerError.Some? {
        manager.Add(NoRealizer(f.realizerError.value), Positive, c.adds(1));
        return None;
      }
    }

    method FindChain(f: Facts, c: OwnerClock, manager: ConditionManager) returns (chain: Option<SupplyChain>)
      requires manager.Valid() && manager.entries == []
      modifies manager
      ensures manager.Valid()
      ensures chain.None? ==> RouteOf(f).Stopped? && manager.entries == Timed(RouteOf(f).added, c.adds)
      ensures chain.Some? ==> |f.labels| != 0 && f.chains == Fetched([chain.value]) && manager.entries == []
    {
      hide TallyOf, Disturbed, CarryAll, ConditionWithType, MissingLabels, ChainNotFound, TooManyChains;
      if |f.labels| == 0 {
        manager.Add(MissingLabels(), Positive, c.adds(0));
        return None;
      }
      if f.chains.LookupFailed? {
        return None;
      }
      if |f.chains.value| == 0 {
        manager.Add(ChainNotFound(f.labelText), Positive, c.adds(0));
        return None;
      }
      if |f.chains.value| > 1 {
        manager.Add(TooManyChains(), Positive, c.adds(0));
        return None;
      }
      assert f.chains.value == [f.chains.value[0]];
      return Some(f.chains.value[0]);
    }

    /** One reconcile; `accepted` says whether the API server takes a status update. */
    method Reconcile(generation: int, f: Facts, c: OwnerClock, round: Time -> Time, accepted: bool)
      returns (attempted: bool)
      modifies this
      ensures attempted == Writes(old(stored), generation, f, c)
      ensures stored == if attempted && accepted then Stored(Written(old(stored), generation, f, c), round)
                        else old(stored)
    {
      hide TallyOf, Finish, ErrorCondition, TrackedAt, FirstError, OwnerHealth, Currents, RouteOf, Stored;
      hide Disturbed, CarryAll, Begin, ChainRef;
      var status := stored.(supplyChain := ChainRef(f, stored.supplyChain));
      var manager := new ConditionManager(OWNER_READY, status.conditions);
      var chain := Prepare(f, c, manager);
      if chain.None? {
        attempted := CompleteReconciliation(status, generation, None, manager, c.ready, round, accepted);
        return;
      }
      var statuses := new ResourceStatuses(status.resources);
      var err := Realize(f.world, chain.value.resources, c.resources, status.resources, statuses);
      manager.Add(OwnerSubmission(err), Positive, c.adds(1));
      var current := statuses.GetCurrent();
      var health := OwnerHealthCondition(current, status.conditions, c.health, c.ready);
      manager.Add(health, Positive, c.adds(2));
      AddedFinish(stored, f, chain.value, c, manager.entries, health);
      attempted := CompleteReconciliation(status, generation, Some(statuses), manager, c.ready, round, accepted);
    }

    method CompleteReconciliation(status: OwnerStatus, generation: int, statuses: Option<ResourceStatuses>,
                                  manager: ConditionManager, now: Time, round: Time -> Time, accepted: bool)
      returns (attempted: bool)
      requires manager.Valid()
      modifies this, manager
      ensures var fin := Finish(manager.topType, manager.previous, old(manager.entries), now);
              && attempted == (|| fin.changed
                               || status.observedGeneration != generation
                               || (statuses.Some? && Changed(statuses.value.statuses)))
              && stored == if attempted && accepted then
                             Stored(OwnerStatus(fin.conditions,
                                                if statuses.Some? then Currents(statuses.value.statuses)
                                                else status.resources,
                                                generation, status.supplyChain), round)
                           else old(stored)
    {
      hide Finish, Currents;
      var conditions, changed := manager.Finalize(now);
      var next := status.(conditions := conditions);
      var resourcesChanged := false;
      if statuses.Some? {
        resourcesChanged := statuses.value.IsChanged();
      }
      attempted := changed || next.observedGeneration != generation || resourcesChanged;
      if attempted {
        if statuses.Some? {
          var current := statuses.value.GetCurrent();
          next := next.(resources := current);
        }
        next := next.(observedGeneration := generation);
        if accepted {
          stored := Stored(next, round);
        }
      }
    }
  }

  /** The health condition is handed over with a time of its own, which does not matter. */
  lemma AddedFinish(s: OwnerStatus, f: Facts, chain: SupplyChain, c: OwnerClock, es: seq<Entry>, health: Condition)
    requires RouteOf(f) == Realizing(chain) && Same(health, OwnerHealth(Currents(Realized(s, f, chain, c))))
    requires es == [Entry(CHAIN_READY, Positive, c.adds(0)),
                    Entry(OwnerSubmission(RealizeError(s, f, chain, c)), Positive, c.adds(1)),
                    Entry(health, Positive, c.adds(2))]
    ensures Finish(OWNER_READY, s.conditions, es, c.ready) == OwnerFinish(s, f, c)
  {
    hide RouteOf, OwnerHealth, OwnerSubmission, TrackedAt, FirstError, Currents, Finish;
    var added := Added(s, f, c);
    SimilarEntries(es, added, c.adds);
    RetimedFinish(OWNER_READY, s.conditions, es, Timed(added, c.adds), c.ready);
  }

  /** Recorded conditions are re-timed by the manager, so the times they are handed over with do not matter. */
  lemma RetimedFinish(topType: string, previous: seq<Condition>, a: seq<Entry>, b: seq<Entry>, now: Time)
    requires SameEntries(a, b) && forall i :: 0 <= i < |a| ==> a[i].now == b[i].now
    ensures Finish(topType, previous, a, now) == Finish(topType, previous, b, now)
  {
    ChangeIgnoresClock(topType, previous, a, now, b, now);
    TallyIgnoresClock(a, b);
    var x, y := Recorded(topType, a, now), Recorded(topType, b, now);
    forall i | 0 <= i < |x| ensures CarryAll(previous, x)[i] == CarryAll(previous, y)[i] {
      RetimedCarry(previous, x[i].condition, y[i].condition, x[i].now);
    }
  }

  lemma {:induction false} RetimedCarry(previous: seq<Condition>, c: Condition, d: Condition, now: Time)
    requires Same(c, d)
    ensures Carried(previous, c, now) == Carried(previous, d, now)
  {
    if previous != [] {
      RetimedCarry(previous[..|previous| - 1], c, d, now);
    }
  }

  lemma SimilarEntries(es: seq<Entry>, cs: seq<Condition>, times: nat -> Time)
    requires |es| == |cs|
    requires forall i :: 0 <= i < |es| ==>
               es[i].polarity == Positive && es[i].now == times(i) && Same(es[i].condition, cs[i])
    ensures SameEntries(es, Timed(cs, times))
    ensures forall i :: 0 <= i < |es| ==> es[i].now == Timed(cs, times)[i].now
  {
  }
}
