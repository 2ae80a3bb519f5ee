/** When an owner is reported ready, why not, and which resources its status then names. */
module Readiness {
  import opened Common
  import opened Conditions
  import opened Api
  import opened Statuses
  import opened Realizer
  import opened Quiescence
  import opened Reconciler
  import opened SelfWaking
  import opened Records

  /** The owner's health before it is added. */
  ghost function HealthOf(s: OwnerStatus, f: Facts, c: OwnerClock): Status {
    match RouteOf(f)
    case Stopped(_) => Unknown
    case Realizing(chain) => OwnerHealth(Currents(Realized(s, f, chain, c))).status
  }

  ghost function FailureOf(s: OwnerStatus, f: Facts, c: OwnerClock): Option<Error> {
    match RouteOf(f)
    case Stopped(_) => None
    case Realizing(chain) => RealizeError(s, f, chain, c)
  }

  /**
   An owner is ready exactly if a chain is realized without an error and is healthy. It is not ready if the reconcile
   stops with a condition, or the error is more than an output waited for, or a resource is unhealthy. Otherwise, also
   if the reconcile stops without a condition, it is unknown.
   */
  lemma OwnerReadyIs(s: OwnerStatus, f: Facts, c: OwnerClock)
    ensures var cs, e := OwnerFinish(s, f, c).conditions, FailureOf(s, f, c);
            && |cs| > 0 && cs[|cs| - 1].ctype == "Ready"
            && cs[|cs| - 1].status
               == if RouteOf(f).Stopped? then (if RouteOf(f).added == [] then Unknown else False)
                  else if (e.Some? && !Waits(e.value)) || HealthOf(s, f, c) == False then False
                  else if e.Some? || HealthOf(s, f, c) == Unknown then Unknown
                  else True
  {
    hide RouteOf, OwnerHealth, OwnerSubmission, TrackedAt, FirstError, Currents, Finish, Verdict, Timed;
    var added := Added(s, f, c);
    TopIsVerdict(OWNER_READY, s.conditions, Timed(added, c.adds), c.ready);
    TimedVerdict(added, c.adds);
    match RouteOf(f)
    case Stopped(_) =>
      StoppedStatuses(f);
      if added != [] {
        assert exists k :: k in added && k.status == False;
      }
    case Realizing(chain) =>
      OwnerSubmissionIs(RealizeError(s, f, chain, c));
      assert added[0] in added && added[1] in added && added[2] in added;
  }

  lemma TimedVerdict(added: seq<Condition>, times: nat -> Time)
    ensures |Timed(added, times)| == |added|
    ensures Verdict(Timed(added, times))
            == if exists k :: k in added && k.status == False then False
               else if exists k :: k in added && k.status == Unknown then Unknown
               else True
  {
    var es := Timed(added, times);
    forall k | k in added ensures exists e :: e in es && e.condition == k && e.polarity == Positive {
      var i :| 0 <= i < |added| && added[i] == k;
      assert es[i] in es;
    }
    assert forall e :: e in es ==> e.condition in added && e.polarity == Positive;
  }

  lemma StoppedStatuses(f: Facts)
    requires RouteOf(f).Stopped?
    ensures var added := RouteOf(f).added;
            added != [] ==> added[|added| - 1] in added && added[|added| - 1].status == False
  {
    hide ReadyCondition, MissingLabels, ChainNotFound, TooManyChains, ChainNotReady, NoServiceAccount, NoToken;
    hide NoRealizer;
  }

  lemma OwnerSubmissionIs(err: Option<Error>)
    ensures err.None? ==>
              OwnerSubmission(err) == Condition("ResourcesSubmitted", True, "ResourceSubmissionComplete", "", 0)
    ensures err.Some? ==> OwnerSubmission(err).status == if Waits(err.value) then Unknown else False
  {
    if err.Some? {
      ErrorConditionIs(true, err.value);
    }
  }

  /** What owner health aggregates: each resource's first Healthy condition, if it has one, under a fixed reason. */
  lemma {:induction false} OwnerHealthCovers(statuses: seq<ResourceStatus>)
    ensures forall c :: c in HealthyConditions(statuses)
                        <==> exists s :: s in statuses && ConditionWithType(s.conditions, "Healthy") == Some(c)
    ensures OwnerHealth(statuses).ctype == "ResourcesHealthy" && OwnerHealth(statuses).reason == "HealthyConditionRule"
  {
    hide ConditionWithType, TallyOf;
    OwnerHealthType(statuses);
    if statuses != [] {
      var init, last := statuses[..|statuses| - 1], statuses[|statuses| - 1];
      assert statuses == init + [last];
      OwnerHealthCovers(init);
    }
  }

  /**
   A reconcile that stops keeps every record of resources as it was. One that realizes a chain leaves exactly one for
   each resource of the chain, and none under another name.
   */
  lemma WrittenNamesAre(s: OwnerStatus, generation: int, f: Facts, c: OwnerClock)
    ensures var after := Written(s, generation, f, c);
            && after.observedGeneration == generation
            && (RouteOf(f).Stopped? ==> after.resources == s.resources)
            && (RouteOf(f).Realizing? ==>
                  && (forall m, n :: 0 <= m < n < |after.resources| ==>
                        after.resources[m].resource.name != after.resources[n].resource.name)
                  && (forall name :: Names(after.resources, name)
                                     <==> exists j :: 0 <= j < |RouteOf(f).chain.resources|
                                                      && RouteOf(f).chain.resources[j].name == name))
  {
    hide RouteOf, TrackedAt, Currents, OwnerFinish, ChainRef, StepAt;
    match RouteOf(f)
    case Stopped(_) =>
    case Realizing(chain) =>
      var rs, cur := chain.resources, Currents(Realized(s, f, chain, c));
      RunSummary(s.resources, f.world, rs, c.resources);
      forall name | Names(cur, name) ensures exists j :: 0 <= j < |rs| && rs[j].name == name {
        var m :| 0 <= m < |cur| && cur[m].resource.name == name;
        assert SummaryAt(s.resources, f.world, rs, c.resources, cur[m]);
      }
  }
}
