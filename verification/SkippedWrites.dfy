/**
 What a skipped status write loses. The stored status was written under facts of its own; a later reconcile
 under other facts decides not to write. Conditions and resources are then what it would have written, to the
 last timestamp; the reference to the supply chain is the one thing that may not be.
 */
module SkippedWrites {
  import opened Common
  import opened Conditions
  import opened Api
  import opened Statuses
  import opened Realizer
  import opened Quiescence
  import opened RunLaws
  import opened Reconciler
  import opened SelfWaking

  // ---------- one resource ----------

  /** Health, once recorded, is recorded again. */
  lemma HealthStays(prior: ResourceStatus, w: World, r: OwnerResource, a: Answer, t: Readings)
    requires ConditionWithType(prior.conditions, RESOURCE_HEALTHY).Some?
    ensures |FurtherFor(Some(prior), w, r, a, t)| == 1
  {
  }

  /** An unchanged step over a status that some step recorded leaves its conditions as they were. */
  lemma UnchangedStepKeeps(prior: Option<ResourceStatus>, v: World, q: OwnerResource, b: Answer, s: Readings,
                           stored: ResourceStatus, w: World, r: OwnerResource, a: Answer, t: Readings)
    requires TimelessHealth(v) && TimelessHealth(w)
    requires SameStatus(StepFor(prior, v, q, b, s).status, stored)
    requires !StepFor(Some(stored), w, r, a, t).changed
    ensures StepFor(Some(stored), w, r, a, t).status.conditions == stored.conditions
  {
    FurtherIsHealthy(prior, v, q, b, s);
    FurtherIsHealthy(Some(stored), w, r, a, t);
    hide FurtherFor, ErrorFor, ResourceFor, TimelessHealth;
    var x, y := FurtherFor(prior, v, q, b, s), FurtherFor(Some(stored), w, r, a, t);
    var e, f := ErrorFor(b.err, x), ErrorFor(a.err, y);
    hide Assess;
    StoredLists(prior, e, b.passThrough, x, s, stored.conditions);
    HealthyRecovered(e, b.passThrough, x, s, stored.conditions);
    if x != [] {
      HealthStays(stored, w, r, a, t);
    }
    UnchangedAssessKeeps(stored, e, b.passThrough, x, s, f, a.passThrough, y, t);
  }

  lemma UnchangedAssessKeeps(stored: ResourceStatus, e: Option<Error>, wasPassThrough: bool, x: seq<Condition>,
                             s: Readings, f: Option<Error>, isPassThrough: bool, y: seq<Condition>, t: Readings)
    requires |x| <= |y| <= 1
    requires (forall c :: c in x ==> c.ctype == RESOURCE_HEALTHY) && forall c :: c in y ==> c.ctype == RESOURCE_HEALTHY
    requires Lists(stored.conditions, Recorded(RESOURCE_READY, ResourceEntries(e, wasPassThrough, x, s), s.ready))
    requires !Assess(Some(stored), f, isPassThrough, y, t).changed
    ensures Assess(Some(stored), f, isPassThrough, y, t).conditions == stored.conditions
  {
    hide TallyOf, Submission, Recorded, ResourceEntries, Finish, Same;
    var before := Recorded(RESOURCE_READY, ResourceEntries(e, wasPassThrough, x, s), s.ready);
    var entries := ResourceEntries(f, isPassThrough, y, t);
    var after := Recorded(RESOURCE_READY, entries, t.ready);
    ResourceListTypes(e, wasPassThrough, x, s);
    ResourceListTypes(f, isPassThrough, y, t);
    SubmissionType(e, wasPassThrough);
    SubmissionType(f, isPassThrough);
    ResourceTypesDistinct(e, wasPassThrough, x, s);
    AllKnown(RESOURCE_READY, stored.conditions, before, entries, t.ready);
    forall i | 0 <= i < |after| ensures Types(after)[i] in Types(before) {
      var p :| p in before && p.condition.ctype == after[i].condition.ctype;
      var j :| 0 <= j < |before| && before[j] == p;
      assert Types(before)[j] == Types(after)[i];
    }
    ResourceListsAlign(Types(before), Types(after));
    StoredTypes(stored.conditions, before);
    AlignedComesBack(RESOURCE_READY, stored.conditions, entries, t.ready);
  }

  function Types(all: seq<Entry>): (types: seq<string>)
    ensures |types| == |all| && forall i :: 0 <= i < |all| ==> types[i] == all[i].condition.ctype
  {
    seq(|all|, i requires 0 <= i < |all| => all[i].condition.ctype)
  }

  lemma StoredTypes(stored: seq<Condition>, before: seq<Entry>)
    requires Lists(stored, before)
    ensures forall i :: 0 <= i < |before| ==> stored[i].ctype == before[i].condition.ctype
    ensures DistinctTypes(before) ==> DistinctConditions(stored)
  {
  }

  ghost predicate ResourceTypes(types: seq<string>) {
    && 2 <= |types| <= 3
    && types[0] in [RESOURCE_SUBMITTED, SUPPLY_CHAIN_READY]
    && (|types| == 3 ==> types[1] == RESOURCE_HEALTHY)
    && types[|types| - 1] == RESOURCE_READY
  }

  lemma ResourceListsAlign(a: seq<string>, b: seq<string>)
    requires ResourceTypes(a) && ResourceTypes(b) && |a| <= |b|
    requires forall i :: 0 <= i < |b| ==> b[i] in a
    ensures a == b
  {
    TypesDiffer();
    var types := [SUPPLY_CHAIN_READY, RESOURCE_SUBMITTED, RESOURCE_HEALTHY, RESOURCE_READY];
    assert types[0] != types[2] && types[0] != types[3] && types[1] != types[2];
    assert types[1] != types[3] && types[2] != types[3];
    assert b[0] in a && b[1] in a;
  }

  // ---------- all resources ----------

  /** Realizing without a change over statuses that some realization recorded leaves them as they were. */
  lemma UnchangedRunKeeps(previous: seq<ResourceStatus>, v: World, qs: seq<OwnerResource>, s: nat -> Readings,
                          stored: seq<ResourceStatus>, w: World, rs: seq<OwnerResource>, t: nat -> Readings)
    requires TimelessHealth(v) && TimelessHealth(w)
    requires SameStatuses(Currents(TrackedAt(previous, v, qs, s, |qs|)), stored)
    requires !Changed(TrackedAt(stored, w, rs, t, |rs|))
    ensures Currents(TrackedAt(stored, w, rs, t, |rs|)) == stored
  {
    hide StepAt, TrackedAt, Currents, SameStatus, TimelessHealth, HoldsLatest, EntryChanged, First;
    var cur, ts := Currents(TrackedAt(previous, v, qs, s, |qs|)), TrackedAt(stored, w, rs, t, |rs|);
    RunSummary(previous, v, qs, s);
    RunShape(stored, w, rs, t, |rs|);
    NewEntriesCount(stored, ts);
    forall k | 0 <= k < |ts| ensures ts[k].current == Some(stored[k]) {
      UnchangedEntryKeeps(previous, v, qs, s, cur[k], stored, w, rs, t, ts, k);
    }
    CurrentsOfFull(ts);
    assert Currents(ts) == stored;
  }

  lemma UnchangedEntryKeeps(previous: seq<ResourceStatus>, v: World, qs: seq<OwnerResource>, s: nat -> Readings,
                            cur: ResourceStatus, stored: seq<ResourceStatus>, w: World, rs: seq<OwnerResource>,
                            t: nat -> Readings, ts: seq<Tracked>, k: nat)
    requires TimelessHealth(v) && TimelessHealth(w)
    requires Shape(stored, w, rs, t, |rs|, ts) && k < |ts| == |stored| && !EntryChanged(ts[k])
    requires SummaryAt(previous, v, qs, s, cur) && SameStatus(cur, stored[k])
    ensures ts[k].current == Some(stored[k])
  {
    hide StepFor, TimelessHealth, AnswerAt, Tracks, SameStatus, Prior;
    assert HoldsLatest(stored, w, rs, t, |rs|, ts, k);
    var i, j := Latest(qs, cur.resource.name, |qs|).value, Latest(rs, ts[k].name, |rs|).value;
    PriorOfFirst(stored, ts, k);
    UnchangedStepKeeps(Prior(previous, qs[i].name), v, qs[i], AnswerAt(v, qs, i), s(i), stored[k],
                       w, rs[j], AnswerAt(w, rs, j), t(j));
  }

  // ---------- the owner's conditions ----------

  /** The reason of a stop between finding a chain and realizing it. */
  predicate StopReason(reason: string) {
    reason == "ServiceAccountError" || reason == "ServiceAccountTokenError" || reason == "ResourceRealizerBuilderError"
  }

  /** What a reconcile that is not restless can add. */
  ghost predicate OwnerAdds(added: seq<Condition>) {
    && |added| <= 3
    && (|added| == 1 ==> added[0].ctype == SUPPLY_CHAIN_READY && added[0].status == False)
    && (|added| >= 2 ==> added[0] == CHAIN_READY && added[1].ctype in [RESOURCES_SUBMITTED, SUPPLY_CHAIN_READY]
                         && (StopReason(added[1].reason) <==> |added| == 2))
    && (|added| == 3 ==> added[2].ctype == RESOURCES_HEALTHY)
  }

  lemma SubmissionReason(err: Option<Error>)
    ensures !StopReason(OwnerSubmission(err).reason)
  {
    hide MissingValueMessage;
    assert |"ServiceAccountError"| == 19 && |"ServiceAccountTokenError"| == 24;
    assert |"ResourceRealizerBuilderError"| == 28;
    assert |OwnerSubmission(err).reason| !in [19, 24, 28];
  }

  lemma StoppedAdds(f: Facts)
    requires RouteOf(f).Stopped?
    ensures OwnerAdds(RouteOf(f).added) && |RouteOf(f).added| <= 2
  {
    hide ReadyCondition;
  }

  lemma AddsShape(s: OwnerStatus, f: Facts, c: OwnerClock)
    ensures OwnerAdds(Added(s, f, c))
    ensures |Added(s, f, c)| == 3 <==> RouteOf(f).Realizing?
    ensures |Added(s, f, c)| > 1 && !Restless(s, f, c) ==> Added(s, f, c)[1].ctype == RESOURCES_SUBMITTED
  {
    hide RouteOf, OwnerHealth, OwnerSubmission, TrackedAt, FirstError, Currents, StopReason;
    match RouteOf(f)
    case Stopped(_) =>
      StoppedAdds(f);
      StoppedTypes(f);
    case Realizing(chain) =>
      OwnerHealthType(Currents(Realized(s, f, chain, c)));
      OwnerSubmissionType(RealizeError(s, f, chain, c));
      SubmissionReason(RealizeError(s, f, chain, c));
  }

  /** What was added, and the top-level condition. */
  ghost predicate Topped(all: seq<Entry>, added: seq<Condition>) {
    && |all| == |added| + 1 && all[|added|].condition.ctype == OWNER_READY
    && forall i :: 0 <= i < |added| ==> all[i].condition == added[i]
  }

  lemma OwnerTypesDiffer()
    ensures SUPPLY_CHAIN_READY !in [RESOURCES_SUBMITTED, RESOURCES_HEALTHY, OWNER_READY]
    ensures RESOURCES_SUBMITTED !in [RESOURCES_HEALTHY, OWNER_READY] && RESOURCES_HEALTHY != OWNER_READY
  {
    TypesDiffer();
    var types := [SUPPLY_CHAIN_READY, RESOURCES_SUBMITTED, RESOURCES_HEALTHY, OWNER_READY];
    assert types[0] != types[1] && types[0] != types[2] && types[0] != types[3];
    assert types[1] != types[2] && types[1] != types[3] && types[2] != types[3];
  }

  /** Where the types of an owner's conditions stand. */
  lemma TypesStand(x: seq<Condition>, xs: seq<Entry>)
    requires OwnerAdds(x) && Topped(xs, x)
    ensures RecordsType(xs, SUPPLY_CHAIN_READY) ==> |x| > 0
    ensures RecordsType(xs, RESOURCES_SUBMITTED) ==> |x| > 1 && x[1].ctype == RESOURCES_SUBMITTED
  {
    hide StopReason;
    OwnerTypesDiffer();
  }

  lemma OwnerListsAlign(x: seq<Condition>, y: seq<Condition>, xs: seq<Entry>, ys: seq<Entry>)
    requires OwnerAdds(x) && OwnerAdds(y) && |y| > 0 && (|y| > 1 ==> y[1].ctype == RESOURCES_SUBMITTED)
    requires Topped(xs, x) && Topped(ys, y) && Covers(xs, ys)
    ensures |x| == |y| && forall i :: 0 <= i < |xs| ==> xs[i].condition.ctype == ys[i].condition.ctype
  {
    hide StopReason, RecordsType;
    TypesStand(x, xs);
    assert ys[0].condition.ctype == SUPPLY_CHAIN_READY;
    assert Same(xs[0].condition, ys[0].condition);
    if |y| > 1 {
      assert ys[1].condition.ctype == RESOURCES_SUBMITTED;
      assert Same(xs[1].condition, ys[1].condition);
    }
  }

  lemma AddedAreTopped(added: seq<Condition>, times: nat -> Time, now: Time)
    ensures Topped(Recorded(OWNER_READY, Timed(added, times), now), added)
  {
    hide TallyOf;
  }

  /** A reconcile that does not write would record the stored conditions, and stops or realizes as the writer did. */
  lemma UnchangedConditionsKeep(s: OwnerStatus, g: Facts, c: OwnerClock, stored: OwnerStatus, f: Facts, d: OwnerClock)
    requires SameList(OwnerFinish(s, g, c).conditions, stored.conditions)
    requires !OwnerFinish(stored, f, d).changed && !Restless(stored, f, d)
    ensures OwnerFinish(stored, f, d).conditions == stored.conditions
    ensures RouteOf(f).Realizing? <==> RouteOf(g).Realizing?
  {
    hide RouteOf, Added, Restless, OwnerAdds, Recorded, Finish, Same;
    AddsShape(s, g, c);
    AddsShape(stored, f, d);
    RestlessIsInconsistent(stored, f, d);
    var x, y := Added(s, g, c), Added(stored, f, d);
    var a, b := Timed(x, c.adds), Timed(y, d.adds);
    var xs, ys := Recorded(OWNER_READY, a, c.ready), Recorded(OWNER_READY, b, d.ready);
    FinishKeepsContent(OWNER_READY, s.conditions, a, c.ready);
    ListsTransfer(OwnerFinish(s, g, c).conditions, stored.conditions, xs);
    AllKnown(OWNER_READY, stored.conditions, xs, b, d.ready);
    AddedAreTopped(x, c.adds, c.ready);
    AddedAreTopped(y, d.adds, d.ready);
    OwnerListsAlign(x, y, xs, ys);
    StoredTypes(stored.conditions, xs);
    AlignedComesBack(OWNER_READY, stored.conditions, b, d.ready);
  }

  // ---------- the law ----------

  /**
   Over a status written under any earlier facts, a reconcile that does not write finds it to be, to the last
   timestamp, what it would have written, exactly if it would not have changed the reference to the chain.
   */
  lemma SkippedWriteLosesExactly(s: OwnerStatus, earlier: int, g: Facts, c: OwnerClock, stored: OwnerStatus,
                                 generation: int, f: Facts, d: OwnerClock)
    requires Sound(g) && Sound(f)
    requires SameOwner(Written(s, earlier, g, c), stored) && !Writes(stored, generation, f, d)
    ensures Written(stored, generation, f, d) == stored.(supplyChain := ChainRef(f, stored.supplyChain))
    ensures Written(stored, generation, f, d) == stored <==> ChainRef(f, stored.supplyChain) == stored.supplyChain
  {
    hide OwnerFinish, Restless, TrackedAt, Currents, TimelessHealth, Changed, SameStatus, DistinctNames, RouteOf;
    if Restless(stored, f, d) {
      RestlessWrites(stored, generation, f, d);
    }
    UnchangedConditionsKeep(s, g, c, stored, f, d);
    if RouteOf(f).Realizing? {
      var q, r := RouteOf(g).chain.resources, RouteOf(f).chain.resources;
      UnchangedRunKeeps(s.resources, g.world, q, c.resources, stored.resources, f.world, r, d.resources);
    }
  }

  /** The same facts, but the one chain that matches is called otherwise. */
  function Renamed(f: Facts, name: string): Facts
    requires RouteOf(f).Realizing?
  {
    f.(chains := Fetched([RouteOf(f).chain.(name := name)]))
  }

  lemma RenamedGoesOn(f: Facts, name: string)
    requires RouteOf(f).Realizing?
    ensures RouteOf(Renamed(f, name)) == Realizing(RouteOf(f).chain.(name := name))
    ensures Renamed(f, name).world == f.world
    ensures forall before :: ChainRef(Renamed(f, name), before).1 == name
    ensures forall before :: ChainRef(f, before).1 == RouteOf(f).chain.name
  {
    hide ConditionWithType;
  }

  /**
   It does happen: once a status is settled, another chain with the same resources, all of them realized without an
   error and with the same answers, takes over unnoticed. An error would name the chain in its text.
   */
  lemma StaleReference(s: OwnerStatus, generation: int, f: Facts, c: OwnerClock, stored: OwnerStatus, name: string,
                       d: OwnerClock)
    requires Sound(f) && RouteOf(f).Realizing? && name != RouteOf(f).chain.name
    requires RealizeError(s, f, RouteOf(f).chain, c).None?
    requires SameOwner(Written(s, generation, f, c), stored)
    ensures !Writes(stored, generation, Renamed(f, name), d)
    ensures Written(stored, generation, Renamed(f, name), d).supplyChain.1 == name != stored.supplyChain.1
  {
    hide Finish, TrackedAt, Currents, Changed, SameStatus, RouteOf, Sound, FirstError, OwnerHealth, OwnerSubmission;
    hide Renamed, ChainRef;
    SecondReconcile(s, generation, f, c, stored, d);
    RenamedGoesOn(f, name);
    assert Added(stored, Renamed(f, name), d) == Added(stored, f, d);
  }
}
