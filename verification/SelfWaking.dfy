/**
 Runs of reconciles under unchanging facts. A status write wakes the controller again, so a reconcile
 that writes over its own result never comes to rest. The laws here say exactly when that happens.
 */
module SelfWaking {
  import opened Common
  import opened Conditions
  import opened Api
  import opened Statuses
  import opened Realizer
  import opened Quiescence
  import opened RunLaws
  import opened Reconciler

  /** Facts as the webhooks and the production evaluator guarantee them. */
  ghost predicate Sound(f: Facts) {
    && TimelessHealth(f.world)
    && (RouteOf(f).Realizing? ==> DistinctNames(RouteOf(f).chain.resources))
  }

  /**
   The reconcile never comes to rest: it stops before adding any condition, or the first
   resource to fail is a pass-through whose input is missing.
   */
  ghost predicate Restless(s: OwnerStatus, f: Facts, c: OwnerClock) {
    match RouteOf(f)
    case Stopped(added) => added == []
    case Realizing(chain) => var e := RealizeError(s, f, chain, c); e.Some? && MissingPassThrough(e.value)
  }

  // ---------- the types an owner's conditions have ----------

  lemma StoppedTypes(f: Facts)
    requires RouteOf(f).Stopped?
    ensures var added := RouteOf(f).added;
            && |added| <= 2
            && (|added| > 0 ==> added[0].ctype == SUPPLY_CHAIN_READY)
            && (|added| > 1 ==> added[1].ctype == RESOURCES_SUBMITTED)
  {
    hide ReadyCondition, MissingLabels, ChainNotFound, TooManyChains, ChainNotReady, NoServiceAccount, NoToken;
    hide NoRealizer;
  }

  lemma OwnerHealthType(statuses: seq<ResourceStatus>)
    ensures OwnerHealth(statuses).ctype == RESOURCES_HEALTHY
  {
    hide TallyOf;
  }

  lemma OwnerSubmissionType(err: Option<Error>)
    ensures OwnerSubmission(err).ctype
            == if err.Some? && MissingPassThrough(err.value) then SUPPLY_CHAIN_READY else RESOURCES_SUBMITTED
    ensures err.Some? && MissingPassThrough(err.value) ==> OwnerSubmission(err).status == False
  {
    if err.Some? {
      ErrorConditionType(true, err.value);
    }
  }

  lemma DistinctAdded(added: seq<Condition>, times: nat -> Time, now: Time)
    requires 0 < |added| <= 3 && added[0].ctype == SUPPLY_CHAIN_READY
    requires |added| > 1 ==> added[1].ctype == RESOURCES_SUBMITTED
    requires |added| > 2 ==> added[2].ctype == RESOURCES_HEALTHY
    ensures DistinctTypes(Recorded(OWNER_READY, Timed(added, times), now))
  {
    hide TallyOf;
    TypesDiffer();
    var types := [SUPPLY_CHAIN_READY, RESOURCES_SUBMITTED, RESOURCES_HEALTHY, OWNER_READY];
    assert types[0] != types[1] && types[0] != types[2] && types[0] != types[3];
    assert types[1] != types[2] && types[1] != types[3] && types[2] != types[3];
  }

  lemma ClashingAdded(added: seq<Condition>, times: nat -> Time, now: Time)
    requires |added| == 3 && added[0].ctype == added[1].ctype && added[0].status != added[1].status
    ensures !Consistent(Recorded(OWNER_READY, Timed(added, times), now))
  {
    hide TallyOf;
    var all := Recorded(OWNER_READY, Timed(added, times), now);
    assert all[0] in all && all[1] in all;
    assert all[0].condition == added[0] && all[1].condition == added[1];
  }

  /** A reconcile's recorded conditions have distinct types, unless it is restless. */
  lemma RestlessIsInconsistent(s: OwnerStatus, f: Facts, c: OwnerClock)
    ensures var es := Timed(Added(s, f, c), c.adds);
            if Restless(s, f, c) then es == [] || !Consistent(Recorded(OWNER_READY, es, c.ready))
            else es != [] && DistinctTypes(Recorded(OWNER_READY, es, c.ready))
  {
    hide TallyOf, RouteOf, OwnerHealth, OwnerSubmission, TrackedAt, FirstError, Currents, Recorded, Consistent;
    hide DistinctTypes;
    var added := Added(s, f, c);
    match RouteOf(f)
    case Stopped(_) =>
      StoppedTypes(f);
      if added != [] {
        DistinctAdded(added, c.adds, c.ready);
      }
    case Realizing(chain) =>
      OwnerHealthType(Currents(Realized(s, f, chain, c)));
      OwnerSubmissionType(RealizeError(s, f, chain, c));
      if Restless(s, f, c) {
        ClashingAdded(added, c.adds, c.ready);
      } else {
        DistinctAdded(added, c.adds, c.ready);
      }
  }

  /** A restless reconcile writes over every status. */
  lemma RestlessWrites(s: OwnerStatus, generation: int, f: Facts, c: OwnerClock)
    requires Restless(s, f, c)
    ensures Writes(s, generation, f, c)
  {
    hide TallyOf, Added, Restless, CarryAll, Disturbed, Recorded;
    RestlessIsInconsistent(s, f, c);
    var es := Timed(Added(s, f, c), c.adds);
    if es != [] {
      InconsistentAlwaysChanges(s.conditions, Recorded(OWNER_READY, es, c.ready));
    }
  }

  // ---------- times do not matter ----------

  lemma {:induction false} ConditionWithTypeIgnoresTimes(a: seq<Condition>, b: seq<Condition>, ctype: string)
    requires SameList(a, b)
    ensures var x, y := ConditionWithType(a, ctype), ConditionWithType(b, ctype);
            (x.Some? <==> y.Some?) && (x.Some? ==> Same(x.value, y.value))
  {
    if a != [] {
      ConditionWithTypeIgnoresTimes(a[1..], b[1..], ctype);
    }
  }

  lemma {:induction false} HealthyConditionsIgnoreTimes(a: seq<ResourceStatus>, b: seq<ResourceStatus>)
    requires SameStatuses(a, b)
    ensures SameList(HealthyConditions(a), HealthyConditions(b))
  {
    hide ConditionWithType;
    if a != [] {
      HealthyConditionsIgnoreTimes(a[..|a| - 1], b[..|b| - 1]);
      assert SameStatus(a[|a| - 1], b[|b| - 1]);
      ConditionWithTypeIgnoresTimes(a[|a| - 1].conditions, b[|b| - 1].conditions, RESOURCE_HEALTHY);
    }
  }

  lemma OwnerHealthIgnoresTimes(a: seq<ResourceStatus>, b: seq<ResourceStatus>)
    requires SameStatuses(a, b)
    ensures Same(OwnerHealth(a), OwnerHealth(b))
  {
    hide TallyOf, HealthyConditions, SameStatus;
    HealthyConditionsIgnoreTimes(a, b);
    var x, y := Timed(HealthyConditions(a), _ => 0), Timed(HealthyConditions(b), _ => 0);
    RecordedIgnoresClock(RESOURCES_HEALTHY, x, 0, y, 0);
  }

  /** Owner health is the verdict over the resources' Healthy conditions, Unknown if there are none. */
  lemma OwnerHealthIsVerdict(statuses: seq<ResourceStatus>)
    ensures var cs := HealthyConditions(statuses);
            OwnerHealth(statuses).status
            == if cs == [] then Unknown
               else if exists c :: c in cs && c.status == False then False
               else if exists c :: c in cs && c.status == Unknown then Unknown
               else True
  {
    hide TallyOf;
    var cs := HealthyConditions(statuses);
    var es := Timed(cs, _ => 0);
    TallyIsVerdict(es);
    forall c | c in cs ensures Entry(c, Positive, 0) in es {
      var i :| 0 <= i < |cs| && cs[i] == c;
      assert es[i] == Entry(c, Positive, 0);
    }
    assert forall e :: e in es ==> e.condition in cs && e == Entry(e.condition, Positive, 0);
  }

  lemma AddedSame(x: seq<Condition>, s: nat -> Time, y: seq<Condition>, t: nat -> Time)
    requires SameList(x, y)
    ensures SameEntries(Timed(x, s), Timed(y, t))
  {
  }

  /** Under another clock the same reconcile adds the same and decides the same. */
  lemma GateIgnoresClock(s: OwnerStatus, generation: int, f: Facts, c: OwnerClock, d: OwnerClock)
    requires Sound(f)
    ensures Writes(s, generation, f, c) == Writes(s, generation, f, d)
    ensures Restless(s, f, c) == Restless(s, f, d)
  {
    hide TallyOf, RouteOf, OwnerHealth, OwnerSubmission, TrackedAt, FirstError, Currents, Finish, Changed;
    hide DistinctNames, SameStatus, TimelessHealth;
    match RouteOf(f) {
      case Stopped(_) =>
      case Realizing(chain) =>
        var n := |chain.resources|;
        RunIgnoresClock(s.resources, f.world, chain.resources, c.resources, d.resources, n);
        ChangedIgnoresClock(s.resources, f.world, chain.resources, c.resources, d.resources);
        OwnerHealthIgnoresTimes(Currents(Realized(s, f, chain, c)), Currents(Realized(s, f, chain, d)));
    }
    assert SameList(Added(s, f, c), Added(s, f, d));
    AddedSame(Added(s, f, c), c.adds, Added(s, f, d), d.adds);
    ChangeIgnoresClock(OWNER_READY, s.conditions, Timed(Added(s, f, c), c.adds), c.ready,
                       Timed(Added(s, f, d), d.adds), d.ready);
  }

  // ---------- a second reconcile ----------

  /** Over its own stored result a reconcile adds the same conditions and finds its resources unchanged. */
  lemma AddedSettles(s: OwnerStatus, generation: int, f: Facts, c: OwnerClock, stored: OwnerStatus, d: OwnerClock)
    requires Sound(f) && SameOwner(Written(s, generation, f, c), stored)
    ensures SameList(Added(s, f, c), Added(stored, f, d))
    ensures !ResourcesChanged(stored, f, d) && ResourcesAfter(stored, f, d) == stored.resources
    ensures Restless(s, f, c) == Restless(stored, f, d)
  {
    hide TallyOf, RouteOf, OwnerHealth, OwnerSubmission, TrackedAt, FirstError, Currents, OwnerFinish, Changed;
    hide DistinctNames, SameStatus, TimelessHealth;
    match RouteOf(f)
    case Stopped(_) =>
    case Realizing(chain) =>
      RunSettles(s.resources, f.world, chain.resources, c.resources, stored.resources, d.resources);
      var n := |chain.resources|;
      ErrorSettles(s.resources, f.world, chain.resources, c.resources, stored.resources, d.resources, n);
      OwnerHealthIgnoresTimes(Currents(Realized(s, f, chain, c)), stored.resources);
  }

  /**
   After a successful status write, a reconcile with the same facts writes again exactly if it is
   restless; otherwise it finds the stored status to be, to the last timestamp, what it would write.
   */
  lemma SecondReconcile(s: OwnerStatus, generation: int, f: Facts, c: OwnerClock, stored: OwnerStatus, d: OwnerClock)
    requires Sound(f) && SameOwner(Written(s, generation, f, c), stored)
    ensures Writes(stored, generation, f, d) <==> Restless(stored, f, d)
    ensures Restless(stored, f, d) <==> Restless(s, f, c)
    ensures !Restless(stored, f, d) ==> Written(stored, generation, f, d) == stored
  {
    hide TallyOf, RouteOf, Added, ResourcesChanged, ResourcesAfter, Restless, Recorded, CarryAll, Disturbed;
    hide SameStatus, TimelessHealth, Consistent, DistinctTypes;
    AddedSettles(s, generation, f, c, stored, d);
    RestlessIsInconsistent(stored, f, d);
    var a, b := Timed(Added(s, f, c), c.adds), Timed(Added(stored, f, d), d.adds);
    AddedSame(Added(s, f, c), c.adds, Added(stored, f, d), d.adds);
    FinishKeepsContent(OWNER_READY, s.conditions, a, c.ready);
    ListsTransfer(OwnerFinish(s, f, c).conditions, stored.conditions, Recorded(OWNER_READY, a, c.ready));
    Rerun(OWNER_READY, stored.conditions, a, c.ready, b, d.ready);
    if b != [] && DistinctTypes(Recorded(OWNER_READY, b, d.ready)) {
      DistinctTypesAreConsistent(Recorded(OWNER_READY, b, d.ready));
    }
  }

  lemma ListsTransfer(cs: seq<Condition>, stored: seq<Condition>, all: seq<Entry>)
    requires Lists(cs, all) && SameList(cs, stored)
    ensures Lists(stored, all)
  {
  }

  // ---------- whole runs ----------

  /** One round: its clock, the precision of storage, and whether the API server takes an update. */
  datatype Turn = Turn(clock: OwnerClock, round: Time -> Time, accepted: bool)

  /** The stored status before round `n`. */
  ghost function Before(s: OwnerStatus, generation: int, f: Facts, turns: nat -> Turn, n: nat): OwnerStatus {
    if n == 0 then s
    else
      var b, turn := Before(s, generation, f, turns, n - 1), turns(n - 1);
      if Writes(b, generation, f, turn.clock) && turn.accepted then
        Stored(Written(b, generation, f, turn.clock), turn.round)
      else b
  }

  /** Round `n` attempts a status write. */
  ghost predicate Attempts(s: OwnerStatus, generation: int, f: Facts, turns: nat -> Turn, n: nat) {
    Writes(Before(s, generation, f, turns, n), generation, f, turns(n).clock)
  }

  ghost predicate RestlessAt(s: OwnerStatus, generation: int, f: Facts, turns: nat -> Turn, n: nat) {
    Restless(Before(s, generation, f, turns, n), f, turns(n).clock)
  }

  /** From one round to the next: restlessness stays, and a settled controller stays settled. */
  lemma NextRound(s: OwnerStatus, generation: int, f: Facts, turns: nat -> Turn, n: nat)
    requires Sound(f)
    ensures RestlessAt(s, generation, f, turns, n + 1) == RestlessAt(s, generation, f, turns, n)
    ensures RestlessAt(s, generation, f, turns, n) ==> Attempts(s, generation, f, turns, n)
    ensures (!RestlessAt(s, generation, f, turns, n)
             && (!Attempts(s, generation, f, turns, n) || turns(n).accepted)) ==>
              (!Attempts(s, generation, f, turns, n + 1)
               && Before(s, generation, f, turns, n + 2) == Before(s, generation, f, turns, n + 1))
  {
    hide Writes, Written, Restless, Sound, Stored, SameOwner;
    var b, turn := Before(s, generation, f, turns, n), turns(n);
    var d := turns(n + 1).clock;
    if Restless(b, f, turn.clock) {
      RestlessWrites(b, generation, f, turn.clock);
    }
    if Writes(b, generation, f, turn.clock) && turn.accepted {
      var next := Stored(Written(b, generation, f, turn.clock), turn.round);
      StoredIsSame(Written(b, generation, f, turn.clock), turn.round);
      SecondReconcile(b, generation, f, turn.clock, next, d);
    } else {
      GateIgnoresClock(b, generation, f, turn.clock, d);
    }
  }

  lemma {:induction false} RestlessnessLasts(s: OwnerStatus, generation: int, f: Facts, turns: nat -> Turn, n: nat)
    requires Sound(f)
    ensures RestlessAt(s, generation, f, turns, n) == RestlessAt(s, generation, f, turns, 0)
  {
    hide RestlessAt, Attempts, Before, Sound;
    if n > 0 {
      RestlessnessLasts(s, generation, f, turns, n - 1);
      NextRound(s, generation, f, turns, n - 1);
    }
  }

  /**
   The dichotomy of runs under unchanging facts, for every starting status, clock, storage precision
   and pattern of rejected updates. A restless reconcile attempts a write in every round. Any other
   attempts none after the first round whose write was accepted, or that attempted none, and from
   then on the stored status never changes again.
   */
  lemma {:induction false} RestlessOrSettled(s: OwnerStatus, generation: int, f: Facts, turns: nat -> Turn, m: nat,
                                             n: nat)
    requires Sound(f) && m < n
    ensures RestlessAt(s, generation, f, turns, 0) ==> Attempts(s, generation, f, turns, n)
    ensures (!RestlessAt(s, generation, f, turns, 0)
             && (!Attempts(s, generation, f, turns, m) || turns(m).accepted)) ==>
              (!Attempts(s, generation, f, turns, n)
               && Before(s, generation, f, turns, n) == Before(s, generation, f, turns, m + 1))
    decreases n
  {
    hide RestlessAt, Attempts, Before, Sound;
    RestlessnessLasts(s, generation, f, turns, n);
    NextRound(s, generation, f, turns, n);
    RestlessnessLasts(s, generation, f, turns, n - 1);
    NextRound(s, generation, f, turns, n - 1);
    if m < n - 1 {
      RestlessOrSettled(s, generation, f, turns, m, n - 1);
      StaysPut(s, generation, f, turns, n - 1);
    }
  }

  lemma StaysPut(s: OwnerStatus, generation: int, f: Facts, turns: nat -> Turn, n: nat)
    ensures !Attempts(s, generation, f, turns, n) ==>
              Before(s, generation, f, turns, n + 1) == Before(s, generation, f, turns, n)
  {
    hide Writes, Written, Stored;
  }
}
