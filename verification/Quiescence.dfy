/** Laws of whole realizations: what a run leaves behind, and what a second run does to it. */
module Quiescence {
  import opened Common
  import opened Conditions
  import opened Api
  import opened Statuses
  import opened Realizer

  // ---------- one resource, realized again ----------

  /** The first previous output of a name decides; with distinct names that is the aligned one. */
  lemma {:induction false} OutputTimeAt(previous: seq<OutputStatus>, out: OutputStatus, now: Time, j: nat)
    requires j < |previous| && previous[j].name == out.name && previous[j].digest == out.digest
    requires forall i :: 0 <= i < j ==> previous[i].name != out.name
    ensures OutputTime(previous, out, now) == previous[j].time
  {
    if j > 0 {
      assert previous[1..][j - 1] == previous[j];
      OutputTimeAt(previous[1..], out, now, j - 1);
    }
  }

  lemma OutputsKept(previous: seq<OutputStatus>, output: Option<Output>, made: seq<OutputStatus>, now: Time)
    requires GenerateOutputs(output) == Some(made) && SameOutputs(made, previous)
    ensures OutputsFor(previous, output, now) == previous
  {
    forall j | 0 <= j < |made| ensures OutputsFor(previous, output, now)[j] == previous[j] {
      forall i | 0 <= i < j ensures previous[i].name != made[j].name {
        assert made[i].name == previous[i].name;
      }
      OutputTimeAt(previous, made[j], now, j);
    }
  }

  /** Outputs generated over their own (re-timed) record come back with the recorded times. */
  lemma OutputsSettle(previous: seq<OutputStatus>, output: Option<Output>, s: Time, stored: seq<OutputStatus>,
                      t: Time)
    requires SameOutputs(OutputsFor(previous, output, s), stored)
    ensures OutputsFor(stored, output, t) == stored
  {
    var made := GenerateOutputs(output);
    if made.Some? {
      OutputsKept(stored, output, made.value, t);
    }
  }

  lemma OutputsIgnoreClock(previous: seq<OutputStatus>, output: Option<Output>, s: Time, t: Time)
    ensures SameOutputs(OutputsFor(previous, output, s), OutputsFor(previous, output, t))
    ensures OutputsFor(previous, output, s) == previous ==> OutputsFor(previous, output, t) == previous
  {
    if OutputsFor(previous, output, s) == previous {
      OutputsSettle(previous, output, s, previous, t);
    }
  }

  /** The Healthy condition can be read back from the recorded conditions. */
  lemma HealthyRecovered(err: Option<Error>, isPassThrough: bool, further: seq<Condition>, t: Readings,
                         stored: seq<Condition>)
    requires |further| <= 1 && forall c :: c in further ==> c.ctype == RESOURCE_HEALTHY
    requires Lists(stored, Recorded(RESOURCE_READY, ResourceEntries(err, isPassThrough, further, t), t.ready))
    ensures var healthy := ConditionWithType(stored, RESOURCE_HEALTHY);
            if further == [] then healthy.None? else healthy.Some? && Same(healthy.value, further[0])
  {
    hide TallyOf;
    var all := Recorded(RESOURCE_READY, ResourceEntries(err, isPassThrough, further, t), t.ready);
    assert |all| == |further| + 2;
    assert all[0].condition.ctype != RESOURCE_HEALTHY && all[|all| - 1].condition.ctype == RESOURCE_READY by {
      SubmissionType(err, isPassThrough);
      TypesDiffer();
    }
    TypesDiffer();
    if further != [] {
      assert all[1].condition == further[0] && further[0] in further;
      assert Same(stored[1], further[0]);
    }
  }

  lemma SubmissionType(err: Option<Error>, isPassThrough: bool)
    ensures Submission(err, isPassThrough).ctype == RESOURCE_SUBMITTED
            || Submission(err, isPassThrough).ctype == SUPPLY_CHAIN_READY
  {
    if err.Some? {
      ErrorConditionType(false, err.value);
    }
  }

  /** A resource's recorded conditions never share a type. */
  lemma ResourceTypesDistinct(err: Option<Error>, isPassThrough: bool, further: seq<Condition>, t: Readings)
    requires |further| <= 1 && forall c :: c in further ==> c.ctype == RESOURCE_HEALTHY
    ensures DistinctTypes(Recorded(RESOURCE_READY, ResourceEntries(err, isPassThrough, further, t), t.ready))
  {
    hide TallyOf, Submission;
    SubmissionType(err, isPassThrough);
    TypesDiffer();
    var types := [SUPPLY_CHAIN_READY, RESOURCE_SUBMITTED, RESOURCE_HEALTHY, RESOURCE_READY];
    assert types[0] != types[2] && types[0] != types[3] && types[1] != types[2];
    assert types[1] != types[3] && types[2] != types[3];
    if further != [] {
      assert further[0] in further;
    }
  }

  /** The types of a resource's recorded conditions, with or without health. */
  lemma ResourceListTypes(err: Option<Error>, isPassThrough: bool, further: seq<Condition>, t: Readings)
    requires |further| <= 1 && forall c :: c in further ==> c.ctype == RESOURCE_HEALTHY
    ensures var all := Recorded(RESOURCE_READY, ResourceEntries(err, isPassThrough, further, t), t.ready);
            && |all| == |further| + 2
            && all[0].condition == Submission(err, isPassThrough)
            && (further != [] ==> all[1].condition.ctype == RESOURCE_HEALTHY)
            && all[|all| - 1].condition.ctype == RESOURCE_READY
  {
    hide TallyOf, Submission;
    if further != [] {
      assert further[0] in further;
    }
  }

  lemma FurtherIsHealthy(prior: Option<ResourceStatus>, w: World, r: OwnerResource, a: Answer, t: Readings)
    requires TimelessHealth(w)
    ensures forall c :: c in FurtherFor(prior, w, r, a, t) ==> c.ctype == RESOURCE_HEALTHY
  {
  }

  /** Realizing again over the recorded status regenerates the recorded resource. */
  lemma ResourceSettles(prior: Option<ResourceStatus>, w: World, r: OwnerResource, a: Answer, s: Readings,
                        stored: ResourceStatus, t: Readings)
    requires SameResource(ResourceFor(prior, w, r, a, s), stored.resource)
    ensures ResourceFor(Some(stored), w, r, a, t) == stored.resource
  {
    if !KeepsPrevious(Some(stored), a) {
      OutputsSettle(PriorOutputs(prior), a.output, s.outputs, stored.resource.outputs, t.outputs);
    }
  }

  lemma FurtherSettles(prior: Option<ResourceStatus>, w: World, r: OwnerResource, a: Answer, s: Readings,
                       stored: ResourceStatus, t: Readings)
    requires TimelessHealth(w)
    requires SameStatus(StepFor(prior, w, r, a, s).status, stored)
    ensures SameList(FurtherFor(prior, w, r, a, s), FurtherFor(Some(stored), w, r, a, t))
  {
    hide ErrorFor, Submission, ConditionWithType;
    var further := FurtherFor(prior, w, r, a, s);
    var err := ErrorFor(a.err, further);
    ResourceSettles(prior, w, r, a, s, stored, t);
    if KeepsPrevious(Some(stored), a) {
      FurtherIsHealthy(prior, w, r, a, s);
      StoredLists(prior, err, a.passThrough, further, s, stored.conditions);
      HealthyRecovered(err, a.passThrough, further, s, stored.conditions);
    }
  }

  lemma StoredLists(prior: Option<ResourceStatus>, err: Option<Error>, isPassThrough: bool, further: seq<Condition>,
                    t: Readings, stored: seq<Condition>)
    requires SameList(Assess(prior, err, isPassThrough, further, t).conditions, stored)
    ensures Lists(stored, Recorded(RESOURCE_READY, ResourceEntries(err, isPassThrough, further, t), t.ready))
  {
    var entries := ResourceEntries(err, isPassThrough, further, t);
    FinishKeepsContent(RESOURCE_READY, PreviousConditions(prior), entries, t.ready);
  }

  lemma AssessSettles(prior: Option<ResourceStatus>, err: Option<Error>, isPassThrough: bool, f: seq<Condition>,
                      s: Readings, stored: ResourceStatus, g: seq<Condition>, t: Readings)
    requires |g| <= 1 && forall c :: c in g ==> c.ctype == RESOURCE_HEALTHY
    requires SameList(f, g)
    requires SameList(Assess(prior, err, isPassThrough, f, s).conditions, stored.conditions)
    ensures Assess(Some(stored), err, isPassThrough, g, t) == Finalized(stored.conditions, false)
  {
    StoredLists(prior, err, isPassThrough, f, s, stored.conditions);
    ResourceTypesDistinct(err, isPassThrough, g, t);
    hide Submission, TallyOf, Recorded, Finish;
    var before, after := ResourceEntries(err, isPassThrough, f, s), ResourceEntries(err, isPassThrough, g, t);
    assert SameEntries(before, after);
    Rerun(RESOURCE_READY, stored.conditions, before, s.ready, after, t.ready);
  }

  lemma AssessIgnoresClock(prior: Option<ResourceStatus>, err: Option<Error>, isPassThrough: bool, f: seq<Condition>,
                           s: Readings, t: Readings)
    ensures var x, y := Assess(prior, err, isPassThrough, f, s), Assess(prior, err, isPassThrough, f, t);
            SameList(x.conditions, y.conditions) && x.changed == y.changed
  {
    hide Submission, TallyOf, Recorded, Finish;
    var x, y := ResourceEntries(err, isPassThrough, f, s), ResourceEntries(err, isPassThrough, f, t);
    assert SameEntries(x, y);
    ChangeIgnoresClock(RESOURCE_READY, PreviousConditions(prior), x, s.ready, y, t.ready);
    RecordedIgnoresClock(RESOURCE_READY, x, s.ready, y, t.ready);
    FinishKeepsContent(RESOURCE_READY, PreviousConditions(prior), x, s.ready);
    FinishKeepsContent(RESOURCE_READY, PreviousConditions(prior), y, t.ready);
  }

  lemma ErrorIgnoresTimes(err: Option<Error>, f: seq<Condition>, g: seq<Condition>)
    requires SameList(f, g)
    ensures ErrorFor(err, f) == ErrorFor(err, g)
  {
  }

  /**
   Realizing a resource again over its own (re-timed) record, with the same answer, changes
   nothing: same status to the last timestamp, no change reported, same error.
   */
  lemma StepSettles(prior: Option<ResourceStatus>, w: World, r: OwnerResource, a: Answer, s: Readings,
                    stored: ResourceStatus, t: Readings)
    requires TimelessHealth(w)
    requires SameStatus(StepFor(prior, w, r, a, s).status, stored)
    ensures StepFor(Some(stored), w, r, a, t) == Step(stored, false, StepFor(prior, w, r, a, s).err)
  {
    FurtherSettles(prior, w, r, a, s, stored, t);
    ResourceSettles(prior, w, r, a, s, stored, t);
    FurtherIsHealthy(Some(stored), w, r, a, t);
    hide FurtherFor, ErrorFor, Assess, ResourceFor;
    var f, g := FurtherFor(prior, w, r, a, s), FurtherFor(Some(stored), w, r, a, t);
    ErrorIgnoresTimes(a.err, f, g);
    AssessSettles(prior, ErrorFor(a.err, f), a.passThrough, f, s, stored, g, t);
  }

  /**
   How much hangs on the answer being the same: realizing again over the stored status, with an answer that
   differs in its error only, reports a change exactly if the error turns into another condition.
   */
  lemma OtherErrorChangesExactly(prior: Option<ResourceStatus>, w: World, r: OwnerResource, a: Answer, s: Readings,
                                 stored: ResourceStatus, err: Option<Error>, t: Readings)
    requires TimelessHealth(w)
    requires SameStatus(StepFor(prior, w, r, a, s).status, stored)
    ensures var f := FurtherFor(prior, w, r, a, s);
            StepFor(Some(stored), w, r, a.(err := err), t).changed
            <==> Submission(ErrorFor(a.err, f), a.passThrough) != Submission(ErrorFor(err, f), a.passThrough)
  {
    var b := a.(err := err);
    FurtherSettles(prior, w, r, a, s, stored, t);
    FurtherIsHealthy(Some(stored), w, r, b, t);
    OtherErrorSameFurther(Some(stored), w, r, a, err, t);
    hide FurtherFor, ErrorFor, Assess, ResourceFor, Submission, TimelessHealth;
    var f, g := FurtherFor(prior, w, r, a, s), FurtherFor(Some(stored), w, r, b, t);
    ErrorIgnoresTimes(err, f, g);
    var x, y := ErrorFor(a.err, f), ErrorFor(err, f);
    if Submission(x, a.passThrough) == Submission(y, a.passThrough) {
      AssessBySubmission(Some(stored), x, y, a.passThrough, g, t);
      AssessSettles(prior, x, a.passThrough, f, s, stored, g, t);
    } else {
      OtherSubmissionChanges(prior, x, f, s, stored, y, g, a.passThrough, t);
    }
  }

  lemma OtherErrorSameFurther(prior: Option<ResourceStatus>, w: World, r: OwnerResource, a: Answer,
                              err: Option<Error>, t: Readings)
    ensures FurtherFor(prior, w, r, a.(err := err), t) == FurtherFor(prior, w, r, a, t)
  {
    hide ConditionWithType, OutputsFor;
  }

  lemma AssessBySubmission(prior: Option<ResourceStatus>, x: Option<Error>, y: Option<Error>, isPassThrough: bool,
                           g: seq<Condition>, t: Readings)
    requires Submission(x, isPassThrough) == Submission(y, isPassThrough)
    ensures Assess(prior, x, isPassThrough, g, t) == Assess(prior, y, isPassThrough, g, t)
  {
    hide Submission, Finish;
    assert ResourceEntries(x, isPassThrough, g, t) == ResourceEntries(y, isPassThrough, g, t);
  }

  lemma OtherSubmissionChanges(prior: Option<ResourceStatus>, x: Option<Error>, f: seq<Condition>, s: Readings,
                               stored: ResourceStatus, y: Option<Error>, g: seq<Condition>, isPassThrough: bool,
                               t: Readings)
    requires SameList(f, g) && |g| <= 1 && forall c :: c in g ==> c.ctype == RESOURCE_HEALTHY
    requires SameList(Assess(prior, x, isPassThrough, f, s).conditions, stored.conditions)
    requires Submission(x, isPassThrough) != Submission(y, isPassThrough)
    ensures Assess(Some(stored), y, isPassThrough, g, t).changed
  {
    hide Submission, TallyOf, Recorded, ResourceEntries, Finish, Assess;
    StoredLists(prior, x, isPassThrough, f, s, stored.conditions);
    assert forall i :: 0 <= i < |f| ==> Same(f[i], g[i]) && g[i] in g;
    ResourceListTypes(x, isPassThrough, f, s);
    ResourceListTypes(y, isPassThrough, g, t);
    SubmissionType(y, isPassThrough);
    SubmissionsDiffer(x, y, isPassThrough);
    OtherFirstChanges(stored.conditions, Recorded(RESOURCE_READY, ResourceEntries(x, isPassThrough, f, s), s.ready),
                      ResourceEntries(y, isPassThrough, g, t), t.ready);
    AssessIsFinish(stored, y, isPassThrough, g, t);
  }

  lemma AssessIsFinish(stored: ResourceStatus, err: Option<Error>, isPassThrough: bool, further: seq<Condition>,
                       t: Readings)
    ensures Assess(Some(stored), err, isPassThrough, further, t)
            == Finish(RESOURCE_READY, stored.conditions, ResourceEntries(err, isPassThrough, further, t), t.ready)
  {
    hide Finish, ResourceEntries;
  }

  /** Another submission condition is noticed, whether it has the type of the stored one or not. */
  lemma OtherFirstChanges(stored: seq<Condition>, before: seq<Entry>, entries: seq<Entry>, now: Time)
    requires Lists(stored, before) && 2 <= |before| <= 3 && before[|before| - 1].condition.ctype == RESOURCE_READY
    requires |before| == 3 ==> before[1].condition.ctype == RESOURCE_HEALTHY
    requires var after := Recorded(RESOURCE_READY, entries, now);
             |after| > 0 && after[0].condition.ctype in [RESOURCE_SUBMITTED, SUPPLY_CHAIN_READY]
             && !Same(before[0].condition, after[0].condition)
    ensures Finish(RESOURCE_READY, stored, entries, now).changed
  {
    hide Finish, Recorded, Same;
    TypesDiffer();
    var types := [SUPPLY_CHAIN_READY, RESOURCE_SUBMITTED, RESOURCE_HEALTHY, RESOURCE_READY];
    assert types[0] != types[2] && types[0] != types[3] && types[1] != types[2] && types[1] != types[3];
    if !Finish(RESOURCE_READY, stored, entries, now).changed {
      AllKnown(RESOURCE_READY, stored, before, entries, now);
    }
  }

  /** Submission conditions carry no time of their own. */
  lemma SubmissionsDiffer(x: Option<Error>, y: Option<Error>, isPassThrough: bool)
    ensures Submission(x, isPassThrough) == Submission(y, isPassThrough)
            <==> Same(Submission(x, isPassThrough), Submission(y, isPassThrough))
  {
    hide Submission;
    SubmissionTime(x, isPassThrough);
    SubmissionTime(y, isPassThrough);
  }

  lemma SubmissionTime(err: Option<Error>, isPassThrough: bool)
    ensures Submission(err, isPassThrough).time == 0
  {
    hide MissingValueMessage;
  }

  lemma ResourceIgnoresClock(prior: Option<ResourceStatus>, w: World, r: OwnerResource, a: Answer, s: Readings,
                             t: Readings)
    requires TimelessHealth(w)
    ensures var x, y := ResourceFor(prior, w, r, a, s), ResourceFor(prior, w, r, a, t);
            SameResource(x, y) && (prior.Some? && x == prior.value.resource ==> y == x)
    ensures FurtherFor(prior, w, r, a, s) == FurtherFor(prior, w, r, a, t)
  {
    hide ConditionWithType, OutputsFor;
    OutputsIgnoreClock(PriorOutputs(prior), a.output, s.outputs, t.outputs);
    assert SameResource(ResourceFor(prior, w, r, a, s), ResourceFor(prior, w, r, a, t));
  }

  /** Clock readings decide times and nothing else. */
  lemma StepIgnoresClock(prior: Option<ResourceStatus>, w: World, r: OwnerResource, a: Answer, s: Readings,
                         t: Readings)
    requires TimelessHealth(w)
    ensures var x, y := StepFor(prior, w, r, a, s), StepFor(prior, w, r, a, t);
            && SameStatus(x.status, y.status) && x.changed == y.changed && x.err == y.err
            && (prior.Some? && x.status.resource == prior.value.resource ==> y.status.resource == prior.value.resource)
  {
    hide FurtherFor, ErrorFor, Assess, ResourceFor;
    ResourceIgnoresClock(prior, w, r, a, s, t);
    var further := FurtherFor(prior, w, r, a, s);
    AssessIgnoresClock(prior, ErrorFor(a.err, further), a.passThrough, further, s, t);
  }

  // ---------- what a run leaves behind ----------

  /** The last of the first `i` resources with that name. */
  function Latest(rs: seq<OwnerResource>, name: string, i: nat): (j: Option<nat>)
    requires i <= |rs|
    ensures j.Some? ==> j.value < i && rs[j.value].name == name
    ensures j.None? ==> forall k :: 0 <= k < i ==> rs[k].name != name
  {
    if i == 0 then None else if rs[i - 1].name == name then Some(i - 1) else Latest(rs, name, i - 1)
  }

  /** No earlier entry tracks the same name. */
  ghost predicate First(ts: seq<Tracked>, k: int)
    requires 0 <= k < |ts|
  {
    forall j :: 0 <= j < k ==> ts[j].name != ts[k].name
  }

  /** Entry `k` holds the outcome of the latest resource of its name, if it is the first to track that name. */
  ghost predicate HoldsLatest(previous: seq<ResourceStatus>, w: World, rs: seq<OwnerResource>, clock: nat -> Readings,
                              i: nat, ts: seq<Tracked>, k: nat)
    requires i <= |rs| && k < |ts|
  {
    var j := Latest(rs, ts[k].name, i);
    if First(ts, k) && j.Some? then
      var step := StepAt(previous, w, rs, clock, j.value);
      ts[k].current == Some(step.status) && ts[k].conditionsChanged == step.changed
    else
      ts[k].current == None
  }

  /** Persisted names come first, in order; behind them only new names, each once. */
  ghost predicate Ordered(previous: seq<ResourceStatus>, ts: seq<Tracked>) {
    && |previous| <= |ts|
    && (forall k :: 0 <= k < |previous| ==>
          ts[k].name == previous[k].resource.name && ts[k].previous == Some(previous[k]))
    && (forall k :: |previous| <= k < |ts| ==> ts[k].previous == None && First(ts, k))
  }

  lemma PutKeepsOrder(previous: seq<ResourceStatus>, ts: seq<Tracked>, status: ResourceStatus, changed: bool)
    requires Ordered(previous, ts)
    ensures Ordered(previous, Put(ts, status, changed))
  {
    var us := Put(ts, status, changed);
    assert forall k :: 0 <= k < |ts| ==> us[k].name == ts[k].name && us[k].previous == ts[k].previous;
    forall k | |previous| <= k < |us| ensures First(us, k) {
      if k < |ts| {
        assert First(ts, k);
      }
    }
  }

  /** What is known of the tracked statuses after the first `i` resources. */
  ghost predicate Shape(previous: seq<ResourceStatus>, w: World, rs: seq<OwnerResource>, clock: nat -> Readings,
                        i: nat, ts: seq<Tracked>)
    requires i <= |rs|
  {
    && Ordered(previous, ts)
    && (forall k :: 0 <= k < |ts| ==> HoldsLatest(previous, w, rs, clock, i, ts, k))
    && (forall k :: |previous| <= k < |ts| ==> ts[k].current.Some?)
    && (forall j :: 0 <= j < i ==> Tracks(ts, rs[j].name))
  }

  ghost predicate Tracks(ts: seq<Tracked>, name: string) {
    exists k :: 0 <= k < |ts| && ts[k].name == name
  }

  lemma BeginShape(previous: seq<ResourceStatus>, w: World, rs: seq<OwnerResource>, clock: nat -> Readings)
    ensures Shape(previous, w, rs, clock, 0, Begin(previous))
  {
    hide StepAt;
  }

  lemma PutHoldsLatest(previous: seq<ResourceStatus>, w: World, rs: seq<OwnerResource>, clock: nat -> Readings,
                       i: nat, ts: seq<Tracked>, us: seq<Tracked>, k: nat)
    requires 0 < i <= |rs|
    requires Shape(previous, w, rs, clock, i - 1, ts)
    requires var step := StepAt(previous, w, rs, clock, i - 1);
             step.status.resource.name == rs[i - 1].name && us == Put(ts, step.status, step.changed)
    requires k < |us|
    ensures HoldsLatest(previous, w, rs, clock, i, us, k)
  {
    hide StepAt;
    assert forall j :: 0 <= j < |ts| ==> us[j].name == ts[j].name;
    if k < |ts| {
      assert HoldsLatest(previous, w, rs, clock, i - 1, ts, k);
      assert First(us, k) == First(ts, k);
    }
  }

  lemma PutTracks(ts: seq<Tracked>, status: ResourceStatus, changed: bool, name: string)
    requires Tracks(ts, name) || name == status.resource.name
    ensures Tracks(Put(ts, status, changed), name)
  {
    var us := Put(ts, status, changed);
    if Tracks(ts, name) {
      var k :| 0 <= k < |ts| && ts[k].name == name;
      assert us[k].name == name;
    } else {
      assert us[|ts|].name == name;
    }
  }

  lemma PutShape(previous: seq<ResourceStatus>, w: World, rs: seq<OwnerResource>, clock: nat -> Readings, i: nat,
                 ts: seq<Tracked>)
    requires 0 < i <= |rs| && Shape(previous, w, rs, clock, i - 1, ts)
    ensures var step := StepAt(previous, w, rs, clock, i - 1);
            Shape(previous, w, rs, clock, i, Put(ts, step.status, step.changed))
  {
    hide StepAt, HoldsLatest, Tracks, First;
    var step := StepAt(previous, w, rs, clock, i - 1);
    var us := Put(ts, step.status, step.changed);
    StepKeepsName(previous, w, rs, clock, i - 1);
    PutKeepsOrder(previous, ts, step.status, step.changed);
    forall k | 0 <= k < |us| ensures HoldsLatest(previous, w, rs, clock, i, us, k) {
      PutHoldsLatest(previous, w, rs, clock, i, ts, us, k);
    }
    forall j | 0 <= j < i ensures Tracks(us, rs[j].name) {
      PutTracks(ts, step.status, step.changed, rs[j].name);
    }
  }

  lemma {:induction false} RunShape(previous: seq<ResourceStatus>, w: World, rs: seq<OwnerResource>,
                                    clock: nat -> Readings, i: nat)
    requires i <= |rs|
    ensures Shape(previous, w, rs, clock, i, TrackedAt(previous, w, rs, clock, i))
  {
    hide StepAt, Shape, Put;
    if i == 0 {
      BeginShape(previous, w, rs, clock);
    } else {
      RunShape(previous, w, rs, clock, i - 1);
      PutShape(previous, w, rs, clock, i, TrackedAt(previous, w, rs, clock, i - 1));
    }
  }

  lemma {:induction false} CurrentsOfFull(ts: seq<Tracked>)
    requires forall k :: 0 <= k < |ts| ==> ts[k].current.Some?
    ensures |Currents(ts)| == |ts| && forall k :: 0 <= k < |ts| ==> Currents(ts)[k] == ts[k].current.value
  {
    if ts != [] {
      CurrentsOfFull(ts[..|ts| - 1]);
    }
  }

  /** Where each current status comes from. */
  lemma {:induction false} CurrentsComeFrom(ts: seq<Tracked>, m: nat) returns (k: nat)
    requires m < |Currents(ts)|
    ensures k < |ts| && ts[k].current == Some(Currents(ts)[m])
    ensures Currents(ts[..k]) == Currents(ts)[..m]
  {
    var init := ts[..|ts| - 1];
    if m < |Currents(init)| {
      k := CurrentsComeFrom(init, m);
      assert init[..k] == ts[..k];
      assert Currents(init)[..m] == Currents(ts)[..m];
    } else {
      k := |ts| - 1;
    }
  }

  lemma {:induction false} CurrentsContain(ts: seq<Tracked>, k: nat)
    requires k < |ts| && ts[k].current.Some?
    ensures ts[k].current.value in Currents(ts)
  {
    var init := ts[..|ts| - 1];
    if k < |init| {
      CurrentsContain(init, k);
    }
  }

  ghost predicate Names(stored: seq<ResourceStatus>, name: string) {
    exists m :: 0 <= m < |stored| && stored[m].resource.name == name
  }

  /** Each realized name once, carrying the outcome of its latest resource. */
  ghost predicate Summary(previous: seq<ResourceStatus>, w: World, rs: seq<OwnerResource>, clock: nat -> Readings,
                          cur: seq<ResourceStatus>) {
    && (forall m, n :: 0 <= m < n < |cur| ==> cur[m].resource.name != cur[n].resource.name)
    && (forall m :: 0 <= m < |cur| ==> SummaryAt(previous, w, rs, clock, cur[m]))
    && (forall j :: 0 <= j < |rs| ==> Names(cur, rs[j].name))
  }

  ghost predicate SummaryAt(previous: seq<ResourceStatus>, w: World, rs: seq<OwnerResource>, clock: nat -> Readings,
                            c: ResourceStatus) {
    var j := Latest(rs, c.resource.name, |rs|);
    j.Some? && c == StepAt(previous, w, rs, clock, j.value).status
  }

  lemma RunSummary(previous: seq<ResourceStatus>, w: World, rs: seq<OwnerResource>, clock: nat -> Readings)
    ensures Summary(previous, w, rs, clock, Currents(TrackedAt(previous, w, rs, clock, |rs|)))
  {
    hide StepAt, TrackedAt, Currents;
    var ts := TrackedAt(previous, w, rs, clock, |rs|);
    var cur := Currents(ts);
    RunShape(previous, w, rs, clock, |rs|);
    forall m | 0 <= m < |cur| ensures SummaryAt(previous, w, rs, clock, cur[m]) {
      var k := CurrentsComeFrom(ts, m);
      assert HoldsLatest(previous, w, rs, clock, |rs|, ts, k);
      StepKeepsName(previous, w, rs, clock, Latest(rs, ts[k].name, |rs|).value);
    }
    forall m, n | 0 <= m < n < |cur| ensures cur[m].resource.name != cur[n].resource.name {
      var l := CurrentsComeFrom(ts, n);
      assert cur[..n][m] == cur[m];
      var k := CurrentsComeFrom(ts[..l], m);
      assert ts[..l][k] == ts[k];
      assert HoldsLatest(previous, w, rs, clock, |rs|, ts, k) && HoldsLatest(previous, w, rs, clock, |rs|, ts, l);
      StepKeepsName(previous, w, rs, clock, Latest(rs, ts[k].name, |rs|).value);
      StepKeepsName(previous, w, rs, clock, Latest(rs, ts[l].name, |rs|).value);
    }
    forall j | 0 <= j < |rs| ensures Names(cur, rs[j].name) {
      assert Tracks(ts, rs[j].name);
      var k := Find(ts, rs[j].name);
      assert HoldsLatest(previous, w, rs, clock, |rs|, ts, k);
      StepKeepsName(previous, w, rs, clock, Latest(rs, ts[k].name, |rs|).value);
      CurrentsContain(ts, k);
      var m :| 0 <= m < |cur| && cur[m] == ts[k].current.value;
    }
  }

  // ---------- quiescence ----------

  lemma PriorOfDistinct(stored: seq<ResourceStatus>, k: nat)
    requires k < |stored|
    requires forall m, n :: 0 <= m < n < |stored| ==> stored[m].resource.name != stored[n].resource.name
    ensures Prior(stored, stored[k].resource.name) == Some(stored[k])
  {
    var f := Find(Begin(stored), stored[k].resource.name);
    assert Begin(stored)[k].name == stored[k].resource.name;
  }

  /** Over a settled list, each resource of a stored name steps to what is stored. */
  lemma SettledStep(previous: seq<ResourceStatus>, w: World, rs: seq<OwnerResource>, s: nat -> Readings,
                    cur: seq<ResourceStatus>, stored: seq<ResourceStatus>, t: nat -> Readings, k: nat)
    requires TimelessHealth(w) && Summary(previous, w, rs, s, cur) && SameStatuses(cur, stored)
    requires k < |stored|
    ensures var j := Latest(rs, stored[k].resource.name, |rs|);
            && j.Some?
            && StepAt(stored, w, rs, t, j.value)
               == Step(stored[k], false, StepAt(previous, w, rs, s, j.value).err)
  {
    hide StepFor;
    assert SummaryAt(previous, w, rs, s, cur[k]);
    assert SameStatus(cur[k], stored[k]);
    var name := stored[k].resource.name;
    var j := Latest(rs, name, |rs|).value;
    assert forall m :: 0 <= m < |stored| ==> SameStatus(cur[m], stored[m]);
    PriorOfDistinct(stored, k);
    StepSettles(Prior(previous, name), w, rs[j], AnswerAt(w, rs, j), s(j), stored[k], t(j));
  }

  lemma NewEntriesAreUnnamed(stored: seq<ResourceStatus>, w: World, rs: seq<OwnerResource>, t: nat -> Readings,
                             ts: seq<Tracked>, k: nat)
    requires Shape(stored, w, rs, t, |rs|, ts) && |stored| <= k < |ts|
    ensures !Names(stored, ts[k].name)
    ensures exists j :: 0 <= j < |rs| && rs[j].name == ts[k].name
  {
    hide StepAt;
    assert HoldsLatest(stored, w, rs, t, |rs|, ts, k);
    assert First(ts, k);
    var j := Latest(rs, ts[k].name, |rs|);
    assert rs[j.value].name == ts[k].name;
  }

  lemma NoNewNames(rs: seq<OwnerResource>, w: World, stored: seq<ResourceStatus>, t: nat -> Readings)
    requires forall j :: 0 <= j < |rs| ==> Names(stored, rs[j].name)
    ensures |TrackedAt(stored, w, rs, t, |rs|)| == |stored|
  {
    hide StepAt, TrackedAt;
    var ts := TrackedAt(stored, w, rs, t, |rs|);
    RunShape(stored, w, rs, t, |rs|);
    if |ts| > |stored| {
      NewEntriesAreUnnamed(stored, w, rs, t, ts, |stored|);
      assert false;
    }
  }

  lemma SettledEntry(stored: seq<ResourceStatus>, w: World, rs: seq<OwnerResource>, t: nat -> Readings,
                     ts: seq<Tracked>, k: nat)
    requires Shape(stored, w, rs, t, |rs|, ts) && k < |ts| == |stored|
    requires forall m, n :: 0 <= m < n < |stored| ==> stored[m].resource.name != stored[n].resource.name
    requires var j := Latest(rs, stored[k].resource.name, |rs|);
             j.Some? && StepAt(stored, w, rs, t, j.value).status == stored[k]
             && !StepAt(stored, w, rs, t, j.value).changed
    ensures ts[k].current == Some(stored[k]) && !EntryChanged(ts[k])
  {
    hide StepAt;
    assert HoldsLatest(stored, w, rs, t, |rs|, ts, k);
    assert First(ts, k);
  }

  /**
   Quiescence: realizing again over a run's own statuses, as they come back from storage, with the
   same answers and any clock, changes nothing, down to every condition and output time, whichever
   resources failed, passed through or were new, and whatever was persisted before the first run.
   */
  lemma RunSettles(previous: seq<ResourceStatus>, w: World, rs: seq<OwnerResource>, s: nat -> Readings,
                   stored: seq<ResourceStatus>, t: nat -> Readings)
    requires TimelessHealth(w)
    requires SameStatuses(Currents(TrackedAt(previous, w, rs, s, |rs|)), stored)
    ensures var again := TrackedAt(stored, w, rs, t, |rs|);
            !Changed(again) && Currents(again) == stored
  {
    hide StepAt, TrackedAt, SummaryAt, HoldsLatest, Currents, SameStatus;
    var cur := Currents(TrackedAt(previous, w, rs, s, |rs|));
    var ts := TrackedAt(stored, w, rs, t, |rs|);
    RunSummary(previous, w, rs, s);
    RunShape(stored, w, rs, t, |rs|);
    SameNames(cur, stored);
    forall j | 0 <= j < |rs| ensures Names(stored, rs[j].name) {
      assert Names(cur, rs[j].name);
      var m :| 0 <= m < |cur| && cur[m].resource.name == rs[j].name;
      assert stored[m].resource.name == rs[j].name;
    }
    NoNewNames(rs, w, stored, t);
    forall k | 0 <= k < |ts| ensures ts[k].current == Some(stored[k]) && !EntryChanged(ts[k]) {
      SettledStep(previous, w, rs, s, cur, stored, t, k);
      SettledEntry(stored, w, rs, t, ts, k);
    }
    CurrentsOfFull(ts);
    assert Currents(ts) == stored;
  }

  lemma SameNames(cur: seq<ResourceStatus>, stored: seq<ResourceStatus>)
    requires SameStatuses(cur, stored)
    ensures forall m :: 0 <= m < |stored| ==> stored[m].resource.name == cur[m].resource.name
  {
    forall m | 0 <= m < |stored| ensures stored[m].resource.name == cur[m].resource.name {
      assert SameStatus(cur[m], stored[m]);
    }
  }

  ghost predicate DistinctNames(rs: seq<OwnerResource>) {
    forall i, j :: 0 <= i < j < |rs| ==> rs[i].name != rs[j].name
  }

  /** With distinct resource names the second run also returns the error of the first. */
  lemma {:induction false} ErrorSettles(previous: seq<ResourceStatus>, w: World, rs: seq<OwnerResource>,
                                        s: nat -> Readings, stored: seq<ResourceStatus>, t: nat -> Readings, i: nat)
    requires TimelessHealth(w) && DistinctNames(rs) && i <= |rs|
    requires SameStatuses(Currents(TrackedAt(previous, w, rs, s, |rs|)), stored)
    ensures FirstError(stored, w, rs, t, i) == FirstError(previous, w, rs, s, i)
  {
    hide StepAt, TrackedAt, SummaryAt, Currents, SameStatus;
    if i > 0 {
      ErrorSettles(previous, w, rs, s, stored, t, i - 1);
      var cur := Currents(TrackedAt(previous, w, rs, s, |rs|));
      RunSummary(previous, w, rs, s);
      var k :| 0 <= k < |cur| && cur[k].resource.name == rs[i - 1].name;
      SameNames(cur, stored);
      SettledStep(previous, w, rs, s, cur, stored, t, k);
    }
  }
}
