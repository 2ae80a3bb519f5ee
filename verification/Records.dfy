/** What a realization records of its resources, and how ready it says they are. */
module Records {
  import opened Common
  import opened Conditions
  import opened Api
  import opened Statuses
  import opened Realizer
  import opened Quiescence

  // ---------- the record ----------

  /** A stamped object is recorded with who it is and the template it came from. */
  lemma StampedIsRecorded(prior: Option<ResourceStatus>, w: World, r: OwnerResource, a: Answer, t: Readings)
    requires a.stamped.Some? && a.template.Some?
    ensures var x := StepFor(prior, w, r, a, t).status.resource;
            && x.name == r.name
            && x.stampedRef.Some? && x.stampedRef.value.target == a.stamped.value.ref
            && (w.qualify(a.stamped.value).Some? ==> x.stampedRef.value.resource == w.qualify(a.stamped.value).value)
            && x.templateRef == Some(TemplateRef("carto.run/v1alpha1", r.templateKind, a.templateName))
  {
    hide FurtherFor, ErrorFor, Assess, OutputsFor, InputsOf;
  }

  /**
   The outputs recorded for a resource that is stamped or new: with a template or a pass-through the ones made now, or,
   if these cannot be marshalled, the ones recorded before; otherwise none.
   */
  lemma OutputsAreRecorded(prior: Option<ResourceStatus>, w: World, r: OwnerResource, a: Answer, t: Readings)
    requires prior.None? || (a.stamped.Some? && a.template.Some?)
    ensures var outputs, made := StepFor(prior, w, r, a, t).status.resource.outputs, GenerateOutputs(a.output);
            if a.template.None? && !a.passThrough then outputs == []
            else if made.Some? then SameOutputs(made.value, outputs)
            else outputs == if prior.Some? then prior.value.resource.outputs else []
  {
    hide FurtherFor, ErrorFor, Assess, GenerateOutputs, InputsOf;
  }

  /** The inputs: sources, images, the deployment if any, and configurations, in this order. */
  lemma InputsAreRecorded(prior: Option<ResourceStatus>, w: World, r: OwnerResource, a: Answer, t: Readings)
    requires prior.None? || (a.stamped.Some? && a.template.Some?)
    ensures var inputs, m, n := StepFor(prior, w, r, a, t).status.resource.inputs, |r.sources|, |r.images|;
            && |inputs| == m + n + (if r.deployment.Some? then 1 else 0) + |r.configs|
            && inputs[..m] == r.sources && inputs[m..m + n] == r.images
            && (r.deployment.Some? ==> inputs[m + n] == r.deployment.value)
            && inputs[|inputs| - |r.configs|..] == r.configs
  {
    hide FurtherFor, ErrorFor, Assess, OutputsFor;
  }

  /** After a whole run, every object stamped for the latest resource of a name is in the statuses. */
  lemma RunRecordsStamped(previous: seq<ResourceStatus>, w: World, rs: seq<OwnerResource>, clock: nat -> Readings,
                          j: nat)
    requires j < |rs| && Latest(rs, rs[j].name, |rs|) == Some(j)
    requires AnswerAt(w, rs, j).stamped.Some? && AnswerAt(w, rs, j).template.Some?
    ensures exists s :: && s in Currents(TrackedAt(previous, w, rs, clock, |rs|))
                        && s.resource.name == rs[j].name
                        && s.resource.stampedRef.Some?
                        && s.resource.stampedRef.value.target == AnswerAt(w, rs, j).stamped.value.ref
                        && s.resource.templateRef == Some(TemplateRef("carto.run/v1alpha1", rs[j].templateKind,
                                                                      AnswerAt(w, rs, j).templateName))
  {
    hide StepFor, TrackedAt, Currents, AnswerAt;
    var cur := Currents(TrackedAt(previous, w, rs, clock, |rs|));
    RunSummary(previous, w, rs, clock);
    assert Names(cur, rs[j].name);
    var m :| 0 <= m < |cur| && cur[m].resource.name == rs[j].name;
    assert SummaryAt(previous, w, rs, clock, cur[m]) && cur[m] in cur;
    StampedIsRecorded(Prior(previous, rs[j].name), w, rs[j], AnswerAt(w, rs, j), clock(j));
  }

  // ---------- health ----------

  /**
   The recorded health: of a resource with a template that is stamped or new, what the evaluator makes of the template's
   rule, the record and the object; of one that keeps its record, what was recorded before; of any other, none.
   */
  lemma HealthIsRecorded(prior: Option<ResourceStatus>, w: World, r: OwnerResource, a: Answer, t: Readings)
    requires TimelessHealth(w)
    ensures var status := StepFor(prior, w, r, a, t).status;
            var h := ConditionWithType(status.conditions, "Healthy");
            if a.template.Some? && (a.stamped.Some? || prior.None?) then
              h.Some? && Same(h.value, w.health(a.template.value.healthRule, status.resource, a.stamped))
            else if prior.Some? then
              var before := ConditionWithType(prior.value.conditions, "Healthy");
              (h.Some? <==> before.Some?) && (h.Some? ==> Same(h.value, before.value))
            else h.None?
  {
    hide ErrorFor, ConditionWithType, OutputsFor, Submission;
    var further := FurtherFor(prior, w, r, a, t);
    FurtherIsHealthy(prior, w, r, a, t);
    var err, stored := ErrorFor(a.err, further), StepFor(prior, w, r, a, t).status.conditions;
    StoredLists(prior, err, a.passThrough, further, t, stored);
    HealthyRecovered(err, a.passThrough, further, t, stored);
  }

  /** An error is passed on as it is; one about an output, as if unwrapped and told the recorded health. */
  lemma ErrorIsPassedOn(prior: Option<ResourceStatus>, w: World, r: OwnerResource, a: Answer, t: Readings)
    requires TimelessHealth(w)
    ensures var s := StepFor(prior, w, r, a, t);
            var h := ConditionWithType(s.status.conditions, "Healthy");
            && (a.err.None? ==> s.err.None?)
            && (a.err.Some? && (h.None? || AsRetrieveOutput(a.err.value).None?) ==> s.err == a.err)
            && (a.err.Some? && h.Some? && a.err.value.RetrieveOutputError? ==>
                  s.err == Some(a.err.value.(healthy := h.value.status)))
  {
    hide FurtherFor, ConditionWithType, OutputsFor, Submission, Assess;
    HealthIsRecorded(prior, w, r, a, t);
    FurtherIsRecovered(prior, w, r, a, t);
  }

  lemma FurtherIsRecovered(prior: Option<ResourceStatus>, w: World, r: OwnerResource, a: Answer, t: Readings)
    requires TimelessHealth(w)
    ensures var further := FurtherFor(prior, w, r, a, t);
            var h := ConditionWithType(StepFor(prior, w, r, a, t).status.conditions, RESOURCE_HEALTHY);
            if further == [] then h.None? else h.Some? && Same(h.value, further[0])
  {
    hide ErrorFor, ConditionWithType, ResourceFor, Submission;
    var further := FurtherFor(prior, w, r, a, t);
    FurtherIsHealthy(prior, w, r, a, t);
    var err, stored := ErrorFor(a.err, further), StepFor(prior, w, r, a, t).status.conditions;
    StoredLists(prior, err, a.passThrough, further, t, stored);
    HealthyRecovered(err, a.passThrough, further, t, stored);
  }

  // ---------- readiness ----------

  /** The error says that an output of an existing object is not there yet. */
  predicate Waits(e: Error) {
    e.RetrieveOutputError? && e.stamped.Some?
  }

  /** The first condition of a resource: submitted, or what its error turns into. */
  lemma SubmissionIs(err: Option<Error>, isPassThrough: bool)
    ensures err.None? ==>
              var reason := if isPassThrough then "PassThrough" else "ResourceSubmissionComplete";
              Submission(err, isPassThrough) == Condition("ResourceSubmitted", True, reason, "", 0)
    ensures err.Some? ==> Submission(err, isPassThrough).status == if Waits(err.value) then Unknown else False
  {
    if err.Some? {
      ErrorConditionIs(false, err.value);
    }
  }

  /**
   A resource is ready unless it failed or is not healthy: False beats Unknown, and an output that is
   only waited for makes it Unknown.
   */
  lemma ResourceReadyIs(prior: Option<ResourceStatus>, w: World, r: OwnerResource, a: Answer, t: Readings)
    requires TimelessHealth(w)
    ensures var s := StepFor(prior, w, r, a, t);
            var cs, h := s.status.conditions, ConditionWithType(s.status.conditions, "Healthy");
            && |cs| >= 2 && cs[|cs| - 1].ctype == "Ready"
            && cs[|cs| - 1].status
               == if (s.err.Some? && !Waits(s.err.value)) || (h.Some? && h.value.status == False) then False
                  else if s.err.Some? || (h.Some? && h.value.status == Unknown) then Unknown
                  else True
  {
    hide FurtherFor, ErrorFor, ConditionWithType, ResourceFor, Submission, Finish, ResourceEntries;
    var further := FurtherFor(prior, w, r, a, t);
    var err := ErrorFor(a.err, further);
    FurtherIsRecovered(prior, w, r, a, t);
    SubmissionIs(err, a.passThrough);
    TopIsVerdict(RESOURCE_READY, PreviousConditions(prior), ResourceEntries(err, a.passThrough, further, t), t.ready);
    ResourceVerdict(err, a.passThrough, further, t);
  }

  lemma ResourceVerdict(err: Option<Error>, isPassThrough: bool, further: seq<Condition>, t: Readings)
    requires |further| <= 1
    ensures ResourceEntries(err, isPassThrough, further, t) != []
    ensures Verdict(ResourceEntries(err, isPassThrough, further, t))
            == var c := Submission(err, isPassThrough).status;
               if c == False || (further != [] && further[0].status == False) then False
               else if c == Unknown || (further != [] && further[0].status == Unknown) then Unknown
               else True
  {
    hide Submission;
    var es := ResourceEntries(err, isPassThrough, further, t);
    assert es[0] in es;
    if further != [] {
      assert es[1] in es && es[1].condition == further[0];
    }
  }
}
