/** What becomes of the recorded outputs of a resource that is passed through, over whole histories. */
module PassThroughRuns {
  import opened Common
  import opened Api
  import opened Statuses
  import opened Realizer
  import opened Quiescence
  import opened Histories

  /** The answer of a pass-through: neither a template nor an object. */
  predicate PassesThrough(a: Answer) {
    a.passThrough && a.template.None? && a.stamped.None?
  }

  /**
   The recorded outputs are those passed through exactly if the resource was not known before,
   or the record already had them.
   */
  lemma RecordsPassedThroughExactly(prior: Option<ResourceStatus>, w: World, r: OwnerResource, a: Answer, t: Readings)
    requires PassesThrough(a) && GenerateOutputs(a.output).Some?
    ensures SameOutputs(GenerateOutputs(a.output).value, StepFor(prior, w, r, a, t).status.resource.outputs)
            <==> (prior.None? || SameOutputs(GenerateOutputs(a.output).value, prior.value.resource.outputs))
  {
    hide FurtherFor, ErrorFor, Assess, GenerateOutputs;
  }

  // ---------- histories ----------

  /** Resource `i` of the realization is `name`, and is passed through. */
  ghost predicate PassedAt(x: Realization, name: string, i: nat) {
    DistinctNames(x.rs) && i < |x.rs| && x.rs[i].name == name && PassesThrough(AnswerAt(x.w, x.rs, i))
  }

  ghost predicate Passed(x: Realization, name: string) {
    exists i: nat :: PassedAt(x, name, i)
  }

  /** The stored status of a realized resource is the outcome of its step. */
  lemma StoredStep(before: seq<ResourceStatus>, x: Realization, after: seq<ResourceStatus>, i: nat)
    requires DistinctNames(x.rs) && i < |x.rs| && SameStatuses(Outcome(before, x), after)
    ensures var stored := Prior(after, x.rs[i].name);
            stored.Some? && SameStatus(StepAt(before, x.w, x.rs, x.clock, i).status, stored.value)
  {
    hide StepAt, TrackedAt, Currents, SameStatus, Prior;
    var cur := Outcome(before, x);
    RunSummary(before, x.w, x.rs, x.clock);
    assert Names(cur, x.rs[i].name);
    var m :| 0 <= m < |cur| && cur[m].resource.name == x.rs[i].name;
    assert SummaryAt(before, x.w, x.rs, x.clock, cur[m]);
    SameNames(cur, after);
    PriorOfDistinct(after, m);
  }

  lemma KeptWhenPassed(prior: ResourceStatus, w: World, r: OwnerResource, a: Answer, t: Readings)
    requires PassesThrough(a)
    ensures StepFor(Some(prior), w, r, a, t).status.resource == prior.resource
  {
    hide FurtherFor, ErrorFor, Assess;
  }

  lemma StepStaysPut(before: seq<ResourceStatus>, x: Realization, after: seq<ResourceStatus>, name: string)
    requires Follows(before, x, after) && Passed(x, name) && Prior(before, name).Some?
    ensures Prior(after, name).Some?
    ensures SameResource(Prior(before, name).value.resource, Prior(after, name).value.resource)
  {
    hide StepFor, Prior, AnswerAt, Outcome;
    var i: nat :| PassedAt(x, name, i);
    if after != before {
      StoredStep(before, x, after, i);
      KeptWhenPassed(Prior(before, name).value, x.w, x.rs[i], AnswerAt(x.w, x.rs, i), x.clock(i));
    }
  }

  /** While a known name stays a pass-through, its record stays as it was. */
  lemma {:induction false} RecordFreezes(lists: seq<seq<ResourceStatus>>, xs: seq<Realization>, name: string, m: nat,
                                         n: nat)
    requires IsHistory(lists, xs) && m <= n <= |xs| && Prior(lists[m], name).Some?
    requires forall k :: m <= k < n ==> Passed(xs[k], name)
    ensures Prior(lists[n], name).Some?
    ensures SameResource(Prior(lists[m], name).value.resource, Prior(lists[n], name).value.resource)
    decreases n - m
  {
    hide Prior, Passed, Follows;
    if m < n {
      RecordFreezes(lists, xs, name, m, n - 1);
      StepStaysPut(lists[n - 1], xs[n - 1], lists[n], name);
    }
  }

  /** The outputs that realization `n` passes through under `name`. */
  ghost predicate PassesOutputs(x: Realization, name: string, outputs: seq<OutputStatus>) {
    exists i: nat :: PassedAt(x, name, i) && GenerateOutputs(AnswerAt(x.w, x.rs, i).output) == Some(outputs)
  }

  lemma FirstRecord(before: seq<ResourceStatus>, x: Realization, after: seq<ResourceStatus>, name: string,
                    outputs: seq<OutputStatus>)
    requires Prior(before, name).None? && PassesOutputs(x, name, outputs) && SameStatuses(Outcome(before, x), after)
    ensures Prior(after, name).Some? && SameOutputs(outputs, Prior(after, name).value.resource.outputs)
  {
    hide StepFor, Prior, AnswerAt, Outcome, GenerateOutputs;
    var i: nat :| PassedAt(x, name, i) && GenerateOutputs(AnswerAt(x.w, x.rs, i).output) == Some(outputs);
    StoredStep(before, x, after, i);
    RecordsPassedThroughExactly(None, x.w, x.rs[i], AnswerAt(x.w, x.rs, i), x.clock(i));
  }

  /**
   While a name stays a pass-through, its recorded outputs are those of its first realization, whatever later
   rounds pass through. So in a later round the record agrees with what is passed through exactly if
   that is what was passed through first.
   */
  lemma FirstOutputsStay(lists: seq<seq<ResourceStatus>>, xs: seq<Realization>, name: string, n: nat,
                         first: seq<OutputStatus>, later: seq<OutputStatus>)
    requires IsHistory(lists, xs) && 1 <= n < |xs| && Prior(lists[0], name).None?
    requires SameStatuses(Outcome(lists[0], xs[0]), lists[1])
    requires PassesOutputs(xs[0], name, first) && PassesOutputs(xs[n], name, later)
    requires forall k :: 1 <= k <= n ==> Passed(xs[k], name)
    ensures Prior(lists[n + 1], name).Some?
    ensures SameOutputs(first, Prior(lists[n + 1], name).value.resource.outputs)
    ensures SameOutputs(later, Prior(lists[n + 1], name).value.resource.outputs) <==> SameOutputs(first, later)
  {
    hide Prior, Passed, Follows, PassesOutputs, Outcome;
    FirstRecord(lists[0], xs[0], lists[1], name, first);
    RecordFreezes(lists, xs, name, 1, n + 1);
  }
}
