/** Realizing an owner's resources in order, and recording one status for each. */
module Realizer {
  import opened Common
  import opened Conditions
  import opened Api
  import opened Statuses

  type Outputs = map<string, Option<Output>>

  /** What realizing one resource came to. */
  datatype Answer = Answer(
    template: Option<Template>,
    stamped: Option<Object>,
    output: Option<Output>,
    passThrough: bool,
    templateName: string,
    err: Option<Error>)

  /**
   What the loop cannot see into: the answer of the resource realizer to its i-th call, the
   REST mapper, and the health evaluator.
   */
  datatype World = World(
    answer: (nat, OwnerResource, Outputs) -> Answer,
    qualify: Object -> Option<string>,
    health: (Option<HealthRule>, RealizedResource, Option<Object>) -> Condition)

  /** The evaluator yields Healthy conditions and does not look at output times. */
  ghost predicate TimelessHealth(w: World) {
    && (forall rule, r, o :: w.health(rule, r, o).ctype == RESOURCE_HEALTHY)
    && (forall rule, r, s, o :: SameResource(r, s) ==> w.health(rule, r, o) == w.health(rule, s, o))
  }

  // ---------- outputs ----------

  function BuildOne(name: string, v: Value): Option<OutputStatus> {
    if v.rendered.None? then None
    else Some(OutputStatus(name, v.rendered.value.preview, v.rendered.value.digest, 0))
  }

  /** The values an output makes known, by name: of a source, else an image, else a configuration. */
  ghost function NamedValues(output: Option<Output>): seq<(string, Value)> {
    match output
    case Some(Output(Some(source), _, _)) => [("url", source.url), ("revision", source.revision)]
    case Some(Output(None, Some(image), _)) => [("image", image)]
    case Some(Output(None, None, Some(config))) => [("config", config)]
    case _ => []
  }

  ghost predicate Renders(o: OutputStatus, named: (string, Value)) {
    named.1.rendered == Some(Rendered(o.preview, o.digest)) && o.name == named.0 && o.time == 0
  }

  /** The outputs in status form, without times; absent if a value cannot be marshalled. */
  function GenerateOutputs(output: Option<Output>): (r: Option<seq<OutputStatus>>)
    ensures r.None? <==> exists i :: 0 <= i < |NamedValues(output)| && NamedValues(output)[i].1.rendered.None?
    ensures r.Some? ==> |r.value| == |NamedValues(output)|
                        && forall i :: 0 <= i < |r.value| ==> Renders(r.value[i], NamedValues(output)[i])
    ensures r.Some? ==> forall i, j :: 0 <= i < j < |r.value| ==> r.value[i].name != r.value[j].name
  {
    if output.None? then Some([])
    else if output.value.source.Some? then
      var url := BuildOne("url", output.value.source.value.url);
      var revision := BuildOne("revision", output.value.source.value.revision);
      assert NamedValues(output)[0].1 == output.value.source.value.url;
      assert NamedValues(output)[1].1 == output.value.source.value.revision;
      if url.None? || revision.None? then None else Some([url.value, revision.value])
    else if output.value.image.Some? then
      var image := BuildOne("image", output.value.image.value);
      assert NamedValues(output)[0].1 == output.value.image.value;
      if image.None? then None else Some([image.value])
    else if output.value.config.Some? then
      var config := BuildOne("config", output.value.config.value);
      assert NamedValues(output)[0].1 == output.value.config.value;
      if config.None? then None else Some([config.value])
    else Some([])
  }

  /** The time of the first previous output of that name if its digest agrees, else `now`. */
  function OutputTime(previous: seq<OutputStatus>, out: OutputStatus, now: Time): Time {
    if previous == [] then now
    else if previous[0].name == out.name then
      if previous[0].digest == out.digest then previous[0].time else now
    else OutputTime(previous[1..], out, now)
  }

  /** `i` is the first previous output of that name. */
  ghost predicate FirstNamed(previous: seq<OutputStatus>, name: string, i: int) {
    0 <= i < |previous| && previous[i].name == name && forall j :: 0 <= j < i ==> previous[j].name != name
  }

  /** An output keeps its time iff the first previous one of its name has the same digest; a new one is of now. */
  lemma {:induction false} OutputTimeIs(previous: seq<OutputStatus>, out: OutputStatus, now: Time)
    ensures forall i :: FirstNamed(previous, out.name, i) ==>
              OutputTime(previous, out, now) == if previous[i].digest == out.digest then previous[i].time else now
    ensures (forall i :: 0 <= i < |previous| ==> previous[i].name != out.name) ==> OutputTime(previous, out, now) == now
  {
    if previous != [] && previous[0].name != out.name {
      var rest := previous[1..];
      OutputTimeIs(rest, out, now);
      assert forall i :: 0 < i < |previous| ==> previous[i] == rest[i - 1];
      forall i | FirstNamed(previous, out.name, i) ensures FirstNamed(rest, out.name, i - 1) {
        assert previous[i] == rest[i - 1];
      }
    }
  }

  function OutputsFor(previous: seq<OutputStatus>, output: Option<Output>, now: Time): seq<OutputStatus> {
    var made := GenerateOutputs(output);
    if made.None? then previous
    else
      seq(|made.value|, j requires 0 <= j < |made.value| =>
        made.value[j].(time := OutputTime(previous, made.value[j], now)))
  }

  method GetOutputs(previous: seq<OutputStatus>, output: Option<Output>, now: Time) returns (outputs: seq<OutputStatus>)
    ensures outputs == OutputsFor(previous, output, now)
  {
    var made := GenerateOutputs(output);
    if made.None? {
      return previous;
    }
    outputs := made.value;
    for j := 0 to |outputs|
      invariant |outputs| == |made.value|
      invariant forall i :: 0 <= i < j ==> outputs[i] == OutputsFor(previous, output, now)[i]
      invariant forall i :: j <= i < |outputs| ==> outputs[i] == made.value[i]
    {
      var out := outputs[j];
      outputs := outputs[j := out.(time := now)];
      var k := 0;
      while k < |previous|
        invariant k <= |previous|
        invariant outputs[j] == out.(time := now)
        invariant OutputTime(previous, out, now) == OutputTime(previous[k..], out, now)
        invariant |outputs| == |made.value|
        invariant forall i :: 0 <= i < |outputs| && i != j ==>
                    outputs[i] == if i < j then OutputsFor(previous, output, now)[i] else made.value[i]
      {
        if previous[k].name == out.name {
          if previous[k].digest == out.digest {
            outputs := outputs[j := out.(time := previous[k].time)];
          }
          break;
        }
        assert previous[k..][1..] == previous[k + 1..];
        k := k + 1;
      }
    }
  }

  // ---------- one resource ----------

  function InputsOf(r: OwnerResource): seq<string> {
    r.sources + r.images + (if r.deployment.Some? then [r.deployment.value] else []) + r.configs
  }

  function StampedRefOf(w: World, o: Object): StampedRef {
    var qualified := w.qualify(o);
    StampedRef(o.ref, if qualified.Some? then qualified.value
                      else "could not fetch - see logs for 'failed to retrieve qualified resource name'")
  }

  function GenerateResource(w: World, r: OwnerResource, a: Answer, previous: seq<OutputStatus>,
                            now: Time): RealizedResource {
    RealizedResource(
      r.name,
      if a.stamped.Some? then Some(StampedRefOf(w, a.stamped.value)) else None,
      if a.template.Some? then Some(TemplateRef(TEMPLATE_API_VERSION, r.templateKind, a.templateName)) else None,
      InputsOf(r),
      if a.template.Some? || a.passThrough then OutputsFor(previous, a.output, now) else [])
  }

  /** Nothing was stamped but something is known from before: the old record is kept. */
  predicate KeepsPrevious(prior: Option<ResourceStatus>, a: Answer) {
    (a.stamped.None? || a.template.None?) && prior.Some?
  }

  function PriorOutputs(prior: Option<ResourceStatus>): seq<OutputStatus> {
    if prior.Some? then prior.value.resource.outputs else []
  }

  function ResourceFor(prior: Option<ResourceStatus>, w: World, r: OwnerResource, a: Answer,
                       t: Readings): RealizedResource {
    if KeepsPrevious(prior, a) then prior.value.resource
    else GenerateResource(w, r, a, PriorOutputs(prior), t.outputs)
  }

  /** The Healthy condition that goes with the resource, if any. */
  function FurtherFor(prior: Option<ResourceStatus>, w: World, r: OwnerResource, a: Answer,
                      t: Readings): (f: seq<Condition>)
    ensures |f| <= 1
  {
    if KeepsPrevious(prior, a) then
      var healthy := ConditionWithType(prior.value.conditions, RESOURCE_HEALTHY);
      if healthy.Some? then [healthy.value] else []
    else if a.template.Some? then [w.health(a.template.value.healthRule, ResourceFor(prior, w, r, a, t), a.stamped)]
    else []
  }

  /** A retrieval failure is told how healthy the object is. */
  function ErrorFor(err: Option<Error>, further: seq<Condition>): Option<Error> {
    if err.Some? && AsRetrieveOutput(err.value).Some? && further != [] then
      Some(AsRetrieveOutput(err.value).value.(healthy := further[0].status))
    else err
  }

  /** The outcome of realizing one resource: its status, whether its conditions changed, its error. */
  datatype Step = Step(status: ResourceStatus, changed: bool, err: Option<Error>)

  ghost function StepFor(prior: Option<ResourceStatus>, w: World, r: OwnerResource, a: Answer, t: Readings): Step {
    var further := FurtherFor(prior, w, r, a, t);
    var err := ErrorFor(a.err, further);
    var f := Assess(prior, err, a.passThrough, further, t);
    Step(ResourceStatus(ResourceFor(prior, w, r, a, t), f.conditions), f.changed, err)
  }

  // ---------- the whole list ----------

  /** The outputs that call `i` gets to see. */
  function Seen(w: World, rs: seq<OwnerResource>, i: nat): Outputs
    requires i <= |rs|
    decreases i, 0
  {
    if i == 0 then map[] else Seen(w, rs, i - 1)[rs[i - 1].name := AnswerAt(w, rs, i - 1).output]
  }

  function AnswerAt(w: World, rs: seq<OwnerResource>, i: nat): Answer
    requires i < |rs|
    decreases i, 1
  {
    w.answer(i, rs[i], Seen(w, rs, i))
  }

  /** The persisted status of a name: the first of that name. */
  function Prior(previous: seq<ResourceStatus>, name: string): Option<ResourceStatus> {
    PreviousOf(Begin(previous), name)
  }

  /** Realizing resource `i`; it depends on persisted statuses, earlier outputs and the clock only. */
  ghost function StepAt(previous: seq<ResourceStatus>, w: World, rs: seq<OwnerResource>, clock: nat -> Readings,
                        i: nat): Step
    requires i < |rs|
  {
    StepFor(Prior(previous, rs[i].name), w, rs[i], AnswerAt(w, rs, i), clock(i))
  }

  /** The tracked statuses after the first `i` resources. */
  ghost function TrackedAt(previous: seq<ResourceStatus>, w: World, rs: seq<OwnerResource>, clock: nat -> Readings,
                           i: nat): seq<Tracked>
    requires i <= |rs|
  {
    if i == 0 then Begin(previous)
    else
      var step := StepAt(previous, w, rs, clock, i - 1);
      Put(TrackedAt(previous, w, rs, clock, i - 1), step.status, step.changed)
  }

  /** The first error in list order among the first `i` resources. */
  ghost function FirstError(previous: seq<ResourceStatus>, w: World, rs: seq<OwnerResource>, clock: nat -> Readings,
                            i: nat): Option<Error>
    requires i <= |rs|
  {
    if i == 0 then None
    else
      var earlier := FirstError(previous, w, rs, clock, i - 1);
      if earlier.Some? then earlier else StepAt(previous, w, rs, clock, i - 1).err
  }

  lemma {:induction false} TrackingKeepsPrevious(previous: seq<ResourceStatus>, w: World, rs: seq<OwnerResource>,
                                                 clock: nat -> Readings, i: nat, name: string)
    requires i <= |rs|
    ensures PreviousOf(TrackedAt(previous, w, rs, clock, i), name) == Prior(previous, name)
  {
    hide StepAt, Put, PreviousOf, Begin;
    if i > 0 {
      var step := StepAt(previous, w, rs, clock, i - 1);
      PutKeepsOthers(TrackedAt(previous, w, rs, clock, i - 1), step.status, step.changed, name);
      TrackingKeepsPrevious(previous, w, rs, clock, i - 1, name);
    }
  }

  lemma StepKeepsName(previous: seq<ResourceStatus>, w: World, rs: seq<OwnerResource>, clock: nat -> Readings, i: nat)
    requires i < |rs|
    ensures StepAt(previous, w, rs, clock, i).status.resource.name == rs[i].name
  {
  }

  method GenerateRealizedResource(w: World, r: OwnerResource, a: Answer, previous: seq<OutputStatus>, now: Time)
    returns (resource: RealizedResource)
    ensures resource == GenerateResource(w, r, a, previous, now)
  {
    var inputs := [];
    for i := 0 to |r.sources|
      invariant inputs == r.sources[..i]
    {
      inputs := inputs + [r.sources[i]];
    }
    for i := 0 to |r.images|
      invariant inputs == r.sources + r.images[..i]
    {
      inputs := inputs + [r.images[i]];
    }
    if r.deployment.Some? {
      inputs := inputs + [r.deployment.value];
    }
    ghost var start := inputs;
    for i := 0 to |r.configs|
      invariant inputs == start + r.configs[..i]
    {
      inputs := inputs + [r.configs[i]];
    }
    assert inputs == InputsOf(r);
    var templateRef, outputs := None, [];
    if a.template.Some? {
      templateRef := Some(TemplateRef(TEMPLATE_API_VERSION, r.templateKind, a.templateName));
      outputs := GetOutputs(previous, a.output, now);
    }
    if a.passThrough {
      outputs := GetOutputs(previous, a.output, now);
    }
    var stampedRef := None;
    if a.stamped.Some? {
      stampedRef := Some(StampedRefOf(w, a.stamped.value));
    }
    resource := RealizedResource(r.name, stampedRef, templateRef, inputs, outputs);
  }

  /** One turn of the loop, after the resource realizer has answered. */
  method RealizeOne(w: World, r: OwnerResource, a: Answer, t: Readings, statuses: ResourceStatuses)
    returns (err: Option<Error>)
    requires PreviousOf(statuses.statuses, r.name).Some? ==>
               PreviousOf(statuses.statuses, r.name).value.resource.name == r.name
    modifies statuses
    ensures var step := StepFor(old(PreviousOf(statuses.statuses, r.name)), w, r, a, t);
            && statuses.statuses == Put(old(statuses.statuses), step.status, step.changed)
            && err == step.err
  {
    var prior := statuses.GetPreviousResourceStatus(r.name);
    var resource;
    var further := [];
    if (a.stamped.None? || a.template.None?) && prior.Some? {
      resource := prior.value.resource;
      var healthy := ConditionWithType(prior.value.conditions, RESOURCE_HEALTHY);
      if healthy.Some? {
        further := [healthy.value];
      }
    } else {
      resource := GenerateRealizedResource(w, r, a, PriorOutputs(prior), t.outputs);
      if a.template.Some? {
        further := [w.health(a.template.value.healthRule, resource, a.stamped)];
      }
    }
    assert resource == ResourceFor(prior, w, r, a, t) && further == FurtherFor(prior, w, r, a, t);
    err := a.err;
    if err.Some? {
      var typed := AsRetrieveOutput(err.value);
      if typed.Some? && |further| > 0 {
        err := Some(typed.value.(healthy := further[0].status));
      }
    }
    assert err == ErrorFor(a.err, further);
    hide ErrorFor, FurtherFor, ErrorCondition, ConditionWithType, AsRetrieveOutput, Finish;
    statuses.Add(resource, err, a.passThrough, further, t);
  }

  /**
   Every resource is tried, in order and despite earlier errors; call i sees the outputs of
   the resources before it, and the first error in list order is returned.
   */
  method Realize(w: World, rs: seq<OwnerResource>, clock: nat -> Readings, ghost previous: seq<ResourceStatus>,
                 statuses: ResourceStatuses)
    returns (firstError: Option<Error>)
    requires statuses.statuses == Begin(previous)
    modifies statuses
    ensures statuses.statuses == TrackedAt(previous, w, rs, clock, |rs|)
    ensures firstError == FirstError(previous, w, rs, clock, |rs|)
  {
    hide StepFor, Put;
    var outs: Outputs := map[];
    firstError := None;
    for i := 0 to |rs|
      invariant outs == Seen(w, rs, i)
      invariant statuses.statuses == TrackedAt(previous, w, rs, clock, i)
      invariant firstError == FirstError(previous, w, rs, clock, i)
    {
      var a := w.answer(i, rs[i], outs);
      outs := outs[rs[i].name := a.output];
      TrackingKeepsPrevious(previous, w, rs, clock, i, rs[i].name);
      var err := RealizeOne(w, rs[i], a, clock(i), statuses);
      if err.Some? && firstError.None? {
        firstError := err;
      }
    }
  }
}
