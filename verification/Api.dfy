/** The persisted status records, the realizer's inputs, and the conditions built from errors. */
module Api {
  import opened Common
  import opened Conditions

  // ---------- condition types and reasons ----------

  const OWNER_READY := "Ready"
  const RESOURCES_HEALTHY := "ResourcesHealthy"
  const SUPPLY_CHAIN_READY := "SupplyChainReady"
  const RESOURCES_SUBMITTED := "ResourcesSubmitted"
  const RESOURCE_READY := "Ready"
  const RESOURCE_SUBMITTED := "ResourceSubmitted"
  const RESOURCE_HEALTHY := "Healthy"

  /** The condition types that meet in one list are pairwise different. */
  lemma TypesDiffer()
    ensures Distinct([SUPPLY_CHAIN_READY, RESOURCES_SUBMITTED, RESOURCES_HEALTHY, OWNER_READY])
    ensures Distinct([SUPPLY_CHAIN_READY, RESOURCE_SUBMITTED, RESOURCE_HEALTHY, RESOURCE_READY])
  {
    assert SUPPLY_CHAIN_READY[0] == 'S' && RESOURCES_HEALTHY[0] == 'R';
    assert |SUPPLY_CHAIN_READY| == 16 && |RESOURCES_SUBMITTED| == 18 && |RESOURCES_HEALTHY| == 16;
    assert |RESOURCE_SUBMITTED| == 17 && |RESOURCE_HEALTHY| == 7 && |OWNER_READY| == 5;
  }

  // ---------- objects and references ----------

  datatype Gvk = Gvk(group: string, version: string, kind: string)

  datatype ObjectRef = ObjectRef(gvk: Gvk, namespace: string, name: string)

  datatype StampedRef = StampedRef(target: ObjectRef, resource: string)

  datatype TemplateRef = TemplateRef(apiVersion: string, kind: string, name: string)

  const TEMPLATE_API_VERSION := "carto.run/v1alpha1"

  /** A JSON value as far as field requirements look at it. */
  datatype FieldValue = Nil | Text(text: string) | Structured(text: string)

  /** What evaluating a JSON path gives: a value, no such path, or a malformed query. */
  datatype PathResult = Found(value: FieldValue) | NoSuchPath | Broken

  /** An object on the cluster: who it is, the conditions in its status, and its JSON paths. */
  datatype Object = Object(ref: ObjectRef, conditions: seq<Condition>, paths: map<string, PathResult>)

  function Evaluate(paths: map<string, PathResult>, key: string): PathResult {
    if key in paths then paths[key] else NoSuchPath
  }

  /** The first condition of the given type. */
  function ConditionWithType(cs: seq<Condition>, ctype: string): (r: Option<Condition>)
    ensures r.Some? ==> r.value in cs && r.value.ctype == ctype
    ensures r.None? ==> forall c :: c in cs ==> c.ctype != ctype
  {
    if cs == [] then None
    else if cs[0].ctype == ctype then Some(cs[0])
    else ConditionWithType(cs[1..], ctype)
  }

  // ---------- status records ----------

  datatype OutputStatus = OutputStatus(name: string, preview: string, digest: string, time: Time)

  datatype RealizedResource = RealizedResource(
    name: string,
    stampedRef: Option<StampedRef>,
    templateRef: Option<TemplateRef>,
    inputs: seq<string>,
    outputs: seq<OutputStatus>)

  datatype ResourceStatus = ResourceStatus(resource: RealizedResource, conditions: seq<Condition>)

  ghost predicate SameOutputs(a: seq<OutputStatus>, b: seq<OutputStatus>) {
    |a| == |b| && forall i :: 0 <= i < |a| ==> a[i].(time := b[i].time) == b[i]
  }

  /** Equal but for output times. */
  ghost predicate SameResource(a: RealizedResource, b: RealizedResource) {
    a.(outputs := b.outputs) == b && SameOutputs(a.outputs, b.outputs)
  }

  /** Equal but for times. */
  ghost predicate SameStatus(a: ResourceStatus, b: ResourceStatus) {
    SameResource(a.resource, b.resource) && SameList(a.conditions, b.conditions)
  }

  /** Equal lists but for times: what a status list is after a trip through storage. */
  ghost predicate SameStatuses(a: seq<ResourceStatus>, b: seq<ResourceStatus>) {
    |a| == |b| && forall i :: 0 <= i < |a| ==> SameStatus(a[i], b[i])
  }

  // ---------- realizer inputs ----------

  /** A blueprint resource; sources, images, deployment and configs name the resources they come from. */
  datatype OwnerResource = OwnerResource(
    name: string,
    templateKind: string,
    sources: seq<string>,
    images: seq<string>,
    deployment: Option<string>,
    configs: seq<string>)

  /** The YAML rendering of a value, shortened, and the digest of the whole. */
  datatype Rendered = Rendered(preview: string, digest: string)

  /** An output value; `rendered` is absent if it cannot be marshalled. */
  datatype Value = Value(rendered: Option<Rendered>)

  datatype Source = Source(url: Value, revision: Value)

  datatype Output = Output(source: Option<Source>, image: Option<Value>, config: Option<Value>)

  // ---------- templates ----------

  datatype Operator = In | NotIn | Exists | DoesNotExist | Invalid(text: string)

  datatype FieldRequirement = FieldRequirement(key: string, operator: Operator, values: seq<string>)

  datatype ConditionRequirement = ConditionRequirement(ctype: string, status: Status)

  datatype HealthField = HealthField(requirement: FieldRequirement, messagePath: string)

  datatype MatchRule = MatchRule(conditions: seq<ConditionRequirement>, fields: seq<HealthField>)

  datatype MultiMatch = MultiMatch(healthy: MatchRule, unhealthy: MatchRule)

  datatype HealthRule = HealthRule(alwaysHealthy: bool, singleConditionType: string, multiMatch: Option<MultiMatch>)

  datatype Lifecycle = Mutable | Immutable | Tekton

  /** What a template reader gives access to. */
  datatype Template = Template(healthRule: Option<HealthRule>, lifecycle: Lifecycle)

  predicate IsImmutable(l: Lifecycle) {
    l == Immutable || l == Tekton
  }

  // ---------- errors ----------

  datatype Error =
    | GetTemplateError(text: string)
    | StampError(text: string)
    | ApplyStampedObjectError(text: string)
    | ListCreatedObjectsError(text: string)
    | RetrieveOutputError(text: string, stamped: Option<ObjectRef>, expression: string,
                          qualifiedResource: string, passThroughInput: string, healthy: Status)
    | ResolveTemplateOptionError(text: string)
    | TemplateOptionsMatchError(text: string)
    | Wrapped(text: string, cause: Error)
    | OtherError(text: string)

  /** errors.As: the outermost RetrieveOutputError in the chain of causes. */
  function AsRetrieveOutput(e: Error): (r: Option<Error>)
    ensures r.Some? ==> r.value.RetrieveOutputError?
  {
    match e
    case RetrieveOutputError(_, _, _, _, _, _) => Some(e)
    case Wrapped(_, cause) => AsRetrieveOutput(cause)
    case _ => None
  }

  /** The error and what it wraps, outermost first. */
  function Causes(e: Error): seq<Error> {
    if e.Wrapped? then [e] + Causes(e.cause) else [e]
  }

  /** `i` is the outermost failure to retrieve an output. */
  ghost predicate OutermostRetrieval(es: seq<Error>, i: int) {
    0 <= i < |es| && es[i].RetrieveOutputError? && forall j :: 0 <= j < i ==> !es[j].RetrieveOutputError?
  }

  /** errors.As finds the outermost failure to retrieve an output, however deeply it is wrapped. */
  lemma {:induction false} AsRetrieveOutputIs(e: Error)
    ensures forall i :: OutermostRetrieval(Causes(e), i) ==> AsRetrieveOutput(e) == Some(Causes(e)[i])
    ensures (forall x :: x in Causes(e) ==> !x.RetrieveOutputError?) ==> AsRetrieveOutput(e) == None
  {
    if e.Wrapped? {
      var inner := Causes(e.cause);
      AsRetrieveOutputIs(e.cause);
      assert Causes(e) == [e] + inner;
      forall i | OutermostRetrieval(Causes(e), i)
        ensures OutermostRetrieval(inner, i - 1) && Causes(e)[i] == inner[i - 1]
      {
        OutermostBelow(e, inner, i);
      }
      assert forall x :: x in inner ==> x in Causes(e);
    }
  }

  lemma OutermostBelow(e: Error, inner: seq<Error>, i: int)
    requires !e.RetrieveOutputError? && OutermostRetrieval([e] + inner, i)
    ensures OutermostRetrieval(inner, i - 1) && ([e] + inner)[i] == inner[i - 1]
  {
    forall j | 0 <= j < i - 1 ensures !inner[j].RetrieveOutputError? {
      assert ([e] + inner)[j + 1] == inner[j];
    }
  }

  /** A pass-through whose input is missing is the one retrieval failure without an object. */
  predicate MissingPassThrough(e: Error) {
    e.RetrieveOutputError? && e.stamped.None?
  }

  function SubmittedType(isOwner: bool): string {
    if isOwner then RESOURCES_SUBMITTED else RESOURCE_SUBMITTED
  }

  function MissingValueMessage(obj: ObjectRef, expression: string, qualifiedResource: string, health: Status): string {
    var where := if obj.namespace != "" then " in namespace [" + obj.namespace + "]" else "";
    var described := "object [" + qualifiedResource + "/" + obj.name + "]" + where;
    if health == True then "cannot read value [" + expression + "] from healthy " + described + ", contact Platform Eng"
    else if health == False then
      "cannot read value [" + expression + "] from unhealthy " + described
      + ", examine object, particularly whether it is receiving proper inputs"
    else "waiting to read value [" + expression + "] from " + described
  }

  /** AddConditionForResourceSubmittedWorkload: the one condition an error turns into. */
  function ErrorCondition(isOwner: bool, e: Error): Condition {
    var failed := (reason, text) => Condition(SubmittedType(isOwner), False, reason, text, 0);
    match e
    case GetTemplateError(text) => failed("TemplateObjectRetrievalFailure", text)
    case StampError(text) => failed("TemplateStampFailure", text)
    case ApplyStampedObjectError(text) => failed("TemplateRejectedByAPIServer", text)
    case ListCreatedObjectsError(text) => failed("FailedToListCreatedObjects", text)
    case RetrieveOutputError(_, stamped, expression, qualified, input, healthy) =>
      if stamped.None? then
        Condition(SUPPLY_CHAIN_READY, False, "PassThrough",
                  "unable to find passthrough [" + input + "] in [" + qualified + "]", 0)
      else
        Condition(SubmittedType(isOwner), Unknown, "MissingValueAtPath",
                  MissingValueMessage(stamped.value, expression, qualified, healthy), 0)
    case ResolveTemplateOptionError(text) => failed("ResolveTemplateOptionsError", text)
    case TemplateOptionsMatchError(text) => failed("TemplateOptionsMatchError", text)
    case Wrapped(text, _) => failed("UnknownError", text)
    case OtherError(text) => failed("UnknownError", text)
  }

  /** The status and reason that each error is reported with, its text as the message. */
  lemma ErrorConditionIs(isOwner: bool, e: Error)
    ensures var c, submitted := ErrorCondition(isOwner, e),
                                if isOwner then "ResourcesSubmitted" else "ResourceSubmitted";
            var failed := reason => Condition(submitted, False, reason, e.text, 0);
            match e
            case GetTemplateError(_) => c == failed("TemplateObjectRetrievalFailure")
            case StampError(_) => c == failed("TemplateStampFailure")
            case ApplyStampedObjectError(_) => c == failed("TemplateRejectedByAPIServer")
            case ListCreatedObjectsError(_) => c == failed("FailedToListCreatedObjects")
            case ResolveTemplateOptionError(_) => c == failed("ResolveTemplateOptionsError")
            case TemplateOptionsMatchError(_) => c == failed("TemplateOptionsMatchError")
            case Wrapped(_, _) => c == failed("UnknownError")
            case OtherError(_) => c == failed("UnknownError")
            case RetrieveOutputError(_, None, _, _, _, _) =>
              c.ctype == "SupplyChainReady" && c.status == False && c.reason == "PassThrough"
            case RetrieveOutputError(_, Some(_), _, _, _, _) =>
              c.ctype == submitted && c.status == Unknown && c.reason == "MissingValueAtPath"
  {
    hide MissingValueMessage;
  }

  /** A missing value is waited for unless the object's health is known; that is told apart in the message. */
  lemma HealthIsTold(obj: ObjectRef, expression: string, qualifiedResource: string, health: Status)
    ensures var m := MissingValueMessage(obj, expression, qualifiedResource, health);
            && (health == True ==> "cannot read value [" + expression + "] from healthy object [" <= m)
            && (health == False ==> "cannot read value [" + expression + "] from unhealthy object [" <= m)
            && (health != True && health != False ==> "waiting to read value [" + expression + "] from object [" <= m)
  {
  }

  lemma {:induction false} FirstIsFound(cs: seq<Condition>, ctype: string, i: nat)
    requires i < |cs| && cs[i].ctype == ctype && forall j :: 0 <= j < i ==> cs[j].ctype != ctype
    ensures ConditionWithType(cs, ctype) == Some(cs[i])
  {
    if i > 0 {
      FirstIsFound(cs[1..], ctype, i - 1);
    }
  }

  /** Every error is a "submitted" condition, except the missing pass-through input. */
  lemma ErrorConditionType(isOwner: bool, e: Error)
    ensures ErrorCondition(isOwner, e).ctype
            == if MissingPassThrough(e) then SUPPLY_CHAIN_READY else SubmittedType(isOwner)
    ensures MissingPassThrough(e) ==> ErrorCondition(isOwner, e).status == False
  {
  }

  function ResourceSubmitted(isPassThrough: bool): Condition {
    Condition(RESOURCE_SUBMITTED, True, if isPassThrough then "PassThrough" else "ResourceSubmissionComplete", "", 0)
  }
}
