/** Health rules: how a stamped object's health is judged, in the two places that judge it. */
module Health {
  import opened Common
  import opened Conditions
  import opened Api
  import opened Fields
  import opened Realizer

  function Healthy(status: Status, reason: string, message: string): Condition {
    Condition(RESOURCE_HEALTHY, status, reason, message, 0)
  }

  // ---------- requirements ----------

  predicate ConditionHolds(req: ConditionRequirement, o: Object) {
    var c := ConditionWithType(o.conditions, req.ctype);
    c.Some? && c.value.status == req.status
  }

  predicate FieldHolds(f: HealthField, o: Object) {
    Matches(f.requirement, o.paths) == Matched
  }

  ghost predicate AnyHolds(rule: MatchRule, o: Object) {
    || (exists i :: 0 <= i < |rule.conditions| && ConditionHolds(rule.conditions[i], o))
    || (exists i :: 0 <= i < |rule.fields| && FieldHolds(rule.fields[i], o))
  }

  predicate AllHold(rule: MatchRule, o: Object) {
    && (forall i :: 0 <= i < |rule.conditions| ==> ConditionHolds(rule.conditions[i], o))
    && (forall i :: 0 <= i < |rule.fields| ==> FieldHolds(rule.fields[i], o))
  }

  // ---------- messages ----------

  function StatusText(s: Status): string {
    match s case True => "True" case False => "False" case Unknown => "Unknown" case Other(text) => text
  }

  function ConditionMessage(req: ConditionRequirement, o: Object): string {
    var c := ConditionWithType(o.conditions, req.ctype);
    if c.None? then "" else "condition status: " + StatusText(c.value.status) + ", message: " + c.value.message
  }

  function FieldText(o: Object, path: string, absent: string): string {
    match Evaluate(o.paths, path)
    case Found(Text(text)) => text
    case Found(Structured(text)) => text
    case Found(Nil) => "<nil>"
    case _ => absent
  }

  function FieldMessage(f: HealthField, o: Object): string {
    "field value: " + FieldText(o, f.requirement.key, "<error retrieving field value>")
    + ", message: "
    + FieldText(o, f.messagePath, "unknown, error retrieving message path [" + f.messagePath + "]")
  }

  // ---------- multi match ----------

  /** The first requirement from position `i` on that holds. */
  function FirstCondition(reqs: seq<ConditionRequirement>, o: Object, i: nat): (k: nat)
    requires i <= |reqs|
    ensures i <= k <= |reqs|
    ensures k < |reqs| ==> ConditionHolds(reqs[k], o)
    ensures forall j :: i <= j < k ==> !ConditionHolds(reqs[j], o)
    decreases |reqs| - i
  {
    if i == |reqs| || ConditionHolds(reqs[i], o) then i else FirstCondition(reqs, o, i + 1)
  }

  function FirstField(fields: seq<HealthField>, o: Object, i: nat): (k: nat)
    requires i <= |fields|
    ensures i <= k <= |fields|
    ensures k < |fields| ==> FieldHolds(fields[k], o)
    ensures forall j :: i <= j < k ==> !FieldHolds(fields[j], o)
    decreases |fields| - i
  {
    if i == |fields| || FieldHolds(fields[i], o) then i else FirstField(fields, o, i + 1)
  }

  function UnhealthyMatch(rule: MatchRule, o: Object): (r: Option<Condition>)
    ensures r.Some? <==> AnyHolds(rule, o)
  {
    var k := FirstCondition(rule.conditions, o, 0);
    if k < |rule.conditions| then Some(Healthy(False, "MatchedCondition", ConditionMessage(rule.conditions[k], o)))
    else
      var l := FirstField(rule.fields, o, 0);
      if l < |rule.fields| then Some(Healthy(False, "MatchedField", FieldMessage(rule.fields[l], o))) else None
  }

  method AnyUnhealthyMatch(rule: MatchRule, o: Object) returns (r: Option<Condition>)
    ensures r == UnhealthyMatch(rule, o)
  {
    for i := 0 to |rule.conditions|
      invariant FirstCondition(rule.conditions, o, 0) == FirstCondition(rule.conditions, o, i)
    {
      var single := ConditionWithType(o.conditions, rule.conditions[i].ctype);
      if single.Some? && single.value.status == rule.conditions[i].status {
        return Some(Healthy(False, "MatchedCondition", ConditionMessage(rule.conditions[i], o)));
      }
    }
    for i := 0 to |rule.fields|
      invariant FirstField(rule.fields, o, 0) == FirstField(rule.fields, o, i)
    {
      if Matches(rule.fields[i].requirement, o.paths) == Matched {
        return Some(Healthy(False, "MatchedField", FieldMessage(rule.fields[i], o)));
      }
    }
    return None;
  }

  function HealthyMatch(rule: MatchRule, o: Object): (r: Option<Condition>)
    ensures r.Some? <==> AllHold(rule, o)
  {
    if AllHold(rule, o) then
      Some(if rule.conditions != [] then Healthy(True, "MatchedCondition", ConditionMessage(rule.conditions[0], o))
           else if rule.fields != [] then Healthy(True, "MatchedField", FieldMessage(rule.fields[0], o))
           else Healthy(True, "", ""))
    else None
  }

  method AllHealthyMatch(rule: MatchRule, o: Object) returns (r: Option<Condition>)
    ensures r == HealthyMatch(rule, o)
  {
    var firstReason, message := "", "";
    for i := 0 to |rule.conditions|
      invariant forall j :: 0 <= j < i ==> ConditionHolds(rule.conditions[j], o)
      invariant (firstReason, message)
                == if i == 0 then ("", "") else ("MatchedCondition", ConditionMessage(rule.conditions[0], o))
    {
      var found := ConditionWithType(o.conditions, rule.conditions[i].ctype);
      if found.None? || found.value.status != rule.conditions[i].status {
        return None;
      }
      if firstReason == "" {
        firstReason, message := "MatchedCondition", ConditionMessage(rule.conditions[i], o);
      }
    }
    ghost var reason, text := firstReason, message;
    for i := 0 to |rule.fields|
      invariant forall j :: 0 <= j < i ==> FieldHolds(rule.fields[j], o)
      invariant (firstReason, message)
                == if i == 0 || reason != "" then (reason, text)
                   else ("MatchedField", FieldMessage(rule.fields[0], o))
    {
      if Matches(rule.fields[i].requirement, o.paths) != Matched {
        return None;
      }
      if firstReason == "" {
        firstReason, message := "MatchedField", FieldMessage(rule.fields[i], o);
      }
    }
    return Some(Healthy(True, firstReason, message));
  }

  function MultiMatchCondition(rule: MultiMatch, o: Object): Condition {
    var unhealthy := UnhealthyMatch(rule.unhealthy, o);
    if unhealthy.Some? then unhealthy.value
    else
      var healthy := HealthyMatch(rule.healthy, o);
      if healthy.Some? then healthy.value else Healthy(Unknown, "NoMatchesFulfilled", "")
  }

  /** False as soon as one unhealthy requirement holds, else True if all healthy ones do, else Unknown. */
  lemma MultiMatchStatus(rule: MultiMatch, o: Object)
    ensures MultiMatchCondition(rule, o).status
            == if AnyHolds(rule.unhealthy, o) then False else if AllHold(rule.healthy, o) then True else Unknown
  {
  }

  // ---------- explanations ----------

  /** The requirement holds by condition `i`, and this is how it is explained. */
  ghost predicate ExplainsCondition(c: Condition, reason: string, req: ConditionRequirement, o: Object, i: int) {
    && IsFirst(o.conditions, req.ctype, i) && o.conditions[i].status == req.status
    && c.reason == reason
    && c.message == "condition status: " + StatusText(req.status) + ", message: " + o.conditions[i].message
  }

  /** How a field with a text, and a text at the message path, is explained. */
  lemma FieldIsExplained(f: HealthField, o: Object, x: string, y: string)
    requires Evaluate(o.paths, f.requirement.key) == Found(Text(x))
    requires Evaluate(o.paths, f.messagePath) == Found(Text(y))
    ensures FieldMessage(f, o) == "field value: " + x + ", message: " + y
  {
  }

  /** Bad health is explained by the first unhealthy requirement that holds, conditions before fields. */
  lemma UnhealthyIsExplained(rule: MatchRule, o: Object, k: nat)
    requires |rule.conditions| <= k ==>
               && k - |rule.conditions| < |rule.fields| && FieldHolds(rule.fields[k - |rule.conditions|], o)
               && forall j :: 0 <= j < k - |rule.conditions| ==> !FieldHolds(rule.fields[j], o)
    requires k < |rule.conditions| ==> ConditionHolds(rule.conditions[k], o)
    requires forall j :: 0 <= j < k && j < |rule.conditions| ==> !ConditionHolds(rule.conditions[j], o)
    ensures UnhealthyMatch(rule, o).Some? && UnhealthyMatch(rule, o).value.status == False
    ensures var c := UnhealthyMatch(rule, o).value;
            if k < |rule.conditions| then
              exists i :: ExplainsCondition(c, "MatchedCondition", rule.conditions[k], o, i)
            else c.reason == "MatchedField" && c.message == FieldMessage(rule.fields[k - |rule.conditions|], o)
  {
    hide ConditionHolds, FieldHolds, FieldMessage, StatusText;
    if k < |rule.conditions| {
      var i := HoldingCondition(rule.conditions[k], o);
      assert ExplainsCondition(UnhealthyMatch(rule, o).value, "MatchedCondition", rule.conditions[k], o, i);
    }
  }

  lemma HoldingCondition(req: ConditionRequirement, o: Object) returns (i: nat)
    requires ConditionHolds(req, o)
    ensures IsFirst(o.conditions, req.ctype, i) && o.conditions[i].status == req.status
    ensures ConditionMessage(req, o)
            == "condition status: " + StatusText(req.status) + ", message: " + o.conditions[i].message
  {
    hide StatusText;
    i := FirstOf(o.conditions, req.ctype);
    FirstIsFound(o.conditions, req.ctype, i);
  }

  /** Good health is explained by the first healthy requirement, a condition if there is one. */
  lemma HealthyIsExplained(rule: MatchRule, o: Object)
    requires AllHold(rule, o)
    ensures HealthyMatch(rule, o).Some? && HealthyMatch(rule, o).value.status == True
    ensures var c := HealthyMatch(rule, o).value;
            if rule.conditions != [] then
              exists i :: ExplainsCondition(c, "MatchedCondition", rule.conditions[0], o, i)
            else if rule.fields != [] then c.reason == "MatchedField" && c.message == FieldMessage(rule.fields[0], o)
            else c.reason == c.message == ""
  {
    hide ConditionHolds, FieldHolds, FieldMessage, StatusText;
    if rule.conditions != [] {
      var i := HoldingCondition(rule.conditions[0], o);
      assert ExplainsCondition(HealthyMatch(rule, o).value, "MatchedCondition", rule.conditions[0], o, i);
    }
  }

  // ---------- the two evaluators ----------

  function SingleCondition(ctype: string, o: Object): Condition {
    var c := ConditionWithType(o.conditions, ctype);
    if c.None? then
      Healthy(Unknown, ctype + "Condition", "condition with type [" + ctype + "] not found on resource status")
    else
      Healthy(if c.value.status == False || c.value.status == True then c.value.status else Unknown,
              ctype + "Condition", c.value.message)
  }

  predicate IsClusterTemplate(ref: Option<TemplateRef>) {
    ref.Some? && ref.value.kind == "ClusterTemplate" && ref.value.apiVersion == TEMPLATE_API_VERSION
  }

  function DetermineHealthCondition(rule: Option<HealthRule>, resource: RealizedResource,
                                    o: Option<Object>): Condition {
    if rule.None? then
      if |resource.outputs| > 0 then Healthy(True, "OutputsAvailable", "")
      else if IsClusterTemplate(resource.templateRef) then
        if resource.stampedRef.Some? then Healthy(True, "AlwaysHealthy", "")
        else Healthy(Unknown, "NoStampedObject", "")
      else Healthy(Unknown, "OutputNotAvailable", "")
    else if o.Some? then
      if rule.value.alwaysHealthy then Healthy(True, "AlwaysHealthy", "")
      else if rule.value.singleConditionType != "" then SingleCondition(rule.value.singleConditionType, o.value)
      else if rule.value.multiMatch.Some? then MultiMatchCondition(rule.value.multiMatch.value, o.value)
      else Healthy(Unknown, "Unknown", "")
    else if rule.value.alwaysHealthy then Healthy(Unknown, "NoStampedObject", "")
    else Healthy(Unknown, "Unknown", "")
  }

  function DetermineStampedObjectHealth(rule: Option<HealthRule>, o: Option<Object>): Status
    requires rule.Some? ==> Admitted(rule.value)
  {
    if o.None? then Unknown
    else if rule.None? || rule.value.alwaysHealthy then True
    else if rule.value.singleConditionType != "" then SingleCondition(rule.value.singleConditionType, o.value).status
    else MultiMatchCondition(rule.value.multiMatch.value, o.value).status
  }

  /** A single condition type stands for the object's first condition of that type, as far as it is True or False. */
  lemma SingleConditionIs(ctype: string, o: Object)
    ensures forall i :: IsFirst(o.conditions, ctype, i) ==>
              var c, s := o.conditions[i], SingleCondition(ctype, o);
              && s.status == (if c.status == True || c.status == False then c.status else Unknown)
              && s.message == c.message
    ensures (forall c :: c in o.conditions ==> c.ctype != ctype) ==> SingleCondition(ctype, o).status == Unknown
  {
    hide ConditionWithType;
    forall i | IsFirst(o.conditions, ctype, i) ensures ConditionWithType(o.conditions, ctype) == Some(o.conditions[i]) {
      FirstIsFound(o.conditions, ctype, i);
    }
  }

  /** `i` is the first condition of the type. */
  ghost predicate IsFirst(cs: seq<Condition>, ctype: string, i: int) {
    0 <= i < |cs| && cs[i].ctype == ctype && forall j :: 0 <= j < i ==> cs[j].ctype != ctype
  }

  /** A condition requirement asks for the status of the object's first condition of the type. */
  lemma ConditionHoldsExactly(req: ConditionRequirement, o: Object)
    ensures ConditionHolds(req, o)
            <==> exists i :: IsFirst(o.conditions, req.ctype, i) && o.conditions[i].status == req.status
  {
    hide ConditionWithType;
    forall i | IsFirst(o.conditions, req.ctype, i)
      ensures ConditionWithType(o.conditions, req.ctype) == Some(o.conditions[i])
    {
      FirstIsFound(o.conditions, req.ctype, i);
    }
    if ConditionHolds(req, o) {
      var i := FirstOf(o.conditions, req.ctype);
    }
  }

  lemma {:induction false} FirstOf(cs: seq<Condition>, ctype: string) returns (i: nat)
    requires exists c :: c in cs && c.ctype == ctype
    ensures IsFirst(cs, ctype, i)
  {
    i := 0;
    if cs[0].ctype != ctype {
      var c :| c in cs && c.ctype == ctype;
      assert c in cs[1..];
      var j := FirstOf(cs[1..], ctype);
      i := j + 1;
      assert forall k :: 0 < k <= i ==> cs[k] == cs[1..][k - 1];
    }
  }

  /** When the resource evaluator says True and when False; it says Unknown otherwise. */
  lemma HealthIsExactly(rule: Option<HealthRule>, resource: RealizedResource, o: Option<Object>)
    requires rule.Some? ==> Admitted(rule.value)
    ensures var s := DetermineHealthCondition(rule, resource, o).status;
            && (s == True <==>
                  if rule.None? then
                    resource.outputs != []
                    || (resource.stampedRef.Some?
                        && exists name ::
                          resource.templateRef == Some(TemplateRef("carto.run/v1alpha1", "ClusterTemplate", name)))
                  else
                    && o.Some?
                    && (|| rule.value.alwaysHealthy
                        || (rule.value.singleConditionType != ""
                            && SingleCondition(rule.value.singleConditionType, o.value).status == True)
                        || (rule.value.multiMatch.Some? && !AnyHolds(rule.value.multiMatch.value.unhealthy, o.value)
                            && AllHold(rule.value.multiMatch.value.healthy, o.value))))
            && (s == False <==>
                  && rule.Some? && o.Some?
                  && (|| (rule.value.singleConditionType != ""
                          && SingleCondition(rule.value.singleConditionType, o.value).status == False)
                      || (rule.value.multiMatch.Some? && AnyHolds(rule.value.multiMatch.value.unhealthy, o.value))))
            && s in [True, False, Unknown]
  {
    hide ConditionMessage, FieldMessage, AnyHolds, AllHold, UnhealthyMatch, HealthyMatch, ConditionWithType;
    ClusterTemplateIs(resource.templateRef);
    if rule.Some? && rule.value.multiMatch.Some? && o.Some? {
      MultiMatchStatus(rule.value.multiMatch.value, o.value);
    }
  }

  lemma ClusterTemplateIs(ref: Option<TemplateRef>)
    ensures IsClusterTemplate(ref)
            <==> exists name :: ref == Some(TemplateRef("carto.run/v1alpha1", "ClusterTemplate", name))
  {
    if ref.Some? && ref.value.kind == "ClusterTemplate" {
      assert ref == Some(TemplateRef(ref.value.apiVersion, "ClusterTemplate", ref.value.name));
    }
  }

  /** What the admission webhook lets through: exactly one kind of rule. */
  predicate Admitted(rule: HealthRule) {
    var n := (if rule.alwaysHealthy then 1 else 0)
             + (if rule.singleConditionType != "" then 1 else 0)
             + (if rule.multiMatch.Some? then 1 else 0);
    n == 1
  }

  /** On an existing object both evaluators give the same status, for every admitted rule. */
  lemma EvaluatorsAgree(rule: HealthRule, resource: RealizedResource, o: Object)
    requires Admitted(rule)
    ensures DetermineHealthCondition(Some(rule), resource, Some(o)).status
            == DetermineStampedObjectHealth(Some(rule), Some(o))
    ensures rule.multiMatch.Some? ==>
              var m := rule.multiMatch.value;
              DetermineStampedObjectHealth(Some(rule), Some(o))
              == if AnyHolds(m.unhealthy, o) then False else if AllHold(m.healthy, o) then True else Unknown
  {
    hide ConditionMessage, FieldMessage;
    if rule.multiMatch.Some? {
      MultiMatchStatus(rule.multiMatch.value, o);
    }
  }

  /** Without a rule they may differ: one looks at outputs, the other is content with existence. */
  lemma WithoutRuleTheyDiffer(resource: RealizedResource, o: Object)
    ensures DetermineHealthCondition(None, resource, Some(o)).status == DetermineStampedObjectHealth(None, Some(o))
            <==> (resource.outputs != [] || (IsClusterTemplate(resource.templateRef) && resource.stampedRef.Some?))
  {
  }

  /** The production evaluator is one over which realizations settle. */
  lemma ProductionHealthIsTimeless(w: World)
    requires w.health == DetermineHealthCondition
    ensures TimelessHealth(w)
  {
    hide ConditionMessage, FieldMessage;
    forall rule, r, o ensures w.health(rule, r, o).ctype == RESOURCE_HEALTHY {
      assert w.health(rule, r, o) == DetermineHealthCondition(rule, r, o);
    }
    forall rule, r, s, o | SameResource(r, s) ensures w.health(rule, r, o) == w.health(rule, s, o) {
      assert DetermineHealthCondition(rule, r, o) == DetermineHealthCondition(rule, s, o);
    }
  }
}
