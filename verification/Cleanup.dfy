/** Deleting the objects that a reconcile no longer accounts for. */
module Cleanup {
  import opened Common
  import opened Api
  import opened Statuses
  import opened Realizer
  import opened Quiescence

  /** What a read from the API server gives. */
  datatype Read<T> = Got(value: T) | NotFound | ReadFailed

  type Labels = map<string, string>

  /** The reads cleanup makes: templates by kind and name, and the labels of an object. */
  datatype View = View(template: (string, string) -> Read<Template>, labels: ObjectRef -> Read<Labels>)

  const TEMPLATE_KINDS := ["ClusterSourceTemplate", "ClusterImageTemplate", "ClusterConfigTemplate",
                           "ClusterDeploymentTemplate", "ClusterTemplate"]

  const LIFECYCLE_LABEL := "carto.run/template-lifecycle"

  // ---------- which test applies ----------

  datatype TemplateLookup = Present(template: Template) | Absent | LookupError(notFound: bool)

  /** A template that is not found is reported as absent, not as an error. */
  function GetTemplate(v: View, kind: string, name: string): TemplateLookup {
    if kind !in TEMPLATE_KINDS then LookupError(false)
    else
      match v.template(kind, name)
      case Got(t) => Present(t)
      case NotFound => Absent
      case ReadFailed => LookupError(false)
  }

  datatype TestChoice = Chosen(immutable: bool) | NoTest(notFound: bool)

  function EquivalenceTestFor(v: View, ref: TemplateRef): TestChoice {
    match GetTemplate(v, ref.kind, ref.name)
    case LookupError(notFound) => NoTest(notFound)
    case Absent => NoTest(false)
    case Present(t) => Chosen(IsImmutable(t.lifecycle))
  }

  /** The branch that deletes an object because its template is not found is never taken. */
  lemma NotFoundBranchIsDead(v: View, ref: TemplateRef)
    ensures EquivalenceTestFor(v, ref).NoTest? ==> !EquivalenceTestFor(v, ref).notFound
  {
  }

  // ---------- the tests ----------

  datatype Comparison = Equivalent | Different | Undecidable

  /** A status that names an object also names the template it came from. */
  predicate Referenced(s: ResourceStatus) {
    s.resource.stampedRef.Some? ==> s.resource.templateRef.Some?
  }

  predicate Stamped(s: ResourceStatus) {
    s.resource.stampedRef.Some? && s.resource.templateRef.Some?
  }

  function Target(s: ResourceStatus): ObjectRef
    requires Stamped(s)
  {
    s.resource.stampedRef.value.target
  }

  predicate SameTarget(realized: ResourceStatus, prev: ResourceStatus)
    requires Stamped(realized) && Stamped(prev)
  {
    Target(realized) == Target(prev)
  }

  /** Resources of one name, from one template. */
  predicate SameOrigin(realized: ResourceStatus, prev: ResourceStatus)
    requires Stamped(realized) && Stamped(prev)
  {
    && realized.resource.templateRef.value.name == prev.resource.templateRef.value.name
    && realized.resource.templateRef.value.kind == prev.resource.templateRef.value.kind
    && realized.resource.name == prev.resource.name
  }

  predicate SaysMutable(labels: Labels) {
    LIFECYCLE_LABEL !in labels || labels[LIFECYCLE_LABEL] == "mutable"
  }

  function ImmutableTest(v: View, realized: ResourceStatus, prev: ResourceStatus): Comparison
    requires Stamped(realized) && Stamped(prev)
  {
    match v.labels(Target(prev))
    case ReadFailed => Undecidable
    case NotFound => Different
    case Got(labels) =>
      var same := if SaysMutable(labels) then SameTarget(realized, prev) else SameOrigin(realized, prev);
      if same then Equivalent else Different
  }

  function Compare(v: View, immutable: bool, realized: ResourceStatus, prev: ResourceStatus): Comparison
    requires Stamped(realized) && Stamped(prev)
  {
    if immutable then ImmutableTest(v, realized, prev)
    else if SameTarget(realized, prev) then Equivalent
    else Different
  }

  // ---------- decisions ----------

  ghost predicate Accounted(v: View, immutable: bool, current: seq<ResourceStatus>, prev: ResourceStatus)
    requires Stamped(prev)
  {
    exists r :: r in current && Stamped(r) && Compare(v, immutable, r, prev) == Equivalent
  }

  ghost predicate Unreadable(v: View, immutable: bool, current: seq<ResourceStatus>, prev: ResourceStatus)
    requires Stamped(prev)
  {
    exists r :: r in current && Stamped(r) && Compare(v, immutable, r, prev) == Undecidable
  }

  /** Deciding about this entry fails. */
  ghost predicate Aborts(v: View, current: seq<ResourceStatus>, prev: ResourceStatus) {
    && Stamped(prev)
    && match EquivalenceTestFor(v, prev.resource.templateRef.value)
       case NoTest(notFound) => !notFound
       case Chosen(immutable) => Unreadable(v, immutable, current, prev)
  }

  /** The entry's object has no equivalent among the realized resources. */
  ghost predicate Orphaned(v: View, current: seq<ResourceStatus>, prev: ResourceStatus) {
    && Stamped(prev)
    && match EquivalenceTestFor(v, prev.resource.templateRef.value)
       case NoTest(notFound) => notFound
       case Chosen(immutable) => !Accounted(v, immutable, current, prev)
  }

  /** The orphans among the first `n` previous statuses, in order. */
  ghost function Orphans(v: View, previous: seq<ResourceStatus>, current: seq<ResourceStatus>, n: nat): seq<ObjectRef>
    requires n <= |previous|
  {
    if n == 0 then []
    else
      Orphans(v, previous, current, n - 1)
      + if Orphaned(v, current, previous[n - 1]) then [Target(previous[n - 1])] else []
  }

  lemma {:induction false} OrphansAreExactly(v: View, previous: seq<ResourceStatus>, current: seq<ResourceStatus>,
                                             n: nat, o: ObjectRef)
    requires n <= |previous|
    ensures o in Orphans(v, previous, current, n)
            <==> exists k :: 0 <= k < n && Orphaned(v, current, previous[k]) && Target(previous[k]) == o
  {
    hide Orphaned;
    if n > 0 {
      OrphansAreExactly(v, previous, current, n - 1, o);
    }
  }

  /** Walks the realized resources for one previous entry; stops at the first equivalent or at a failed read. */
  method FindEquivalent(v: View, immutable: bool, current: seq<ResourceStatus>, prev: ResourceStatus)
    returns (orphaned: bool, failed: bool)
    requires Stamped(prev) && forall r :: r in current ==> Referenced(r)
    ensures failed == Unreadable(v, immutable, current, prev)
    ensures !failed ==> orphaned == !Accounted(v, immutable, current, prev)
  {
    for i := 0 to |current|
      invariant forall j :: 0 <= j < i && Stamped(current[j]) ==> Compare(v, immutable, current[j], prev) == Different
    {
      var realized := current[i];
      if realized.resource.stampedRef.None? {
        continue;
      }
      assert Referenced(realized);
      var c := Compare(v, immutable, realized, prev);
      if c == Undecidable {
        return false, true;
      }
      if c == Equivalent {
        ReadsAgree(v, immutable, current, realized, prev);
        return false, false;
      }
    }
    return true, false;
  }

  /** Whether a read fails depends on the previous object alone. */
  lemma ReadsAgree(v: View, immutable: bool, current: seq<ResourceStatus>, r: ResourceStatus, prev: ResourceStatus)
    requires Stamped(prev) && Stamped(r) && r in current && Compare(v, immutable, r, prev) != Undecidable
    ensures !Unreadable(v, immutable, current, prev)
  {
  }

  /**
   Cleanup. Any failure while deciding deletes nothing. Otherwise the deletions are a prefix of
   the orphans, in order, and all of them on success. `deletes` answers the k-th delete call.
   */
  method CleanupOrphanedObjects(v: View, previous: seq<ResourceStatus>, current: seq<ResourceStatus>,
                                deletes: nat -> bool)
    returns (deleted: seq<ObjectRef>, ok: bool)
    requires forall r :: r in previous || r in current ==> Referenced(r)
    ensures (exists p :: p in previous && Aborts(v, current, p)) ==> deleted == [] && !ok
    ensures !(exists p :: p in previous && Aborts(v, current, p)) ==>
              && deleted <= Orphans(v, previous, current, |previous|)
              && (ok <==> deleted == Orphans(v, previous, current, |previous|))
              && (!ok ==> !deletes(|deleted|))
    ensures forall k :: 0 <= k < |deleted| ==> deletes(k)
  {
    hide EquivalenceTestFor, Compare;
    deleted := [];
    var orphaned := [];
    for i := 0 to |previous|
      invariant orphaned == Orphans(v, previous, current, i)
      invariant forall j :: 0 <= j < i ==> !Aborts(v, current, previous[j])
    {
      var prev := previous[i];
      if prev.resource.stampedRef.None? {
        continue;
      }
      assert Referenced(prev);
      var test := EquivalenceTestFor(v, prev.resource.templateRef.value);
      if test.NoTest? {
        if test.notFound {
          orphaned := orphaned + [Target(prev)];
          continue;
        }
        assert Aborts(v, current, prev);
        return [], false;
      }
      var isOrphan, failed := FindEquivalent(v, test.immutable, current, prev);
      if failed {
        assert Aborts(v, current, prev);
        return [], false;
      }
      if isOrphan {
        orphaned := orphaned + [Target(prev)];
      }
    }
    for i := 0 to |orphaned|
      invariant deleted == orphaned[..i] && forall k :: 0 <= k < i ==> deletes(k)
    {
      if !deletes(i) {
        return deleted, false;
      }
      deleted := deleted + [orphaned[i]];
    }
    ok := true;
  }

  // ---------- what the lifecycle decides ----------

  /** Cleanup knows the kinds of templates that supply chains and deliveries use. */
  lemma KindsAre(kind: string)
    ensures kind in TEMPLATE_KINDS
            <==> || kind == "ClusterSourceTemplate" || kind == "ClusterImageTemplate" || kind == "ClusterConfigTemplate"
                 || kind == "ClusterDeploymentTemplate" || kind == "ClusterTemplate"
  {
  }

  /** The template that a status names can be read, and this is what it says. */
  predicate FromTemplate(v: View, s: ResourceStatus, t: Template) {
    && Stamped(s) && s.resource.templateRef.value.kind in TEMPLATE_KINDS
    && v.template(s.resource.templateRef.value.kind, s.resource.templateRef.value.name) == Got(t)
  }

  ghost predicate SomeTarget(current: seq<ResourceStatus>, o: ObjectRef) {
    exists r :: r in current && Stamped(r) && Target(r) == o
  }

  ghost predicate SomeOrigin(current: seq<ResourceStatus>, prev: ResourceStatus)
    requires Stamped(prev)
  {
    exists r :: r in current && Stamped(r) && SameOrigin(r, prev)
  }

  /** The object of a mutable template is an orphan exactly if nothing realized is that object. */
  lemma MutableOrphanedExactly(v: View, current: seq<ResourceStatus>, prev: ResourceStatus, t: Template)
    requires FromTemplate(v, prev, t) && t.lifecycle == Mutable
    ensures Orphaned(v, current, prev) <==> !SomeTarget(current, Target(prev))
    ensures !Aborts(v, current, prev)
  {
    assert forall r :: r in current && Stamped(r) ==>
        (Compare(v, false, r, prev) == Equivalent <==> Target(r) == Target(prev));
  }

  /**
   The object of an immutable template is an orphan exactly if it is gone, or if nothing realized has its resource
   name, template name and template kind; or, if its label says mutable or is missing, is that object.
   */
  lemma ImmutableOrphanedExactly(v: View, current: seq<ResourceStatus>, prev: ResourceStatus, t: Template)
    requires FromTemplate(v, prev, t) && (t.lifecycle == Immutable || t.lifecycle == Tekton)
    ensures v.labels(Target(prev)) == NotFound ==> Orphaned(v, current, prev) && !Aborts(v, current, prev)
    ensures v.labels(Target(prev)).Got? ==>
              var labels := v.labels(Target(prev)).value;
              var key := "carto.run/template-lifecycle";
              && !Aborts(v, current, prev)
              && (Orphaned(v, current, prev)
                  <==> if key in labels && labels[key] != "mutable" then
                         forall r :: r in current && Stamped(r) ==>
                           !(&& r.resource.name == prev.resource.name
                             && r.resource.templateRef.value.name == prev.resource.templateRef.value.name
                             && r.resource.templateRef.value.kind == prev.resource.templateRef.value.kind)
                       else !SomeTarget(current, Target(prev)))
    ensures v.labels(Target(prev)) == ReadFailed ==>
              (Aborts(v, current, prev) <==> exists r :: r in current && Stamped(r))
  {
    assert forall r :: r in current && Stamped(r) ==>
        (Compare(v, true, r, prev) == Undecidable <==> v.labels(Target(prev)) == ReadFailed);
  }

  /** A template that cannot be read makes cleanup give up. */
  lemma UnreadTemplateAborts(v: View, current: seq<ResourceStatus>, prev: ResourceStatus)
    requires Stamped(prev) && forall t :: !FromTemplate(v, prev, t)
    ensures Aborts(v, current, prev)
  {
    var ref := prev.resource.templateRef.value;
    if ref.kind in TEMPLATE_KINDS && v.template(ref.kind, ref.name).Got? {
      assert FromTemplate(v, prev, v.template(ref.kind, ref.name).value);
    }
  }

  // ---------- safety ----------

  /** Every status that names the object has a mutable template. */
  ghost predicate MutableAt(v: View, previous: seq<ResourceStatus>, o: ObjectRef) {
    forall p :: p in previous && Stamped(p) && Target(p) == o ==>
      exists t :: FromTemplate(v, p, t) && t.lifecycle == Mutable
  }

  /** With mutable templates nothing that a current status refers to is ever an orphan. */
  lemma MutableOrphansAreUnreferenced(v: View, previous: seq<ResourceStatus>, current: seq<ResourceStatus>,
                                      o: ObjectRef, r: ResourceStatus)
    requires MutableAt(v, previous, o)
    requires r in current && Stamped(r) && o in Orphans(v, previous, current, |previous|)
    ensures Target(r) != o
  {
    hide EquivalenceTestFor, Accounted;
    OrphansAreExactly(v, previous, current, |previous|, o);
    var k :| 0 <= k < |previous| && Orphaned(v, current, previous[k]) && Target(previous[k]) == o;
    assert previous[k] in previous;
    var t :| FromTemplate(v, previous[k], t) && t.lifecycle == Mutable;
    MutableOrphanedExactly(v, current, previous[k], t);
  }

  /**
   A status that is carried over unaltered accounts for its own object, whatever its lifecycle, unless
   that object is gone; if it cannot be read when it has to be, cleanup gives up.
   */
  lemma CarriedOverIsAccounted(v: View, current: seq<ResourceStatus>, p: ResourceStatus, r: ResourceStatus)
    requires Stamped(p) && v.labels(Target(p)) != NotFound
    requires r in current && r.resource == p.resource
    ensures Aborts(v, current, p) || !Orphaned(v, current, p)
  {
    match EquivalenceTestFor(v, p.resource.templateRef.value)
    case NoTest(_) =>
      NotFoundBranchIsDead(v, p.resource.templateRef.value);
    case Chosen(immutable) =>
      assert Compare(v, immutable, r, p) != Different;
  }

  /** A resource that was not stamped this time keeps its record. */
  lemma FailureKeepsRecord(previous: seq<ResourceStatus>, w: World, rs: seq<OwnerResource>, clock: nat -> Readings,
                           i: nat)
    requires i < |rs| && DistinctNames(rs)
    requires Prior(previous, rs[i].name).Some?
    requires AnswerAt(w, rs, i).stamped.None? || AnswerAt(w, rs, i).template.None?
    ensures exists r :: r in Currents(TrackedAt(previous, w, rs, clock, |rs|))
                        && r.resource == Prior(previous, rs[i].name).value.resource
  {
    hide StepAt, TrackedAt, Currents, AnswerAt, Prior;
    KeptStep(previous, w, rs, clock, i);
    var cur := Currents(TrackedAt(previous, w, rs, clock, |rs|));
    RunSummary(previous, w, rs, clock);
    assert Names(cur, rs[i].name);
    var m :| 0 <= m < |cur| && cur[m].resource.name == rs[i].name;
    assert SummaryAt(previous, w, rs, clock, cur[m]);
    assert cur[m] in cur;
  }

  lemma KeptStep(previous: seq<ResourceStatus>, w: World, rs: seq<OwnerResource>, clock: nat -> Readings, i: nat)
    requires i < |rs| && Prior(previous, rs[i].name).Some?
    requires AnswerAt(w, rs, i).stamped.None? || AnswerAt(w, rs, i).template.None?
    ensures StepAt(previous, w, rs, clock, i).status.resource == Prior(previous, rs[i].name).value.resource
  {
    hide FurtherFor, ErrorFor, Assess, AnswerAt, Prior;
  }

  /** Resource `i` had an object, which is not gone, and is not stamped this time. */
  ghost predicate LeftUnstamped(v: View, previous: seq<ResourceStatus>, w: World, rs: seq<OwnerResource>, i: nat) {
    && i < |rs|
    && Prior(previous, rs[i].name).Some? && Stamped(Prior(previous, rs[i].name).value)
    && v.labels(Target(Prior(previous, rs[i].name).value)) != NotFound
    && (AnswerAt(w, rs, i).stamped.None? || AnswerAt(w, rs, i).template.None?)
  }

  /** The entry is compared by origin: its template is immutable, and its object is not labelled mutable. */
  ghost predicate ByOrigin(v: View, prev: ResourceStatus) {
    && (exists t :: FromTemplate(v, prev, t) && t.lifecycle != Mutable)
    && v.labels(Target(prev)).Got? && !SaysMutable(v.labels(Target(prev)).value)
  }

  /** `prev` names the object `o`, is compared by origin, and no realized resource has its origin. */
  ghost predicate Disowned(v: View, current: seq<ResourceStatus>, prev: ResourceStatus, o: ObjectRef) {
    && ByOrigin(v, prev) && Target(prev) == o
    && !SomeOrigin(current, prev)
  }

  /** For another entry with the object of a status that is carried over. */
  lemma SecondEntryExactly(v: View, current: seq<ResourceStatus>, r: ResourceStatus, prev: ResourceStatus)
    requires r in current && Stamped(r) && Stamped(prev) && SameTarget(r, prev)
    requires v.labels(Target(prev)) != NotFound && !Aborts(v, current, prev)
    ensures Orphaned(v, current, prev) <==> Disowned(v, current, prev, Target(r))
  {
    hide Orphaned, Aborts;
    if t :| FromTemplate(v, prev, t) {
      if t.lifecycle == Mutable {
        MutableOrphanedExactly(v, current, prev, t);
      } else {
        ImmutableOrphanedExactly(v, current, prev, t);
      }
    } else {
      UnreadTemplateAborts(v, current, prev);
    }
  }

  /**
   A resource that had an object, which is not gone, is not stamped this time, for whatever reason. Unless cleanup
   gives up, that object is an orphan exactly if another previous status of the same object is
   compared by origin and no realized resource has its origin.
   */
  lemma {:induction false} FailureOrphansExactly(v: View, previous: seq<ResourceStatus>, w: World,
                                                 rs: seq<OwnerResource>, clock: nat -> Readings, i: nat)
    requires DistinctNames(rs) && LeftUnstamped(v, previous, w, rs, i)
    requires forall p :: p in previous ==> !Aborts(v, Currents(TrackedAt(previous, w, rs, clock, |rs|)), p)
    ensures var cur, o := Currents(TrackedAt(previous, w, rs, clock, |rs|)), Target(Prior(previous, rs[i].name).value);
            o in Orphans(v, previous, cur, |previous|) <==> exists q :: q in previous && Disowned(v, cur, q, o)
  {
    hide StepAt, TrackedAt, Currents, AnswerAt, Orphans, Prior, EquivalenceTestFor, Orphaned, SameOrigin, Aborts;
    var cur, o := Currents(TrackedAt(previous, w, rs, clock, |rs|)), Target(Prior(previous, rs[i].name).value);
    FailureKeepsRecord(previous, w, rs, clock, i);
    var r :| r in cur && r.resource == Prior(previous, rs[i].name).value.resource;
    OrphansAreExactly(v, previous, cur, |previous|, o);
    forall k | 0 <= k < |previous| && Stamped(previous[k]) && Target(previous[k]) == o
      ensures Orphaned(v, cur, previous[k]) <==> Disowned(v, cur, previous[k], o)
    {
      SecondEntryExactly(v, cur, r, previous[k]);
    }
    forall k | 0 <= k < |previous| && Orphaned(v, cur, previous[k]) ensures Stamped(previous[k]) {
      OrphanedIsStamped(v, cur, previous[k]);
    }
  }

  lemma OrphanedIsStamped(v: View, current: seq<ResourceStatus>, prev: ResourceStatus)
    requires Orphaned(v, current, prev)
    ensures Stamped(prev)
  {
  }

  /** Every previous status of this object that is compared by origin has the origin of this one. */
  ghost predicate SharesOrigin(v: View, previous: seq<ResourceStatus>, p: ResourceStatus)
    requires Stamped(p)
  {
    forall q :: q in previous && ByOrigin(v, q) && Target(q) == Target(p) ==> SameOrigin(p, q)
  }

  /**
   Failure never orphans: the object of a resource that is not stamped this time is not among the orphans as long
   as it exists, or cleanup gives up and deletes nothing.
   */
  lemma {:induction false} FailureNeverOrphans(v: View, previous: seq<ResourceStatus>, w: World,
                                               rs: seq<OwnerResource>, clock: nat -> Readings, i: nat)
    requires DistinctNames(rs) && LeftUnstamped(v, previous, w, rs, i)
    requires SharesOrigin(v, previous, Prior(previous, rs[i].name).value)
    ensures var cur := Currents(TrackedAt(previous, w, rs, clock, |rs|));
            || (exists p :: p in previous && Aborts(v, cur, p))
            || Target(Prior(previous, rs[i].name).value) !in Orphans(v, previous, cur, |previous|)
  {
    hide StepAt, TrackedAt, Currents, AnswerAt, Orphans, Prior, EquivalenceTestFor, Aborts;
    var p := Prior(previous, rs[i].name).value;
    var cur := Currents(TrackedAt(previous, w, rs, clock, |rs|));
    if !exists p :: p in previous && Aborts(v, cur, p) {
      FailureOrphansExactly(v, previous, w, rs, clock, i);
      FailureKeepsRecord(previous, w, rs, clock, i);
      var r :| r in cur && r.resource == p.resource;
      forall q | q in previous ensures !Disowned(v, cur, q, Target(p)) {
        if ByOrigin(v, q) && Target(q) == Target(p) {
          assert SameOrigin(r, q);
        }
      }
    }
  }

  /**
   Without that it can: the first of two statuses of one object fails, the second, of another origin, is no
   longer realized, and their object is an orphan.
   */
  lemma SecondStatusOrphans(v: View, p: ResourceStatus, q: ResourceStatus, w: World, r: OwnerResource,
                            clock: nat -> Readings)
    requires Stamped(p) && ByOrigin(v, q) && Target(p) == Target(q) && !SameOrigin(p, q)
    requires exists t :: FromTemplate(v, p, t)
    requires r.name == p.resource.name && AnswerAt(w, [r], 0).stamped.None?
    ensures var cur := Currents(TrackedAt([p, q], w, [r], clock, 1));
            && !Aborts(v, cur, p) && !Aborts(v, cur, q)
            && Target(p) in Orphans(v, [p, q], cur, 2)
  {
    hide StepAt, TrackedAt, Currents, AnswerAt, Orphans, Prior, Orphaned, Aborts;
    var previous, rs := [p, q], [r];
    var cur := Currents(TrackedAt(previous, w, rs, clock, 1));
    assert Prior(previous, r.name) == Some(p) by {
      FirstIsPrior(previous);
    }
    KeptStep(previous, w, rs, clock, 0);
    RunSummary(previous, w, rs, clock);
    forall c | c in cur ensures c.resource == p.resource {
      var m :| 0 <= m < |cur| && cur[m] == c;
      assert SummaryAt(previous, w, rs, clock, cur[m]);
    }
    var t :| FromTemplate(v, q, t) && t.lifecycle != Mutable;
    ImmutableOrphanedExactly(v, cur, q, t);
    var u :| FromTemplate(v, p, u);
    if u.lifecycle == Mutable {
      MutableOrphanedExactly(v, cur, p, u);
    } else {
      ImmutableOrphanedExactly(v, cur, p, u);
    }
    OrphansAreExactly(v, previous, cur, 2, Target(p));
    assert previous[1] == q;
  }

  lemma FirstIsPrior(previous: seq<ResourceStatus>)
    requires previous != []
    ensures Prior(previous, previous[0].resource.name) == Some(previous[0])
  {
  }

  /** Resource realizers return an object only together with its template, so statuses stay referenced. */
  lemma {:induction false} RunKeepsReferenced(previous: seq<ResourceStatus>, w: World, rs: seq<OwnerResource>,
                                              clock: nat -> Readings)
    requires forall p :: p in previous ==> Referenced(p)
    requires ObjectsHaveTemplates(w, rs)
    ensures forall r :: r in Currents(TrackedAt(previous, w, rs, clock, |rs|)) ==> Referenced(r)
  {
    hide StepFor, AnswerAt, TrackedAt, Currents;
    var cur := Currents(TrackedAt(previous, w, rs, clock, |rs|));
    RunSummary(previous, w, rs, clock);
    forall r | r in cur ensures Referenced(r) {
      var m :| 0 <= m < |cur| && cur[m] == r;
      assert SummaryAt(previous, w, rs, clock, cur[m]);
      var i := Latest(rs, r.resource.name, |rs|).value;
      var prior := Prior(previous, rs[i].name);
      if prior.Some? {
        assert prior.value in previous;
      }
      StepKeepsReferenced(prior, w, rs[i], AnswerAt(w, rs, i), clock(i));
    }
  }

  lemma StepKeepsReferenced(prior: Option<ResourceStatus>, w: World, r: OwnerResource, a: Answer, t: Readings)
    requires prior.Some? ==> Referenced(prior.value)
    requires a.stamped.Some? ==> a.template.Some?
    ensures Referenced(StepFor(prior, w, r, a, t).status)
  {
    hide FurtherFor, ErrorFor, Assess, OutputsFor;
  }

  // ---------- a realization and its cleanup ----------

  /** The resource realizer returns an object only together with its template. */
  ghost predicate ObjectsHaveTemplates(w: World, rs: seq<OwnerResource>) {
    forall i :: 0 <= i < |rs| ==> AnswerAt(w, rs, i).stamped.Some? ==> AnswerAt(w, rs, i).template.Some?
  }

  /**
   A realization followed by its cleanup, as in a reconcile. No object of a resource that could not be
   stamped is deleted while it exists, and the statuses are fit for the next cleanup.
   */
  method RealizeAndCleanup(w: World, rs: seq<OwnerResource>, clock: nat -> Readings, v: View,
                           previous: seq<ResourceStatus>, deletes: nat -> bool)
    returns (current: seq<ResourceStatus>, err: Option<Error>, deleted: seq<ObjectRef>, ok: bool)
    requires forall p :: p in previous ==> Referenced(p)
    requires ObjectsHaveTemplates(w, rs)
    ensures current == Currents(TrackedAt(previous, w, rs, clock, |rs|))
    ensures err == FirstError(previous, w, rs, clock, |rs|)
    ensures forall r :: r in current ==> Referenced(r)
    ensures (exists p :: p in previous && Aborts(v, current, p)) ==> deleted == [] && !ok
    ensures !(exists p :: p in previous && Aborts(v, current, p)) ==>
              && deleted <= Orphans(v, previous, current, |previous|)
              && (ok <==> deleted == Orphans(v, previous, current, |previous|))
    ensures DistinctNames(rs) ==>
              forall i: nat :: LeftUnstamped(v, previous, w, rs, i)
                               && SharesOrigin(v, previous, Prior(previous, rs[i].name).value) ==>
                Target(Prior(previous, rs[i].name).value) !in deleted
  {
    hide StepAt, TrackedAt, FirstError, Currents, AnswerAt, Orphans, Prior, SharesOrigin, Aborts, Referenced, Begin;
    hide DistinctNames;
    var statuses := new ResourceStatuses(previous);
    err := Realize(w, rs, clock, previous, statuses);
    current := statuses.GetCurrent();
    RunKeepsReferenced(previous, w, rs, clock);
    deleted, ok := CleanupOrphanedObjects(v, previous, current, deletes);
    if DistinctNames(rs) {
      forall i: nat | LeftUnstamped(v, previous, w, rs, i)
                      && SharesOrigin(v, previous, Prior(previous, rs[i].name).value)
        ensures Target(Prior(previous, rs[i].name).value) !in deleted
      {
        FailureNeverOrphans(v, previous, w, rs, clock, i);
        PrefixMembers(deleted, Orphans(v, previous, current, |previous|), Target(Prior(previous, rs[i].name).value));
      }
    }
  }

  lemma PrefixMembers(a: seq<ObjectRef>, b: seq<ObjectRef>, o: ObjectRef)
    requires a <= b
    ensures o in a ==> o in b
  {
    if o in a {
      var k :| 0 <= k < |a| && a[k] == o;
      assert b[k] == o;
    }
  }
}
