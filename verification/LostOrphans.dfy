/**
 What becomes of an orphan that is not deleted. A failed cleanup is logged, and the status is written all the
 same, without the orphan; so only a rejected write lets a later cleanup consider it again.
 */
module LostOrphans {
  import opened Common
  import opened Api
  import opened Statuses
  import opened Realizer
  import opened Quiescence
  import opened RunLaws
  import opened Cleanup
  import opened Histories
  import opened Records

  /** Some status names the object. */
  ghost predicate Named(list: seq<ResourceStatus>, o: ObjectRef) {
    exists r :: r in list && Stamped(r) && Target(r) == o
  }

  /** Some cleanup over these statuses, whatever it reads and whatever is realized, finds the object to be an orphan. */
  ghost predicate Considered(list: seq<ResourceStatus>, o: ObjectRef) {
    exists v, later :: o in Orphans(v, list, later, |list|)
  }

  /** An object is considered exactly if a status names it along with a template of a known kind. */
  lemma ConsideredExactly(list: seq<ResourceStatus>, o: ObjectRef)
    ensures Considered(list, o)
            <==> exists r :: r in list && Stamped(r) && Target(r) == o
                             && r.resource.templateRef.value.kind in TEMPLATE_KINDS
  {
    if Considered(list, o) {
      var v, later :| o in Orphans(v, list, later, |list|);
      OrphansAreExactly(v, list, later, |list|, o);
      var k :| 0 <= k < |list| && Orphaned(v, later, list[k]) && Target(list[k]) == o;
      NotFoundBranchIsDead(v, list[k].resource.templateRef.value);
      assert list[k] in list;
    }
    if r :| r in list && Stamped(r) && Target(r) == o && r.resource.templateRef.value.kind in TEMPLATE_KINDS {
      var v := View((_, _) => Got(Template(None, Mutable)), _ => NotFound);
      var k :| 0 <= k < |list| && list[k] == r;
      assert Orphaned(v, [], list[k]);
      OrphansAreExactly(v, list, [], |list|, o);
    }
  }

  lemma ConsideredIsNamed(list: seq<ResourceStatus>, o: ObjectRef)
    requires Considered(list, o)
    ensures Named(list, o)
  {
    ConsideredExactly(list, o);
  }

  lemma StoredNames(cur: seq<ResourceStatus>, stored: seq<ResourceStatus>, o: ObjectRef)
    requires SameStatuses(cur, stored) && Named(stored, o)
    ensures Named(cur, o)
  {
    var r :| r in stored && Stamped(r) && Target(r) == o;
    var k :| 0 <= k < |stored| && stored[k] == r;
    assert SameStatus(cur[k], stored[k]);
    assert cur[k] in cur;
  }

  // ---------- one round ----------

  lemma OrphansAreUnnamed(v: View, previous: seq<ResourceStatus>, cur: seq<ResourceStatus>, o: ObjectRef)
    requires MutableAt(v, previous, o) && o in Orphans(v, previous, cur, |previous|)
    ensures Named(previous, o) && !Named(cur, o)
  {
    hide EquivalenceTestFor;
    OrphansAreExactly(v, previous, cur, |previous|, o);
    var k :| 0 <= k < |previous| && Orphaned(v, cur, previous[k]) && Target(previous[k]) == o;
    assert previous[k] in previous;
    forall r | r in cur && Stamped(r) ensures Target(r) != o {
      MutableOrphansAreUnreferenced(v, previous, cur, o, r);
    }
  }

  lemma UnchangedNames(previous: seq<ResourceStatus>, x: Realization, o: ObjectRef)
    requires !Changed(TrackedAt(previous, x.w, x.rs, x.clock, |x.rs|)) && Named(previous, o)
    ensures Named(Outcome(previous, x), o)
  {
    hide TrackedAt, Currents, Changed;
    UnchangedRunIsPersisted(previous, x.w, x.rs, x.clock);
    var r :| r in previous && Stamped(r) && Target(r) == o;
    var k :| 0 <= k < |previous| && previous[k] == r;
    assert Outcome(previous, x)[k] in Outcome(previous, x);
  }

  /** A realization that leaves an orphan behind has changed, so the reconcile attempts a status write. */
  lemma OrphanIsAChange(v: View, previous: seq<ResourceStatus>, x: Realization, o: ObjectRef)
    requires MutableAt(v, previous, o) && o in Orphans(v, previous, Outcome(previous, x), |previous|)
    ensures Changed(TrackedAt(previous, x.w, x.rs, x.clock, |x.rs|))
  {
    hide TrackedAt, Outcome, Orphans, MutableAt, Changed, Named;
    OrphansAreUnnamed(v, previous, Outcome(previous, x), o);
    if !Changed(TrackedAt(previous, x.w, x.rs, x.clock, |x.rs|)) {
      UnchangedNames(previous, x, o);
    }
  }

  /**
   With mutable templates an orphan, deleted or not, is considered again by some later cleanup exactly if
   the status write of its round was not accepted.
   */
  lemma RetriedExactly(v: View, before: seq<ResourceStatus>, x: Realization, after: seq<ResourceStatus>, o: ObjectRef)
    requires MutableAt(v, before, o) && o in Orphans(v, before, Outcome(before, x), |before|)
    requires Follows(before, x, after)
    ensures Considered(after, o) <==> after == before
  {
    hide Outcome, MutableAt, Named, SameStatuses, Orphans;
    OrphansAreUnnamed(v, before, Outcome(before, x), o);
    if after != before && Considered(after, o) {
      ConsideredIsNamed(after, o);
      StoredNames(Outcome(before, x), after, o);
    }
  }

  /** With mutable templates an object that a status names is an orphan exactly if no new status names it. */
  lemma OrphanExactlyIfUnnamed(v: View, previous: seq<ResourceStatus>, cur: seq<ResourceStatus>, o: ObjectRef)
    requires MutableAt(v, previous, o) && Named(previous, o)
    ensures o in Orphans(v, previous, cur, |previous|) <==> !Named(cur, o)
  {
    hide Orphaned;
    OrphansAreExactly(v, previous, cur, |previous|, o);
    if !Named(cur, o) {
      var p :| p in previous && Stamped(p) && Target(p) == o;
      var k :| 0 <= k < |previous| && previous[k] == p;
      var t :| FromTemplate(v, p, t) && t.lifecycle == Mutable;
      MutableOrphanedExactly(v, cur, p, t);
      assert Orphaned(v, cur, previous[k]);
    } else if o in Orphans(v, previous, cur, |previous|) {
      OrphansAreUnnamed(v, previous, cur, o);
    }
  }

  /**
   No object leaks: what a realization stamped for the latest resource of a name is, once its status is written, an
   orphan of the next realization exactly if that one records it no more.
   */
  lemma StampedIsKeptOrOrphaned(before: seq<ResourceStatus>, x: Realization, stored: seq<ResourceStatus>, j: nat,
                                y: Realization, v: View)
    requires SameStatuses(Outcome(before, x), stored)
    requires j < |x.rs| && Latest(x.rs, x.rs[j].name, |x.rs|) == Some(j)
    requires AnswerAt(x.w, x.rs, j).stamped.Some? && AnswerAt(x.w, x.rs, j).template.Some?
    requires MutableAt(v, stored, AnswerAt(x.w, x.rs, j).stamped.value.ref)
    ensures var o := AnswerAt(x.w, x.rs, j).stamped.value.ref;
            o in Orphans(v, stored, Outcome(stored, y), |stored|) <==> !Named(Outcome(stored, y), o)
  {
    hide AnswerAt, TrackedAt, Currents, MutableAt, Orphans, SameStatus;
    var o := AnswerAt(x.w, x.rs, j).stamped.value.ref;
    RunRecordsStamped(before, x.w, x.rs, x.clock, j);
    assert Named(Outcome(before, x), o);
    NamesAreStored(Outcome(before, x), stored, o);
    OrphanExactlyIfUnnamed(v, stored, Outcome(stored, y), o);
  }

  lemma NamesAreStored(cur: seq<ResourceStatus>, stored: seq<ResourceStatus>, o: ObjectRef)
    requires SameStatuses(cur, stored) && Named(cur, o)
    ensures Named(stored, o)
  {
    var r :| r in cur && Stamped(r) && Target(r) == o;
    var k :| 0 <= k < |cur| && cur[k] == r;
    assert SameStatus(cur[k], stored[k]);
    assert stored[k] in stored;
  }

  // ---------- all later rounds ----------

  /** Some resource of the realization is stamped as this object. */
  ghost predicate Stamps(x: Realization, o: ObjectRef) {
    exists i :: 0 <= i < |x.rs| && AnswerAt(x.w, x.rs, i).stamped.Some? && AnswerAt(x.w, x.rs, i).stamped.value.ref == o
  }

  lemma StepNames(prior: Option<ResourceStatus>, w: World, r: OwnerResource, a: Answer, t: Readings)
    requires Stamped(StepFor(prior, w, r, a, t).status)
    ensures var o := Target(StepFor(prior, w, r, a, t).status);
            || (prior.Some? && Stamped(prior.value) && Target(prior.value) == o)
            || (a.stamped.Some? && a.stamped.value.ref == o)
  {
    hide FurtherFor, ErrorFor, Assess, OutputsFor;
  }

  /** An object that no status names is named again only if it is stamped. */
  lemma UnnamedStaysUnnamed(before: seq<ResourceStatus>, x: Realization, after: seq<ResourceStatus>, o: ObjectRef)
    requires Follows(before, x, after) && !Named(before, o) && !Stamps(x, o)
    ensures !Named(after, o)
  {
    hide StepFor, AnswerAt, TrackedAt, Currents, SameStatuses;
    if after != before && Named(after, o) {
      var cur := Outcome(before, x);
      StoredNames(cur, after, o);
      var r :| r in cur && Stamped(r) && Target(r) == o;
      var m :| 0 <= m < |cur| && cur[m] == r;
      RunSummary(before, x.w, x.rs, x.clock);
      assert SummaryAt(before, x.w, x.rs, x.clock, cur[m]);
      var i := Latest(x.rs, r.resource.name, |x.rs|).value;
      var prior := Prior(before, x.rs[i].name);
      assert prior.Some? ==> prior.value in before;
      StepNames(prior, x.w, x.rs[i], AnswerAt(x.w, x.rs, i), x.clock(i));
    }
  }

  lemma {:induction false} NeverNamedAgain(lists: seq<seq<ResourceStatus>>, xs: seq<Realization>, o: ObjectRef,
                                           m: nat, n: nat)
    requires IsHistory(lists, xs) && m <= n <= |xs| && !Named(lists[m], o)
    requires forall k :: m <= k < n ==> !Stamps(xs[k], o)
    ensures !Named(lists[n], o)
    decreases n - m
  {
    hide Named, Stamps, Follows;
    if m < n {
      NeverNamedAgain(lists, xs, o, m, n - 1);
      UnnamedStaysUnnamed(lists[n - 1], xs[n - 1], lists[n], o);
    }
  }

  /**
   An orphan that is still there after an accepted write, because one entry made cleanup give up or one
   delete failed, is lost: until the object is stamped again, no cleanup considers it, whatever it reads.
   */
  lemma LeftOrphanIsLost(lists: seq<seq<ResourceStatus>>, xs: seq<Realization>, v: View, o: ObjectRef, n: nat)
    requires IsHistory(lists, xs) && 1 <= n <= |xs| && lists[1] != lists[0]
    requires MutableAt(v, lists[0], o) && o in Orphans(v, lists[0], Outcome(lists[0], xs[0]), |lists[0]|)
    requires forall k :: 1 <= k < n ==> !Stamps(xs[k], o)
    ensures !Considered(lists[n], o)
  {
    hide Outcome, MutableAt, Named, Stamps, SameStatuses, Orphans, Considered;
    assert Follows(lists[0], xs[0], lists[1]);
    OrphansAreUnnamed(v, lists[0], Outcome(lists[0], xs[0]), o);
    if Named(lists[1], o) {
      StoredNames(Outcome(lists[0], xs[0]), lists[1], o);
    }
    NeverNamedAgain(lists, xs, o, 1, n);
    if Considered(lists[n], o) {
      ConsideredIsNamed(lists[n], o);
    }
  }
}
