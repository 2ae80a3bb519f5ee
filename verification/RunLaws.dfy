/** Further laws of a realization: exactly what it records, and that clocks decide nothing but times. */
module RunLaws {
  import opened Common
  import opened Conditions
  import opened Api
  import opened Statuses
  import opened Realizer
  import opened Quiescence

  // ---------- exactness ----------

  /** Call `i` sees the outputs of exactly the resources before it. */
  lemma {:induction false} SeenAreEarlierOutputs(w: World, rs: seq<OwnerResource>, i: nat)
    requires i <= |rs| && DistinctNames(rs)
    ensures forall name :: name in Seen(w, rs, i) <==> exists j :: 0 <= j < i && rs[j].name == name
    ensures forall j :: 0 <= j < i ==> Seen(w, rs, i)[rs[j].name] == AnswerAt(w, rs, j).output
  {
    hide AnswerAt;
    if i > 0 {
      SeenAreEarlierOutputs(w, rs, i - 1);
      assert rs[i - 1].name in Seen(w, rs, i);
      forall name | name in Seen(w, rs, i) ensures exists j :: 0 <= j < i && rs[j].name == name {
        if name == rs[i - 1].name {
        } else {
          assert name in Seen(w, rs, i - 1);
        }
      }
    }
  }

  /** The returned error is the first in list order; none is returned exactly when every resource succeeded. */
  lemma {:induction false} FirstErrorIsFirst(previous: seq<ResourceStatus>, w: World, rs: seq<OwnerResource>,
                                             clock: nat -> Readings, i: nat)
    requires i <= |rs|
    ensures var e := FirstError(previous, w, rs, clock, i);
            if e.None? then forall j :: 0 <= j < i ==> StepAt(previous, w, rs, clock, j).err == None
            else exists j :: 0 <= j < i && StepAt(previous, w, rs, clock, j).err == e
                             && forall k :: 0 <= k < j ==> StepAt(previous, w, rs, clock, k).err == None
  {
    hide StepAt;
    if i > 0 {
      FirstErrorIsFirst(previous, w, rs, clock, i - 1);
    }
  }

  ghost predicate FirstOfName(previous: seq<ResourceStatus>, k: int)
    requires 0 <= k < |previous|
  {
    forall j :: 0 <= j < k ==> previous[j].resource.name != previous[k].resource.name
  }

  /** The still existing persisted names, in persisted order, with their new statuses. */
  ghost function KnownStatuses(previous: seq<ResourceStatus>, w: World, rs: seq<OwnerResource>,
                               clock: nat -> Readings, k: nat): seq<ResourceStatus>
    requires k <= |previous|
  {
    if k == 0 then []
    else
      var j := Latest(rs, previous[k - 1].resource.name, |rs|);
      KnownStatuses(previous, w, rs, clock, k - 1)
      + if FirstOfName(previous, k - 1) && j.Some? then [StepAt(previous, w, rs, clock, j.value).status] else []
  }

  /** The names not persisted before, in list order. */
  ghost function NewStatuses(previous: seq<ResourceStatus>, w: World, rs: seq<OwnerResource>, clock: nat -> Readings,
                             i: nat): seq<ResourceStatus>
    requires i <= |rs|
  {
    if i == 0 then []
    else
      NewStatuses(previous, w, rs, clock, i - 1)
      + if Names(previous, rs[i - 1].name) then [] else [StepAt(previous, w, rs, clock, i - 1).status]
  }

  lemma {:induction false} CurrentsSplit(ts: seq<Tracked>, k: nat)
    requires k <= |ts|
    ensures Currents(ts) == Currents(ts[..k]) + Currents(ts[k..])
  {
    if k == |ts| {
      assert ts[..k] == ts;
    } else {
      var init := ts[..|ts| - 1];
      CurrentsSplit(init, k);
      assert init[..k] == ts[..k];
      assert ts[k..][..|ts[k..]| - 1] == init[k..];
    }
  }

  lemma {:induction false} KnownPart(previous: seq<ResourceStatus>, w: World, rs: seq<OwnerResource>,
                                     clock: nat -> Readings, ts: seq<Tracked>, k: nat)
    requires Shape(previous, w, rs, clock, |rs|, ts) && k <= |previous|
    ensures Currents(ts[..k]) == KnownStatuses(previous, w, rs, clock, k)
  {
    hide StepAt, Tracks;
    if k > 0 {
      KnownPart(previous, w, rs, clock, ts, k - 1);
      assert ts[..k][..k - 1] == ts[..k - 1];
      assert HoldsLatest(previous, w, rs, clock, |rs|, ts, k - 1);
      assert First(ts, k - 1) == FirstOfName(previous, k - 1);
    }
  }

  lemma PutTail(ts: seq<Tracked>, status: ResourceStatus, changed: bool, n: nat)
    requires n <= |ts|
    ensures var us, k := Put(ts, status, changed), Find(ts, status.resource.name);
            && (k < n ==> |us| == |ts| && Currents(us[n..]) == Currents(ts[n..]))
            && (k == |ts| ==> |us| == |ts| + 1 && Currents(us[n..]) == Currents(ts[n..]) + [status])
  {
    var us, k := Put(ts, status, changed), Find(ts, status.resource.name);
    if k < n {
      assert us[n..] == ts[n..];
    } else if k == |ts| {
      assert us[n..][..|us[n..]| - 1] == ts[n..];
    }
  }

  lemma FoundAmongPersisted(previous: seq<ResourceStatus>, ts: seq<Tracked>, name: string)
    requires Ordered(previous, ts) && Names(previous, name)
    ensures Find(ts, name) < |previous|
  {
    var m :| 0 <= m < |previous| && previous[m].resource.name == name;
    assert ts[m].name == name;
  }

  lemma NotYetTracked(previous: seq<ResourceStatus>, w: World, rs: seq<OwnerResource>, clock: nat -> Readings, i: nat,
                      ts: seq<Tracked>)
    requires 0 < i <= |rs| && DistinctNames(rs) && Shape(previous, w, rs, clock, i - 1, ts)
    requires !Names(previous, rs[i - 1].name)
    ensures Find(ts, rs[i - 1].name) == |ts|
  {
    hide StepAt, Tracks;
    forall k | 0 <= k < |ts| ensures ts[k].name != rs[i - 1].name {
      if k < |previous| {
        assert ts[k].name == previous[k].resource.name;
      } else {
        assert HoldsLatest(previous, w, rs, clock, i - 1, ts, k);
        var j := Latest(rs, ts[k].name, i - 1);
        assert rs[j.value].name == ts[k].name;
      }
    }
  }

  /** The entries behind the persisted ones are the new names so far. */
  lemma {:induction false} NewPart(previous: seq<ResourceStatus>, w: World, rs: seq<OwnerResource>,
                                   clock: nat -> Readings, i: nat)
    requires i <= |rs| && DistinctNames(rs)
    ensures |previous| <= |TrackedAt(previous, w, rs, clock, i)|
    ensures Currents(TrackedAt(previous, w, rs, clock, i)[|previous|..]) == NewStatuses(previous, w, rs, clock, i)
  {
    hide StepAt, HoldsLatest, Put, Ordered, Names;
    if i == 0 {
      assert Begin(previous)[|previous|..] == [];
    } else {
      NewPart(previous, w, rs, clock, i - 1);
      RunShape(previous, w, rs, clock, i - 1);
      var ts, step := TrackedAt(previous, w, rs, clock, i - 1), StepAt(previous, w, rs, clock, i - 1);
      StepKeepsName(previous, w, rs, clock, i - 1);
      PutTail(ts, step.status, step.changed, |previous|);
      if Names(previous, rs[i - 1].name) {
        FoundAmongPersisted(previous, ts, rs[i - 1].name);
      } else {
        NotYetTracked(previous, w, rs, clock, i, ts);
      }
    }
  }

  /**
   With distinct names a run records one status per resource and nothing for removed ones:
   first the persisted names in persisted order, then the new ones in list order.
   */
  lemma RunRecordsExactly(previous: seq<ResourceStatus>, w: World, rs: seq<OwnerResource>, clock: nat -> Readings)
    requires DistinctNames(rs)
    ensures Currents(TrackedAt(previous, w, rs, clock, |rs|))
            == KnownStatuses(previous, w, rs, clock, |previous|) + NewStatuses(previous, w, rs, clock, |rs|)
    ensures Summary(previous, w, rs, clock, Currents(TrackedAt(previous, w, rs, clock, |rs|)))
  {
    hide StepAt, Shape, Currents;
    var ts := TrackedAt(previous, w, rs, clock, |rs|);
    RunShape(previous, w, rs, clock, |rs|);
    NewPart(previous, w, rs, clock, |rs|);
    KnownPart(previous, w, rs, clock, ts, |previous|);
    CurrentsSplit(ts, |previous|);
    RunSummary(previous, w, rs, clock);
  }

  // ---------- soundness of the change flag ----------

  /**
   An unchanged run realized the persisted resources, in order and to the letter,
   and every condition it recorded, time included, was already persisted.
   */
  lemma UnchangedRunIsPersisted(previous: seq<ResourceStatus>, w: World, rs: seq<OwnerResource>,
                                clock: nat -> Readings)
    requires !Changed(TrackedAt(previous, w, rs, clock, |rs|))
    ensures var cur := Currents(TrackedAt(previous, w, rs, clock, |rs|));
            && |cur| == |previous|
            && (forall k :: 0 <= k < |cur| ==> cur[k].resource == previous[k].resource)
            && (forall k, c :: 0 <= k < |cur| && c in cur[k].conditions ==> c in previous[k].conditions)
  {
    hide StepAt, TrackedAt, Currents;
    var ts := TrackedAt(previous, w, rs, clock, |rs|);
    RunShape(previous, w, rs, clock, |rs|);
    NewEntriesCount(previous, ts);
    CurrentsOfFull(ts);
    forall k | 0 <= k < |ts| ensures forall c :: c in ts[k].current.value.conditions ==> c in previous[k].conditions {
      UnchangedEntry(previous, w, rs, clock, ts, k);
    }
  }

  lemma NewEntriesCount(previous: seq<ResourceStatus>, ts: seq<Tracked>)
    requires Ordered(previous, ts)
    ensures |ts| > |previous| ==> Changed(ts)
  {
    assert |ts| > |previous| ==> EntryChanged(ts[|previous|]);
  }

  lemma UnchangedEntry(previous: seq<ResourceStatus>, w: World, rs: seq<OwnerResource>, clock: nat -> Readings,
                       ts: seq<Tracked>, k: nat)
    requires Shape(previous, w, rs, clock, |rs|, ts) && k < |ts| == |previous| && !EntryChanged(ts[k])
    ensures forall c :: c in ts[k].current.value.conditions ==> c in previous[k].conditions
  {
    hide StepFor;
    assert HoldsLatest(previous, w, rs, clock, |rs|, ts, k);
    var j := Latest(rs, ts[k].name, |rs|).value;
    PriorOfFirst(previous, ts, k);
    UnchangedStep(previous[k], w, rs[j], AnswerAt(w, rs, j), clock(j));
  }

  lemma PriorOfFirst(previous: seq<ResourceStatus>, ts: seq<Tracked>, k: nat)
    requires Ordered(previous, ts) && k < |previous| && First(ts, k)
    ensures Prior(previous, ts[k].name) == Some(previous[k])
  {
    var f := Find(Begin(previous), ts[k].name);
    assert Begin(previous)[k].name == ts[k].name;
  }

  lemma UnchangedStep(prior: ResourceStatus, w: World, r: OwnerResource, a: Answer, t: Readings)
    requires !StepFor(Some(prior), w, r, a, t).changed
    ensures forall c :: c in StepFor(Some(prior), w, r, a, t).status.conditions ==> c in prior.conditions
  {
    hide FurtherFor, ErrorFor, ResourceFor, Finish;
    var further := FurtherFor(Some(prior), w, r, a, t);
    var err := ErrorFor(a.err, further);
    UnchangedIsSound(RESOURCE_READY, prior.conditions, ResourceEntries(err, a.passThrough, further, t), t.ready);
  }

  // ---------- clocks ----------

  ghost predicate Alike(x: Tracked, y: Tracked) {
    && x.name == y.name && x.previous == y.previous
    && (x.current.Some? <==> y.current.Some?)
    && (x.current.Some? ==> SameStatus(x.current.value, y.current.value))
    && EntryChanged(x) == EntryChanged(y)
  }

  ghost predicate AllAlike(ts: seq<Tracked>, us: seq<Tracked>) {
    |ts| == |us| && forall k :: 0 <= k < |ts| ==> Alike(ts[k], us[k])
  }

  lemma AlikeFind(ts: seq<Tracked>, us: seq<Tracked>, name: string)
    requires AllAlike(ts, us)
    ensures Find(ts, name) == Find(us, name)
  {
    var k, l := Find(ts, name), Find(us, name);
    if k < |ts| {
      assert Alike(ts[k], us[k]);
    }
    if l < |us| {
      assert Alike(ts[l], us[l]);
    }
  }

  lemma PutAlike(ts: seq<Tracked>, us: seq<Tracked>, x: Step, y: Step)
    requires AllAlike(ts, us)
    requires SameStatus(x.status, y.status) && x.changed == y.changed
    requires var p := PreviousOf(ts, x.status.resource.name);
             p.Some? ==> (x.status.resource == p.value.resource <==> y.status.resource == p.value.resource)
    ensures AllAlike(Put(ts, x.status, x.changed), Put(us, y.status, y.changed))
  {
    AlikeFind(ts, us, x.status.resource.name);
    var k := Find(ts, x.status.resource.name);
    if k < |ts| {
      assert Alike(ts[k], us[k]);
    }
  }

  lemma {:induction false} CurrentsAlike(ts: seq<Tracked>, us: seq<Tracked>)
    requires AllAlike(ts, us)
    ensures SameStatuses(Currents(ts), Currents(us))
  {
    hide SameStatus, EntryChanged;
    if ts != [] {
      CurrentsAlike(ts[..|ts| - 1], us[..|us| - 1]);
      assert Alike(ts[|ts| - 1], us[|us| - 1]);
    }
  }

  lemma StepAtIgnoresClock(previous: seq<ResourceStatus>, w: World, rs: seq<OwnerResource>, s: nat -> Readings,
                           t: nat -> Readings, i: nat)
    requires TimelessHealth(w) && i < |rs|
    ensures var x, y, p := StepAt(previous, w, rs, s, i), StepAt(previous, w, rs, t, i), Prior(previous, rs[i].name);
            && SameStatus(x.status, y.status) && x.changed == y.changed && x.err == y.err
            && (p.Some? ==> (x.status.resource == p.value.resource <==> y.status.resource == p.value.resource))
  {
    hide StepFor, SameStatus, AnswerAt, TimelessHealth, PreviousOf;
    var p, a := Prior(previous, rs[i].name), AnswerAt(w, rs, i);
    StepIgnoresClock(p, w, rs[i], a, s(i), t(i));
    StepIgnoresClock(p, w, rs[i], a, t(i), s(i));
  }

  /** Whether anything changed, every content, and the error are the same under any two clocks. */
  lemma {:induction false} RunIgnoresClock(previous: seq<ResourceStatus>, w: World, rs: seq<OwnerResource>,
                                           s: nat -> Readings, t: nat -> Readings, i: nat)
    requires TimelessHealth(w) && i <= |rs|
    ensures AllAlike(TrackedAt(previous, w, rs, s, i), TrackedAt(previous, w, rs, t, i))
    ensures FirstError(previous, w, rs, s, i) == FirstError(previous, w, rs, t, i)
  {
    hide StepAt, Put, SameStatus, EntryChanged, TimelessHealth;
    if i > 0 {
      RunIgnoresClock(previous, w, rs, s, t, i - 1);
      StepAtIgnoresClock(previous, w, rs, s, t, i - 1);
      StepKeepsName(previous, w, rs, s, i - 1);
      TrackingKeepsPrevious(previous, w, rs, s, i - 1, rs[i - 1].name);
      PutAlike(TrackedAt(previous, w, rs, s, i - 1), TrackedAt(previous, w, rs, t, i - 1),
               StepAt(previous, w, rs, s, i - 1), StepAt(previous, w, rs, t, i - 1));
    }
  }

  lemma ChangedIgnoresClock(previous: seq<ResourceStatus>, w: World, rs: seq<OwnerResource>, s: nat -> Readings,
                            t: nat -> Readings)
    requires TimelessHealth(w)
    ensures var x, y := TrackedAt(previous, w, rs, s, |rs|), TrackedAt(previous, w, rs, t, |rs|);
            Changed(x) == Changed(y) && SameStatuses(Currents(x), Currents(y))
  {
    hide TrackedAt, SameStatus, EntryChanged, TimelessHealth, Currents;
    RunIgnoresClock(previous, w, rs, s, t, |rs|);
    var x, y := TrackedAt(previous, w, rs, s, |rs|), TrackedAt(previous, w, rs, t, |rs|);
    CurrentsAlike(x, y);
    assert forall k :: 0 <= k < |x| ==> Alike(x[k], y[k]);
  }
}
