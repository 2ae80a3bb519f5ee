/** The per-resource statuses of one reconcile: what was persisted before and what holds now. */
module Statuses {
  import opened Common
  import opened Conditions
  import opened Api

  datatype Tracked = Tracked(
    name: string,
    previous: Option<ResourceStatus>,
    current: Option<ResourceStatus>,
    conditionsChanged: bool)

  /** The clock readings taken while one resource is realized. */
  datatype Readings = Readings(outputs: Time, submitted: Time, further: nat -> Time, ready: Time)

  function Begin(previous: seq<ResourceStatus>): (ts: seq<Tracked>)
    ensures |ts| == |previous|
    ensures forall k :: 0 <= k < |ts| ==>
              ts[k] == Tracked(previous[k].resource.name, Some(previous[k]), None, false)
  {
    seq(|previous|, k requires 0 <= k < |previous| =>
      Tracked(previous[k].resource.name, Some(previous[k]), None, false))
  }

  /** The first position tracking `name`, or the length of the list. */
  function Find(ts: seq<Tracked>, name: string): (k: nat)
    ensures k <= |ts|
    ensures k < |ts| ==> ts[k].name == name
    ensures forall j :: 0 <= j < k ==> ts[j].name != name
  {
    if ts == [] then 0 else if ts[0].name == name then 0 else 1 + Find(ts[1..], name)
  }

  function PreviousOf(ts: seq<Tracked>, name: string): Option<ResourceStatus> {
    var k := Find(ts, name);
    if k < |ts| then ts[k].previous else None
  }

  function Put(ts: seq<Tracked>, status: ResourceStatus, changed: bool): seq<Tracked> {
    var k := Find(ts, status.resource.name);
    if k < |ts| then ts[k := ts[k].(current := Some(status), conditionsChanged := changed)]
    else ts + [Tracked(status.resource.name, None, Some(status), changed)]
  }

  function Currents(ts: seq<Tracked>): seq<ResourceStatus> {
    if ts == [] then []
    else
      var last := ts[|ts| - 1];
      Currents(ts[..|ts| - 1]) + if last.current.Some? then [last.current.value] else []
  }

  /** The entry gives a reason to write the status. */
  predicate EntryChanged(t: Tracked) {
    || t.current.None?
    || t.previous.None?
    || t.conditionsChanged
    || t.current.value.resource != t.previous.value.resource
  }

  ghost predicate Changed(ts: seq<Tracked>) {
    exists k :: 0 <= k < |ts| && EntryChanged(ts[k])
  }

  /** The submission condition of a resource, or the condition its error turns into. */
  function Submission(err: Option<Error>, isPassThrough: bool): Condition {
    if err.Some? then ErrorCondition(false, err.value) else ResourceSubmitted(isPassThrough)
  }

  /** What is added for one resource: the submission or its error, then the further conditions. */
  function ResourceEntries(err: Option<Error>, isPassThrough: bool, further: seq<Condition>,
                           t: Readings): (es: seq<Entry>)
    ensures |es| == 1 + |further|
  {
    [Entry(Submission(err, isPassThrough), Positive, t.submitted)]
    + seq(|further|, i requires 0 <= i < |further| => Entry(further[i], Positive, t.further(i)))
  }

  function PreviousConditions(previous: Option<ResourceStatus>): seq<Condition> {
    if previous.Some? then previous.value.conditions else []
  }

  /** The conditions recorded for a resource, and whether they changed. */
  ghost function Assess(previous: Option<ResourceStatus>, err: Option<Error>, isPassThrough: bool,
                        further: seq<Condition>, t: Readings): Finalized
  {
    Finish(RESOURCE_READY, PreviousConditions(previous), ResourceEntries(err, isPassThrough, further, t), t.ready)
  }

  class ResourceStatuses {
    var statuses: seq<Tracked>

    constructor (previous: seq<ResourceStatus>)
      ensures statuses == Begin(previous)
    {
      statuses := [];
      new;
      for i := 0 to |previous|
        invariant statuses == Begin(previous)[..i]
      {
        statuses := statuses + [Tracked(previous[i].resource.name, Some(previous[i]), None, false)];
      }
    }

    method IsChanged() returns (changed: bool)
      ensures changed == Changed(statuses)
    {
      for i := 0 to |statuses|
        invariant forall k :: 0 <= k < i ==> !EntryChanged(statuses[k])
      {
        var status := statuses[i];
        if status.current.None? {
          return true;
        }
        if status.previous.None? {
          return true;
        }
        if status.conditionsChanged {
          return true;
        }
        if status.current.value.resource != status.previous.value.resource {
          return true;
        }
      }
      return false;
    }

    method GetCurrent() returns (current: seq<ResourceStatus>)
      ensures current == Currents(statuses)
    {
      current := [];
      for i := 0 to |statuses|
        invariant current == Currents(statuses[..i])
      {
        assert statuses[..i + 1][..i] == statuses[..i];
        if statuses[i].current.Some? {
          current := current + [statuses[i].current.value];
        }
      }
      assert statuses[..|statuses|] == statuses;
    }

    method Locate(name: string) returns (k: nat)
      ensures k == Find(statuses, name)
    {
      k := 0;
      while k < |statuses| && statuses[k].name != name
        invariant k <= |statuses|
        invariant forall j :: 0 <= j < k ==> statuses[j].name != name
      {
        k := k + 1;
      }
    }

    method GetPreviousResourceStatus(name: string) returns (previous: Option<ResourceStatus>)
      ensures previous == PreviousOf(statuses, name)
    {
      var k := Locate(name);
      return if k < |statuses| then statuses[k].previous else None;
    }

    method Add(resource: RealizedResource, err: Option<Error>, isPassThrough: bool, further: seq<Condition>,
               t: Readings)
      modifies this
      ensures var f := Assess(PreviousOf(old(statuses), resource.name), err, isPassThrough, further, t);
              statuses == Put(old(statuses), ResourceStatus(resource, f.conditions), f.changed)
    {
      var k := Locate(resource.name);
      if k == |statuses| {
        statuses := statuses + [Tracked(resource.name, None, None, false)];
      }
      var conditions, changed := CreateConditions(statuses[k].previous, err, isPassThrough, further, t);
      statuses := statuses[k := statuses[k].(current := Some(ResourceStatus(resource, conditions)),
                                             conditionsChanged := changed)];
    }

    method CreateConditions(previous: Option<ResourceStatus>, err: Option<Error>, isPassThrough: bool,
                            further: seq<Condition>, t: Readings)
      returns (conditions: seq<Condition>, changed: bool)
      ensures Finalized(conditions, changed) == Assess(previous, err, isPassThrough, further, t)
    {
      hide Submission, TallyOf, Disturbed, CarryAll, Finish;
      var manager := new ConditionManager(RESOURCE_READY, PreviousConditions(previous));
      manager.Add(Submission(err, isPassThrough), Positive, t.submitted);
      ghost var es := ResourceEntries(err, isPassThrough, further, t);
      for i := 0 to |further|
        invariant manager.Valid() && manager.entries == es[..1 + i]
      {
        assert es[..2 + i] == es[..1 + i] + [Entry(further[i], Positive, t.further(i))];
        manager.Add(further[i], Positive, t.further(i));
      }
      assert es[..|es|] == es;
      conditions, changed := manager.Finalize(t.ready);
    }
  }

  // ---------- laws ----------

  lemma PutKeepsOthers(ts: seq<Tracked>, status: ResourceStatus, changed: bool, name: string)
    ensures PreviousOf(Put(ts, status, changed), name) == PreviousOf(ts, name)
  {
    var us := Put(ts, status, changed);
    var k, l := Find(ts, name), Find(us, name);
    if k < |ts| {
      assert us[k].name == name;
    }
  }
}
