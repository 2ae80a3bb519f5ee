/**
 The condition manager: it collects the conditions of one reconcile, aggregates them
 into a top-level condition, keeps the transition time of every condition whose content
 did not change, and reports whether a status write is warranted.
 */
module Conditions {
  /** A clock reading. */
  type Time = int

  /** A condition status is an open string type; only three of its values are compared against. */
  datatype Status = True | False | Unknown | Other(text: string)

  datatype Polarity = Positive | Negative

  datatype Condition = Condition(ctype: string, status: Status, reason: string, message: string, time: Time)

  /** Deep equality once the transition time has been copied over. */
  predicate Same(a: Condition, b: Condition) {
    a.(time := b.time) == b
  }

  /** Pointwise `Same`: the same list as far as anything but time is concerned. */
  ghost predicate SameList(a: seq<Condition>, b: seq<Condition>) {
    |a| == |b| && forall i :: 0 <= i < |a| ==> Same(a[i], b[i])
  }

  /** Conditions as they come back from storage, which keeps times at a precision of its own. */
  function RoundConditions(cs: seq<Condition>, round: Time -> Time): (r: seq<Condition>)
    ensures SameList(cs, r)
    ensures forall i :: 0 <= i < |r| ==> r[i].time == round(cs[i].time)
  {
    seq(|cs|, i requires 0 <= i < |cs| => cs[i].(time := round(cs[i].time)))
  }

  /** One call of Add: what is added, how it counts, and what the clock said. */
  datatype Entry = Entry(condition: Condition, polarity: Polarity, now: Time)

  // ---------- what one Add does to the condition it is given ----------

  /** The condition as recorded: with the time of the last previous condition of equal content, else `now`. */
  function Carried(previous: seq<Condition>, c: Condition, now: Time): Condition {
    if previous == [] then c.(time := now)
    else
      var last := previous[|previous| - 1];
      if Same(last, c) then last else Carried(previous[..|previous| - 1], c, now)
  }

  /** Some previous condition has this type. */
  ghost predicate Known(previous: seq<Condition>, c: Condition) {
    exists p :: p in previous && p.ctype == c.ctype
  }

  /** Some previous condition of this type has other content. */
  ghost predicate Contradicted(previous: seq<Condition>, c: Condition) {
    exists p :: p in previous && p.ctype == c.ctype && !Same(p, c)
  }

  /** Recording `c` over `previous` counts as a change. */
  ghost predicate Disturbs(previous: seq<Condition>, c: Condition) {
    !Known(previous, c) || Contradicted(previous, c)
  }

  lemma NothingBefore(c: Condition, now: Time)
    ensures Carried([], c, now) == c.(time := now) && !Known([], c) && !Contradicted([], c)
  {
  }

  lemma OneMoreBefore(previous: seq<Condition>, i: nat, c: Condition, now: Time)
    requires i < |previous|
    ensures var init, more, p := previous[..i], previous[..i + 1], previous[i];
            && Carried(more, c, now) == (if Same(p, c) then p else Carried(init, c, now))
            && Known(more, c) == (Known(init, c) || p.ctype == c.ctype)
            && Contradicted(more, c) == (Contradicted(init, c) || (p.ctype == c.ctype && !Same(p, c)))
  {
    var init, more := previous[..i], previous[..i + 1];
    assert more == init + [previous[i]];
    assert more[..i] == init;
  }

  lemma {:induction false} CarriedIsPreviousOrNew(previous: seq<Condition>, c: Condition, now: Time)
    ensures var r := Carried(previous, c, now);
            && Same(r, c)
            && (r in previous || (r == c.(time := now) && forall p :: p in previous ==> !Same(p, c)))
    ensures (forall p :: p in previous ==> !Same(p, c)) ==> Carried(previous, c, now) == c.(time := now)
  {
    if previous != [] {
      var init, last := previous[..|previous| - 1], previous[|previous| - 1];
      assert previous == init + [last];
      CarriedIsPreviousOrNew(init, c, now);
    }
  }

  // ---------- aggregation ----------

  datatype Tally = Tally(status: Status, reason: string, message: string)

  predicate Fails(e: Entry) {
    || (e.condition.status == False && e.polarity == Positive)
    || (e.condition.status == True && e.polarity == Negative)
  }

  predicate Undecided(e: Entry) {
    !Fails(e) && e.condition.status == Unknown
  }

  function Count(t: Tally, e: Entry): Tally {
    if Fails(e) then Tally(False, e.condition.reason, e.condition.message)
    else if e.condition.status == Unknown && t.status == True then
      Tally(Unknown, e.condition.reason, e.condition.message)
    else t
  }

  function TallyOf(entries: seq<Entry>): Tally {
    if entries == [] then Tally(True, "", "")
    else Count(TallyOf(entries[..|entries| - 1]), entries[|entries| - 1])
  }

  /** The tally of entry `i`. */
  ghost predicate Reports(t: Tally, entries: seq<Entry>, i: int)
    requires 0 <= i < |entries|
  {
    t.reason == entries[i].condition.reason && t.message == entries[i].condition.message
  }

  ghost predicate SomeFails(entries: seq<Entry>) {
    exists e :: e in entries && Fails(e)
  }

  ghost predicate SomeUndecided(entries: seq<Entry>) {
    exists e :: e in entries && Undecided(e)
  }

  /** False beats Unknown beats True, without reference to order. */
  ghost function Verdict(entries: seq<Entry>): Status {
    if SomeFails(entries) then False else if SomeUndecided(entries) then Unknown else True
  }

  /** `i` is the last failing entry. */
  ghost predicate LastFailure(entries: seq<Entry>, i: int) {
    0 <= i < |entries| && Fails(entries[i]) && forall j :: i < j < |entries| ==> !Fails(entries[j])
  }

  /** `i` is the first undecided entry. */
  ghost predicate FirstUndecided(entries: seq<Entry>, i: int) {
    0 <= i < |entries| && Undecided(entries[i]) && forall j :: 0 <= j < i ==> !Undecided(entries[j])
  }

  lemma VerdictStep(init: seq<Entry>, last: Entry)
    ensures SomeFails(init + [last]) <==> SomeFails(init) || Fails(last)
    ensures SomeUndecided(init + [last]) <==> SomeUndecided(init) || Undecided(last)
  {
    hide Fails, Undecided;
    assert forall e :: e in init + [last] <==> e in init || e == last;
  }

  lemma LastFailureStep(init: seq<Entry>, last: Entry, i: int)
    requires LastFailure(init + [last], i)
    ensures if Fails(last) then i == |init| else LastFailure(init, i)
  {
    hide Fails;
    var entries := init + [last];
    assert entries[|init|] == last;
    assert forall j :: 0 <= j < |init| ==> entries[j] == init[j];
  }

  lemma FirstUndecidedStep(init: seq<Entry>, last: Entry, i: int)
    requires FirstUndecided(init + [last], i)
    ensures if SomeUndecided(init) then FirstUndecided(init, i) else i == |init|
  {
    hide Undecided;
    var entries := init + [last];
    assert forall j :: 0 <= j < |init| ==> entries[j] == init[j];
    if SomeUndecided(init) {
      var e :| e in init && Undecided(e);
      var k :| 0 <= k < |init| && init[k] == e;
      assert entries[k] == e;
    }
  }

  /** The running tally is the verdict, explained by the last failure or else by the first unknown. */
  lemma {:induction false} TallyIsVerdict(entries: seq<Entry>)
    ensures TallyOf(entries).status == Verdict(entries)
    ensures forall i :: LastFailure(entries, i) ==> Reports(TallyOf(entries), entries, i)
    ensures !SomeFails(entries) ==> forall i :: FirstUndecided(entries, i) ==> Reports(TallyOf(entries), entries, i)
    ensures TallyOf(entries).status == True ==> TallyOf(entries).reason == TallyOf(entries).message == ""
  {
    hide SomeFails, SomeUndecided, LastFailure, FirstUndecided, Fails;
    if entries == [] {
      NoEntries();
    } else {
      var init, last := entries[..|entries| - 1], entries[|entries| - 1];
      assert entries == init + [last];
      TallyIsVerdict(init);
      VerdictStep(init, last);
      forall i | LastFailure(entries, i) ensures 0 <= i < |entries| && Reports(TallyOf(entries), entries, i) {
        Bounded(entries, i);
        LastFailureStep(init, last, i);
        if !Fails(last) {
          Bounded(init, i);
          SomeFailure(init, i);
        }
      }
      forall i | FirstUndecided(entries, i) && !SomeFails(entries)
        ensures 0 <= i < |entries| && Reports(TallyOf(entries), entries, i)
      {
        Bounded(entries, i);
        FirstUndecidedStep(init, last, i);
        if SomeUndecided(init) {
          Bounded(init, i);
        }
      }
    }
  }

  lemma NoEntries()
    ensures !SomeFails([]) && !SomeUndecided([])
    ensures forall i :: !LastFailure([], i) && !FirstUndecided([], i)
  {
  }

  lemma Bounded(entries: seq<Entry>, i: int)
    ensures LastFailure(entries, i) || FirstUndecided(entries, i) ==> 0 <= i < |entries|
    ensures FirstUndecided(entries, i) ==> Undecided(entries[i])
  {
  }

  lemma SomeFailure(entries: seq<Entry>, i: int)
    requires LastFailure(entries, i)
    ensures SomeFails(entries)
  {
    assert entries[i] in entries;
  }

  /** The aggregated status does not depend on the order of the adds. */
  lemma VerdictIgnoresOrder(a: seq<Entry>, b: seq<Entry>)
    requires multiset(a) == multiset(b)
    ensures TallyOf(a).status == TallyOf(b).status
  {
    TallyIsVerdict(a);
    TallyIsVerdict(b);
    assert forall e :: (e in a <==> e in multiset(a)) && (e in b <==> e in multiset(b));
  }

  // ---------- a whole round ----------

  datatype Finalized = Finalized(conditions: seq<Condition>, changed: bool)

  /** The top-level entry that Finalize adds on behalf of a non-empty round. */
  function Top(topType: string, entries: seq<Entry>, now: Time): Entry {
    var t := TallyOf(entries);
    Entry(Condition(topType, t.status, if t.status == True then "Ready" else t.reason, t.message, now), Positive, now)
  }

  /** Everything a round records, the top-level entry last. */
  function Recorded(topType: string, entries: seq<Entry>, now: Time): seq<Entry> {
    if entries == [] then [Entry(Condition(topType, Unknown, "Unknown", "", now), Positive, now)]
    else entries + [Top(topType, entries, now)]
  }

  function CarryAll(previous: seq<Condition>, entries: seq<Entry>): (r: seq<Condition>)
    ensures |r| == |entries|
    ensures forall i :: 0 <= i < |r| ==> r[i] == Carried(previous, entries[i].condition, entries[i].now)
  {
    seq(|entries|, i requires 0 <= i < |entries| => Carried(previous, entries[i].condition, entries[i].now))
  }

  ghost predicate Disturbed(previous: seq<Condition>, entries: seq<Entry>) {
    exists i :: 0 <= i < |entries| && Disturbs(previous, entries[i].condition)
  }

  /** What Finalize returns after `entries` were added over `previous`. */
  ghost function Finish(topType: string, previous: seq<Condition>, entries: seq<Entry>, now: Time): Finalized {
    var all := Recorded(topType, entries, now);
    if entries == [] then Finalized([all[0].condition], true)
    else Finalized(CarryAll(previous, all), Disturbed(previous, all))
  }

  class ConditionManager {
    const previous: seq<Condition>
    const topType: string
    var conditions: seq<Condition>
    var status: Status
    var changed: bool
    var reason: string
    var message: string
    /** The calls of Add so far. */
    ghost var entries: seq<Entry>

    ghost predicate Valid()
      reads this
    {
      && conditions == CarryAll(previous, entries)
      && changed == Disturbed(previous, entries)
      && Tally(status, reason, message) == TallyOf(entries)
    }

    constructor (topType: string, previous: seq<Condition>)
      ensures Valid() && entries == []
      ensures this.topType == topType && this.previous == previous
    {
      this.previous := previous;
      this.topType := topType;
      conditions, entries := [], [];
      status, reason, message, changed := True, "", "", false;
    }

    method Add(condition: Condition, polarity: Polarity, now: Time)
      requires Valid()
      modifies this
      ensures Valid() && entries == old(entries) + [Entry(condition, polarity, now)]
    {
      Record(condition, polarity, now);
      ghost var e := Entry(condition, polarity, now);
      entries := entries + [e];
      assert entries[..|entries| - 1] == old(entries);
      assert conditions == CarryAll(previous, entries);
      assert forall i :: 0 <= i < |old(entries)| ==> entries[i] == old(entries)[i];
      assert entries[|entries| - 1] == e;
    }

    /** The effect of Add on the fields, for a manager in any state. */
    method Record(condition: Condition, polarity: Polarity, now: Time)
      modifies this`conditions, this`status, this`changed, this`reason, this`message
      ensures conditions == old(conditions) + [Carried(previous, condition, now)]
      ensures changed == (old(changed) || Disturbs(previous, condition))
      ensures Tally(status, reason, message)
              == Count(old(Tally(status, reason, message)), Entry(condition, polarity, now))
    {
      hide TallyOf, Carried, Known, Contradicted;
      NothingBefore(condition, now);
      var c := condition.(time := now);
      if (c.status == False && polarity == Positive) || (c.status == True && polarity == Negative) {
        status, reason, message := False, c.reason, c.message;
      } else if c.status == Unknown {
        if status == True {
          status, reason, message := Unknown, c.reason, c.message;
        }
      }
      var isNew := true;
      for i := 0 to |previous|
        invariant c == Carried(previous[..i], condition, now)
        invariant Same(c, condition)
        invariant isNew == !Known(previous[..i], condition)
        invariant changed == (old(changed) || Contradicted(previous[..i], condition))
        invariant conditions == old(conditions)
        invariant Tally(status, reason, message)
                  == Count(old(Tally(status, reason, message)), Entry(condition, polarity, now))
      {
        OneMoreBefore(previous, i, condition, now);
        if previous[i].ctype == c.ctype {
          isNew := false;
          var lastTransitionTime := c.time;
          c := c.(time := previous[i].time);
          if previous[i] != c {
            c := c.(time := lastTransitionTime);
            changed := true;
          }
        }
      }
      assert previous[..|previous|] == previous;
      if isNew {
        changed := true;
      }
      conditions := conditions + [c];
    }

    /** Starts true; an unsuccessful add makes it false, and nothing makes it true again. */
    method IsSuccessful() returns (ok: bool)
      requires Valid()
      ensures ok == !SomeFails(entries)
    {
      TallyIsVerdict(entries);
      ok := status != False;
    }

    method Finalize(now: Time) returns (result: seq<Condition>, isChanged: bool)
      requires Valid()
      modifies this
      ensures Finalized(result, isChanged) == Finish(topType, previous, old(entries), now)
    {
      hide Carried, Disturbs, Count, TallyOf;
      if |conditions| == 0 {
        status := False;
        return [Condition(topType, Unknown, "Unknown", "", now)], true;
      }
      if status == True {
        reason := "Ready";
      }
      var top := Condition(topType, status, reason, message, now);
      assert Entry(top, Positive, now) == Top(topType, entries, now);
      Record(top, Positive, now);
      ghost var all := Recorded(topType, old(entries), now);
      assert conditions == CarryAll(previous, all);
      assert changed == Disturbed(previous, all) by {
        assert forall i :: 0 <= i < |old(entries)| ==> all[i] == old(entries)[i];
        assert all[|all| - 1].condition == top;
      }
      result, isChanged := conditions, changed;
    }
  }

  // ---------- laws of a round ----------

  /** Unchanged means that every returned condition, its time included, was there before. */
  lemma UnchangedIsSound(topType: string, previous: seq<Condition>, entries: seq<Entry>, now: Time)
    requires !Finish(topType, previous, entries, now).changed
    ensures forall c :: c in Finish(topType, previous, entries, now).conditions ==> c in previous
  {
    var all := Recorded(topType, entries, now);
    forall i | 0 <= i < |all| ensures CarryAll(previous, all)[i] in previous {
      var c := all[i].condition;
      assert !Disturbs(previous, c);
      CarriedIsPreviousOrNew(previous, c, all[i].now);
    }
  }

  /** Equal up to clock readings. */
  ghost predicate SameEntries(a: seq<Entry>, b: seq<Entry>) {
    && |a| == |b|
    && forall i :: 0 <= i < |a| ==> Same(a[i].condition, b[i].condition) && a[i].polarity == b[i].polarity
  }

  /** Entries of one type never differ in content. */
  ghost predicate Consistent(entries: seq<Entry>) {
    forall a, b :: a in entries && b in entries && a.condition.ctype == b.condition.ctype ==>
      Same(a.condition, b.condition)
  }

  ghost predicate DistinctTypes(entries: seq<Entry>) {
    forall i, j :: 0 <= i < j < |entries| ==> entries[i].condition.ctype != entries[j].condition.ctype
  }

  lemma {:induction false} TallyIgnoresClock(a: seq<Entry>, b: seq<Entry>)
    requires SameEntries(a, b)
    ensures TallyOf(a) == TallyOf(b)
  {
    if a != [] {
      TallyIgnoresClock(a[..|a| - 1], b[..|b| - 1]);
    }
  }

  lemma RecordedIgnoresClock(topType: string, a: seq<Entry>, s: Time, b: seq<Entry>, t: Time)
    requires SameEntries(a, b)
    ensures SameEntries(Recorded(topType, a, s), Recorded(topType, b, t))
  {
    TallyIgnoresClock(a, b);
  }

  /** Whether a round reports a change does not depend on any clock reading. */
  lemma ChangeIgnoresClock(topType: string, previous: seq<Condition>, a: seq<Entry>, s: Time, b: seq<Entry>, t: Time)
    requires SameEntries(a, b)
    ensures Finish(topType, previous, a, s).changed == Finish(topType, previous, b, t).changed
  {
    RecordedIgnoresClock(topType, a, s, b, t);
    var x, y := Recorded(topType, a, s), Recorded(topType, b, t);
    forall i | 0 <= i < |x| ensures Disturbs(previous, x[i].condition) == Disturbs(previous, y[i].condition) {
    }
  }

  lemma FinishKeepsContent(topType: string, previous: seq<Condition>, entries: seq<Entry>, now: Time)
    ensures Lists(Finish(topType, previous, entries, now).conditions, Recorded(topType, entries, now))
  {
    var all := Recorded(topType, entries, now);
    forall i | 0 <= i < |all| ensures Same(Carried(previous, all[i].condition, all[i].now), all[i].condition) {
      CarriedIsPreviousOrNew(previous, all[i].condition, all[i].now);
    }
  }

  /** The last failure, or without one the first unknown, explains the verdict. */
  ghost predicate Explains(entries: seq<Entry>, i: int) {
    LastFailure(entries, i) || (!SomeFails(entries) && FirstUndecided(entries, i))
  }

  /**
   The condition that Finalize puts last: of the top-level type, with the verdict over all adds as its status, and the
   reason and message of the add that explains it. Without adds it is Unknown, new, and a change.
   */
  lemma TopIsVerdict(topType: string, previous: seq<Condition>, entries: seq<Entry>, now: Time)
    ensures var f := Finish(topType, previous, entries, now);
            |f.conditions| == |entries| + 1 && f.conditions[|entries|].ctype == topType
    ensures var f := Finish(topType, previous, entries, now);
            if entries == [] then f.changed && f.conditions == [Condition(topType, Unknown, "Unknown", "", now)]
            else
              var top := f.conditions[|entries|];
              && top.status == Verdict(entries)
              && (forall i :: Explains(entries, i) ==>
                    top.reason == entries[i].condition.reason && top.message == entries[i].condition.message)
              && (top.status == True ==> top.reason == "Ready" && top.message == "")
  {
    hide TallyOf, Verdict, SomeFails;
    FinishKeepsContent(topType, previous, entries, now);
    TallyIsVerdict(entries);
    TrueIsUnexplained(entries);
  }

  lemma TrueIsUnexplained(entries: seq<Entry>)
    ensures forall i :: Explains(entries, i) ==> 0 <= i < |entries| && Verdict(entries) != True
  {
    forall i | Explains(entries, i) ensures 0 <= i < |entries| && Verdict(entries) != True {
      assert entries[i] in entries;
    }
  }

  /** A type that recurs with other content reports a change over every previous list. */
  lemma InconsistentAlwaysChanges(previous: seq<Condition>, entries: seq<Entry>)
    requires !Consistent(entries)
    ensures Disturbed(previous, entries)
  {
    var a, b :| a in entries && b in entries && a.condition.ctype == b.condition.ctype
                && !Same(a.condition, b.condition);
    var i :| 0 <= i < |entries| && entries[i] == a;
    var j :| 0 <= j < |entries| && entries[j] == b;
    if !Disturbs(previous, a.condition) {
      var p :| p in previous && p.ctype == a.condition.ctype;
      assert Same(p, a.condition);
      assert !Same(p, b.condition);
      assert Disturbs(previous, b.condition);
    }
  }

  /** `stored` lists the contents of `all`, under whatever times. */
  ghost predicate Lists(stored: seq<Condition>, all: seq<Entry>) {
    |stored| == |all| && forall i :: 0 <= i < |all| ==> Same(stored[i], all[i].condition)
  }

  lemma DisturbedByOwnContent(stored: seq<Condition>, all: seq<Entry>)
    requires Lists(stored, all)
    ensures Disturbed(stored, all) <==> !Consistent(all)
  {
    if !Consistent(all) {
      InconsistentAlwaysChanges(stored, all);
    } else {
      forall i | 0 <= i < |all| ensures !Disturbs(stored, all[i].condition) {
        var c := all[i].condition;
        assert stored[i] in stored && stored[i].ctype == c.ctype;
        forall p | p in stored && p.ctype == c.ctype ensures Same(p, c) {
          var j :| 0 <= j < |stored| && stored[j] == p;
          assert all[j] in all && all[i] in all;
        }
      }
    }
  }

  lemma DistinctTypesCarryEverything(stored: seq<Condition>, all: seq<Entry>)
    requires Lists(stored, all) && DistinctTypes(all)
    ensures CarryAll(stored, all) == stored
  {
    forall i | 0 <= i < |all| ensures CarryAll(stored, all)[i] == stored[i] {
      var c := all[i].condition;
      CarriedIsPreviousOrNew(stored, c, all[i].now);
      assert stored[i] in stored && Same(stored[i], c);
      var r := Carried(stored, c, all[i].now);
      var j :| 0 <= j < |stored| && stored[j] == r;
      assert all[j].condition.ctype == c.ctype;
    }
  }

  lemma DistinctTypesAreConsistent(all: seq<Entry>)
    requires DistinctTypes(all)
    ensures Consistent(all)
  {
  }

  /**
   Rerunning a round over its own (possibly re-timed) result: it reports a change exactly when
   nothing was added or some type recurs with other content, and with distinct types it
   returns the stored list unaltered, every transition time included.
   */
  lemma Rerun(topType: string, stored: seq<Condition>, a: seq<Entry>, s: Time, b: seq<Entry>, t: Time)
    requires SameEntries(a, b)
    requires Lists(stored, Recorded(topType, a, s))
    ensures Finish(topType, stored, b, t).changed <==> (b == [] || !Consistent(Recorded(topType, b, t)))
    ensures b != [] && DistinctTypes(Recorded(topType, b, t)) ==>
              Finish(topType, stored, b, t) == Finalized(stored, false)
  {
    RecordedIgnoresClock(topType, a, s, b, t);
    var all := Recorded(topType, b, t);
    assert Lists(stored, all);
    DisturbedByOwnContent(stored, all);
    if DistinctTypes(all) {
      DistinctTypesAreConsistent(all);
      DistinctTypesCarryEverything(stored, all);
    }
  }

  ghost predicate DistinctConditions(cs: seq<Condition>) {
    forall i, j :: 0 <= i < j < |cs| ==> cs[i].ctype != cs[j].ctype
  }

  /** Something of this type is recorded. */
  ghost predicate RecordsType(all: seq<Entry>, ctype: string) {
    exists e :: e in all && e.condition.ctype == ctype
  }

  /**
   What an unchanged flag says about the previous conditions: of those of distinct types, exactly those survive,
   time included, whose type is recorded again. So none is lost exactly if every previous type is.
   */
  lemma UnchangedKeepsExactly(topType: string, previous: seq<Condition>, entries: seq<Entry>, now: Time)
    requires !Finish(topType, previous, entries, now).changed && DistinctConditions(previous)
    ensures var all, r := Recorded(topType, entries, now), Finish(topType, previous, entries, now).conditions;
            && (forall p :: p in previous ==> (p in r <==> RecordsType(all, p.ctype)))
            && ((forall c :: c in r <==> c in previous) <==> forall p :: p in previous ==> RecordsType(all, p.ctype))
  {
    hide TallyOf, Recorded;
    var all, r := Recorded(topType, entries, now), Finish(topType, previous, entries, now).conditions;
    UnchangedIsSound(topType, previous, entries, now);
    FinishKeepsContent(topType, previous, entries, now);
    forall p | p in previous ensures p in r <==> RecordsType(all, p.ctype) {
      SurvivesExactly(previous, all, r, p);
    }
  }

  /** All of `ys` is there in `xs`, each type with the same content only. */
  ghost predicate Covers(xs: seq<Entry>, ys: seq<Entry>) {
    && (forall i :: 0 <= i < |ys| ==> RecordsType(xs, ys[i].condition.ctype))
    && (forall i, j :: 0 <= i < |ys| && 0 <= j < |xs| && xs[j].condition.ctype == ys[i].condition.ctype ==>
          Same(xs[j].condition, ys[i].condition))
  }

  /** Unchanged means that every recorded type was stored with the recorded content, and with no other. */
  lemma AllKnown(topType: string, stored: seq<Condition>, before: seq<Entry>, entries: seq<Entry>, now: Time)
    requires Lists(stored, before) && !Finish(topType, stored, entries, now).changed
    ensures Covers(before, Recorded(topType, entries, now))
  {
    hide TallyOf, Recorded;
    var all := Recorded(topType, entries, now);
    forall i | 0 <= i < |all|
      ensures RecordsType(before, all[i].condition.ctype)
    {
      assert !Disturbs(stored, all[i].condition);
      var p :| p in stored && p.ctype == all[i].condition.ctype;
      var j :| 0 <= j < |stored| && stored[j] == p;
      assert Same(stored[j], before[j].condition) && before[j] in before;
    }
    forall i, j | 0 <= i < |all| && 0 <= j < |before| && before[j].condition.ctype == all[i].condition.ctype
      ensures Same(before[j].condition, all[i].condition)
    {
      assert !Disturbs(stored, all[i].condition);
      assert stored[j] in stored && Same(stored[j], before[j].condition);
    }
  }

  /** Unchanged over conditions of the same distinct types, the list comes back as it was, times included. */
  lemma AlignedComesBack(topType: string, previous: seq<Condition>, entries: seq<Entry>, now: Time)
    requires !Finish(topType, previous, entries, now).changed && DistinctConditions(previous)
    requires var all := Recorded(topType, entries, now);
             |all| == |previous| && forall i :: 0 <= i < |all| ==> all[i].condition.ctype == previous[i].ctype
    ensures Finish(topType, previous, entries, now).conditions == previous
  {
    hide TallyOf, Recorded, Finish;
    var all, r := Recorded(topType, entries, now), Finish(topType, previous, entries, now).conditions;
    UnchangedIsSound(topType, previous, entries, now);
    FinishKeepsContent(topType, previous, entries, now);
    forall i | 0 <= i < |all| ensures r[i] == previous[i] {
      assert r[i] in r && Same(r[i], all[i].condition);
      var j :| 0 <= j < |previous| && previous[j] == r[i];
      assert previous[j].ctype == previous[i].ctype;
    }
  }

  /**
   An unchanged flag means an unchanged list, times included, exactly if the recorded types are the previous ones,
   position by position. A type that is added twice, or in another place, does not raise the flag either.
   */
  lemma UnchangedListExactly(topType: string, previous: seq<Condition>, entries: seq<Entry>, now: Time)
    requires !Finish(topType, previous, entries, now).changed && DistinctConditions(previous)
    ensures var all := Recorded(topType, entries, now);
            Finish(topType, previous, entries, now).conditions == previous
            <==> |all| == |previous| && forall i :: 0 <= i < |all| ==> all[i].condition.ctype == previous[i].ctype
  {
    hide TallyOf, Recorded, Finish;
    var all := Recorded(topType, entries, now);
    FinishKeepsContent(topType, previous, entries, now);
    if |all| == |previous| && forall i :: 0 <= i < |all| ==> all[i].condition.ctype == previous[i].ctype {
      AlignedComesBack(topType, previous, entries, now);
    }
  }

  lemma SurvivesExactly(previous: seq<Condition>, all: seq<Entry>, r: seq<Condition>, p: Condition)
    requires DistinctConditions(previous) && p in previous && Lists(r, all)
    requires forall c :: c in r ==> c in previous
    ensures p in r <==> RecordsType(all, p.ctype)
  {
    if p in r {
      var i :| 0 <= i < |r| && r[i] == p;
      assert all[i] in all && Same(r[i], all[i].condition);
    }
    if RecordsType(all, p.ctype) {
      var e :| e in all && e.condition.ctype == p.ctype;
      var i :| 0 <= i < |all| && all[i] == e;
      assert r[i] in r && r[i].ctype == p.ctype;
    }
  }

  /** A condition that is no longer added goes unnoticed: the flag speaks of additions only. */
  lemma DisappearanceGoesUnnoticed(a: Condition, gone: Condition)
    requires a.status == True && a.ctype != "Ready" && gone.ctype != "Ready" && gone.ctype != a.ctype
    ensures var previous := [a, gone, Condition("Ready", True, "Ready", "", a.time)];
            var r := Finish("Ready", previous, [Entry(a, Positive, a.time)], a.time);
            !r.changed && gone !in r.conditions
  {
    var previous := [a, gone, Condition("Ready", True, "Ready", "", a.time)];
    var entries := [Entry(a, Positive, a.time)];
    assert entries[..0] == [];
    assert TallyOf([]) == Tally(True, "", "");
    assert TallyOf(entries) == Tally(True, "", "");
    var all := Recorded("Ready", entries, a.time);
    assert all == [entries[0], Entry(Condition("Ready", True, "Ready", "", a.time), Positive, a.time)];
    assert previous[0] == a && previous[2] == all[1].condition;
    assert !Disturbs(previous, all[0].condition);
    assert !Disturbs(previous, all[1].condition);
    FinishKeepsContent("Ready", previous, entries, a.time);
  }

  /** Neither does one that is added twice. */
  lemma RepetitionGoesUnnoticed(a: Condition)
    requires a.status == True && a.ctype != "Ready"
    ensures var ready := Condition("Ready", True, "Ready", "", a.time);
            var e := Entry(a, Positive, a.time);
            Finish("Ready", [a, ready], [e, e], a.time) == Finalized([a, a, ready], false)
  {
    var ready, e := Condition("Ready", True, "Ready", "", a.time), Entry(a, Positive, a.time);
    var previous, entries := [a, ready], [e, e];
    assert entries[..1] == [e] && [e][..0] == [];
    assert TallyOf([e]) == TallyOf([]) == Tally(True, "", "");
    assert TallyOf(entries) == Tally(True, "", "");
    var all := Recorded("Ready", entries, a.time);
    assert all == [e, e, Entry(ready, Positive, a.time)];
    assert previous[0] == a && previous[1] == ready;
    assert previous[..1] == [a];
    assert !Disturbs(previous, a) && !Disturbs(previous, ready);
    assert Carried(previous, ready, a.time) == ready && Carried(previous, a, a.time) == a;
  }
}
