/**
 Transition times over whole histories: rounds of the condition manager, each seeded with the conditions
 the round before it returned, as they come back from storage.
 */
module ConditionHistory {
  import opened Conditions

  /** What was added in one round, the clock reading of Finalize, and what storage does to times. */
  datatype Round = Round(entries: seq<Entry>, now: Time, round: Time -> Time)

  function Contents(topType: string, r: Round): (all: seq<Entry>)
    ensures |all| > 0
  {
    Recorded(topType, r.entries, r.now)
  }

  /** The stored conditions after the first `n` rounds over a list that may be anything. */
  ghost function After(topType: string, first: seq<Condition>, rounds: seq<Round>, n: nat): seq<Condition>
    requires n <= |rounds|
  {
    if n == 0 then first
    else
      var r, before := rounds[n - 1], After(topType, first, rounds, n - 1);
      RoundConditions(Finish(topType, before, r.entries, r.now).conditions, r.round)
  }

  ghost predicate DistinctRounds(topType: string, rounds: seq<Round>) {
    forall i :: 0 <= i < |rounds| ==> DistinctTypes(Contents(topType, rounds[i]))
  }

  // ---------- stretches ----------

  /** Entry `j` of the round has the content of `c`. */
  ghost predicate Holds(topType: string, r: Round, c: Condition, j: int) {
    var all := Contents(topType, r);
    0 <= j < |all| && Same(all[j].condition, c)
  }

  /** `m` is the last condition of the first list with the content of `c`. */
  ghost predicate HoldsFirst(first: seq<Condition>, c: Condition, m: int) {
    0 <= m < |first| && Same(first[m], c) && forall l :: m < l < |first| ==> !Same(first[l], c)
  }

  /** Content `c` is there in round `i`; round -1 is the first list. */
  ghost predicate Present(topType: string, first: seq<Condition>, rounds: seq<Round>, c: Condition, i: int)
    requires -1 <= i < |rounds|
  {
    if i == -1 then exists p :: p in first && Same(p, c) else exists j :: Holds(topType, rounds[i], c, j)
  }

  /**
   The unbroken stretch of rounds up to `n` in which content `c` was present begins at `k`, possibly with the
   first list. A round in which nothing was added always starts afresh.
   */
  ghost predicate StretchStart(topType: string, first: seq<Condition>, rounds: seq<Round>, c: Condition, k: int,
                               n: int) {
    && -1 <= k <= n < |rounds| && 0 <= n
    && (forall i :: k <= i <= n ==> Present(topType, first, rounds, c, i))
    && (forall i :: k < i <= n ==> rounds[i].entries != [])
    && (k == -1 || !Present(topType, first, rounds, c, k - 1) || rounds[k].entries == [])
  }

  /** `t` is when content `c` was recorded at the beginning of the stretch. */
  ghost predicate Origin(topType: string, first: seq<Condition>, rounds: seq<Round>, c: Condition, k: int, t: Time)
    requires -1 <= k < |rounds|
  {
    if k == -1 then exists m :: HoldsFirst(first, c, m) && t == first[m].time
    else exists j :: Holds(topType, rounds[k], c, j) && t == Contents(topType, rounds[k])[j].now
  }

  /** A time that is stored at the end of each round from `k` to `n`. */
  function Kept(rounds: seq<Round>, k: int, n: int, t: Time): Time
    requires 0 <= k && n < |rounds|
    decreases n - k
  {
    if n < k then t else rounds[n].round(Kept(rounds, k, n - 1, t))
  }

  function StoreFrom(k: int): int {
    if k == -1 then 0 else k
  }

  /** If storage rounds the same way every time, and rounding twice is rounding once, one rounding remains. */
  lemma {:induction false} KeptOnce(rounds: seq<Round>, k: int, n: int, t: Time, round: Time -> Time)
    requires 0 <= k <= n < |rounds| && forall i :: k <= i <= n ==> rounds[i].round == round
    requires forall u :: round(round(u)) == round(u)
    ensures Kept(rounds, k, n, t) == round(t)
    decreases n - k
  {
    if k < n {
      KeptOnce(rounds, k, n - 1, t, round);
    } else {
      assert Kept(rounds, k, n - 1, t) == t;
    }
  }

  // ---------- one round ----------

  /** The round after the first `n`: recorded as added, or carried over from before, and then stored. */
  lemma AfterRound(topType: string, first: seq<Condition>, rounds: seq<Round>, n: nat)
    requires n < |rounds|
    ensures Lists(After(topType, first, rounds, n + 1), Contents(topType, rounds[n]))
    ensures forall i :: 0 <= i < |Contents(topType, rounds[n])| ==>
              var e := Contents(topType, rounds[n])[i];
              After(topType, first, rounds, n + 1)[i].time
              == rounds[n].round(if rounds[n].entries == [] then e.now
                                 else Carried(After(topType, first, rounds, n), e.condition, e.now).time)
  {
    hide TallyOf, Carried;
    FinishKeepsContent(topType, After(topType, first, rounds, n), rounds[n].entries, rounds[n].now);
  }

  /** Content that was not there in the round before is recorded at the time it is added. */
  lemma AbsentIsNew(topType: string, first: seq<Condition>, rounds: seq<Round>, n: nat, e: Entry)
    requires n < |rounds| && !Present(topType, first, rounds, e.condition, n - 1)
    ensures Carried(After(topType, first, rounds, n), e.condition, e.now) == e.condition.(time := e.now)
  {
    hide Finish, Contents;
    var before := After(topType, first, rounds, n);
    if n > 0 {
      AfterRound(topType, first, rounds, n - 1);
      forall p | p in before ensures !Same(p, e.condition) {
        var m :| 0 <= m < |before| && before[m] == p;
        assert !Holds(topType, rounds[n - 1], e.condition, m);
      }
    }
    CarriedIsPreviousOrNew(before, e.condition, e.now);
  }

  lemma {:induction false} CarriedIsLast(first: seq<Condition>, c: Condition, now: Time) returns (m: int)
    requires exists p :: p in first && Same(p, c)
    ensures HoldsFirst(first, c, m) && Carried(first, c, now) == first[m]
  {
    m := |first| - 1;
    if !Same(first[m], c) {
      var init := first[..m];
      assert first == init + [first[m]];
      m := CarriedIsLast(init, c, now);
    }
  }

  lemma OnlyOneCarried(before: seq<Condition>, earlier: seq<Entry>, c: Condition, now: Time, m: int)
    requires Lists(before, earlier) && DistinctTypes(earlier)
    requires 0 <= m < |before| && Same(before[m], c)
    ensures Carried(before, c, now) == before[m]
  {
    CarriedIsPreviousOrNew(before, c, now);
    var r := Carried(before, c, now);
    assert before[m] in before;
    var q :| 0 <= q < |before| && before[q] == r;
    assert earlier[q].condition.ctype == earlier[m].condition.ctype;
  }

  /** A stretch extends to a round in which its content is added again. */
  lemma StretchExtends(topType: string, first: seq<Condition>, rounds: seq<Round>, c: Condition, d: Condition, k: int,
                       n: int)
    requires Same(c, d) && StretchStart(topType, first, rounds, c, k, n)
    requires n + 1 < |rounds| && Present(topType, first, rounds, d, n + 1) && rounds[n + 1].entries != []
    ensures StretchStart(topType, first, rounds, d, k, n + 1)
    ensures forall t :: Origin(topType, first, rounds, c, k, t) ==> Origin(topType, first, rounds, d, k, t)
  {
    hide Contents;
    assert forall p :: Same(p, c) == Same(p, d);
    forall i | 0 <= i < |rounds|
      ensures forall j :: Holds(topType, rounds[i], c, j) == Holds(topType, rounds[i], d, j)
    {
    }
    forall i | -1 <= i < |rounds|
      ensures Present(topType, first, rounds, c, i) == Present(topType, first, rounds, d, i)
    {
    }
    forall t | Origin(topType, first, rounds, c, k, t) ensures Origin(topType, first, rounds, d, k, t) {
      if k == -1 {
        var m :| HoldsFirst(first, c, m) && t == first[m].time;
        assert HoldsFirst(first, d, m);
      } else {
        var j :| Holds(topType, rounds[k], c, j) && t == Contents(topType, rounds[k])[j].now;
        assert Holds(topType, rounds[k], d, j);
      }
    }
  }

  // ---------- the law ----------

  lemma {:induction false} FindStretch(topType: string, first: seq<Condition>, rounds: seq<Round>, n: nat, i: nat)
    returns (k: int, t: Time)
    requires n < |rounds| && DistinctRounds(topType, rounds)
    requires i < |Contents(topType, rounds[n])|
    ensures |After(topType, first, rounds, n + 1)| == |Contents(topType, rounds[n])|
    ensures var c := Contents(topType, rounds[n])[i].condition;
            && StretchStart(topType, first, rounds, c, k, n) && Origin(topType, first, rounds, c, k, t)
            && After(topType, first, rounds, n + 1)[i] == c.(time := Kept(rounds, StoreFrom(k), n, t))
    decreases n
  {
    hide Finish, Carried, Contents, After, DistinctTypes;
    var e := Contents(topType, rounds[n])[i];
    AfterRound(topType, first, rounds, n);
    assert Holds(topType, rounds[n], e.condition, i);
    assert Present(topType, first, rounds, e.condition, n);
    if rounds[n].entries == [] || !Present(topType, first, rounds, e.condition, n - 1) {
      k, t := n, e.now;
      assert Kept(rounds, n, n - 1, t) == t;
      if rounds[n].entries != [] {
        AbsentIsNew(topType, first, rounds, n, e);
      }
    } else if n == 0 {
      k, t := FirstStretch(topType, first, rounds, e);
    } else {
      var m :| Holds(topType, rounds[n - 1], e.condition, m);
      var earlier := Contents(topType, rounds[n - 1]);
      k, t := FindStretch(topType, first, rounds, n - 1, m);
      AfterRound(topType, first, rounds, n - 1);
      OnlyOneCarried(After(topType, first, rounds, n), earlier, e.condition, e.now, m);
      StretchExtends(topType, first, rounds, earlier[m].condition, e.condition, k, n - 1);
    }
  }

  /** In the first round, content that the first list has is carried over from there. */
  lemma FirstStretch(topType: string, first: seq<Condition>, rounds: seq<Round>, e: Entry) returns (k: int, t: Time)
    requires |rounds| > 0 && rounds[0].entries != []
    requires Present(topType, first, rounds, e.condition, -1) && Present(topType, first, rounds, e.condition, 0)
    ensures k == -1 && StretchStart(topType, first, rounds, e.condition, k, 0)
    ensures Origin(topType, first, rounds, e.condition, k, t)
    ensures rounds[0].round(Carried(After(topType, first, rounds, 0), e.condition, e.now).time) == Kept(rounds, 0, 0, t)
  {
    hide Contents;
    var m := CarriedIsLast(first, e.condition, e.now);
    k, t := -1, first[m].time;
    assert Kept(rounds, 0, -1, t) == t;
  }

  lemma StretchIsUnique(topType: string, first: seq<Condition>, rounds: seq<Round>, c: Condition, k: int, n: int)
    requires StretchStart(topType, first, rounds, c, k, n)
    ensures forall l :: StretchStart(topType, first, rounds, c, l, n) ==> l == k
  {
    hide Present;
  }

  lemma OriginIsUnique(topType: string, first: seq<Condition>, rounds: seq<Round>, c: Condition, k: int, t: Time,
                       u: Time)
    requires -1 <= k < |rounds| && DistinctRounds(topType, rounds)
    requires Origin(topType, first, rounds, c, k, t) && Origin(topType, first, rounds, c, k, u)
    ensures t == u
  {
    hide Contents;
    if k >= 0 {
      assert DistinctTypes(Contents(topType, rounds[k]));
      var i :| Holds(topType, rounds[k], c, i) && t == Contents(topType, rounds[k])[i].now;
      var j :| Holds(topType, rounds[k], c, j) && u == Contents(topType, rounds[k])[j].now;
      assert i == j;
    }
  }

  /**
   The stored transition time of a condition is the clock reading of its entry in the first round of the latest
   unbroken stretch in which its type was present with the same status, reason and message, or the time it
   had in the first list if the stretch goes back there; each as storage keeps it.
   */
  lemma TimestampHistory(topType: string, first: seq<Condition>, rounds: seq<Round>, n: nat, i: nat)
    requires n < |rounds| && DistinctRounds(topType, rounds)
    requires i < |Contents(topType, rounds[n])|
    ensures var c, r := Contents(topType, rounds[n])[i].condition, After(topType, first, rounds, n + 1);
            && |r| == |Contents(topType, rounds[n])|
            && (exists k :: StretchStart(topType, first, rounds, c, k, n))
            && (forall k, t :: StretchStart(topType, first, rounds, c, k, n)
                               && Origin(topType, first, rounds, c, k, t) ==>
                  r[i] == c.(time := Kept(rounds, StoreFrom(k), n, t)))
  {
    hide Present, Origin, After, Contents, Kept;
    var c := Contents(topType, rounds[n])[i].condition;
    var k, t := FindStretch(topType, first, rounds, n, i);
    StretchIsUnique(topType, first, rounds, c, k, n);
    forall u | Origin(topType, first, rounds, c, k, u) ensures u == t {
      OriginIsUnique(topType, first, rounds, c, k, t, u);
    }
  }
}
