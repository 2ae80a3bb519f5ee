/**
 Several workers submitting mutable objects through one cache, interleaved with each other and with
 writes by others. A worker fetches, checks the cache, writes, and records what was persisted, each as
 a separate step.
 */
module Interleaving {
  import opened Common
  import opened Json
  import opened Api
  import opened Submission

  datatype Worker =
    | Idle
    | Fetched(s: Submission, found: Option<Option<Json>>)
    | Missed(s: Submission, found: Option<Option<Json>>)
    | Wrote(s: Submission, persisted: Option<Json>)

  datatype System = System(cluster: Cluster, cache: CacheState, workers: seq<Worker>)

  datatype Action =
    | Fetch(w: nat, s: Submission)
    | Check(w: nat)
    | Write(w: nat)
    | LoseReply(w: nat)
    | Save(w: nat)
    | Fail(w: nat)
    | Foreign(ref: ObjectRef, spec: Option<Option<Json>>)

  /** The spec a write leaves; none if the API server refuses it. */
  function WriteResult(admit: Server, cluster: Cluster, s: Submission,
                       found: Option<Option<Json>>): Option<Option<Json>> {
    if found.Some? then
      if s.ref in cluster then Some(Patched(admit, cluster[s.ref], found.value, s)) else None
    else
      if s.ref in cluster then None else Some(Made(admit, s))
  }

  predicate CheckHits(sys: System, w: nat) {
    && w < |sys.workers| && sys.workers[w].Fetched? && sys.workers[w].found.Some?
    && Hit(sys.cache, sys.workers[w].s, sys.workers[w].found.value, "")
  }

  function Become(sys: System, w: nat, next: Worker): System
    requires w < |sys.workers|
  {
    sys.(workers := sys.workers[w := next])
  }

  /** A write step; the worker learns of it unless the reply is lost. */
  function WriteStep(admit: Server, sys: System, w: nat, replied: bool): System
    requires w < |sys.workers| && sys.workers[w].Missed?
  {
    var s := sys.workers[w].s;
    var r := WriteResult(admit, sys.cluster, s, sys.workers[w].found);
    if r.None? then Become(sys, w, Idle)
    else Become(sys.(cluster := sys.cluster[s.ref := r.value]), w, if replied then Wrote(s, r.value) else Idle)
  }

  /** One step; with `cached` false the cache is never consulted, so every submission is written. */
  function Next(admit: Server, cached: bool, sys: System, a: Action): System {
    if a.Foreign? then
      if a.spec.None? then sys.(cluster := sys.cluster - {a.ref})
      else if Clean(a.spec.value) then sys.(cluster := sys.cluster[a.ref := a.spec.value])
      else sys
    else if a.w >= |sys.workers| then sys
    else
      var worker := sys.workers[a.w];
      match a
      case Fetch(w, s) => if worker.Idle? then Become(sys, w, Fetched(s, Get(sys.cluster, s.ref))) else sys
      case Check(w) =>
        if !worker.Fetched? then sys
        else if cached && CheckHits(sys, w) then Become(sys, w, Idle)
        else Become(sys, w, Missed(worker.s, worker.found))
      case Write(w) => if worker.Missed? then WriteStep(admit, sys, w, true) else sys
      case LoseReply(w) => if worker.Missed? then WriteStep(admit, sys, w, false) else sys
      case Save(w) =>
        if worker.Wrote? then Become(sys.(cache := Recorded(sys.cache, worker.s, worker.persisted, "")), w, Idle)
        else sys
      case Fail(w) => Become(sys, w, Idle)
  }

  function Run(admit: Server, cached: bool, sys: System, actions: seq<Action>): System {
    if actions == [] then sys
    else Next(admit, cached, Run(admit, cached, sys, actions[..|actions| - 1]), actions[|actions| - 1])
  }

  /** The patch this worker is about to send lands, or its object is gone. */
  predicate WriteLands(sys: System, w: nat) {
    w < |sys.workers| && sys.workers[w].Missed? && sys.workers[w].found.Some? ==>
      var worker := sys.workers[w];
      worker.s.ref in sys.cluster ==> PatchLands(sys.cluster[worker.s.ref], worker.found.value, worker.s)
  }

  /** The patch that this worker is about to spare would leave the object as it is, or the object is gone. */
  predicate SparesNothing(admit: Server, sys: System, w: nat) {
    w < |sys.workers| && sys.workers[w].Fetched? && sys.workers[w].found.Some? ==>
      var worker := sys.workers[w];
      worker.s.ref in sys.cluster ==>
        Patched(admit, sys.cluster[worker.s.ref], worker.found.value, worker.s) == sys.cluster[worker.s.ref]
  }

  /** What is written between a worker's read and its patch leaves alone what the patch relies on. */
  predicate LandingRun(admit: Server, sys: System, actions: seq<Action>) {
    forall i :: 0 <= i < |actions| && actions[i].Write? ==>
      WriteLands(Run(admit, true, sys, actions[..i]), actions[i].w)
  }

  /** Wherever a submission is spared, the patch would have left the object as it is. */
  predicate SparingRun(admit: Server, sys: System, actions: seq<Action>) {
    forall i :: 0 <= i < |actions| && actions[i].Check?
                && CheckHits(Run(admit, true, sys, actions[..i]), actions[i].w) ==>
      SparesNothing(admit, Run(admit, true, sys, actions[..i]), actions[i].w)
  }

  // ---------- the cache stays faithful ----------

  ghost predicate WorkerOk(admit: Server, worker: Worker) {
    match worker
    case Idle => true
    case Fetched(_, found) => found.Some? ==> Clean(found.value)
    case Missed(_, found) => found.Some? ==> Clean(found.value)
    case Wrote(s, persisted) => persisted == Made(admit, s)
  }

  ghost predicate Inv(admit: Server, sys: System) {
    && StoresClean(admit) && Faithful(admit, sys.cache) && CleanCluster(sys.cluster)
    && forall w :: 0 <= w < |sys.workers| ==> WorkerOk(admit, sys.workers[w])
  }

  lemma WriteKeepsInv(admit: Server, sys: System, w: nat, replied: bool)
    requires Inv(admit, sys) && w < |sys.workers| && sys.workers[w].Missed?
    requires replied ==> WriteLands(sys, w)
    ensures Inv(admit, WriteStep(admit, sys, w, replied))
  {
    hide Made, Patched, Faithful, Clean, StoresClean, PatchLands;
    var worker := sys.workers[w];
    assert WorkerOk(admit, worker);
    MadeIsClean(admit, worker.s);
    if worker.found.Some? && worker.s.ref in sys.cluster {
      PatchedIsClean(admit, sys.cluster[worker.s.ref], worker.found.value, worker.s);
      if replied {
        LandedPatch(admit, sys.cluster[worker.s.ref], worker.found.value, worker.s);
      }
    }
  }

  lemma StepKeepsInv(admit: Server, sys: System, a: Action)
    requires Inv(admit, sys) && (a.Write? ==> WriteLands(sys, a.w))
    ensures Inv(admit, Next(admit, true, sys, a))
  {
    hide Made, Patched, Clean, WriteStep, Hit, StoresClean, Faithful, WriteLands;
    if !a.Foreign? && a.w < |sys.workers| {
      assert WorkerOk(admit, sys.workers[a.w]);
      if (a.Write? || a.LoseReply?) && sys.workers[a.w].Missed? {
        WriteKeepsInv(admit, sys, a.w, a.Write?);
      } else if a.Save? && sys.workers[a.w].Wrote? {
        RecordingIsFaithful(admit, sys.cache, sys.workers[a.w].s, "");
      }
    }
  }

  /**
   Over every interleaving in which the patches land, each cache entry's persisted spec is what the
   server makes of its submission, whatever else is written before, between and after.
   */
  lemma {:induction false} RunKeepsInv(admit: Server, sys: System, actions: seq<Action>)
    requires Inv(admit, sys) && LandingRun(admit, sys, actions)
    ensures Inv(admit, Run(admit, true, sys, actions))
  {
    hide Inv, Next, WriteLands;
    if actions != [] {
      var n := |actions| - 1;
      ShorterLanding(admit, sys, actions);
      RunKeepsInv(admit, sys, actions[..n]);
      StepKeepsInv(admit, Run(admit, true, sys, actions[..n]), actions[n]);
    }
  }

  lemma ShorterLanding(admit: Server, sys: System, actions: seq<Action>)
    requires actions != [] && LandingRun(admit, sys, actions)
    ensures LandingRun(admit, sys, actions[..|actions| - 1])
    ensures var n := |actions| - 1;
            actions[n].Write? ==> WriteLands(Run(admit, true, sys, actions[..n]), actions[n].w)
  {
    hide WriteLands, Run;
    var init := actions[..|actions| - 1];
    forall i | 0 <= i < |init| && init[i].Write? ensures WriteLands(Run(admit, true, sys, init[..i]), init[i].w) {
      assert init[..i] == actions[..i];
    }
  }

  lemma PrefixLanding(admit: Server, sys: System, actions: seq<Action>, n: nat)
    requires n <= |actions| && LandingRun(admit, sys, actions)
    ensures LandingRun(admit, sys, actions[..n])
  {
    hide WriteLands, Run;
    assert forall i :: 0 <= i < n ==> actions[..n][..i] == actions[..i];
  }

  lemma PrefixSparing(admit: Server, sys: System, actions: seq<Action>, n: nat)
    requires n <= |actions| && SparingRun(admit, sys, actions)
    ensures SparingRun(admit, sys, actions[..n])
  {
    hide SparesNothing, CheckHits, Run;
    assert forall i :: 0 <= i < n ==> actions[..n][..i] == actions[..i];
  }

  // ---------- sparing a submission is as good as making it ----------

  /** The same schedule for workers that always submit: where the cache spared a write, they write. */
  function Expand(admit: Server, sys: System, actions: seq<Action>): seq<Action> {
    if actions == [] then []
    else
      var init, last := actions[..|actions| - 1], actions[|actions| - 1];
      Expand(admit, sys, init)
      + if last.Check? && CheckHits(Run(admit, true, sys, init), last.w) then [last, Write(last.w), Save(last.w)]
        else [last]
  }

  /** Equal but for what the cache holds. */
  predicate Alike(x: System, y: System) {
    x.cluster == y.cluster && x.workers == y.workers
  }

  lemma StepAlike(admit: Server, x: System, y: System, a: Action)
    requires Alike(x, y) && !(a.Check? && CheckHits(x, a.w))
    ensures Alike(Next(admit, true, x, a), Next(admit, false, y, a))
  {
    hide Made, Patched, Clean, Hit;
  }

  /** What a worker that always submits does instead of sparing. */
  function Submitted(admit: Server, y: System, w: nat): System {
    Next(admit, false, Next(admit, false, Next(admit, false, y, Check(w)), Write(w)), Save(w))
  }

  /** Where the cache spares a write, writing leaves cluster and worker just the same exactly if the patch does. */
  lemma SparedIsSubmittedExactly(admit: Server, x: System, y: System, w: nat)
    requires Alike(x, y) && CheckHits(x, w)
    ensures Alike(Next(admit, true, x, Check(w)), Submitted(admit, y, w)) <==> SparesNothing(admit, x, w)
  {
    hide Made, Patched, Clean, Hit, Recorded;
    var worker := x.workers[w];
    var y1 := Next(admit, false, y, Check(w));
    assert y1.workers[w] == Missed(worker.s, worker.found);
    var y2 := Next(admit, false, y1, Write(w));
    var y3 := Next(admit, false, y2, Save(w));
    assert y3.workers == x.workers[w := Idle] && y3.cluster == y2.cluster;
    if worker.s.ref in x.cluster {
      var p := Patched(admit, x.cluster[worker.s.ref], worker.found.value, worker.s);
      assert y2.cluster == x.cluster[worker.s.ref := p];
      assert p == x.cluster[worker.s.ref] ==> y2.cluster == x.cluster;
      assert y2.cluster[worker.s.ref] == p;
    }
  }

  /** The object still has the spec that the worker read, or is gone. */
  predicate Unspoilt(sys: System, w: nat) {
    w < |sys.workers| && sys.workers[w].Fetched? && sys.workers[w].found.Some? ==>
      var worker := sys.workers[w];
      worker.s.ref in sys.cluster ==> sys.cluster[worker.s.ref] == worker.found.value
  }

  lemma UnspoiltSpares(admit: Server, x: System, w: nat)
    requires Inv(admit, x) && CheckHits(x, w) && Unspoilt(x, w)
    ensures SparesNothing(admit, x, w)
  {
    hide Made, Patched, Clean, Hit, StoresClean;
    var worker := x.workers[w];
    assert WorkerOk(admit, worker);
    HitIsRight(admit, x.cache, worker.s, worker.found.value, "");
    UndisturbedPatch(admit, worker.found.value, worker.s);
  }

  /**
   Over a faithful cache, with patches that land, no spared patch would have changed anything
   as long as nobody writes between a read and a spared submission.
   */
  lemma FaithfulCacheSpares(admit: Server, sys: System, actions: seq<Action>)
    requires Inv(admit, sys) && LandingRun(admit, sys, actions)
    requires forall i :: 0 <= i < |actions| && actions[i].Check? ==>
               Unspoilt(Run(admit, true, sys, actions[..i]), actions[i].w)
    ensures SparingRun(admit, sys, actions)
  {
    hide Inv, LandingRun, Run, CheckHits, Unspoilt, SparesNothing;
    forall i | 0 <= i < |actions| && actions[i].Check?
               && CheckHits(Run(admit, true, sys, actions[..i]), actions[i].w)
      ensures SparesNothing(admit, Run(admit, true, sys, actions[..i]), actions[i].w)
    {
      PrefixLanding(admit, sys, actions, i);
      RunKeepsInv(admit, sys, actions[..i]);
      UnspoiltSpares(admit, Run(admit, true, sys, actions[..i]), actions[i].w);
    }
  }

  lemma RunAppend1(admit: Server, cached: bool, sys: System, actions: seq<Action>, a: Action)
    ensures Run(admit, cached, sys, actions + [a]) == Next(admit, cached, Run(admit, cached, sys, actions), a)
  {
    hide Next;
    var r1 := actions + [a];
    assert r1[..|r1| - 1] == actions;
  }

  lemma RunAppend3(admit: Server, cached: bool, sys: System, actions: seq<Action>, a: Action, b: Action, c: Action)
    ensures Run(admit, cached, sys, actions + [a, b, c])
            == Next(admit, cached, Next(admit, cached, Next(admit, cached, Run(admit, cached, sys, actions), a), b), c)
  {
    hide Next, Run;
    assert actions + [a, b, c] == actions + [a] + [b] + [c];
    RunAppend1(admit, cached, sys, actions + [a] + [b], c);
    RunAppend1(admit, cached, sys, actions + [a], b);
    RunAppend1(admit, cached, sys, actions, a);
  }

  /** The systems with and without the cache after the first `n` actions. */
  ghost predicate AlikeAfter(admit: Server, sys: System, actions: seq<Action>, n: nat)
    requires n <= |actions|
  {
    Alike(Run(admit, true, sys, actions[..n]), Run(admit, false, sys, Expand(admit, sys, actions[..n])))
  }

  /** One more action keeps the systems alike, unless it spares a patch that would have changed something. */
  lemma AlikeStep(admit: Server, sys: System, actions: seq<Action>, n: nat)
    requires n < |actions| && AlikeAfter(admit, sys, actions, n)
    ensures var x, a := Run(admit, true, sys, actions[..n]), actions[n];
            AlikeAfter(admit, sys, actions, n + 1)
            <==> (a.Check? && CheckHits(x, a.w) ==> SparesNothing(admit, x, a.w))
  {
    hide Next, Alike, CheckHits, SparesNothing;
    var init, more, a := actions[..n], actions[..n + 1], actions[n];
    assert more[..|more| - 1] == init && more[|more| - 1] == a;
    var x, y := Run(admit, true, sys, init), Run(admit, false, sys, Expand(admit, sys, init));
    if a.Check? && CheckHits(x, a.w) {
      SparedIsSubmittedExactly(admit, x, y, a.w);
      RunAppend3(admit, false, sys, Expand(admit, sys, init), a, Write(a.w), Save(a.w));
    } else {
      StepAlike(admit, x, y, a);
      RunAppend1(admit, false, sys, Expand(admit, sys, init), a);
    }
  }

  /**
   The cache refines always submitting: every interleaving leaves the very cluster that the same schedule leaves
   when nothing is ever spared, if no spared patch would have changed anything.
   */
  lemma {:induction false} CacheRefinesAlwaysSubmit(admit: Server, sys: System, actions: seq<Action>)
    requires SparingRun(admit, sys, actions)
    ensures Alike(Run(admit, true, sys, actions), Run(admit, false, sys, Expand(admit, sys, actions)))
  {
    hide Next, Alike, CheckHits, SparesNothing, Expand;
    assert actions[..|actions|] == actions;
    if actions == [] {
      NothingExpanded(admit, sys);
    } else {
      var n := |actions| - 1;
      PrefixSparing(admit, sys, actions, n);
      CacheRefinesAlwaysSubmit(admit, sys, actions[..n]);
      AlikeStep(admit, sys, actions, n);
    }
  }

  lemma NothingExpanded(admit: Server, sys: System)
    ensures Alike(Run(admit, true, sys, []), Run(admit, false, sys, Expand(admit, sys, [])))
  {
  }

  /** And only then: the cluster is the same at every point exactly if no spared patch would have changed anything. */
  lemma RefinementExactly(admit: Server, sys: System, actions: seq<Action>)
    ensures (forall n :: 0 <= n <= |actions| ==> AlikeAfter(admit, sys, actions, n))
            <==> SparingRun(admit, sys, actions)
  {
    hide Next, Alike, CheckHits, SparesNothing, Run, Expand;
    if SparingRun(admit, sys, actions) {
      forall n | 0 <= n <= |actions| ensures AlikeAfter(admit, sys, actions, n) {
        PrefixSparing(admit, sys, actions, n);
        CacheRefinesAlwaysSubmit(admit, sys, actions[..n]);
      }
    }
    if forall n :: 0 <= n <= |actions| ==> AlikeAfter(admit, sys, actions, n) {
      forall i | 0 <= i < |actions|
        ensures actions[i].Check? && CheckHits(Run(admit, true, sys, actions[..i]), actions[i].w) ==>
                  SparesNothing(admit, Run(admit, true, sys, actions[..i]), actions[i].w)
      {
        assert AlikeAfter(admit, sys, actions, i) && AlikeAfter(admit, sys, actions, i + 1);
        AlikeStep(admit, sys, actions, i);
      }
    }
  }

  /** A worker on its own does what the repository does in one call. */
  lemma OneWorkerAlone(admit: Server, cluster: Cluster, cache: CacheState, s: Submission)
    requires Inv(admit, System(cluster, cache, [Idle]))
    ensures var hit := s.ref in cluster && Hit(cache, s, cluster[s.ref], "");
            Run(admit, true, System(cluster, cache, [Idle]), [Fetch(0, s)] + [Check(0), Write(0), Save(0)])
            == System(cluster[s.ref := Made(admit, s)],
                      if hit then cache else Recorded(cache, s, Made(admit, s), ""), [Idle])
  {
    hide Made, Patched, Clean, Hit, Run, StoresClean, Recorded;
    var before := System(cluster, cache, [Idle]);
    RunAppend3(admit, true, before, [Fetch(0, s)], Check(0), Write(0), Save(0));
    RunOne(admit, before, Fetch(0, s));
    var s1 := Next(admit, true, before, Fetch(0, s));
    assert s1 == System(cluster, cache, [Fetched(s, Get(cluster, s.ref))]);
    if s.ref in cluster {
      UndisturbedPatch(admit, cluster[s.ref], s);
      if Hit(cache, s, cluster[s.ref], "") {
        HitIsRight(admit, cache, s, cluster[s.ref], "");
        assert cluster == cluster[s.ref := cluster[s.ref]];
      }
    }
    var s2 := Next(admit, true, s1, Check(0));
    var s3 := Next(admit, true, s2, Write(0));
    assert CheckHits(s1, 0) ==> s2.workers == [Idle];
    assert !CheckHits(s1, 0) ==>
        s2.workers == [Missed(s, Get(cluster, s.ref))] && s3.workers == [Wrote(s, Made(admit, s))];
  }

  lemma RunOne(admit: Server, before: System, a: Action)
    ensures Run(admit, true, before, [a]) == Next(admit, true, before, a)
  {
    hide Next;
    assert [a] == [] + [a];
    RunAppend1(admit, true, before, [], a);
  }

  // ---------- what a disturbance does ----------

  /** A patch between equal specs is empty, so it leaves whatever is there. */
  lemma EmptyPatch(admit: Server, z: Json, s: Submission)
    requires s.spec.Some? && admit(s.ref.gvk, z) == z
    ensures Patched(admit, Some(z), s.spec, s) == Some(z)
  {
    assert Diff(Body(s.spec), Body(s.spec)).members == map[];
    assert Apply(Some(Body(Some(z))), Diff(Body(s.spec), Body(s.spec))).members == map["spec" := z];
  }

  /**
   There is no optimistic lock: a spec `z` that someone writes between a worker's read and its patch can
   survive the patch, is then recorded as persisted, and from then on passes for what was submitted.
   */
  lemma ForeignWriteSurvives(admit: Server, s: Submission, z: Json)
    requires s.spec.Some? && Clean(Some(z)) && admit(s.ref.gvk, z) == z && Made(admit, s) != Some(z)
    ensures var before := System(map[s.ref := s.spec], EMPTY_CACHE, [Idle]);
            var after := Run(admit, true, before,
                             [Fetch(0, s), Check(0)] + [Foreign(s.ref, Some(Some(z))), Write(0), Save(0)]);
            && after.cluster == map[s.ref := Some(z)]
            && !Faithful(admit, after.cache)
            && Hit(after.cache, s, Some(z), "")
  {
    hide Key, Made, Patched, Clean, Run;
    var before := System(map[s.ref := s.spec], EMPTY_CACHE, [Idle]);
    var a0, a1, a2, a3, a4 := Fetch(0, s), Check(0), Foreign(s.ref, Some(Some(z))), Write(0), Save(0);
    EmptyPatch(admit, z, s);
    RunStart(admit, before, a0, a1);
    RunAppend3(admit, true, before, [a0, a1], a2, a3, a4);
    var s2 := Next(admit, true, Next(admit, true, before, a0), a1);
    assert s2 == System(before.cluster, EMPTY_CACHE, [Missed(s, Some(s.spec))]);
    var s3 := Next(admit, true, s2, a2);
    assert s3 == System(map[s.ref := Some(z)], EMPTY_CACHE, [Missed(s, Some(s.spec))]);
    var s4 := Next(admit, true, s3, a3);
    assert s4 == System(map[s.ref := Some(z)], EMPTY_CACHE, [Wrote(s, Some(z))]);
    var s5 := Next(admit, true, s4, a4);
    assert s5.cache == Recorded(EMPTY_CACHE, s, Some(z), "");
    assert Key(s, "") in s5.cache.submitted;
  }

  /** A worker that read `read`, when someone writes `z` before it patches and records. */
  ghost function Disturbed(admit: Server, s: Submission, read: Option<Json>, z: Option<Json>): System {
    Run(admit, true, System(map[s.ref := read], EMPTY_CACHE, [Missed(s, Some(read))]),
        [Foreign(s.ref, Some(z)), Write(0), Save(0)])
  }

  /**
   Exactly when such a write does harm: the spec on the cluster and the recorded one are what the server makes of
   the submission, for every server, if and only if the patch lands on what was written.
   */
  lemma DisturbanceIsHarmlessExactly(s: Submission, read: Option<Json>, z: Option<Json>)
    requires Clean(read) && Clean(z)
    ensures (forall admit: Server :: StoresClean(admit) ==>
               && Disturbed(admit, s, read, z).cluster == map[s.ref := Made(admit, s)]
               && Faithful(admit, Disturbed(admit, s, read, z).cache))
            <==> PatchLands(z, read, s)
  {
    hide Patched, Made, Clean, PatchLands, StoresClean, Disturbed;
    PatchIsRightExactly(z, read, s);
    forall admit: Server ensures var d := Disturbed(admit, s, read, z);
                                 && d.cluster == map[s.ref := Patched(admit, z, read, s)]
                                 && (Faithful(admit, d.cache) <==> Patched(admit, z, read, s) == Made(admit, s))
    {
      DisturbedOutcome(admit, s, read, z);
    }
    forall admit: Server
      ensures (&& Disturbed(admit, s, read, z).cluster == map[s.ref := Made(admit, s)]
               && Faithful(admit, Disturbed(admit, s, read, z).cache))
              <==> Patched(admit, z, read, s) == Made(admit, s)
    {
      var d := Disturbed(admit, s, read, z);
      assert d.cluster[s.ref] == Patched(admit, z, read, s);
    }
  }

  lemma DisturbedOutcome(admit: Server, s: Submission, read: Option<Json>, z: Option<Json>)
    requires Clean(z)
    ensures var d, p := Disturbed(admit, s, read, z), Patched(admit, z, read, s);
            d.cluster == map[s.ref := p] && (Faithful(admit, d.cache) <==> p == Made(admit, s))
  {
    hide Key, Made, Patched, Clean, Run;
    var before := System(map[s.ref := read], EMPTY_CACHE, [Missed(s, Some(read))]);
    var p := Patched(admit, z, read, s);
    var a0, a1, a2 := Foreign(s.ref, Some(z)), Write(0), Save(0);
    assert [a0, a1, a2] == [] + [a0, a1, a2];
    RunAppend3(admit, true, before, [], a0, a1, a2);
    RunNothing(admit, before);
    var s1 := Next(admit, true, before, a0);
    assert s1 == System(map[s.ref := z], EMPTY_CACHE, [Missed(s, Some(read))]);
    var s2 := Next(admit, true, s1, a1);
    assert s2 == System(map[s.ref := p], EMPTY_CACHE, [Wrote(s, p)]);
    var s3 := Next(admit, true, s2, a2);
    assert s3.cache == Recorded(EMPTY_CACHE, s, p, "");
    assert Key(s, "") in s3.cache.submitted;
  }

  lemma RunNothing(admit: Server, before: System)
    ensures Run(admit, true, before, []) == before
  {
  }

  lemma RunStart(admit: Server, before: System, a0: Action, a1: Action)
    ensures Run(admit, true, before, [a0, a1]) == Next(admit, true, Next(admit, true, before, a0), a1)
  {
    hide Next;
    assert [a0, a1] == [a0] + [a1] && [a0] == [] + [a0];
    RunAppend1(admit, true, before, [a0], a1);
    RunAppend1(admit, true, before, [], a0);
  }
}
