/** Submitting stamped objects to the API server, with a cache that spares needless submissions. */
module Submission {
  import opened Common
  import opened Json
  import opened Api

  /** A stamped object as submitted; `rest` is everything besides identity, labels and spec. */
  datatype Submission = Submission(
    ref: ObjectRef,
    generateName: string,
    labels: map<string, string>,
    spec: Option<Json>,
    rest: Json)

  // ---------- the server, as far as specs are concerned ----------

  /** Admission: defaulting and the like, a deterministic function of the kind and the spec. */
  type Server = (Gvk, Json) -> Json

  /** What the server stores has no null members. */
  ghost predicate StoresClean(admit: Server) {
    forall g, j :: admit(g, j) != Null && NullFree(admit(g, j))
  }

  predicate Clean(spec: Option<Json>) {
    NullFree(Body(spec))
  }

  function Admit(admit: Server, g: Gvk, spec: Option<Json>): Option<Json> {
    if spec.None? then None else Some(admit(g, spec.value))
  }

  /** The spec that the server makes of a submission. */
  function Made(admit: Server, s: Submission): Option<Json> {
    Admit(admit, s.ref.gvk, SpecOf(Strip(Body(s.spec))))
  }

  /** The spec after the merge patch from what was read to what is submitted is applied to what is there. */
  function Patched(admit: Server, current: Option<Json>, read: Option<Json>, s: Submission): Option<Json> {
    Admit(admit, s.ref.gvk, SpecOf(Apply(Some(Body(current)), Diff(Body(read), Body(s.spec)))))
  }

  /** The patch from what was read to what is submitted lands on what is there. */
  predicate PatchLands(current: Option<Json>, read: Option<Json>, s: Submission) {
    Lands(Some(Body(current)), Body(read), Body(s.spec))
  }

  /** A patch that lands yields what the server makes of the submission, whoever wrote in between. */
  lemma LandedPatch(admit: Server, current: Option<Json>, read: Option<Json>, s: Submission)
    requires Clean(read) && PatchLands(current, read, s)
    ensures Patched(admit, current, read, s) == Made(admit, s)
  {
    LandsExactly(Some(Body(current)), Body(read), Body(s.spec));
  }

  /** Unless someone wrote in between, a patch lands. */
  lemma UndisturbedPatch(admit: Server, read: Option<Json>, s: Submission)
    requires Clean(read)
    ensures PatchLands(read, read, s)
    ensures Patched(admit, read, read, s) == Made(admit, s)
  {
    UndisturbedLands(Body(read), Body(s.spec));
    LandedPatch(admit, read, read, s);
  }

  /** Landing is also necessary: short of it, some server ends up with another spec. */
  lemma PatchIsRightExactly(current: Option<Json>, read: Option<Json>, s: Submission)
    requires Clean(read)
    ensures (forall admit: Server :: StoresClean(admit) ==> Patched(admit, current, read, s) == Made(admit, s))
            <==> PatchLands(current, read, s)
  {
    if PatchLands(current, read, s) {
      forall admit: Server | StoresClean(admit) ensures Patched(admit, current, read, s) == Made(admit, s) {
        LandedPatch(admit, current, read, s);
      }
    } else {
      UnlandedPatch(current, read, s);
      assert StoresClean(TELLING);
    }
  }

  /** A server that tells any two specs apart. */
  const TELLING: Server := (g, j) => Array([j])

  lemma SpecDecides(x: Json, y: Json)
    requires x.Object? && y.Object? && x.members.Keys <= {"spec"} && y.members.Keys <= {"spec"}
    ensures SpecOf(x) == SpecOf(y) <==> x == y
  {
    if SpecOf(x) == SpecOf(y) {
      assert x.members == y.members;
    }
  }

  lemma UnlandedPatch(current: Option<Json>, read: Option<Json>, s: Submission)
    requires Clean(read) && !PatchLands(current, read, s)
    ensures Patched(TELLING, current, read, s) != Made(TELLING, s)
  {
    LandsExactly(Some(Body(current)), Body(read), Body(s.spec));
    OnlySpecs(current, read, s);
    hide Apply, Diff, Strip, Body, PatchLands;
    SpecDecides(Apply(Some(Body(current)), Diff(Body(read), Body(s.spec))), Strip(Body(s.spec)));
  }

  lemma OnlySpecs(current: Option<Json>, read: Option<Json>, s: Submission)
    ensures var x, y := Apply(Some(Body(current)), Diff(Body(read), Body(s.spec))), Strip(Body(s.spec));
            x.Object? && y.Object? && x.members.Keys <= {"spec"} && y.members.Keys <= {"spec"}
  {
  }

  lemma MadeIsClean(admit: Server, s: Submission)
    requires StoresClean(admit)
    ensures Clean(Made(admit, s))
  {
  }

  lemma PatchedIsClean(admit: Server, current: Option<Json>, read: Option<Json>, s: Submission)
    requires StoresClean(admit)
    ensures Clean(Patched(admit, current, read, s))
  {
    hide Apply, Diff;
  }

  // ---------- the cache ----------

  datatype CacheState = CacheState(submitted: map<string, Submission>, persisted: map<string, Option<Json>>)

  const EMPTY_CACHE := CacheState(map[], map[])

  /** The key ignores group and version, and joins its parts with colons. */
  function Key(s: Submission, discriminant: string): string {
    var name := if s.ref.name == "" then s.generateName else s.ref.name;
    s.ref.namespace + ":" + s.ref.gvk.kind + ":" + name + ":" + discriminant
  }

  /** The name of the object, or what its name is generated from. */
  function NameOf(s: Submission): string {
    if s.ref.name != "" then s.ref.name else s.generateName
  }

  predicate NoColon(s: string) {
    forall i :: 0 <= i < |s| ==> s[i] != ':'
  }

  lemma {:induction false} FirstColon(a: string, x: string, b: string, y: string)
    requires NoColon(a) && NoColon(b) && a + ":" + x == b + ":" + y
    ensures a == b && x == y
  {
    var s, t := a + ":" + x, b + ":" + y;
    if a == "" || b == "" {
      assert s[0] == t[0];
      assert a == b == "";
      assert x == s[1..] && y == t[1..];
    } else {
      assert s[0] == a[0] && t[0] == b[0];
      assert s[1..] == a[1..] + ":" + x && t[1..] == b[1..] + ":" + y;
      FirstColon(a[1..], x, b[1..], y);
      assert a == [a[0]] + a[1..] && b == [b[0]] + b[1..];
    }
  }

  /** Who shares a cache entry: without colons, those of one namespace, kind, name and discriminant. */
  lemma KeysAgreeExactly(s: Submission, d: string, t: Submission, e: string)
    requires NoColon(s.ref.namespace) && NoColon(s.ref.gvk.kind) && NoColon(NameOf(s))
    requires NoColon(t.ref.namespace) && NoColon(t.ref.gvk.kind) && NoColon(NameOf(t))
    ensures Key(s, d) == Key(t, e)
            <==> && s.ref.namespace == t.ref.namespace && s.ref.gvk.kind == t.ref.gvk.kind
                 && NameOf(s) == NameOf(t) && d == e
  {
    KeyIs(s, d);
    KeyIs(t, e);
    if Key(s, d) == Key(t, e) {
      hide Key;
      var x, y := NameOf(s) + ":" + d, NameOf(t) + ":" + e;
      FirstColon(s.ref.namespace, s.ref.gvk.kind + ":" + x, t.ref.namespace, t.ref.gvk.kind + ":" + y);
      FirstColon(s.ref.gvk.kind, x, t.ref.gvk.kind, y);
      FirstColon(NameOf(s), d, NameOf(t), e);
    }
  }

  lemma KeyIs(s: Submission, d: string)
    ensures Key(s, d) == s.ref.namespace + ":" + (s.ref.gvk.kind + ":" + (NameOf(s) + ":" + d))
  {
  }

  function Recorded(c: CacheState, s: Submission, persisted: Option<Json>, discriminant: string): CacheState {
    var key := Key(s, discriminant);
    CacheState(c.submitted[key := s], c.persisted[key := persisted])
  }

  predicate SubmittedHit(c: CacheState, s: Submission, key: string) {
    key in c.submitted && c.submitted[key] == s
  }

  /** The persisted spec under a key; an unknown key has none. */
  function PersistedSpec(c: CacheState, key: string): Option<Json> {
    if key in c.persisted then c.persisted[key] else None
  }

  predicate PersistedHit(existing: Option<Json>, persisted: Option<Json>) {
    existing.Some? && persisted.Some? && existing == persisted
  }

  predicate Hit(c: CacheState, s: Submission, existing: Option<Json>, discriminant: string) {
    var key := Key(s, discriminant);
    SubmittedHit(c, s, key) && PersistedHit(existing, PersistedSpec(c, key))
  }

  /** Every entry pairs a submission with what the server makes of it. */
  ghost predicate Faithful(admit: Server, c: CacheState) {
    && c.submitted.Keys == c.persisted.Keys
    && forall key :: key in c.submitted ==> c.persisted[key] == Made(admit, c.submitted[key])
  }

  lemma RecordingIsFaithful(admit: Server, c: CacheState, s: Submission, discriminant: string)
    requires Faithful(admit, c)
    ensures Faithful(admit, Recorded(c, s, Made(admit, s), discriminant))
  {
    hide Made, Key;
  }

  /** A hit is never wrong, whatever other submissions share the key. */
  lemma HitIsRight(admit: Server, c: CacheState, s: Submission, existing: Option<Json>, discriminant: string)
    requires Faithful(admit, c) && Hit(c, s, existing, discriminant)
    ensures existing == Made(admit, s)
  {
    hide Made, Key;
  }

  class Cache {
    var state: CacheState

    constructor ()
      ensures state == EMPTY_CACHE
    {
      state := EMPTY_CACHE;
    }

    method Set(s: Submission, persisted: Option<Json>, discriminant: string)
      modifies this
      ensures state == Recorded(old(state), s, persisted, discriminant)
    {
      var key := Key(s, discriminant);
      state := state.(submitted := state.submitted[key := s]);
      state := state.(persisted := state.persisted[key := persisted]);
    }

    method UnchangedSinceCached(s: Submission, existing: Option<Json>) returns (hit: bool)
      ensures hit == Hit(state, s, existing, "")
    {
      var key := Key(s, "");
      if !SubmittedHit(state, s, key) {
        return false;
      }
      hit := PersistedHit(existing, PersistedSpec(state, key));
    }

    /** The position of the first listed object with the cached spec, or the length of the list. */
    method UnchangedSinceCachedFromList(s: Submission, listed: seq<Option<Json>>, discriminant: string) returns (k: nat)
      ensures k <= |listed|
      ensures k < |listed| ==> Hit(state, s, listed[k], discriminant)
      ensures forall i :: 0 <= i < k ==> !Hit(state, s, listed[i], discriminant)
    {
      hide Key;
      var key := Key(s, discriminant);
      if !SubmittedHit(state, s, key) {
        return |listed|;
      }
      var persisted := PersistedSpec(state, key);
      k := 0;
      while k < |listed|
        invariant k <= |listed|
        invariant forall i :: 0 <= i < k ==> !PersistedHit(listed[i], persisted)
      {
        if PersistedHit(listed[k], persisted) {
          return;
        }
        k := k + 1;
      }
    }
  }

  // ---------- the repository ----------

  /** The specs of the objects that exist. */
  type Cluster = map<ObjectRef, Option<Json>>

  ghost predicate CleanCluster(cluster: Cluster) {
    forall r :: r in cluster ==> Clean(cluster[r])
  }

  class Repository {
    const cache: Cache
    var cluster: Cluster

    constructor (cache: Cache, cluster: Cluster)
      ensures this.cache == cache && this.cluster == cluster
    {
      this.cache := cache;
      this.cluster := cluster;
    }

    ghost predicate Valid(admit: Server)
      reads this, cache
    {
      StoresClean(admit) && Faithful(admit, cache.state) && CleanCluster(cluster)
    }

    /**
     Whether it creates, patches or skips, a successful call leaves on the cluster exactly what the
     server makes of the submission, and nothing else changed. `readOk` and `writeOk` answer the API calls.
     */
    method EnsureMutableObjectExistsOnCluster(s: Submission, admit: Server, readOk: bool, writeOk: bool)
      returns (ok: bool, result: Option<Json>)
      requires Valid(admit)
      modifies this, cache
      ensures Valid(admit)
      ensures ok ==> cluster == old(cluster)[s.ref := Made(admit, s)] && result == Made(admit, s)
      ensures !ok ==> cluster == old(cluster) && cache.state == old(cache.state)
      ensures ok ==> cache.state == if s.ref in old(cluster) && Hit(old(cache.state), s, old(cluster[s.ref]), "")
                                    then old(cache.state) else Recorded(old(cache.state), s, Made(admit, s), "")
      ensures ok <==> (readOk
                       && (writeOk || (s.ref in old(cluster) && Hit(old(cache.state), s, old(cluster[s.ref]), ""))))
    {
      hide Made, Patched, Key, StoresClean;
      if !readOk {
        return false, None;
      }
      if s.ref in cluster {
        var existing := cluster[s.ref];
        var hit := cache.UnchangedSinceCached(s, existing);
        if hit {
          HitIsRight(admit, cache.state, s, existing, "");
          assert cluster == cluster[s.ref := existing];
          return true, existing;
        }
        if !writeOk {
          return false, None;
        }
        result := Patched(admit, cluster[s.ref], existing, s);
        UndisturbedPatch(admit, existing, s);
      } else {
        if !writeOk {
          return false, None;
        }
        result := Made(admit, s);
      }
      MadeIsClean(admit, s);
      RecordingIsFaithful(admit, cache.state, s, "");
      cluster := cluster[s.ref := result];
      cache.Set(s, result, "");
      ok := true;
    }

    /**
     Creates an object unless a listed one has the spec recorded for this very submission; never alters
     or removes an object. `listed` is the API server's answer, `newRef` the reference a created object
     gets, and a create fails if that reference is taken.
     */
    method EnsureImmutableObjectExistsOnCluster(s: Submission, admit: Server, discriminant: string,
                                                listed: Option<seq<Option<Json>>>, newRef: ObjectRef, writeOk: bool)
      returns (ok: bool, created: bool)
      requires Valid(admit)
      modifies this, cache
      ensures Valid(admit)
      ensures created ==> ok && newRef !in old(cluster) && cluster == old(cluster)[newRef := Made(admit, s)]
                          && cache.state == Recorded(old(cache.state), s, Made(admit, s), discriminant)
      ensures !created ==> cluster == old(cluster) && cache.state == old(cache.state)
      ensures listed.Some? && writeOk && newRef !in old(cluster) ==>
                ok && (created <==> !exists e :: e in listed.value && Hit(old(cache.state), s, e, discriminant))
    {
      hide Made, Key, StoresClean;
      if listed.None? {
        return false, false;
      }
      var k := cache.UnchangedSinceCachedFromList(s, listed.value, discriminant);
      if k < |listed.value| {
        return true, false;
      }
      if !writeOk || newRef in cluster {
        return false, false;
      }
      MadeIsClean(admit, s);
      RecordingIsFaithful(admit, cache.state, s, discriminant);
      cluster := cluster[newRef := Made(admit, s)];
      cache.Set(s, Made(admit, s), discriminant);
      return true, true;
    }
  }
}
