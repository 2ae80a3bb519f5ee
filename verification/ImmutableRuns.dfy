/** Runs of submissions with an immutable lifecycle: an object is created, never altered, and reused while it fits. */
module ImmutableRuns {
  import opened Common
  import opened Json
  import opened Api
  import opened Submission

  type Labels = map<string, string>

  datatype Listed = Listed(labels: Labels, spec: Option<Json>)

  /** The objects on the cluster and the cache. */
  datatype Ledger = Ledger(objects: map<ObjectRef, Listed>, cache: CacheState)

  /** One call: what is submitted, for which owner labels and discriminant, and the name a new object would get. */
  datatype Request = Request(s: Submission, labels: Labels, discriminant: string, newRef: ObjectRef)

  function KeyOf(q: Request): string {
    Key(q.s, q.discriminant)
  }

  /** The listing by kind, namespace and labels includes this object. */
  ghost predicate InListing(q: Request, r: ObjectRef, o: Listed) {
    && r.gvk == q.s.ref.gvk && r.namespace == q.s.ref.namespace
    && forall k :: k in q.labels ==> k in o.labels && o.labels[k] == q.labels[k]
  }

  /** Some listed object has this spec. */
  ghost predicate Lists(l: Ledger, q: Request, spec: Option<Json>) {
    exists r :: r in l.objects && InListing(q, r, l.objects[r]) && l.objects[r].spec == spec
  }

  /** The call creates an object: no listed one is a cache hit. */
  ghost predicate Creates(l: Ledger, q: Request) {
    !exists r :: r in l.objects && InListing(q, r, l.objects[r]) && Hit(l.cache, q.s, l.objects[r].spec, q.discriminant)
  }

  ghost function Submit(admit: Server, l: Ledger, q: Request): Ledger {
    if Creates(l, q) then
      Ledger(l.objects[q.newRef := Listed(q.s.labels, Made(admit, q.s))],
             Recorded(l.cache, q.s, Made(admit, q.s), q.discriminant))
    else l
  }

  /** A call, or what others do to an object in between: write it, or remove it. */
  datatype Event = Call(q: Request) | Outside(ref: ObjectRef, o: Option<Listed>)

  ghost function Next(admit: Server, l: Ledger, e: Event): Ledger {
    match e
    case Call(q) => Submit(admit, l, q)
    case Outside(ref, None) => l.(objects := l.objects - {ref})
    case Outside(ref, Some(o)) => l.(objects := l.objects[ref := o])
  }

  ghost function Run(admit: Server, l: Ledger, es: seq<Event>): Ledger {
    if es == [] then l else Next(admit, Run(admit, l, es[..|es| - 1]), es[|es| - 1])
  }

  /** The API server gives a new object a name of its own, of the submitted kind and namespace. */
  ghost predicate NewName(l: Ledger, q: Request) {
    q.newRef !in l.objects && q.newRef.gvk == q.s.ref.gvk && q.newRef.namespace == q.s.ref.namespace
  }

  ghost predicate NewNames(admit: Server, l: Ledger, es: seq<Event>) {
    forall i :: 0 <= i < |es| && es[i].Call? ==> NewName(Run(admit, l, es[..i]), es[i].q)
  }

  lemma ShorterRun(admit: Server, l: Ledger, es: seq<Event>)
    requires es != [] && NewNames(admit, l, es)
    ensures NewNames(admit, l, es[..|es| - 1])
    ensures var e := es[|es| - 1]; e.Call? ==> NewName(Run(admit, l, es[..|es| - 1]), e.q)
  {
    hide Run, NewName;
    var init := es[..|es| - 1];
    forall i | 0 <= i < |init| && init[i].Call? ensures NewName(Run(admit, l, init[..i]), init[i].q) {
      assert init[..i] == es[..i] && init[i] == es[i];
    }
  }

  // ---------- calls alter and remove nothing ----------

  ghost predicate Untouched(es: seq<Event>, r: ObjectRef) {
    forall i :: 0 <= i < |es| ==> !(es[i].Outside? && es[i].ref == r)
  }

  /** An object that others leave alone stays as it is, whatever is submitted. */
  lemma {:induction false} ObjectsAreKept(admit: Server, l: Ledger, es: seq<Event>, r: ObjectRef)
    requires NewNames(admit, l, es) && Untouched(es, r) && r in l.objects
    ensures r in Run(admit, l, es).objects && Run(admit, l, es).objects[r] == l.objects[r]
  {
    hide Creates, Made, Key;
    if es != [] {
      ShorterRun(admit, l, es);
      ObjectsAreKept(admit, l, es[..|es| - 1], r);
    }
  }

  // ---------- when an object is created ----------

  /** The event is a call that creates an object. */
  ghost predicate Accepts(l: Ledger, e: Event) {
    e.Call? && Creates(l, e.q)
  }

  /** The requests of a run that created an object, in order. */
  ghost function Accepted(admit: Server, l: Ledger, es: seq<Event>): seq<Request> {
    if es == [] then []
    else
      var init, last := es[..|es| - 1], es[|es| - 1];
      Accepted(admit, l, init) + if Accepts(Run(admit, l, init), last) then [last.q] else []
  }

  /** The last accepted submission under a key. */
  ghost function LastUnder(accepted: seq<Request>, key: string): Option<Submission> {
    if accepted == [] then None
    else
      var last := accepted[|accepted| - 1];
      if KeyOf(last) == key then Some(last.s) else LastUnder(accepted[..|accepted| - 1], key)
  }

  lemma LastUnderStep(accepted: seq<Request>, last: Request, key: string)
    ensures LastUnder(accepted + [last], key) == if KeyOf(last) == key then Some(last.s) else LastUnder(accepted, key)
  {
    hide KeyOf;
    assert (accepted + [last])[..|accepted|] == accepted;
  }

  lemma {:induction false} CacheRemembersLast(admit: Server, l: Ledger, es: seq<Event>, key: string)
    requires l.cache == EMPTY_CACHE
    ensures var c, last := Run(admit, l, es).cache, LastUnder(Accepted(admit, l, es), key);
            && Faithful(admit, c)
            && (key in c.submitted <==> last.Some?)
            && (last.Some? ==> c.submitted[key] == last.value)
  {
    hide Creates, Made, Key, LastUnder;
    if es == [] {
      NoneAccepted(key);
    } else {
      var init, last := es[..|es| - 1], es[|es| - 1];
      CacheRemembersLast(admit, l, init, key);
      if Accepts(Run(admit, l, init), last) {
        RecordingIsFaithful(admit, Run(admit, l, init).cache, last.q.s, last.q.discriminant);
        LastUnderStep(Accepted(admit, l, init), last.q, key);
      } else {
        assert Accepted(admit, l, es) == Accepted(admit, l, init);
      }
    }
  }

  lemma NoneAccepted(key: string)
    ensures LastUnder([], key) == None
  {
  }

  /**
   After any run from a cold cache, whatever others did in between, a call creates an object unless its submission
   is the last one accepted under its key, the server made a spec of it, and some listed object still has that spec.
   */
  lemma {:induction false} CreatesExactly(admit: Server, l: Ledger, es: seq<Event>, q: Request)
    requires l.cache == EMPTY_CACHE
    ensures Creates(Run(admit, l, es), q)
            <==> !(&& LastUnder(Accepted(admit, l, es), KeyOf(q)) == Some(q.s)
                   && Made(admit, q.s).Some?
                   && Lists(Run(admit, l, es), q, Made(admit, q.s)))
  {
    hide Made, Key, Run, Accepted, LastUnder, InListing;
    CacheRemembersLast(admit, l, es, KeyOf(q));
  }

  /** Only objects of the kind, in the namespace and with every label of the owner are reused. */
  lemma OthersAreNotReused(l: Ledger, q: Request)
    requires forall r :: r in l.objects ==>
               || r.gvk != q.s.ref.gvk || r.namespace != q.s.ref.namespace
               || exists k :: k in q.labels && Get(l.objects[r].labels, k) != Some(q.labels[k])
    ensures Creates(l, q)
  {
    hide Key;
  }

  // ---------- only others make a second object necessary ----------

  /** The stamped object carries the labels it is later listed by. */
  ghost predicate CarriesLabels(q: Request) {
    forall k :: k in q.labels ==> k in q.s.labels && q.s.labels[k] == q.labels[k]
  }

  /** Event `i` created an object for the key and submission of `q`. */
  ghost predicate CreatesFor(admit: Server, l: Ledger, es: seq<Event>, q: Request, i: nat) {
    i < |es| && Accepts(Run(admit, l, es[..i]), es[i]) && KeyOf(es[i].q) == KeyOf(q) && es[i].q.s == q.s
  }

  /** After event `i` others wrote or removed the object it created. */
  ghost predicate TouchedAfter(es: seq<Event>, i: nat)
    requires i < |es| && es[i].Call?
  {
    !Untouched(es[i + 1..], es[i].q.newRef)
  }

  /** The last accepted submission under a key was accepted at some event. */
  lemma {:induction false} AcceptedAt(admit: Server, l: Ledger, es: seq<Event>, q: Request) returns (i: nat)
    requires LastUnder(Accepted(admit, l, es), KeyOf(q)) == Some(q.s)
    ensures CreatesFor(admit, l, es, q, i)
  {
    hide Key, Creates, LastUnder;
    i := 0;
    NoneAccepted(KeyOf(q));
    if es != [] {
      var init, last := es[..|es| - 1], es[|es| - 1];
      if Accepts(Run(admit, l, init), last) {
        LastUnderStep(Accepted(admit, l, init), last.q, KeyOf(q));
      } else {
        assert Accepted(admit, l, es) == Accepted(admit, l, init);
      }
      if Accepts(Run(admit, l, init), last) && KeyOf(last.q) == KeyOf(q) {
        i := |es| - 1;
      } else {
        i := AcceptedAt(admit, l, init, q);
        assert init[..i] == es[..i] && init[i] == es[i];
      }
    }
  }

  lemma {:induction false} RunSplits(admit: Server, l: Ledger, es: seq<Event>, i: nat)
    requires i <= |es|
    ensures Run(admit, l, es) == Run(admit, Run(admit, l, es[..i]), es[i..])
    decreases |es|
  {
    hide Next;
    if i == |es| {
      assert es[..i] == es && es[i..] == [];
    } else {
      var init := es[..|es| - 1];
      RunSplits(admit, l, init, i);
      assert init[..i] == es[..i] && es[i..][..|es[i..]| - 1] == init[i..];
    }
  }

  lemma LaterNames(admit: Server, l: Ledger, es: seq<Event>, i: nat)
    requires NewNames(admit, l, es) && i <= |es|
    ensures NewNames(admit, Run(admit, l, es[..i]), es[i..])
  {
    hide Run, NewName;
    var later := es[i..];
    forall j | 0 <= j < |later| && later[j].Call?
      ensures NewName(Run(admit, Run(admit, l, es[..i]), later[..j]), later[j].q)
    {
      var both := es[..i + j];
      RunSplits(admit, l, both, i);
      assert both[..i] == es[..i] && both[i..] == later[..j] && later[j] == es[i + j];
    }
  }

  /** What a call created for `q` is still listed if nobody touched it. */
  lemma CreatedStaysListed(admit: Server, l: Ledger, es: seq<Event>, q: Request, i: nat)
    requires NewNames(admit, l, es) && CarriesLabels(q) && CreatesFor(admit, l, es, q, i) && !TouchedAfter(es, i)
    ensures Lists(Run(admit, l, es), q, Made(admit, q.s))
  {
    hide Made, Key, Creates, Run, Accepted;
    var p, b := es[i].q, Run(admit, l, es[..i]);
    assert NewName(b, p);
    var a := Run(admit, l, es[..i + 1]);
    assert a == Submit(admit, b, p) by {
      assert es[..i + 1][..i] == es[..i];
      RunStep(admit, l, es[..i + 1]);
    }
    RunSplits(admit, l, es, i + 1);
    LaterNames(admit, l, es, i + 1);
    ObjectsAreKept(admit, a, es[i + 1..], p.newRef);
    var o := Run(admit, l, es).objects[p.newRef];
    assert InListing(q, p.newRef, o) && o.spec == Made(admit, q.s);
  }

  lemma RunStep(admit: Server, l: Ledger, es: seq<Event>)
    requires es != []
    ensures Run(admit, l, es) == Next(admit, Run(admit, l, es[..|es| - 1]), es[|es| - 1])
  {
  }

  /**
   A submission with a spec that is still the last accepted one under its key is created again only if
   others wrote or removed the object that was created for it.
   */
  lemma RecreatedOnlyAfterLoss(admit: Server, l: Ledger, es: seq<Event>, q: Request)
    requires l.cache == EMPTY_CACHE && NewNames(admit, l, es) && CarriesLabels(q) && Made(admit, q.s).Some?
    requires LastUnder(Accepted(admit, l, es), KeyOf(q)) == Some(q.s) && Creates(Run(admit, l, es), q)
    ensures exists i: nat :: CreatesFor(admit, l, es, q, i) && TouchedAfter(es, i)
  {
    hide Made, Key, Creates, Run, Accepted, LastUnder, Lists, Untouched, NewNames;
    var i := AcceptedAt(admit, l, es, q);
    CreatesExactly(admit, l, es, q);
    if !TouchedAfter(es, i) {
      CreatedStaysListed(admit, l, es, q, i);
    }
  }

  // ---------- repetition ----------

  /** The submission is the one remembered, and an object with its spec is listed. */
  ghost predicate Settled(admit: Server, l: Ledger, q: Request) {
    && SubmittedHit(l.cache, q.s, KeyOf(q))
    && PersistedSpec(l.cache, KeyOf(q)) == Made(admit, q.s)
    && Lists(l, q, Made(admit, q.s))
  }

  /** A repetition: the same call but for the name a new object would get. */
  predicate Repeats(p: Request, q: Request) {
    p == q.(newRef := p.newRef)
  }

  /** Every call under the key of `q` repeats it. */
  ghost predicate OnlyRepeats(es: seq<Event>, q: Request) {
    forall i :: 0 <= i < |es| && es[i].Call? && KeyOf(es[i].q) == KeyOf(q) ==> Repeats(es[i].q, q)
  }

  /** How many objects the run creates for the key of `q`. */
  ghost function Creations(admit: Server, l: Ledger, es: seq<Event>, q: Request): nat {
    if es == [] then 0
    else
      var init, last := es[..|es| - 1], es[|es| - 1];
      Creations(admit, l, init, q)
      + if Accepts(Run(admit, l, init), last) && KeyOf(last.q) == KeyOf(q) then 1 else 0
  }

  /** The object at `r` is one that a repetition of `q` would find. */
  ghost predicate Fits(admit: Server, l: Ledger, q: Request, r: ObjectRef) {
    r in l.objects && InListing(q, r, l.objects[r]) && l.objects[r].spec == Made(admit, q.s)
  }

  /** Others make an object that fits `q` vanish, or no longer fit. */
  ghost predicate Takes(admit: Server, l: Ledger, e: Event, q: Request) {
    e.Outside? && Fits(admit, l, q, e.ref) && !Fits(admit, Next(admit, l, e), q, e.ref)
  }

  /** How often that happens in a run. */
  ghost function Losses(admit: Server, l: Ledger, es: seq<Event>, q: Request): nat {
    if es == [] then 0
    else
      var init, last := es[..|es| - 1], es[|es| - 1];
      Losses(admit, l, init, q) + if Takes(admit, Run(admit, l, init), last, q) then 1 else 0
  }

  lemma SettledStays(admit: Server, l: Ledger, p: Request, q: Request)
    requires Settled(admit, l, q) && Made(admit, q.s).Some?
    requires p.newRef !in l.objects && (KeyOf(p) == KeyOf(q) ==> Repeats(p, q))
    ensures Settled(admit, Submit(admit, l, p), q)
    ensures KeyOf(p) == KeyOf(q) ==> !Creates(l, p)
  {
    hide Made, Key;
    var r :| r in l.objects && InListing(q, r, l.objects[r]) && l.objects[r].spec == Made(admit, q.s);
    if KeyOf(p) == KeyOf(q) {
      assert InListing(p, r, l.objects[r]);
      assert Hit(l.cache, p.s, l.objects[r].spec, p.discriminant);
    } else {
      var after := Submit(admit, l, p);
      assert r in after.objects && after.objects[r] == l.objects[r];
    }
  }

  lemma SettledUnlessTaken(admit: Server, l: Ledger, e: Event, q: Request)
    requires Settled(admit, l, q) && e.Outside? && !Takes(admit, l, e, q)
    ensures Settled(admit, Next(admit, l, e), q)
  {
    hide Made, Key, InListing;
    var r :| r in l.objects && InListing(q, r, l.objects[r]) && l.objects[r].spec == Made(admit, q.s);
    assert Fits(admit, Next(admit, l, e), q, r);
  }

  lemma CreationSettles(admit: Server, l: Ledger, p: Request, q: Request)
    requires Repeats(p, q) && CarriesLabels(q) && Creates(l, p) && NewName(l, p)
    ensures Settled(admit, Submit(admit, l, p), q)
  {
    hide Made, Key, Creates;
    var after := Submit(admit, l, p);
    assert p.newRef in after.objects && InListing(q, p.newRef, after.objects[p.newRef]);
  }

  /**
   Repeating one submission that has a spec, among any submissions under other keys, creates at most one object,
   and one more each time others take a fitting one away; if a fitting one was there to begin with,
   one less. Whenever that many were created, a fitting one is there.
   */
  lemma {:induction false} RepetitionCreatesOnce(admit: Server, l: Ledger, es: seq<Event>, q: Request)
    requires NewNames(admit, l, es) && CarriesLabels(q) && Made(admit, q.s).Some? && OnlyRepeats(es, q)
    ensures var most := Losses(admit, l, es, q) + if Settled(admit, l, q) then 0 else 1;
            && Creations(admit, l, es, q) <= most
            && (Creations(admit, l, es, q) == most ==> Settled(admit, Run(admit, l, es), q))
  {
    hide Made, Key, Creates, Settled, Submit, Repeats, Takes, NewName;
    if es != [] {
      var init, last := es[..|es| - 1], es[|es| - 1];
      ShorterRun(admit, l, es);
      assert forall i :: 0 <= i < |init| ==> init[i] == es[i];
      RepetitionCreatesOnce(admit, l, init, q);
      RepetitionStep(admit, Run(admit, l, init), last, q);
    }
  }

  /** One event, over a settled ledger and over any. */
  lemma RepetitionStep(admit: Server, b: Ledger, e: Event, q: Request)
    requires CarriesLabels(q) && Made(admit, q.s).Some?
    requires e.Call? ==> NewName(b, e.q) && (KeyOf(e.q) == KeyOf(q) ==> Repeats(e.q, q))
    ensures Settled(admit, b, q) && !Takes(admit, b, e, q) ==>
              Settled(admit, Next(admit, b, e), q) && !(Accepts(b, e) && KeyOf(e.q) == KeyOf(q))
    ensures Accepts(b, e) && KeyOf(e.q) == KeyOf(q) ==> Settled(admit, Next(admit, b, e), q)
    ensures Takes(admit, b, e, q) ==> e.Outside?
  {
    hide Made, Key, Creates, Settled, Submit, Repeats;
    if Settled(admit, b, q) && !Takes(admit, b, e, q) {
      if e.Call? {
        SettledStays(admit, b, e.q, q);
      } else {
        SettledUnlessTaken(admit, b, e, q);
      }
    }
    if Accepts(b, e) && KeyOf(e.q) == KeyOf(q) {
      CreationSettles(admit, b, e.q, q);
    }
  }

  lemma {:induction false} RunIsFaithful(admit: Server, l: Ledger, es: seq<Event>)
    requires Faithful(admit, l.cache)
    ensures Faithful(admit, Run(admit, l, es).cache)
  {
    hide Creates, Made, Key, Faithful;
    if es != [] {
      var init, last := es[..|es| - 1], es[|es| - 1];
      RunIsFaithful(admit, l, init);
      if last.Call? {
        RecordingIsFaithful(admit, Run(admit, l, init).cache, last.q.s, last.q.discriminant);
      }
    }
  }

  /** How many calls of the run have the key of `q`. */
  ghost function Calls(es: seq<Event>, q: Request): nat {
    if es == [] then 0
    else
      var last := es[|es| - 1];
      Calls(es[..|es| - 1], q) + if last.Call? && KeyOf(last.q) == KeyOf(q) then 1 else 0
  }

  /** A submission that the server makes no spec of is never recognised: every repetition creates another object. */
  lemma {:induction false} SpeclessCreatesEveryTime(admit: Server, l: Ledger, es: seq<Event>, q: Request)
    requires Faithful(admit, l.cache) && Made(admit, q.s).None? && OnlyRepeats(es, q)
    ensures Creations(admit, l, es, q) == Calls(es, q)
  {
    hide Made, Key, Creates;
    if es != [] {
      var init, last := es[..|es| - 1], es[|es| - 1];
      assert forall i :: 0 <= i < |init| ==> init[i] == es[i];
      SpeclessCreatesEveryTime(admit, l, init, q);
      RunIsFaithful(admit, l, init);
      if last.Call? && KeyOf(last.q) == KeyOf(q) {
        NeverRecognised(admit, Run(admit, l, init), last.q);
      }
    }
  }

  lemma NeverRecognised(admit: Server, l: Ledger, q: Request)
    requires Faithful(admit, l.cache) && Made(admit, q.s).None?
    ensures Creates(l, q)
  {
    hide Made, Key;
  }

  // ---------- the repository takes these steps ----------

  /** The objects of a ledger as a repository sees them. */
  ghost function Specs(objects: map<ObjectRef, Listed>): Cluster {
    map r | r in objects :: objects[r].spec
  }

  /** A repository whose listings agree with the ledger moves exactly as the ledger does. */
  method Ensure(repo: Repository, ghost l: Ledger, q: Request, admit: Server, listed: seq<Option<Json>>)
    returns (created: bool)
    requires repo.Valid(admit) && repo.cluster == Specs(l.objects) && repo.cache.state == l.cache
    requires forall e :: e in listed <==> Lists(l, q, e)
    requires q.newRef !in l.objects
    modifies repo, repo.cache
    ensures repo.Valid(admit) && created == Creates(l, q)
    ensures repo.cluster == Specs(Submit(admit, l, q).objects) && repo.cache.state == Submit(admit, l, q).cache
  {
    hide Made, Key, InListing, StoresClean, Faithful, CleanCluster;
    ListingDecides(l, q, listed);
    var ok;
    ok, created := repo.EnsureImmutableObjectExistsOnCluster(q.s, admit, q.discriminant, Some(listed), q.newRef, true);
  }

  lemma ListingDecides(l: Ledger, q: Request, listed: seq<Option<Json>>)
    requires forall e :: e in listed <==> Lists(l, q, e)
    ensures Creates(l, q) <==> !exists e :: e in listed && Hit(l.cache, q.s, e, q.discriminant)
  {
    hide Hit, InListing;
    if !Creates(l, q) {
      var r :| r in l.objects && InListing(q, r, l.objects[r]) && Hit(l.cache, q.s, l.objects[r].spec, q.discriminant);
      assert Lists(l, q, l.objects[r].spec);
    }
    forall e | e in listed && Hit(l.cache, q.s, e, q.discriminant) ensures !Creates(l, q) {
      assert Lists(l, q, e);
    }
  }
}
