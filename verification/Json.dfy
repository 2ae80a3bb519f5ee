/** JSON values and JSON merge patches (section 2 of RFC 7396). */
module Json {
  import opened Common

  datatype Json =
    | Null
    | Bool(b: bool)
    | Number(n: int)
    | String(s: string)
    | Array(items: seq<Json>)
    | Object(members: map<string, Json>)

  /** No object outside of arrays has a member that is null. */
  predicate NullFree(j: Json) {
    match j
    case Object(m) => forall k :: k in m ==> m[k] != Null && NullFree(m[k])
    case _ => true
  }

  /** The value without the null members of objects outside of arrays. */
  function Strip(j: Json): Json {
    match j
    case Object(m) => Object(map k | k in m && m[k] != Null :: Strip(m[k]))
    case _ => j
  }

  function Members(target: Option<Json>): map<string, Json> {
    if target.Some? && target.value.Object? then target.value.members else map[]
  }

  /** Applying a merge patch to a value that may be missing. */
  function Apply(target: Option<Json>, patch: Json): Json
    decreases patch
  {
    match patch
    case Object(p) =>
      var t := Members(target);
      Object(map k | k in t.Keys + p.Keys && !(k in p && p[k] == Null) ::
        if k in p then Apply(Get(t, k), p[k]) else t[k])
    case _ => patch
  }

  /** The merge patch from one object to another: removed members null, changed objects recursively. */
  function Diff(origin: Json, goal: Json): Json
    decreases goal
  {
    if origin.Object? && goal.Object? then
      var f, t := origin.members, goal.members;
      Object(map k | k in f.Keys + t.Keys && Get(f, k) != Get(t, k) ::
        if k !in t then Null
        else if k in f && f[k].Object? && t[k].Object? then Diff(f[k], t[k])
        else t[k])
    else goal
  }

  /** The object body, reduced to its spec. */
  function Body(spec: Option<Json>): Json {
    Object(if spec.Some? then map["spec" := spec.value] else map[])
  }

  function SpecOf(body: Json): Option<Json> {
    if body.Object? then Get(body.members, "spec") else None
  }

  lemma {:induction false} StripOfNullFree(j: Json)
    requires NullFree(j)
    ensures Strip(j) == j
  {
    if j.Object? {
      forall k | k in j.members ensures Strip(j.members[k]) == j.members[k] {
        StripOfNullFree(j.members[k]);
      }
      assert Strip(j).members == j.members;
    }
  }

  // ---------- when a patch reaches its goal ----------

  /** Where a patch installs a value afresh, nothing lies under it that the value does not overwrite. */
  predicate Installs(current: Option<Json>, value: Json)
    decreases value
  {
    match value
    case Object(g) =>
      var c := Members(current);
      c.Keys <= g.Keys && forall k :: k in g && g[k] != Null ==> Installs(Get(c, k), g[k])
    case _ => true
  }

  /**
   The patch from `read` to `goal` lands on `current`: where it says nothing, current agrees with
   what was read; where it installs a value, nothing else lies under it; and so on inside members that are
   objects before and after.
   */
  predicate Lands(current: Option<Json>, read: Json, goal: Json)
    requires read.Object? && goal.Object?
    decreases goal
  {
    var c, f, t := Members(current), read.members, goal.members;
    && (forall k :: k in c.Keys + f.Keys + t.Keys && Get(f, k) == Get(t, k) ==> Get(c, k) == Get(f, k))
    && (forall k :: k in t && t[k] != Null && Get(f, k) != Some(t[k]) ==>
          if k in f && f[k].Object? && t[k].Object? then Lands(Get(c, k), f[k], t[k])
          else Installs(Get(c, k), t[k]))
  }

  lemma {:induction false} InstallsExactly(current: Option<Json>, value: Json)
    ensures Apply(current, value) == Strip(value) <==> Installs(current, value)
    decreases value
  {
    if value.Object? {
      var c, g := Members(current), value.members;
      var r, s := Apply(current, value).members, Strip(value).members;
      forall k | k in g && g[k] != Null
        ensures Apply(Get(c, k), g[k]) == Strip(g[k]) <==> Installs(Get(c, k), g[k])
      {
        InstallsExactly(Get(c, k), g[k]);
      }
      assert forall k :: k in c && k !in g ==> k in r && k !in s;
      assert forall k :: k in g && g[k] != Null ==> k in r && r[k] == Apply(Get(c, k), g[k]) && s[k] == Strip(g[k]);
      if Installs(current, value) {
        assert r == s;
      }
    }
  }

  lemma {:induction false} InstallsOnNothing(current: Option<Json>, value: Json)
    requires current.None? || !current.value.Object?
    ensures Installs(current, value)
    decreases value
  {
    if value.Object? {
      forall k | k in value.members && value.members[k] != Null ensures Installs(None, value.members[k]) {
        InstallsOnNothing(None, value.members[k]);
      }
    }
  }

  /** What a patch leaves under one key. */
  lemma PatchAt(current: Option<Json>, read: Json, goal: Json, k: string)
    requires read.Object? && goal.Object?
    ensures var c, f, t := Members(current), read.members, goal.members;
            Get(Apply(current, Diff(read, goal)).members, k)
            == if Get(f, k) == Get(t, k) then Get(c, k)
               else if k !in t || t[k] == Null then None
               else if k in f && f[k].Object? && t[k].Object? then Some(Apply(Get(c, k), Diff(f[k], t[k])))
               else Some(Apply(Get(c, k), t[k]))
  {
    var f, t, d := read.members, goal.members, Diff(read, goal).members;
    assert k in d <==> Get(f, k) != Get(t, k);
  }

  /**
   Exactly when a merge patch does what it was computed for, whatever has been written in between: applied to
   `current` it yields the intended object, less its nulls, if and only if it lands.
   */
  lemma {:induction false} LandsExactly(current: Option<Json>, read: Json, goal: Json)
    requires NullFree(read) && read.Object? && goal.Object?
    ensures Apply(current, Diff(read, goal)) == Strip(goal) <==> Lands(current, read, goal)
    decreases goal
  {
    var c, f, t := Members(current), read.members, goal.members;
    var r, s := Apply(current, Diff(read, goal)).members, Strip(goal).members;
    forall k ensures Get(r, k) == Get(s, k) <==> LandsAt(c, f, t, k) {
      PatchAt(current, read, goal, k);
      if Get(f, k) == Get(t, k) {
        if k in f {
          StripOfNullFree(f[k]);
        }
      } else if k in t && t[k] != Null {
        if k in f && f[k].Object? && t[k].Object? {
          LandsExactly(Get(c, k), f[k], t[k]);
        } else {
          InstallsExactly(Get(c, k), t[k]);
        }
      }
    }
    SameMembers(r, s);
    LandsEverywhere(current, read, goal);
  }

  /** The part of `Lands` that concerns one key. */
  predicate LandsAt(c: map<string, Json>, f: map<string, Json>, t: map<string, Json>, k: string) {
    if Get(f, k) == Get(t, k) then Get(c, k) == Get(f, k)
    else if k in t && t[k] != Null then
      if k in f && f[k].Object? && t[k].Object? then Lands(Get(c, k), f[k], t[k]) else Installs(Get(c, k), t[k])
    else true
  }

  lemma LandsEverywhere(current: Option<Json>, read: Json, goal: Json)
    requires read.Object? && goal.Object?
    ensures Lands(current, read, goal) <==> forall k :: LandsAt(Members(current), read.members, goal.members, k)
  {
    var c, f, t := Members(current), read.members, goal.members;
    if Lands(current, read, goal) {
      forall k ensures LandsAt(c, f, t, k) {
        if k !in c.Keys + f.Keys + t.Keys {
          assert Get(c, k) == None && Get(f, k) == None;
        }
      }
    }
    if forall k :: LandsAt(c, f, t, k) {
      forall k | k in c.Keys + f.Keys + t.Keys && Get(f, k) == Get(t, k) ensures Get(c, k) == Get(f, k) {
        assert LandsAt(c, f, t, k);
      }
      forall k | k in t && t[k] != Null && Get(f, k) != Some(t[k])
        ensures if k in f && f[k].Object? && t[k].Object? then Lands(Get(c, k), f[k], t[k])
                else Installs(Get(c, k), t[k])
      {
        assert LandsAt(c, f, t, k);
      }
    }
  }

  lemma SameMembers(a: map<string, Json>, b: map<string, Json>)
    ensures a == b <==> forall k :: Get(a, k) == Get(b, k)
  {
    if forall k :: Get(a, k) == Get(b, k) {
      forall k ensures k in a <==> k in b {
        assert Get(a, k) == Get(b, k);
      }
      forall k | k in a ensures a[k] == b[k] {
        assert Get(a, k) == Get(b, k);
      }
    }
  }

  /** On the object it was computed against a patch always lands. */
  lemma {:induction false} UndisturbedLands(read: Json, goal: Json)
    requires read.Object? && goal.Object?
    ensures Lands(Some(read), read, goal)
    decreases goal
  {
    var f, t := read.members, goal.members;
    forall k | k in t && t[k] != Null && Get(f, k) != Some(t[k])
      ensures if k in f && f[k].Object? && t[k].Object? then Lands(Get(f, k), f[k], t[k])
              else Installs(Get(f, k), t[k])
    {
      if k in f && f[k].Object? && t[k].Object? {
        UndisturbedLands(f[k], t[k]);
      } else if t[k].Object? {
        InstallsOnNothing(Get(f, k), t[k]);
      }
    }
  }

  /**
   A merge patch does what it was computed for: applied to the null-free object it was
   computed against, it yields the intended object, less its nulls.
   */
  lemma PatchReaches(origin: Json, goal: Json)
    requires NullFree(origin) && origin.Object? && goal.Object?
    ensures Apply(Some(origin), Diff(origin, goal)) == Strip(goal)
  {
    UndisturbedLands(origin, goal);
    LandsExactly(Some(origin), origin, goal);
  }
}
