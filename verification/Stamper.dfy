/** Evaluating a template: every string leaf of a JSON tree is interpolated, everything else is kept. */
module Stamper {
  import opened Common
  import opened Json

  /** A step of a path into a tree. */
  datatype Component = Key(key: string) | Index(index: nat)

  type Path = seq<Component>

  /** Interpolating a leaf: a value, or nothing if a tag cannot be evaluated. */
  type Interpolator = string -> Option<Json>

  datatype Evaluation = Value(json: Json) | LeafError(path: Path)

  // ---------- the declarative reading ----------

  /** The node a path leads to. */
  function At(j: Json, path: Path): Option<Json>
    decreases |path|
  {
    if path == [] then Some(j)
    else
      match path[0]
      case Key(k) => if j.Object? && k in j.members then At(j.members[k], path[1..]) else None
      case Index(i) => if j.Array? && i < |j.items| then At(j.items[i], path[1..]) else None
  }

  /** A path to a string that cannot be interpolated. */
  ghost predicate FailingLeaf(interpolate: Interpolator, j: Json, path: Path) {
    var leaf := At(j, path);
    leaf.Some? && leaf.value.String? && interpolate(leaf.value.s).None?
  }

  /** Every leaf can be interpolated. */
  predicate Evaluable(interpolate: Interpolator, j: Json) {
    match j
    case String(s) => interpolate(s).Some?
    case Array(items) => forall i :: 0 <= i < |items| ==> Evaluable(interpolate, items[i])
    case Object(m) => forall k :: k in m ==> Evaluable(interpolate, m[k])
    case _ => true
  }

  /** The tree with its string leaves interpolated. */
  function Stamped(interpolate: Interpolator, j: Json): Json
    requires Evaluable(interpolate, j)
  {
    match j
    case String(s) => interpolate(s).value
    case Array(items) => Array(seq(|items|, i requires 0 <= i < |items| => Stamped(interpolate, items[i])))
    case Object(m) => Object(map k | k in m :: Stamped(interpolate, m[k]))
    case _ => j
  }

  // ---------- the evaluation ----------

  /** The order in which a map is walked: at each turn the next key among those remaining, for the map at a path. */
  type Order = (Path, set<string>) -> string

  ghost predicate Walks(order: Order) {
    forall path, keys :: keys != {} ==> order(path, keys) in keys
  }

  /** The path at which evaluating `j`, entered with `stack`, fails first under an order, if it fails. */
  ghost function Report(interpolate: Interpolator, order: Order, j: Json, stack: Path): Option<Path>
    requires Walks(order)
    decreases j, 1, 0
  {
    match j
    case String(s) => if interpolate(s).None? then Some(stack) else None
    case Array(_) => ReportItems(interpolate, order, j, 0, stack)
    case Object(m) => ReportMembers(interpolate, order, j, m.Keys, stack)
    case _ => None
  }

  ghost function ReportMembers(interpolate: Interpolator, order: Order, j: Json, remaining: set<string>,
                               stack: Path): Option<Path>
    requires Walks(order) && j.Object? && remaining <= j.members.Keys
    decreases j, 0, |remaining|
  {
    if remaining == {} then None
    else
      var key := order(stack, remaining);
      var r := Report(interpolate, order, j.members[key], stack + [Key(key)]);
      if r.Some? then r else ReportMembers(interpolate, order, j, remaining - {key}, stack)
  }

  ghost function ReportItems(interpolate: Interpolator, order: Order, j: Json, i: nat, stack: Path): Option<Path>
    requires Walks(order) && j.Array? && i <= |j.items|
    decreases j, 0, |j.items| - i
  {
    if i == |j.items| then None
    else
      var r := Report(interpolate, order, j.items[i], stack + [Index(i)]);
      if r.Some? then r else ReportItems(interpolate, order, j, i + 1, stack)
  }

  /** What an evaluation has to come to, given what is reported. */
  ghost predicate Evaluates(interpolate: Interpolator, j: Json, report: Option<Path>, r: Evaluation) {
    match report
    case Some(path) => r == LeafError(path)
    case None => Evaluable(interpolate, j) && r == Value(Stamped(interpolate, j))
  }

  /**
   Evaluates a tree, with the path walked so far on a stack. The result is the stamped tree, or the path of
   the first leaf that cannot be interpolated.
   */
  method EvaluateTemplates(interpolate: Interpolator, order: Order, j: Json, stack: Path) returns (r: Evaluation)
    requires Walks(order)
    ensures Evaluates(interpolate, j, Report(interpolate, order, j, stack), r)
    decreases j, 1
  {
    match j
    case String(s) =>
      var leaf := interpolate(s);
      r := if leaf.None? then LeafError(stack) else Value(leaf.value);
    case Object(_) =>
      r := EvaluateMembers(interpolate, order, j, stack);
    case Array(items) =>
      if |items| == 0 {
        assert Stamped(interpolate, j).items == items;
        return Value(j);
      }
      r := EvaluateItems(interpolate, order, j, stack);
    case _ =>
      r := Value(j);
  }

  /** The members of an object, in the given order. */
  method EvaluateMembers(interpolate: Interpolator, order: Order, j: Json, stack: Path) returns (r: Evaluation)
    requires Walks(order) && j.Object?
    ensures Evaluates(interpolate, j, Report(interpolate, order, j, stack), r)
    decreases j, 0
  {
    var m := j.members;
    var pathStack := stack;
    var stampedMap: map<string, Json> := map[];
    var remaining := m.Keys;
    while remaining != {}
      invariant pathStack == stack
      invariant remaining <= m.Keys && stampedMap.Keys == m.Keys - remaining
      invariant Report(interpolate, order, j, stack) == ReportMembers(interpolate, order, j, remaining, stack)
      invariant forall k :: k in stampedMap ==>
                  Evaluable(interpolate, m[k]) && stampedMap[k] == Stamped(interpolate, m[k])
      decreases |remaining|
    {
      var key := order(pathStack, remaining);
      pathStack := pathStack + [Key(key)];
      var stampedValue := EvaluateTemplates(interpolate, order, m[key], pathStack);
      if stampedValue.LeafError? {
        return stampedValue;
      }
      stampedMap := stampedMap[key := stampedValue.json];
      pathStack := pathStack[..|pathStack| - 1];
      remaining := remaining - {key};
    }
    assert stampedMap == Stamped(interpolate, j).members;
    r := Value(Object(stampedMap));
  }

  /** The items of an array, first to last. */
  method EvaluateItems(interpolate: Interpolator, order: Order, j: Json, stack: Path) returns (r: Evaluation)
    requires Walks(order) && j.Array?
    ensures Evaluates(interpolate, j, Report(interpolate, order, j, stack), r)
    decreases j, 0
  {
    var items := j.items;
    var pathStack := stack;
    var stampedSlice: seq<Json> := [];
    for index := 0 to |items|
      invariant pathStack == stack
      invariant |stampedSlice| == index
      invariant Report(interpolate, order, j, stack) == ReportItems(interpolate, order, j, index, stack)
      invariant forall i :: 0 <= i < index ==>
                  Evaluable(interpolate, items[i]) && stampedSlice[i] == Stamped(interpolate, items[i])
    {
      pathStack := pathStack + [Index(index)];
      var stampedElement := EvaluateTemplates(interpolate, order, items[index], pathStack);
      if stampedElement.LeafError? {
        return stampedElement;
      }
      stampedSlice := stampedSlice + [stampedElement.json];
      pathStack := pathStack[..|pathStack| - 1];
    }
    assert stampedSlice == Stamped(interpolate, j).items;
    r := Value(Array(stampedSlice));
  }

  // ---------- what can be reported ----------

  /** A failing leaf that some order reports: of the items of a list only the first failing one counts. */
  ghost predicate Reportable(interpolate: Interpolator, j: Json, path: Path)
    decreases |path|
  {
    if path == [] then j.String? && interpolate(j.s).None?
    else
      match path[0]
      case Key(k) => j.Object? && k in j.members && Reportable(interpolate, j.members[k], path[1..])
      case Index(i) =>
        && j.Array? && i < |j.items| && Reportable(interpolate, j.items[i], path[1..])
        && forall h :: 0 <= h < i ==> Evaluable(interpolate, j.items[h])
  }

  /** `path` extends `stack` by a reportable path of `j`. */
  ghost predicate ReportableBelow(interpolate: Interpolator, j: Json, stack: Path, path: Path) {
    |stack| <= |path| && path[..|stack|] == stack && Reportable(interpolate, j, path[|stack|..])
  }

  lemma ReportableStep(interpolate: Interpolator, j: Json, child: Json, stack: Path, step: Component, path: Path)
    requires match step
             case Key(k) => j.Object? && k in j.members && j.members[k] == child
             case Index(i) => && j.Array? && i < |j.items| && j.items[i] == child
                              && forall h :: 0 <= h < i ==> Evaluable(interpolate, j.items[h])
    requires ReportableBelow(interpolate, child, stack + [step], path)
    ensures ReportableBelow(interpolate, j, stack, path)
  {
    assert path[..|stack|] == path[..|stack| + 1][..|stack|];
    assert path[|stack|] == path[..|stack| + 1][|stack|] == step;
    assert path[|stack|..][1..] == path[|stack| + 1..];
  }

  /** Under any order, nothing is reported exactly if every leaf can be interpolated, and a report is reportable. */
  lemma {:induction false} ReportIsReportable(interpolate: Interpolator, order: Order, j: Json, stack: Path)
    requires Walks(order)
    ensures var r := Report(interpolate, order, j, stack);
            && (r.None? <==> Evaluable(interpolate, j))
            && (r.Some? ==> ReportableBelow(interpolate, j, stack, r.value))
    decreases j, 1, 0
  {
    match j
    case String(_) =>
      assert stack[|stack|..] == [];
    case Array(_) =>
      ItemsReport(interpolate, order, j, 0, stack);
    case Object(m) =>
      MembersReport(interpolate, order, j, m.Keys, stack);
    case _ =>
  }

  lemma {:induction false} MembersReport(interpolate: Interpolator, order: Order, j: Json, remaining: set<string>,
                                         stack: Path)
    requires Walks(order) && j.Object? && remaining <= j.members.Keys
    ensures var r := ReportMembers(interpolate, order, j, remaining, stack);
            && (r.None? <==> forall k :: k in remaining ==> Evaluable(interpolate, j.members[k]))
            && (r.Some? ==> ReportableBelow(interpolate, j, stack, r.value))
    decreases j, 0, |remaining|
  {
    hide ReportableBelow;
    if remaining != {} {
      var key := order(stack, remaining);
      ReportIsReportable(interpolate, order, j.members[key], stack + [Key(key)]);
      var r := Report(interpolate, order, j.members[key], stack + [Key(key)]);
      if r.Some? {
        ReportableStep(interpolate, j, j.members[key], stack, Key(key), r.value);
      } else {
        MembersReport(interpolate, order, j, remaining - {key}, stack);
      }
    }
  }

  lemma {:induction false} ItemsReport(interpolate: Interpolator, order: Order, j: Json, i: nat, stack: Path)
    requires Walks(order) && j.Array? && i <= |j.items|
    requires forall h :: 0 <= h < i ==> Evaluable(interpolate, j.items[h])
    ensures var r := ReportItems(interpolate, order, j, i, stack);
            && (r.None? <==> forall h :: i <= h < |j.items| ==> Evaluable(interpolate, j.items[h]))
            && (r.Some? ==> ReportableBelow(interpolate, j, stack, r.value))
    decreases j, 0, |j.items| - i
  {
    hide ReportableBelow;
    if i < |j.items| {
      ReportIsReportable(interpolate, order, j.items[i], stack + [Index(i)]);
      var r := Report(interpolate, order, j.items[i], stack + [Index(i)]);
      if r.Some? {
        ReportableStep(interpolate, j, j.items[i], stack, Index(i), r.value);
      } else {
        ItemsReport(interpolate, order, j, i + 1, stack);
      }
    }
  }

  /** The order that follows a path where it can. */
  ghost function NextKey(goal: Path, path: Path, keys: set<string>): string {
    if |path| < |goal| && goal[..|path|] == path && goal[|path|].Key? && goal[|path|].key in keys then goal[|path|].key
    else if keys == {} then ""
    else var k :| k in keys; k
  }

  ghost function Toward(goal: Path): (order: Order)
    ensures Walks(order)
  {
    (path, keys) => NextKey(goal, path, keys)
  }

  lemma {:induction false} SkipItems(interpolate: Interpolator, order: Order, j: Json, i: nat, n: nat, stack: Path)
    requires Walks(order) && j.Array? && i <= n <= |j.items|
    requires forall h :: i <= h < n ==> Evaluable(interpolate, j.items[h])
    ensures ReportItems(interpolate, order, j, i, stack) == ReportItems(interpolate, order, j, n, stack)
    decreases n - i
  {
    if i < n {
      ReportIsReportable(interpolate, order, j.items[i], stack + [Index(i)]);
      SkipItems(interpolate, order, j, i + 1, n, stack);
    }
  }

  /** Every reportable leaf is reported under some order. */
  lemma {:induction false} ReportableIsReported(interpolate: Interpolator, j: Json, stack: Path, path: Path)
    requires Reportable(interpolate, j, path)
    ensures Report(interpolate, Toward(stack + path), j, stack) == Some(stack + path)
    decreases |path|
  {
    var goal := stack + path;
    if path == [] {
      assert goal == stack;
    } else {
      var step := path[0];
      assert goal == stack + [step] + path[1..];
      assert goal[..|stack|] == stack && goal[|stack|] == step;
      match step
      case Key(k) =>
        ReportableIsReported(interpolate, j.members[k], stack + [step], path[1..]);
        assert Toward(goal)(stack, j.members.Keys) == k;
      case Index(i) =>
        ReportableIsReported(interpolate, j.items[i], stack + [step], path[1..]);
        SkipItems(interpolate, Toward(goal), j, 0, i, stack);
    }
  }

  /** Every order reports the same. */
  ghost predicate Deterministic(interpolate: Interpolator, j: Json, stack: Path) {
    forall a: Order, b: Order :: Walks(a) && Walks(b) ==>
      Report(interpolate, a, j, stack) == Report(interpolate, b, j, stack)
  }

  ghost predicate AtMostOneReportable(interpolate: Interpolator, j: Json) {
    forall p, q :: Reportable(interpolate, j, p) && Reportable(interpolate, j, q) ==> p == q
  }

  /**
   Evaluation is deterministic, although the order of map iteration is not, exactly if there is at most one
   reportable leaf.
   */
  lemma ReportIsUniqueExactly(interpolate: Interpolator, j: Json, stack: Path)
    ensures Deterministic(interpolate, j, stack) <==> AtMostOneReportable(interpolate, j)
  {
    hide Report, Reportable;
    if Deterministic(interpolate, j, stack) {
      forall p, q | Reportable(interpolate, j, p) && Reportable(interpolate, j, q) ensures p == q {
        ReportableIsReported(interpolate, j, stack, p);
        ReportableIsReported(interpolate, j, stack, q);
        assert stack + p == stack + q;
        assert p == (stack + p)[|stack|..] && q == (stack + q)[|stack|..];
      }
    }
    if AtMostOneReportable(interpolate, j) {
      forall a: Order, b: Order | Walks(a) && Walks(b)
        ensures Report(interpolate, a, j, stack) == Report(interpolate, b, j, stack)
      {
        SameReport(interpolate, a, b, j, stack);
      }
    }
  }

  lemma SameReport(interpolate: Interpolator, a: Order, b: Order, j: Json, stack: Path)
    requires Walks(a) && Walks(b) && AtMostOneReportable(interpolate, j)
    ensures Report(interpolate, a, j, stack) == Report(interpolate, b, j, stack)
  {
    hide Report, Reportable;
    ReportIsReportable(interpolate, a, j, stack);
    ReportIsReportable(interpolate, b, j, stack);
    var x, y := Report(interpolate, a, j, stack), Report(interpolate, b, j, stack);
    if x.Some? && y.Some? {
      assert x.value == x.value[..|stack|] + x.value[|stack|..];
      assert y.value == y.value[..|stack|] + y.value[|stack|..];
    }
  }

  // ---------- laws ----------

  lemma {:induction false} FailingMeansNot(interpolate: Interpolator, j: Json, path: Path)
    requires FailingLeaf(interpolate, j, path)
    ensures !Evaluable(interpolate, j)
    decreases |path|
  {
    if path != [] {
      match path[0]
      case Key(k) => FailingMeansNot(interpolate, j.members[k], path[1..]);
      case Index(i) => FailingMeansNot(interpolate, j.items[i], path[1..]);
    }
  }

  lemma {:induction false} SomeLeafFails(interpolate: Interpolator, j: Json) returns (path: Path)
    requires !Evaluable(interpolate, j)
    ensures FailingLeaf(interpolate, j, path)
    decreases j
  {
    match j
    case String(s) =>
      path := [];
    case Array(items) =>
      var i :| 0 <= i < |items| && !Evaluable(interpolate, items[i]);
      var below := SomeLeafFails(interpolate, items[i]);
      path := [Index(i)] + below;
      assert path[1..] == below;
    case Object(m) =>
      var k :| k in m && !Evaluable(interpolate, m[k]);
      var below := SomeLeafFails(interpolate, m[k]);
      path := [Key(k)] + below;
      assert path[1..] == below;
  }

  /** What is reported is a leaf that cannot be interpolated. */
  lemma {:induction false} ReportableFails(interpolate: Interpolator, j: Json, path: Path)
    requires Reportable(interpolate, j, path)
    ensures FailingLeaf(interpolate, j, path)
    decreases |path|
  {
    if path != [] {
      match path[0]
      case Key(k) => ReportableFails(interpolate, j.members[k], path[1..]);
      case Index(i) => ReportableFails(interpolate, j.items[i], path[1..]);
    }
  }

  /** Evaluation fails exactly when some leaf fails. */
  lemma EvaluableExactly(interpolate: Interpolator, j: Json)
    ensures Evaluable(interpolate, j) <==> !exists path :: FailingLeaf(interpolate, j, path)
  {
    if !Evaluable(interpolate, j) {
      var path := SomeLeafFails(interpolate, j);
    }
    forall path | FailingLeaf(interpolate, j, path) ensures !Evaluable(interpolate, j) {
      FailingMeansNot(interpolate, j, path);
    }
  }

  /** One node against what it is stamped as. */
  ghost predicate Corresponds(interpolate: Interpolator, node: Json, stamped: Json) {
    match node
    case String(s) => interpolate(s) == Some(stamped)
    case Array(items) => stamped.Array? && |stamped.items| == |items|
    case Object(m) => stamped.Object? && stamped.members.Keys == m.Keys
    case _ => stamped == node
  }

  /**
   Stamping is a homomorphism: at every path of the template there is a node in the result, with the same
   keys, the same length or the same scalar, and in place of a string its interpolation.
   */
  lemma {:induction false} StampedCorresponds(interpolate: Interpolator, j: Json, path: Path)
    requires Evaluable(interpolate, j) && At(j, path).Some?
    ensures At(Stamped(interpolate, j), path).Some?
    ensures Corresponds(interpolate, At(j, path).value, At(Stamped(interpolate, j), path).value)
    decreases |path|
  {
    if path != [] {
      match path[0]
      case Key(k) => StampedCorresponds(interpolate, j.members[k], path[1..]);
      case Index(i) => StampedCorresponds(interpolate, j.items[i], path[1..]);
    }
  }
}
