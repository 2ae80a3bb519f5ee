/** Field requirements: a JSON path, an operator and values. */
module Fields {
  import opened Api

  /** A match, no match, no match for want of the path, or a failure to evaluate. */
  datatype MatchOutcome = Matched | Unmatched | PathMissing | Failed

  function Matches(req: FieldRequirement, paths: map<string, PathResult>): MatchOutcome {
    var r := Evaluate(paths, req.key);
    if r.Broken? then Failed
    else if r.NoSuchPath? && req.operator != DoesNotExist then PathMissing
    else
      var actual := if r.Found? then r.value else Nil;
      var listed := actual.Text? && actual.text in req.values;
      match req.operator
      case In => if listed then Matched else Unmatched
      case NotIn => if listed then Unmatched else Matched
      case Exists => if actual != Nil then Matched else Unmatched
      case DoesNotExist => if actual == Nil then Matched else Unmatched
      case Invalid(_) => Failed
  }

  /** The value at the path; a missing path counts as nil. */
  ghost predicate ValueIs(paths: map<string, PathResult>, key: string, v: FieldValue) {
    match Evaluate(paths, key)
    case Found(x) => v == x
    case NoSuchPath => v == Nil
    case Broken => false
  }

  /** What each operator asks of the value at the path, and when it is not asked at all. */
  lemma OperatorsMean(key: string, operator: Operator, values: seq<string>, paths: map<string, PathResult>)
    ensures var m := Matches(FieldRequirement(key, operator, values), paths);
            && (operator == In ==> (m == Matched <==> exists x :: x in values && ValueIs(paths, key, Text(x))))
            && (operator == NotIn ==>
                  (m == Matched <==> && Evaluate(paths, key).Found?
                                     && forall x :: x in values ==> !ValueIs(paths, key, Text(x))))
            && (operator == Exists ==> (m == Matched <==> exists v :: ValueIs(paths, key, v) && v != Nil))
            && (operator == DoesNotExist ==> (m == Matched <==> ValueIs(paths, key, Nil)))
            && (operator.Invalid? ==> m != Matched && m != Unmatched)
            && (m == PathMissing <==> Evaluate(paths, key) == NoSuchPath && operator != DoesNotExist)
            && (m == Failed <==> Evaluate(paths, key) == Broken
                                 || (operator.Invalid? && Evaluate(paths, key) != NoSuchPath))
  {
    if Evaluate(paths, key).Found? {
      assert ValueIs(paths, key, Evaluate(paths, key).value);
    }
  }
}
