/** Choosing the most specific matching selector. */
module SelectorMatching {
  import opened Api
  import opened Fields

  datatype Selector = Selector(
    matchLabels: map<string, string>,
    matchExpressions: seq<string>,
    matchFields: seq<FieldRequirement>)

  /** What the label part of a selector says about the owner; parsing and matching are not ours. */
  datatype LabelVerdict = LabelsInvalid | LabelsMatch | LabelsDiffer

  /** The owner: its answer to label selectors, and its JSON paths. */
  datatype Selectable = Selectable(labels: Selector -> LabelVerdict, paths: map<string, PathResult>)

  datatype FieldsVerdict = FieldsMatch | FieldsDiffer | FieldsFail

  /** The first requirement that does not match decides; a missing path is a mismatch, other errors fail. */
  function AllFields(reqs: seq<FieldRequirement>, paths: map<string, PathResult>): FieldsVerdict {
    if reqs == [] then FieldsMatch
    else
      match Matches(reqs[0], paths)
      case Matched => AllFields(reqs[1..], paths)
      case Unmatched => FieldsDiffer
      case PathMissing => FieldsDiffer
      case Failed => FieldsFail
  }

  method MatchesAllFields(reqs: seq<FieldRequirement>, paths: map<string, PathResult>) returns (v: FieldsVerdict)
    ensures v == AllFields(reqs, paths)
    ensures v == FieldsMatch <==> forall i :: 0 <= i < |reqs| ==> Matches(reqs[i], paths) == Matched
  {
    for i := 0 to |reqs|
      invariant AllFields(reqs, paths) == AllFields(reqs[i..], paths)
      invariant forall j :: 0 <= j < i ==> Matches(reqs[j], paths) == Matched
    {
      assert reqs[i..][1..] == reqs[i + 1..];
      var m := Matches(reqs[i], paths);
      if m == Failed {
        return FieldsFail;
      }
      if m != Matched {
        return FieldsDiffer;
      }
    }
    v := FieldsMatch;
  }

  datatype Outcome = Erroneous | NoMatch | Scored(score: nat)

  /** Labels are looked at first; fields only if they match. */
  function OutcomeOf(owner: Selectable, s: Selector): Outcome {
    match owner.labels(s)
    case LabelsInvalid => Erroneous
    case LabelsDiffer => NoMatch
    case LabelsMatch =>
      match AllFields(s.matchFields, owner.paths)
      case FieldsFail => Erroneous
      case FieldsDiffer => NoMatch
      case FieldsMatch => Scored(|s.matchLabels| + |s.matchExpressions| + |s.matchFields|)
  }

  /** The requirements before `i` match. */
  ghost predicate MatchUpTo(owner: Selectable, s: Selector, i: int)
    requires 0 <= i <= |s.matchFields|
  {
    forall j :: 0 <= j < i ==> Matches(s.matchFields[j], owner.paths) == Matched
  }

  /**
   A selector scores iff its labels and all its fields match, with the number of all its requirements. It is
   erroneous iff its labels are, or they match and the first field that does not match fails.
   */
  lemma OutcomeIs(owner: Selectable, s: Selector)
    ensures var o := OutcomeOf(owner, s);
            && (o.Scored? <==> owner.labels(s) == LabelsMatch && MatchUpTo(owner, s, |s.matchFields|))
            && (o.Scored? ==> o.score == |s.matchLabels| + |s.matchExpressions| + |s.matchFields|)
            && (o == Erroneous
                <==> || owner.labels(s) == LabelsInvalid
                     || (owner.labels(s) == LabelsMatch
                         && exists i :: 0 <= i < |s.matchFields| && MatchUpTo(owner, s, i)
                                        && Matches(s.matchFields[i], owner.paths) == Failed))
  {
    hide Matches;
    FieldsDecide(s.matchFields, owner.paths);
  }

  lemma {:induction false} FieldsDecide(reqs: seq<FieldRequirement>, paths: map<string, PathResult>)
    ensures AllFields(reqs, paths) == FieldsMatch
            <==> forall i :: 0 <= i < |reqs| ==> Matches(reqs[i], paths) == Matched
    ensures AllFields(reqs, paths) == FieldsFail
            <==> exists i :: 0 <= i < |reqs| && Matches(reqs[i], paths) == Failed
                             && forall j :: 0 <= j < i ==> Matches(reqs[j], paths) == Matched
  {
    hide Matches;
    if reqs != [] {
      FieldsDecide(reqs[1..], paths);
      assert forall i :: 0 < i < |reqs| ==> reqs[i] == reqs[1..][i - 1];
    }
  }

  /** `i` matches, and nothing among the first `n` scores higher. */
  ghost predicate Best(owner: Selectable, selectors: seq<Selector>, n: nat, i: nat)
    requires n <= |selectors|
  {
    && i < n && OutcomeOf(owner, selectors[i]).Scored? && OutcomeOf(owner, selectors[i]).score >= 1
    && forall j :: 0 <= j < n && OutcomeOf(owner, selectors[j]).Scored? ==>
         OutcomeOf(owner, selectors[j]).score <= OutcomeOf(owner, selectors[i]).score
  }

  ghost predicate Ascending(s: seq<nat>) {
    forall i, j :: 0 <= i < j < |s| ==> s[i] < s[j]
  }

  datatype Selection = Indices(indices: seq<nat>) | SelectorError(index: nat)

  /**
   Without an error, exactly the best indices, ascending; an error names the first erroneous selector.
   */
  method BestSelectorMatchIndices(owner: Selectable, selectors: seq<Selector>) returns (r: Selection)
    ensures r.SelectorError? ==>
              && r.index < |selectors| && OutcomeOf(owner, selectors[r.index]) == Erroneous
              && forall j :: 0 <= j < r.index ==> OutcomeOf(owner, selectors[j]) != Erroneous
    ensures r.Indices? ==>
              && (forall j :: 0 <= j < |selectors| ==> OutcomeOf(owner, selectors[j]) != Erroneous)
              && Ascending(r.indices)
              && forall i :: i in r.indices <==> Best(owner, selectors, |selectors|, i)
  {
    var best: seq<nat> := [];
    var highWaterMark := 1;
    for idx := 0 to |selectors|
      invariant forall j :: 0 <= j < idx ==> OutcomeOf(owner, selectors[j]) != Erroneous
      invariant highWaterMark >= 1 && (best == [] ==> highWaterMark == 1)
      invariant Ascending(best) && forall k :: 0 <= k < |best| ==> best[k] < idx
      invariant forall i :: 0 <= i < idx ==> (i in best <==> OutcomeOf(owner, selectors[i]) == Scored(highWaterMark))
      invariant forall i :: 0 <= i < idx && OutcomeOf(owner, selectors[i]).Scored? ==>
                  OutcomeOf(owner, selectors[i]).score <= highWaterMark
    {
      var s := selectors[idx];
      var labels := owner.labels(s);
      if labels == LabelsInvalid {
        return SelectorError(idx);
      }
      if labels == LabelsDiffer {
        continue;
      }
      var matchScore := |s.matchLabels| + |s.matchExpressions|;
      var fields := MatchesAllFields(s.matchFields, owner.paths);
      if fields == FieldsFail {
        return SelectorError(idx);
      }
      if fields != FieldsMatch {
        continue;
      }
      matchScore := matchScore + |s.matchFields|;
      assert OutcomeOf(owner, s) == Scored(matchScore);
      if matchScore == highWaterMark {
        best := best + [idx];
      } else if matchScore > highWaterMark {
        highWaterMark := matchScore;
        best := [idx];
      }
    }
    HighWaterMarkIsBest(owner, selectors, best, highWaterMark);
    r := Indices(best);
  }

  lemma HighWaterMarkIsBest(owner: Selectable, selectors: seq<Selector>, best: seq<nat>, mark: nat)
    requires mark >= 1 && (best == [] ==> mark == 1)
    requires forall i :: i in best ==> i < |selectors|
    requires forall i :: 0 <= i < |selectors| ==> (i in best <==> OutcomeOf(owner, selectors[i]) == Scored(mark))
    requires forall i :: 0 <= i < |selectors| && OutcomeOf(owner, selectors[i]).Scored? ==>
               OutcomeOf(owner, selectors[i]).score <= mark
    ensures forall i: nat :: i in best <==> Best(owner, selectors, |selectors|, i)
  {
    hide OutcomeOf;
    forall i: nat | Best(owner, selectors, |selectors|, i) ensures i in best {
      if best != [] {
        assert best[0] in best;
        assert OutcomeOf(owner, selectors[best[0]]) == Scored(mark);
      }
    }
  }

  /** What the webhook admits says something. */
  predicate NonEmpty(s: Selector) {
    |s.matchLabels| + |s.matchExpressions| + |s.matchFields| > 0
  }

  /** A selection over admitted selectors is empty only if nothing matches. */
  lemma EmptyMeansNoMatch(owner: Selectable, selectors: seq<Selector>)
    requires forall i :: 0 <= i < |selectors| ==> NonEmpty(selectors[i])
    requires forall i: nat :: !Best(owner, selectors, |selectors|, i)
    ensures forall i :: 0 <= i < |selectors| ==> !OutcomeOf(owner, selectors[i]).Scored?
  {
    if exists i :: 0 <= i < |selectors| && OutcomeOf(owner, selectors[i]).Scored? {
      var i := HighestOf(owner, selectors, |selectors|);
      assert false;
    }
  }

  /** Some index is best as soon as something matches. */
  lemma {:induction false} HighestOf(owner: Selectable, selectors: seq<Selector>, n: nat) returns (i: nat)
    requires n <= |selectors| && forall k :: 0 <= k < n ==> NonEmpty(selectors[k])
    requires exists k :: 0 <= k < n && OutcomeOf(owner, selectors[k]).Scored?
    ensures Best(owner, selectors, n, i)
    decreases n
  {
    hide AllFields;
    var last := OutcomeOf(owner, selectors[n - 1]);
    if exists k :: 0 <= k < n - 1 && OutcomeOf(owner, selectors[k]).Scored? {
      i := HighestOf(owner, selectors, n - 1);
      if last.Scored? && last.score > OutcomeOf(owner, selectors[i]).score {
        i := n - 1;
      }
    } else {
      i := n - 1;
    }
  }

  // ---------- template options ----------

  datatype TemplateOption = TemplateOption(name: string, passThrough: string, selector: Selector)

  datatype OptionChoice =
    | ChosenOption(option: TemplateOption)
    | OptionError(name: string)
    | NotExactlyOne(names: seq<string>)

  function SelectorsOf(options: seq<TemplateOption>): (r: seq<Selector>)
    ensures |r| == |options| && forall i :: 0 <= i < |r| ==> r[i] == options[i].selector
  {
    seq(|options|, i requires 0 <= i < |options| => options[i].selector)
  }

  /** The indices of the best options, in order. */
  ghost predicate AllBest(owner: Selectable, selectors: seq<Selector>, indices: seq<nat>) {
    Ascending(indices) && forall i: nat :: i in indices <==> Best(owner, selectors, |selectors|, i)
  }

  /** `i` is the first erroneous selector. */
  ghost predicate FirstErroneous(owner: Selectable, selectors: seq<Selector>, i: nat) {
    && i < |selectors| && OutcomeOf(owner, selectors[i]) == Erroneous
    && forall j :: 0 <= j < i ==> OutcomeOf(owner, selectors[j]) != Erroneous
  }

  ghost predicate NoError(owner: Selectable, selectors: seq<Selector>) {
    forall j :: 0 <= j < |selectors| ==> OutcomeOf(owner, selectors[j]) != Erroneous
  }

  /**
   An option is chosen if no selector is erroneous and it is the only best one; otherwise the first erroneous
   option is named, or all the best ones.
   */
  method FindMatchingTemplateOption(owner: Selectable, options: seq<TemplateOption>) returns (r: OptionChoice)
    ensures r.OptionError? ==>
              exists i: nat :: FirstErroneous(owner, SelectorsOf(options), i) && r.name == options[i].name
    ensures !r.OptionError? ==> NoError(owner, SelectorsOf(options))
    ensures r.ChosenOption? ==>
              exists i: nat :: AllBest(owner, SelectorsOf(options), [i]) && i < |options| && r.option == options[i]
    ensures r.NotExactlyOne? ==>
              exists indices :: && AllBest(owner, SelectorsOf(options), indices) && |indices| == |r.names| != 1
                                && forall k :: 0 <= k < |indices| ==>
                                     indices[k] < |options| && r.names[k] == options[indices[k]].name
  {
    hide Best, OutcomeOf, Ascending;
    var selectors := SelectorsOf(options);
    var best := BestSelectorMatchIndices(owner, selectors);
    match best
    case SelectorError(index) =>
      assert FirstErroneous(owner, selectors, index);
      r := OptionError(options[index].name);
    case Indices(indices) =>
      assert AllBest(owner, selectors, indices);
      forall k | 0 <= k < |indices| ensures indices[k] < |options| {
        assert indices[k] in indices;
        NamedIndex(owner, selectors, indices[k]);
      }
      if |indices| != 1 {
        var names := [];
        for k := 0 to |indices|
          invariant |names| == k
          invariant forall j :: 0 <= j < k ==> names[j] == options[indices[j]].name
        {
          names := names + [options[indices[k]].name];
        }
        r := NotExactlyOne(names);
      } else {
        assert indices == [indices[0]];
        r := ChosenOption(options[indices[0]]);
      }
  }

  lemma NamedIndex(owner: Selectable, selectors: seq<Selector>, i: nat)
    requires Best(owner, selectors, |selectors|, i)
    ensures i < |selectors|
  {
  }
}
