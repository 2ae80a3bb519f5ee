/** The laws of reconciles for worlds whose resource realizer is the production one. */
module Production {
  import opened Common
  import opened Api
  import opened Statuses
  import opened Realizer
  import opened Reconciler
  import C = Component
  import Cleanup
  import RunLaws
  import SelfWaking

  /** What the steps of realizing a resource come to, for each call. */
  type Stepper = (nat, OwnerResource, Outputs) -> C.Steps

  ghost predicate AnswersBy(w: World, steps: Stepper) {
    forall i, r, o :: w.answer(i, r, o) == C.Do(steps(i, r, o))
  }

  /** The steps of resource `i`, given what the resources before it came to. */
  function StepsAt(w: World, steps: Stepper, rs: seq<OwnerResource>, i: nat): C.Steps
    requires i < |rs|
  {
    steps(i, rs[i], Seen(w, rs, i))
  }

  /** A pass-through of a known kind whose input is missing. */
  predicate MissingInput(st: C.Steps) {
    st.choice.PassesThrough? && st.passThroughReader.Ok? && st.passThroughOutput.Failed?
  }

  /** The production realizer meets what cleanup relies on. */
  lemma ObjectsComeWithTemplates(w: World, steps: Stepper, rs: seq<OwnerResource>)
    requires AnswersBy(w, steps)
    ensures Cleanup.ObjectsHaveTemplates(w, rs)
  {
    hide C.Do, Seen;
    forall i | 0 <= i < |rs| ensures AnswerAt(w, rs, i).stamped.Some? ==> AnswerAt(w, rs, i).template.Some? {
      C.AnswerShapes(StepsAt(w, steps, rs, i));
    }
  }

  lemma ErrorFromSteps(previous: seq<ResourceStatus>, w: World, steps: Stepper, rs: seq<OwnerResource>,
                       clock: nat -> Readings, i: nat)
    requires AnswersBy(w, steps) && i < |rs|
    ensures var e, st := StepAt(previous, w, rs, clock, i).err, StepsAt(w, steps, rs, i);
            && (e.Some? <==> C.Do(st).err.Some?)
            && (e.Some? && MissingPassThrough(e.value) <==> MissingInput(st))
  {
    hide C.Do, FurtherFor, Assess, ResourceFor, Seen;
    var a := AnswerAt(w, rs, i);
    var further := FurtherFor(Prior(previous, rs[i].name), w, rs[i], a, clock(i));
    C.MissingPassThroughExactly(StepsAt(w, steps, rs, i), further);
  }

  /** The first resource to fail is a pass-through with a missing input. */
  ghost predicate FirstFailsForInput(w: World, steps: Stepper, rs: seq<OwnerResource>) {
    exists i :: && 0 <= i < |rs| && MissingInput(StepsAt(w, steps, rs, i))
                && forall j :: 0 <= j < i ==> C.Do(StepsAt(w, steps, rs, j)).err.None?
  }

  lemma FirstErrorFromSteps(previous: seq<ResourceStatus>, w: World, steps: Stepper, rs: seq<OwnerResource>,
                            clock: nat -> Readings)
    requires AnswersBy(w, steps)
    ensures var e := FirstError(previous, w, rs, clock, |rs|);
            e.Some? && MissingPassThrough(e.value) <==> FirstFailsForInput(w, steps, rs)
  {
    hide C.Do, StepAt, StepsAt, MissingInput, FirstError, AnswersBy;
    RunLaws.FirstErrorIsFirst(previous, w, rs, clock, |rs|);
    forall i | 0 <= i < |rs|
      ensures var e, st := StepAt(previous, w, rs, clock, i).err, StepsAt(w, steps, rs, i);
              && (e.Some? <==> C.Do(st).err.Some?)
              && (e.Some? && MissingPassThrough(e.value) <==> MissingInput(st))
    {
      ErrorFromSteps(previous, w, steps, rs, clock, i);
    }
    var e := FirstError(previous, w, rs, clock, |rs|);
    if e.Some? {
      var j :| 0 <= j < |rs| && StepAt(previous, w, rs, clock, j).err == e
               && forall k :: 0 <= k < j ==> StepAt(previous, w, rs, clock, k).err == None;
      if FirstFailsForInput(w, steps, rs) {
        var i :| 0 <= i < |rs| && MissingInput(StepsAt(w, steps, rs, i))
                 && forall k :: 0 <= k < i ==> C.Do(StepsAt(w, steps, rs, k)).err.None?;
        assert StepAt(previous, w, rs, clock, i).err.Some?;
        assert i == j;
      }
    }
  }

  /**
   Whether a reconcile never comes to rest can be told from the facts and the steps alone: it stops before
   adding a condition, or the first resource to fail is a pass-through with a missing input. Neither the
   persisted status nor any clock has a say.
   */
  lemma RestlessFromSteps(s: OwnerStatus, f: Facts, c: OwnerClock, steps: Stepper)
    requires AnswersBy(f.world, steps)
    ensures SelfWaking.Restless(s, f, c)
            <==> match RouteOf(f)
                 case Stopped(added) => added == []
                 case Realizing(chain) => FirstFailsForInput(f.world, steps, chain.resources)
  {
    hide RouteOf, FirstError, FirstFailsForInput;
    match RouteOf(f)
    case Stopped(_) =>
    case Realizing(chain) =>
      FirstErrorFromSteps(s.resources, f.world, steps, chain.resources, c.resources);
  }
}
