/** Realizing one resource: the shapes of what it can come to. */
module Component {
  import opened Common
  import opened Conditions
  import opened Api
  import opened Realizer
  import opened SelectorMatching

  /** A template by name, a pass-through, or one of the two failures to choose among the options. */
  datatype Choice =
    | Named(name: string)
    | PassesThrough(input: string)
    | Unresolved(text: string)
    | Ambiguous(text: string)

  function ChoiceOf(option: TemplateOption): Choice {
    if option.passThrough != "" then PassesThrough(option.passThrough) else Named(option.name)
  }

  /**
   The template's own name if there are no options. Otherwise an erroneous selector, more or less than one best
   option, or what the only best option stands for; `describe` words an error.
   */
  method GetTemplateNameFromResource(owner: Selectable, name: string, options: seq<TemplateOption>,
                                     describe: OptionChoice -> string) returns (c: Choice)
    ensures options == [] ==> c == Named(name)
    ensures options != [] ==>
              && (c.Unresolved? <==> !NoError(owner, SelectorsOf(options)))
              && (c.Ambiguous? ==>
                    exists indices :: AllBest(owner, SelectorsOf(options), indices) && |indices| != 1)
              && (c.Named? || c.PassesThrough? ==>
                    exists i: nat :: i < |options| && AllBest(owner, SelectorsOf(options), [i])
                                     && c == ChoiceOf(options[i]))
  {
    hide OutcomeOf, AllBest;
    if options == [] {
      return Named(name);
    }
    var r := FindMatchingTemplateOption(owner, options);
    match r
    case OptionError(_) => c := Unresolved(describe(r));
    case NotExactlyOne(_) => c := Ambiguous(describe(r));
    case ChosenOption(option) => c := ChoiceOf(option);
  }

  datatype Try<T> = Ok(value: T) | Failed(text: string)

  /** The steps' results, in the order in which they are taken. */
  datatype Steps = Steps(
    choice: Choice,
    passThroughReader: Try<()>,
    passThroughOutput: Try<Output>,
    template: Try<Template>,
    reader: Try<()>,
    stamp: Try<Object>,
    stampReader: Try<()>,
    applied: Try<Object>,
    listed: Try<()>,
    output: Try<Output>,
    expression: string,
    qualifiedResource: string)

  function Nothing(template: Option<Template>, passThrough: bool, name: string, err: Error): Answer {
    Answer(template, None, None, passThrough, name, Some(err))
  }

  function DoPassThrough(st: Steps, input: string): Answer {
    if st.passThroughReader.Failed? then Nothing(None, true, "", OtherError(st.passThroughReader.text))
    else if st.passThroughOutput.Failed? then
      Nothing(None, true, "",
              RetrieveOutputError(st.passThroughOutput.text, None, "<no jsonpath context>", "", input, Other("")))
    else Answer(None, None, Some(st.passThroughOutput.value), true, "", None)
  }

  /** Applying the stamped object and reading its output; an immutable object is listed in between. */
  function DoStamped(st: Steps, t: Template, name: string): Answer {
    if st.applied.Failed? then Nothing(Some(t), false, name, ApplyStampedObjectError(st.applied.text))
    else if IsImmutable(t.lifecycle) && st.listed.Failed? then
      Nothing(Some(t), false, name, ListCreatedObjectsError(st.listed.text))
    else
      var o := st.applied.value;
      if st.output.Failed? then
        Answer(Some(t), Some(o), None, false, name,
               Some(RetrieveOutputError(st.output.text, Some(o.ref), st.expression, st.qualifiedResource, "",
                                         Other(""))))
      else Answer(Some(t), Some(o), Some(st.output.value), false, name, None)
  }

  function NoChoice(e: Error): Answer {
    var inner := Wrapped("find matching template option: " + e.text, e);
    Nothing(None, false, "", Wrapped("get template name from resource: " + inner.text, inner))
  }

  function Do(st: Steps): Answer {
    match st.choice
    case Unresolved(text) => NoChoice(ResolveTemplateOptionError(text))
    case Ambiguous(text) => NoChoice(TemplateOptionsMatchError(text))
    case PassesThrough(input) => DoPassThrough(st, input)
    case Named(name) =>
      if st.template.Failed? then Nothing(None, false, name, GetTemplateError(st.template.text))
      else if st.reader.Failed? then Nothing(None, false, name, OtherError(st.reader.text))
      else
        var t := st.template.value;
        if st.stamp.Failed? then Nothing(Some(t), false, name, StampError(st.stamp.text))
        else if st.stampReader.Failed? then Nothing(None, false, name, OtherError(st.stampReader.text))
        else DoStamped(st, t, name)
  }

  /** What a resource with a named template fails with, by the first step that fails, and what it has by then. */
  lemma TemplateFails(st: Steps)
    requires st.choice.Named?
    ensures var a, name := Do(st), st.choice.name;
            if st.template.Failed? then a.err == Some(GetTemplateError(st.template.text)) && a.template.None?
            else if st.reader.Failed? then a.err == Some(OtherError(st.reader.text)) && a.template.None?
            else if st.stamp.Failed? then
              a.err == Some(StampError(st.stamp.text)) && a.template == Some(st.template.value) && a.stamped.None?
            else if st.stampReader.Failed? then a.err == Some(OtherError(st.stampReader.text)) && a.template.None?
            else if st.applied.Failed? then
              && a.err == Some(ApplyStampedObjectError(st.applied.text))
              && a.template == Some(st.template.value) && a.stamped.None?
            else if st.template.value.lifecycle != Mutable && st.listed.Failed? then
              && a.err == Some(ListCreatedObjectsError(st.listed.text))
              && a.template == Some(st.template.value) && a.stamped.None?
            else
              && a.template == Some(st.template.value) && a.stamped == Some(st.applied.value)
              && if st.output.Failed? then
                   && a.output.None? && a.err.Some? && a.err.value.RetrieveOutputError?
                   && a.err.value.stamped == Some(st.applied.value.ref)
                 else a.err.None? && a.output == Some(st.output.value)
    ensures Do(st).templateName == st.choice.name
  {
  }

  /** What a pass-through comes to: its input's value, or which error. */
  lemma PassThroughComesTo(st: Steps)
    requires st.choice.PassesThrough?
    ensures var a := Do(st);
            if st.passThroughReader.Failed? then a.err == Some(OtherError(st.passThroughReader.text)) && a.output.None?
            else if st.passThroughOutput.Failed? then
              && a.output.None? && a.err.Some? && MissingPassThrough(a.err.value)
              && a.err.value.passThroughInput == st.choice.input
            else a.err.None? && a.output == Some(st.passThroughOutput.value)
  {
  }

  /** An object never comes without its template; what passes through has neither. */
  lemma AnswerShapes(st: Steps)
    ensures Do(st).stamped.Some? ==> Do(st).template.Some?
    ensures Do(st).passThrough ==> Do(st).template.None? && Do(st).stamped.None?
    ensures Do(st).passThrough <==> st.choice.PassesThrough?
    ensures Do(st).output.Some? <==> Do(st).err.None?
  {
  }

  /**
   The error that keeps a reconcile from coming to rest arises exactly when a pass-through of a
   known kind finds its input missing.
   */
  lemma MissingPassThroughExactly(st: Steps, further: seq<Condition>)
    ensures var e := ErrorFor(Do(st).err, further);
            (e.Some? && MissingPassThrough(e.value))
            <==> (st.choice.PassesThrough? && st.passThroughReader.Ok? && st.passThroughOutput.Failed?)
  {
    if NoneChosen(st.choice) {
      WrappingHidesNothing(st);
    }
  }

  predicate NoneChosen(choice: Choice) {
    choice.Unresolved? || choice.Ambiguous?
  }

  lemma WrappingHidesNothing(st: Steps)
    requires NoneChosen(st.choice)
    ensures Do(st).err.Some? && Do(st).err.value.Wrapped? && AsRetrieveOutput(Do(st).err.value).None?
  {
    var inner := Do(st).err.value.cause;
    assert AsRetrieveOutput(inner) == AsRetrieveOutput(inner.cause);
    assert AsRetrieveOutput(Do(st).err.value) == AsRetrieveOutput(inner);
  }

  /** Which error a failure to choose an option gives, under two wrappings. */
  lemma OptionErrorsAreWrapped(st: Steps)
    requires NoneChosen(st.choice)
    ensures var a, e := Do(st), if st.choice.Unresolved? then ResolveTemplateOptionError(st.choice.text)
                                else TemplateOptionsMatchError(st.choice.text);
            && a.err.Some? && Causes(a.err.value) == [a.err.value, a.err.value.cause, e]
            && a.template.None? && a.stamped.None? && a.output.None? && !a.passThrough
  {
    var inner := Do(st).err.value.cause;
    assert Causes(inner) == [inner] + Causes(inner.cause);
    assert Causes(Do(st).err.value) == [Do(st).err.value] + Causes(inner);
  }

  /** A failure to choose an option is wrapped, so the resource's condition reports it as an unknown error. */
  lemma OptionErrorsAreUnknown(st: Steps, further: seq<Condition>, isOwner: bool)
    requires NoneChosen(st.choice)
    ensures var e := ErrorFor(Do(st).err, further);
            e.Some? && ErrorCondition(isOwner, e.value).reason == "UnknownError"
  {
    WrappingHidesNothing(st);
  }
}
