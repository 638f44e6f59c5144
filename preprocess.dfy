/** `preprocessor::preprocess`: drive the macro engine with the hook policy
    installed and assemble the output text. The engine itself is an input: a
    function from the actions of the compile flags to the run it performs,
    given as the hook calls it makes before each token and the token's value. */
module Preprocessing {
  import opened CStrings
  import opened Entities
  import opened Hooks
  import opened CompileFlags

  /** One hook call of the macro engine, with the arguments it passes. */
  datatype Event =
    | WarningDirective
    | IncludeDirective(ctx: Context, fileName: string, includeNext: bool, indeterminate: bool)
    | MacroDefined(ctx: Context, name: Token, isFunctionLike: bool, parameters: seq<Token>,
                   definition: seq<Token>, isPredefined: bool)
    | MacroUndefined(ctx: Context, name: Token)

  /** The hook calls the engine makes while advancing to a token, then the
      token's value. */
  datatype Step = Step(events: seq<Event>, token: string)

  /** A whole run of the engine: its tokens, and the hook calls it makes
      after the last token while reaching the end of the input. */
  datatype Run = Run(steps: seq<Step>, tail: seq<Event>)

  /** The engine hands `found_include_directive` a delimited name, except
      perhaps for `include_next`, whose name the hook does not inspect. */
  predicate WellFormed(e: Event)
  {
    e.IncludeDirective? ==> e.includeNext || Delimited(e.fileName)
  }

  predicate AllWellFormed(events: seq<Event>)
  {
    forall i :: 0 <= i < |events| ==> WellFormed(events[i])
  }

  predicate StepsWellFormed(steps: seq<Step>)
  {
    forall k :: 0 <= k < |steps| ==> AllWellFormed(steps[k].events)
  }

  predicate RunWellFormed(run: Run)
  {
    StepsWellFormed(run.steps) && AllWellFormed(run.tail)
  }

  // ------------------------------------------------------- effects of the hooks

  /** The entity list after one hook call. */
  function EventEntities(pre: Config, s: seq<Entity>, e: Event): seq<Entity>
    requires WellFormed(e)
  {
    match e
    case WarningDirective => s
    case IncludeDirective(ctx, fileName, includeNext, indeterminate) =>
      IncludeEffect(pre, s, ctx, fileName, includeNext, indeterminate)
    case MacroDefined(ctx, name, isFunctionLike, parameters, definition, isPredefined) =>
      DefineEffect(s, ctx, name, isFunctionLike, parameters, definition, isPredefined)
    case MacroUndefined(ctx, name) => UndefineEffect(s, ctx, name)
  }

  /** The text one hook call appends to the include buffer. */
  function EventText(pre: Config, e: Event): string
    requires WellFormed(e)
  {
    match e
    case IncludeDirective(ctx, fileName, includeNext, indeterminate) =>
      IncludeText(pre, ctx, fileName, includeNext, indeterminate)
    case _ => ""
  }

  function EventsEntities(pre: Config, s: seq<Entity>, events: seq<Event>): seq<Entity>
    requires AllWellFormed(events)
  {
    if events == [] then s
    else EventEntities(pre, EventsEntities(pre, s, events[..|events| - 1]), events[|events| - 1])
  }

  function EventsText(pre: Config, events: seq<Event>): string
    requires AllWellFormed(events)
  {
    if events == [] then "" else EventsText(pre, events[..|events| - 1]) + EventText(pre, events[|events| - 1])
  }

  function StepsEntities(pre: Config, s: seq<Entity>, steps: seq<Step>): seq<Entity>
    requires StepsWellFormed(steps)
  {
    if steps == [] then s
    else EventsEntities(pre, StepsEntities(pre, s, steps[..|steps| - 1]), steps[|steps| - 1].events)
  }

  /** The output text: for each token in order its value (read through
      `c_str()`) followed by whatever the hooks wrote while producing it. */
  function Output(pre: Config, steps: seq<Step>): string
    requires StepsWellFormed(steps)
  {
    if steps == [] then ""
    else
      var last := steps[|steps| - 1];
      Output(pre, steps[..|steps| - 1]) + CStr(last.token) + EventsText(pre, last.events)
  }

  /** The token values alone, concatenated. */
  function TokenText(steps: seq<Step>): string
  {
    if steps == [] then "" else TokenText(steps[..|steps| - 1]) + CStr(steps[|steps| - 1].token)
  }

  // ------------------------------------------------------------------- the run

  /** The engine calling the hook an event stands for. */
  method Dispatch(policy: Policy, e: Event)
    requires WellFormed(e)
    modifies policy, policy.file
    ensures policy.file.entities == EventEntities(policy.pre, old(policy.file.entities), e)
    ensures policy.buffer == old(policy.buffer) + EventText(policy.pre, e)
  {
    match e {
      case WarningDirective =>
        var ignore := policy.FoundWarningDirective();
      case IncludeDirective(ctx, fileName, includeNext, indeterminate) =>
        var skip := policy.FoundIncludeDirective(ctx, fileName, includeNext, indeterminate);
      case MacroDefined(ctx, name, isFunctionLike, parameters, definition, isPredefined) =>
        policy.DefinedMacro(ctx, name, isFunctionLike, parameters, definition, isPredefined);
      case MacroUndefined(ctx, name) =>
        policy.UndefinedMacro(ctx, name);
    }
  }

  lemma PrefixStep(pre: Config, s: seq<Entity>, events: seq<Event>, i: nat)
    requires AllWellFormed(events) && i < |events|
    ensures AllWellFormed(events[..i]) && AllWellFormed(events[..i + 1]) && WellFormed(events[i])
    ensures EventsEntities(pre, s, events[..i + 1]) == EventEntities(pre, EventsEntities(pre, s, events[..i]), events[i])
    ensures EventsText(pre, events[..i + 1]) == EventsText(pre, events[..i]) + EventText(pre, events[i])
  {
    var prefix := events[..i + 1];
    assert prefix[..i] == events[..i] && prefix[i] == events[i];
  }

  /** The engine making a series of hook calls, in order. */
  method Fire(policy: Policy, events: seq<Event>)
    requires AllWellFormed(events)
    modifies policy, policy.file
    ensures policy.file.entities == EventsEntities(policy.pre, old(policy.file.entities), events)
    ensures policy.buffer == old(policy.buffer) + EventsText(policy.pre, events)
  {
    var pre, file := policy.pre, policy.file;
    ghost var s0, b0 := file.entities, policy.buffer;
    var i := 0;
    while i < |events|
      invariant 0 <= i <= |events|
      invariant file.entities == EventsEntities(pre, s0, events[..i])
      invariant policy.buffer == b0 + EventsText(pre, events[..i])
    {
      PrefixStep(pre, s0, events, i);
      Dispatch(policy, events[i]);
      SeqAssoc(b0, EventsText(pre, events[..i]), EventText(pre, events[i]));
      i := i + 1;
    }
    assert events[..|events|] == events;
  }

  lemma StepsPrefixStep(pre: Config, s: seq<Entity>, steps: seq<Step>, k: nat)
    requires StepsWellFormed(steps) && k < |steps|
    ensures StepsWellFormed(steps[..k]) && StepsWellFormed(steps[..k + 1]) && AllWellFormed(steps[k].events)
    ensures StepsEntities(pre, s, steps[..k + 1]) == EventsEntities(pre, StepsEntities(pre, s, steps[..k]), steps[k].events)
    ensures Output(pre, steps[..k + 1]) == Output(pre, steps[..k]) + CStr(steps[k].token) + EventsText(pre, steps[k].events)
  {
    var prefix := steps[..k + 1];
    assert prefix[..k] == steps[..k] && prefix[k] == steps[k];
  }

  /** One iteration of the token loop: the engine makes the step's hook
      calls while advancing, the token's value goes out, then the include
      buffer is flushed and cleared. */
  method Advance(policy: Policy, step: Step) returns (text: string)
    requires AllWellFormed(step.events) && policy.buffer == ""
    modifies policy, policy.file
    ensures policy.buffer == ""
    ensures text == CStr(step.token) + EventsText(policy.pre, step.events)
    ensures policy.file.entities == EventsEntities(policy.pre, old(policy.file.entities), step.events)
  {
    ghost var written := EventsText(policy.pre, step.events);
    Fire(policy, step.events);
    assert policy.buffer == written;
    text := CStr(step.token);
    if policy.buffer != "" {
      text := text + policy.buffer;
      policy.buffer := "";
    } else {
      assert text == text + written;
    }
  }

  /** `preprocess`: interpret the flags, run the engine with the policy
      installed, append every token's value and then flush the include
      buffer. The buffer is empty again at the end of every iteration. */
  method Preprocess(pre: Config, flags: seq<string>, engine: seq<Action> -> Run, file: CppFile)
    returns (preprocessed: string)
    requires Complete(flags)
    requires RunWellFormed(engine(ParseFlags(flags)))
    modifies file
    ensures var run := engine(ParseFlags(flags));
      preprocessed == Output(pre, run.steps) &&
      file.entities == EventsEntities(pre, StepsEntities(pre, old(file.entities), run.steps), run.tail)
  {
    var policy := new Policy(pre, file);
    var actions := SetupContext(flags);
    var run := engine(actions);
    preprocessed := "";
    for k := 0 to |run.steps|
      invariant policy.buffer == ""
      invariant preprocessed == Output(pre, run.steps[..k])
      invariant file.entities == StepsEntities(pre, old(file.entities), run.steps[..k])
    {
      StepsPrefixStep(pre, old(file.entities), run.steps, k);
      var text := Advance(policy, run.steps[k]);
      SeqAssoc(preprocessed, CStr(run.steps[k].token), EventsText(pre, run.steps[k].events));
      preprocessed := preprocessed + text;
    }
    assert run.steps[..|run.steps|] == run.steps;
    Fire(policy, run.tail);
  }
}
