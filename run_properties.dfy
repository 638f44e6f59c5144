/** What a whole preprocessing run promises: the entity list is an
    append/truncate log, only main-file hook calls touch it, and the output
    differs from the plain token text exactly by the synthesized directives. */
module RunProperties {
  import opened CStrings
  import opened Entities
  import opened Hooks
  import opened HookProperties
  import opened Preprocessing

  // ------------------------------------------------------------ the entity log

  /** Every hook call either keeps a prefix of the list (a retraction, or no
      change) or appends exactly one entity at the end. */
  lemma EventIsAppendOrTruncate(pre: Config, s: seq<Entity>, e: Event)
    requires WellFormed(e)
    ensures var r := EventEntities(pre, s, e);
      r <= s || (|r| == |s| + 1 && r[..|s|] == s)
  {
    match e {
      case WarningDirective =>
      case IncludeDirective(ctx, fileName, includeNext, indeterminate) =>
        IncludePartition(pre, s, ctx, fileName, includeNext, indeterminate);
      case MacroDefined(ctx, name, isFunctionLike, parameters, definition, isPredefined) =>
        DefinedMacroEffect(s, ctx, name, isFunctionLike, parameters, definition, isPredefined);
      case MacroUndefined(ctx, name) =>
    }
  }

  /** Without `#undef`, the log only grows: what was recorded stays, in its
      place, and new entities come after it. */
  lemma {:induction false} AppendOnlyWithoutUndefine(pre: Config, s: seq<Entity>, events: seq<Event>)
    requires AllWellFormed(events)
    requires forall i :: 0 <= i < |events| ==> !events[i].MacroUndefined?
    ensures s <= EventsEntities(pre, s, events)
  {
    if events != [] {
      var n := |events| - 1;
      AppendOnlyWithoutUndefine(pre, s, events[..n]);
      var mid := EventsEntities(pre, s, events[..n]);
      EventIsAppendOrTruncate(pre, mid, events[n]);
      var r := EventEntities(pre, mid, events[n]);
      if r <= mid {
        match events[n] {
          case WarningDirective =>
          case IncludeDirective(ctx, fileName, includeNext, indeterminate) =>
            IncludePartition(pre, mid, ctx, fileName, includeNext, indeterminate);
          case MacroDefined(ctx, name, isFunctionLike, parameters, definition, isPredefined) =>
            DefinedMacroEffect(mid, ctx, name, isFunctionLike, parameters, definition, isPredefined);
        }
        assert r == mid;
      } else {
        assert r[..|mid|] == mid;
      }
    }
  }

  // ------------------------------------------------------------ depth filtering

  /** A hook call the entity list can see: a macro or include event at
      depth 0. Warnings never change the list. */
  predicate InMainFile(e: Event)
  {
    !e.WarningDirective? && e.ctx.depth == 0
  }

  /** The hook calls made in the main file, in their order. */
  function MainFileEvents(events: seq<Event>): (r: seq<Event>)
    ensures forall i :: 0 <= i < |r| ==> InMainFile(r[i])
    ensures AllWellFormed(events) ==> AllWellFormed(r)
    ensures |r| <= |events|
  {
    if events == [] then []
    else
      var init := MainFileEvents(events[..|events| - 1]);
      var e := events[|events| - 1];
      if InMainFile(e) then init + [e] else init
  }

  /** A hook call outside the main file leaves the list as it is. */
  lemma OutsideMainFileUnchanged(pre: Config, s: seq<Entity>, e: Event)
    requires WellFormed(e) && !InMainFile(e)
    ensures EventEntities(pre, s, e) == s
  {
  }

  /** The entity list depends only on the main-file hook calls: whatever a
      header brings in transitively (its macros, its includes, its
      `#undef`s) is never recorded and never retracts anything. */
  lemma {:induction false} OnlyMainFileEventsMatter(pre: Config, s: seq<Entity>, events: seq<Event>)
    requires AllWellFormed(events)
    ensures EventsEntities(pre, s, events) == EventsEntities(pre, s, MainFileEvents(events))
  {
    if events != [] {
      var n := |events| - 1;
      var e := events[n];
      OnlyMainFileEventsMatter(pre, s, events[..n]);
      var init := MainFileEvents(events[..n]);
      if InMainFile(e) {
        var r := init + [e];
        assert r[..|r| - 1] == init && r[|r| - 1] == e;
      } else {
        OutsideMainFileUnchanged(pre, EventsEntities(pre, s, events[..n]), e);
      }
    }
  }

  // ------------------------------------------------------------- output text

  /** A hook call that writes into the include buffer: an include the policy
      does not treat as relevant, which the engine is told to skip. */
  predicate Rewrites(pre: Config, e: Event)
    requires WellFormed(e)
  {
    e.IncludeDirective? && IncludeSkips(pre, e.ctx, e.fileName, e.includeNext, e.indeterminate)
  }

  lemma EventTextWrittenIffRewrites(pre: Config, e: Event)
    requires WellFormed(e)
    ensures EventText(pre, e) != "" <==> Rewrites(pre, e)
  {
    if e.IncludeDirective? {
      IncludePartition(pre, [], e.ctx, e.fileName, e.includeNext, e.indeterminate);
    }
  }

  lemma {:induction false} EventsTextEmptyIffNoRewrite(pre: Config, events: seq<Event>)
    requires AllWellFormed(events)
    ensures EventsText(pre, events) == "" <==> forall i :: 0 <= i < |events| ==> !Rewrites(pre, events[i])
  {
    if events != [] {
      var n := |events| - 1;
      EventsTextEmptyIffNoRewrite(pre, events[..n]);
      EventTextWrittenIffRewrites(pre, events[n]);
      assert forall i :: 0 <= i < n ==> events[..n][i] == events[i];
    }
  }

  /** The output holds at least the token text. */
  lemma {:induction false} OutputCoversTokenText(pre: Config, steps: seq<Step>)
    requires StepsWellFormed(steps)
    ensures |Output(pre, steps)| >= |TokenText(steps)|
  {
    if steps != [] {
      OutputCoversTokenText(pre, steps[..|steps| - 1]);
    }
  }

  /** The output is longer than the token text as soon as the hooks wrote
      something during some token. */
  lemma {:induction false} OutputLongerWithRewrite(pre: Config, steps: seq<Step>, k: nat)
    requires StepsWellFormed(steps)
    requires k < |steps| && EventsText(pre, steps[k].events) != ""
    ensures |Output(pre, steps)| > |TokenText(steps)|
  {
    var n := |steps| - 1;
    var init := steps[..n];
    LastStepLengths(pre, steps);
    if k < n {
      assert init[k] == steps[k];
      OutputLongerWithRewrite(pre, init, k);
      LongerKept(pre, steps);
    } else {
      assert k == n;
      OutputCoversTokenText(pre, init);
      LongerAtLast(pre, steps);
    }
  }

  /** The lengths of the output and of the token text, one step back. */
  lemma LastStepLengths(pre: Config, steps: seq<Step>)
    requires StepsWellFormed(steps) && steps != []
    ensures StepsWellFormed(steps[..|steps| - 1])
    ensures |Output(pre, steps)| == |Output(pre, steps[..|steps| - 1])| + |CStr(steps[|steps| - 1].token)|
                                  + |EventsText(pre, steps[|steps| - 1].events)|
    ensures |TokenText(steps)| == |TokenText(steps[..|steps| - 1])| + |CStr(steps[|steps| - 1].token)|
  {
  }

  /** A longer output before the last step stays longer after it. */
  lemma LongerKept(pre: Config, steps: seq<Step>)
    requires StepsWellFormed(steps) && steps != []
    requires StepsWellFormed(steps[..|steps| - 1])
    requires |Output(pre, steps[..|steps| - 1])| > |TokenText(steps[..|steps| - 1])|
    ensures |Output(pre, steps)| > |TokenText(steps)|
  {
    LastStepLengths(pre, steps);
  }

  /** Text written during the last step makes the output longer. */
  lemma LongerAtLast(pre: Config, steps: seq<Step>)
    requires StepsWellFormed(steps) && steps != []
    requires StepsWellFormed(steps[..|steps| - 1])
    requires |Output(pre, steps[..|steps| - 1])| >= |TokenText(steps[..|steps| - 1])|
    requires EventsText(pre, steps[|steps| - 1].events) != ""
    ensures |Output(pre, steps)| > |TokenText(steps)|
  {
    LastStepLengths(pre, steps);
  }

  /** The output is the plain concatenation of the token values exactly when
      no include was rewritten during the run. */
  lemma {:induction false} OutputIsTokenTextIffNoRewrite(pre: Config, steps: seq<Step>)
    requires StepsWellFormed(steps)
    ensures Output(pre, steps) == TokenText(steps) <==>
      forall k, i :: 0 <= k < |steps| && 0 <= i < |steps[k].events| ==> !Rewrites(pre, steps[k].events[i])
  {
    if forall k, i :: 0 <= k < |steps| && 0 <= i < |steps[k].events| ==> !Rewrites(pre, steps[k].events[i]) {
      NoRewriteOutput(pre, steps);
    } else {
      var k, i :| 0 <= k < |steps| && 0 <= i < |steps[k].events| && Rewrites(pre, steps[k].events[i]);
      EventsTextEmptyIffNoRewrite(pre, steps[k].events);
      OutputLongerWithRewrite(pre, steps, k);
    }
  }

  lemma {:induction false} NoRewriteOutput(pre: Config, steps: seq<Step>)
    requires StepsWellFormed(steps)
    requires forall k, i :: 0 <= k < |steps| && 0 <= i < |steps[k].events| ==> !Rewrites(pre, steps[k].events[i])
    ensures Output(pre, steps) == TokenText(steps)
  {
    if steps != [] {
      var n := |steps| - 1;
      assert forall k :: 0 <= k < n ==> steps[..n][k] == steps[k];
      NoRewriteOutput(pre, steps[..n]);
      EventsTextEmptyIffNoRewrite(pre, steps[n].events);
    }
  }

  /** With NUL-free token values, the token text is their plain concatenation. */
  lemma {:induction false} TokenTextIsJoin(steps: seq<Step>)
    requires forall k :: 0 <= k < |steps| ==> '\0' !in steps[k].token
    ensures TokenText(steps) == Join(seq(|steps|, k requires 0 <= k < |steps| => steps[k].token))
  {
    if steps != [] {
      var n := |steps| - 1;
      TokenTextIsJoin(steps[..n]);
      var all := seq(|steps|, k requires 0 <= k < |steps| => steps[k].token);
      assert all[..n] == seq(n, k requires 0 <= k < n => steps[..n][k].token);
    }
  }
}
