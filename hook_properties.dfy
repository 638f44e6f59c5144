/** What the hooks of module Hooks promise, stated against independent
    readings: plain concatenation for the recorded macro texts, the first
    match for the retraction, and a reader of the synthesized directive line. */
module HookProperties {
  import opened CStrings
  import opened Entities
  import opened Hooks

  predicate NulFree(tokens: seq<Token>)
  {
    forall i :: 0 <= i < |tokens| ==> '\0' !in tokens[i].value
  }

  // ---------------------------------------------------------------- defined_macro

  /** With NUL-free values, reading each value through `c_str()` changes
      nothing: the text is the plain concatenation, with no separators. */
  lemma {:induction false} ValueTextIsJoin(tokens: seq<Token>)
    requires NulFree(tokens)
    ensures ValueText(tokens) == Join(Values(tokens))
  {
    if tokens != [] {
      var n := |tokens| - 1;
      ValueTextIsJoin(tokens[..n]);
      assert Values(tokens)[..n] == Values(tokens[..n]);
    }
  }

  /** `defined_macro` leaves the list alone exactly for a predefined macro or
      outside the main file; otherwise it appends one macro definition at the
      end, named after the name token and carrying its line. */
  lemma DefinedMacroEffect(s: seq<Entity>, ctx: Context, name: Token, isFunctionLike: bool,
                           parameters: seq<Token>, definition: seq<Token>, isPredefined: bool)
    ensures var r := DefineEffect(s, ctx, name, isFunctionLike, parameters, definition, isPredefined);
      (r == s <==> isPredefined || ctx.depth != 0) &&
      (r != s ==> |r| == |s| + 1 && r[..|s|] == s && r[|s|].MacroDefinition? &&
                  r[|s|].name == CStr(name.value) && r[|s|].line == Unsigned(name.line))
  {
    var r := DefineEffect(s, ctx, name, isFunctionLike, parameters, definition, isPredefined);
    if !isPredefined && ctx.depth == 0 {
      assert |r| == |s| + 1;
    }
  }

  /** The texts of a recorded definition: for a function-like macro the
      parameter tokens between parentheses with nothing between them, for an
      object-like one the empty text; the body is the plain concatenation of
      the definition tokens. */
  lemma DefinedMacroTexts(s: seq<Entity>, ctx: Context, name: Token, isFunctionLike: bool,
                          parameters: seq<Token>, definition: seq<Token>)
    requires ctx.depth == 0
    requires '\0' !in name.value && NulFree(parameters) && NulFree(definition)
    ensures DefineEffect(s, ctx, name, isFunctionLike, parameters, definition, false)
         == s + [MacroDefinition(name.value,
                                 if isFunctionLike then "(" + Join(Values(parameters)) + ")" else "",
                                 Join(Values(definition)),
                                 Unsigned(name.line))]
  {
    ValueTextIsJoin(parameters);
    ValueTextIsJoin(definition);
  }

  // -------------------------------------------------------------- undefined_macro

  /** `undefined_macro` outside the main file changes nothing; in the main
      file it keeps exactly the entities before the first one named after the
      macro, whatever their kind, and changes nothing when there is none. */
  lemma UndefinedMacroEffect(s: seq<Entity>, ctx: Context, name: Token, first: nat)
    requires first <= |s|
    requires forall j :: 0 <= j < first ==> s[j].name != CStr(name.value)
    requires first < |s| ==> s[first].name == CStr(name.value)
    ensures UndefineEffect(s, ctx, name) == if ctx.depth == 0 then s[..first] else s
  {
    PredecessorUnique(s, CStr(name.value), first - 1);
  }

  /** Defining a macro whose name is not yet recorded and then undefining it,
      both in the main file, restores the list; from an empty file this gives
      an empty file. */
  lemma DefineThenUndefine(s: seq<Entity>, ctx: Context, name: Token, isFunctionLike: bool,
                           parameters: seq<Token>, definition: seq<Token>)
    requires ctx.depth == 0
    requires forall j :: 0 <= j < |s| ==> s[j].name != CStr(name.value)
    ensures UndefineEffect(DefineEffect(s, ctx, name, isFunctionLike, parameters, definition, false), ctx, name) == s
  {
    var t := DefineEffect(s, ctx, name, isFunctionLike, parameters, definition, false);
    assert t[|s|].name == CStr(name.value);
    UndefinedMacroEffect(t, ctx, name, |s|);
    assert t[..|s|] == s;
  }

  // ------------------------------------------------ use_include, found_include_directive

  /** `use_include`: `include_next` is irrelevant whatever the name; otherwise
      the name loses its first and last character, it is a system include
      exactly when it starts with `<`, the resolver sees the bare name, and
      the include is relevant exactly when the resolver found it in a
      directory the predicate accepts. */
  lemma UseIncludeClassifies(pre: Config, ctx: Context, fileName: string, includeNext: bool, indeterminate: bool)
    requires includeNext || Delimited(fileName)
    ensures var use := UseInclude(pre, ctx, fileName, includeNext, indeterminate);
      (includeNext ==> !use.relevant && use.fileName == fileName) &&
      (!includeNext ==>
         exists bare: string ::
           fileName == [fileName[0]] + bare + [fileName[|fileName| - 1]] &&
           (use.isSystem <==> fileName[0] == '<') &&
           use.fileName == ctx.resolve(bare, use.isSystem).fileName &&
           (use.relevant <==> ctx.resolve(bare, use.isSystem).found &&
                              pre.isPreprocessDirectory(pre.removeFilename(ctx.resolve(bare, use.isSystem).dir))))
  {
    if !includeNext {
      var bare := fileName[1..|fileName| - 1];
      assert fileName == [fileName[0]] + bare + [fileName[|fileName| - 1]];
    }
  }

  /** The two outcomes of `found_include_directive`. A relevant include is
      expanded (false), writes nothing, and records one inclusion directive of
      the right kind exactly in the main file. Any other include is skipped
      (true), records nothing, and writes a non-empty directive line. */
  lemma IncludePartition(pre: Config, s: seq<Entity>, ctx: Context, fileName: string, includeNext: bool,
                         indeterminate: bool)
    requires includeNext || Delimited(fileName)
    ensures var use := UseInclude(pre, ctx, fileName, includeNext, indeterminate);
      var skip := IncludeSkips(pre, ctx, fileName, includeNext, indeterminate);
      var text := IncludeText(pre, ctx, fileName, includeNext, indeterminate);
      var r := IncludeEffect(pre, s, ctx, fileName, includeNext, indeterminate);
      (skip <==> text != "") &&
      (skip ==> r == s && text == DirectiveText(includeNext, use.isSystem, use.fileName)) &&
      (r != s <==> !skip && ctx.depth == 0) &&
      (r != s ==> r == s + [InclusionDirective(use.fileName, if fileName[0] == '<' then System else Local, 0)])
  {
    var use := UseInclude(pre, ctx, fileName, includeNext, indeterminate);
    if !use.relevant {
      assert DirectiveText(includeNext, use.isSystem, use.fileName)[0] == '#';
    }
    if use.relevant && ctx.depth == 0 {
      assert |IncludeEffect(pre, s, ctx, fileName, includeNext, indeterminate)| == |s| + 1;
    }
  }

  /** When the resolver leaves the name as it is and the name is closed by the
      delimiter matching its opening one, the line written for a skipped
      `#include` is the directive as spelled, byte for byte. */
  lemma RewrittenIncludeRestoresSpelling(pre: Config, ctx: Context, fileName: string, indeterminate: bool)
    requires Delimited(fileName)
    requires fileName[|fileName| - 1] == Close(fileName[0] == '<')
    requires ctx.resolve(fileName[1..|fileName| - 1], fileName[0] == '<').fileName == fileName[1..|fileName| - 1]
    requires IncludeSkips(pre, ctx, fileName, false, indeterminate)
    ensures IncludeText(pre, ctx, fileName, false, indeterminate) == "#include" + fileName + "\n"
  {
    var bare := fileName[1..|fileName| - 1];
    assert fileName == [Open(fileName[0] == '<')] + bare + [Close(fileName[0] == '<')];
  }

  /** The spelling of an include directive: system or local, and the name
      between the delimiters. */
  datatype Spelling = Spelling(isSystem: bool, name: string)

  /** How a parser that re-tokenizes the output reads a one-line `#include`
      directive: `<name>` or `"name"` with no closing delimiter inside. */
  function ReadInclude(line: string): Option<Spelling>
  {
    if |line| < 11 || line[..8] != "#include" || line[|line| - 1] != '\n' then None
    else
      var open, close, name := line[8], line[|line| - 2], line[9..|line| - 2];
      if open == '<' && close == '>' && '>' !in name then Some(Spelling(true, name))
      else if open == '"' && close == '"' && '"' !in name then Some(Spelling(false, name))
      else None
  }

  /** The line written for a skipped `#include` reads back as the same kind
      of include of the same name. */
  lemma RewrittenIncludeReadsBack(isSystem: bool, fileName: string)
    requires Close(isSystem) !in fileName
    ensures ReadInclude(DirectiveText(false, isSystem, fileName)) == Some(Spelling(isSystem, fileName))
  {
    var line := DirectiveText(false, isSystem, fileName);
    assert line == "#include" + [Open(isSystem)] + fileName + [Close(isSystem)] + "\n";
    assert line[..8] == "#include";
    assert line[9..|line| - 2] == fileName;
  }
}
