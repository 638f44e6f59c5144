/** The hook policy the selective preprocessor registers with the macro
    engine (class `policy` in src/preprocessor.cpp): what each hook does to
    the entity list and to the include buffer, first as functions of the old
    state, then as the methods of class Policy that mutate that state. */
module Hooks {
  import opened CStrings
  import opened Entities

  datatype Option<T> = None | Some(value: T)

  /** What the engine's `find_include_file` reports: whether the file was
      found, the value it leaves in the file name it takes by reference, and
      the path it stores in `dir`. */
  datatype Lookup = Lookup(found: bool, fileName: string, dir: string)

  /** The engine context a hook is called with: the current inclusion depth
      (0 in the main file) and the engine's include resolver, called with the
      bare file name and whether it is a system include. */
  datatype Context = Context(depth: nat, resolve: (string, bool) -> Lookup)

  /** What the policy reads from the preprocessor it belongs to: the
      documentation-relevant directory predicate, and the directory part of
      a path (boost::filesystem `remove_filename().generic_string()`). */
  datatype Config = Config(isPreprocessDirectory: string -> bool, removeFilename: string -> string)

  /** The three results of `use_include`: its return value and the final
      values of its two by-reference arguments. */
  datatype IncludeUse = IncludeUse(relevant: bool, isSystem: bool, fileName: string)

  /** `unsigned(...)`: the line number narrowed to 32 bits. */
  function Unsigned(n: nat): (r: nat)
    ensures r < 0x1_0000_0000
    ensures n < 0x1_0000_0000 ==> r == n
  {
    n % 0x1_0000_0000
  }

  // ---------------------------------------------------------------- defined_macro

  /** The values of the tokens, each read through `c_str()`, concatenated. */
  function ValueText(tokens: seq<Token>): string
  {
    if tokens == [] then "" else ValueText(tokens[..|tokens| - 1]) + CStr(tokens[|tokens| - 1].value)
  }

  function Values(tokens: seq<Token>): (r: seq<string>)
    ensures |r| == |tokens|
    ensures forall i :: 0 <= i < |tokens| ==> r[i] == tokens[i].value
  {
    seq(|tokens|, i requires 0 <= i < |tokens| => tokens[i].value)
  }

  /** The parameter text recorded for a macro. */
  function ParameterText(isFunctionLike: bool, parameters: seq<Token>): string
  {
    if isFunctionLike then "(" + ValueText(parameters) + ")" else ""
  }

  /** The entity `defined_macro` records. */
  function MacroEntity(name: Token, isFunctionLike: bool, parameters: seq<Token>, definition: seq<Token>): Entity
  {
    MacroDefinition(CStr(name.value), ParameterText(isFunctionLike, parameters), ValueText(definition), Unsigned(name.line))
  }

  /** The entity list after `defined_macro`. */
  function DefineEffect(s: seq<Entity>, ctx: Context, name: Token, isFunctionLike: bool,
                        parameters: seq<Token>, definition: seq<Token>, isPredefined: bool): (r: seq<Entity>)
    ensures r == s || (|r| == |s| + 1 && r[..|s|] == s && r[|s|].MacroDefinition?)
  {
    if isPredefined || ctx.depth != 0 then s else s + [MacroEntity(name, isFunctionLike, parameters, definition)]
  }

  // -------------------------------------------------------------- undefined_macro

  /** The entity list after `undefined_macro`. */
  function UndefineEffect(s: seq<Entity>, ctx: Context, name: Token): (r: seq<Entity>)
    ensures r <= s
    ensures ctx.depth != 0 ==> r == s
  {
    if ctx.depth != 0 then s else RemoveAfter(s, Predecessor(s, CStr(name.value)))
  }

  // ------------------------------------------------ use_include, found_include_directive

  /** What `use_include` asserts of a name it is going to strip: a leading `<`
      or `"`, and a closing character for `pop_back` to remove. */
  predicate Delimited(fileName: string)
  {
    2 <= |fileName| && (fileName[0] == '<' || fileName[0] == '"')
  }

  /** `use_include`. For `include_next` it returns at once, leaving the name
      as it came and `is_system` as it was (`indeterminate`: the caller never
      initialises it). */
  function UseInclude(pre: Config, ctx: Context, fileName: string, includeNext: bool, indeterminate: bool): (r: IncludeUse)
    requires includeNext || Delimited(fileName)
    ensures includeNext ==> !r.relevant && r.isSystem == indeterminate && r.fileName == fileName
    ensures !includeNext ==> (r.isSystem <==> fileName[0] == '<')
    ensures !includeNext && r.relevant ==> ctx.resolve(fileName[1..|fileName| - 1], r.isSystem).found
  {
    if includeNext then IncludeUse(false, indeterminate, fileName)
    else
      var isSystem := fileName[0] == '<';
      var lookup := ctx.resolve(fileName[1..|fileName| - 1], isSystem);
      IncludeUse(lookup.found && pre.isPreprocessDirectory(pre.removeFilename(lookup.dir)), isSystem, lookup.fileName)
  }

  function Open(isSystem: bool): char { if isSystem then '<' else '"' }

  function Close(isSystem: bool): char { if isSystem then '>' else '"' }

  /** The directive line written into the include buffer. */
  function DirectiveText(includeNext: bool, isSystem: bool, fileName: string): (r: string)
    ensures |r| == |fileName| + (if includeNext then 16 else 11)
    ensures r[0] == '#' && r[|r| - 1] == '\n'
    ensures r[|r| - 2] == Close(isSystem) && r[|r| - 3 - |fileName|] == Open(isSystem)
    ensures r[|r| - 2 - |fileName|..|r| - 2] == fileName
  {
    "#" + (if includeNext then "include_next" else "include") + [Open(isSystem)] + fileName + [Close(isSystem)] + "\n"
  }

  /** Appending the pieces of a directive one by one appends the directive. */
  lemma DirectiveAppended(buffer: string, includeNext: bool, isSystem: bool, fileName: string)
    ensures buffer + "#" + (if includeNext then "include_next" else "include") + [Open(isSystem)] + fileName
              + [Close(isSystem)] + "\n"
         == buffer + DirectiveText(includeNext, isSystem, fileName)
  {
    var keyword := if includeNext then "include_next" else "include";
    SeqAssoc(buffer, "#", keyword);
    SeqAssoc(buffer, "#" + keyword, [Open(isSystem)]);
    SeqAssoc(buffer, "#" + keyword + [Open(isSystem)], fileName);
    SeqAssoc(buffer, "#" + keyword + [Open(isSystem)] + fileName, [Close(isSystem)]);
    SeqAssoc(buffer, "#" + keyword + [Open(isSystem)] + fileName + [Close(isSystem)], "\n");
  }

  /** The entity list after `found_include_directive`. */
  function IncludeEffect(pre: Config, s: seq<Entity>, ctx: Context, fileName: string, includeNext: bool,
                         indeterminate: bool): (r: seq<Entity>)
    requires includeNext || Delimited(fileName)
    ensures r == s || (|r| == |s| + 1 && r[..|s|] == s && r[|s|].InclusionDirective? && ctx.depth == 0)
  {
    var use := UseInclude(pre, ctx, fileName, includeNext, indeterminate);
    if use.relevant && ctx.depth == 0
    then s + [InclusionDirective(use.fileName, if use.isSystem then System else Local, 0)]
    else s
  }

  /** The text `found_include_directive` appends to the include buffer. */
  function IncludeText(pre: Config, ctx: Context, fileName: string, includeNext: bool, indeterminate: bool): (r: string)
    requires includeNext || Delimited(fileName)
    ensures r == "" || r[0] == '#'
    ensures includeNext ==> r != ""
  {
    var use := UseInclude(pre, ctx, fileName, includeNext, indeterminate);
    if use.relevant then "" else DirectiveText(includeNext, use.isSystem, use.fileName)
  }

  /** The value `found_include_directive` returns: true tells the engine to
      skip the file, false to open and expand it. */
  function IncludeSkips(pre: Config, ctx: Context, fileName: string, includeNext: bool, indeterminate: bool): (r: bool)
    requires includeNext || Delimited(fileName)
    ensures includeNext ==> r
  {
    !UseInclude(pre, ctx, fileName, includeNext, indeterminate).relevant
  }

  // ------------------------------------------------------------------ the hooks

  class Policy {
    const pre: Config
    const file: CppFile
    /** The include buffer preprocess() flushes after every token. */
    var buffer: string

    constructor (pre: Config, file: CppFile)
      ensures this.pre == pre && this.file == file && buffer == ""
    {
      this.pre := pre;
      this.file := file;
      buffer := "";
    }

    /** Warnings are ignored: the hook always answers true. */
    method FoundWarningDirective() returns (ignore: bool)
      ensures ignore
    {
      ignore := true;
    }

    method FoundIncludeDirective(ctx: Context, fileName: string, includeNext: bool, indeterminate: bool)
      returns (skip: bool)
      requires includeNext || Delimited(fileName)
      modifies this, file
      ensures skip == IncludeSkips(pre, ctx, fileName, includeNext, indeterminate)
      ensures buffer == old(buffer) + IncludeText(pre, ctx, fileName, includeNext, indeterminate)
      ensures file.entities == IncludeEffect(pre, old(file.entities), ctx, fileName, includeNext, indeterminate)
    {
      var use := UseInclude(pre, ctx, fileName, includeNext, indeterminate);
      if use.relevant {
        if ctx.depth == 0 {
          file.AddEntity(InclusionDirective(use.fileName, if use.isSystem then System else Local, 0));
        }
        skip := false;
      } else {
        buffer := buffer + "#";
        buffer := buffer + (if includeNext then "include_next" else "include");
        buffer := buffer + [Open(use.isSystem)];
        buffer := buffer + use.fileName;
        buffer := buffer + [Close(use.isSystem)];
        buffer := buffer + "\n";
        DirectiveAppended(old(buffer), includeNext, use.isSystem, use.fileName);
        skip := true;
      }
    }

    method DefinedMacro(ctx: Context, name: Token, isFunctionLike: bool, parameters: seq<Token>,
                        definition: seq<Token>, isPredefined: bool)
      modifies file
      ensures file.entities == DefineEffect(old(file.entities), ctx, name, isFunctionLike, parameters, definition, isPredefined)
    {
      if isPredefined || ctx.depth != 0 {
        return;
      }
      var strName := CStr(name.value);

      var strParams := "";
      if isFunctionLike {
        strParams := strParams + "(";
        for i := 0 to |parameters|
          invariant strParams == "(" + ValueText(parameters[..i])
          modifies {}
        {
          assert parameters[..i + 1][..i] == parameters[..i];
          SeqAssoc("(", ValueText(parameters[..i]), CStr(parameters[i].value));
          strParams := strParams + CStr(parameters[i].value);
        }
        assert parameters[..|parameters|] == parameters;
        strParams := strParams + ")";
      }

      var strDef := "";
      for i := 0 to |definition|
        invariant strDef == ValueText(definition[..i])
        modifies {}
      {
        assert definition[..i + 1][..i] == definition[..i];
        strDef := strDef + CStr(definition[i].value);
      }
      assert definition[..|definition|] == definition;

      assert strParams == ParameterText(isFunctionLike, parameters);
      assert MacroDefinition(strName, strParams, strDef, Unsigned(name.line))
          == MacroEntity(name, isFunctionLike, parameters, definition);
      file.AddEntity(MacroDefinition(strName, strParams, strDef, Unsigned(name.line)));
    }

    method UndefinedMacro(ctx: Context, name: Token)
      modifies file
      ensures file.entities == UndefineEffect(old(file.entities), ctx, name)
    {
      if ctx.depth != 0 {
        return;
      }
      var key := CStr(name.value);
      var entities := file.entities;
      var prev := -1;
      var i := 0;
      while i < |entities|
        invariant 0 <= i <= |entities| && prev == i - 1
        invariant forall j :: 0 <= j < i ==> entities[j].name != key
        modifies {}
      {
        if entities[i].name == key {
          break;
        }
        prev := i;
        i := i + 1;
      }
      PredecessorUnique(entities, key, prev);
      file.RemoveEntityAfter(prev);
    }
  }

  /** Predecessor is the only index with its two defining properties. */
  lemma PredecessorUnique(s: seq<Entity>, name: string, prev: int)
    requires -1 <= prev < |s|
    requires forall j :: 0 <= j <= prev ==> s[j].name != name
    requires prev + 1 < |s| ==> s[prev + 1].name == name
    ensures prev == Predecessor(s, name)
  {
  }
}
