# Selective preprocessor hook policy (standardese, src/preprocessor.cpp)

standardese runs the source of a translation unit through the Boost.Wave
macro engine. It installs a hook policy that watches macro definitions,
macro undefinitions and include directives. Those hooks write into two
places: the entity list of the `cpp_file` being documented, and a side
buffer of include text. That buffer is spliced into the preprocessed output
after every token. This project models that policy, the flag interpretation
of `setup_context`, and the token loop of `preprocessor::preprocess`. It
proves what each of them does to the entity list, the buffer and the output
text.

Modules:

- `CStrings` — a `std::string` read through `c_str()`, which stops at the
  first NUL (`CStr`). `c_str()[i]`, which reads the terminator at index `|s|`
  (`CharAt`). Plain concatenation (`Join`).
- `Entities` — the recorded entities, the engine's tokens, and the
  `cpp_file` container (class `CppFile` over a `seq<Entity>`).
  `Predecessor` is the index the retraction search stops at.
- `Hooks` — class `Policy`, one method per hook, mutating the entity list
  and the include buffer exactly as the source does. Beside it are the
  functions of the old state that specify each hook (`DefineEffect`,
  `UndefineEffect`, `UseInclude`, `IncludeEffect`, `IncludeText`,
  `IncludeSkips`).
- `HookProperties` — what each hook promises, stated against independent
  readings:
  - the plain concatenation of token values;
  - the first entity with the macro's name;
  - a reader that parses the synthesized `#include` line back.
- `CompileFlags` — `ParseFlags`, the meaning of an ordered flag list. The
  loop of `setup_context` (`SetupContext`) is proved to compute it. A
  renderer of actions into flags is proved to round-trip through it.
- `Preprocessing` — the run of the engine as data: the hook calls made
  before each token, the token's value, and the hook calls after the last
  token. `Preprocess` drives the hook methods with this run and assembles
  the output.
- `RunProperties` — whole-run facts:
  - the entity list only ever grows at the end or loses a suffix;
  - only main-file hook calls matter;
  - the output equals the plain token text exactly when no include was
    rewritten.

How the inputs that are not part of this model are represented:

- The macro engine is a parameter `engine: seq<Action> -> Run`: from the
  flag actions to the hook calls and tokens it produces.
- The engine's include resolver (`find_include_file`) is part of the
  `Context` each hook receives. It returns whether the file was found, the
  name it leaves in its by-reference argument, and the directory.
- The directory predicate `is_preprocess_directory` and
  `path(dir).remove_filename().generic_string()` are function fields of
  `Config`.

### Behaviour worth knowing

These follow from the code and are what the model states.

1. **Which includes are expanded.**
   - `found_include_directive` returns `false` for a relevant include. In
     Boost.Wave's hook contract, `false` means the engine opens and expands
     the file.
   - It returns `true` for every other include, meaning the engine skips
     the file. Only in that case does it write the include line into the
     buffer (src/preprocessor.cpp:61-83).

   `IncludeSkips` is true exactly for the includes that are not relevant.
2. **A relevant include below the main file leaves no trace.** At depth
   > 0 it writes nothing, records nothing and is expanded
   (`IncludePartition`).
3. **The written name is the resolver's.** The line carries the name that
   `find_include_file` leaves in its by-reference argument, not
   necessarily the one spelled in the directive.
   `RewrittenIncludeRestoresSpelling` proves the line is byte-for-byte the
   directive as spelled when the resolver leaves the name unchanged.
4. **`include_next` is always rewritten.** It is never relevant, so it is
   always skipped and always written.
   - The name it writes is the raw one, still carrying its delimiters.
   - `is_system` is never assigned on that path, so the delimiters added
     around the name come from an uninitialised variable. The model makes
     that value an explicit parameter, `indeterminate`.

Three further behaviours:

- A token value, macro name or flag is read through `c_str()`, so it is
  cut at its first NUL.
- Include text written by hook calls made after the last token is never
  flushed into the output. `Preprocess` states this: the output is
  `Output(run.steps)` and does not include the tail.
- The macro actions of the flags are handed to the engine after the
  policy is installed (src/preprocessor.cpp:207-208). If the engine
  reports a command-line `-D` or `-U` to `defined_macro` or
  `undefined_macro` as a non-predefined macro at depth 0, that call
  records or retracts an entity before the first token. The model
  expresses this as the first hook calls of the run. It does not fix
  whether the engine makes those calls: they are part of the `engine`
  parameter.

## Model

| member | source | states |
|---|---|---|
| CStrings.CStr | src/preprocessor.cpp:95 | reading a string through `c_str()` yields its prefix before the first NUL, with no NUL in it, and the whole string when it has no NUL |
| Entities.Predecessor | src/preprocessor.cpp:122-128 | the search result is -1 or an index; no entity up to it has the name; the next one has it; and a next one exists iff some entity has the name |
| Entities.RemoveAfter | src/preprocessor.cpp:130 | the assumed reading of `remove_entity_after(prev)`: the list keeps exactly its first prev+1 entities, as a prefix |
| Entities.CppFile.AddEntity | src/preprocessor.cpp:65-69 | `add_entity` appends the entity at the end of the list |
| Entities.CppFile.RemoveEntityAfter | src/preprocessor.cpp:130 | `remove_entity_after` leaves the list given by RemoveAfter |
| Hooks.Unsigned | src/preprocessor.cpp:112 | the recorded line is below 2^32, and equals the engine's line when that fits |
| Hooks.Policy.constructor | src/preprocessor.cpp:45-48 | the policy refers to the preprocessor's configuration and the file, with an empty include buffer |
| Hooks.Policy.FoundWarningDirective | src/preprocessor.cpp:50-55 | a warning directive is always ignored (returns true) |
| Hooks.Policy.FoundIncludeDirective | src/preprocessor.cpp:57-84 | returns IncludeSkips; appends IncludeText to the buffer; leaves the entity list as IncludeEffect of the old list |
| Hooks.Policy.DefinedMacro | src/preprocessor.cpp:86-113 | the loops building the parameter and body texts leave the entity list as DefineEffect of the old list |
| Hooks.Policy.UndefinedMacro | src/preprocessor.cpp:115-131 | the search loop finds Predecessor's index, and the list becomes UndefineEffect of the old list |
| Hooks.PredecessorUnique | src/preprocessor.cpp:122-128 | any index with the loop's exit properties is Predecessor's index |
| Hooks.UseInclude | src/preprocessor.cpp:134-151 | `include_next` is irrelevant and keeps the name as it came, with `is_system` as it was; otherwise the include is system iff the name starts with `<`, and it is relevant only if the resolver found the name without its first and last character |
| Hooks.DirectiveText | src/preprocessor.cpp:75-80 | the written line starts with `#` and ends with a newline; just before the newline sits the closing delimiter, with the name right before it, and the opening delimiter right before the name; its length is the name's plus 11 for `include` or 16 for `include_next` |
| Hooks.DefineEffect | src/preprocessor.cpp:91-112 | `defined_macro` leaves the list as it was or appends exactly one macro definition at the end |
| Hooks.UndefineEffect | src/preprocessor.cpp:118-130 | `undefined_macro` leaves a prefix of the list, and the whole list outside the main file |
| Hooks.IncludeEffect | src/preprocessor.cpp:61-70 | `found_include_directive` leaves the list as it was or, only in the main file, appends exactly one inclusion directive |
| Hooks.IncludeText | src/preprocessor.cpp:72-80 | the text written is empty or a line starting with `#`, and never empty for `include_next` |
| Hooks.IncludeSkips | src/preprocessor.cpp:61-83 | an `include_next` is always skipped |
| HookProperties.ValueTextIsJoin | src/preprocessor.cpp:101-108 | with NUL-free values, token values read through `c_str()` concatenate to the plain, separator-free join of the values |
| HookProperties.DefinedMacroEffect | src/preprocessor.cpp:91-112 | the list is unchanged iff the macro is predefined or the depth is not 0; otherwise exactly one macro definition is appended at the end, named after the name token and with its (32-bit) line |
| HookProperties.DefinedMacroTexts | src/preprocessor.cpp:97-112 | in the main file with NUL-free tokens, the appended entity has parameters "(" + join + ")" for a function-like macro and "" otherwise, and the joined definition tokens as body |
| HookProperties.UndefinedMacroEffect | src/preprocessor.cpp:118-130 | at depth not 0 the list is unchanged; at depth 0 it keeps exactly the entities before the first one, of any kind, with the macro's name, and all of them when none has it |
| HookProperties.DefineThenUndefine | src/preprocessor.cpp:86-131 | in the main file, defining a macro whose name is not in the list and then undefining it restores the list |
| HookProperties.UseIncludeClassifies | src/preprocessor.cpp:134-151 | `include_next` is irrelevant and keeps its name; otherwise the name is the stripped name wrapped in its first and last character, it is a system include iff it starts with `<`, and it is relevant iff the resolver found the stripped name in a directory the predicate accepts |
| HookProperties.IncludePartition | src/preprocessor.cpp:57-84 | skipped iff text is written; a skipped include records nothing and writes the directive line; the list changes iff the include is relevant and at depth 0, and then by one inclusion directive of the delimiter's kind |
| HookProperties.RewrittenIncludeRestoresSpelling | src/preprocessor.cpp:75-82 | for a skipped `#include` with matching delimiters and a resolver that keeps the name, the written line is "#include" + the directive's name as spelled + newline |
| HookProperties.RewrittenIncludeReadsBack | src/preprocessor.cpp:74-80 | the written `#include` line parses back as an include of the same kind and name when the name holds no closing delimiter |
| CompileFlags.Separate | src/preprocessor.cpp:175-189 | a separate `-D` adds a macro, `-U` removes one and `-I` adds a system include path (never a user path), each with the next flag read through `c_str()` |
| CompileFlags.ParseFlags | src/preprocessor.cpp:173-199 | the meaning of the flag list, flag by flag in order: at most one action per flag, so never more actions than flags |
| CompileFlags.Joined | src/preprocessor.cpp:190-198 | a flag that is not a separate -D/-U/-I yields at most one action |
| CompileFlags.SetupContext | src/preprocessor.cpp:173-199 | the loop, which steps over a separate flag's argument inside its body, computes ParseFlags of the whole list |
| CompileFlags.ParseFlagsAppend | src/preprocessor.cpp:173-199 | actions follow flag order: the actions of two lists one after the other are the actions of the first, then those of the second |
| CompileFlags.OtherFlagIgnored | src/preprocessor.cpp:190-198 | a flag that is neither -D/-U/-I nor one of them with text attached (including the empty flag) produces no action |
| CompileFlags.JoinedAndSeparateForms | src/preprocessor.cpp:175-197 | -D and -U mean the same attached or separate; -I attached adds a user include path, -I separate a system include path |
| CompileFlags.RenderOneParses | src/preprocessor.cpp:175-197 | each expressible action is produced by exactly its rendered flags |
| CompileFlags.RenderParses | src/preprocessor.cpp:173-199 | every sequence of expressible actions is produced, in order, by the flags rendered from it |
| Preprocessing.Dispatch | src/preprocessor.cpp:158-159 | the engine calling one hook changes the list and the buffer as the hook's specification functions say |
| Preprocessing.Fire | src/preprocessor.cpp:211 | the hook calls the engine makes while advancing apply in order to the list and the buffer |
| Preprocessing.Advance | src/preprocessor.cpp:211-219 | one iteration yields the token's value followed by the include text written during it, and leaves the buffer empty |
| Preprocessing.Preprocess | src/preprocessor.cpp:203-221 | the output is Output of the run's steps: for each token in order, its value then the include text written while reaching it; the list is what all hook calls of the run, in order, make of the old one |
| RunProperties.EventIsAppendOrTruncate | src/preprocessor.cpp:57-131 | every hook call either leaves a prefix of the list or appends exactly one entity at the end |
| RunProperties.AppendOnlyWithoutUndefine | src/preprocessor.cpp:57-113 | without `#undef` the old list stays a prefix of the new one |
| RunProperties.OutsideMainFileUnchanged | src/preprocessor.cpp:91-120 | a hook call at depth not 0, or a warning, leaves the list unchanged |
| RunProperties.OnlyMainFileEventsMatter | src/preprocessor.cpp:57-131 | the list after a run depends only on the main-file hook calls, in their order |
| RunProperties.EventTextWrittenIffRewrites | src/preprocessor.cpp:61-83 | a hook call writes text iff it is an include the policy skips |
| RunProperties.EventsTextEmptyIffNoRewrite | src/preprocessor.cpp:72-83 | a series of hook calls writes nothing iff none of them is a skipped include |
| RunProperties.OutputCoversTokenText | src/preprocessor.cpp:211-219 | the output is at least as long as the concatenated token values |
| RunProperties.OutputLongerWithRewrite | src/preprocessor.cpp:211-219 | if some token's hook calls wrote text, the output is strictly longer than the token text |
| RunProperties.NoRewriteOutput | src/preprocessor.cpp:211-219 | with no skipped include in the run, the output is exactly the token text |
| RunProperties.OutputIsTokenTextIffNoRewrite | src/preprocessor.cpp:211-219 | the output equals the concatenated token values iff no include was skipped and rewritten during the run |
| RunProperties.TokenTextIsJoin | src/preprocessor.cpp:213 | with NUL-free token values, the token text is their plain concatenation |

## Left out

- Boost.Wave itself: lexing, macro expansion, the tracking of inclusion depth, and the search algorithm of `find_include_file`. It is external code, so it is represented by the `engine` parameter and by the resolver in `Context`.
- The language options set at src/preprocessor.cpp:167-170 (`set_language`): they only configure the external engine.
- How the engine reacts to a hook's return value (opening or skipping a file, ignoring a warning): this is the engine's behaviour. The run passed to `Preprocess` already reflects it. The model proves what each hook returns.
- The `full_path` and `source` arguments of `preprocess`: they are consumed only by the engine, which is a parameter here.
- The internals of `cpp_file`: that class is not part of this model. `add_entity` is taken to append. `remove_entity_after(prev)` is taken to remove every entity after `prev` (every entity when `prev` is null). That removal reading is an assumption, not a verified fact; see `Entities.RemoveAfter`.
- `is_preprocess_directory` and boost::filesystem's `remove_filename().generic_string()`: they are defined elsewhere, so they are function parameters in `Config`.
- The value of `get_position().get_line()`: it is given with each token as `Token.line`.
- A trailing separate `-D`, `-U` or `-I`: `++iter` then steps past the end, which is undefined behaviour. `SetupContext` and `Preprocess` require `Complete(flags)` instead.
- A name handed to `use_include` that does not start with `<` or `"`, or is shorter than two characters: Boost.Wave only ever passes a name with its delimiters, so the hooks require `Delimited` (not for `include_next`, whose name is never inspected). Left out are the failing assert, which aborts, and, with asserts disabled, an undelimited name, which would be handled as a local include with both end characters dropped. Only a name shorter than two characters would make `erase`/`pop_back` undefined.
- Preprocess: errors reported by the engine are not modelled. Boost.Wave reports them by throwing (the policy keeps the default `throw_exception` hook), for example for an `#error` or a malformed directive met in the token loop (src/preprocessor.cpp:211). `preprocess` has no `try`, so such a call returns no text and leaves `file` with the entities recorded up to that point. The `engine` parameter always completes its run.
- SetupContext: an exception thrown by `add_macro_definition` for a malformed `-D` text (src/preprocessor.cpp:178, 193) is not modelled either. The model's actions are always all accepted.
- The MSVC pragmas and the Boost version guards (src/preprocessor.cpp:7-28): they have no run-time behaviour.
- src/cpp_function.cpp: not part of this model. It is a wrapper over libclang whose helpers are defined elsewhere.
