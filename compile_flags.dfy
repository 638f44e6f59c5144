/** `setup_context`: the ordered compile flags turned into the macro and
    include-path actions handed to the macro engine. */
module CompileFlags {
  import opened CStrings

  datatype Action =
    | AddMacroDefinition(text: string)
    | RemoveMacroDefinition(text: string)
    | AddSysincludePath(path: string)
    | AddIncludePath(path: string)

  /** A flag whose argument is the next flag. */
  predicate IsSeparate(flag: string)
  {
    flag == "-D" || flag == "-U" || flag == "-I"
  }

  /** Every separate `-D`, `-U` or `-I` that is read as a flag has an argument
      after it: the loop would step past the end otherwise. */
  predicate Complete(flags: seq<string>)
    decreases |flags|
  {
    if flags == [] then true
    else if IsSeparate(flags[0]) then 2 <= |flags| && Complete(flags[2..])
    else Complete(flags[1..])
  }

  /** The action of a separate flag and its argument. */
  function Separate(flag: string, argument: string): (r: Action)
    requires IsSeparate(flag)
    ensures r.AddMacroDefinition? <==> flag == "-D"
    ensures r.RemoveMacroDefinition? <==> flag == "-U"
    ensures !r.AddIncludePath?
    ensures (if r.AddSysincludePath? then r.path else r.text) == CStr(argument)
  {
    if flag == "-D" then AddMacroDefinition(CStr(argument))
    else if flag == "-U" then RemoveMacroDefinition(CStr(argument))
    else AddSysincludePath(CStr(argument))
  }

  /** The action of any other flag: `-Dtext`, `-Utext` and `-Ipath` act on
      the rest of the flag, everything else does nothing. */
  function Joined(flag: string): (r: seq<Action>)
    ensures |r| <= 1
  {
    if CharAt(flag, 0) != '-' then []
    else if CharAt(flag, 1) == 'D' then [AddMacroDefinition(CStr(flag[2..]))]
    else if CharAt(flag, 1) == 'U' then [RemoveMacroDefinition(CStr(flag[2..]))]
    else if CharAt(flag, 1) == 'I' then [AddIncludePath(CStr(flag[2..]))]
    else []
  }

  /** The actions of a flag list, in the order of the flags. */
  function ParseFlags(flags: seq<string>): (actions: seq<Action>)
    requires Complete(flags)
    ensures |actions| <= |flags|
    decreases |flags|
  {
    if flags == [] then []
    else if IsSeparate(flags[0]) then [Separate(flags[0], flags[1])] + ParseFlags(flags[2..])
    else Joined(flags[0]) + ParseFlags(flags[1..])
  }

  /** The loop of `setup_context`, which steps over an argument inside its
      body. */
  method SetupContext(flags: seq<string>) returns (actions: seq<Action>)
    requires Complete(flags)
    ensures actions == ParseFlags(flags)
  {
    actions := [];
    var i := 0;
    while i < |flags|
      invariant 0 <= i <= |flags|
      invariant Complete(flags[i..])
      invariant actions + ParseFlags(flags[i..]) == ParseFlags(flags)
    {
      ghost var next, produced := ParseFlagsAt(flags, i);
      ghost var old_actions := actions;
      var flag := flags[i];
      if flag == "-D" {
        i := i + 1;
        actions := actions + [AddMacroDefinition(CStr(flags[i]))];
      } else if flag == "-U" {
        i := i + 1;
        actions := actions + [RemoveMacroDefinition(CStr(flags[i]))];
      } else if flag == "-I" {
        i := i + 1;
        actions := actions + [AddSysincludePath(CStr(flags[i]))];
      } else {
        if CharAt(flag, 0) == '-' {
          if CharAt(flag, 1) == 'D' {
            actions := actions + [AddMacroDefinition(CStr(flag[2..]))];
          } else if CharAt(flag, 1) == 'U' {
            actions := actions + [RemoveMacroDefinition(CStr(flag[2..]))];
          } else if CharAt(flag, 1) == 'I' {
            actions := actions + [AddIncludePath(CStr(flag[2..]))];
          }
        }
      }
      i := i + 1;
      assert i == next && actions == old_actions + produced;
      SeqAssoc(old_actions, produced, ParseFlags(flags[next..]));
    }
    assert flags[|flags|..] == [];
  }

  /** One step of ParseFlags at position i: the flags it consumes end before
      `next`, and `produced` is what they contribute. */
  lemma ParseFlagsAt(flags: seq<string>, i: nat) returns (next: nat, produced: seq<Action>)
    requires i < |flags| && Complete(flags[i..])
    ensures next <= |flags| && Complete(flags[next..])
    ensures ParseFlags(flags[i..]) == produced + ParseFlags(flags[next..])
    ensures IsSeparate(flags[i]) ==>
      next == i + 2 && produced == [Separate(flags[i], flags[i + 1])]
    ensures !IsSeparate(flags[i]) ==> next == i + 1 && produced == Joined(flags[i])
  {
    var t := flags[i..];
    assert t[0] == flags[i];
    if IsSeparate(flags[i]) {
      assert t[2..] == flags[i + 2..];
      next, produced := i + 2, [Separate(flags[i], flags[i + 1])];
    } else {
      assert t[1..] == flags[i + 1..];
      next, produced := i + 1, Joined(flags[i]);
    }
  }

  // ------------------------------------------------------------------ properties

  /** Flags parse independently, so the actions of two lists one after the
      other are the actions of the first followed by those of the second. */
  lemma {:induction false} ParseFlagsAppend(a: seq<string>, b: seq<string>)
    requires Complete(a)
    ensures Complete(a + b) == Complete(b)
    ensures Complete(b) ==> ParseFlags(a + b) == ParseFlags(a) + ParseFlags(b)
    decreases |a|
  {
    if a == [] {
      assert a + b == b;
    } else if IsSeparate(a[0]) {
      var ab := a + b;
      assert ab[0] == a[0] && ab[1] == a[1] && ab[2..] == a[2..] + b;
      ParseFlagsAppend(a[2..], b);
      assert Complete(ab) == Complete(a[2..] + b);
    } else {
      var ab := a + b;
      assert ab[0] == a[0] && ab[1..] == a[1..] + b;
      ParseFlagsAppend(a[1..], b);
      assert Complete(ab) == Complete(a[1..] + b);
    }
  }

  /** A flag that is neither a separate `-D`, `-U`, `-I` nor one of them with
      text attached (the empty flag, `-`, `-x...`, anything not starting with
      `-`) is skipped without an action. */
  lemma OtherFlagIgnored(flag: string, rest: seq<string>)
    requires !IsSeparate(flag)
    requires |flag| < 2 || flag[0] != '-' || (flag[1] != 'D' && flag[1] != 'U' && flag[1] != 'I')
    ensures Complete([flag] + rest) == Complete(rest)
    ensures Complete(rest) ==> ParseFlags([flag] + rest) == ParseFlags(rest)
  {
    assert ([flag] + rest)[1..] == rest;
  }

  /** `-D` and `-U` mean the same whether the text is attached or follows as
      the next flag; `-I` does not: attached it adds a user include path,
      separate a system include path. */
  lemma JoinedAndSeparateForms(text: string)
    requires text != "" && '\0' !in text
    ensures ParseFlags(["-D" + text]) == ParseFlags(["-D", text]) == [AddMacroDefinition(text)]
    ensures ParseFlags(["-U" + text]) == ParseFlags(["-U", text]) == [RemoveMacroDefinition(text)]
    ensures ParseFlags(["-I" + text]) == [AddIncludePath(text)]
    ensures ParseFlags(["-I", text]) == [AddSysincludePath(text)]
  {
    var d, u, i := "-D" + text, "-U" + text, "-I" + text;
    assert d[2..] == text && u[2..] == text && i[2..] == text;
    assert |d| > 2 && |u| > 2 && |i| > 2;
    OneJoinedFlag(d);
    OneJoinedFlag(u);
    OneJoinedFlag(i);
    OneSeparateFlag("-D", text);
    OneSeparateFlag("-U", text);
    OneSeparateFlag("-I", text);
  }

  /** A list of one flag that takes no argument. */
  lemma OneJoinedFlag(flag: string)
    requires !IsSeparate(flag)
    ensures Complete([flag]) && ParseFlags([flag]) == Joined(flag)
  {
    assert [flag][1..] == [];
  }

  /** A separate flag followed by its argument. */
  lemma OneSeparateFlag(flag: string, argument: string)
    requires IsSeparate(flag)
    ensures Complete([flag, argument]) && ParseFlags([flag, argument]) == [Separate(flag, argument)]
  {
    assert [flag, argument][2..] == [];
  }

  /** A flag list that produces exactly the given action. */
  function RenderOne(action: Action): seq<string>
  {
    match action
    case AddMacroDefinition(text) => ["-D", text]
    case RemoveMacroDefinition(text) => ["-U", text]
    case AddSysincludePath(path) => ["-I", path]
    case AddIncludePath(path) => ["-I" + path]
  }

  function Render(actions: seq<Action>): seq<string>
  {
    if actions == [] then [] else RenderOne(actions[0]) + Render(actions[1..])
  }

  /** Actions that a flag list can express: NUL-free texts and, since a bare
      `-I` takes the next flag, a non-empty user include path. */
  predicate Expressible(action: Action)
  {
    match action
    case AddMacroDefinition(text) => '\0' !in text
    case RemoveMacroDefinition(text) => '\0' !in text
    case AddSysincludePath(path) => '\0' !in path
    case AddIncludePath(path) => path != "" && '\0' !in path
  }

  lemma RenderOneParses(action: Action)
    requires Expressible(action)
    ensures Complete(RenderOne(action)) && ParseFlags(RenderOne(action)) == [action]
  {
    var one := RenderOne(action);
    match action {
      case AddIncludePath(path) =>
        var flag := "-I" + path;
        assert flag[2..] == path && |flag| > 2 && !IsSeparate(flag);
        assert one[1..] == [];
        assert ParseFlags(one) == Joined(flag) + ParseFlags([]);
      case AddMacroDefinition(text) =>
        assert one[0] == "-D" && one[1] == text && one[2..] == [];
        assert ParseFlags(one) == [Separate("-D", text)] + ParseFlags([]);
      case RemoveMacroDefinition(text) =>
        assert one[0] == "-U" && one[1] == text && one[2..] == [];
        assert ParseFlags(one) == [Separate("-U", text)] + ParseFlags([]);
      case AddSysincludePath(path) =>
        assert one[0] == "-I" && one[1] == path && one[2..] == [];
        assert ParseFlags(one) == [Separate("-I", path)] + ParseFlags([]);
    }
  }

  /** Every sequence of expressible actions is produced, in order, by the
      flags rendered from it. */
  lemma {:induction false} RenderParses(actions: seq<Action>)
    requires forall k :: 0 <= k < |actions| ==> Expressible(actions[k])
    ensures Complete(Render(actions))
    ensures ParseFlags(Render(actions)) == actions
  {
    if actions != [] {
      var one := RenderOne(actions[0]);
      RenderParses(actions[1..]);
      RenderOneParses(actions[0]);
      ParseFlagsAppend(one, Render(actions[1..]));
    }
  }
}
