/** The entity model of one file: the ordered list the preprocessor hooks
    append to and retract from. */
module Entities {

  datatype InclusionKind = System | Local

  /** One recorded entity. Every variant has a name; the search of
      `undefined_macro` compares names regardless of the variant. */
  datatype Entity =
    | MacroDefinition(name: string, parameters: string, replacement: string, line: nat)
    | InclusionDirective(name: string, kind: InclusionKind, line: nat)
      /** A declaration recorded by the syntax pass (functions and the like). */
    | Declaration(name: string)

  /** A token as the macro engine hands it to the hooks: its spelling and
      the line the engine reports for it. */
  datatype Token = Token(value: string, line: nat)

  /** The index of the entity just before the first one called `name`, or -1
      when that first one is at index 0 or the list is empty; |s| - 1 when
      no entity is called `name`. So prev + 1 is always the index of the
      first match, or |s| when there is none. */
  function Predecessor(s: seq<Entity>, name: string): (prev: int)
    ensures -1 <= prev < |s|
    ensures forall j :: 0 <= j <= prev ==> s[j].name != name
    ensures prev + 1 < |s| ==> s[prev + 1].name == name
    ensures prev + 1 < |s| <==> exists i :: 0 <= i < |s| && s[i].name == name
  {
    if s == [] || s[0].name == name then -1 else 1 + Predecessor(s[1..], name)
  }

  /** The list left by `remove_entity_after(prev)`, where prev = -1 stands for
      the null pointer. That member of cpp_file is not part of this model; the
      reading assumed here is that every entity after `prev` is removed
      (every entity, when prev is -1). */
  function RemoveAfter(s: seq<Entity>, prev: int): (r: seq<Entity>)
    requires -1 <= prev < |s|
    ensures |r| == prev + 1
    ensures r <= s
  {
    s[..prev + 1]
  }

  /** The cpp_file container the hooks mutate. */
  class CppFile {
    var entities: seq<Entity>

    /** `add_entity`: the new entity goes at the end. */
    method AddEntity(e: Entity)
      modifies this
      ensures entities == old(entities) + [e]
    {
      entities := entities + [e];
    }

    /** `remove_entity_after`, under the reading stated at RemoveAfter. */
    method RemoveEntityAfter(prev: int)
      requires -1 <= prev < |entities|
      modifies this
      ensures entities == RemoveAfter(old(entities), prev)
    {
      entities := entities[..prev + 1];
    }
  }
}
