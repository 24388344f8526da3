// The pending obligations of the symbol table (src/lib/semanticHelper/SymbolTable.java):
// the type names used before their struct is declared (checkDefinitionStructs)
// and the children waiting for an undeclared parent (redefinitions).
module PendingTypes {
  import opened Tokens
  import opened Params

  /** t occurs in s starting at index i. */
  predicate OccursAt(s: string, t: string, i: int)
  {
    0 <= i && i + |t| <= |s| && s[i..i + |t|] == t
  }

  /** String.contains: t occurs somewhere in s. */
  predicate ContainsText(s: string, t: string)
  {
    exists i :: 0 <= i <= |s| && OccursAt(s, t, i)
  }

  /** An attribute or parameter type must be declared later unless it names an array or a known struct. */
  predicate NeedsDefinition(typeName: string, registered: set<string>)
  {
    !ContainsText(typeName, "Array") && typeName !in registered
  }

  /** A return type is tested on its kind's name instead, and void needs nothing. */
  predicate ReturnNeedsDefinition(t: Token, registered: set<string>, kindText: Kind -> string)
  {
    !ContainsText(kindText(t.name), "Array") && t.name != TypeVoid && t.lexema !in registered
  }

  /** Every pending entry is keyed by its token's lexeme and names no declared struct. */
  ghost predicate PendingWellFormed(pending: map<string, Token>, registered: set<string>)
  {
    forall k :: k in pending ==> pending[k].lexema == k && k !in registered
  }

  /** The type of one parameter (or attribute) recorded when it needs a definition. */
  function NoteType(pending: map<string, Token>, t: Token, registered: set<string>): (r: map<string, Token>)
    ensures forall k :: k in r <==> k in pending || (k == t.lexema && NeedsDefinition(k, registered))
    ensures PendingWellFormed(pending, registered) ==> PendingWellFormed(r, registered)
  {
    if NeedsDefinition(t.lexema, registered) then pending[t.lexema := t] else pending
  }

  /** The return type of a method recorded when it needs a definition. */
  function NoteReturn(pending: map<string, Token>, t: Token, registered: set<string>, kindText: Kind -> string)
    : (r: map<string, Token>)
    ensures forall k :: k in r <==> k in pending || (k == t.lexema && ReturnNeedsDefinition(t, registered, kindText))
    ensures PendingWellFormed(pending, registered) ==> PendingWellFormed(r, registered)
  {
    if ReturnNeedsDefinition(t, registered, kindText) then pending[t.lexema := t] else pending
  }

  /** The loop of addMethod over the parameters, in order. */
  function NoteParamTypes(pending: map<string, Token>, ps: seq<Param>, registered: set<string>): (r: map<string, Token>)
    ensures PendingWellFormed(pending, registered) ==> PendingWellFormed(r, registered)
  {
    if ps == [] then pending
    else NoteType(NoteParamTypes(pending, ps[..|ps| - 1], registered), ps[|ps| - 1].paramType, registered)
  }

  /**
   * After the loop, a name is pending exactly when it was pending before or is
   * the type of some parameter that needs a definition.
   */
  lemma {:induction false} NoteParamTypesKeys(pending: map<string, Token>, ps: seq<Param>, registered: set<string>)
    ensures forall k :: k in NoteParamTypes(pending, ps, registered) <==>
              k in pending
              || exists i :: 0 <= i < |ps| && ps[i].paramType.lexema == k && NeedsDefinition(k, registered)
  {
    if ps != [] {
      var init := ps[..|ps| - 1];
      NoteParamTypesKeys(pending, init, registered);
      forall k
        ensures k in NoteParamTypes(pending, ps, registered) <==>
                  k in pending
                  || exists i :: 0 <= i < |ps| && ps[i].paramType.lexema == k && NeedsDefinition(k, registered)
      {
        if exists i :: 0 <= i < |ps| && ps[i].paramType.lexema == k && NeedsDefinition(k, registered) {
          var i :| 0 <= i < |ps| && ps[i].paramType.lexema == k && NeedsDefinition(k, registered);
          if i < |ps| - 1 {
            assert init[i] == ps[i];
          }
        }
        if exists i :: 0 <= i < |init| && init[i].paramType.lexema == k && NeedsDefinition(k, registered) {
          var i :| 0 <= i < |init| && init[i].paramType.lexema == k && NeedsDefinition(k, registered);
          assert ps[i] == init[i];
        }
      }
    }
  }

  /** A struct waiting for the undeclared parent p: its name is appended to p's list. */
  function Deferred(redefinitions: map<string, seq<string>>, p: string, c: string): (r: map<string, seq<string>>)
    ensures r.Keys == redefinitions.Keys + {p}
    ensures forall k :: k in redefinitions && k != p ==> r[k] == redefinitions[k]
    ensures r[p] == (if p in redefinitions then redefinitions[p] else []) + [c]
  {
    redefinitions[p := (if p in redefinitions then redefinitions[p] else []) + [c]]
  }
}
