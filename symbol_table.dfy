// The symbol table of src/lib/semanticHelper/SymbolTable.java: the registered
// structs, the obligations left open by forward references, the declaration
// of structs, attributes and methods, and consolidation.
module SymbolTables {
  import opened Wrappers
  import opened Tokens
  import opened Params
  import opened Members
  import opened Structs
  import opened Hierarchy
  import opened PendingTypes
  import opened Builtins

  /** The predefined type names: no struct may inherit from one of them except Object. */
  const StaticStructNames: set<string> :=
    {"Object", "IO", "Array", "Array Int", "Array Str", "Array Bool", "Array Char", "Int", "Str", "Char", "Bool"}

  /** Each of the named structs has Object as its parent. */
  function UnderObject(names: set<string>): (r: map<string, string>)
    ensures r.Keys == names
    ensures forall n :: n in r ==> r[n] == "Object"
  {
    map n | n in names :: "Object"
  }

  /** The parent named in a declaration; none means Object. */
  function ParentName(parent: Option<Token>): string
  {
    if parent.Some? then parent.value.lexema else "Object"
  }

  /** The structs of R are exactly those registered in ss, each under its own name. */
  ghost predicate Indexed(ss: map<string, Struct>, R: set<Struct>)
  {
    (forall n :: n in ss ==> ss[n] in R && ss[n].name == n)
    && (forall s :: s in R ==> s.name in ss && ss[s.name] == s)
  }

  /** Every parent of a struct of R is in R. */
  ghost predicate ParentsWithin(R: set<Struct>)
    reads R`parent
  {
    forall s :: s in R && s.parent != null ==> s.parent in R
  }

  /**
   * The registered structs form a tree rooted at Object: Object has no
   * parent, every other struct has a registered one, and `parents` records
   * each parent's name.
   */
  ghost predicate Linked(ss: map<string, Struct>, R: set<Struct>, parents: map<string, string>)
    reads R`parent
  {
    Indexed(ss, R)
    && "Object" in ss && ss["Object"].parent == null
    && (forall n :: n in parents <==> n in ss && n != "Object")
    && (forall n :: n in parents ==> ss[n].parent != null && ss[n].parent in R && ss[n].parent.name == parents[n])
  }

  /** The children waiting for an undeclared parent are declared structs other than Object and that parent. */
  ghost predicate WaitingWellFormed(redefinitions: map<string, seq<string>>, registered: set<string>)
  {
    forall k :: k in redefinitions ==>
      k !in registered && |redefinitions[k]| > 0
      && forall i :: 0 <= i < |redefinitions[k]| ==>
           redefinitions[k][i] in registered && redefinitions[k][i] != k && redefinitions[k][i] != "Object"
  }

  /**
   * The table invariant over explicit values: registration as a tree under
   * Object, well-formed structs, children among the registered structs,
   * pending names that are not declared, and every parent chain reaching Object.
   */
  ghost predicate TableValid(ss: map<string, Struct>, R: set<Struct>, parents: map<string, string>,
                             redefinitions: map<string, seq<string>>, pending: map<string, Token>)
    reads R`parent, R`childrens
  {
    Linked(ss, R, parents) && ChildrenWithin(R)
    && WaitingWellFormed(redefinitions, ss.Keys) && PendingWellFormed(pending, ss.Keys)
    && forall n :: n in ss ==> ReachesObject(parents, n)
  }

  /** The waiting lists after addStruct deferred `c` under an undeclared `p` and settled the children waiting for `c`. */
  function Settled(redefinitions: map<string, seq<string>>, registered: set<string>, p: string, c: string)
    : (r: map<string, seq<string>>)
    ensures c !in r
    ensures p !in registered && p != c ==> p in r && r[p] == (if p in redefinitions then redefinitions[p] else []) + [c]
    ensures forall k :: k in r && k != p ==> k in redefinitions && r[k] == redefinitions[k]
  {
    (if p in registered then redefinitions else Deferred(redefinitions, p, c)) - {c}
  }

  /**
   * The parent names once addStruct has placed `c`: a new struct, or one
   * declared by a struct, takes the parent p of its declaration (Object while
   * p is not registered); an existing struct declared by an impl keeps its
   * parent; the children waiting for `c` take `c`.
   */
  function DeclaredParents(parents: map<string, string>, registered: set<string>,
                           redefinitions: map<string, seq<string>>, c: string, p: string, isFromStruct: bool)
    : (r: map<string, string>)
    ensures c in r && r[c] == (if c in redefinitions && c in redefinitions[c] then c
                               else if c !in registered || isFromStruct then (if p in registered then p else "Object")
                               else if c in parents then parents[c] else "Object")
    ensures forall n :: n in r && n != c && (c !in redefinitions || n !in redefinitions[c]) ==>
              n in parents && r[n] == parents[n]
  {
    var q := if c !in registered || isFromStruct then (if p in registered then p else "Object")
             else if c in parents then parents[c] else "Object";
    Adopt(parents[c := q], if c in redefinitions then redefinitions[c] else [], c)
  }

  /** In a linked table only Object has no parent. */
  lemma RootOnly(ss: map<string, Struct>, R: set<Struct>, parents: map<string, string>, n: string)
    requires Linked(ss, R, parents) && n in ss
    ensures ss[n].parent == null <==> n == "Object"
  {
    if n != "Object" {
      assert n in parents;
    }
  }

  /** The parent names staging records are those DeclaredParents describes. */
  lemma StagedAsDeclared(parents: map<string, string>, registered: set<string>,
                         redefinitions: map<string, seq<string>>, c: string, p: string, isFromStruct: bool,
                         parentName: string)
    requires c !in registered || isFromStruct ==> parentName == (if p in registered then p else "Object")
    requires c in registered && !isFromStruct ==> c in parents && parentName == parents[c]
    ensures Adopt(parents[c := parentName], if c in redefinitions then redefinitions[c] else [], c)
            == DeclaredParents(parents, registered, redefinitions, c, p, isFromStruct)
  {
  }

  /**
   * The table just before `current` is registered under its own name:
   * `before` records the parent names of the registered structs ss, `after`
   * those once `current` and the children in `waiting` point at their new
   * parents, and R with `current` already forms a linked, well-formed tree.
   */
  ghost predicate Staged(ss: map<string, Struct>, R: set<Struct>, before: map<string, string>,
                         redefinitions: map<string, seq<string>>, pending: map<string, Token>,
                         current: Struct, after: map<string, string>, waiting: seq<string>)
    reads current`parent, current`childrens, R`parent, R`childrens
  {
    current.parent != null
    && Linked(ss[current.name := current], R + {current}, after)
    && ChildrenWithin(R + {current})
    && WaitingWellFormed(redefinitions, ss.Keys + {current.name})
    && PendingWellFormed(pending, ss.Keys + {current.name})
    && (forall n :: n in ss ==> ReachesObject(before, n))
    && (forall i :: 0 <= i < |waiting| ==> waiting[i] in after && after[waiting[i]] == current.name)
    && (forall x :: x in before && x != current.name && x !in waiting ==> x in after && after[x] == before[x])
  }

  /** Settling keeps the waiting lists well formed once `c` is declared. */
  lemma SettledWellFormed(redefinitions: map<string, seq<string>>, registered: set<string>, p: string, c: string)
    requires WaitingWellFormed(redefinitions, registered)
    requires p != c && c != "Object"
    ensures WaitingWellFormed(Settled(redefinitions, registered, p, c), registered + {c})
  {
    var r := Settled(redefinitions, registered, p, c);
    forall k | k in r
      ensures k !in registered + {c} && |r[k]| > 0
      ensures forall i :: 0 <= i < |r[k]| ==> r[k][i] in registered + {c} && r[k][i] != k && r[k][i] != "Object"
    {
      if k == p && p !in registered {
        var old_ := if p in redefinitions then redefinitions[p] else [];
        assert r[k] == old_ + [c];
        forall i | 0 <= i < |r[k]|
          ensures r[k][i] in registered + {c} && r[k][i] != k && r[k][i] != "Object"
        {
          if i < |old_| {
            assert r[k][i] == redefinitions[p][i];
          }
        }
      }
    }
  }

  /**
   * The parent links once addStruct has moved `current` and the children
   * waiting for it: `current` points at a registered parent (the requested
   * one or Object when it moved, its old one otherwise), the children that
   * waited for it point at it, and no other struct changed parent.
   */
  twostate lemma Relinked(new ss: map<string, Struct>, R: set<Struct>, new before: map<string, string>,
                          new current: Struct, new parentStruct: Struct, new moved: bool, new waiting: seq<string>)
    requires forall n :: n in ss ==> ss[n] in R
    requires old(Linked(ss, R, before))
    requires parentStruct in R
    requires current.name in ss ==> current == ss[current.name]
    requires current.name !in ss ==> moved
    requires moved ==> current.parent == parentStruct
    requires moved && current.name in ss ==> old(ss[current.name].parent) != null
    requires !moved ==> current.parent == old(ss[current.name].parent)
    requires current.parent != null
    requires forall i :: 0 <= i < |waiting| ==> waiting[i] in ss && waiting[i] != current.name && waiting[i] != "Object"
    requires forall i :: 0 <= i < |waiting| ==> ss[waiting[i]].parent == current
    requires forall x :: x in R && x != current && x.name !in waiting ==> x.parent == old(x.parent)
    ensures current.name != "Object"
    ensures Linked(ss[current.name := current], R + {current},
                   Adopt(before[current.name := current.parent.name], waiting, current.name))
  {
    var c := current.name;
    assert old(ss["Object"].parent) == null;
    assert c != "Object";
    IndexedAdd(ss, R, current);
    var after := Adopt(before[c := current.parent.name], waiting, c);
    Relink(ss, R, before, current, waiting, after);
    AdoptKeys(ss, before, current, waiting, after);
  }

  /** The parent names after adoption cover exactly the registered structs other than Object. */
  lemma AdoptKeys(ss: map<string, Struct>, before: map<string, string>, current: Struct, waiting: seq<string>,
                  after: map<string, string>)
    requires forall n :: n in before <==> n in ss && n != "Object"
    requires current.name != "Object"
    requires forall i :: 0 <= i < |waiting| ==> waiting[i] in ss && waiting[i] != "Object"
    requires forall n :: n in after <==> n in before || n == current.name || n in waiting
    ensures forall n :: n in after <==> n in ss[current.name := current] && n != "Object"
  {
  }

  /** Registering `current` under its own name keeps the structs indexed by name. */
  lemma IndexedAdd(ss: map<string, Struct>, R: set<Struct>, current: Struct)
    requires Indexed(ss, R)
    requires current.name in ss ==> current == ss[current.name]
    ensures Indexed(ss[current.name := current], R + {current})
  {
  }

  /**
   * The links themselves once `current` and the children waiting for it
   * moved: Object still has no parent and every other struct points at the
   * struct its recorded parent name names.
   */
  twostate lemma Relink(new ss: map<string, Struct>, R: set<Struct>, new before: map<string, string>,
                        new current: Struct, new waiting: seq<string>, new after: map<string, string>)
    requires forall n :: n in ss ==> ss[n] in R
    requires old(Linked(ss, R, before))
    requires current.name in ss ==> current == ss[current.name]
    requires current.name != "Object" && current.parent != null && current.parent in R
    requires forall i :: 0 <= i < |waiting| ==> waiting[i] in ss && waiting[i] != current.name && waiting[i] != "Object"
    requires forall i :: 0 <= i < |waiting| ==> ss[waiting[i]].parent == current
    requires forall x :: x in R && x != current && x.name !in waiting ==> x.parent == old(x.parent)
    requires after == Adopt(before[current.name := current.parent.name], waiting, current.name)
    ensures "Object" in ss[current.name := current] && ss[current.name := current]["Object"].parent == null
    ensures forall n :: n in after ==>
              ss[current.name := current][n].parent != null
              && ss[current.name := current][n].parent in R + {current}
              && ss[current.name := current][n].parent.name == after[n]
  {
    var c := current.name;
    var o := ss["Object"];
    assert o in R && o != current && o.name !in waiting;
    forall n | n in after
      ensures ss[c := current][n].parent != null && ss[c := current][n].parent in R + {current}
      ensures ss[c := current][n].parent.name == after[n]
    {
      if n == c {
      } else if n in waiting {
      } else {
        var x := ss[n];
        assert x in R && x != current && x.name !in waiting;
      }
    }
  }

  /**
   * What addStruct does before the cycle check stages the table: the tree
   * stays linked with `current` in it, the waiting lists and pending entries
   * are settled, and the chains of the registered structs are untouched.
   */
  twostate lemma Staging(new ss: map<string, Struct>, R: set<Struct>, new before: map<string, string>,
                         new redefinitions: map<string, seq<string>>, new pending: map<string, Token>,
                         new p: string, new current: Struct, new parentStruct: Struct, new moved: bool,
                         new waiting: seq<string>)
    returns (after: map<string, string>)
    requires forall n :: n in ss ==> ss[n] in R
    requires old(TableValid(ss, R, before, redefinitions, pending))
    requires p != current.name && parentStruct in R
    requires current.name in ss ==> current == ss[current.name]
    requires current.name !in ss ==> moved
    requires moved ==> current.parent == parentStruct
    requires moved && current.name in ss ==> old(ss[current.name].parent) != null
    requires !moved ==> current.parent == old(ss[current.name].parent)
    requires current.parent != null
    requires waiting == if current.name in redefinitions then redefinitions[current.name] else []
    requires forall i :: 0 <= i < |waiting| ==> ss[waiting[i]].parent == current
    requires forall x :: x in R && x != current && x.name !in waiting ==> x.parent == old(x.parent)
    requires ChildrenWithin(R + {current})
    ensures after == Adopt(before[current.name := current.parent.name], waiting, current.name)
    ensures Staged(ss, R, before, Settled(redefinitions, ss.Keys, p, current.name), pending - {current.name},
                   current, after, waiting)
  {
    var c := current.name;
    assert WaitingWellFormed(redefinitions, ss.Keys);
    if |waiting| > 0 {
      assert c in redefinitions;
    }
    Relinked(ss, R, before, current, parentStruct, moved, waiting);
    after := Adopt(before[c := current.parent.name], waiting, c);
    SettledWellFormed(redefinitions, ss.Keys, p, c);
  }

  /** A staged table whose new struct reaches Object is valid with that struct registered. */
  lemma StagedRegisters(ss: map<string, Struct>, R: set<Struct>, before: map<string, string>,
                        redefinitions: map<string, seq<string>>, pending: map<string, Token>,
                        current: Struct, after: map<string, string>, waiting: seq<string>)
    requires Staged(ss, R, before, redefinitions, pending, current, after, waiting)
    requires ReachesObject(after, current.name)
    ensures TableValid(ss[current.name := current], R + {current}, after, redefinitions, pending)
  {
    AllReachAfterDeclare(before, after, ss.Keys, current.name, set w | w in waiting);
    assert ss[current.name := current].Keys == ss.Keys + {current.name};
  }

  /** The table invariant depends only on the registered structs, not on the table object holding them. */
  twostate lemma TableKept(new ss: map<string, Struct>, R: set<Struct>, new parents: map<string, string>,
                           new redefinitions: map<string, seq<string>>, new pending: map<string, Token>)
    requires forall n :: n in ss ==> ss[n] in R
    requires old(TableValid(ss, R, parents, redefinitions, pending)) && old(AllValid(R))
    requires forall x :: x in R ==>
               unchanged(x`parent, x`childrens, x`methods, x`currentMethodIndex, x`variables, x`currentVarIndex)
    ensures TableValid(ss, R, parents, redefinitions, pending) && AllValid(R)
  {
  }

  /** Registration survives any change that leaves the table, the parents and the children alone. */
  twostate lemma RegisteredKept(t: SymbolTable)
    requires old(t.Registered()) && unchanged(t) && unchanged(old(t.Repr)`parent, old(t.Repr)`childrens)
    ensures t.Registered()
  {
  }

  /** Struct validity depends only on the method and attribute tables and their counters. */
  twostate lemma AllValidKept(U: set<Struct>)
    requires old(AllValid(U))
    requires forall x :: x in U ==> unchanged(x`methods, x`currentMethodIndex, x`variables, x`currentVarIndex)
    ensures AllValid(U)
  {
  }

  /** The table init builds satisfies the table invariant, with every chain one step from Object. */
  lemma BuiltinsValid(o: Struct)
    requires Root(o) && Shape(o) && "Object" !in o.childrens
    ensures var ss := o.childrens["Object" := o];
      TableValid(ss, ss.Values, UnderObject(o.childrens.Keys), map[], map[]) && AllValid(ss.Values)
  {
    var ss := o.childrens["Object" := o];
    var parents := UnderObject(o.childrens.Keys);
    forall n | n in ss
      ensures ReachesObject(parents, n)
    {
      if n != "Object" {
        assert Ancestor(parents, n, 1) == "Object";
      } else {
        assert Ancestor(parents, n, 0) == "Object";
      }
    }
  }

  class SymbolTable {
    const staticStruct: set<string>
    const kindText: Kind -> string
    var start: Option<MethodInfo>
    var structs: map<string, Struct>
    var redefinitions: map<string, seq<string>>
    var checkDefinitionStructs: map<string, Token>
    var conditionalCounter: int
    var loopCounter: int
    var literalStrCounter: int
    /** The registered structs. */
    ghost var Repr: set<Struct>
    /** Each registered struct's parent's name. */
    ghost var parentOf: map<string, string>

    /**
     * The table invariant: registration as a tree under Object, well-formed
     * structs, children among the registered structs, pending names that are
     * not declared, and every parent chain reaching Object.
     */
    ghost predicate Valid()
      reads this, Repr
    {
      Registered() && AllValid(Repr)
    }

    /** The part of the invariant about registration, which the struct tables do not affect. */
    ghost predicate Registered()
      reads this, Repr`parent, Repr`childrens
    {
      staticStruct == StaticStructNames && TableValid(structs, Repr, parentOf, redefinitions, checkDefinitionStructs)
    }

    /**
     * The constructor followed by init, given the predefined structs: Object
     * and its children are registered under their names, each child under
     * Object, and nothing is waiting, pending or counted yet.
     */
    constructor (kindText: Kind -> string, o: Struct)
      requires Root(o) && Shape(o) && "Object" !in o.childrens
      ensures Valid()
      ensures this.kindText == kindText && staticStruct == StaticStructNames
      ensures structs == o.childrens["Object" := o] && parentOf == UnderObject(o.childrens.Keys)
      ensures redefinitions == map[] && checkDefinitionStructs == map[] && start.None?
      ensures conditionalCounter == 0 && loopCounter == 0 && literalStrCounter == 0
    {
      var ss := o.childrens["Object" := o];
      this.kindText := kindText;
      staticStruct := StaticStructNames;
      start := None;
      structs := ss;
      redefinitions := map[];
      checkDefinitionStructs := map[];
      conditionalCounter := 0;
      loopCounter := 0;
      literalStrCounter := 0;
      Repr := ss.Values;
      parentOf := UnderObject(o.childrens.Keys);
      new;
      BuiltinsValid(o);
    }

    /** getStruct: the struct registered under a name, if any. */
    function GetStruct(n: string): (r: Option<Struct>)
      requires Valid()
      reads this, Repr
      ensures r.Some? <==> n in structs
      ensures r.Some? ==> r.value in Repr && r.value.name == n
    {
      if n in structs then Some(structs[n]) else None
    }

    /**
     * addVar: an attribute or variable type that names no array and no
     * registered struct is recorded as pending, keyed by its lexeme.
     */
    method AddVar(token: Token, typeToken: Token, isPrivate: bool)
      requires Valid()
      modifies this`checkDefinitionStructs
      ensures Valid()
      ensures checkDefinitionStructs == NoteType(old(checkDefinitionStructs), typeToken, structs.Keys)
      ensures typeToken.lexema in checkDefinitionStructs <==>
                typeToken.lexema in old(checkDefinitionStructs) || NeedsDefinition(typeToken.lexema, structs.Keys)
    {
      if NeedsDefinition(typeToken.lexema, structs.Keys) {
        checkDefinitionStructs := checkDefinitionStructs[typeToken.lexema := typeToken];
      }
    }

    /**
     * The checks of addMethod before the method is added: its return type,
     * then each parameter type in order, is recorded as pending when it needs
     * a definition.
     */
    method NoteSignature(params: seq<Param>, returnType: Token)
      requires Valid()
      modifies this`checkDefinitionStructs
      ensures Valid()
      ensures checkDefinitionStructs ==
                NoteParamTypes(NoteReturn(old(checkDefinitionStructs), returnType, structs.Keys, kindText), params, structs.Keys)
    {
      var noted := NoteReturn(checkDefinitionStructs, returnType, structs.Keys, kindText);
      checkDefinitionStructs := noted;
      NoteParams(params, noted);
    }

    /** The loop of addMethod over the parameters: each type that needs a definition is recorded, in order. */
    method NoteParams(params: seq<Param>, ghost noted: map<string, Token>)
      requires checkDefinitionStructs == noted
      modifies this`checkDefinitionStructs
      ensures checkDefinitionStructs == NoteParamTypes(noted, params, structs.Keys)
    {
      for i := 0 to |params|
        invariant checkDefinitionStructs == NoteParamTypes(noted, params[..i], structs.Keys)
      {
        assert params[..i + 1][..i] == params[..i];
        checkDefinitionStructs := NoteType(checkDefinitionStructs, params[i].paramType, structs.Keys);
      }
      assert params[..|params|] == params;
    }

    /**
     * addMethod: outside a struct only the start method can be declared, and it
     * is kept apart with slot 0; inside one the signature's types are checked
     * and then the struct adds the method (or its constructor).
     */
    method AddMethod(token: Token, params: seq<Param>, isStatic: bool, returnType: Token, currentStruct: Struct,
                     fromStruct: bool)
      returns (r: Result<MethodInfo, SemanticError>)
      requires Valid() && currentStruct in Repr
      modifies this`start, this`checkDefinitionStructs
      modifies currentStruct`methods, currentStruct`currentMethodIndex, currentStruct`structConstructor
      ensures Valid()
      ensures !fromStruct ==>
                r == Ok(MethodInfo(token, params, returnType, isStatic, 0)) && start == Some(r.value)
                && checkDefinitionStructs == old(checkDefinitionStructs) && unchanged(currentStruct)
      ensures fromStruct ==>
                start == old(start)
                && checkDefinitionStructs ==
                     NoteParamTypes(NoteReturn(old(checkDefinitionStructs), returnType, structs.Keys, kindText), params, structs.Keys)
      ensures fromStruct ==> StructMethodAdded(token, params, isStatic, returnType, r,
                                               old(currentStruct.methods), old(currentStruct.structConstructor),
                                               currentStruct.methods, currentStruct.structConstructor)
    {
      if !fromStruct {
        start := Some(MethodInfo(token, params, returnType, isStatic, 0));
        return Ok(start.value);
      }
      NoteSignature(params, returnType);
      r := AddToStruct(token, params, isStatic, returnType, currentStruct);
    }

    /** The last step of addMethod: the struct adds the method, and every registered struct stays well formed. */
    method AddToStruct(token: Token, params: seq<Param>, isStatic: bool, returnType: Token, currentStruct: Struct)
      returns (r: Result<MethodInfo, SemanticError>)
      requires Valid() && currentStruct in Repr
      modifies currentStruct`methods, currentStruct`currentMethodIndex, currentStruct`structConstructor
      ensures Valid()
      ensures StructMethodAdded(token, params, isStatic, returnType, r,
                                old(currentStruct.methods), old(currentStruct.structConstructor),
                                currentStruct.methods, currentStruct.structConstructor)
    {
      assert currentStruct.Valid();
      r := currentStruct.AddMethod(token, params, isStatic, returnType);
      forall x | x in Repr
        ensures x.Valid()
      {
        if x != currentStruct {
          assert old(x.Valid());
        }
      }
      RegisteredKept(this);
    }

    /**
     * consolidate: a parent still awaited is reported first (with the first
     * struct waiting for it), then a type still pending; only a table without
     * obligations is consolidated, from Object down.
     */
    method Consolidate() returns (r: Result<(), SemanticError>)
      requires Valid()
      modifies Repr`methods, Repr`variables, Repr`currentMethodIndex, Repr`currentVarIndex, Repr`consolidated
      ensures redefinitions != map[] ==>
                r.Err? && exists k :: k in redefinitions && r.error == UndefinedStruct(structs[redefinitions[k][0]].metadata, k)
      ensures redefinitions == map[] && checkDefinitionStructs != map[] ==>
                r.Err? && exists k :: k in checkDefinitionStructs && r.error == UndefinedStruct(checkDefinitionStructs[k], k)
      ensures r.Ok? ==> redefinitions == map[] && checkDefinitionStructs == map[] && Valid()
      ensures r.Ok? ==> forall n :: n in structs["Object"].childrens && structs["Object"].childrens[n].name !in staticStruct ==>
                          structs["Object"].childrens[n].consolidated
      ensures r.Ok? ==> Done(Repr, Snapshot(Repr), staticStruct, structs["Object"], |structs|)
      ensures Walked(Repr, old(Snapshot(Repr)), Snapshot(Repr), r.Ok?, true)
      ensures r.Ok? ==>
                var o := structs["Object"];
                forall n :: n in o.childrens && o.childrens[n].name !in staticStruct && !old(o.childrens[n].consolidated) ==>
                  MethodsMerged(old(o.childrens[n].methods), old(o.methods), o.childrens[n].methods)
                  && VariablesMerged(old(o.childrens[n].variables), old(o.variables), o.childrens[n].variables)
    {
      if redefinitions != map[] {
        var k :| k in redefinitions;
        assert |redefinitions[k]| > 0 && redefinitions[k][0] in structs;
        return Err(UndefinedStruct(structs[redefinitions[k][0]].metadata, k));
      }
      if checkDefinitionStructs != map[] {
        var k :| k in checkDefinitionStructs;
        return Err(UndefinedStruct(checkDefinitionStructs[k], k));
      }
      r := ConsolidateFromObject();
    }

    /** The walk consolidate starts at Object once every struct is defined and every definition is complete. */
    method ConsolidateFromObject() returns (r: Result<(), SemanticError>)
      requires Valid() && redefinitions == map[] && checkDefinitionStructs == map[]
      modifies Repr`methods, Repr`variables, Repr`currentMethodIndex, Repr`currentVarIndex, Repr`consolidated
      ensures r.Ok? ==> Valid()
      ensures r.Ok? ==> forall n :: n in structs["Object"].childrens && structs["Object"].childrens[n].name !in staticStruct ==>
                          structs["Object"].childrens[n].consolidated
      ensures r.Ok? ==> Done(Repr, Snapshot(Repr), staticStruct, structs["Object"], |structs|)
      ensures Walked(Repr, old(Snapshot(Repr)), Snapshot(Repr), r.Ok?, true)
      ensures r.Ok? ==>
                var o := structs["Object"];
                forall n :: n in o.childrens && o.childrens[n].name !in staticStruct && !old(o.childrens[n].consolidated) ==>
                  MethodsMerged(old(o.childrens[n].methods), old(o.methods), o.childrens[n].methods)
                  && VariablesMerged(old(o.childrens[n].variables), old(o.variables), o.childrens[n].variables)
    {
      var root := structs["Object"];
      assert root in Repr && root.parent == null;
      r := root.Consolidate(staticStruct, Repr, |structs|);
      RegisteredKept(this);
    }

    /** addConditionalSentenceCounter: each call yields the next number, so labels never repeat. */
    method AddConditionalSentenceCounter() returns (n: int)
      modifies this`conditionalCounter
      ensures n == old(conditionalCounter) + 1 && conditionalCounter == n
    {
      conditionalCounter := conditionalCounter + 1;
      n := conditionalCounter;
    }

    /** addLoopSentenceCounter: each call yields the next number. */
    method AddLoopSentenceCounter() returns (n: int)
      modifies this`loopCounter
      ensures n == old(loopCounter) + 1 && loopCounter == n
    {
      loopCounter := loopCounter + 1;
      n := loopCounter;
    }

    /** addLiteralStrCount: each call yields the next number. */
    method AddLiteralStrCount() returns (n: int)
      modifies this`literalStrCounter
      ensures n == old(literalStrCounter) + 1 && literalStrCounter == n
    {
      literalStrCounter := literalStrCounter + 1;
      n := literalStrCounter;
    }

    /**
     * checkParents: walks the parent names from `current` until Object; a name
     * seen twice is cyclic inheritance. `current` may not be registered yet;
     * `parents` records the parent names with it included. The walk succeeds
     * exactly when the chain of `current` reaches Object.
     */
    method CheckParents(current: Struct, token: Token, ghost parents: map<string, string>)
      returns (r: Result<(), SemanticError>)
      requires Linked(structs[current.name := current], Repr + {current}, parents)
      ensures r.Ok? <==> current.parent != null && ReachesObject(parents, current.name)
      ensures r.Err? ==> r.error == if current.parent == null then NoParent(token) else CyclicInheritance(token)
    {
      if current.parent == null {
        return Err(NoParent(token));
      }
      ghost var table := structs[current.name := current];
      CheckDecides(parents, current.name);
      var stack := {current.name};
      var parent := current.GetParent();
      while parent != "Object"
        invariant current.name in stack
        invariant parent in table
        invariant ParentWalk(parents, parent, stack) == ParentWalk(parents, parents[current.name], {current.name})
        decreases |parents.Keys - stack|
      {
        if parent in stack {
          return Err(CyclicInheritance(token));
        }
        SeeingShrinks(parents.Keys, stack, parent);
        stack := stack + {parent};
        var s := structs[parent];
        parent := s.GetParent();
      }
      r := Ok(());
    }

    /**
     * The struct addStruct works on: a new one under `parentStruct`, or the
     * registered one, moved under `parentStruct` when declared by a struct
     * (Object, which has no parent to leave, cannot be).
     */
    method Obtain(token: Token, parentStruct: Struct, isFromStruct: bool) returns (r: Result<Struct, SemanticError>)
      requires Indexed(structs, Repr) && parentStruct in Repr
      requires ParentsWithin(Repr) && ChildrenWithin(Repr) && AllValid(Repr)
      modifies Repr`parent, Repr`childrens
      ensures r.Err? ==> r == Err(NoParent(token)) && token.lexema in structs && isFromStruct && structs[token.lexema].parent == null
      ensures r.Err? ==> unchanged(Repr`parent)
      ensures r.Ok? ==> r.value.name == token.lexema
      ensures r.Ok? && token.lexema in structs ==> r.value == structs[token.lexema]
      ensures r.Ok? && token.lexema !in structs ==>
                fresh(r.value) && r.value.metadata == token && r.value.countStructDefinition == 0 && r.value.countImplDefinition == 0
      ensures r.Ok? && (token.lexema !in structs || isFromStruct) ==> r.value.parent == parentStruct
      ensures r.Ok? && token.lexema in structs && !isFromStruct ==> r.value.parent == old(r.value.parent)
      ensures r.Ok? && token.lexema in structs && isFromStruct ==> old(structs[token.lexema].parent) != null
      ensures r.Ok? && token.lexema in structs ==>
                r.value.countStructDefinition == old(r.value.countStructDefinition)
                && r.value.countImplDefinition == old(r.value.countImplDefinition)
      ensures r.Ok? ==> forall x :: x in Repr && x != r.value ==> x.parent == old(x.parent)
      ensures r.Ok? ==> AllValid(Repr + {r.value})
      ensures r.Ok? ==> ParentsWithin(Repr + {r.value}) && ChildrenWithin(Repr + {r.value})
    {
      if token.lexema !in structs {
        var c := new Struct(token, parentStruct);
        return Ok(c);
      }
      var c := structs[token.lexema];
      if isFromStruct {
        if c.parent == null {
          return Err(NoParent(token));
        }
        c.SetParent(parentStruct);
      }
      r := Ok(c);
    }

    /**
     * The loop of addStruct over the children waiting for `current`: each is
     * moved under `current`; no other struct changes parent.
     */
    method AdoptWaiting(current: Struct, waiting: seq<string>)
      requires Indexed(structs, Repr)
      requires forall i :: 0 <= i < |waiting| ==>
                 waiting[i] in structs && waiting[i] != current.name && structs[waiting[i]].parent != null
      requires ParentsWithin(Repr + {current}) && ChildrenWithin(Repr + {current})
      modifies Repr`parent, Repr`childrens, current`childrens
      ensures ParentsWithin(Repr + {current}) && ChildrenWithin(Repr + {current})
      ensures forall i :: 0 <= i < |waiting| ==>
                waiting[i] in structs && waiting[i] != current.name && structs[waiting[i]].parent == current
      ensures forall x :: x in Repr && x.name !in waiting ==> x.parent == old(x.parent)
      ensures current.parent == old(current.parent)
      ensures current.countStructDefinition == old(current.countStructDefinition)
      ensures current.countImplDefinition == old(current.countImplDefinition)
    {
      for i := 0 to |waiting|
        invariant ParentsWithin(Repr + {current}) && ChildrenWithin(Repr + {current})
        invariant forall j :: i <= j < |waiting| ==> structs[waiting[j]].parent != null
        invariant forall j :: 0 <= j < i ==> structs[waiting[j]].parent == current
        invariant forall x :: x in Repr && x.name !in waiting[..i] ==> x.parent == old(x.parent)
        invariant current.parent == old(current.parent)
        invariant current.countStructDefinition == old(current.countStructDefinition)
        invariant current.countImplDefinition == old(current.countImplDefinition)
      {
        var c := structs[waiting[i]];
        c.SetParent(current);
      }
    }

    /**
     * structs.put: `current` joins the table under its own name, together with
     * the waiting lists and pending entries addStruct settled.
     */
    method Install(current: Struct, red: map<string, seq<string>>, pend: map<string, Token>, ghost parents: map<string, string>)
      requires staticStruct == StaticStructNames
      requires TableValid(structs[current.name := current], Repr + {current}, parents, red, pend)
      requires AllValid(Repr + {current})
      modifies this`structs, this`redefinitions, this`checkDefinitionStructs, this`Repr, this`parentOf
      ensures Valid() && structs == old(structs)[current.name := current]
      ensures redefinitions == red && checkDefinitionStructs == pend && parentOf == parents
    {
      ghost var R := Repr + {current};
      var ss := structs[current.name := current];
      structs := ss;
      redefinitions := red;
      checkDefinitionStructs := pend;
      Repr := R;
      parentOf := parents;
      TableKept(ss, R, parents, red, pend);
    }

    /**
     * The middle of addStruct: `current` is obtained (created, or moved under
     * `parentStruct` when declared by a struct) and the children waiting for
     * it are moved under it, which stages the table for its registration.
     */
    method Prepare(token: Token, parentStruct: Struct, isFromStruct: bool, sParent: string, waiting: seq<string>)
      returns (r: Result<Struct, SemanticError>, ghost after: map<string, string>)
      requires Valid()
      requires sParent != token.lexema && parentStruct == structs[if sParent in structs then sParent else "Object"]
      requires waiting == if token.lexema in redefinitions then redefinitions[token.lexema] else []
      modifies Repr`parent, Repr`childrens
      ensures r.Err? ==> r == Err(NoParent(token))
      ensures r.Err? <==> token.lexema == "Object"
      ensures r.Ok? ==> after == DeclaredParents(parentOf, structs.Keys, redefinitions, token.lexema, sParent, isFromStruct)
      ensures r.Ok? ==> r.value.name == token.lexema && AllValid(Repr + {r.value})
      ensures r.Ok? && token.lexema in structs ==> r.value == structs[token.lexema]
      ensures r.Ok? && token.lexema !in structs ==>
                fresh(r.value) && r.value.metadata == token && r.value.countStructDefinition == 0 && r.value.countImplDefinition == 0
      ensures r.Ok? && token.lexema in structs ==>
                r.value.countStructDefinition == old(r.value.countStructDefinition)
                && r.value.countImplDefinition == old(r.value.countImplDefinition)
      ensures r.Ok? && (token.lexema !in structs || isFromStruct) ==> r.value.parent == parentStruct
      ensures r.Ok? && token.lexema in structs && !isFromStruct ==> r.value.parent == old(r.value.parent)
      ensures r.Ok? ==> forall i :: 0 <= i < |waiting| ==>
                          waiting[i] in structs && waiting[i] != token.lexema && structs[waiting[i]].parent == r.value
      ensures r.Ok? ==> Staged(structs, Repr, parentOf, Settled(redefinitions, structs.Keys, sParent, r.value.name),
                               checkDefinitionStructs - {r.value.name}, r.value, after, waiting)
    {
      after := map[];
      if token.lexema in structs {
        RootOnly(structs, Repr, parentOf, token.lexema);
      }
      r := Obtain(token, parentStruct, isFromStruct);
      if r.Err? {
        return;
      }
      var current := r.value;
      if current.parent == null {
        return Err(NoParent(token)), after;
      }
      label Obtained:
      assert WaitingWellFormed(redefinitions, structs.Keys);
      AdoptWaiting(current, waiting);
      AllValidKept@Obtained(Repr + {current});
      after := Staging(structs, Repr, parentOf, redefinitions, checkDefinitionStructs, sParent, r.value,
                       parentStruct, token.lexema !in structs || isFromStruct, waiting);
      StagedAsDeclared(parentOf, structs.Keys, redefinitions, token.lexema, sParent, isFromStruct, current.parent.name);
    }

    /**
     * The end of addStruct: the cycle check, then the declaration count, then
     * `current` is registered. `parents` are the parent names once `current`
     * and the children in `waiting` point at their new parents.
     */
    method Register(current: Struct, isFromStruct: bool, token: Token,
                    red: map<string, seq<string>>, pend: map<string, Token>,
                    ghost parents: map<string, string>, ghost waiting: seq<string>)
      returns (r: Result<Struct, SemanticError>)
      requires staticStruct == StaticStructNames
      requires Staged(structs, Repr, parentOf, red, pend, current, parents, waiting)
      requires AllValid(Repr + {current})
      requires forall i :: 0 <= i < |waiting| ==>
                 waiting[i] in structs && waiting[i] != current.name && structs[waiting[i]].parent == current
      modifies this`structs, this`redefinitions, this`checkDefinitionStructs, this`Repr, this`parentOf
      modifies current`countStructDefinition, current`countImplDefinition
      ensures !ReachesObject(parents, current.name) ==> r == Err(CyclicInheritance(token))
      ensures ReachesObject(parents, current.name)
              && (if isFromStruct then old(current.countStructDefinition) else old(current.countImplDefinition)) != 0
              ==> r == Err(RepeatedDefinition(current.metadata, isFromStruct))
      ensures ReachesObject(parents, current.name)
              && (if isFromStruct then old(current.countStructDefinition) else old(current.countImplDefinition)) == 0
              ==> r == Ok(current)
      ensures r.Ok? ==> Valid() && structs == old(structs)[current.name := current]
                        && redefinitions == red && checkDefinitionStructs == pend && parentOf == parents
      ensures r.Ok? ==> (if isFromStruct then current.countStructDefinition else current.countImplDefinition) == 1
      ensures r.Ok? ==> forall i :: 0 <= i < |waiting| ==> old(structs)[waiting[i]].parent == current
      ensures current.parent == old(current.parent)
    {
      var checked := CheckParents(current, token, parents);
      if checked.Err? {
        return Err(checked.error);
      }
      r := Commit(current, isFromStruct, red, pend, parents, waiting);
    }

    /**
     * The declaration count of a struct whose chain reaches Object, then its
     * registration: a repeated declaration changes nothing else.
     */
    method Commit(current: Struct, isFromStruct: bool, red: map<string, seq<string>>, pend: map<string, Token>,
                  ghost parents: map<string, string>, ghost waiting: seq<string>)
      returns (r: Result<Struct, SemanticError>)
      requires staticStruct == StaticStructNames
      requires Staged(structs, Repr, parentOf, red, pend, current, parents, waiting)
      requires AllValid(Repr + {current}) && ReachesObject(parents, current.name)
      modifies this`structs, this`redefinitions, this`checkDefinitionStructs, this`Repr, this`parentOf
      modifies current`countStructDefinition, current`countImplDefinition
      ensures (if isFromStruct then old(current.countStructDefinition) else old(current.countImplDefinition)) != 0
              ==> r == Err(RepeatedDefinition(current.metadata, isFromStruct))
      ensures (if isFromStruct then old(current.countStructDefinition) else old(current.countImplDefinition)) == 0
              ==> r == Ok(current)
      ensures r.Ok? ==> Valid() && structs == old(structs)[current.name := current]
                        && redefinitions == red && checkDefinitionStructs == pend && parentOf == parents
      ensures r.Ok? ==> (if isFromStruct then current.countStructDefinition else current.countImplDefinition) == 1
    {
      StagedRegisters(structs, Repr, parentOf, red, pend, current, parents, waiting);
      var counted := current.UpdateCount(isFromStruct);
      if counted.Err? {
        return Err(counted.error);
      }
      TableKept(structs[current.name := current], Repr + {current}, parents, red, pend);
      Install(current, red, pend, parents);
      r := Ok(current);
    }

    /**
     * addStruct: refuses a predefined parent and a struct that is its own
     * parent before changing anything; an undeclared parent is recorded as an
     * obligation and Object stands in for it; the struct is created or, from a
     * struct declaration, re-parented; children waiting for it are moved under
     * it and its pending entries are dropped; then its chain must reach Object
     * and the declaration must not repeat.
     */
    method AddStruct(token: Token, parent: Option<Token>, isFromStruct: bool) returns (r: Result<Struct, SemanticError>)
      requires Valid()
      modifies this`structs, this`redefinitions, this`checkDefinitionStructs, this`Repr, this`parentOf
      modifies Repr`parent, Repr`childrens, Repr`countStructDefinition, Repr`countImplDefinition
      ensures ParentName(parent) != "Object" && ParentName(parent) in staticStruct ==>
                r == Err(PredefinedParent(token)) && unchanged(this) && unchanged(Repr)
      ensures !(ParentName(parent) != "Object" && ParentName(parent) in staticStruct) && ParentName(parent) == token.lexema ==>
                r == Err(SelfParent(token)) && unchanged(this) && unchanged(Repr)
      ensures r.Ok? ==> Valid() && r.value.name == token.lexema && structs == old(structs)[token.lexema := r.value]
      ensures r.Ok? && token.lexema in old(structs) ==> r.value == old(structs)[token.lexema]
      ensures r.Ok? ==>
                redefinitions == Settled(old(redefinitions), old(structs).Keys, ParentName(parent), token.lexema)
                && checkDefinitionStructs == old(checkDefinitionStructs) - {token.lexema}
      ensures r.Ok? && (token.lexema !in old(structs) || isFromStruct) ==>
                r.value.parent == old(structs)[if ParentName(parent) in old(structs) then ParentName(parent) else "Object"]
      ensures r.Ok? && token.lexema in old(structs) && !isFromStruct ==> r.value.parent == old(structs[token.lexema].parent)
      ensures r.Ok? && token.lexema in old(redefinitions) ==>
                forall i :: 0 <= i < |old(redefinitions)[token.lexema]| ==>
                  old(structs)[old(redefinitions)[token.lexema][i]].parent == r.value
      ensures r.Ok? ==> (if isFromStruct then r.value.countStructDefinition else r.value.countImplDefinition) == 1
      ensures r.Ok? && token.lexema in old(structs) ==>
                (if isFromStruct then old(structs[token.lexema].countStructDefinition)
                 else old(structs[token.lexema].countImplDefinition)) == 0
      ensures !(ParentName(parent) != "Object" && ParentName(parent) in staticStruct) && ParentName(parent) != token.lexema
              && token.lexema == "Object" ==>
                r == Err(NoParent(token))
      ensures !(ParentName(parent) != "Object" && ParentName(parent) in staticStruct) && ParentName(parent) != token.lexema
              && token.lexema != "Object" ==>
                var declared := DeclaredParents(old(parentOf), old(structs).Keys, old(redefinitions),
                                                token.lexema, ParentName(parent), isFromStruct);
                var repeated := token.lexema in old(structs)
                                && (if isFromStruct then old(structs[token.lexema].countStructDefinition)
                                    else old(structs[token.lexema].countImplDefinition)) != 0;
                && (!ReachesObject(declared, token.lexema) ==> r == Err(CyclicInheritance(token)))
                && (ReachesObject(declared, token.lexema) && repeated ==>
                      r == Err(RepeatedDefinition(old(structs)[token.lexema].metadata, isFromStruct)))
                && (ReachesObject(declared, token.lexema) && !repeated ==> r.Ok? && parentOf == declared)
    {
      var sStruct := token.lexema;
      var sParent := ParentName(parent);
      if sParent != "Object" && sParent in staticStruct {
        return Err(PredefinedParent(token));
      }
      if sParent == sStruct {
        return Err(SelfParent(token));
      }
      var parentStruct := if sParent in structs then structs[sParent] else structs["Object"];
      var waiting := if sStruct in redefinitions then redefinitions[sStruct] else [];
      var red := Settled(redefinitions, structs.Keys, sParent, sStruct);
      var pend := checkDefinitionStructs - {sStruct};
      var prepared, parents := Prepare(token, parentStruct, isFromStruct, sParent, waiting);
      if prepared.Err? {
        return Err(prepared.error);
      }
      var current := prepared.value;
      r := Register(current, isFromStruct, token, red, pend, parents, waiting);
    }
  }
  /**
   * A new symbol table: the constructor with init's predefined structs,
   * Object and its nine children, registered under their own names.
   */
  method NewSymbolTable(kindText: Kind -> string) returns (t: SymbolTable)
    ensures fresh(t) && t.Valid() && t.kindText == kindText
    ensures t.structs.Keys == BuiltinNames && t.parentOf == UnderObject(BuiltinNames - {"Object"})
    ensures t.redefinitions == map[] && t.checkDefinitionStructs == map[] && t.start.None?
    ensures t.conditionalCounter == 0 && t.loopCounter == 0 && t.literalStrCounter == 0
  {
    var o := BuiltinStructs(kindText);
    t := new SymbolTable(kindText, o);
  }

}
