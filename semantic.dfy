// The routing layer of src/lib/semanticHelper/SemanticManager.java: it keeps
// the struct and method being declared and forwards declarations to the
// symbol table.
module Semantic {
  import opened Wrappers
  import opened Tokens
  import opened Params
  import opened Members
  import opened Structs
  import opened Builtins
  import opened PendingTypes
  import opened Hierarchy
  import opened SymbolTables

  /** One struct of a valid table adds an attribute, and the table stays valid. */
  method AddAttribute(t: SymbolTable, s: Struct, token: Token, typeToken: Token, isPrivate: bool)
    returns (r: Result<(), SemanticError>)
    requires t.Valid() && s in t.Repr
    modifies s`variables, s`currentVarIndex
    ensures t.Valid()
    ensures token.lexema !in old(s.variables) ==>
              r.Ok? && s.variables == old(s.variables)[token.lexema := Variable(token, typeToken, isPrivate, |old(s.variables)|, false)]
    ensures token.lexema in old(s.variables) ==> r == Err(DuplicateAttribute(token)) && s.variables == old(s.variables)
  {
    assert s.Valid();
    r := s.AddVar(token, typeToken, isPrivate);
    forall x | x in t.Repr
      ensures x.Valid()
    {
      if x != s {
        assert old(x.Valid());
      }
    }
  }

  class SemanticManager {
    /** The struct whose declaration was registered last; null before the first one. */
    var currentStruct: Struct?
    /** The method whose declaration was registered last. */
    var currentMethod: Option<MethodInfo>
    /** The start method, once declared. */
    var start: Option<MethodInfo>
    const symbolTable: SymbolTable

    /** The symbol table is valid and the current struct is one of its structs. */
    ghost predicate Valid()
      reads this, symbolTable, symbolTable.Repr
    {
      symbolTable.Valid() && (currentStruct != null ==> currentStruct in symbolTable.Repr)
    }

    /** A manager starts with a new symbol table and no current struct, method or start. */
    constructor (kindText: Kind -> string)
      ensures Valid() && fresh(symbolTable)
      ensures currentStruct == null && currentMethod.None? && start.None?
      ensures symbolTable.structs.Keys == BuiltinNames && symbolTable.kindText == kindText
      ensures symbolTable.redefinitions == map[] && symbolTable.checkDefinitionStructs == map[]
    {
      var t := NewSymbolTable(kindText);
      symbolTable := t;
      currentStruct := null;
      currentMethod := None;
      start := None;
    }

    /**
     * addStruct: the symbol table registers the declaration, and the struct
     * it returns becomes the current struct; a rejected declaration leaves
     * the current struct as it was.
     */
    method AddStruct(token: Token, parent: Option<Token>, isFromStruct: bool) returns (r: Result<Struct, SemanticError>)
      requires Valid()
      modifies this`currentStruct
      modifies symbolTable`structs, symbolTable`redefinitions, symbolTable`checkDefinitionStructs,
               symbolTable`Repr, symbolTable`parentOf
      modifies symbolTable.Repr`parent, symbolTable.Repr`childrens,
               symbolTable.Repr`countStructDefinition, symbolTable.Repr`countImplDefinition
      ensures r.Ok? ==> Valid() && currentStruct == r.value && r.value.name == token.lexema
                        && symbolTable.structs == old(symbolTable.structs)[token.lexema := r.value]
      ensures r.Err? ==> currentStruct == old(currentStruct)
      ensures ParentName(parent) != "Object" && ParentName(parent) in symbolTable.staticStruct ==>
                r == Err(PredefinedParent(token)) && unchanged(symbolTable)
      ensures !(ParentName(parent) != "Object" && ParentName(parent) in symbolTable.staticStruct)
              && ParentName(parent) == token.lexema ==>
                r == Err(SelfParent(token)) && unchanged(symbolTable)
      ensures !(ParentName(parent) != "Object" && ParentName(parent) in symbolTable.staticStruct)
              && ParentName(parent) != token.lexema && token.lexema == "Object" ==>
                r == Err(NoParent(token))
      ensures !(ParentName(parent) != "Object" && ParentName(parent) in symbolTable.staticStruct)
              && ParentName(parent) != token.lexema && token.lexema != "Object" ==>
                var declared := DeclaredParents(old(symbolTable.parentOf), old(symbolTable.structs).Keys,
                                                old(symbolTable.redefinitions), token.lexema, ParentName(parent), isFromStruct);
                var repeated := token.lexema in old(symbolTable.structs)
                                && (if isFromStruct then old(symbolTable.structs[token.lexema].countStructDefinition)
                                    else old(symbolTable.structs[token.lexema].countImplDefinition)) != 0;
                && (!ReachesObject(declared, token.lexema) ==> r == Err(CyclicInheritance(token)))
                && (ReachesObject(declared, token.lexema) && repeated ==>
                      r == Err(RepeatedDefinition(old(symbolTable.structs)[token.lexema].metadata, isFromStruct)))
                && (ReachesObject(declared, token.lexema) && !repeated ==> r.Ok? && symbolTable.parentOf == declared)
    {
      r := symbolTable.AddStruct(token, parent, isFromStruct);
      if r.Ok? {
        currentStruct := r.value;
      }
    }

    /**
     * addVar: the type is first checked by the symbol table (and recorded as
     * pending when it names no array and no registered struct); an attribute
     * is then added to the current struct.
     */
    method AddVar(token: Token, typeToken: Token, isPrivate: bool, isAttribute: bool) returns (r: Result<(), SemanticError>)
      requires Valid() && (isAttribute ==> currentStruct != null)
      modifies symbolTable`checkDefinitionStructs, symbolTable.Repr`variables, symbolTable.Repr`currentVarIndex
      ensures Valid()
      ensures symbolTable.checkDefinitionStructs ==
                NoteType(old(symbolTable.checkDefinitionStructs), typeToken, symbolTable.structs.Keys)
      ensures isAttribute && token.lexema !in old(currentStruct.variables) ==>
                r.Ok? && currentStruct.variables ==
                         old(currentStruct.variables)[token.lexema := Variable(token, typeToken, isPrivate, |old(currentStruct.variables)|, false)]
      ensures isAttribute && token.lexema in old(currentStruct.variables) ==>
                r == Err(DuplicateAttribute(token)) && currentStruct.variables == old(currentStruct.variables)
      ensures !isAttribute ==> r.Ok? && forall s :: s in symbolTable.Repr ==> unchanged(s)
    {
      symbolTable.AddVar(token, typeToken, isPrivate);
      if isAttribute {
        r := AddAttribute(symbolTable, currentStruct, token, typeToken, isPrivate);
      } else {
        r := Ok(());
      }
    }

    /**
     * addMethod: a start method may be declared once, with slot 0, and
     * becomes the current method; any other method is added by the symbol
     * table to the current struct and, when accepted, becomes the current
     * method.
     */
    method AddMethod(token: Token, params: seq<Param>, isStatic: bool, returnType: Token)
      returns (r: Result<MethodInfo, SemanticError>)
      requires Valid() && (token.name != IdStart ==> currentStruct != null)
      modifies this`start, this`currentMethod
      modifies symbolTable`start, symbolTable`checkDefinitionStructs
      modifies symbolTable.Repr`methods, symbolTable.Repr`currentMethodIndex, symbolTable.Repr`structConstructor
      ensures Valid()
      ensures token.name == IdStart && old(start).None? ==>
                r == Ok(MethodInfo(token, params, returnType, isStatic, 0)) && start == Some(r.value)
                && currentMethod == start && unchanged(symbolTable)
      ensures token.name == IdStart && old(start).Some? ==>
                r == Err(DuplicateStart(token)) && start == old(start) && currentMethod == old(currentMethod)
                && unchanged(symbolTable)
      ensures token.name != IdStart ==>
                symbolTable.checkDefinitionStructs ==
                  NoteParamTypes(NoteReturn(old(symbolTable.checkDefinitionStructs), returnType, symbolTable.structs.Keys,
                                            symbolTable.kindText),
                                 params, symbolTable.structs.Keys)
      ensures token.name != IdStart ==>
                start == old(start) && currentMethod == (if r.Ok? then Some(r.value) else old(currentMethod))
                && StructMethodAdded(token, params, isStatic, returnType, r,
                                     old(currentStruct.methods), old(currentStruct.structConstructor),
                                     currentStruct.methods, currentStruct.structConstructor)
    {
      if token.name == IdStart {
        if start.None? {
          start := Some(MethodInfo(token, params, returnType, isStatic, 0));
          currentMethod := start;
          r := Ok(start.value);
        } else {
          r := Err(DuplicateStart(token));
        }
      } else {
        r := symbolTable.AddMethod(token, params, isStatic, returnType, currentStruct, true);
        if r.Ok? {
          currentMethod := Some(r.value);
        }
      }
    }

    /**
     * consolidate: the symbol table is consolidated (the AST's own
     * consolidation does nothing); it fails while a parent or a type is
     * still awaited.
     */
    method Consolidate() returns (r: Result<(), SemanticError>)
      requires Valid()
      modifies symbolTable.Repr`methods, symbolTable.Repr`variables, symbolTable.Repr`currentMethodIndex,
               symbolTable.Repr`currentVarIndex, symbolTable.Repr`consolidated
      ensures symbolTable.redefinitions != map[] ==>
                r.Err? && (exists k :: k in symbolTable.redefinitions &&
                             r.error == UndefinedStruct(symbolTable.structs[symbolTable.redefinitions[k][0]].metadata, k))
      ensures symbolTable.redefinitions == map[] && symbolTable.checkDefinitionStructs != map[] ==>
                r.Err? && (exists k :: k in symbolTable.checkDefinitionStructs &&
                             r.error == UndefinedStruct(symbolTable.checkDefinitionStructs[k], k))
      ensures r.Ok? ==> Valid() && symbolTable.redefinitions == map[] && symbolTable.checkDefinitionStructs == map[]
      ensures r.Ok? ==> Done(symbolTable.Repr, Snapshot(symbolTable.Repr), symbolTable.staticStruct,
                             symbolTable.structs["Object"], |symbolTable.structs|)
      ensures Walked(symbolTable.Repr, old(Snapshot(symbolTable.Repr)), Snapshot(symbolTable.Repr), r.Ok?, true)
      ensures r.Ok? ==>
                var o := symbolTable.structs["Object"];
                forall n :: n in o.childrens && o.childrens[n].name !in symbolTable.staticStruct && !old(o.childrens[n].consolidated) ==>
                  MethodsMerged(old(o.childrens[n].methods), old(o.methods), o.childrens[n].methods)
                  && VariablesMerged(old(o.childrens[n].variables), old(o.variables), o.childrens[n].variables)
    {
      r := symbolTable.Consolidate();
    }
  }
}
