// The struct of src/lib/semanticHelper/symbolTableHelper/Struct.java: its
// methods and attributes with their slots, its parent and children, and the
// inheritance merge performed at consolidation.
module Structs {
  import opened Wrappers
  import opened Tokens
  import opened Params
  import opened Members

  /** Every struct of U is well formed. */
  ghost predicate AllValid(U: set<Struct>)
    reads U`methods, U`currentMethodIndex, U`variables, U`currentVarIndex
  {
    forall s {:trigger s.Valid()} :: s in U ==> s.Valid()
  }

  /** The children of the structs of U are in U, each filed under its own name and pointing back at its parent. */
  ghost predicate ChildrenWithin(U: set<Struct>)
    reads U`childrens, U`parent
  {
    forall s, n :: s in U && n in s.childrens ==>
      s.childrens[n] in U && s.childrens[n].name == n && s.childrens[n].parent == s
  }

  /** The checks consolidate makes on a struct before walking its children. */
  ghost predicate Checked(s: Struct)
    reads s`countStructDefinition, s`countImplDefinition, s`structConstructor
  {
    s.name == "Object"
    || (s.countStructDefinition != 0 && s.countImplDefinition != 0 && s.structConstructor.Some?)
  }

  /** What a consolidation walk reads and changes of one struct. */
  datatype Entry = Entry(name: string, parent: Struct?,
                         countStructDefinition: int, countImplDefinition: int, hasConstructor: bool,
                         consolidated: bool, methods: map<string, MethodInfo>, variables: map<string, Variable>,
                         childrens: map<string, Struct>)
  {
    /** The checks consolidate makes before walking the children, as in `Checked`. */
    predicate Checked() {
      name == "Object" || (countStructDefinition != 0 && countImplDefinition != 0 && hasConstructor)
    }

    /** Consolidated, or the root: a walk no longer changes its tables. */
    predicate Fixed() {
      consolidated || parent == null
    }
  }

  /** The entry of s in the current heap. */
  ghost function EntryOf(s: Struct): Entry
    reads s`parent, s`consolidated, s`methods, s`variables, s`childrens
    reads s`countStructDefinition, s`countImplDefinition, s`structConstructor
  {
    Entry(s.name, s.parent, s.countStructDefinition, s.countImplDefinition,
          s.structConstructor.Some?, s.consolidated, s.methods, s.variables, s.childrens)
  }

  /** The entries of the structs of U in the current heap. */
  ghost function Snapshot(U: set<Struct>): (m: map<Struct, Entry>)
    reads U`parent, U`consolidated, U`methods, U`variables, U`childrens
    reads U`countStructDefinition, U`countImplDefinition, U`structConstructor
    ensures m.Keys == U
  {
    map s | s in U :: EntryOf(s)
  }

  /** Two entries with the same method and attribute tables. */
  predicate SameTables(e: Entry, f: Entry) {
    e.methods == f.methods && e.variables == f.variables
  }

  /**
   * s has inherited in `after`: its parent is in U, passed the checks and is
   * fixed, and the tables of s are its tables in `own` merged with the parent's.
   */
  ghost predicate Inherited(U: set<Struct>, after: map<Struct, Entry>, s: Struct, own: Entry)
    requires after.Keys == U && s in U
  {
    var p := after[s].parent;
    p != null && p in U && after[p].Checked() && after[p].Fixed()
    && MethodsMerged(own.methods, after[p].methods, after[s].methods)
    && VariablesMerged(own.variables, after[p].variables, after[s].variables)
  }

  /**
   * How a consolidation walk takes the structs of U from `before` to `after`:
   * parents and checks stay, flags only go up and a fixed struct keeps its
   * tables. When the walk succeeded (`ok`), a struct left unconsolidated keeps
   * its tables too, and, when the walk began at a fixed struct (`fromFixed`),
   * every struct it consolidated has inherited.
   */
  ghost predicate Walked(U: set<Struct>, before: map<Struct, Entry>, after: map<Struct, Entry>,
                         ok: bool, fromFixed: bool)
    requires before.Keys == U && after.Keys == U
  {
    forall s {:trigger before[s], after[s]} :: s in U ==>
      && after[s].name == before[s].name && after[s].parent == before[s].parent
      && after[s].countStructDefinition == before[s].countStructDefinition
      && after[s].countImplDefinition == before[s].countImplDefinition
      && after[s].hasConstructor == before[s].hasConstructor && after[s].childrens == before[s].childrens
      && (before[s].consolidated ==> after[s].consolidated)
      && (before[s].Fixed() ==> SameTables(before[s], after[s]))
      && (ok && !after[s].consolidated ==> SameTables(before[s], after[s]))
      && (ok && fromFixed && after[s].consolidated && !before[s].consolidated ==> Inherited(U, after, s, before[s]))
  }

  /**
   * The merge of one child c with its parent p is a walk: c alone changes, it
   * is consolidated when the merge succeeds and, when it was not consolidated
   * before, then holds its tables merged with those of p.
   */
  lemma InheritWalked(U: set<Struct>, before: map<Struct, Entry>, after: map<Struct, Entry>,
                      c: Struct, p: Struct, ok: bool, fromFixed: bool)
    requires before.Keys == U && after.Keys == U && c in U && p in U
    requires forall s :: s in U && s != c ==> after[s] == before[s]
    requires before[c].parent == p && after[c] == before[c].(consolidated := after[c].consolidated,
                                                                methods := after[c].methods, variables := after[c].variables)
    requires after[c].consolidated == (before[c].consolidated || ok)
    requires before[c].consolidated ==> ok && SameTables(before[c], after[c])
    requires ok && !before[c].consolidated ==>
               MethodsMerged(before[c].methods, before[p].methods, after[c].methods)
               && VariablesMerged(before[c].variables, before[p].variables, after[c].variables)
    requires before[p].Checked() && (fromFixed ==> before[p].Fixed())
    ensures Walked(U, before, after, ok, fromFixed)
  {
    if ok && fromFixed && !before[c].consolidated {
      assert c != p;
      assert Inherited(U, after, c, before[c]);
    }
  }

  /**
   * Two walks in a row make one: a successful walk followed by a second one
   * that begins fixed whenever the first did.
   */
  lemma {:induction false} WalkedTrans(U: set<Struct>, a: map<Struct, Entry>, b: map<Struct, Entry>,
                                       c: map<Struct, Entry>, ok: bool, fromFixed: bool, nextFromFixed: bool)
    requires a.Keys == U && b.Keys == U && c.Keys == U
    requires Walked(U, a, b, true, fromFixed) && Walked(U, b, c, ok, nextFromFixed)
    requires fromFixed ==> nextFromFixed
    ensures Walked(U, a, c, ok, fromFixed)
  {
    forall s | s in U
      ensures ok && fromFixed && c[s].consolidated && !a[s].consolidated ==> Inherited(U, c, s, a[s])
    {
      if ok && fromFixed && c[s].consolidated && !a[s].consolidated {
        if b[s].consolidated {
          var p := b[s].parent;
          assert Inherited(U, b, s, a[s]);
          assert SameTables(b[p], c[p]) && SameTables(b[s], c[s]);
        } else {
          assert Inherited(U, c, s, b[s]);
        }
      }
    }
  }

  /**
   * The walk from s has done its work `depth` levels down, as recorded in m:
   * s passed the checks of consolidate, and its children below, as ChildrenDone says.
   */
  ghost predicate Done(U: set<Struct>, m: map<Struct, Entry>, staticStructs: set<string>, s: Struct, depth: nat)
    requires m.Keys == U
    decreases depth, 1
  {
    s in U && m[s].Checked() && ChildrenDone(U, m, staticStructs, s, {}, depth)
  }

  /**
   * Every child of s, except those filed under a name still `pending`, whose
   * name is not static is consolidated and, while depth remains, has done its
   * own walk one level less deep.
   */
  ghost predicate ChildrenDone(U: set<Struct>, m: map<Struct, Entry>, staticStructs: set<string>, s: Struct,
                               pending: set<string>, depth: nat)
    requires m.Keys == U
    decreases depth, 0
  {
    s in U
    && forall n :: n in m[s].childrens && n !in pending && m[s].childrens[n] in U && m[s].childrens[n].name !in staticStructs ==>
         m[m[s].childrens[n]].consolidated && (depth > 0 ==> Done(U, m, staticStructs, m[s].childrens[n], depth - 1))
  }

  /** The children a walk has finished with are consolidated in the snapshot it ends on. */
  lemma ChildrenDoneConsolidated(U: set<Struct>, m: map<Struct, Entry>, staticStructs: set<string>, s: Struct,
                                 pending: set<string>, depth: nat)
    requires m.Keys == U && ChildrenDone(U, m, staticStructs, s, pending, depth)
    requires forall n :: n in m[s].childrens ==> m[s].childrens[n] in U
    ensures forall n :: n in m[s].childrens && n !in pending && m[s].childrens[n].name !in staticStructs ==>
              m[m[s].childrens[n]].consolidated
  {
  }

  /**
   * One more child done: once the child filed under n is static, or is
   * consolidated and has done its own walk, n is no longer pending.
   */
  lemma ChildrenDoneStep(U: set<Struct>, m: map<Struct, Entry>, staticStructs: set<string>, s: Struct,
                         pending: set<string>, n: string, depth: nat)
    requires m.Keys == U && ChildrenDone(U, m, staticStructs, s, pending, depth) && n in m[s].childrens
    requires m[s].childrens[n] in U && m[s].childrens[n].name !in staticStructs ==>
               m[m[s].childrens[n]].consolidated && (depth > 0 ==> Done(U, m, staticStructs, m[s].childrens[n], depth - 1))
    ensures ChildrenDone(U, m, staticStructs, s, pending - {n}, depth)
  {
  }

  /** What a walk has done stays done through any later walk: checks stay and flags only go up. */
  lemma {:induction false} ChildrenDoneKept(U: set<Struct>, m: map<Struct, Entry>, m': map<Struct, Entry>,
                                            staticStructs: set<string>, s: Struct, pending: set<string>, depth: nat,
                                            ok: bool, fromFixed: bool)
    requires m.Keys == U && m'.Keys == U && Walked(U, m, m', ok, fromFixed)
    requires ChildrenDone(U, m, staticStructs, s, pending, depth)
    ensures ChildrenDone(U, m', staticStructs, s, pending, depth)
    decreases depth
  {
    assert s in U && m'[s].childrens == m[s].childrens;
    forall n | n in m'[s].childrens && n !in pending && m'[s].childrens[n] in U && m'[s].childrens[n].name !in staticStructs
      ensures m'[m'[s].childrens[n]].consolidated && (depth > 0 ==> Done(U, m', staticStructs, m'[s].childrens[n], depth - 1))
    {
      var c := m[s].childrens[n];
      assert m[c].consolidated;
      if depth > 0 {
        assert Done(U, m, staticStructs, c, depth - 1);
        ChildrenDoneKept(U, m, m', staticStructs, c, {}, depth - 1, ok, fromFixed);
        assert m'[c].Checked() == m[c].Checked();
      }
    }
  }

  /**
   * The entry addMethod builds: it reuses the slot of a method of the same name
   * and otherwise takes the next free one.
   */
  function Declared(token: Token, params: seq<Param>, isStatic: bool, returnType: Token,
                    methods: map<string, MethodInfo>): (m: MethodInfo)
    ensures m.token == token && m.params == params && m.isStatic == isStatic && m.returnType == returnType
    ensures token.lexema !in methods ==> m.position == |methods|
  {
    MethodInfo(token, params, returnType, isStatic,
               if token.lexema in methods then methods[token.lexema].position else |methods|)
  }

  /**
   * The outcome of addMethod on a struct's method table and constructor: a
   * constructor (a token of kind `.`) may be declared once and leaves the
   * table alone; any other method must be new and is entered under its name.
   */
  predicate StructMethodAdded(token: Token, params: seq<Param>, isStatic: bool, returnType: Token,
                              r: Result<MethodInfo, SemanticError>,
                              methods: map<string, MethodInfo>, ctor: Option<MethodInfo>,
                              newMethods: map<string, MethodInfo>, newCtor: Option<MethodInfo>)
  {
    if token.name == SDot then
      newMethods == methods
      && if ctor.None? then
           r == Ok(Declared(token, params, isStatic, returnType, methods)) && newCtor == Some(r.value)
         else
           r == Err(DuplicateConstructor(token)) && newCtor == ctor
    else
      newCtor == ctor
      && if token.lexema in methods then
           r == Err(DuplicateMethod(token)) && newMethods == methods
         else
           r == Ok(Declared(token, params, isStatic, returnType, methods))
           && newMethods == methods[token.lexema := r.value]
  }

  /**
   * Own methods are numbered in declaration order: an added method takes the
   * slot equal to the number of methods before it, and slots stay exact.
   */
  lemma AddedMethodSlots(token: Token, params: seq<Param>, isStatic: bool, returnType: Token,
                         r: Result<MethodInfo, SemanticError>,
                         methods: map<string, MethodInfo>, ctor: Option<MethodInfo>,
                         newMethods: map<string, MethodInfo>, newCtor: Option<MethodInfo>)
    requires StructMethodAdded(token, params, isStatic, returnType, r, methods, ctor, newMethods, newCtor)
    requires MethodSlots(methods)
    ensures MethodSlots(newMethods)
    ensures r.Ok? && token.name != SDot ==>
              r.value.position == |methods| && |newMethods| == |methods| + 1 && newMethods[token.lexema] == r.value
  {
    if r.Ok? && token.name != SDot {
      AppendKeepsMethodSlots(methods, token.lexema, r.value);
    }
  }

  class Struct {
    const name: string
    const metadata: Token
    var parent: Struct?
    var structConstructor: Option<MethodInfo>
    var currentMethodIndex: int
    var currentVarIndex: int
    var countStructDefinition: int
    var countImplDefinition: int
    var variables: map<string, Variable>
    var methods: map<string, MethodInfo>
    var childrens: map<string, Struct>
    var consolidated: bool

    /** Slots are exact and the next free slot is the table size. */
    ghost predicate Valid()
      reads this`methods, this`currentMethodIndex, this`variables, this`currentVarIndex
    {
      MethodSlots(methods) && currentMethodIndex == |methods|
      && VarSlots(variables) && currentVarIndex == |variables|
    }

    /** A new struct is empty and, unless it is Object, registers itself as a child of its parent. */
    constructor (metadata: Token, parent: Struct?)
      requires metadata.lexema != "Object" ==> parent != null
      modifies (if parent == null then {} else {parent})`childrens
      ensures Valid()
      ensures name == metadata.lexema && this.metadata == metadata && this.parent == parent
      ensures structConstructor.None? && methods == map[] && variables == map[] && childrens == map[]
      ensures countStructDefinition == 0 && countImplDefinition == 0 && !consolidated
      ensures metadata.lexema != "Object" ==> parent.childrens == old(parent.childrens)[metadata.lexema := this]
      ensures metadata.lexema == "Object" && parent != null ==> parent.childrens == old(parent.childrens)
    {
      name := metadata.lexema;
      this.metadata := metadata;
      this.parent := parent;
      structConstructor := None;
      currentMethodIndex := 0;
      currentVarIndex := 0;
      countStructDefinition := 0;
      countImplDefinition := 0;
      variables := map[];
      methods := map[];
      childrens := map[];
      consolidated := false;
      new;
      if metadata.lexema != "Object" {
        parent.AddChildren(this, true);
      }
    }

    /** getParent: the parent's name. */
    function GetParent(): (r: string)
      requires parent != null
      reads this, parent
      ensures r == parent.name
    {
      parent.name
    }

    /** setParent: leaves the old parent's children and joins the new parent's. */
    method SetParent(p: Struct)
      requires parent != null
      modifies this`parent, parent`childrens, p`childrens
      ensures parent == p
      ensures p.childrens == old(p.childrens)[name := this]
      ensures old(parent) != p ==> old(parent).childrens == old(parent.childrens) - {name}
    {
      parent.DeleteChildren(name);
      p.AddChildren(this, true);
      parent := p;
    }

    /**
     * getAttributeType: a public attribute is visible to everyone; a private one
     * only to the impl of the struct that declared it, never through inheritance.
     */
    function GetAttributeType(n: string, implStruct: string): (r: Option<string>)
      reads this
      ensures r.Some? <==>
                n in variables
                && (!variables[n].isPrivate || (!variables[n].isInherited && name == implStruct))
      ensures r.Some? ==> r.value == variables[n].typeToken.lexema
    {
      if n in variables then
        var v := variables[n];
        if !v.isPrivate then Some(v.typeToken.lexema)
        else if !v.isInherited && name == implStruct then Some(v.typeToken.lexema)
        else None
      else None
    }

    /** getReturnMethodType: the return type, except that a static-style access sees only static methods. */
    function GetReturnMethodType(n: string, isIDStruct: bool): (r: Option<string>)
      reads this
      ensures r.Some? <==> n in methods && (!isIDStruct || methods[n].isStatic)
      ensures r.Some? ==> r.value == methods[n].returnType.lexema
    {
      if n in methods then
        var m := methods[n];
        if isIDStruct && !m.isStatic then None else Some(m.returnType.lexema)
      else None
    }

    /** getMethod: the name "Constructor" yields the constructor, any other name the method of that name. */
    function GetMethod(n: string): (r: Option<MethodInfo>)
      reads this
      ensures n == "Constructor" ==> r == structConstructor
      ensures n != "Constructor" ==> (r.Some? <==> n in methods) && (r.Some? ==> r.value == methods[n])
    {
      if n == "Constructor" then structConstructor
      else if n in methods then Some(methods[n]) else None
    }

    /**
     * addMethod: a constructor (a token of kind `.`) is kept apart and may be
     * declared once; any other method takes the next free slot and may not repeat.
     */
    method AddMethod(token: Token, params: seq<Param>, isStatic: bool, returnType: Token)
      returns (r: Result<MethodInfo, SemanticError>)
      requires Valid()
      modifies this`methods, this`currentMethodIndex, this`structConstructor
      ensures Valid()
      ensures StructMethodAdded(token, params, isStatic, returnType, r, old(methods), old(structConstructor),
                                methods, structConstructor)
    {
      var m := Declared(token, params, isStatic, returnType, methods);
      if token.name == SDot {
        r := AddConstructor(m);
      } else {
        r := AddOwnMethod(m);
      }
    }

    /** The constructor branch of addMethod: only one constructor may be declared. */
    method AddConstructor(m: MethodInfo) returns (r: Result<MethodInfo, SemanticError>)
      requires Valid()
      modifies this`structConstructor
      ensures Valid()
      ensures old(structConstructor).None? ==> r == Ok(m) && structConstructor == Some(m)
      ensures old(structConstructor).Some? ==> r == Err(DuplicateConstructor(m.token)) && structConstructor == old(structConstructor)
    {
      if structConstructor.None? {
        structConstructor := Some(m);
        r := Ok(m);
      } else {
        r := Err(DuplicateConstructor(m.token));
      }
    }

    /** The method branch of addMethod: a new name takes the next free slot; a repeated one is an error. */
    method AddOwnMethod(m: MethodInfo) returns (r: Result<MethodInfo, SemanticError>)
      requires Valid() && (m.token.lexema !in methods ==> m.position == |methods|)
      modifies this`methods, this`currentMethodIndex
      ensures Valid()
      ensures m.token.lexema !in old(methods) ==> r == Ok(m) && methods == old(methods)[m.token.lexema := m]
      ensures m.token.lexema in old(methods) ==> r == Err(DuplicateMethod(m.token)) && methods == old(methods)
    {
      var name := m.token.lexema;
      if name !in methods {
        AppendKeepsMethodSlots(methods, name, m);
        SetMethods(methods[name := m], currentMethodIndex + 1);
        r := Ok(m);
      } else {
        r := Err(DuplicateMethod(m.token));
      }
    }

    /** addVar: a new attribute takes the next free slot; a repeated name is an error. */
    method AddVar(token: Token, typeToken: Token, isPrivate: bool) returns (r: Result<(), SemanticError>)
      requires Valid()
      modifies this`variables, this`currentVarIndex
      ensures Valid()
      ensures token.lexema !in old(variables) ==>
                r.Ok? && variables == old(variables)[token.lexema := Variable(token, typeToken, isPrivate, |old(variables)|, false)]
      ensures token.lexema in old(variables) ==> r == Err(DuplicateAttribute(token)) && variables == old(variables)
    {
      if token.lexema !in variables {
        var v := Variable(token, typeToken, isPrivate, currentVarIndex, false);
        AppendKeepsVarSlots(variables, token.lexema, v);
        SetVariables(variables[token.lexema := v], currentVarIndex + 1);
        r := Ok(());
      } else {
        r := Err(DuplicateAttribute(token));
      }
    }

    /** addChildren: an existing child is replaced only from a struct declaration, never from an impl. */
    method AddChildren(c: Struct, isFromStruct: bool)
      modifies this`childrens
      ensures c.name !in old(childrens) || isFromStruct ==> childrens == old(childrens)[c.name := c]
      ensures c.name in old(childrens) && !isFromStruct ==> childrens == old(childrens)
    {
      if c.name !in childrens {
        childrens := childrens[c.name := c];
      } else if isFromStruct {
        childrens := childrens[c.name := c];
      }
    }

    /** deleteChildren: the child of that name is no longer a child. */
    method DeleteChildren(n: string)
      modifies this`childrens
      ensures childrens == old(childrens) - {n}
    {
      childrens := childrens - {n};
    }

    /** updateCount: a struct may be declared once and implemented once. */
    method UpdateCount(isFromStruct: bool) returns (r: Result<(), SemanticError>)
      modifies this`countStructDefinition, this`countImplDefinition
      ensures isFromStruct ==>
                (old(countStructDefinition) == 0 <==> r.Ok?)
                && (r.Ok? ==> countStructDefinition == 1) && countImplDefinition == old(countImplDefinition)
      ensures !isFromStruct ==>
                (old(countImplDefinition) == 0 <==> r.Ok?)
                && (r.Ok? ==> countImplDefinition == 1) && countStructDefinition == old(countStructDefinition)
      ensures r.Err? ==> r.error == RepeatedDefinition(metadata, isFromStruct)
    {
      var count := if isFromStruct then countStructDefinition else countImplDefinition;
      if count == 0 {
        if isFromStruct {
          countStructDefinition := 1;
        } else {
          countImplDefinition := 1;
        }
        r := Ok(());
      } else {
        r := Err(RepeatedDefinition(metadata, isFromStruct));
      }
    }

    /** Installs a method table with exact slots together with its next free slot. */
    method SetMethods(m: map<string, MethodInfo>, next: int)
      requires Valid() && MethodSlots(m) && next == |m|
      modifies this`methods, this`currentMethodIndex
      ensures Valid() && methods == m && currentMethodIndex == next
    {
      methods := m;
      currentMethodIndex := next;
    }

    /** Installs an attribute table with exact slots together with its next free slot. */
    method SetVariables(v: map<string, Variable>, next: int)
      requires Valid() && VarSlots(v) && next == |v|
      modifies this`variables, this`currentVarIndex
      ensures Valid() && variables == v && currentVarIndex == next
    {
      variables := v;
      currentVarIndex := next;
    }

    /**
     * addMethodsInherited: merges the parent's methods into this struct's
     * table, failing on a static or differently typed redefinition; the slots
     * stay exact.
     */
    method AddMethodsInherited(parentMethods: map<string, MethodInfo>) returns (r: Result<(), SemanticError>)
      requires Valid() && MethodSlots(parentMethods)
      modifies this`methods, this`currentMethodIndex
      ensures r.Ok? <==> forall k :: k in parentMethods ==> !MethodConflict(old(methods), parentMethods, k)
      ensures r.Err? ==> exists k :: MethodConflict(old(methods), parentMethods, k)
                                     && r.error == ConflictError(old(methods), parentMethods, k)
      ensures r.Ok? ==> Valid() && MethodsMerged(old(methods), parentMethods, methods)
    {
      var merged, newMethodIndex := MergeMethods(methods, parentMethods);
      if merged.Err? {
        return Err(merged.error);
      }
      MethodsMergedSlots(methods, parentMethods, merged.value);
      SetMethods(merged.value, if parentMethods != map[] then newMethodIndex else currentMethodIndex);
      r := Ok(());
    }

    /**
     * addVariablesInherited: merges the parent's attributes into this struct's
     * table, failing when an attribute is declared again; the slots stay exact.
     */
    method AddVariablesInherited(parentVariables: map<string, Variable>) returns (r: Result<(), SemanticError>)
      requires Valid() && VarSlots(parentVariables)
      modifies this`variables, this`currentVarIndex
      ensures r.Ok? <==> forall k :: k in old(variables) ==> k !in parentVariables
      ensures r.Err? ==> exists k :: k in old(variables) && k in parentVariables
                                     && r.error == InheritedAttribute(old(variables)[k].token)
      ensures r.Ok? ==> Valid() && VariablesMerged(old(variables), parentVariables, variables)
    {
      var merged := MergeVariables(variables, parentVariables);
      if merged.Err? {
        return Err(merged.error);
      }
      VariablesMergedSlots(variables, parentVariables, merged.value);
      SetVariables(merged.value, |merged.value|);
      r := Ok(());
    }

    /**
     * One step of the consolidation walk for a child: unless it was merged
     * before, it takes its parent's methods and then its parent's attributes;
     * either way it is marked consolidated.
     */
    method Inherit(parentMethods: map<string, MethodInfo>, parentVariables: map<string, Variable>)
      returns (r: Result<(), SemanticError>)
      requires Valid() && MethodSlots(parentMethods) && VarSlots(parentVariables)
      modifies this`methods, this`variables, this`currentMethodIndex, this`currentVarIndex, this`consolidated
      ensures r.Ok? ==> Valid()
      ensures consolidated == (old(consolidated) || r.Ok?)
      ensures old(consolidated) ==> r.Ok? && methods == old(methods) && variables == old(variables)
      ensures !old(consolidated) && r.Ok? ==>
                MethodsMerged(old(methods), parentMethods, methods)
                && VariablesMerged(old(variables), parentVariables, variables)
    {
      if !consolidated {
        r := AddMethodsInherited(parentMethods);
        if r.Err? {
          return;
        }
        r := AddVariablesInherited(parentVariables);
        if r.Err? {
          return;
        }
      }
      consolidated := true;
      r := Ok(());
    }

    /** The merge of a child c with this struct's tables, as one step of a walk. */
    method MergeChild(c: Struct, ghost U: set<Struct>) returns (r: Result<(), SemanticError>)
      requires this in U && c in U && c.parent == this && AllValid(U) && Checked(this)
      modifies c`methods, c`variables, c`currentMethodIndex, c`currentVarIndex, c`consolidated
      ensures r.Ok? ==> AllValid(U) && c.consolidated
      ensures Walked(U, old(Snapshot(U)), Snapshot(U), r.Ok?, old(consolidated || parent == null))
    {
      assert Valid() && c.Valid();
      ghost var before := Snapshot(U);
      ghost var own := EntryOf(c);
      assert before[c] == own && before[this] == EntryOf(this);
      r := c.Inherit(methods, variables);
      ghost var after := Snapshot(U);
      forall s | s in U && s != c
        ensures s.Valid() && after[s] == before[s]
      {
        assert old(s.Valid());
      }
      assert after[c] == EntryOf(c) == own.(consolidated := c.consolidated, methods := c.methods, variables := c.variables);
      InheritWalked(U, before, after, c, this, r.Ok?, old(consolidated || parent == null));
    }

    /** The loop body of consolidate for one child: the merge, then the child's own walk while fuel remains. */
    method VisitChild(n: string, staticStructs: set<string>, ghost U: set<Struct>, fuel: nat)
      returns (r: Result<(), SemanticError>)
      requires this in U && n in childrens && AllValid(U) && ChildrenWithin(U) && Checked(this)
      modifies U`methods, U`variables, U`currentMethodIndex, U`currentVarIndex, U`consolidated
      ensures r.Ok? ==> AllValid(U) && childrens[n].consolidated
      ensures r.Ok? && fuel > 0 ==> Done(U, Snapshot(U), staticStructs, childrens[n], fuel - 1)
      ensures Walked(U, old(Snapshot(U)), Snapshot(U), r.Ok?, old(consolidated || parent == null))
      decreases fuel, 0
    {
      var c := childrens[n];
      r := MergeChild(c, U);
      if r.Err? || fuel == 0 {
        return;
      }
      ghost var merged := Snapshot(U);
      r := c.Consolidate(staticStructs, U, fuel - 1);
      WalkedTrans(U, old(Snapshot(U)), merged, Snapshot(U), r.Ok?, old(consolidated || parent == null), true);
    }

    /**
     * consolidate: a struct other than Object must have been declared, implemented
     * and given a constructor; then each child not named in `staticStructs` is
     * merged with this struct's methods and attributes (once, guarded by its
     * `consolidated` flag) before its own subtree is visited. `fuel` bounds the
     * depth of the walk.
     */
    method Consolidate(staticStructs: set<string>, ghost U: set<Struct>, fuel: nat) returns (r: Result<(), SemanticError>)
      requires this in U && AllValid(U) && ChildrenWithin(U)
      modifies U`methods, U`variables, U`currentMethodIndex, U`currentVarIndex, U`consolidated
      ensures r.Ok? ==> AllValid(U) && Checked(this)
      ensures name != "Object" && countStructDefinition == 0 ==> r == Err(MissingStruct(metadata))
      ensures name != "Object" && countStructDefinition != 0 && countImplDefinition == 0 ==> r == Err(MissingImpl(metadata))
      ensures name != "Object" && countStructDefinition != 0 && countImplDefinition != 0 && structConstructor.None? ==>
                r == Err(MissingConstructor(metadata))
      ensures r.Ok? ==> forall n :: n in childrens && childrens[n].name !in staticStructs ==> childrens[n].consolidated
      ensures r.Ok? ==> Done(U, Snapshot(U), staticStructs, this, fuel)
      ensures Walked(U, old(Snapshot(U)), Snapshot(U), r.Ok?, old(consolidated || parent == null))
      ensures r.Ok? && old(consolidated || parent == null) ==>
                forall n :: n in childrens && childrens[n].name !in staticStructs && !old(childrens[n].consolidated) ==>
                  MethodsMerged(old(childrens[n].methods), old(methods), childrens[n].methods)
                  && VariablesMerged(old(childrens[n].variables), old(variables), childrens[n].variables)
      decreases fuel, 3
    {
      if name != "Object" {
        if countStructDefinition == 0 {
          return Err(MissingStruct(metadata));
        }
        if countImplDefinition == 0 {
          return Err(MissingImpl(metadata));
        }
        if structConstructor.None? {
          return Err(MissingConstructor(metadata));
        }
      }
      r := VisitChildren(staticStructs, U, fuel);
      if r.Ok? {
        forall n | n in childrens && childrens[n].name !in staticStructs
          ensures childrens[n].consolidated
          ensures old(consolidated || parent == null) && !old(childrens[n].consolidated) ==>
                    MethodsMerged(old(childrens[n].methods), old(methods), childrens[n].methods)
                    && VariablesMerged(old(childrens[n].variables), old(variables), childrens[n].variables)
        {
          var c := childrens[n];
          assert Snapshot(U)[c].consolidated;
          if old(consolidated || parent == null) && !old(childrens[n].consolidated) {
            assert Inherited(U, Snapshot(U), c, old(Snapshot(U))[c]);
          }
        }
      }
    }

    /** The loop of consolidate over the children, in no particular order. */
    method VisitChildren(staticStructs: set<string>, ghost U: set<Struct>, fuel: nat) returns (r: Result<(), SemanticError>)
      requires this in U && AllValid(U) && ChildrenWithin(U) && Checked(this)
      modifies U`methods, U`variables, U`currentMethodIndex, U`currentVarIndex, U`consolidated
      ensures r.Ok? ==> AllValid(U)
      ensures r.Ok? ==> forall n :: n in childrens && childrens[n].name !in staticStructs ==> Snapshot(U)[childrens[n]].consolidated
      ensures r.Ok? ==> ChildrenDone(U, Snapshot(U), staticStructs, this, {}, fuel)
      ensures Walked(U, old(Snapshot(U)), Snapshot(U), r.Ok?, old(consolidated || parent == null))
      decreases fuel, 2
    {
      var pending := childrens.Keys;
      ghost var fromFixed := consolidated || parent == null;
      ghost var start := Snapshot(U);
      assert fromFixed ==> start[this].Fixed();
      while pending != {}
        invariant pending <= childrens.Keys && ChildrenWithin(U) && Checked(this)
        invariant AllValid(U)
        invariant ChildrenDone(U, Snapshot(U), staticStructs, this, pending, fuel)
        invariant Walked(U, start, Snapshot(U), true, fromFixed)
        decreases |pending|
      {
        r, pending := VisitStep(pending, staticStructs, U, fuel, start, fromFixed);
        if r.Err? {
          return;
        }
      }
      ChildrenDoneConsolidated(U, Snapshot(U), staticStructs, this, {}, fuel);
      r := Ok(());
    }

    /**
     * One turn of the loop over the children: one child still pending is
     * visited unless its struct is static, and the rest stay pending.
     */
    method VisitStep(pending: set<string>, staticStructs: set<string>, ghost U: set<Struct>, fuel: nat,
                     ghost start: map<Struct, Entry>, ghost fromFixed: bool)
      returns (r: Result<(), SemanticError>, rest: set<string>)
      requires this in U && pending != {} && pending <= childrens.Keys && AllValid(U) && ChildrenWithin(U) && Checked(this)
      requires start.Keys == U && Walked(U, start, Snapshot(U), true, fromFixed)
      requires fromFixed ==> start[this].Fixed()
      requires ChildrenDone(U, Snapshot(U), staticStructs, this, pending, fuel)
      modifies U`methods, U`variables, U`currentMethodIndex, U`currentVarIndex, U`consolidated
      ensures rest <= pending && |rest| == |pending| - 1
      ensures Walked(U, start, Snapshot(U), r.Ok?, fromFixed)
      ensures r.Ok? ==> ChildrenDone(U, Snapshot(U), staticStructs, this, rest, fuel)
      ensures r.Ok? ==> AllValid(U)
      decreases fuel, 1
    {
      r := Ok(());
      var n :| n in pending;
      rest := pending - {n};
      var c := childrens[n];
      if c.name !in staticStructs {
        ghost var before := Snapshot(U);
        assert c in U && before[this] == EntryOf(this);
        r := VisitChild(n, staticStructs, U, fuel);
        ghost var after := Snapshot(U);
        WalkedTrans(U, start, before, after, r.Ok?, fromFixed, old(consolidated || parent == null));
        if r.Ok? {
          ChildrenDoneKept(U, before, after, staticStructs, this, pending, fuel, true, old(consolidated || parent == null));
          ChildrenDoneStep(U, after, staticStructs, this, pending, n, fuel);
        }
      } else {
        ChildrenDoneStep(U, Snapshot(U), staticStructs, this, pending, n, fuel);
      }
    }
  }
}
