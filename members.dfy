// The entries of a struct (src/lib/semanticHelper/symbolTableHelper/Struct.java):
// methods and attributes with their slots, the semantic errors, and the
// inheritance merge passes of addMethodsInherited and addVariablesInherited
// written over the entry maps.
module Members {
  import opened Wrappers
  import opened Tokens
  import opened Params

  /** A method (Method.java is not part of this model): token, parameters, return type, static flag and slot. */
  datatype MethodInfo = MethodInfo(token: Token, params: seq<Param>, returnType: Token, isStatic: bool, position: int)

  /** An attribute (Variable.java is not part of this model): token, type token, privacy, slot and whether it was inherited. */
  datatype Variable = Variable(token: Token, typeToken: Token, isPrivate: bool, position: int, isInherited: bool)

  /** The type lexemes of a parameter list, in order. */
  function ParamTypes(ps: seq<Param>): (r: seq<string>)
    ensures |r| == |ps|
    ensures forall i :: 0 <= i < |r| ==> r[i] == ps[i].paramType.lexema
  {
    if ps == [] then [] else [ps[0].paramType.lexema] + ParamTypes(ps[1..])
  }

  /** Method.getSignature: the type lexemes of the parameters, in order. */
  function Signature(m: MethodInfo): seq<string>
  {
    ParamTypes(m.params)
  }

  /** The SemanticException cases of the symbol table, each with the token or name it reports. */
  datatype SemanticError =
    | DuplicateConstructor(token: Token)
    | DuplicateMethod(token: Token)
    | DuplicateAttribute(token: Token)
    | RepeatedDefinition(token: Token, isFromStruct: bool)
    | StaticOverride(token: Token)
    | SignatureMismatch(token: Token)
    | InheritedAttribute(token: Token)
    | MissingStruct(token: Token)
    | MissingImpl(token: Token)
    | MissingConstructor(token: Token)
    | PredefinedParent(token: Token)
    | SelfParent(token: Token)
    | CyclicInheritance(token: Token)
    | UndefinedStruct(token: Token, name: string)
    | NoParent(token: Token)  // not a SemanticException: the null parent of Object is dereferenced
    | DuplicateStart(token: Token)

  /** Slots are exact when they lie in [0, n) for n entries and no two entries share one. */
  predicate ExactSlots(pos: map<string, int>)
  {
    (forall k :: k in pos ==> 0 <= pos[k] < |pos|)
    && (forall k, l :: k in pos && l in pos && pos[k] == pos[l] ==> k == l)
  }

  predicate MethodSlots(m: map<string, MethodInfo>)
  {
    (forall k :: k in m ==> 0 <= m[k].position < |m|)
    && (forall k, l :: k in m && l in m && m[k].position == m[l].position ==> k == l)
  }

  predicate VarSlots(m: map<string, Variable>)
  {
    (forall k :: k in m ==> 0 <= m[k].position < |m|)
    && (forall k, l :: k in m && l in m && m[k].position == m[l].position ==> k == l)
  }

  /** The slot of every entry of a table, read through `position`. */
  function Positions<T>(m: map<string, T>, position: T -> int): (pos: map<string, int>)
    ensures pos.Keys == m.Keys && forall k :: k in m ==> pos[k] == position(m[k])
  {
    map k | k in m :: position(m[k])
  }

  function Range(n: nat): (r: set<int>)
    ensures forall i :: i in r <==> 0 <= i < n
  {
    if n == 0 then {} else Range(n - 1) + {n - 1}
  }

  function Image(pos: map<string, int>): (r: set<int>)
    ensures forall i :: i in r <==> exists k :: k in pos && pos[k] == i
  {
    set k | k in pos :: pos[k]
  }

  lemma {:induction false} RangeSize(n: nat)
    ensures |Range(n)| == n
  {
    if n > 0 {
      RangeSize(n - 1);
      assert Range(n) == Range(n - 1) + {n - 1};
    }
  }

  lemma {:induction false} ImageSize(pos: map<string, int>)
    requires forall k, l :: k in pos && l in pos && pos[k] == pos[l] ==> k == l
    ensures |Image(pos)| == |pos|
    decreases |pos|
  {
    if pos != map[] {
      var k :| k in pos;
      var rest := pos - {k};
      ImageSize(rest);
      forall i | i in Image(pos) ensures i in Image(rest) + {pos[k]} {
        var j :| j in pos && pos[j] == i;
        if j != k {
          assert j in rest && rest[j] == i;
        }
      }
      forall i | i in Image(rest) ensures i in Image(pos) {
        var j :| j in rest && rest[j] == i;
        assert j in pos && pos[j] == i;
      }
      assert Image(pos) == Image(rest) + {pos[k]};
      assert pos[k] !in Image(rest);
    }
  }

  /** Pigeonhole: exact slots use every number in [0, n) exactly once. */
  lemma SlotsFillRange(pos: map<string, int>)
    requires ExactSlots(pos)
    ensures Image(pos) == Range(|pos|)
  {
    ImageSize(pos);
    RangeSize(|pos|);
    var missing := Range(|pos|) - Image(pos);
    assert Image(pos) <= Range(|pos|);
    assert |Range(|pos|)| == |Image(pos)| + |missing|;
  }

  /** The slots of exact method and attribute tables are exactly 0, 1, ..., n - 1. */
  lemma MethodSlotsFillRange(m: map<string, MethodInfo>)
    requires MethodSlots(m)
    ensures Image(Positions(m, (x: MethodInfo) => x.position)) == Range(|m|)
  {
    SlotsFillRange(Positions(m, (x: MethodInfo) => x.position));
  }

  lemma VarSlotsFillRange(m: map<string, Variable>)
    requires VarSlots(m)
    ensures Image(Positions(m, (x: Variable) => x.position)) == Range(|m|)
  {
    SlotsFillRange(Positions(m, (x: Variable) => x.position));
  }

  /** A parent method clashes with the child's when the parent's is static or the signatures differ. */
  predicate MethodConflict(own: map<string, MethodInfo>, parentMethods: map<string, MethodInfo>, k: string)
  {
    k in own && k in parentMethods
    && (parentMethods[k].isStatic || Signature(own[k]) != Signature(parentMethods[k]))
  }

  lemma DisjointUnionSize<T>(a: set<T>, b: set<T>)
    requires a !! b
    ensures |a + b| == |a| + |b|
  {
    assert a * b == {};
  }

  /** A method that takes the next slot keeps the slots exact. */
  lemma AppendKeepsMethodSlots(m: map<string, MethodInfo>, k: string, v: MethodInfo)
    requires MethodSlots(m) && k !in m && v.position == |m|
    ensures MethodSlots(m[k := v]) && |m[k := v]| == |m| + 1
  {
  }

  lemma AppendKeepsVarSlots(m: map<string, Variable>, k: string, v: Variable)
    requires VarSlots(m) && k !in m && v.position == |m|
    ensures VarSlots(m[k := v]) && |m[k := v]| == |m| + 1
  {
  }

  /**
   * The slot invariant of inheritance: when the parent's slots are exact, every
   * parent method keeps its parent slot and the child's other methods take
   * distinct slots from the parent's size on, the merged table is exact again.
   */
  lemma MergedMethodSlots(parentMethods: map<string, MethodInfo>, added: set<string>, merged: map<string, MethodInfo>)
    requires MethodSlots(parentMethods) && forall k :: k in added ==> k !in parentMethods
    requires forall k :: k in merged <==> k in parentMethods || k in added
    requires forall k :: k in parentMethods ==> merged[k].position == parentMethods[k].position
    requires forall k :: k in added ==> |parentMethods| <= merged[k].position < |merged|
    requires forall k, l :: k in added && l in added && merged[k].position == merged[l].position ==> k == l
    ensures MethodSlots(merged) && |merged| == |parentMethods| + |added|
  {
    assert merged.Keys == parentMethods.Keys + added;
    DisjointUnionSize(parentMethods.Keys, added);
    forall k | k in merged
      ensures 0 <= merged[k].position < |merged|
    {
      if k in parentMethods {
        assert merged[k].position == parentMethods[k].position;
      }
    }
    forall k, l | k in merged && l in merged && merged[k].position == merged[l].position
      ensures k == l
    {
      if k in parentMethods && l in parentMethods {
        assert parentMethods[k].position == parentMethods[l].position;
      }
    }
  }

  /** The error addMethodsInherited reports for a clashing redefinition. */
  function ConflictError(own: map<string, MethodInfo>, parentMethods: map<string, MethodInfo>, k: string): SemanticError
    requires k in own && k in parentMethods
  {
    if parentMethods[k].isStatic then StaticOverride(own[k].token) else SignatureMismatch(own[k].token)
  }

  /**
   * The outcome of addMethodsInherited on the child's table `own`: the parent's
   * methods the child lacks come in unchanged, a redefinition keeps the child's
   * method but takes its ancestor's slot, and the child's other methods keep
   * their content; with a non-empty parent table they take distinct slots from
   * the parent's size on, with an empty one nothing changes.
   */
  ghost predicate MethodsMerged(own: map<string, MethodInfo>, parentMethods: map<string, MethodInfo>,
                                merged: map<string, MethodInfo>)
  {
    (forall k :: k in merged <==> k in own || k in parentMethods)
    && (forall k :: k in parentMethods && k !in own ==> merged[k] == parentMethods[k])
    && (forall k :: k in parentMethods && k in own ==> merged[k] == own[k].(position := parentMethods[k].position))
    && (parentMethods == map[] ==> merged == own)
    && (parentMethods != map[] ==>
          forall k :: k in own && k !in parentMethods ==>
                       merged[k] == own[k].(position := merged[k].position)
                       && |parentMethods| <= merged[k].position < |merged|)
    && (forall k, l ::
          (k in own && k !in parentMethods && l in own && l !in parentMethods
           && merged[k].position == merged[l].position) ==> k == l)
  }

  /** The slot invariant of method inheritance: exact slots in the child and the parent give exact slots after the merge. */
  lemma MethodsMergedSlots(own: map<string, MethodInfo>, parentMethods: map<string, MethodInfo>,
                           merged: map<string, MethodInfo>)
    requires MethodSlots(own) && MethodSlots(parentMethods) && MethodsMerged(own, parentMethods, merged)
    ensures MethodSlots(merged)
    ensures |merged| == |parentMethods| + |own.Keys - parentMethods.Keys|
  {
    if parentMethods == map[] {
      assert own.Keys - parentMethods.Keys == own.Keys;
    } else {
      MergedMethodSlots(parentMethods, own.Keys - parentMethods.Keys, merged);
    }
  }

  /**
   * The outcome of addVariablesInherited on the child's table `own`: every
   * parent attribute comes in with its slot and privacy, marked inherited, and
   * every own attribute moves up by the parent's size.
   */
  ghost predicate VariablesMerged(own: map<string, Variable>, parentVariables: map<string, Variable>,
                                  merged: map<string, Variable>)
  {
    (forall k :: k in merged <==> k in own || k in parentVariables)
    && (forall k :: k in parentVariables ==> merged[k] == parentVariables[k].(isInherited := true))
    && (forall k :: k in own ==> merged[k] == own[k].(position := own[k].position + |parentVariables|))
  }

  /** The slot invariant of attribute inheritance: parent attributes keep their slots and the child's shift past them. */
  lemma VariablesMergedSlots(own: map<string, Variable>, parentVariables: map<string, Variable>,
                             merged: map<string, Variable>)
    requires VarSlots(parentVariables) && VarSlots(own) && forall k :: k in own ==> k !in parentVariables
    requires VariablesMerged(own, parentVariables, merged)
    ensures VarSlots(merged) && |merged| == |parentVariables| + |own|
  {
    assert merged.Keys == parentVariables.Keys + own.Keys;
    DisjointUnionSize(parentVariables.Keys, own.Keys);
    forall k | k in merged
      ensures 0 <= merged[k].position < |merged|
    {
      if k in parentVariables {
        assert merged[k].position == parentVariables[k].position;
      } else {
        assert merged[k].position == own[k].position + |parentVariables|;
      }
    }
    forall k, l | k in merged && l in merged && merged[k].position == merged[l].position
      ensures k == l
    {
      if k in parentVariables && l in parentVariables {
        assert parentVariables[k].position == parentVariables[l].position;
      } else if k in own && l in own {
        assert own[k].position == own[l].position;
      }
    }
  }

  /**
   * The first pass of addMethodsInherited over the parent's methods: a method
   * the child lacks is inserted unchanged, a compatible redefinition takes the
   * parent's slot, and a static or differently typed redefinition is an error.
   */
  method InheritMethods(own: map<string, MethodInfo>, parentMethods: map<string, MethodInfo>)
    returns (r: Result<map<string, MethodInfo>, SemanticError>)
    ensures r.Ok? <==> forall k :: k in parentMethods ==> !MethodConflict(own, parentMethods, k)
    ensures r.Err? ==> exists k :: MethodConflict(own, parentMethods, k) && r.error == ConflictError(own, parentMethods, k)
    ensures r.Ok? ==> forall k :: k in r.value <==> k in own || k in parentMethods
    ensures r.Ok? ==> forall k :: k in parentMethods && k !in own ==> r.value[k] == parentMethods[k]
    ensures r.Ok? ==> forall k :: k in parentMethods && k in own ==>
                        r.value[k] == own[k].(position := parentMethods[k].position)
    ensures r.Ok? ==> forall k :: k in own && k !in parentMethods ==> r.value[k] == own[k]
  {
    var m := own;
    var pending := parentMethods.Keys;
    while pending != {}
      invariant pending <= parentMethods.Keys
      invariant forall k :: k in m <==> k in own || (k in parentMethods && k !in pending)
      invariant forall k :: k in parentMethods && k !in pending && k !in own ==> m[k] == parentMethods[k]
      invariant forall k :: k in parentMethods && k !in pending && k in own ==>
                  m[k] == own[k].(position := parentMethods[k].position)
                  && !MethodConflict(own, parentMethods, k)
      invariant forall k :: k in own && (k !in parentMethods || k in pending) ==> m[k] == own[k]
      decreases |pending|
    {
      var k :| k in pending;
      if k !in m {
        m := m[k := parentMethods[k]];
      } else {
        assert k in own && m[k] == own[k];
        if parentMethods[k].isStatic {
          assert MethodConflict(own, parentMethods, k);
          return Err(StaticOverride(m[k].token));
        }
        if Signature(m[k]) == Signature(parentMethods[k]) {
          m := m[k := m[k].(position := parentMethods[k].position)];
        } else {
          assert MethodConflict(own, parentMethods, k);
          return Err(SignatureMismatch(m[k].token));
        }
      }
      pending := pending - {k};
    }
    return Ok(m);
  }

  /**
   * The renumbering pass of addMethodsInherited: the named methods take the
   * slots start, start + 1, ... in the order the set is visited.
   */
  method RenumberMethods(m: map<string, MethodInfo>, names: set<string>, start: int)
    returns (r: map<string, MethodInfo>, next: int)
    requires names <= m.Keys
    ensures next == start + |names|
    ensures r.Keys == m.Keys
    ensures forall k :: k in m && k !in names ==> r[k] == m[k]
    ensures forall k :: k in names ==>
              r[k] == m[k].(position := r[k].position) && start <= r[k].position < next
    ensures forall k, l :: k in names && l in names && r[k].position == r[l].position ==> k == l
  {
    next := start;
    r := m;
    var rest := names;
    ghost var owner: map<int, string> := map[];
    while rest != {}
      invariant rest <= names
      invariant next == start + |names| - |rest|
      invariant r.Keys == m.Keys
      invariant forall k :: k in m && (k !in names || k in rest) ==> r[k] == m[k]
      invariant forall k :: k in names && k !in rest ==>
                  r[k] == m[k].(position := r[k].position)
                  && start <= r[k].position < next
                  && r[k].position in owner && owner[r[k].position] == k
      decreases |rest|
    {
      var k :| k in rest;
      owner := owner[next := k];
      r := r[k := r[k].(position := next)];
      next := next + 1;
      rest := rest - {k};
    }
  }

  /** The copying pass of addVariablesInherited: parent attributes come in marked inherited; a shared name is an error. */
  method InheritVariables(own: map<string, Variable>, parentVariables: map<string, Variable>)
    returns (r: Result<map<string, Variable>, SemanticError>)
    ensures r.Ok? <==> forall k :: k in own ==> k !in parentVariables
    ensures r.Err? ==> exists k :: k in own && k in parentVariables && r.error == InheritedAttribute(own[k].token)
    ensures r.Ok? ==> forall k :: k in r.value <==> k in own || k in parentVariables
    ensures r.Ok? ==> forall k :: k in parentVariables ==> r.value[k] == parentVariables[k].(isInherited := true)
    ensures r.Ok? ==> forall k :: k in own ==> r.value[k] == own[k]
  {
    var v := own;
    var pending := parentVariables.Keys;
    while pending != {}
      invariant pending <= parentVariables.Keys
      invariant forall k :: k in v <==> k in own || (k in parentVariables && k !in pending)
      invariant forall k :: k in own && k in parentVariables ==> k in pending
      invariant forall k :: k in parentVariables && k !in pending ==> v[k] == parentVariables[k].(isInherited := true)
      invariant forall k :: k in own ==> v[k] == own[k]
      decreases |pending|
    {
      var k :| k in pending;
      if k in v {
        assert k in own && v[k] == own[k];
        return Err(InheritedAttribute(v[k].token));
      }
      v := v[k := parentVariables[k].(isInherited := true)];
      pending := pending - {k};
    }
    return Ok(v);
  }

  /** The shifting pass of addVariablesInherited: the named attributes move up by `shift` slots. */
  method ShiftVariables(m: map<string, Variable>, names: set<string>, shift: int) returns (r: map<string, Variable>)
    requires names <= m.Keys
    ensures r.Keys == m.Keys
    ensures forall k :: k in m && k !in names ==> r[k] == m[k]
    ensures forall k :: k in names ==> r[k] == m[k].(position := m[k].position + shift)
  {
    r := m;
    var rest := names;
    while rest != {}
      invariant rest <= names
      invariant r.Keys == m.Keys
      invariant forall k :: k in m && (k !in names || k in rest) ==> r[k] == m[k]
      invariant forall k :: k in names && k !in rest ==> r[k] == m[k].(position := m[k].position + shift)
      decreases |rest|
    {
      var k :| k in rest;
      r := r[k := r[k].(position := r[k].position + shift)];
      rest := rest - {k};
    }
  }


  /** With no parent methods the first pass leaves the table as it was, which is a merge. */
  lemma UnchangedIsMerged(own: map<string, MethodInfo>, inherited: map<string, MethodInfo>)
    requires MethodSlots(own)
    requires forall k :: k in inherited <==> k in own
    requires forall k :: k in own ==> inherited[k] == own[k]
    ensures inherited == own && MethodsMerged(own, map[], inherited)
  {
    assert inherited == own;
  }

  /** The first pass followed by the renumbering of the child's other methods is a merge. */
  lemma RenumberedIsMerged(own: map<string, MethodInfo>, parentMethods: map<string, MethodInfo>,
                           inherited: map<string, MethodInfo>, renumbered: map<string, MethodInfo>, next: int)
    requires parentMethods != map[]
    requires forall k :: k in inherited <==> k in own || k in parentMethods
    requires forall k :: k in parentMethods && k !in own ==> inherited[k] == parentMethods[k]
    requires forall k :: k in parentMethods && k in own ==> inherited[k] == own[k].(position := parentMethods[k].position)
    requires forall k :: k in own && k !in parentMethods ==> inherited[k] == own[k]
    requires next == |parentMethods| + |own.Keys - parentMethods.Keys|
    requires renumbered.Keys == inherited.Keys
    requires forall k :: k in inherited && k !in own.Keys - parentMethods.Keys ==> renumbered[k] == inherited[k]
    requires forall k :: k in own.Keys - parentMethods.Keys ==>
               renumbered[k] == inherited[k].(position := renumbered[k].position)
               && |parentMethods| <= renumbered[k].position < next
    requires forall k, l ::
               (k in own.Keys - parentMethods.Keys && l in own.Keys - parentMethods.Keys
                && renumbered[k].position == renumbered[l].position) ==> k == l
    ensures MethodsMerged(own, parentMethods, renumbered) && next == |renumbered|
  {
    var added := own.Keys - parentMethods.Keys;
    assert renumbered.Keys == parentMethods.Keys + added;
    DisjointUnionSize(parentMethods.Keys, added);
  }

  /**
   * addMethodsInherited over the entry maps: the first pass, then, when the
   * parent has methods, the renumbering of the child's other methods; `next`
   * is the next free slot the renumbering reaches.
   */
  method MergeMethods(own: map<string, MethodInfo>, parentMethods: map<string, MethodInfo>)
    returns (r: Result<map<string, MethodInfo>, SemanticError>, next: int)
    requires MethodSlots(own)
    ensures r.Ok? <==> forall k :: k in parentMethods ==> !MethodConflict(own, parentMethods, k)
    ensures r.Err? ==> exists k :: MethodConflict(own, parentMethods, k) && r.error == ConflictError(own, parentMethods, k)
    ensures r.Ok? ==> MethodsMerged(own, parentMethods, r.value)
    ensures r.Ok? && parentMethods != map[] ==> next == |r.value|
  {
    var methodsToCheck := own.Keys - parentMethods.Keys;
    var inherited := InheritMethods(own, parentMethods);
    next := |parentMethods|;
    if inherited.Err? {
      return inherited, next;
    }
    if parentMethods != map[] {
      var renumbered;
      renumbered, next := RenumberMethods(inherited.value, methodsToCheck, next);
      RenumberedIsMerged(own, parentMethods, inherited.value, renumbered, next);
      r := Ok(renumbered);
    } else {
      UnchangedIsMerged(own, inherited.value);
      r := inherited;
    }
  }

  /** addVariablesInherited over the entry maps: the copying pass, then the shifting pass over the child's own attributes. */
  method MergeVariables(own: map<string, Variable>, parentVariables: map<string, Variable>)
    returns (r: Result<map<string, Variable>, SemanticError>)
    ensures r.Ok? <==> forall k :: k in own ==> k !in parentVariables
    ensures r.Err? ==> exists k :: k in own && k in parentVariables && r.error == InheritedAttribute(own[k].token)
    ensures r.Ok? ==> VariablesMerged(own, parentVariables, r.value)
  {
    var variablesToCheck := own.Keys;
    var inherited := InheritVariables(own, parentVariables);
    if inherited.Err? {
      return inherited;
    }
    var shifted := ShiftVariables(inherited.value, variablesToCheck, |parentVariables|);
    r := Ok(shifted);
  }
}
