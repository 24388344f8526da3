// The predefined methods that the symbol table of
// src/lib/semanticHelper/SymbolTable.java loads into IO, the array types and
// Str when it is built: their names and parameters, their return types, and
// the method tables they produce.
module Builtins {
  import opened Tokens
  import opened Params
  import opened Members
  import opened Structs

  /** A predefined method: its name and its parameters. */
  type Definition = (string, seq<Param>)

  /** generateArrayParam: one parameter named `lexema` whose type token carries the kind's text, at position 0. */
  function OneParam(k: Kind, lexema: string, kindText: Kind -> string): seq<Param>
  {
    [Param(Token(k, lexema, 0, 0), Token(k, kindText(k), 0, 0), 0)]
  }

  /** The type token the preload uses for a return type: the kind with its text as lexeme. */
  function TypeToken(k: Kind, kindText: Kind -> string): Token
  {
    Token(k, kindText(k), 0, 0)
  }

  /** addVoid: a predefined method without a declared return type returns void. */
  const VoidToken: Token := Token(TypeVoid, "void", 0, 0)

  /**
   * The predefined methods of a struct, in the order they are listed: IO
   * prints and reads each basic type, every array type has `length`, and Str
   * has `length` and `concat`. Every other struct has none.
   */
  function Definitions(s: string, kindText: Kind -> string): seq<Definition>
  {
    var strParams := OneParam(TypeStr, "s", kindText);
    var arrayParams := OneParam(TypeArray, "a", kindText);
    if s == "IO" then
      [("out_str", strParams), ("out_int", OneParam(TypeInt, "i", kindText)),
       ("out_bool", OneParam(TypeBool, "b", kindText)), ("out_char", OneParam(TypeChar, "c", kindText)),
       ("out_array_int", arrayParams), ("out_array_str", arrayParams),
       ("out_array_bool", arrayParams), ("out_array_char", arrayParams),
       ("in_str", []), ("in_int", []), ("in_bool", []), ("in_char", [])]
    else if s == "Array Str" || s == "Array Int" || s == "Array Char" || s == "Array Bool" then
      [("length", [])]
    else if s == "Str" then
      [("length", []), ("concat", strParams)]
    else
      []
  }

  /**
   * The table of return types of init. The entry meant for `Array Char` is
   * keyed "Array Char\"" with a stray quote, so it never matches.
   */
  function Returns(kindText: Kind -> string): map<string, map<string, Token>>
  {
    var intType := TypeToken(TypeInt, kindText);
    map["IO" := map["in_str" := TypeToken(TypeStr, kindText), "in_int" := intType,
                    "in_bool" := TypeToken(TypeBool, kindText), "in_char" := TypeToken(TypeChar, kindText)],
        "Array Str" := map["length" := intType],
        "Array Bool" := map["length" := intType],
        "Array Int" := map["length" := intType],
        "Array Char\"" := map["length" := intType],
        "Str" := map["length" := intType, "concat" := TypeToken(TypeStr, kindText)]]
  }

  /** The return type addVoid passes: the table's entry, or void when the struct or the method has none. */
  function ReturnOf(table: map<string, map<string, Token>>, s: string, m: string): (t: Token)
    ensures s in table && m in table[s] ==> t == table[s][m]
    ensures !(s in table && m in table[s]) ==> t == VoidToken
  {
    if s in table && m in table[s] then table[s][m] else VoidToken
  }

  /**
   * Because of the stray quote, `length` of Array Char returns void, while
   * `length` of the other array types and of Str returns Int.
   */
  lemma ArrayCharLengthIsVoid(kindText: Kind -> string)
    ensures ReturnOf(Returns(kindText), "Array Char", "length") == VoidToken
    ensures forall s :: s in {"Array Str", "Array Int", "Array Bool", "Str"} ==>
              ReturnOf(Returns(kindText), s, "length") == TypeToken(TypeInt, kindText)
  {
    assert "Array Char" !in Returns(kindText);
  }

  /** No method name is listed twice. */
  predicate DistinctNames(defs: seq<Definition>)
  {
    forall i, j :: 0 <= i < j < |defs| ==> defs[i].0 != defs[j].0
  }

  /** The entry the preload gives the i-th definition of struct s. */
  function PreloadEntry(s: string, d: Definition, table: map<string, map<string, Token>>, isStatic: bool, i: int)
    : MethodInfo
  {
    MethodInfo(Token(IdObject, d.0, 0, 0), d.1, ReturnOf(table, s, d.0), isStatic, i)
  }

  /** The method table the preload gives struct s: the definitions entered in order, each taking the next slot. */
  function PreloadTable(s: string, defs: seq<Definition>, table: map<string, map<string, Token>>, isStatic: bool)
    : map<string, MethodInfo>
  {
    if defs == [] then map[]
    else
      var n := |defs| - 1;
      PreloadTable(s, defs[..n], table, isStatic)[defs[n].0 := PreloadEntry(s, defs[n], table, isStatic, n)]
  }

  /** The preload table holds exactly the listed names. */
  lemma {:induction false} PreloadTableKeys(s: string, defs: seq<Definition>, table: map<string, map<string, Token>>,
                                            isStatic: bool)
    ensures forall k :: k in PreloadTable(s, defs, table, isStatic) <==> exists i :: 0 <= i < |defs| && defs[i].0 == k
  {
    if defs != [] {
      var n := |defs| - 1;
      PreloadTableKeys(s, defs[..n], table, isStatic);
      forall k | k in PreloadTable(s, defs, table, isStatic)
        ensures exists i :: 0 <= i < |defs| && defs[i].0 == k
      {
        if k != defs[n].0 {
          assert k in PreloadTable(s, defs[..n], table, isStatic);
          var i :| 0 <= i < |defs[..n]| && defs[..n][i].0 == k;
          assert defs[i].0 == k;
        }
      }
      forall i | 0 <= i < n
        ensures defs[i].0 in PreloadTable(s, defs[..n], table, isStatic)
      {
        assert defs[..n][i] == defs[i];
      }
    }
  }

  /** With distinct names, the preload table has one entry per definition and its slots are exact. */
  lemma {:induction false} PreloadTableSlots(s: string, defs: seq<Definition>, table: map<string, map<string, Token>>,
                                             isStatic: bool)
    requires DistinctNames(defs)
    ensures |PreloadTable(s, defs, table, isStatic)| == |defs| && MethodSlots(PreloadTable(s, defs, table, isStatic))
  {
    if defs != [] {
      var n := |defs| - 1;
      var before := PreloadTable(s, defs[..n], table, isStatic);
      PreloadTableSlots(s, defs[..n], table, isStatic);
      PreloadTableKeys(s, defs[..n], table, isStatic);
      NextNameIsNew(defs, n, before);
      AppendKeepsMethodSlots(before, defs[n].0, PreloadEntry(s, defs[n], table, isStatic, n));
    }
  }

  /** With distinct names, each definition's entry sits under its name, at the slot of its place in the list. */
  lemma {:induction false} PreloadTableEntries(s: string, defs: seq<Definition>, table: map<string, map<string, Token>>,
                                               isStatic: bool)
    requires DistinctNames(defs)
    ensures forall i :: 0 <= i < |defs| ==>
              defs[i].0 in PreloadTable(s, defs, table, isStatic)
              && PreloadTable(s, defs, table, isStatic)[defs[i].0] == PreloadEntry(s, defs[i], table, isStatic, i)
  {
    if defs != [] {
      var n := |defs| - 1;
      PreloadTableEntries(s, defs[..n], table, isStatic);
      forall i | 0 <= i < n
        ensures defs[i].0 in PreloadTable(s, defs, table, isStatic)
                && PreloadTable(s, defs, table, isStatic)[defs[i].0] == PreloadEntry(s, defs[i], table, isStatic, i)
      {
        assert defs[..n][i] == defs[i];
      }
    }
  }

  /** The next definition's name is not among the names listed before it. */
  lemma NextNameIsNew<V>(defs: seq<Definition>, n: int, before: map<string, V>)
    requires DistinctNames(defs) && 0 <= n < |defs|
    requires forall k :: k in before <==> exists i :: 0 <= i < n && defs[..n][i].0 == k
    ensures defs[n].0 !in before
  {
    forall i | 0 <= i < n
      ensures defs[..n][i].0 != defs[n].0
    {
      assert defs[..n][i] == defs[i];
    }
  }

  /** The definitions of every struct list each name once. */
  lemma DefinitionsDistinct(kindText: Kind -> string)
    ensures forall s :: DistinctNames(Definitions(s, kindText))
  {
  }

  /** One step of the preload: the next definition is new and takes the next slot. */
  lemma PreloadStep(s: string, defs: seq<Definition>, i: int, table: map<string, map<string, Token>>, isStatic: bool)
    requires DistinctNames(defs) && 0 <= i < |defs|
    ensures var before := PreloadTable(s, defs[..i], table, isStatic);
      MethodSlots(before) && |before| == i && defs[i].0 !in before
      && PreloadTable(s, defs[..i + 1], table, isStatic) == before[defs[i].0 := PreloadEntry(s, defs[i], table, isStatic, i)]
  {
    assert defs[..i + 1][..i] == defs[..i];
    PreloadTableKeys(s, defs[..i], table, isStatic);
    PreloadTableSlots(s, defs[..i], table, isStatic);
    NextNameIsNew(defs, i, PreloadTable(s, defs[..i], table, isStatic));
  }

  /**
   * The forEach of init over one struct's definitions: each predefined method
   * is added with addVoid, in order, so the struct ends with the preload
   * table; its constructor and attributes are untouched.
   */
  method Preload(s: Struct, defs: seq<Definition>, table: map<string, map<string, Token>>, isStatic: bool)
    requires DistinctNames(defs)
    requires s.Valid() && s.methods == map[]
    modifies s`methods, s`currentMethodIndex, s`structConstructor
    ensures s.Valid() && s.methods == PreloadTable(s.name, defs, table, isStatic)
    ensures s.structConstructor == old(s.structConstructor)
  {
    for i := 0 to |defs|
      invariant s.Valid() && s.methods == PreloadTable(s.name, defs[..i], table, isStatic)
      invariant s.structConstructor == old(s.structConstructor)
    {
      PreloadStep(s.name, defs, i, table, isStatic);
      var added := s.AddMethod(Token(IdObject, defs[i].0, 0, 0), defs[i].1, isStatic, ReturnOf(table, s.name, defs[i].0));
    }
    assert defs[..|defs|] == defs;
  }


  /** The definitions of every predefined struct, by name. */
  function DefinitionsOf(kindText: Kind -> string): (r: string -> seq<Definition>)
    ensures forall s :: r(s) == Definitions(s, kindText)
  {
    s => Definitions(s, kindText)
  }

  /** The tokens init creates the children of Object from, in its order. */
  const BuiltinTokens: seq<Token> := [
    Token(SpIO, "IO", 0, 0), Token(TypeArray, "Array Str", 0, 0), Token(TypeArray, "Array Bool", 0, 0),
    Token(TypeArray, "Array Int", 0, 0), Token(TypeArray, "Array Char", 0, 0), Token(TypeInt, "Int", 0, 0),
    Token(TypeStr, "Str", 0, 0), Token(TypeChar, "Char", 0, 0), Token(TypeBool, "Bool", 0, 0)]

  /**
   * The structs registered when the symbol table is built: Object, IO, the
   * four array types, Int, Str, Char and Bool; the bare Array is not one.
   */
  const BuiltinNames: set<string> := {"Object"} + KeysOf(BuiltinTokens)

  /** The names a sequence of tokens carries. */
  function KeysOf(ts: seq<Token>): (r: set<string>)
    ensures forall i :: 0 <= i < |ts| ==> ts[i].lexema in r
    ensures forall n :: n in r ==> exists i :: 0 <= i < |ts| && ts[i].lexema == n
  {
    if ts == [] then {} else KeysOf(ts[..|ts| - 1]) + {ts[|ts| - 1].lexema}
  }

  /** None of the builtin tokens is Object, which init creates first and apart. */
  lemma BuiltinTokensNotObject()
    ensures forall i :: 0 <= i < |BuiltinTokens| ==> BuiltinTokens[i].lexema != "Object"
    ensures "Object" !in KeysOf(BuiltinTokens) && BuiltinNames - {"Object"} == KeysOf(BuiltinTokens)
  {
    assert forall i :: 0 <= i < |BuiltinTokens| ==> BuiltinTokens[i].lexema != "Object";
  }

  /** The root as init creates it: Object, well formed, without a parent and with empty tables. */
  ghost predicate Root(o: Struct)
    reads o`parent, o`methods, o`currentMethodIndex, o`variables, o`currentVarIndex, o`structConstructor
  {
    o.name == "Object" && o.Valid() && o.parent == null && o.methods == map[] && o.variables == map[]
    && o.structConstructor.None?
  }

  /** A child of Object as init creates it: under its own name, childless, without attributes or constructor. */
  ghost predicate Shaped(c: Struct, n: string, o: Struct)
    reads c`methods, c`currentMethodIndex, c`variables, c`currentVarIndex, c`structConstructor, c`parent, c`childrens
  {
    c.name == n && c.Valid() && c.parent == o && c.childrens == map[] && c.variables == map[]
    && c.structConstructor.None?
  }

  /** A child of Object as init leaves it: shaped, and holding its preload table. */
  ghost predicate Preloaded(c: Struct, n: string, o: Struct, defsOf: string -> seq<Definition>,
                            table: map<string, map<string, Token>>)
    reads c
  {
    Shaped(c, n, o) && c.methods == PreloadTable(n, defsOf(n), table, n == "IO")
  }

  /** Every child of Object is shaped. */
  ghost predicate Shape(o: Struct)
    reads o, o.childrens.Values
  {
    forall n :: n in o.childrens ==> Shaped(o.childrens[n], n, o)
  }

  /** Every child of Object is preloaded. */
  ghost predicate Kids(o: Struct, defsOf: string -> seq<Definition>, table: map<string, map<string, Token>>)
    reads o, o.childrens.Values
  {
    forall n :: n in o.childrens ==> Preloaded(o.childrens[n], n, o, defsOf, table)
  }

  /**
   * One predefined struct is created under Object, registered with it and
   * given its predefined methods (static only on IO).
   */
  method CreateChild(token: Token, o: Struct, defsOf: string -> seq<Definition>,
                     table: map<string, map<string, Token>>)
    requires forall n :: DistinctNames(defsOf(n))
    requires Root(o) && Kids(o, defsOf, table) && token.lexema != "Object"
    modifies o`childrens
    ensures Root(o) && Kids(o, defsOf, table)
    ensures o.childrens.Keys == old(o.childrens.Keys) + {token.lexema}
  {
    ghost var before := o.childrens;
    var c := new Struct(token, o);
    Preload(c, defsOf(token.lexema), table, token.lexema == "IO");
    forall n | n in o.childrens
      ensures Preloaded(o.childrens[n], n, o, defsOf, table)
    {
      if n != token.lexema {
        assert o.childrens[n] == before[n];
      }
    }
  }

  /**
   * Init's construction of the predefined structs: Object first, then one
   * child per token, each registered with Object and given the methods
   * its definitions list, with return types from the table.
   */
  method CreateBuiltins(tokens: seq<Token>, defsOf: string -> seq<Definition>,
                        table: map<string, map<string, Token>>) returns (o: Struct)
    requires forall n :: DistinctNames(defsOf(n))
    requires forall i :: 0 <= i < |tokens| ==> tokens[i].lexema != "Object"
    ensures Root(o) && Kids(o, defsOf, table) && o.childrens.Keys == KeysOf(tokens)
  {
    o := new Struct(Token(SpObject, "Object", 0, 0), null);
    for i := 0 to |tokens|
      invariant Root(o) && Kids(o, defsOf, table) && o.childrens.Keys == KeysOf(tokens[..i])
    {
      assert tokens[..i + 1][..i] == tokens[..i];
      CreateChild(tokens[i], o, defsOf, table);
    }
    assert tokens[..|tokens|] == tokens;
  }

  /** Init's predefined structs: Object and its nine children, each with its predefined methods. */
  method InitBuiltins(kindText: Kind -> string) returns (o: Struct)
    ensures Root(o) && Kids(o, DefinitionsOf(kindText), Returns(kindText))
    ensures o.childrens.Keys == BuiltinNames - {"Object"} && "Object" !in o.childrens
  {
    BuiltinTokensNotObject();
    DefinitionsDistinct(kindText);
    o := CreateBuiltins(BuiltinTokens, DefinitionsOf(kindText), Returns(kindText));
  }

  /** The predefined structs as the symbol table registers them: Object and its nine shaped children. */
  method BuiltinStructs(kindText: Kind -> string) returns (o: Struct)
    ensures Root(o) && Shape(o)
    ensures o.childrens.Keys == BuiltinNames - {"Object"} && "Object" !in o.childrens
  {
    o := InitBuiltins(kindText);
    assert forall n :: n in o.childrens ==> Preloaded(o.childrens[n], n, o, DefinitionsOf(kindText), Returns(kindText));
  }

}
