// The type-checking protocol of the AST nodes in
// src/lib/semanticHelper/astHelper/sentences: the result types of
// Expression.java, the operand rules of UnaryExpression.java, the constant
// typing and chains of SimpleAccess.java, the conditions of Conditional.java
// and Loop.java, and the values and labels their generated code works with.
module Ast {
  import opened Wrappers
  import opened Tokens
  import SymbolTables

  // ---------------------------------------------------------------------
  // Nodes

  /**
   * The result type a node holds. Most nodes store a type token; unary
   * expressions and constants store a bare type name, which stands for both
   * its lexeme and its kind name. `Unset` is the null of a node that has not
   * been consolidated.
   */
  datatype TypeTag = Unset | OfToken(token: Token) | Named(text: string)

  /**
   * Expression nodes. `Access` is a SimpleAccess, whose `chain` is the
   * primary after the dot; `Opaque` is a node of a kind outside this model
   * (binary expressions, CreateInstance, calls), typed by the context.
   * `hasTable` records that the node stored the symbol table (setSymbolTable).
   */
  datatype Expr =
    | Access(identifier: Token, chain: Option<Expr>, resultType: TypeTag, position: int, hasTable: bool)
    | Unary(identifier: Token, operator: Kind, operand: Expr, resultType: TypeTag, position: int, hasTable: bool)
    | Opaque(identifier: Token, resultType: TypeTag, position: int, hasTable: bool)

  /** Sentence nodes; `OpaqueSentence` is a sentence of a kind outside this model. */
  datatype Sentence =
    | Conditional(identifier: Token, condition: Expr, thenBlock: Sentence, elseBlock: Option<Sentence>, hasTable: bool)
    | Loop(identifier: Token, condition: Expr, body: Sentence, hasTable: bool)
    | ExprSentence(expr: Expr)
    | OpaqueSentence(identifier: Token, hasTable: bool)

  /** The struct and method whose body is being checked. */
  datatype Scope = Scope(structName: string, methodName: string, isStatic: bool)

  /**
   * What the checks take from code outside this model: the kind texts
   * (IDToken.toString), Static.getPrimitiveDataType, the identifier lookup
   * of Primary.variableMethodExist (given the left expression), and the
   * consolidation of node kinds outside this model.
   */
  datatype Context = Context(
    kindText: Kind -> string,
    primitive: string -> string,
    lookup: (Scope, Option<Expr>, Token) -> Option<Token>,
    typeOpaque: (Scope, Option<Expr>, Token) -> Option<Token>,
    acceptsOpaque: (Scope, Token) -> bool)

  datatype TypeError =
    | SelfInStatic(at: Token)
    | Unresolved(at: Token)
    | MissingType(at: Token)
    | CompoundOperand(at: Token)
    | LiteralOperand(at: Token)
    | ArrayOperand(at: Token)
    | ExpectedBool(at: Token)
    | ExpectedInt(at: Token)
    | ExpectedIntOrBool(at: Token)
    | ConditionNotBool(at: Token)
    | LoopConditionNotBool(at: Token)
    | Rejected(at: Token)

  // ---------------------------------------------------------------------
  // Expression.java: result types and position

  function Lexeme(t: TypeTag): Option<string>
  {
    match t
    case Unset => None
    case OfToken(tok) => Some(tok.lexema)
    case Named(s) => Some(s)
  }

  function KindName(t: TypeTag, kindText: Kind -> string): Option<string>
  {
    match t
    case Unset => None
    case OfToken(tok) => Some(kindText(tok.name))
    case Named(s) => Some(s)
  }

  /** getResultType: the lexeme of the node's own result type. */
  function ResultType(e: Expr): Option<string>
  {
    Lexeme(e.resultType)
  }

  /** getResultTypeChained: the kind name of the result type at the end of the chain. */
  function ResultTypeChained(e: Expr, kindText: Kind -> string): Option<string>
  {
    if e.Access? && e.chain.Some? then ResultTypeChained(e.chain.value, kindText)
    else KindName(e.resultType, kindText)
  }

  /** The links of a chain, from this node to the last one. */
  function Links(e: Expr): (r: seq<Expr>)
    ensures |r| >= 1 && r[0] == e
    ensures forall i :: 0 <= i < |r| - 1 ==> r[i].Access? && r[i].chain == Some(r[i + 1])
    ensures !r[|r| - 1].Access? || r[|r| - 1].chain.None?
  {
    if e.Access? && e.chain.Some? then [e] + Links(e.chain.value) else [e]
  }

  /** The chained result type is the kind name of the last link's own result type. */
  lemma {:induction false} ChainedTypeIsLastLink(e: Expr, kindText: Kind -> string)
    ensures var links := Links(e);
            ResultTypeChained(e, kindText) == KindName(links[|links| - 1].resultType, kindText)
  {
    if e.Access? && e.chain.Some? {
      ChainedTypeIsLastLink(e.chain.value, kindText);
    }
  }

  /** Without a chain, the chained result type is the kind name and the plain one the lexeme. */
  lemma UnchainedResultTypes(e: Expr, t: Token, kindText: Kind -> string)
    requires e.resultType == OfToken(t) && (e.Access? ==> e.chain.None?)
    ensures ResultTypeChained(e, kindText) == Some(kindText(t.name))
    ensures ResultType(e) == Some(t.lexema)
  {
  }

  /** setResultType: only the result type changes. */
  /** The node with another result type. */
  function WithType(e: Expr, t: TypeTag): Expr
  {
    match e
    case Access(id, chain, _, pos, table) => Access(id, chain, t, pos, table)
    case Unary(id, op, operand, _, pos, table) => Unary(id, op, operand, t, pos, table)
    case Opaque(id, _, pos, table) => Opaque(id, t, pos, table)
  }

  function SetResultType(e: Expr, t: Token): (r: Expr)
    ensures r.resultType == OfToken(t)
    ensures r.identifier == e.identifier && r.position == e.position && r.hasTable == e.hasTable
    ensures e.Access? ==> r.Access? && r.chain == e.chain
    ensures e.Unary? ==> r.Unary? && r.operator == e.operator && r.operand == e.operand
    ensures e.Opaque? ==> r.Opaque?
  {
    WithType(e, OfToken(t))
  }

  /** setPosition: only the position changes. */
  function SetPosition(e: Expr, n: int): (r: Expr)
    ensures r.position == n
    ensures r.identifier == e.identifier && r.resultType == e.resultType && r.hasTable == e.hasTable
    ensures e.Access? ==> r.Access? && r.chain == e.chain
    ensures e.Unary? ==> r.Unary? && r.operator == e.operator && r.operand == e.operand
    ensures e.Opaque? ==> r.Opaque?
  {
    match e
    case Access(id, chain, t, _, table) => Access(id, chain, t, n, table)
    case Unary(id, op, operand, t, _, table) => Unary(id, op, operand, t, n, table)
    case Opaque(id, t, _, table) => Opaque(id, t, n, table)
  }

  /** setResultType then getResultType gives back the token's lexeme; a later setter wins. */
  lemma ResultTypeRoundTrip(e: Expr, t: Token, u: Token)
    ensures ResultType(SetResultType(e, t)) == Some(t.lexema)
    ensures SetResultType(SetResultType(e, t), u) == SetResultType(e, u)
    ensures SetResultType(e, t).position == e.position
  {
  }

  /** setPosition then getPosition gives back the position; a later setter wins. */
  lemma PositionRoundTrip(e: Expr, n: int, m: int)
    ensures SetPosition(e, n).position == n
    ensures SetPosition(SetPosition(e, n), m) == SetPosition(e, m)
    ensures ResultType(SetPosition(e, n)) == ResultType(e)
  {
  }

  // ---------------------------------------------------------------------
  // What consolidation leaves behind

  /** A node with its annotations (result type, symbol table) erased. */
  function Bare(e: Expr): Expr
  {
    match e
    case Access(id, chain, _, pos, _) =>
      Access(id, if chain.Some? then Some(Bare(chain.value)) else None, Unset, pos, false)
    case Unary(id, op, operand, _, pos, _) => Unary(id, op, Bare(operand), Unset, pos, false)
    case Opaque(id, _, pos, _) => Opaque(id, Unset, pos, false)
  }

  /** Every node of the expression holds a result type and the symbol table. */
  ghost predicate Typed(e: Expr)
  {
    e.resultType != Unset && e.hasTable
    && (e.Access? && e.chain.Some? ==> Typed(e.chain.value))
    && (e.Unary? ==> Typed(e.operand))
  }

  function BareSentence(s: Sentence): Sentence
  {
    match s
    case Conditional(id, c, t, e, _) =>
      Conditional(id, Bare(c), BareSentence(t), if e.Some? then Some(BareSentence(e.value)) else None, false)
    case Loop(id, c, b, _) => Loop(id, Bare(c), BareSentence(b), false)
    case ExprSentence(e) => ExprSentence(Bare(e))
    case OpaqueSentence(id, _) => OpaqueSentence(id, false)
  }

  ghost predicate Settled(s: Sentence)
  {
    match s
    case Conditional(_, c, t, e, table) => table && Typed(c) && Settled(t) && (e.Some? ==> Settled(e.value))
    case Loop(_, c, b, table) => table && Typed(c) && Settled(b)
    case ExprSentence(e) => Typed(e)
    case OpaqueSentence(_, table) => table
  }

  // ---------------------------------------------------------------------
  // SimpleAccess.java

  /** String.contains. */
  predicate Contains(s: string, part: string)
    decreases |s|
  {
    |part| <= |s| && (s[..|part|] == part || Contains(s[1..], part))
  }

  /**
   * The result type of a constant, from the text of its kind: a literal
   * keeps its kind text, nil is "NIL" and true/false are "Bool"; None for an
   * identifier that has to be looked up.
   */
  function ConstantType(idText: string): (r: Option<string>)
    ensures r.None? <==> !Contains(idText, "literal") && !Contains(idText, "false")
                         && !Contains(idText, "true") && !Contains(idText, "nil")
    ensures Contains(idText, "literal") ==> r == Some(idText)
    ensures !Contains(idText, "literal") && Contains(idText, "nil") ==> r == Some("NIL")
    ensures !Contains(idText, "literal") && !Contains(idText, "nil") && r.Some? ==> r == Some("Bool")
  {
    if !Contains(idText, "literal") && !Contains(idText, "false") && !Contains(idText, "true") && !Contains(idText, "nil") then None
    else if Contains(idText, "literal") then Some(idText)
    else if Contains(idText, "nil") then Some("NIL")
    else Some("Bool")
  }

  /** The result type an access takes: its constant type, or what the lookup finds. */
  function AccessType(e: Expr, scope: Scope, left: Option<Expr>, ctx: Context): Option<TypeTag>
    requires e.Access?
  {
    match ConstantType(ctx.kindText(e.identifier.name))
    case Some(text) => Some(Named(text))
    case None =>
      match ctx.lookup(scope, left, e.identifier)
      case Some(t) => Some(OfToken(t))
      case None => None
  }

  /**
   * consolidate of an expression node; `left` is the expression before the
   * dot. Consolidation only annotates: the result has the same shape and
   * every node of it is typed.
   */
  function ConsolidateExpr(e: Expr, scope: Scope, left: Option<Expr>, ctx: Context): (r: Result<Expr, TypeError>)
    ensures r.Ok? ==> Typed(r.value) && Bare(r.value) == Bare(e)
    ensures e.Access? && ctx.kindText(e.identifier.name) == "self" && scope.isStatic ==>
              r == Err(SelfInStatic(e.identifier))
  {
    match e
    case Access(id, chain, _, pos, table) =>
      if ctx.kindText(id.name) == "self" && scope.isStatic then Err(SelfInStatic(id))
      else
        var tag := AccessType(e, scope, left, ctx);
        if tag.None? then Err(Unresolved(id))
        else if chain.None? then Ok(Access(id, None, tag.value, pos, true))
        else
          var c := ConsolidateExpr(chain.value, scope, Some(Access(id, chain, tag.value, pos, table)), ctx);
          if c.Err? then Err(c.error) else Ok(Access(id, Some(c.value), tag.value, pos, true))
    case Unary(id, op, operand, _, pos, _) =>
      var o := ConsolidateExpr(operand, scope, left, ctx);
      if o.Err? then Err(o.error)
      else
        var ty := CheckUnary(id, op, o.value, ctx);
        if ty.Err? then Err(ty.error)
        else
          var text := if op == OSumSum || op == OSubSub then "literal Int" else ty.value;
          Ok(Unary(id, op, o.value, Named(text), pos, true))
    case Opaque(id, _, pos, _) =>
      var t := ctx.typeOpaque(scope, left, id);
      if t.None? then Err(Rejected(id)) else Ok(Opaque(id, OfToken(t.value), pos, true))
  }

  /** A constant skips the lookup: its type is fixed by its kind text alone. */
  lemma ConstantAccessTypes(e: Expr, scope: Scope, left: Option<Expr>, ctx: Context)
    requires e.Access? && e.chain.None?
    requires ConstantType(ctx.kindText(e.identifier.name)).Some?
    requires !(ctx.kindText(e.identifier.name) == "self" && scope.isStatic)
    ensures var text := ctx.kindText(e.identifier.name);
            var r := ConsolidateExpr(e, scope, left, ctx);
            r.Ok? && ResultType(r.value) == ConstantType(text) && ResultTypeChained(r.value, ctx.kindText) == ConstantType(text)
    ensures forall lookup :: ConsolidateExpr(e, scope, left, ctx.(lookup := lookup)) == ConsolidateExpr(e, scope, left, ctx)
  {
  }

  /** Any other identifier is typed by the lookup, and fails when the lookup finds nothing. */
  lemma IdentifierAccessTypes(e: Expr, scope: Scope, left: Option<Expr>, ctx: Context)
    requires e.Access? && e.chain.None?
    requires ConstantType(ctx.kindText(e.identifier.name)).None?
    requires !(ctx.kindText(e.identifier.name) == "self" && scope.isStatic)
    ensures var r := ConsolidateExpr(e, scope, left, ctx);
            match ctx.lookup(scope, left, e.identifier)
            case None => r == Err(Unresolved(e.identifier))
            case Some(t) => r.Ok? && r.value.resultType == OfToken(t)
  {
  }

  /**
   * A chain is consolidated with this node, already typed, as its left
   * expression, and the type of the whole is the type of the chain.
   */
  lemma ChainTakesSuffixType(e: Expr, scope: Scope, left: Option<Expr>, ctx: Context)
    requires e.Access? && e.chain.Some?
    requires ConsolidateExpr(e, scope, left, ctx).Ok?
    ensures var r := ConsolidateExpr(e, scope, left, ctx).value;
            var suffix := ConsolidateExpr(e.chain.value, scope, Some(WithType(e, r.resultType)), ctx);
            suffix.Ok? && r.chain == Some(suffix.value)
            && ResultTypeChained(r, ctx.kindText) == ResultTypeChained(suffix.value, ctx.kindText)
  {
  }

  // ---------------------------------------------------------------------
  // UnaryExpression.java: checkType

  /**
   * The operand rules, in the order they are checked: the operand must have
   * a type, be a SimpleAccess, not be a literal unless the operator is + or
   * -, not be an array; then an Int takes any operator but !, a Bool only !,
   * and every other type is refused. On success, the operand's chained type.
   */
  function CheckUnary(id: Token, op: Kind, operand: Expr, ctx: Context): (r: Result<string, TypeError>)
    ensures r.Ok? ==> ResultTypeChained(operand, ctx.kindText) == Some(r.value)
  {
    match ResultTypeChained(operand, ctx.kindText)
    case None => Err(MissingType(id))
    case Some(ty) =>
      if !operand.Access? then Err(CompoundOperand(id))
      else if Contains(ty, "literal") && op != OSum && op != OSub then Err(LiteralOperand(id))
      else if Contains(ty, "Array") then Err(ArrayOperand(id))
      else
        var p := ctx.primitive(ty);
        if p == "Int" then (if op == ONot then Err(ExpectedBool(id)) else Ok(ty))
        else if p == "Bool" then (if op != ONot then Err(ExpectedInt(id)) else Ok(ty))
        else Err(ExpectedIntOrBool(id))
  }

  /** The operand/operator pairs a unary expression accepts, stated per operator. */
  ghost predicate UnaryAccepts(op: Kind, operand: Expr, ctx: Context)
  {
    operand.Access? && ResultTypeChained(operand, ctx.kindText).Some?
    && var ty := ResultTypeChained(operand, ctx.kindText).value;
       var p := ctx.primitive(ty);
       !Contains(ty, "Array")
       && (op == ONot ==> !Contains(ty, "literal") && p == "Bool")
       && (op == OSum || op == OSub ==> p == "Int")
       && (op != ONot && op != OSum && op != OSub ==> !Contains(ty, "literal") && p == "Int")
  }

  /** checkType succeeds exactly on the accepted pairs. */
  lemma CheckUnaryAccepts(id: Token, op: Kind, operand: Expr, ctx: Context)
    ensures CheckUnary(id, op, operand, ctx).Ok? <==> UnaryAccepts(op, operand, ctx)
  {
    if UnaryAccepts(op, operand, ctx) {
      var ty := ResultTypeChained(operand, ctx.kindText).value;
      assert ctx.primitive(ty) == "Int" || ctx.primitive(ty) == "Bool";
    }
  }

  /** A compound operand is refused before any other rule. */
  lemma CompoundOperandFirst(id: Token, op: Kind, operand: Expr, ctx: Context)
    requires !operand.Access? && ResultTypeChained(operand, ctx.kindText).Some?
    ensures CheckUnary(id, op, operand, ctx) == Err(CompoundOperand(id))
  {
  }

  /**
   * The result type of a unary expression: "literal Int" after ++ and --,
   * otherwise the operand's chained type; the operand is consolidated with
   * the same left expression.
   */
  lemma UnaryResultType(e: Expr, scope: Scope, left: Option<Expr>, ctx: Context)
    requires e.Unary?
    requires ConsolidateExpr(e, scope, left, ctx).Ok?
    ensures var r := ConsolidateExpr(e, scope, left, ctx).value;
            var o := ConsolidateExpr(e.operand, scope, left, ctx);
            o.Ok? && r.operand == o.value && UnaryAccepts(e.operator, o.value, ctx)
            && (e.operator == OSumSum || e.operator == OSubSub ==> ResultType(r) == Some("literal Int"))
            && (e.operator != OSumSum && e.operator != OSubSub ==>
                  ResultType(r) == ResultTypeChained(o.value, ctx.kindText))
  {
    var o := ConsolidateExpr(e.operand, scope, left, ctx);
    CheckUnaryAccepts(e.identifier, e.operator, o.value, ctx);
  }

  // ---------------------------------------------------------------------
  // Conditional.java and Loop.java

  /** The condition test of Conditional: the chained type is the text of typeBOOL. */
  predicate IsBoolCondition(c: Expr, kindText: Kind -> string)
  {
    ResultTypeChained(c, kindText) == Some(kindText(TypeBool))
  }

  /** The condition test of Loop as written: the lexeme of the node's own result type is "Bool". */
  predicate IsLoopConditionAsWritten(c: Expr)
  {
    ResultType(c) == Some("Bool")
  }

  /**
   * consolidate of a sentence. The condition comes first with no left
   * expression, then its type, then the branches in order; the first error
   * wins. A loop condition is tested like a conditional's (see
   * ConsolidateLoopAsWritten for the test as written).
   */
  function ConsolidateSentence(s: Sentence, scope: Scope, ctx: Context): (r: Result<Sentence, TypeError>)
    ensures r.Ok? ==> Settled(r.value) && BareSentence(r.value) == BareSentence(s)
  {
    match s
    case Conditional(id, c, t, e, _) =>
      var c' := ConsolidateExpr(c, scope, None, ctx);
      if c'.Err? then Err(c'.error)
      else if !IsBoolCondition(c'.value, ctx.kindText) then Err(ConditionNotBool(id))
      else
        var t' := ConsolidateSentence(t, scope, ctx);
        if t'.Err? then Err(t'.error)
        else if e.None? then Ok(Conditional(id, c'.value, t'.value, None, true))
        else
          var e' := ConsolidateSentence(e.value, scope, ctx);
          if e'.Err? then Err(e'.error) else Ok(Conditional(id, c'.value, t'.value, Some(e'.value), true))
    case Loop(id, c, b, _) =>
      var c' := ConsolidateExpr(c, scope, None, ctx);
      if c'.Err? then Err(c'.error)
      else if !IsBoolCondition(c'.value, ctx.kindText) then Err(LoopConditionNotBool(id))
      else
        var b' := ConsolidateSentence(b, scope, ctx);
        if b'.Err? then Err(b'.error) else Ok(Loop(id, c'.value, b'.value, true))
    case ExprSentence(e) =>
      var e' := ConsolidateExpr(e, scope, None, ctx);
      if e'.Err? then Err(e'.error) else Ok(ExprSentence(e'.value))
    case OpaqueSentence(id, _) =>
      if ctx.acceptsOpaque(scope, id) then Ok(OpaqueSentence(id, true)) else Err(Rejected(id))
  }

  /**
   * Loop.consolidate as written: the condition is tested by its own
   * result-type lexeme. Only this outermost loop is as written: its body goes
   * through the corrected ConsolidateSentence, so a `while` nested inside it
   * is checked the corrected way.
   */
  function ConsolidateLoopAsWritten(s: Sentence, scope: Scope, ctx: Context): (r: Result<Sentence, TypeError>)
    requires s.Loop?
    ensures r.Ok? ==> Settled(r.value) && BareSentence(r.value) == BareSentence(s)
  {
    var c' := ConsolidateExpr(s.condition, scope, None, ctx);
    if c'.Err? then Err(c'.error)
    else if !IsLoopConditionAsWritten(c'.value) then Err(LoopConditionNotBool(s.identifier))
    else
      var b' := ConsolidateSentence(s.body, scope, ctx);
      if b'.Err? then Err(b'.error) else Ok(Loop(s.identifier, c'.value, b'.value, true))
  }

  /**
   * A conditional is accepted exactly when its condition consolidates to
   * the Bool type and its then-block and its else-block, if any, are
   * accepted.
   */
  lemma ConditionalAccepted(s: Sentence, scope: Scope, ctx: Context)
    requires s.Conditional?
    ensures ConsolidateSentence(s, scope, ctx).Ok? <==>
              var c := ConsolidateExpr(s.condition, scope, None, ctx);
              c.Ok? && IsBoolCondition(c.value, ctx.kindText)
              && ConsolidateSentence(s.thenBlock, scope, ctx).Ok?
              && (s.elseBlock.Some? ==> ConsolidateSentence(s.elseBlock.value, scope, ctx).Ok?)
  {
  }

  /** A condition that is not Bool is reported before anything in either branch. */
  lemma ConditionCheckedBeforeBranches(s: Sentence, scope: Scope, ctx: Context)
    requires s.Conditional? || s.Loop?
    requires var c := ConsolidateExpr(s.condition, scope, None, ctx);
             c.Ok? && !IsBoolCondition(c.value, ctx.kindText)
    ensures ConsolidateSentence(s, scope, ctx) ==
              if s.Conditional? then Err(ConditionNotBool(s.identifier)) else Err(LoopConditionNotBool(s.identifier))
  {
  }

  /** A loop is accepted exactly when its condition consolidates to the Bool type and its body is accepted. */
  lemma LoopAccepted(s: Sentence, scope: Scope, ctx: Context)
    requires s.Loop?
    ensures ConsolidateSentence(s, scope, ctx).Ok? <==>
              var c := ConsolidateExpr(s.condition, scope, None, ctx);
              c.Ok? && IsBoolCondition(c.value, ctx.kindText) && ConsolidateSentence(s.body, scope, ctx).Ok?
  {
  }

  /** Kind texts in which only typeBOOL matters: it reads "Bool". */
  function ExampleKindText(k: Kind): string
  {
    if k == TypeBool then "Bool" else "id"
  }

  /** A lookup where variable `p` is of struct type P and every other name is a Bool. */
  function ExampleLookup(scope: Scope, left: Option<Expr>, t: Token): Option<Token>
  {
    if t.lexema == "p" then Some(Token(IdStruct, "P", 0, 0)) else Some(Token(TypeBool, "Bool", 0, 0))
  }

  function ExampleOpaque(scope: Scope, left: Option<Expr>, t: Token): Option<Token>
  {
    None
  }

  function ExampleAccepts(scope: Scope, t: Token): bool
  {
    true
  }

  function ExamplePrimitive(ty: string): string
  {
    ty
  }

  /**
   * `while (p.done) ...` with `done` a Bool attribute is refused as written,
   * because the loop reads the type of `p`, while `if (p.done) ...` is accepted.
   */
  lemma LoopRefusesChainedBool()
    ensures var ctx := Context(ExampleKindText, ExamplePrimitive, ExampleLookup, ExampleOpaque, ExampleAccepts);
            var scope := Scope("Main", "run", false);
            var done := Access(Token(IdObject, "done", 1, 9), None, Unset, 0, false);
            var cond := Access(Token(IdObject, "p", 1, 7), Some(done), Unset, 0, false);
            var body := OpaqueSentence(Token(SKeyOpen, "{", 1, 14), false);
            var loop := Loop(Token(PWhile, "while", 1, 1), cond, body, false);
            ConsolidateLoopAsWritten(loop, scope, ctx) == Err(LoopConditionNotBool(loop.identifier))
            && ConsolidateSentence(loop, scope, ctx).Ok?
            && ConsolidateSentence(Conditional(Token(PIf, "if", 1, 1), cond, body, None, false), scope, ctx).Ok?
  {
    var ctx := Context(ExampleKindText, ExamplePrimitive, ExampleLookup, ExampleOpaque, ExampleAccepts);
    var scope := Scope("Main", "run", false);
    var pToken := Token(IdObject, "p", 1, 7);
    var doneToken := Token(IdObject, "done", 1, 9);
    var structP := Token(IdStruct, "P", 0, 0);
    var boolType := Token(TypeBool, "Bool", 0, 0);
    var done := Access(doneToken, None, Unset, 0, false);
    var cond := Access(pToken, Some(done), Unset, 0, false);
    assert ctx.kindText(IdObject) == "id" && ctx.kindText(TypeBool) == "Bool";
    assert ConstantType("id").None? by {
      assert !Contains("id", "literal") && !Contains("id", "false") && !Contains("id", "true") && !Contains("id", "nil");
    }
    assert ctx.lookup(scope, None, pToken) == Some(structP);
    var pTyped := Access(pToken, Some(done), OfToken(structP), 0, false);
    assert ctx.lookup(scope, Some(pTyped), doneToken) == Some(boolType);
    var doneDone := Access(doneToken, None, OfToken(boolType), 0, true);
    assert ConsolidateExpr(done, scope, Some(pTyped), ctx) == Ok(doneDone);
    var condDone := Access(pToken, Some(doneDone), OfToken(structP), 0, true);
    assert ConsolidateExpr(cond, scope, None, ctx) == Ok(condDone);
    assert !IsLoopConditionAsWritten(condDone);
    assert IsBoolCondition(condDone, ctx.kindText);
  }

  // ---------------------------------------------------------------------
  // Generated code: values, operators and labels

  const MinInt32: int := -0x8000_0000
  const MaxInt32: int := 0x7FFF_FFFF

  predicate IsInt32(v: int)
  {
    MinInt32 <= v <= MaxInt32
  }

  /** The 32-bit two's-complement value of x, as a MIPS register holds it. */
  function Wrap32(x: int): (r: int)
    ensures IsInt32(r) && (x - r) % 0x1_0000_0000 == 0
    ensures IsInt32(x) ==> r == x
  {
    var m := x % 0x1_0000_0000;
    if m > MaxInt32 then m - 0x1_0000_0000 else m
  }

  /** The value a constant loads: true is 1, false is 0, an int is its lexeme read as a number. */
  function ConstantValue(t: Token): Option<int>
  {
    match t.name
    case PTrue => Some(1)
    case PFalse => Some(0)
    case ConstInt =>
      if |t.lexema| >= 1
         && (t.lexema[0] == '-' ==> forall i :: 1 <= i < |t.lexema| ==> '0' <= t.lexema[i] <= '9')
         && (t.lexema[0] != '-' ==> forall i :: 0 <= i < |t.lexema| ==> '0' <= t.lexema[i] <= '9')
      then Some(IntValue(t.lexema)) else None
    case _ => None
  }

  /** The truth a branch reads from a value: `bne $v0, 1` takes the then-path only on 1. */
  predicate Truth(v: int)
  {
    v == 1
  }

  /** The constants load values that the branches read back as the booleans they denote. */
  lemma ConstantValueRoundTrip(i: int, line: int, column: int)
    ensures ConstantValue(Token(ConstInt, IntText(i), line, column)) == Some(i)
    ensures Truth(ConstantValue(Token(PTrue, "true", line, column)).value)
    ensures !Truth(ConstantValue(Token(PFalse, "false", line, column)).value)
  {
    IntTextRoundTrip(i);
    var s := IntText(i);
    if i < 0 {
      assert s == "-" + NatText(-i);
      assert forall k :: 1 <= k < |s| ==> s[k] == NatText(-i)[k - 1];
    }
  }

  /** `not` on a 32-bit register. */
  function BitNot(v: int): int
  {
    -v - 1
  }

  /** The effect of a unary operator on the stored value, as generated: `!` is a bitwise not. */
  function UnaryEffectAsWritten(op: Kind, v: int): (r: int)
    requires IsInt32(v)
    ensures IsInt32(r)
  {
    match op
    case ONot => BitNot(v)
    case OSumSum => Wrap32(v + 1)
    case OSubSub => Wrap32(v - 1)
    case OSub => Wrap32(-v)
    case _ => v
  }

  /** The value of a boolean, as true and false load. */
  function BoolValue(b: bool): int
  {
    if b then 1 else 0
  }

  /** The effect of a unary operator with `!` as a logical not; the other operators as generated. */
  function UnaryEffect(op: Kind, v: int): (r: int)
    requires IsInt32(v)
    ensures IsInt32(r)
    ensures op != ONot ==> r == UnaryEffectAsWritten(op, v)
  {
    match op
    case ONot => BoolValue(!Truth(v))
    case _ => UnaryEffectAsWritten(op, v)
  }

  /**
   * As generated, `!b` on a Bool variable holding 0 stores -1 back; code that
   * loads that value and compares it with 1 reads it as false again.
   */
  lemma NotFalseReadsFalse()
    ensures UnaryEffectAsWritten(ONot, BoolValue(false)) == -1
    ensures !Truth(UnaryEffectAsWritten(ONot, BoolValue(false)))
    ensures !Truth(UnaryEffectAsWritten(ONot, BoolValue(true)))
  {
  }

  /** `!` negates what a branch reads, and maps booleans to booleans. */
  lemma NotNegates(v: int, b: bool)
    requires IsInt32(v)
    ensures Truth(UnaryEffect(ONot, v)) == !Truth(v)
    ensures UnaryEffect(ONot, BoolValue(b)) == BoolValue(!b)
  {
  }

  /** ++ and -- undo each other, wrap-around included. */
  lemma IncDecRoundTrip(v: int)
    requires IsInt32(v)
    ensures UnaryEffect(OSubSub, UnaryEffect(OSumSum, v)) == v
    ensures UnaryEffect(OSumSum, UnaryEffect(OSubSub, v)) == v
  {
    if v == MaxInt32 {
      assert Wrap32(v + 1) == MinInt32 && Wrap32(MinInt32 - 1) == MaxInt32;
    } else {
      assert Wrap32(v + 1) == v + 1;
    }
    if v == MinInt32 {
      assert Wrap32(v - 1) == MaxInt32 && Wrap32(MaxInt32 + 1) == MinInt32;
    } else {
      assert Wrap32(v - 1) == v - 1;
    }
  }

  /** Negation is its own inverse and + changes nothing; the bitwise not as written is its own inverse too. */
  lemma NegationInvolutive(v: int)
    requires IsInt32(v)
    ensures UnaryEffect(OSub, UnaryEffect(OSub, v)) == v
    ensures UnaryEffect(OSum, v) == v
    ensures UnaryEffectAsWritten(ONot, UnaryEffectAsWritten(ONot, v)) == v
  {
    if v == MinInt32 {
      assert Wrap32(-v) == MinInt32;
    }
  }

  /** The label text of counter n with the given prefix. */
  function Label(prefix: string, n: int): string
  {
    prefix + IntText(n)
  }

  /** Labels of one family never repeat, and the four families never meet. */
  lemma LabelsDistinct(n: int, m: int)
    ensures Label("else", n) == Label("else", m) ==> n == m
    ensures Label("endIfElse", n) == Label("endIfElse", m) ==> n == m
    ensures Label("while", n) == Label("while", m) ==> n == m
    ensures Label("endWhile", n) == Label("endWhile", m) ==> n == m
    ensures Label("else", n) != Label("endIfElse", m) && Label("while", n) != Label("endWhile", m)
    ensures Label("else", n) != Label("while", m) && Label("else", n) != Label("endWhile", m)
    ensures Label("endIfElse", n) != Label("while", m) && Label("endIfElse", n) != Label("endWhile", m)
  {
    IntTextRoundTrip(n);
    IntTextRoundTrip(m);
    PrefixDetermines("else", n, m);
    PrefixDetermines("endIfElse", n, m);
    PrefixDetermines("while", n, m);
    PrefixDetermines("endWhile", n, m);
    assert Label("else", n)[1] != Label("endIfElse", m)[1];
    assert Label("while", n)[0] != Label("endWhile", m)[0];
    assert Label("else", n)[0] != Label("while", m)[0];
    assert Label("else", n)[1] != Label("endWhile", m)[1];
    assert Label("endIfElse", n)[0] != Label("while", m)[0];
    assert Label("endIfElse", n)[3] != Label("endWhile", m)[3];
  }

  lemma PrefixDetermines(prefix: string, n: int, m: int)
    ensures Label(prefix, n) == Label(prefix, m) ==> n == m
  {
    if Label(prefix, n) == Label(prefix, m) {
      assert IntText(n) == Label(prefix, n)[|prefix|..];
      assert IntText(m) == Label(prefix, m)[|prefix|..];
      IntTextRoundTrip(n);
      IntTextRoundTrip(m);
    }
  }

  /** The labels of a conditional's code: a fresh counter n gives else<n> and endIfElse<n>. */
  method ConditionalLabels(st: SymbolTables.SymbolTable) returns (elseLabel: string, endLabel: string)
    modifies st`conditionalCounter
    ensures st.conditionalCounter == old(st.conditionalCounter) + 1
    ensures elseLabel == Label("else", st.conditionalCounter) && endLabel == Label("endIfElse", st.conditionalCounter)
  {
    var n := st.AddConditionalSentenceCounter();
    elseLabel := Label("else", n);
    endLabel := Label("endIfElse", n);
  }

  /** The labels of a loop's code: a fresh counter n gives while<n>, jumped back to, and endWhile<n>. */
  method LoopLabels(st: SymbolTables.SymbolTable) returns (startLabel: string, endLabel: string)
    modifies st`loopCounter
    ensures st.loopCounter == old(st.loopCounter) + 1
    ensures startLabel == Label("while", st.loopCounter) && endLabel == Label("endWhile", st.loopCounter)
  {
    var n := st.AddLoopSentenceCounter();
    startLabel := Label("while", n);
    endLabel := Label("endWhile", n);
  }
}
