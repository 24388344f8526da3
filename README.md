# A verified model of the front end of compilador-2024

This project models the front end of compilador-2024. That compiler is written in Java and
translates a small object language (structs with `impl` blocks, single inheritance under
`Object`, a `start` method) to MIPS assembly. The model covers four parts.

- **The lexical analyser** (`LexicalAnalyzer`, module `Lexer`). It is a character-level state
  machine over the lines of the source file. The model covers:
  - reserved words (`Const`, module `Keywords`);
  - one- and two-character operators, with maximal munch;
  - identifiers, and integer constants with their leading zeros stripped;
  - char and string literals, with their escapes and error cases;
  - `/?` comments.
- **The symbol table** (`SymbolTable`, `Struct`, module `SymbolTables` and `Structs`).
  - It registers structs, attributes and methods. Every method and attribute gets a slot (its
    position in the virtual table and in the instance).
  - It records parents that are not declared yet and types that are still pending.
  - It detects cyclic inheritance.
  - Consolidation merges each parent's methods and attributes into its children. The slots of
    inherited members are kept and the child's own members are renumbered after them.
- **The routing layer** (`SemanticManager`, module `Semantic`). It remembers the current struct
  and method, and the `start` method.
- **The type checking of expressions and sentences** (module `Ast`). This covers simple accesses
  (`self`, constants, identifiers, chained accesses `a.b.c`), unary expressions, conditionals and
  loops. It also covers the code-generation facts these nodes fix:
  - the value of each constant;
  - the effect of each unary operator;
  - the labels of conditionals and loops.

The `Token` record and its text (module `Tokens`) and `Param` (module `Params`) are modelled as
values.

The main facts proved are:
- The symbol table invariant (`SymbolTable.Valid`) is kept by every operation. It says:
  - the registered structs form a tree under `Object`;
  - every parent chain reaches `Object`;
  - every struct's method and attribute slots are exactly `0 .. n-1`.
- The cycle check succeeds exactly when the chain of parents reaches `Object`.
- Inheritance merges keep the slots exact.
- Maximal munch and word classification in the lexer, and the value of integer constants
  survives zero stripping.
- `nextToken` computes `Lex`, a function that follows its loop pass by pass. About `Lex`:
  blanks and `/?` comments are skipped, EOF comes exactly when no line is left, an error comes
  exactly when `validate` refuses the read, and a word or operator token's lexeme is the slice of
  the line that ends at the column reached.
- Each typing rule holds in both directions (a node is accepted exactly when ...). Constant
  types do not depend on the scope.
- Labels are distinct, and the operator effects have round trips.

Some things the source leaves to other classes become parameters:
- the text of a token kind (`IDToken.toString`), as `kindText`;
- the primitive type behind a type name (`Static.getPrimitiveDataType`), as `ctx.primitive`;
- member lookup (`variableMethodExist`), as `ctx.lookup`;
- the typing of node kinds outside the core (method calls, binary expressions, ...), as
  `ctx.typeOpaque` and `ctx.acceptsOpaque`.

`Static.isUppercase`, `isLowercase` and `isNumber` are taken to be the ASCII ranges that the
analyser's own comment names. `Method.getSignature` is the sequence of parameter type lexemes.

Every exception the source throws (`LexicalException`, `SemanticException`) becomes an `Err`
result of the same case. Compilation stops at the first error, so the state after an error is
only stated where it matters.

The model follows the code, with three exceptions. Each is a finding below; the as-written
behaviour is kept in a member of its own, and the rest of the model uses the corrected one:
- **The char branch of `check`.** `Lexer.Check`, `Lexer.ValidateStep` and the analyser's methods
  use `Lexer.CharStep`, which refuses a char literal longer than one character. The code as
  written is `Lexer.CharStepAsWritten`.
- **The loop condition.** `Ast.ConsolidateSentence` tests a `while` condition by its chained
  type, as `Conditional.consolidate` does for `if`. `Loop.consolidate` as written tests the
  unchained lexeme type against `"Bool"`; that is `Ast.ConsolidateLoopAsWritten`.
- **The effect of `!`.** `Ast.UnaryEffect` negates a boolean. The generated bitwise `not` is
  `Ast.UnaryEffectAsWritten`.

Two further points of the code that the model keeps as written:
- `UnaryExpression.checkType` refuses any operand that is not a simple access. It accepts a
  literal operand only under unary `+` and `-`, and it refuses arrays. `Ast.CheckUnary` and
  `Ast.CheckUnaryAccepts` state this.
- The return table of the predefined methods keys the entry for `Array Char` as
  `"Array Char\""`, with a stray quote. So `length` of `Array Char` returns void
  (`Builtins.ArrayCharLengthIsVoid`).

## Model

| member | source | states |
|---|---|---|
| Tokens.SetName | src/lib/tokenHelper/Token.java:50-53 | setName changes the kind and makes the lexeme the kind's text; line and column stay |
| Tokens.NatTextRoundTrip | src/lib/tokenHelper/Token.java:41-43 | the decimal digits printed for a line or column number read back to the same number |
| Tokens.IntTextRoundTrip | src/lib/tokenHelper/Token.java:41-43 | Integer.toString starts with a minus sign exactly for negative values and reads back to the value |
| Tokens.Text | src/lib/tokenHelper/Token.java:41-43 | toString is "\| ", the kind's text, " \| ", the lexeme, " \| LINEA ", the line, " (COLUMNA ", the column and ") \|", each part at its place |
| Params.Text | src/lib/semanticHelper/symbolTableHelper/Param.java:33-35 | toString is the type token's text, a space, then the name |
| Params.TextNamesParameter | src/lib/semanticHelper/symbolTableHelper/Param.java:33-35 | the name reads back from the text; two parameters of one type print alike iff their names agree |
| Keywords.KeyWordsContents | src/lib/Const.java:41-58 | KEY_WORDS holds exactly its fifteen words, `void` is the void type and `pub` (commented out) is absent |
| Keywords.TablesDisjoint | src/lib/Const.java:41-67 | every reserved word starts lowercase and every type word uppercase, so no word is in both tables |
| Keywords.TableKindsDistinct | src/lib/Const.java:41-67 | the two tables never give the same kind and no reserved word gives an identifier kind |
| Lexer.MaximalMunch | src/main/LexicalAnalyzer.java:232-393 | a two-character operator wins whenever the next character completes one; otherwise the one-character operator; `&` or `\|` alone is no operator |
| Lexer.SymbolTablesDisjoint | src/main/LexicalAnalyzer.java:177-393 | no character is both a one-symbol token and the start of an operator, so the order of the two checks is immaterial |
| Lexer.ClassifyLower | src/main/LexicalAnalyzer.java:569-577 | checkLowers never yields EOF |
| Lexer.ClassifyUpper | src/main/LexicalAnalyzer.java:585-616 | checkUppers never yields EOF |
| Lexer.WordClassification | src/main/LexicalAnalyzer.java:569-616 | a reserved word gets its own kind and any other lowercase word is an object identifier; lowercase and uppercase words never share a kind; an uppercase word is a struct name iff it is no predefined name and ends in a letter |
| Lexer.StructNamesAreNotPredefined | src/main/LexicalAnalyzer.java:585-616 | a struct name is never Object, IO, Array, Int, Str, Char or Bool |
| Lexer.StripLeadingZeros | src/main/LexicalAnalyzer.java:521-539 | replaceFirst("0+", "") removes exactly the leading run of zeros |
| Lexer.LeadingZerosValue | src/main/LexicalAnalyzer.java:521-539 | leading zeros do not change the value of a digit string |
| Lexer.AllZerosValue | src/main/LexicalAnalyzer.java:521-539 | a run of zeros has value 0 |
| Lexer.IntLexemeValue | src/main/LexicalAnalyzer.java:521-539 | the lexeme of an integer constant is a non-empty digit string with no leading zero (except "0") and the same value as what was read |
| Lexer.Check | src/main/LexicalAnalyzer.java:405-545 | with the corrected char branch, check moves the column by at most one, only when a next character exists, and a token it completes has a non-empty lexeme and is not EOF |
| Lexer.LiteralRules | src/main/LexicalAnalyzer.java:420-515 | with the corrected char branch, inside a literal: the end of a line is an error, a character refused by checkNextChar is an error, `\0` is an error, a string longer than 1024 characters is an error, and a literal token ends with its closing quote |
| Lexer.CharTokensClosed | src/main/LexicalAnalyzer.java:432-481 | with the corrected char branch every char token ends with its closing quote |
| Lexer.CharStepAsWrittenAcceptsTwoChars | src/main/LexicalAnalyzer.java:434-435 | as written, `'a` followed by `b` yields a char token `'ab` without its closing quote |
| Lexer.ValidateStep | src/main/LexicalAnalyzer.java:137-168 | with the corrected char branch, validate keeps the bounds of check: the column moves by at most one and a completed token is non-empty and not EOF |
| Lexer.InvalidStart | src/main/LexicalAnalyzer.java:137-168 | a first character raises "Identificador invalido" (line 541) exactly when it is no letter, digit or quote, no one-character symbol and begins no operator |
| Lexer.LexicalAnalyzer.constructor | src/main/LexicalAnalyzer.java:43-67 | the analyser (with the corrected char branch throughout) reads the first line and starts at line 1, column 0, with every flag down; its state fits the file and no word is being read |
| Lexer.LexicalAnalyzer.ReadLine | src/main/LexicalAnalyzer.java:113-120 | in the analyser with the corrected char branch, getLine returns the next line and advances, or nothing at the end of the file |
| Lexer.LexicalAnalyzer.Validate | src/main/LexicalAnalyzer.java:137-168 | with the corrected char branch, the state after validate is that of ValidateStep; its errors are ValidateStep's and leave the state as it was |
| Lexer.LexicalAnalyzer.ScanChar | src/main/LexicalAnalyzer.java:82-109 | with the corrected char branch: one character joins the read; `/?` emits nothing and moves the column past the line; a blank leaves the read empty; otherwise the outcome is ValidateStep's, and a kind found gives the token with that kind, lexeme and start column `colNumber - \|read\| + 2`; result and new state are those of Scan |
| Lexer.LexicalAnalyzer.Decide | src/main/LexicalAnalyzer.java:88-109 | with the corrected char branch, once the character has joined the read: the comment, blank and validate outcomes as ScanChar states them; result and new state are those of Decision |
| Lexer.LexicalAnalyzer.ValidateAndEmit | src/main/LexicalAnalyzer.java:97-104 | with the corrected char branch, validate's error or new state, and on a kind found the token with ValidateStep's kind and lexeme, starting where its lexeme starts, with read and flags reset; result and new state are those of Emit |
| Lexer.LexicalAnalyzer.NextToken | src/main/LexicalAnalyzer.java:76-129 | with the corrected char branch, the result and the new state are Lex of the old state (with idToken cleared): the loop of passes and line changes; besides, nextToken only moves forward, returns EOF with an empty lexeme at the end of the file, and any other token has a kind and lexeme validate found for some read, and starts \|lexeme\| - 1 columns before the column reached |
| Lexer.NextCharAt | src/main/LexicalAnalyzer.java:86 | nextChar is the character after the column exactly when the line has one |
| Lexer.Emit | src/main/LexicalAnalyzer.java:97-104 | with the corrected char branch, validate and the token it may complete leave the line, the line number and nextChar as they were |
| Lexer.Decision | src/main/LexicalAnalyzer.java:88-109 | with the corrected char branch, a pass stays on its line and, unless it fails, moves the column forward, to at most one past the end of the line |
| Lexer.Scan | src/main/LexicalAnalyzer.java:82-109 | with the corrected char branch, a pass that reads the character at the column stays on its line and, unless it fails, moves the column forward, to at most one past the end of the line |
| Lexer.NextLine | src/main/LexicalAnalyzer.java:112-122 | at the end of a line the line number goes up by one, and no line is current exactly when none was left to read |
| Lexer.LexEof | src/main/LexicalAnalyzer.java:76-129 | with the corrected char branch, nextToken returns EOF exactly when no line is current afterwards; the EOF token has an empty lexeme and the line and column where the file ended, and every line has been read |
| Lexer.LexErr | src/main/LexicalAnalyzer.java:97-98 | with the corrected char branch, nextToken fails exactly when it stops on a column whose character ended a read that is no comment and no blank and that validate refuses, and the error is validate's |
| Lexer.BlankStep | src/main/LexicalAnalyzer.java:93-96 | with the corrected char branch, a blank read with nothing pending emits nothing and only moves the column on by one |
| Lexer.LexSkipsBlanks | src/main/LexicalAnalyzer.java:93-109 | with the corrected char branch, a run of blanks read with nothing pending is skipped: nextToken gives what it gives from the column after the run |
| Lexer.LexSkipsComment | src/main/LexicalAnalyzer.java:88-91 | with the corrected char branch, `/?` read with nothing pending skips the rest of the line: nextToken gives what it gives from the start of the next line |
| Lexer.StepShape | src/main/LexicalAnalyzer.java:137-168 | with the corrected char branch, a validate step that emits a word or operator token, or keeps a word open, keeps the read, or makes a one-character read a two-character operator with the next character |
| Lexer.ReadIsSlice | src/main/LexicalAnalyzer.java:82-168 | with the corrected char branch, from a read that is the line up to the column, a word or operator validate keeps open or emits is the line up to the column reached |
| Lexer.ScanCoherent | src/main/LexicalAnalyzer.java:82-109 | with the corrected char branch, a pass keeps a word being read equal to the line up to the column, and a word or operator token it emits is the line up to the column reached |
| Lexer.LexSlice | src/main/LexicalAnalyzer.java:76-129 | with the corrected char branch, from a state in which a word being read is the line up to the column, nextToken leaves such a state, and the lexeme of a token that is no EOF, integer, string or char literal is the slice of the current line ending at the column reached |
| Members.ParamTypes | src/lib/semanticHelper/SymbolTable.java:477-481 | the parameter types, one per parameter and in order |
| Members.SlotsFillRange | src/lib/semanticHelper/symbolTableHelper/Struct.java:276-339 | exact slots use every number 0 .. n-1 exactly once |
| Members.MethodSlotsFillRange | src/lib/semanticHelper/symbolTableHelper/Struct.java:276-309 | the method slots of a struct are exactly 0 .. n-1 |
| Members.VarSlotsFillRange | src/lib/semanticHelper/symbolTableHelper/Struct.java:327-339 | the attribute slots of a struct are exactly 0 .. n-1 |
| Members.AppendKeepsMethodSlots | src/lib/semanticHelper/symbolTableHelper/Struct.java:293-299 | a new method that takes the next slot keeps the slots exact |
| Members.AppendKeepsVarSlots | src/lib/semanticHelper/symbolTableHelper/Struct.java:327-339 | a new attribute that takes the next slot keeps the slots exact |
| Members.MergedMethodSlots | src/lib/semanticHelper/symbolTableHelper/Struct.java:169-222 | parent slots kept and distinct new slots from the parent's size on give exact slots again |
| Members.MethodsMergedSlots | src/lib/semanticHelper/symbolTableHelper/Struct.java:169-222 | after addMethodsInherited the slots are exact and the table has the parent's methods plus the child's new ones |
| Members.VariablesMergedSlots | src/lib/semanticHelper/symbolTableHelper/Struct.java:230-257 | after addVariablesInherited the slots are exact and the table has the parent's and the child's attributes |
| Members.InheritMethods | src/lib/semanticHelper/symbolTableHelper/Struct.java:180-210 | the first pass succeeds iff no parent method is redefined when static or with another signature; missing methods come in unchanged and redefinitions take the parent's slot |
| Members.RenumberMethods | src/lib/semanticHelper/symbolTableHelper/Struct.java:213-221 | the child's own methods take distinct consecutive slots from the start, and the next slot is the start plus their number |
| Members.InheritVariables | src/lib/semanticHelper/symbolTableHelper/Struct.java:236-250 | the copy succeeds iff no attribute is declared again; parent attributes come in marked inherited |
| Members.ShiftVariables | src/lib/semanticHelper/symbolTableHelper/Struct.java:253-255 | the child's own attributes move up by the parent's size, nothing else changes |
| Members.UnchangedIsMerged | src/lib/semanticHelper/symbolTableHelper/Struct.java:176-213 | with an empty parent table the methods stay as they were |
| Members.RenumberedIsMerged | src/lib/semanticHelper/symbolTableHelper/Struct.java:169-222 | the first pass followed by the renumbering is a merge and the next slot is the table size |
| Members.MergeMethods | src/lib/semanticHelper/symbolTableHelper/Struct.java:169-222 | addMethodsInherited succeeds iff there is no conflict, reports a conflicting method, and yields the merge |
| Members.MergeVariables | src/lib/semanticHelper/symbolTableHelper/Struct.java:230-257 | addVariablesInherited succeeds iff no name is shared, reports a shared one, and yields the merge |
| PendingTypes.NoteType | src/lib/semanticHelper/SymbolTable.java:408-413 | a type is pending iff it was before or names no array and no registered struct; pending names stay undeclared |
| PendingTypes.NoteReturn | src/lib/semanticHelper/SymbolTable.java:471-473 | a return type is pending iff its kind is no array, it is not void and no struct has its name |
| PendingTypes.NoteParamTypes | src/lib/semanticHelper/SymbolTable.java:477-481 | the loop over the parameters keeps pending names undeclared |
| PendingTypes.NoteParamTypesKeys | src/lib/semanticHelper/SymbolTable.java:477-481 | after the loop a name is pending iff it was before or is a parameter type that needs a definition |
| PendingTypes.Deferred | src/lib/semanticHelper/SymbolTable.java:315-321 | a struct whose parent is undeclared is appended to that parent's waiting list; the other lists stay |
| Hierarchy.WalkDecides | src/lib/semanticHelper/SymbolTable.java:381-398 | the parent walk from any point of a chain, with the names seen so far, decides whether the chain reaches Object |
| Hierarchy.CheckDecides | src/lib/semanticHelper/SymbolTable.java:381-398 | checkParents succeeds iff the struct's chain of parents reaches Object |
| Hierarchy.CycleNeverObject | src/lib/semanticHelper/SymbolTable.java:389-393 | a chain that revisits a name before Object never reaches Object |
| Hierarchy.ParentReaches | src/lib/semanticHelper/SymbolTable.java:381-398 | a struct whose parent's chain reaches Object reaches it too |
| Hierarchy.AllReachAfterUpdate | src/lib/semanticHelper/SymbolTable.java:334-352 | re-parenting structs whose new chains reach Object keeps every chain reaching Object |
| Hierarchy.AllReachAfterDeclare | src/lib/semanticHelper/SymbolTable.java:326-366 | declaring a struct whose chain reaches Object and adopting its waiting children keeps every chain reaching Object |
| Hierarchy.Adopt | src/lib/semanticHelper/SymbolTable.java:341-348 | the waiting children take the new struct as parent and nobody else moves |
| Structs.Declared | src/lib/semanticHelper/symbolTableHelper/Struct.java:277-279 | the new entry reuses the slot of a same-named method and otherwise takes the next one |
| Structs.AddedMethodSlots | src/lib/semanticHelper/symbolTableHelper/Struct.java:276-309 | an added method takes the slot equal to the number of methods before it and the slots stay exact |
| Structs.Struct.constructor | src/lib/semanticHelper/symbolTableHelper/Struct.java:35-59 | a new struct is empty, uncounted and unconsolidated, and registers itself as a child of its parent unless it is Object |
| Structs.Struct.GetParent | src/lib/semanticHelper/symbolTableHelper/Struct.java:65-67 | the parent's name |
| Structs.Struct.SetParent | src/lib/semanticHelper/symbolTableHelper/Struct.java:72-81 | the struct leaves its old parent's children and joins the new parent's |
| Structs.Struct.GetAttributeType | src/lib/semanticHelper/symbolTableHelper/Struct.java:94-112 | an attribute's type is visible iff it is public, or private and seen from the impl of the struct that declared it and not inherited |
| Structs.Struct.GetReturnMethodType | src/lib/semanticHelper/symbolTableHelper/Struct.java:120-133 | a method's return type is found iff the method exists and, for an access through the struct name, is static |
| Structs.Struct.GetMethod | src/lib/semanticHelper/symbolTableHelper/Struct.java:141-146 | "Constructor" gives the constructor, any other name the method of that name |
| Structs.Struct.AddMethod | src/lib/semanticHelper/symbolTableHelper/Struct.java:276-309 | a constructor may be declared once; another method must be new and takes the next slot; slots stay exact |
| Structs.Struct.AddConstructor | src/lib/semanticHelper/symbolTableHelper/Struct.java:282-290 | a second constructor is an error; the first is stored |
| Structs.Struct.AddOwnMethod | src/lib/semanticHelper/symbolTableHelper/Struct.java:291-305 | a repeated method is an error; a new one is entered under its name |
| Structs.Struct.AddVar | src/lib/semanticHelper/symbolTableHelper/Struct.java:327-339 | a repeated attribute is an error; a new one takes the next slot |
| Structs.Struct.AddChildren | src/lib/semanticHelper/symbolTableHelper/Struct.java:348-359 | an existing child is replaced only from a struct declaration |
| Structs.Struct.DeleteChildren | src/lib/semanticHelper/symbolTableHelper/Struct.java:365-367 | the child of that name is removed |
| Structs.Struct.UpdateCount | src/lib/semanticHelper/symbolTableHelper/Struct.java:374-387 | a struct may be declared once and implemented once; a repetition is an error and changes nothing |
| Structs.Struct.AddMethodsInherited | src/lib/semanticHelper/symbolTableHelper/Struct.java:169-222 | succeeds iff no parent method conflicts, and then the table is the merge with exact slots |
| Structs.Struct.AddVariablesInherited | src/lib/semanticHelper/symbolTableHelper/Struct.java:230-257 | succeeds iff no attribute is declared again, and then the table is the merge with exact slots |
| Structs.Struct.Inherit | src/lib/semanticHelper/symbolTableHelper/Struct.java:408-413 | a child already consolidated keeps its tables; otherwise it takes its parent's methods, then attributes (MethodsMerged, VariablesMerged with the parent's tables), and is marked consolidated exactly on success |
| Structs.InheritWalked | src/lib/semanticHelper/symbolTableHelper/Struct.java:408-413 | merging one child keeps the walk invariant: parents and checks stay, flags only go up, fixed structs keep their tables, and a newly consolidated child has inherited from its checked parent |
| Structs.WalkedTrans | src/lib/semanticHelper/symbolTableHelper/Struct.java:393-422 | two successive parts of the walk compose into one |
| Structs.Struct.MergeChild | src/lib/semanticHelper/symbolTableHelper/Struct.java:408-413 | a child is merged with this struct's tables and the walk invariant holds |
| Structs.Struct.VisitChild | src/lib/semanticHelper/symbolTableHelper/Struct.java:410-419 | a child is merged and then consolidated in turn; with depth left, its whole subtree of non-predefined structs is checked and consolidated down to the depth; the walk invariant holds |
| Structs.Struct.VisitChildren | src/lib/semanticHelper/symbolTableHelper/Struct.java:410-419 | every child that is not predefined is visited and consolidated, and with depth left its subtree down to the depth; the walk invariant holds |
| Structs.Struct.VisitStep | src/lib/semanticHelper/symbolTableHelper/Struct.java:410-419 | one turn of the loop over the children takes one pending child, and that child and, with depth left, its subtree are then consolidated; the walk invariant holds |
| Structs.Struct.Consolidate | src/lib/semanticHelper/symbolTableHelper/Struct.java:393-422 | a struct other than Object without struct, impl or constructor is an error; on success the struct is checked and every non-predefined struct below it, down to the depth given, is checked and consolidated; all slots stay exact, a child not consolidated before holds the merge of its old tables with this struct's, and structs consolidated before keep their tables |
| SymbolTables.UnderObject | src/lib/semanticHelper/SymbolTable.java:66-75 | every predefined struct has Object as its parent |
| SymbolTables.Settled | src/lib/semanticHelper/SymbolTable.java:315-352 | the declared struct no longer waits for a parent, and an undeclared parent's list gains it |
| SymbolTables.SettledWellFormed | src/lib/semanticHelper/SymbolTable.java:315-352 | the waiting lists stay well formed once the struct is declared |
| SymbolTables.StagedRegisters | src/lib/semanticHelper/SymbolTable.java:359-366 | a staged struct whose chain reaches Object is registered with the table invariant kept |
| SymbolTables.BuiltinsValid | src/lib/semanticHelper/SymbolTable.java:64-169 | the predefined structs satisfy the table invariant, each one step from Object |
| SymbolTables.SymbolTable.constructor | src/lib/semanticHelper/SymbolTable.java:42-62 | a table holds Object and its children under Object, with nothing waiting, pending or counted |
| SymbolTables.NewSymbolTable | src/lib/semanticHelper/SymbolTable.java:42-169 | a new table is valid and holds exactly the ten predefined structs, each child under Object |
| SymbolTables.SymbolTable.GetStruct | src/lib/semanticHelper/SymbolTable.java:439-441 | the struct registered under the name, if any |
| SymbolTables.SymbolTable.AddVar | src/lib/semanticHelper/SymbolTable.java:408-413 | a type naming no array and no struct becomes pending, keyed by its lexeme |
| SymbolTables.SymbolTable.NoteSignature | src/lib/semanticHelper/SymbolTable.java:471-481 | the return type, then each parameter type, is recorded when it needs a definition |
| SymbolTables.SymbolTable.NoteParams | src/lib/semanticHelper/SymbolTable.java:477-481 | the loop records each parameter type in order |
| SymbolTables.SymbolTable.AddMethod | src/lib/semanticHelper/SymbolTable.java:463-489 | outside a struct the start method takes slot 0; inside one the signature is checked and the struct adds the method |
| SymbolTables.SymbolTable.AddToStruct | src/lib/semanticHelper/SymbolTable.java:484 | the struct adds the method and every registered struct stays well formed |
| SymbolTables.SymbolTable.Consolidate | src/lib/semanticHelper/SymbolTable.java:502-531 | an awaited parent is reported first, then a pending type; otherwise the tree is consolidated from Object: every non-predefined struct reached from Object through non-predefined children, within as many levels as there are structs, is checked and consolidated; each direct child of Object not consolidated before holds the merge of its old tables with Object's, and structs consolidated before keep their tables |
| SymbolTables.SymbolTable.ConsolidateFromObject | src/lib/semanticHelper/SymbolTable.java:527-528 | the walk from Object keeps the table valid on success, checks and consolidates every non-predefined struct it reaches through non-predefined children within as many levels as there are structs, and merges Object's tables into each of its direct children not consolidated before |
| SymbolTables.SymbolTable.AddConditionalSentenceCounter | src/lib/semanticHelper/SymbolTable.java:171-173 | each call yields the next number |
| SymbolTables.SymbolTable.AddLoopSentenceCounter | src/lib/semanticHelper/SymbolTable.java:174-176 | each call yields the next number |
| SymbolTables.SymbolTable.AddLiteralStrCount | src/lib/semanticHelper/SymbolTable.java:178-180 | each call yields the next number |
| SymbolTables.SymbolTable.CheckParents | src/lib/semanticHelper/SymbolTable.java:381-398 | the cycle check succeeds iff the chain of parents reaches Object, and otherwise reports the cycle |
| SymbolTables.SymbolTable.Obtain | src/lib/semanticHelper/SymbolTable.java:326-338 | the struct is created under its parent, or the registered one is re-parented from a struct declaration |
| SymbolTables.SymbolTable.AdoptWaiting | src/lib/semanticHelper/SymbolTable.java:341-348 | each waiting child is moved under the new struct; nobody else moves |
| SymbolTables.SymbolTable.Install | src/lib/semanticHelper/SymbolTable.java:366 | the struct joins the table under its name and the table stays valid |
| SymbolTables.SymbolTable.Prepare | src/lib/semanticHelper/SymbolTable.java:326-357 | the struct is obtained and its waiting children adopted, staging the table; this fails exactly when the struct is Object, and otherwise the staged parents are the declared ones |
| SymbolTables.SymbolTable.Register | src/lib/semanticHelper/SymbolTable.java:359-366 | a cycle is refused, then a repeated declaration, and otherwise the struct is registered with the table valid |
| SymbolTables.SymbolTable.Commit | src/lib/semanticHelper/SymbolTable.java:363-366 | a repeated declaration is refused; otherwise the count becomes 1 and the struct is registered |
| SymbolTables.SymbolTable.AddStruct | src/lib/semanticHelper/SymbolTable.java:298-372 | a predefined parent and self-inheritance are refused with nothing changed; past those, Object is refused; otherwise, over the parents as declared (the new struct under its parent, or kept under its registered one from an impl, and its waiting children under it): a chain that does not reach Object is a cyclic inheritance, then a repeated struct or impl is a repeated definition, and otherwise the table stays valid with exactly those parents, the struct under its name and its count at 1 |
| SymbolTables.DeclaredParents | src/lib/semanticHelper/SymbolTable.java:326-357 | the parents after a declaration: a struct that waits for itself is its own parent; a new struct or a struct declaration takes its parent, or Object when that is unregistered; an impl keeps the registered parent; the waiting children take the struct; every other parent stays |
| Builtins.ReturnOf | src/lib/semanticHelper/SymbolTable.java:255-257 | addVoid gives the table's return type, or void when the struct or method has none |
| Builtins.ArrayCharLengthIsVoid | src/lib/semanticHelper/SymbolTable.java:116-140 | with the table as written, `length` of Array Char returns void while that of the other arrays and Str returns Int |
| Builtins.PreloadTableKeys | src/lib/semanticHelper/SymbolTable.java:155-167 | the preload table holds exactly the listed method names |
| Builtins.PreloadTableSlots | src/lib/semanticHelper/SymbolTable.java:155-167 | with distinct names there is one entry per definition and the slots are exact |
| Builtins.PreloadTableEntries | src/lib/semanticHelper/SymbolTable.java:155-167 | each definition sits under its name with its parameters, return type and list position as slot |
| Builtins.DefinitionsDistinct | src/lib/semanticHelper/SymbolTable.java:82-115 | no predefined struct lists a method name twice |
| Builtins.Preload | src/lib/semanticHelper/SymbolTable.java:155-167 | the forEach leaves the struct with exactly the preload table and its constructor untouched |
| Builtins.CreateChild | src/lib/semanticHelper/SymbolTable.java:66-167 | one predefined struct is created under Object and given its predefined methods |
| Builtins.CreateBuiltins | src/lib/semanticHelper/SymbolTable.java:66-167 | Object has exactly the given children, each preloaded |
| Builtins.InitBuiltins | src/lib/semanticHelper/SymbolTable.java:64-169 | init builds Object with its nine predefined children, each with its predefined methods and return types |
| Builtins.BuiltinStructs | src/lib/semanticHelper/SymbolTable.java:64-169 | the same predefined structs in shape only |
| Builtins.BuiltinTokensNotObject | src/lib/semanticHelper/SymbolTable.java:66-75 | Object is created apart and is not one of its own children |
| Semantic.SemanticManager.constructor | src/lib/semanticHelper/SemanticManager.java:19-25 | a manager starts with a new symbol table and no current struct, method or start |
| Semantic.SemanticManager.AddStruct | src/lib/semanticHelper/SemanticManager.java:28-30 | an accepted struct becomes the current struct and a refused one leaves it; the outcomes are those of the symbol table: Object and a chain that does not reach Object over the declared parents are refused, then a repeated definition, and otherwise the parents are the declared ones |
| Semantic.SemanticManager.AddVar | src/lib/semanticHelper/SemanticManager.java:32-41 | the type is recorded if pending, and an attribute is added to the current struct or reported as repeated |
| Semantic.AddAttribute | src/lib/semanticHelper/SemanticManager.java:36-38 | an attribute is added to one struct of a valid table and the table stays valid |
| Semantic.SemanticManager.AddMethod | src/lib/semanticHelper/SemanticManager.java:43-58 | start may be declared once with slot 0; any other method goes to the current struct and becomes current when accepted, and its return type and then each parameter type are recorded when they need a definition |
| Semantic.SemanticManager.Consolidate | src/lib/semanticHelper/SemanticManager.java:65-68 | fails while a parent or a type is awaited, reporting one of them; on success the table is valid with no obligations, every non-predefined struct reached from Object within as many levels as there are structs is checked and consolidated, Object's direct children not consolidated before hold the merge with Object's tables, and structs consolidated before keep their tables |
| Ast.Links | src/lib/semanticHelper/astHelper/sentences/expressions/Expression.java:28-34 | the chain of an access as a non-empty list that starts with the access |
| Ast.ChainedTypeIsLastLink | src/lib/semanticHelper/astHelper/sentences/expressions/Expression.java:28-34 | getResultTypeChained is the type of the last link of the chain |
| Ast.UnchainedResultTypes | src/lib/semanticHelper/astHelper/sentences/expressions/Expression.java:24-34 | without a chain both result types agree |
| Ast.SetResultType | src/lib/semanticHelper/astHelper/sentences/expressions/Expression.java:43-45 | the result type is replaced and nothing else changes |
| Ast.SetPosition | src/lib/semanticHelper/astHelper/sentences/expressions/Expression.java:36-41 | the position is replaced and nothing else changes |
| Ast.ResultTypeRoundTrip | src/lib/semanticHelper/astHelper/sentences/expressions/Expression.java:24-45 | getResultType after setResultType gives the lexeme that was set |
| Ast.PositionRoundTrip | src/lib/semanticHelper/astHelper/sentences/expressions/Expression.java:36-41 | getPosition after setPosition gives the position that was set |
| Ast.ConstantType | src/lib/semanticHelper/astHelper/sentences/expressions/primaries/SimpleAccess.java:50-53 | a literal is typed by its kind, nil as NIL, true and false as Bool, anything else needs a lookup |
| Ast.ConsolidateExpr | src/lib/semanticHelper/astHelper/sentences/expressions/primaries/SimpleAccess.java:39-62 | a consolidated expression is fully typed and otherwise unchanged; `self` in a static method is refused |
| Ast.ConstantAccessTypes | src/lib/semanticHelper/astHelper/sentences/expressions/primaries/SimpleAccess.java:47-53 | an unchained constant gets its constant type whatever the lookup says |
| Ast.IdentifierAccessTypes | src/lib/semanticHelper/astHelper/sentences/expressions/primaries/SimpleAccess.java:47-49 | an unchained identifier is accepted iff the lookup finds it, and takes the found type |
| Ast.ChainTakesSuffixType | src/lib/semanticHelper/astHelper/sentences/expressions/primaries/SimpleAccess.java:56-58 | a chained access is typed by looking up the rest of the chain from its left side |
| Ast.CheckUnary | src/lib/semanticHelper/astHelper/sentences/expressions/UnaryExpression.java:67-105 | an accepted operand's chained type is the type checkType returns |
| Ast.CheckUnaryAccepts | src/lib/semanticHelper/astHelper/sentences/expressions/UnaryExpression.java:67-105 | checkType accepts iff the operand is a typed simple access, literal only under `+`/`-`, no array, Int for arithmetic and Bool for `!` |
| Ast.CompoundOperandFirst | src/lib/semanticHelper/astHelper/sentences/expressions/UnaryExpression.java:71-73 | an operand that is not a simple access is refused before any type test |
| Ast.UnaryResultType | src/lib/semanticHelper/astHelper/sentences/expressions/UnaryExpression.java:48-65 | `++`/`--` give a literal Int, the other operators the operand's chained type |
| Ast.ConsolidateSentence | src/lib/semanticHelper/astHelper/sentences/Conditional.java:50-69 | a consolidated sentence has every expression typed and keeps its shape |
| Ast.ConditionalAccepted | src/lib/semanticHelper/astHelper/sentences/Conditional.java:50-69 | `if` is accepted iff its condition is accepted with chained type Bool and both branches are accepted |
| Ast.ConditionCheckedBeforeBranches | src/lib/semanticHelper/astHelper/sentences/Conditional.java:52-57 | a condition that is not Bool is reported whatever the branches hold |
| Ast.LoopAccepted | src/lib/semanticHelper/astHelper/sentences/Loop.java:46-60 | with the corrected test, `while` is accepted iff its condition has chained type Bool and its body is accepted |
| Ast.ConsolidateLoopAsWritten | src/lib/semanticHelper/astHelper/sentences/Loop.java:46-60 | as written the loop tests the unchained lexeme type against "Bool" |
| Ast.LoopRefusesChainedBool | src/lib/semanticHelper/astHelper/sentences/Loop.java:51-53 | as written `while (p.done)` with a Bool attribute is refused, while `if (p.done)` and the corrected loop accept it |
| Ast.Wrap32 | src/lib/semanticHelper/astHelper/sentences/expressions/UnaryExpression.java:138-154 | a 32-bit register value: in range, congruent modulo 2^32, and the identity in range |
| Ast.ConstantValueRoundTrip | src/lib/semanticHelper/astHelper/sentences/expressions/primaries/SimpleAccess.java:111-138 | an integer constant loads the value its lexeme denotes, `true` loads a value read as true and `false` one read as false |
| Ast.UnaryEffectAsWritten | src/lib/semanticHelper/astHelper/sentences/expressions/UnaryExpression.java:138-154 | as written `!` is bitwise not, `++`/`--`/`-` wrap at 32 bits and `+` changes nothing |
| Ast.UnaryEffect | src/lib/semanticHelper/astHelper/sentences/expressions/UnaryExpression.java:138-154 | the corrected effects keep values in 32 bits and `!` maps booleans to booleans |
| Ast.NotFalseReadsFalse | src/lib/semanticHelper/astHelper/sentences/expressions/UnaryExpression.java:138-154 | as written `!` on a Bool holding 0 stores -1, which code comparing the loaded value with 1 reads as false |
| Ast.NotNegates | src/lib/semanticHelper/astHelper/sentences/expressions/UnaryExpression.java:138-154 | the corrected `!` negates the truth of its operand |
| Ast.IncDecRoundTrip | src/lib/semanticHelper/astHelper/sentences/expressions/UnaryExpression.java:138-154 | `++` and `--` undo each other on 32-bit values, wrap-around included |
| Ast.NegationInvolutive | src/lib/semanticHelper/astHelper/sentences/expressions/UnaryExpression.java:138-154 | unary `-` twice is the identity on 32-bit values, unary `+` does nothing, and the as-written `!` undone by itself gives the value back |
| Ast.LabelsDistinct | src/lib/semanticHelper/astHelper/sentences/Conditional.java:94-116 | labels of different numbers differ within a family and the four label families never clash |
| Ast.PrefixDetermines | src/lib/semanticHelper/astHelper/sentences/Loop.java:84-101 | a label determines its number |
| Ast.ConditionalLabels | src/lib/semanticHelper/astHelper/sentences/Conditional.java:94-116 | a conditional takes the next counter value and its labels carry it |
| Ast.LoopLabels | src/lib/semanticHelper/astHelper/sentences/Loop.java:84-101 | a loop takes the next counter value and its labels carry it |

## Left out

- File reading (`FileManager`) is not part of this model. The analyser takes the file as a sequence of lines.
- Code generation is left out, except for the facts the core nodes fix (constant values, unary operator effects, labels). The model does not cover the instructions themselves, the trailing jump of a conditional, the virtual tables, `SymbolTable.generateCode` or `getVariableOffset`.
- Ast.UnaryEffect: unary `-` on -2^31 is modelled as wrap-around, although the MIPS `neg` instruction traps on it.
- JSON output (`toJSON`, `toString` of the tables) is left out.
- `CreateInstance` and `CreateArray` are not part of this model. Their typing is reached only through `ctx.typeOpaque`.
- `Method.addVar` is not part of this model. `Semantic.SemanticManager.AddVar` only records the pending type of a variable that is not an attribute.
- Builtins.PreloadTableEntries, Builtins.Preload, Builtins.CreateChild, Builtins.CreateBuiltins, Builtins.InitBuiltins: the slots of the predefined methods follow the order in which each struct's methods are listed, whereas `init` adds them through `addVoid` inside `mapParams.forEach`, in HashMap iteration order. Which predefined method gets which slot may therefore differ from the source; that the slots are exact holds either way.
- HashMap iteration order is not fixed:
  - `Structs.Struct.Consolidate` visits the children in an order the model chooses;
  - `Members.RenumberMethods` numbers the child's own methods in such an order;
  - `SymbolTables.SymbolTable.Consolidate` reports some awaited parent or pending type, not the first in Java's order.
- SymbolTables.SymbolTable.Consolidate: the walk is stated for the structs reached from Object through non-predefined children within as many levels as there are structs (`Structs.Done`). That every registered non-predefined struct is reached so is not proved: it needs an invariant linking each parent's children to the parent chains, a bound on the depth of the tree, and that no predefined struct stands between a struct and Object. The same holds for `SymbolTables.SymbolTable.ConsolidateFromObject` and `Semantic.SemanticManager.Consolidate`.
- Structs.Struct.Consolidate: recursion down the tree is bounded by a `fuel` depth. When the fuel runs out, deeper structs are left unmerged. Acyclicity gives the real bound, but it is not threaded into the recursion.
- The state after an exception is stated only where it matters. The source stops compiling at the first error.
- `AST.consolidate` is empty in the source, so it has no member.
- Expression and sentence nodes are values. Updating a node in place and sharing it between parents are not modelled.
- SymbolTables.SymbolTable.AddMethod: `SemanticManager.addMethod` calls `addMethod` with five arguments, but the method takes six. The model passes `fromStruct = true` for every method other than start.
- `setResultType` is called both with a String and with a Token. Both become the `Named` and `OfToken` tags of one result type.
- `SymbolTable`'s constructor calls `init`. The model splits this into `SymbolTables.SymbolTable.constructor` (given the prepared predefined structs) and `SymbolTables.NewSymbolTable`. The content of the preload is stated on `Builtins.InitBuiltins`.
- Node kinds outside the core (method calls, binary expressions, assignments, returns) are typed through the context functions.
- `Static.getPrimitiveDataType`, `Primary.variableMethodExist` and `IDToken.toString` are not part of this model. They are parameters.

## Findings

| source | as written | input that shows it | evidently intended | confidence | as-written member | corrected member |
|---|---|---|---|---|---|---|
| src/main/LexicalAnalyzer.java:434-435 | once `isCharEnding` is set, the next call emits a char token whatever the character is and without its closing quote | `'ab'` gives the char token `'ab`, and the final quote opens a new literal | a char literal longer than one character is an error and every char token ends with its quote | not executed | Lexer.CharStepAsWrittenAcceptsTwoChars | Lexer.CharTokensClosed |
| src/lib/semanticHelper/astHelper/sentences/expressions/UnaryExpression.java:138-154 | `!` is compiled as bitwise `not` on the 0/1 encoding of booleans | a Bool variable `b` holding 0: `!b` stores -1 back; code that loads it and compares it with 1 (`bne $v0, 1`) reads it as false | `!` negates a boolean, giving 1 for false and 0 for true | not executed | Ast.NotFalseReadsFalse | Ast.NotNegates |
| src/lib/semanticHelper/astHelper/sentences/Loop.java:51-53 | the loop condition is tested by its unchained lexeme type against "Bool" | `while (p.done)` with `done` a Bool attribute is refused | the condition is tested by its chained type, as in Conditional | not executed | Ast.LoopRefusesChainedBool | Ast.LoopAccepted |
