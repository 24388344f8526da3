// The lexical analyser of src/main/LexicalAnalyzer.java: a character-level state
// machine over the lines of the source file.
module Lexer {
  import opened Wrappers
  import opened Tokens
  import opened Keywords

  /** The LexicalException cases. */
  datatype LexError =
    | UnterminatedLiteral      // end of line inside a string or char
    | InvalidLiteralChar       // a character checkNextChar refuses
    | NullInChar               // '\0
    | InvalidChar              // '' , or a char literal with more than one character
    | NullInString             // \0 inside a string
    | StringTooLong            // more than 1024 characters
    | InvalidIdentifier        // a start character that begins no token
    | InvalidStructIdentifier  // an uppercase word that does not end in a letter

  // Static.isUppercase / isLowercase / isNumber: the ASCII ranges.
  predicate IsUpper(c: char) { 'A' <= c <= 'Z' }
  predicate IsLower(c: char) { 'a' <= c <= 'z' }
  predicate IsDigit(c: char) { '0' <= c <= '9' }

  /** Characters that continue an identifier: letters, digits and `_`. */
  predicate IsWordChar(c: char) { IsUpper(c) || IsLower(c) || IsDigit(c) || c == '_' }

  /** Space, LF, CR, tab and VT. */
  predicate IsBlank(c: char) { c as int == 32 || c as int == 10 || c as int == 13 || c as int == 9 || c as int == 11 }

  predicate AllDigits(s: string) { forall i :: 0 <= i < |s| ==> IsDigit(s[i]) }

  /** checkUniqueSimbol: the single-character symbols. */
  function UniqueSymbol(c: char): Option<Kind>
  {
    match c
    case '*' => Some(OMult)
    case '%' => Some(OMod)
    case '(' => Some(SParOpen)
    case ')' => Some(SParClose)
    case '[' => Some(SCorOpen)
    case ']' => Some(SCorClose)
    case '{' => Some(SKeyOpen)
    case '}' => Some(SKeyClose)
    case ',' => Some(SCom)
    case ':' => Some(SColon)
    case ';' => Some(SSemicolon)
    case '.' => Some(SDot)
    case '/' => Some(ODiv)
    case _ => None
  }

  /** An operator found by checkDoubleSimbol and how many characters it takes. */
  datatype Munch = Munch(kind: Kind, width: nat)

  /** checkDoubleSimbol: the operator that starts with `c`, given the character after it. */
  function DoubleSymbol(c: char, next: Option<char>): Option<Munch>
  {
    if c == '=' then
      if next == Some('=') then Some(Munch(OEqual, 2)) else Some(Munch(Assign, 1))
    else if c == '-' then
      if next == Some('-') then Some(Munch(OSubSub, 2))
      else if next == Some('>') then Some(Munch(SArrowMethod, 2))
      else Some(Munch(OSub, 1))
    else if c == '+' then
      if next == Some('+') then Some(Munch(OSumSum, 2)) else Some(Munch(OSum, 1))
    else if c == '!' then
      if next == Some('=') then Some(Munch(ONotEq, 2)) else Some(Munch(ONot, 1))
    else if c == '>' then
      if next == Some('=') then Some(Munch(OMaxEq, 2)) else Some(Munch(OMax, 1))
    else if c == '<' then
      if next == Some('=') then Some(Munch(OMinEq, 2)) else Some(Munch(OMin, 1))
    else if c == '&' && next == Some('&') then Some(Munch(OAnd, 2))
    else if c == '|' && next == Some('|') then Some(Munch(OOr, 2))
    else None
  }

  /** The two-character operators, as a table independent of DoubleSymbol. */
  const TwoCharOperators: map<string, Kind> := map[
    "==" := OEqual, "--" := OSubSub, "->" := SArrowMethod, "++" := OSumSum, "!=" := ONotEq,
    ">=" := OMaxEq, "<=" := OMinEq, "&&" := OAnd, "||" := OOr]

  /** The one-character operators that are also the start of a two-character one. */
  const OneCharOperators: map<char, Kind> := map[
    '=' := Assign, '-' := OSub, '+' := OSum, '!' := ONot, '>' := OMax, '<' := OMin]

  /**
   * Maximal munch: a two-character operator wins whenever the next character
   * completes one; otherwise the one-character operator is taken; `&` and `|`
   * alone are no operator at all.
   */
  lemma MaximalMunch(c: char, next: Option<char>)
    ensures next.Some? && [c, next.value] in TwoCharOperators ==>
              DoubleSymbol(c, next) == Some(Munch(TwoCharOperators[[c, next.value]], 2))
    ensures (next.None? || [c, next.value] !in TwoCharOperators) && c in OneCharOperators ==>
              DoubleSymbol(c, next) == Some(Munch(OneCharOperators[c], 1))
    ensures (next.None? || [c, next.value] !in TwoCharOperators) && c !in OneCharOperators ==>
              DoubleSymbol(c, next) == None
  {
    if next.Some? {
      var d := next.value;
      var p := [c, d];
      if p in TwoCharOperators {
        assert p[0] == c && p[1] == d;
      } else {
        assert "==" == ['=', '='] && "--" == ['-', '-'] && "->" == ['-', '>'] && "++" == ['+', '+'];
        assert "!=" == ['!', '='] && ">=" == ['>', '='] && "<=" == ['<', '='] && "&&" == ['&', '&'];
        assert "||" == ['|', '|'];
      }
    }
  }

  /** No character starts both a one-symbol token and an operator, so the order of the two checks is immaterial. */
  lemma SymbolTablesDisjoint(c: char, next: Option<char>)
    ensures UniqueSymbol(c).Some? ==> DoubleSymbol(c, next).None?
  {
  }

  /** checkLowers: a reserved word, otherwise an object (variable or method) identifier. */
  function ClassifyLower(w: string): (k: Kind)
    ensures k != Eof
  {
    TableKindsDistinct();
    if w in KeyWords then KeyWords[w] else IdObject
  }

  /** checkUppers: IO, Object, a type word, otherwise a struct name that must end in a letter. */
  function ClassifyUpper(w: string): (r: Result<Kind, LexError>)
    ensures r.Ok? ==> r.value != Eof
  {
    TableKindsDistinct();
    if w == "IO" then Ok(SpIO)
    else if w == "Object" then Ok(SpObject)
    else if w in KeyTypeWords then Ok(KeyTypeWords[w])
    else if |w| > 0 && (IsUpper(w[|w| - 1]) || IsLower(w[|w| - 1])) then Ok(IdStruct)
    else Err(InvalidStructIdentifier)
  }

  /**
   * Word classification: a reserved word always reads back as its own kind, a
   * lowercase and an uppercase word never get the same kind, and an uppercase word
   * becomes a struct name exactly when it is none of the predefined names and ends in a letter.
   */
  lemma {:induction false} WordClassification(w: string, v: string)
    ensures w in KeyWords ==> ClassifyLower(w) == KeyWords[w]
    ensures w !in KeyWords ==> ClassifyLower(w) == IdObject
    ensures ClassifyUpper(v).Ok? ==> ClassifyLower(w) != ClassifyUpper(v).value
    ensures ClassifyUpper(v) == Ok(IdStruct) <==>
              v != "IO" && v != "Object" && v !in KeyTypeWords && |v| > 0
              && (IsUpper(v[|v| - 1]) || IsLower(v[|v| - 1]))
  {
    TableKindsDistinct();
    if ClassifyUpper(v).Ok? && v in KeyTypeWords {
      assert ClassifyUpper(v).value in {TypeInt, TypeStr, TypeChar, TypeBool, TypeArray};
    }
    if v in KeyTypeWords {
      assert KeyTypeWords[v] != IdStruct;
    }
  }

  /** A struct name from the lexer is never one of the built-in type names. */
  lemma StructNamesAreNotPredefined(v: string)
    requires ClassifyUpper(v) == Ok(IdStruct)
    ensures v !in {"Object", "IO", "Array", "Int", "Str", "Char", "Bool"}
  {
    TableKindsDistinct();
  }

  /** replaceFirst("0+", ""): drops the leading run of zeros. */
  function StripLeadingZeros(s: string): (r: string)
    ensures |r| <= |s| && r == s[|s| - |r|..]
    ensures r == [] || r[0] != '0'
    ensures forall i :: 0 <= i < |s| - |r| ==> s[i] == '0'
  {
    if s != [] && s[0] == '0' then StripLeadingZeros(s[1..]) else s
  }

  /** The lexeme of an integer constant: leading zeros stripped, an all-zero run becomes "0". */
  function IntLexeme(read: string): string
  {
    if read != [] && read[0] == '0' then
      var r := StripLeadingZeros(read);
      if r == "" then "0" else r
    else read
  }

  lemma {:induction false} LeadingZerosValue(s: string, k: nat)
    requires AllDigits(s) && k <= |s|
    requires forall i :: 0 <= i < k ==> s[i] == '0'
    ensures DigitsValue(s) == DigitsValue(s[k..])
    decreases |s|
  {
    if k > 0 && s != [] {
      var t := s[..|s| - 1];
      if k == |s| {
        AllZerosValue(s);
        assert s[k..] == [];
      } else {
        LeadingZerosValue(t, k);
        assert s[k..][..|s[k..]| - 1] == t[k..];
      }
    }
  }

  lemma {:induction false} AllZerosValue(s: string)
    requires forall i :: 0 <= i < |s| ==> s[i] == '0'
    ensures DigitsValue(s) == 0
    decreases |s|
  {
    if s != [] {
      AllZerosValue(s[..|s| - 1]);
    }
  }

  /**
   * Zero stripping keeps an integer constant's value and its digits, and leaves
   * no leading zero except in the constant 0 itself.
   */
  lemma IntLexemeValue(read: string)
    requires read != [] && AllDigits(read)
    ensures var r := IntLexeme(read); r != [] && AllDigits(r)
    ensures var r := IntLexeme(read); |r| > 1 ==> r[0] != '0'
    ensures DigitsValue(IntLexeme(read)) == DigitsValue(read)
  {
    if read[0] == '0' {
      var r := StripLeadingZeros(read);
      LeadingZerosValue(read, |read| - |r|);
      if r == "" {
        assert DigitsValue("0") == 0 by { assert "0"[..0] == []; }
      }
    }
  }

  /** checkNextChar: printable ASCII below `~`, the Spanish letters and marks, and tab. */
  predicate AcceptedInLiteral(c: char)
  {
    (31 < c as int < 126)
    || c as int == 0xF1 || c as int == 0xD1 || c as int == 0xBF || c as int == 0xA1
    || c as int == 0xC1 || c as int == 0xC9 || c as int == 0xCD || c as int == 0xD3 || c as int == 0xDA
    || c as int == 0xE1 || c as int == 0xE9 || c as int == 0xED || c as int == 0xF3 || c as int == 0xFA
    || c as int == 9
  }

  /** The letters that keep their backslash: n, r, t, v and 0. */
  predicate IsEscapeLetter(c: char) { c == 'n' || c == 'r' || c == 't' || c == 'v' || c == '0' }

  /** The eight flags of the analyser. */
  datatype Flags = Flags(
    waitingString: bool, waitingChar: bool,
    startUpper: bool, startLower: bool, startNumber: bool,
    charEnding: bool, validateZero: bool, replaced: bool)

  /** initFlags. */
  const NoFlags := Flags(false, false, false, false, false, false, false, false)

  /** What one call of `check` leaves behind: the read so far, the flags, the kind found and how far the column moves. */
  datatype Step = Step(read: string, flags: Flags, kind: Option<Kind>, bump: nat)

  /**
   * The char-literal branch of `check` as the source has it: when a third
   * character follows an opened char literal, the next call emits the token
   * without its closing quote.
   */
  function CharStepAsWritten(read: string, c: char, f: Flags): Result<Step, LexError>
  {
    if f.charEnding then Ok(Step(read, f, Some(ConstChar), 0))
    else CharStepOpen(read, c, f)
  }

  /** The char-literal branch of `check`, with a literal longer than one character refused. */
  function CharStep(read: string, c: char, f: Flags): Result<Step, LexError>
  {
    if f.charEnding then Err(InvalidChar)
    else CharStepOpen(read, c, f)
  }

  /** The part of the char-literal branch shared by both versions. */
  function CharStepOpen(read: string, c: char, f: Flags): Result<Step, LexError>
  {
    if read == "'\\" then
      if c == '0' then Err(NullInChar)
      else if !IsEscapeLetter(c) && !f.replaced then Ok(Step("'", f.(replaced := true), None, 0))
      else if c == '\'' then Ok(Step(read + [c], f, Some(ConstChar), 1))
      else Ok(Step(read, f, None, 0))
    else
      var ending := |read| >= 2;
      if c == '\'' then
        if ending then Ok(Step(read + [c], f.(charEnding := true), Some(ConstChar), 1))
        else Err(InvalidChar)
      else Ok(Step(read, f.(charEnding := ending), None, 0))
  }

  /** The string-literal branch of `check`. */
  function StringStep(read: string, c: char, f: Flags): Result<Step, LexError>
    requires read != []
  {
    if f.validateZero && c == '0' then Err(NullInString)
    else if f.validateZero then
      Ok(Step(if !IsEscapeLetter(c) then read[..|read| - 1] else read, f.(validateZero := false), None, 0))
    else if c == '"' then Ok(Step(read + [c], f, Some(ConstStr), 1))
    else if |read| > 1024 then Err(StringTooLong)
    else Ok(Step(read, f.(validateZero := c == '\\' && !f.replaced), None, 0))
  }

  /** `check`: decides, from the read so far and the next character, whether a token ends here. */
  function Check(read: string, next: Option<char>, f: Flags): (r: Result<Step, LexError>)
    requires read != []
    ensures r.Ok? ==> |r.value.read| <= |read| + r.value.bump && r.value.bump <= 1
    ensures r.Ok? && r.value.bump == 1 ==> next.Some?
    ensures r.Ok? && r.value.kind.Some? ==> r.value.read != [] && r.value.kind != Some(Eof)
  {
    if f.startLower || f.startUpper then
      if next.None? || !IsWordChar(next.value) then
        if f.startLower then Ok(Step(read, f, Some(ClassifyLower(read)), 0))
        else match ClassifyUpper(read)
          case Ok(k) => Ok(Step(read, f, Some(k), 0))
          case Err(e) => Err(e)
      else Ok(Step(read, f, None, 0))
    else if f.waitingChar || f.waitingString then
      if next.None? then Err(UnterminatedLiteral)
      else if !AcceptedInLiteral(next.value) then Err(InvalidLiteralChar)
      else if f.waitingChar then CharStep(read, next.value, f)
      else StringStep(read, next.value, f)
    else if f.startNumber then
      if next.None? || !IsDigit(next.value) then Ok(Step(IntLexeme(read), f, Some(ConstInt), 0))
      else Ok(Step(read, f, None, 0))
    else Err(InvalidIdentifier)
  }

  /**
   * Literal rules: an end of line inside a literal is an error, a character
   * outside checkNextChar is an error, `\0` is an error in both forms, a
   * string may not grow past 1024 characters, and a literal token is emitted
   * only together with its closing quote.
   */
  lemma LiteralRules(read: string, next: Option<char>, f: Flags)
    requires read != [] && !f.startLower && !f.startUpper && (f.waitingChar || f.waitingString)
    ensures next.None? ==> Check(read, next, f) == Err(UnterminatedLiteral)
    ensures next.Some? && !AcceptedInLiteral(next.value) ==> Check(read, next, f) == Err(InvalidLiteralChar)
    ensures (next.Some? && AcceptedInLiteral(next.value) && f.waitingChar && !f.charEnding
             && read == "'\\" && next.value == '0') ==> Check(read, next, f) == Err(NullInChar)
    ensures (next.Some? && AcceptedInLiteral(next.value) && !f.waitingChar
             && f.validateZero && next.value == '0') ==> Check(read, next, f) == Err(NullInString)
    ensures (next.Some? && AcceptedInLiteral(next.value) && !f.waitingChar && !f.validateZero
             && next.value != '"' && |read| > 1024) ==> Check(read, next, f) == Err(StringTooLong)
    ensures var r := Check(read, next, f);
            r.Ok? && r.value.kind.Some? ==>
              next.Some? && r.value.read == read + [next.value] && r.value.bump == 1
              && (r.value.kind == Some(ConstChar) ==> next.value == '\'' && f.waitingChar)
              && (r.value.kind == Some(ConstStr) ==> next.value == '"' && !f.waitingChar)
  {
  }

  /**
   * The evident intent of the char-literal branch: every char token ends with
   * its closing quote. CharStep keeps it for every input.
   */
  lemma CharTokensClosed(read: string, c: char, f: Flags)
    ensures var r := CharStep(read, c, f);
            r.Ok? && r.value.kind == Some(ConstChar) ==>
              |r.value.read| >= 1 && r.value.read[|r.value.read| - 1] == '\''
  {
  }

  /**
   * The source's branch breaks it: after `'a` and then `b`, the source emits a
   * char token `'ab` with no closing quote, and the quote that follows opens a new literal.
   */
  lemma CharStepAsWrittenAcceptsTwoChars()
    ensures var f := NoFlags.(waitingChar := true);
            CharStepAsWritten("'a", 'b', f) == Ok(Step("'a", f.(charEnding := true), None, 0))
    ensures var f := NoFlags.(waitingChar := true, charEnding := true);
            CharStepAsWritten("'ab", '\'', f) == Ok(Step("'ab", f, Some(ConstChar), 0))
            && "'ab"[2] != '\''
  {
    assert "'a" != "'\\" by { assert "'a"[1] != "'\\"[1]; }
  }

  /**
   * validate: a one-character read is first tried as a symbol, then as an
   * operator (a two-character operator takes the next character with it);
   * otherwise its first character raises the flags, and `check` decides.
   */
  function ValidateStep(read: string, next: Option<char>, f: Flags): (r: Result<Step, LexError>)
    requires read != []
    ensures r.Ok? ==> |r.value.read| <= |read| + r.value.bump && r.value.bump <= 1
    ensures r.Ok? && r.value.bump == 1 ==> next.Some?
    ensures r.Ok? && r.value.kind.Some? ==> r.value.read != [] && r.value.kind != Some(Eof)
  {
    var c := read[0];
    if |read| == 1 && UniqueSymbol(c).Some? then
      Ok(Step(read, f, UniqueSymbol(c), 0))
    else if |read| == 1 && DoubleSymbol(c, next).Some? then
      var m := DoubleSymbol(c, next).value;
      if m.width == 2 then Ok(Step(read + [next.value], f, Some(m.kind), 1))
      else Ok(Step(read, f, Some(m.kind), 0))
    else if |read| == 1 then
      Check(read, next, f.(waitingString := c == '"', waitingChar := c == '\'',
                          startUpper := IsUpper(c), startLower := IsLower(c), startNumber := IsDigit(c)))
    else Check(read, next, f)
  }

  /** The characters checkUniqueSimbol turns into a token on their own. */
  const SingleSymbols: set<char> := {'*', '%', '(', ')', '[', ']', '{', '}', ',', ':', ';', '.', '/'}

  /**
   * A first character starts nothing, and validate raises InvalidIdentifier,
   * exactly when it is no letter, no digit, no quote, no symbol and begins no operator.
   */
  lemma InvalidStart(c: char, next: Option<char>)
    ensures ValidateStep([c], next, NoFlags) == Err(InvalidIdentifier) <==>
              !IsUpper(c) && !IsLower(c) && !IsDigit(c) && c != '"' && c != '\''
              && c !in SingleSymbols && c !in OneCharOperators
              && !(next.Some? && [c, next.value] in TwoCharOperators)
  {
  }

  /** `currentRead + nextChar` spells `/?`: the rest of the line is a comment. */
  predicate Comment(read: string, next: Option<char>) { read == "/" && next == Some('?') }

  /** One validate step found a kind and emits `t`: the kind and lexeme are the step's. */
  predicate Emits(s: Result<Step, LexError>, t: Token)
  {
    s.Ok? && s.value.kind == Some(t.name) && s.value.read == t.lexema
  }

  /** The state of the analyser as a value: every field nextToken reads or changes. */
  datatype Cursor = Cursor(nextLine: nat, currentLine: Option<string>, colNumber: int, lineNumber: int,
                           currentRead: string, nextChar: Option<char>, flags: Flags, idToken: Option<Kind>)

  /** nextChar: the character after column `col`, when the line has one. */
  function NextCharAt(line: string, col: int): (r: Option<char>)
    requires 0 <= col
    ensures r.Some? <==> col + 1 < |line|
    ensures r.Some? ==> r.value == line[col + 1]
  {
    if col + 1 < |line| then Some(line[col + 1]) else None
  }

  /** A cursor within the file: no line past the last, and the column at most one past the end of its line. */
  predicate Fits(lines: seq<string>, c: Cursor)
  {
    c.nextLine <= |lines| && (c.currentLine.Some? ==> 0 <= c.colNumber <= |c.currentLine.value| + 1)
  }

  /**
   * validate, then the token when it found a kind: the read, the flags and
   * idToken become validate's, and a token's column is where its lexeme
   * starts, counted from 1. On an error nothing changes.
   */
  function Emit(c: Cursor): (p: (Result<Option<Token>, LexError>, Cursor))
    requires c.currentRead != []
    ensures p.1.nextLine == c.nextLine && p.1.currentLine == c.currentLine && p.1.lineNumber == c.lineNumber
    ensures p.1.nextChar == c.nextChar
  {
    var s := ValidateStep(c.currentRead, c.nextChar, c.flags);
    if s.Err? then (Err(s.error), c)
    else if s.value.kind.None? then
      (Ok(None), c.(currentRead := s.value.read, flags := s.value.flags, idToken := None,
                    colNumber := c.colNumber + s.value.bump))
    else
      (Ok(Some(Token(s.value.kind.value, s.value.read, c.lineNumber, c.colNumber + s.value.bump - |s.value.read| + 2))),
       c.(currentRead := [], flags := NoFlags, idToken := s.value.kind, colNumber := c.colNumber + s.value.bump))
  }

  /**
   * A pass once the character at the column has joined the read: a `/?`
   * comment moves past the end of the line, a blank is dropped, anything
   * else is validated; the column then moves on by one.
   */
  function Decision(c: Cursor): (p: (Result<Option<Token>, LexError>, Cursor))
    requires c.currentLine.Some? && 0 <= c.colNumber < |c.currentLine.value| && c.currentRead != []
    requires c.nextChar == (if c.colNumber + 1 < |c.currentLine.value| then Some(c.currentLine.value[c.colNumber + 1]) else None)
    ensures p.1.nextLine == c.nextLine && p.1.currentLine == c.currentLine && p.1.lineNumber == c.lineNumber
    ensures p.0.Ok? ==> c.colNumber < p.1.colNumber <= |c.currentLine.value| + 1
  {
    if Comment(c.currentRead, c.nextChar) then (Ok(None), c.(colNumber := |c.currentLine.value| + 1))
    else if IsBlank(c.currentRead[0]) then (Ok(None), c.(currentRead := [], colNumber := c.colNumber + 1))
    else
      var e := Emit(c);
      if e.0.Err? then e else (e.0, e.1.(colNumber := e.1.colNumber + 1))
  }

  /** One pass of nextToken's loop inside a line: the character at the column joins the read, and Decision follows. */
  function Scan(c: Cursor): (p: (Result<Option<Token>, LexError>, Cursor))
    requires c.currentLine.Some? && 0 <= c.colNumber < |c.currentLine.value|
    ensures p.1.nextLine == c.nextLine && p.1.currentLine == c.currentLine && p.1.lineNumber == c.lineNumber
    ensures p.0.Ok? ==> c.colNumber < p.1.colNumber <= |c.currentLine.value| + 1
  {
    var line := c.currentLine.value;
    Decision(c.(currentRead := c.currentRead + [line[c.colNumber]], nextChar := NextCharAt(line, c.colNumber)))
  }

  /** The end of a line: the next line is read, at column 0 with nothing read, and the line number goes up either way. */
  function NextLine(lines: seq<string>, c: Cursor): (c': Cursor)
    requires c.nextLine <= |lines|
    ensures c'.nextLine <= |lines| && c'.lineNumber == c.lineNumber + 1
    ensures c'.currentLine.None? <==> c.nextLine == |lines|
  {
    if c.nextLine < |lines| then
      c.(currentLine := Some(lines[c.nextLine]), nextLine := c.nextLine + 1, colNumber := 0, currentRead := [],
         lineNumber := c.lineNumber + 1)
    else c.(currentLine := None, lineNumber := c.lineNumber + 1)
  }

  /**
   * What nextToken returns from cursor c, and the cursor it leaves: passes
   * and line changes follow one another until a token is complete, an error
   * is raised, or no line is left, which gives the EOF token.
   */
  function Lex(lines: seq<string>, c: Cursor): (p: (Result<Token, LexError>, Cursor))
    requires Fits(lines, c)
    decreases |lines| - c.nextLine, if c.currentLine.Some? then |c.currentLine.value| + 2 - c.colNumber else 0
  {
    if c.currentLine.None? then (Ok(Token(Eof, [], c.lineNumber, c.colNumber)), c)
    else if c.colNumber < |c.currentLine.value| then
      var p := Scan(c);
      if p.0.Err? then (Err(p.0.error), p.1)
      else if p.0.value.Some? then (Ok(p.0.value.value), p.1)
      else Lex(lines, p.1)
    else Lex(lines, NextLine(lines, c))
  }

  /**
   * The analyser: the file as a sequence of lines (FileManager), the current
   * line and position, the read so far and the flags.
   */
  class LexicalAnalyzer {
    const lines: seq<string>
    var nextLine: nat
    var currentLine: Option<string>
    var colNumber: int
    var lineNumber: int
    var currentRead: string
    var nextChar: Option<char>
    var flags: Flags
    var idToken: Option<Kind>

    /** The fields as a Cursor. */
    function State(): Cursor
      reads this
    {
      Cursor(nextLine, currentLine, colNumber, lineNumber, currentRead, nextChar, flags, idToken)
    }

    ghost predicate Valid()
      reads this
    {
      nextLine <= |lines|
      && lineNumber >= 1
      && (currentLine.None? ==> nextLine == |lines|)
      && (currentLine.Some? ==>
            0 <= colNumber <= |currentLine.value| + 1
            && |currentRead| <= colNumber)
    }

    /** The constructor reads the first line and starts at line 1, column 0, with all flags down. */
    constructor (source: seq<string>)
      ensures Valid() && lines == source
      ensures currentLine == (if |source| > 0 then Some(source[0]) else None)
      ensures nextLine == (if |source| > 0 then 1 else 0)
      ensures colNumber == 0 && lineNumber == 1 && currentRead == [] && nextChar.None?
      ensures flags == NoFlags && idToken.None?
      ensures Fits(lines, State()) && Coherent(State())
    {
      lines := source;
      if |source| > 0 {
        currentLine := Some(source[0]);
        nextLine := 1;
      } else {
        currentLine := None;
        nextLine := 0;
      }
      colNumber := 0;
      lineNumber := 1;
      currentRead := [];
      nextChar := None;
      flags := NoFlags;
      idToken := None;
    }

    /** FileManager.getLine: the next line, or nothing at the end of the file. */
    method ReadLine() returns (line: Option<string>)
      requires Valid()
      modifies this`nextLine
      ensures old(nextLine) < |lines| ==> line == Some(lines[old(nextLine)]) && nextLine == old(nextLine) + 1
      ensures old(nextLine) == |lines| ==> line.None? && nextLine == old(nextLine)
    {
      if nextLine < |lines| {
        line := Some(lines[nextLine]);
        nextLine := nextLine + 1;
      } else {
        line := None;
      }
    }

    /**
     * validate: the state after `validate`, given as ValidateStep of the read so
     * far, the next character and the flags.
     */
    method Validate() returns (r: Result<(), LexError>)
      requires currentRead != []
      modifies this`currentRead, this`flags, this`idToken, this`colNumber
      ensures var s := ValidateStep(old(currentRead), nextChar, old(flags));
              (s.Err? ==> r == Err(s.error) && unchanged(this))
              && (s.Ok? ==> r.Ok? && currentRead == s.value.read && flags == s.value.flags
                            && idToken == s.value.kind && colNumber == old(colNumber) + s.value.bump)
    {
      var s := ValidateStep(currentRead, nextChar, flags);
      if s.Err? {
        return Err(s.error);
      }
      currentRead := s.value.read;
      flags := s.value.flags;
      idToken := s.value.kind;
      colNumber := colNumber + s.value.bump;
      r := Ok(());
    }

    /**
     * One pass of nextToken's loop inside a line: the character at the column
     * joins the read; a `/?` comment skips the rest of the line, a blank is
     * dropped, anything else goes through `validate` and may complete a token,
     * whose column is where its lexeme starts, counted from 1.
     */
    method ScanChar() returns (r: Result<Option<Token>, LexError>)
      requires Valid() && currentLine.Some? && colNumber < |currentLine.value|
      modifies this`currentRead, this`nextChar, this`colNumber, this`flags, this`idToken
      ensures r.Ok? ==> Valid() && colNumber > old(colNumber)
      ensures r.Ok? && r.value.Some? ==>
                r.value.value.name != Eof && r.value.value.lexema != [] && r.value.value.line == lineNumber
                && r.value.value.column >= 1 && currentRead == [] && flags == NoFlags
      ensures var line := currentLine.value;
              nextChar == (if old(colNumber) + 1 < |line| then Some(line[old(colNumber) + 1]) else None)
      // a comment: nothing is emitted and the column jumps past the end of the line
      ensures Comment(old(currentRead) + [currentLine.value[old(colNumber)]], nextChar) ==>
                r == Ok(None) && colNumber == |currentLine.value| + 1 && currentRead == "/" && flags == old(flags)
      // a blank outside a literal is dropped
      ensures var read := old(currentRead) + [currentLine.value[old(colNumber)]];
              !Comment(read, nextChar) && IsBlank(read[0]) ==>
                r == Ok(None) && currentRead == [] && colNumber == old(colNumber) + 1 && flags == old(flags)
      // anything else goes through validate; a kind found makes the token
      ensures var read := old(currentRead) + [currentLine.value[old(colNumber)]];
              var s := ValidateStep(read, nextChar, old(flags));
              !Comment(read, nextChar) && !IsBlank(read[0]) ==>
                (s.Err? ==> r == Err(s.error))
                && (s.Ok? ==> colNumber == old(colNumber) + s.value.bump + 1)
                && (s.Ok? && s.value.kind.None? ==>
                      r == Ok(None) && currentRead == s.value.read && flags == s.value.flags)
                && (s.Ok? && s.value.kind.Some? ==>
                      r == Ok(Some(Token(s.value.kind.value, s.value.read, lineNumber,
                                         old(colNumber) + s.value.bump - |s.value.read| + 2))))
      ensures var p := Scan(old(State())); r == p.0 && State() == p.1
    {
      var line := currentLine.value;
      currentRead := currentRead + [line[colNumber]];
      nextChar := if colNumber + 1 < |line| then Some(line[colNumber + 1]) else None;
      r := Decide();
    }

    /** The part of a pass once the character has joined the read: the comment, blank and validate tests. */
    method Decide() returns (r: Result<Option<Token>, LexError>)
      requires nextLine <= |lines| && lineNumber >= 1 && currentLine.Some? && 0 <= colNumber < |currentLine.value|
      requires currentRead != [] && |currentRead| <= colNumber + 1
      requires nextChar == (if colNumber + 1 < |currentLine.value| then Some(currentLine.value[colNumber + 1]) else None)
      modifies this`currentRead, this`colNumber, this`flags, this`idToken
      ensures r.Ok? ==> Valid() && colNumber > old(colNumber)
      ensures r.Ok? && r.value.Some? ==>
                r.value.value.name != Eof && r.value.value.lexema != [] && r.value.value.line == lineNumber
                && r.value.value.column >= 1 && currentRead == [] && flags == NoFlags
      ensures Comment(old(currentRead), nextChar) ==>
                r == Ok(None) && colNumber == |currentLine.value| + 1 && currentRead == "/" && flags == old(flags)
      ensures !Comment(old(currentRead), nextChar) && IsBlank(old(currentRead)[0]) ==>
                r == Ok(None) && currentRead == [] && colNumber == old(colNumber) + 1 && flags == old(flags)
      ensures var s := ValidateStep(old(currentRead), nextChar, old(flags));
              !Comment(old(currentRead), nextChar) && !IsBlank(old(currentRead)[0]) ==>
                (s.Err? ==> r == Err(s.error))
                && (s.Ok? ==> colNumber == old(colNumber) + s.value.bump + 1)
                && (s.Ok? && s.value.kind.None? ==>
                      r == Ok(None) && currentRead == s.value.read && flags == s.value.flags)
                && (s.Ok? && s.value.kind.Some? ==>
                      r == Ok(Some(Token(s.value.kind.value, s.value.read, lineNumber,
                                         old(colNumber) + s.value.bump - |s.value.read| + 2))))
      ensures var p := Decision(old(State())); r == p.0 && State() == p.1
    {
      r := Ok(None);
      if Comment(currentRead, nextChar) {
        // a comment: the rest of the line is skipped
        colNumber := |currentLine.value|;
      } else if IsBlank(currentRead[0]) {
        currentRead := [];
      } else {
        r := ValidateAndEmit();
      }
      if r.Ok? {
        colNumber := colNumber + 1;
      }
    }

    /**
     * The part of a pass after the comment and blank tests: `validate`, then,
     * when it found a kind, the token, whose column is where its lexeme starts.
     */
    method ValidateAndEmit() returns (r: Result<Option<Token>, LexError>)
      requires currentRead != []
      modifies this`currentRead, this`flags, this`idToken, this`colNumber
      ensures var s := ValidateStep(old(currentRead), nextChar, old(flags));
              (s.Err? ==> r == Err(s.error))
              && (s.Ok? ==> colNumber == old(colNumber) + s.value.bump)
              && (s.Ok? && s.value.kind.None? ==>
                    r == Ok(None) && currentRead == s.value.read && flags == s.value.flags)
              && (s.Ok? && s.value.kind.Some? ==>
                    r == Ok(Some(Token(s.value.kind.value, s.value.read, lineNumber,
                                       old(colNumber) + s.value.bump - |s.value.read| + 2)))
                    && currentRead == [] && flags == NoFlags)
      ensures var p := Emit(old(State())); r == p.0 && State() == p.1
    {
      var v := Validate();
      if v.Err? {
        return Err(v.error);
      }
      r := Ok(None);
      if idToken.Some? {
        r := Ok(Some(Token(idToken.value, currentRead, lineNumber, colNumber - |currentRead| + 2)));
        currentRead := [];
        flags := NoFlags;
      }
    }

    /**
     * nextToken: reads characters until a token is complete, skipping blanks and
     * `/?` comments and moving to the next line at the end of each line; at the
     * end of the file it returns an EOF token with an empty lexeme.
     */
    method NextToken() returns (r: Result<Token, LexError>)
      requires Valid()
      modifies this
      ensures r.Ok? ==> Valid()
      ensures nextLine >= old(nextLine) && lineNumber >= old(lineNumber)
      ensures old(currentLine).None? ==>
                r == Ok(Token(Eof, [], old(lineNumber), old(colNumber))) && currentLine.None?
                && lineNumber == old(lineNumber) && colNumber == old(colNumber)
      ensures r.Ok? && r.value.name == Eof ==> currentLine.None? && r.value.lexema == [] && nextLine == |lines|
      ensures r.Ok? && r.value.name != Eof ==>
                r.value.lexema != [] && r.value.line == lineNumber && r.value.column >= 1
                && currentRead == [] && flags == NoFlags
                && r.value.column == colNumber - |r.value.lexema| + 1
      // the token is what validate found for the read that ended it
      ensures r.Ok? && r.value.name != Eof ==>
                exists read, f :: read != [] && Emits(ValidateStep(read, nextChar, f), r.value)
      // the whole call, as the functional model of the loop
      ensures var p := Lex(lines, old(State()).(idToken := None)); r == p.0 && State() == p.1
    {
      var token: Option<Token> := None;
      ghost var read: string, f: Flags := [' '], NoFlags;
      idToken := None;
      ghost var start := State();
      while currentLine.Some? && token.None?
        invariant Valid()
        invariant nextLine >= old(nextLine) && lineNumber >= old(lineNumber)
        invariant old(currentLine).None? ==>
                    token.None? && currentLine.None? && lineNumber == old(lineNumber) && colNumber == old(colNumber)
        invariant currentLine.None? ==> nextLine == |lines|
        invariant token.Some? ==>
                    token.value.name != Eof && token.value.lexema != [] && token.value.line == lineNumber
                    && token.value.column >= 1 && currentRead == [] && flags == NoFlags
                    && token.value.column == colNumber - |token.value.lexema| + 1
                    && read != [] && Emits(ValidateStep(read, nextChar, f), token.value)
        invariant Fits(lines, State()) && Fits(lines, start)
        invariant token.None? ==> Lex(lines, State()) == Lex(lines, start)
        invariant token.Some? ==> Lex(lines, start) == (Ok(token.value), State())
        decreases |lines| - nextLine, if currentLine.Some? then |currentLine.value| + 2 - colNumber else 0
      {
        ghost var before := State();
        if colNumber < |currentLine.value| {
          ghost var read0, f0 := currentRead + [currentLine.value[colNumber]], flags;
          var step := ScanChar();
          if step.Err? {
            assert Lex(lines, before) == (Err(step.error), State());
            return Err(step.error);
          }
          token := step.value;
          if token.Some? {
            read, f := read0, f0;
          }
          assert Lex(lines, before) == if token.Some? then (Ok(token.value), State()) else Lex(lines, State());
        } else {
          currentLine := ReadLine();
          if currentLine.Some? {
            colNumber := 0;
            currentRead := [];
          }
          lineNumber := lineNumber + 1;
          assert State() == NextLine(lines, before);
        }
      }
      if token.None? {
        token := Some(Token(Eof, [], lineNumber, colNumber));
      }
      r := Ok(token.value);
    }
  }

  /** The state nextToken leaves after an error: the character at the column has joined the read, and validate refused it. */
  predicate Failed(c: Cursor)
  {
    && c.currentLine.Some? && 0 <= c.colNumber < |c.currentLine.value|
    && c.currentRead != [] && c.currentRead[|c.currentRead| - 1] == c.currentLine.value[c.colNumber]
    && c.nextChar == NextCharAt(c.currentLine.value, c.colNumber)
    && !Comment(c.currentRead, c.nextChar) && !IsBlank(c.currentRead[0])
    && ValidateStep(c.currentRead, c.nextChar, c.flags).Err?
  }

  /**
   * EOF comes exactly when no line is left: the EOF token has an empty
   * lexeme and the position where the file ended, and any other token
   * leaves a line current.
   */
  lemma {:induction false} LexEof(lines: seq<string>, c: Cursor)
    requires Fits(lines, c) && (c.currentLine.None? ==> c.nextLine == |lines|)
    ensures var p := Lex(lines, c);
            p.0.Ok? && p.0.value.name == Eof <==> p.1.currentLine.None?
    ensures var p := Lex(lines, c);
            p.0.Ok? && p.0.value.name == Eof ==>
              p.0.value == Token(Eof, [], p.1.lineNumber, p.1.colNumber) && p.1.nextLine == |lines|
    decreases |lines| - c.nextLine, if c.currentLine.Some? then |c.currentLine.value| + 2 - c.colNumber else 0
  {
    if c.currentLine.Some? {
      if c.colNumber < |c.currentLine.value| {
        var p := Scan(c);
        if p.0.Ok? && p.0.value.None? {
          LexEof(lines, p.1);
        }
      } else {
        LexEof(lines, NextLine(lines, c));
      }
    }
  }

  /** nextToken fails exactly when validate refuses the read ending at the column it stopped on, and with validate's error. */
  lemma {:induction false} LexErr(lines: seq<string>, c: Cursor)
    requires Fits(lines, c)
    ensures var p := Lex(lines, c);
            p.0.Err? <==> Failed(p.1)
    ensures var p := Lex(lines, c);
            p.0.Err? ==> p.0.error == ValidateStep(p.1.currentRead, p.1.nextChar, p.1.flags).error
    decreases |lines| - c.nextLine, if c.currentLine.Some? then |c.currentLine.value| + 2 - c.colNumber else 0
  {
    if c.currentLine.Some? {
      if c.colNumber < |c.currentLine.value| {
        var p := Scan(c);
        if p.0.Ok? && p.0.value.None? {
          LexErr(lines, p.1);
        }
      } else {
        LexErr(lines, NextLine(lines, c));
      }
    }
  }

  /** One blank read with nothing pending: the pass drops it and moves the column on. */
  lemma BlankStep(lines: seq<string>, c: Cursor)
    requires Fits(lines, c) && c.currentLine.Some? && c.currentRead == []
    requires 0 <= c.colNumber < |c.currentLine.value| && IsBlank(c.currentLine.value[c.colNumber])
    ensures Scan(c) == (Ok(None), c.(nextChar := NextCharAt(c.currentLine.value, c.colNumber), colNumber := c.colNumber + 1))
    ensures Lex(lines, c) == Lex(lines, c.(nextChar := NextCharAt(c.currentLine.value, c.colNumber), colNumber := c.colNumber + 1))
  {
    assert !Comment([c.currentLine.value[c.colNumber]], NextCharAt(c.currentLine.value, c.colNumber));
  }

  /** Blanks read with nothing pending are dropped: a run of them on the line only moves the column past it. */
  lemma {:induction false} LexSkipsBlanks(lines: seq<string>, c: Cursor, j: int)
    requires Fits(lines, c) && c.currentLine.Some? && c.currentRead == []
    requires 0 <= c.colNumber < j <= |c.currentLine.value|
    requires forall k :: c.colNumber <= k < j ==> IsBlank(c.currentLine.value[k])
    ensures Lex(lines, c) == Lex(lines, c.(nextChar := NextCharAt(c.currentLine.value, j - 1), colNumber := j))
    decreases j - c.colNumber
  {
    var c' := c.(nextChar := NextCharAt(c.currentLine.value, c.colNumber), colNumber := c.colNumber + 1);
    BlankStep(lines, c);
    if c.colNumber + 1 < j {
      LexSkipsBlanks(lines, c', j);
    }
  }

  /** `/?` read with nothing pending is a comment: the rest of the line is skipped and lexing goes on from the next line. */
  lemma LexSkipsComment(lines: seq<string>, c: Cursor)
    requires Fits(lines, c) && c.currentLine.Some? && c.currentRead == []
    requires 0 <= c.colNumber && c.colNumber + 1 < |c.currentLine.value|
    requires c.currentLine.value[c.colNumber] == '/' && c.currentLine.value[c.colNumber + 1] == '?'
    ensures Lex(lines, c) ==
            Lex(lines, NextLine(lines, c.(currentRead := "/", nextChar := Some('?'), colNumber := |c.currentLine.value| + 1)))
  {
  }

  /**
   * The shape of a validate step that emits a word or an operator, or keeps
   * a word open: the read is unchanged, or a one-character operator start
   * takes the next character with it.
   */
  lemma StepShape(read: string, next: Option<char>, f: Flags)
    requires read != []
    ensures var r := ValidateStep(read, next, f);
            r.Ok? && ((r.value.kind.Some? && r.value.kind.value !in {ConstInt, ConstStr, ConstChar})
                      || (r.value.kind.None? && (r.value.flags.startLower || r.value.flags.startUpper))) ==>
              (r.value.read == read && r.value.bump == 0 && (|read| == 1 || f.startLower || f.startUpper))
              || (|read| == 1 && next.Some? && r.value.read == read + [next.value] && r.value.bump == 1)
  {
  }

  /** A word being read is the part of the current line that ends at the column. */
  predicate Coherent(c: Cursor)
  {
    c.currentLine.Some? && c.currentRead != [] && (c.flags.startLower || c.flags.startUpper)
    && c.colNumber <= |c.currentLine.value| ==>
      |c.currentRead| <= c.colNumber && c.currentRead == c.currentLine.value[c.colNumber - |c.currentRead|..c.colNumber]
  }

  /** A word or operator that validate keeps open or emits, from a read coherent with the line, is the line up to the column. */
  lemma ReadIsSlice(line: string, col: int, pending: string, f: Flags)
    requires 0 <= col < |line|
    requires pending != [] && (f.startLower || f.startUpper) ==>
               |pending| <= col && pending == line[col - |pending|..col]
    ensures var s := ValidateStep(pending + [line[col]], NextCharAt(line, col), f);
            s.Ok? && ((s.value.kind.Some? && s.value.kind.value !in {ConstInt, ConstStr, ConstChar})
                      || (s.value.kind.None? && (s.value.flags.startLower || s.value.flags.startUpper))) ==>
              var end := col + s.value.bump + 1;
              end <= |line| && |s.value.read| <= end && s.value.read == line[end - |s.value.read|..end]
  {
    var read := pending + [line[col]];
    var next := NextCharAt(line, col);
    StepShape(read, next, f);
    if pending != [] && (f.startLower || f.startUpper) {
      assert read == line[col - |pending|..col + 1];
    }
    if next.Some? {
      assert [line[col], next.value] == line[col..col + 2];
    }
  }

  /** One pass keeps a word being read coherent with the line, and a word or operator it emits is the line up to the column. */
  lemma ScanCoherent(c: Cursor)
    requires c.currentLine.Some? && 0 <= c.colNumber < |c.currentLine.value| && Coherent(c)
    ensures var p := Scan(c);
            p.0.Ok? ==> Coherent(p.1)
    ensures var p := Scan(c);
            var line := c.currentLine.value;
            p.0.Ok? && p.0.value.Some? && p.0.value.value.name !in {ConstInt, ConstStr, ConstChar} ==>
              var t := p.0.value.value;
              |t.lexema| <= p.1.colNumber <= |line| && t.lexema == line[p.1.colNumber - |t.lexema|..p.1.colNumber]
  {
    var line := c.currentLine.value;
    var read := c.currentRead + [line[c.colNumber]];
    var next := NextCharAt(line, c.colNumber);
    if !Comment(read, next) && !IsBlank(read[0]) {
      ReadIsSlice(line, c.colNumber, c.currentRead, c.flags);
    }
  }

  /**
   * From a coherent cursor, nextToken leaves a coherent one, and a word or
   * operator token's lexeme is the slice of the current line ending at the
   * column reached.
   */
  lemma {:induction false} LexSlice(lines: seq<string>, c: Cursor)
    requires Fits(lines, c) && Coherent(c)
    ensures var p := Lex(lines, c);
            p.0.Ok? ==> Coherent(p.1)
    ensures var p := Lex(lines, c);
            p.0.Ok? && p.0.value.name !in {Eof, ConstInt, ConstStr, ConstChar} ==>
              var t := p.0.value;
              p.1.currentLine.Some? && |t.lexema| <= p.1.colNumber <= |p.1.currentLine.value|
              && t.lexema == p.1.currentLine.value[p.1.colNumber - |t.lexema|..p.1.colNumber]
    decreases |lines| - c.nextLine, if c.currentLine.Some? then |c.currentLine.value| + 2 - c.colNumber else 0
  {
    if c.currentLine.Some? {
      if c.colNumber < |c.currentLine.value| {
        ScanCoherent(c);
        var p := Scan(c);
        if p.0.Ok? && p.0.value.None? {
          LexSlice(lines, p.1);
        }
      } else {
        LexSlice(lines, NextLine(lines, c));
      }
    }
  }
}
