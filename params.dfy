// The formal parameter of src/lib/semanticHelper/symbolTableHelper/Param.java.
module Params {
  import opened Tokens

  /** A parameter: its name token, its type token and its position in the list. */
  datatype Param = Param(token: Token, paramType: Token, position: int)

  /** The parameter's name (Metadata.getName: the lexeme of its token). */
  function Name(p: Param): string { p.token.lexema }

  /** toString: the type token's text, a space, then the parameter's name. */
  function Text(p: Param, kindText: Kind -> string): (r: string)
    ensures |r| == |Tokens.Text(p.paramType, kindText)| + 1 + |Name(p)|
    ensures r[..|Tokens.Text(p.paramType, kindText)|] == Tokens.Text(p.paramType, kindText)
    ensures r[|Tokens.Text(p.paramType, kindText)|] == ' '
  {
    Tokens.Text(p.paramType, kindText) + " " + Name(p)
  }

  /** The name can be read back from the text, so two parameters of the same type print alike only when their names agree. */
  lemma TextNamesParameter(p: Param, q: Param, kindText: Kind -> string)
    requires p.paramType == q.paramType
    ensures Text(p, kindText)[|Tokens.Text(p.paramType, kindText)| + 1..] == Name(p)
    ensures Text(p, kindText) == Text(q, kindText) <==> Name(p) == Name(q)
  {
    var t := Tokens.Text(p.paramType, kindText);
    assert Text(p, kindText)[|t| + 1..] == Name(p);
    assert Text(q, kindText)[|t| + 1..] == Name(q);
  }
}
