// The Token record of src/lib/tokenHelper/Token.java and the token kinds it carries.
module Tokens {
  /** The token kinds (IDToken) that the lexer and the semantic layer use. */
  datatype Kind =
    | PStruct | PImpl | PElse | PFalse | PIf | PRet | PWhile | PTrue | PNil | PNew | PFn | PSt | PPri | PSelf
    | TypeVoid | TypeInt | TypeStr | TypeChar | TypeBool | TypeArray
    | TypeArrayInt | TypeArrayStr | TypeArrayBool | TypeArrayChar
    | IdObject | IdStruct | IdStart | SpIO | SpObject
    | ConstInt | ConstStr | ConstChar
    | OMult | OMod | ODiv | OSum | OSub | OSumSum | OSubSub | ONot | ONotEq | OEqual | Assign
    | OMax | OMaxEq | OMin | OMinEq | OAnd | OOr
    | SParOpen | SParClose | SCorOpen | SCorClose | SKeyOpen | SKeyClose
    | SCom | SColon | SSemicolon | SDot | SArrowMethod
    | Eof

  /**
   * A token: its kind (`name`), its lexeme and where it starts.
   * The text of a kind (IDToken.toString) is not part of this model: every
   * member that needs it takes it as a `kindText` parameter.
   */
  datatype Token = Token(name: Kind, lexema: string, line: int, column: int)

  /** setName: the kind becomes `k` and the lexeme becomes the kind's text; the position stays. */
  function SetName(t: Token, k: Kind, kindText: Kind -> string): (r: Token)
    ensures r.name == k && r.lexema == kindText(k)
    ensures r.line == t.line && r.column == t.column
  {
    t.(name := k, lexema := kindText(k))
  }

  function DigitChar(d: nat): (c: char)
    requires d < 10
    ensures '0' <= c <= '9' && c as int - '0' as int == d
  {
    ['0', '1', '2', '3', '4', '5', '6', '7', '8', '9'][d]
  }

  /** Integer.toString on a non-negative value: its decimal digits, most significant first. */
  function NatText(n: nat): (s: string)
    ensures |s| >= 1
    ensures forall i :: 0 <= i < |s| ==> '0' <= s[i] <= '9'
    ensures |s| > 1 ==> s[0] != '0'
    decreases n
  {
    if n < 10 then [DigitChar(n)] else NatText(n / 10) + [DigitChar(n % 10)]
  }

  /** Integer.toString: a minus sign before the digits of a negative value. */
  function IntText(i: int): (s: string)
    ensures |s| >= 1
  {
    if i < 0 then "-" + NatText(-i) else NatText(i)
  }

  /** Reads a run of decimal digits back, most significant first. */
  function DigitsValue(s: string): nat
    requires forall i :: 0 <= i < |s| ==> '0' <= s[i] <= '9'
  {
    if s == [] then 0 else DigitsValue(s[..|s| - 1]) * 10 + (s[|s| - 1] as int - '0' as int)
  }

  /** Reads back the text that IntText writes. */
  function IntValue(s: string): int
    requires |s| >= 1
    requires s[0] == '-' ==> forall i :: 1 <= i < |s| ==> '0' <= s[i] <= '9'
    requires s[0] != '-' ==> forall i :: 0 <= i < |s| ==> '0' <= s[i] <= '9'
  {
    if s[0] == '-' then -(DigitsValue(s[1..]) as int) else DigitsValue(s)
  }

  lemma {:induction false} NatTextRoundTrip(n: nat)
    ensures DigitsValue(NatText(n)) == n
    decreases n
  {
    if n >= 10 {
      NatTextRoundTrip(n / 10);
      var s := NatText(n);
      assert s[..|s| - 1] == NatText(n / 10);
    }
  }

  /** The line and column numbers printed by Text read back to the same values. */
  lemma IntTextRoundTrip(i: int)
    ensures IntText(i)[0] == '-' <==> i < 0
    ensures IntValue(IntText(i)) == i
  {
    if i < 0 {
      NatTextRoundTrip(-i);
      assert IntText(i)[1..] == NatText(-i);
    } else {
      NatTextRoundTrip(i);
    }
  }

  /** Token.toString: "| kind | lexema | LINEA line (COLUMNA column) |". */
  function Text(t: Token, kindText: Kind -> string): (r: string)
    ensures |r| >= 29 + |kindText(t.name)| + |t.lexema|
    ensures r[..2] == "| " && r[2..2 + |kindText(t.name)|] == kindText(t.name)
    ensures r[|r| - 3..] == ") |"
    ensures var k := |kindText(t.name)|; r[2 + k..5 + k + |t.lexema|] == " | " + t.lexema
    ensures |r| == 27 + |kindText(t.name)| + |t.lexema| + |IntText(t.line)| + |IntText(t.column)|
    ensures var k := 5 + |kindText(t.name)| + |t.lexema|; var l := |IntText(t.line)|;
            r[k..k + 9] == " | LINEA " && r[k + 9..k + 9 + l] == IntText(t.line)
            && r[k + 9 + l..k + 19 + l] == " (COLUMNA "
            && r[k + 19 + l..|r| - 3] == IntText(t.column)
  {
    "| " + kindText(t.name) + " | " + t.lexema + " | LINEA " + IntText(t.line)
      + " (COLUMNA " + IntText(t.column) + ") |"
  }
}
