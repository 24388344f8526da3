// The reserved-word tables of src/lib/Const.java.
module Keywords {
  import opened Tokens

  /** KEY_WORDS: the lowercase reserved words. `pub` is not among them. */
  const KeyWords: map<string, Kind> := map[
    "struct" := PStruct, "impl" := PImpl, "else" := PElse, "false" := PFalse,
    "if" := PIf, "ret" := PRet, "while" := PWhile, "true" := PTrue,
    "nil" := PNil, "new" := PNew, "fn" := PFn, "st" := PSt,
    "pri" := PPri, "self" := PSelf, "void" := TypeVoid]

  /** KEY_TYPE_WORDS: the capitalised names of the predefined types. */
  const KeyTypeWords: map<string, Kind> := map[
    "Int" := TypeInt, "Str" := TypeStr, "Char" := TypeChar, "Bool" := TypeBool, "Array" := TypeArray]

  predicate StartsLower(w: string) { |w| > 0 && 'a' <= w[0] <= 'z' }
  predicate StartsUpper(w: string) { |w| > 0 && 'A' <= w[0] <= 'Z' }

  /** KEY_WORDS holds exactly fifteen words, `void` maps to the void type and `pub` is absent. */
  lemma KeyWordsContents()
    ensures KeyWords.Keys == {"struct", "impl", "else", "false", "if", "ret", "while", "true",
                              "nil", "new", "fn", "st", "pri", "self", "void"}
    ensures KeyWords["void"] == TypeVoid && "pub" !in KeyWords
  {
    assert "pub"[0] == 'p' && "pub"[1] == 'u';
  }

  /** Every reserved word starts lowercase, every type word uppercase: the tables are disjoint. */
  lemma TablesDisjoint()
    ensures forall w :: w in KeyWords ==> StartsLower(w)
    ensures forall w :: w in KeyTypeWords ==> StartsUpper(w)
    ensures KeyWords.Keys !! KeyTypeWords.Keys
  {
    forall w | w in KeyWords ensures StartsLower(w) { }
    forall w | w in KeyTypeWords ensures StartsUpper(w) { }
  }

  /** The kinds a reserved word can stand for. */
  const KeyWordKinds: set<Kind> := {PStruct, PImpl, PElse, PFalse, PIf, PRet, PWhile, PTrue,
                                    PNil, PNew, PFn, PSt, PPri, PSelf, TypeVoid}

  /** The two tables never map to the same kind, and no reserved word maps to an identifier kind. */
  lemma TableKindsDistinct()
    ensures forall w :: w in KeyWords ==> KeyWords[w] in KeyWordKinds
    ensures forall w :: w in KeyTypeWords ==> KeyTypeWords[w] in {TypeInt, TypeStr, TypeChar, TypeBool, TypeArray}
    ensures KeyWordKinds !! {TypeInt, TypeStr, TypeChar, TypeBool, TypeArray, IdObject, IdStruct, SpIO, SpObject}
  {
  }
}
