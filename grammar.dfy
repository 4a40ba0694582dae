/** The grammar symbols the log-linear model is trained over. */
module Grammar {

  /** A token; either a single symbol or a parenthesised compound such as `(NP VP)`. */
  type Token = string

  /** A right-hand side: the tuple of tokens that `re.findall(token_re, ...)` produced. */
  type Rhs = seq<Token>

  /** A rule, i.e. an (LHS, RHS) pair. */
  type Rule = (Token, Rhs)

  /** The LHSs of the rules that `rule` reads off `items`, each once. */
  function LhssOf<T(==)>(items: seq<T>, rule: T -> Rule): set<Token>
  {
    set x | x in items :: rule(x).0
  }

  /** The RHSs of those rules whose LHS is `l`, each once. */
  function RhssOf<T(==)>(items: seq<T>, rule: T -> Rule, l: Token): set<Rhs>
  {
    set x | x in items && rule(x).0 == l :: rule(x).1
  }

  /** One more item adds its LHS. */
  lemma LhssOfAppend<T>(items: seq<T>, rule: T -> Rule, x: T)
    ensures LhssOf(items + [x], rule) == LhssOf(items, rule) + {rule(x).0}
  {
    assert forall y :: y in items + [x] <==> y in items || y == x;
  }

  /** One more item adds its RHS under its own LHS. */
  lemma RhssOfAppend<T>(items: seq<T>, rule: T -> Rule, x: T, l: Token)
    ensures RhssOf(items + [x], rule, l)
      == RhssOf(items, rule, l) + (if rule(x).0 == l then {rule(x).1} else {})
  {
    assert forall y :: y in items + [x] <==> y in items || y == x;
  }
}
