/**
  The base class `LogLinModel` of opt.py, for a model given by its feature table
  (`lhs -> rhs -> feature vector`, what `lhss`, `rhss` and `featvec` expose) and its
  dimension: `score`/`featvec_dot`, `loglhdgrad`, `loglikelihood`, and the L2 terms
  `penalty`/`penaltygrad`.

  The probability table that `probs_from_model` computes by a softmax is a parameter, and so
  is `np.log`. Loops over dictionaries visit the keys in an arbitrary order; the results
  are stated as finite sums over key sets, which do not depend on that order.
*/
module LogLinModel {
  import opened Wrappers
  import opened Grammar
  import opened LinAlg
  import opened TrainingData

  /** `lhs -> rhs -> feature vector` */
  type FeatureTable = map<Token, map<Rhs, Vector>>

  /** `lhs -> rhs -> probability`, as `probs_from_model` returns it. */
  type ProbTable = map<Token, map<Rhs, real>>

  /** Every feature vector of the table has length `n`. */
  ghost predicate Dimensioned(table: FeatureTable, n: nat)
  {
    forall l, r :: l in table && r in table[l] ==> |table[l][r]| == n
  }

  /** Every `(lhs, rhs)` pair of `t` is also a pair of `u`. */
  ghost predicate PairsIn<V, W>(t: map<Token, map<Rhs, V>>, u: map<Token, map<Rhs, W>>)
  {
    forall l, r :: l in t && r in t[l] ==> l in u && r in u[l]
  }

  /** The probability of `(l, r)`, 0 for a pair the table lacks. */
  function Prob(probs: ProbTable, l: Token, r: Rhs): real
  {
    if l in probs && r in probs[l] then probs[l][r] else 0.0
  }

  /** The frequency of `(l, r)`, 0 for a pair the table lacks. */
  function Freq(td: FreqTable, l: Token, r: Rhs): int
  {
    if l in td && r in td[l] then td[l][r] else 0
  }

  /////////////////////////////////////////////////////////////////////////////
  // score and featvec_dot

  /** `score(weights, x, y)` with the base class's `featvec_dot`, `np.dot(weights,
      featvec(x, y))`; `None` when the pair is not in the model or the lengths differ
      (Python's KeyError or ValueError). */
  function Score(table: FeatureTable, w: Vector, x: Token, y: Rhs): (s: Option<real>)
    ensures s.Some? <==> x in table && y in table[x] && |table[x][y]| == |w|
  {
    if x in table && y in table[x] && |table[x][y]| == |w| then Some(Dot(w, table[x][y]))
    else None
  }

  /** The score is linear in the weights. */
  lemma ScoreLinear(table: FeatureTable, w1: Vector, w2: Vector, x: Token, y: Rhs)
    requires |w1| == |w2|
    requires x in table && y in table[x] && |table[x][y]| == |w1|
    ensures Score(table, Add(w1, w2), x, y).value
      == Score(table, w1, x, y).value + Score(table, w2, x, y).value
  {
    var f := table[x][y];
    DotComm(Add(w1, w2), f);
    DotAddRight(f, w1, w2);
    DotComm(f, w1);
    DotComm(f, w2);
  }

  /** Scaling the weights scales the score. */
  lemma ScoreScale(table: FeatureTable, c: real, w: Vector, x: Token, y: Rhs)
    requires x in table && y in table[x] && |table[x][y]| == |w|
    ensures Score(table, Scale(c, w), x, y).value == c * Score(table, w, x, y).value
  {
    var f := table[x][y];
    DotComm(Scale(c, w), f);
    DotScaleRight(f, c, w);
    DotComm(f, w);
  }

  /////////////////////////////////////////////////////////////////////////////
  // loglhdgrad

  /** `probtable[lhs][rhsp] * featvec(lhs, rhsp)`, one term of an expectation. */
  ghost function ExpTerm(table: FeatureTable, probs: ProbTable, n: nat, l: Token): Rhs -> Vector
  {
    (y: Rhs) =>
      if l in table && y in table[l] && |table[l][y]| == n then Scale(Prob(probs, l, y), table[l][y])
      else Zeros(n)
  }

  /** `expectation[l]`: the sum over the RHSs `y` of `l` of `p(y | l) * featvec(l, y)`. */
  ghost function Expectation(table: FeatureTable, probs: ProbTable, n: nat, l: Token): (e: Vector)
    ensures |e| == n
  {
    VSum(if l in table then table[l].Keys else {}, ExpTerm(table, probs, n, l), n)
  }

  /** `freq * (featvec(lhs, rhs) - expectation[lhs])`, one term of the gradient. */
  ghost function GradTerm(table: FeatureTable, probs: ProbTable, n: nat, td: FreqTable, l: Token): Rhs -> Vector
  {
    (r: Rhs) =>
      if l in table && r in table[l] && |table[l][r]| == n then
        Scale(Freq(td, l, r) as real, Sub(table[l][r], Expectation(table, probs, n, l)))
      else Zeros(n)
  }

  /** The gradient terms of one LHS of the training data, summed. */
  ghost function GradLhs(table: FeatureTable, probs: ProbTable, n: nat, td: FreqTable): Token -> Vector
  {
    (l: Token) => VSum(if l in td then td[l].Keys else {}, GradTerm(table, probs, n, td, l), n)
  }

  /** Equation (6) of Collins' notes on log-linear models, in the form opt.py:134-141
      describes: the sum over the training pairs of `freq * (f(x, y) - E_p[f(x, .)])`. */
  ghost function Gradient(table: FeatureTable, probs: ProbTable, n: nat, td: FreqTable): (g: Vector)
    ensures |g| == n
  {
    VSum(td.Keys, GradLhs(table, probs, n, td), n)
  }

  /** `loglhdgrad(td, weights)` with `probtable` given: `None` exactly when some training
      pair is not in the model (the KeyError of `featvec` or `expectation[lhs]`), otherwise
      the gradient. */
  method LogLhdGrad(table: FeatureTable, n: nat, td: FreqTable, probs: ProbTable)
    returns (g: Option<Vector>)
    requires Dimensioned(table, n)
    requires PairsIn(table, probs)
    ensures g.None? <==> !PairsIn(td, table)
    ensures g.Some? ==> |g.value| == n && g.value == Gradient(table, probs, n, td)
  {
    var expectation := ComputeExpectations(table, n, probs);
    var result := Zeros(n);
    var lhsLeft := td.Keys;
    while lhsLeft != {}
      invariant lhsLeft <= td.Keys
      invariant forall l, r :: l in td && l !in lhsLeft && r in td[l] ==> l in table && r in table[l]
      invariant |result| == n
      invariant result == VSum(td.Keys - lhsLeft, GradLhs(table, probs, n, td), n)
      decreases lhsLeft
    {
      var lhs :| lhs in lhsLeft;
      var next := AddLhsGradient(table, n, td, probs, expectation, lhs, result);
      if next.None? {
        ghost var rhs :| rhs in td[lhs] && !(lhs in table && rhs in table[lhs]);
        PairMissing(td, table, lhs, rhs);
        return None;
      }
      LhsStep(table, probs, n, td, lhsLeft, lhs, result, next.value);
      result := next.value;
      lhsLeft := lhsLeft - {lhs};
    }
    assert td.Keys - lhsLeft == td.Keys;
    AllPairsIn(td, table);
    return Some(result);
  }

  lemma PairMissing<V, W>(t: map<Token, map<Rhs, V>>, u: map<Token, map<Rhs, W>>, l: Token, r: Rhs)
    requires l in t && r in t[l] && !(l in u && r in u[l])
    ensures !PairsIn(t, u)
  {
  }

  lemma AllPairsIn<V, W>(t: map<Token, map<Rhs, V>>, u: map<Token, map<Rhs, W>>)
    requires forall l, r :: l in t && r in t[l] ==> l in u && r in u[l]
    ensures PairsIn(t, u)
  {
  }

  /** Closing the terms of one LHS of the training data. */
  lemma LhsStep(table: FeatureTable, probs: ProbTable, n: nat, td: FreqTable, lhsLeft: set<Token>,
                lhs: Token, result: Vector, next: Vector)
    requires lhsLeft <= td.Keys && lhs in lhsLeft
    requires result == VSum(td.Keys - lhsLeft, GradLhs(table, probs, n, td), n)
    requires next == Add(result, GradLhs(table, probs, n, td)(lhs))
    ensures next == VSum(td.Keys - (lhsLeft - {lhs}), GradLhs(table, probs, n, td), n)
  {
    AccumulateDone(td.Keys - lhsLeft, GradLhs(table, probs, n, td), n, lhs);
    assert td.Keys - (lhsLeft - {lhs}) == td.Keys - lhsLeft + {lhs};
  }

  /** The inner loop of the second part of `loglhdgrad`: adds the gradient terms of the
      training pairs of `lhs` to `result`, or fails on a pair the model lacks. */
  method AddLhsGradient(table: FeatureTable, n: nat, td: FreqTable, probs: ProbTable,
                        expectation: map<Token, Vector>, lhs: Token, result: Vector)
    returns (next: Option<Vector>)
    requires Dimensioned(table, n)
    requires expectation.Keys == table.Keys
    requires forall l :: l in expectation ==> expectation[l] == Expectation(table, probs, n, l)
    requires lhs in td && |result| == n
    ensures next.None? <==> exists r :: r in td[lhs] && !(lhs in table && r in table[lhs])
    ensures next.Some? ==> next.value == Add(result, GradLhs(table, probs, n, td)(lhs))
  {
    var d := td[lhs];
    ghost var f := GradTerm(table, probs, n, td, lhs);
    var acc := result;
    var rhsLeft := d.Keys;
    while rhsLeft != {}
      invariant rhsLeft <= d.Keys
      invariant forall r :: r in d && r !in rhsLeft ==> lhs in table && r in table[lhs]
      invariant |acc| == n
      invariant acc == Add(result, VSum(d.Keys - rhsLeft, f, n))
      decreases rhsLeft
    {
      var rhs :| rhs in rhsLeft;
      if lhs !in table || rhs !in table[lhs] {
        return None;
      }
      var term := Scale(d[rhs] as real, Sub(table[lhs][rhs], expectation[lhs]));
      GradStep(table, probs, n, td, lhs, rhs, rhsLeft, expectation[lhs], result, acc, term);
      acc := Add(acc, term);
      rhsLeft := rhsLeft - {rhs};
    }
    assert d.Keys - rhsLeft == d.Keys;
    return Some(acc);
  }

  /** The first loop of `loglhdgrad`: `expectation[lhs]` for every LHS of the model. */
  method ComputeExpectations(table: FeatureTable, n: nat, probs: ProbTable)
    returns (expectation: map<Token, Vector>)
    requires Dimensioned(table, n)
    requires PairsIn(table, probs)
    ensures expectation.Keys == table.Keys
    ensures forall l :: l in expectation ==> expectation[l] == Expectation(table, probs, n, l)
  {
    expectation := map[];
    var lhsLeft := table.Keys;
    while lhsLeft != {}
      invariant lhsLeft <= table.Keys
      invariant expectation.Keys == table.Keys - lhsLeft
      invariant forall l :: l in expectation ==> expectation[l] == Expectation(table, probs, n, l)
      decreases lhsLeft
    {
      var lhs :| lhs in lhsLeft;
      var foo := LhsExpectation(table, n, probs, lhs);
      expectation := expectation[lhs := foo];
      lhsLeft := lhsLeft - {lhs};
    }
  }

  /** The inner loop of the first part of `loglhdgrad`: `foo`, the expectation for one LHS. */
  method LhsExpectation(table: FeatureTable, n: nat, probs: ProbTable, lhs: Token)
    returns (foo: Vector)
    requires Dimensioned(table, n)
    requires PairsIn(table, probs)
    requires lhs in table
    ensures foo == Expectation(table, probs, n, lhs)
  {
    var f := ExpTerm(table, probs, n, lhs);
    foo := Zeros(n);
    var rhsLeft := table[lhs].Keys;
    while rhsLeft != {}
      invariant rhsLeft <= table[lhs].Keys
      invariant |foo| == n
      invariant foo == VSum(table[lhs].Keys - rhsLeft, f, n)
      decreases rhsLeft
    {
      var rhsp :| rhsp in rhsLeft;
      var featvec := table[lhs][rhsp];
      var term := Scale(probs[lhs][rhsp], featvec);
      ExpStep(table, probs, n, lhs, rhsp, rhsLeft, foo, term);
      foo := Add(foo, term);
      rhsLeft := rhsLeft - {rhsp};
    }
    assert table[lhs].Keys - rhsLeft == table[lhs].Keys;
  }

  /** One `foo += probtable[lhs][rhsp] * featvec(lhs, rhsp)`. */
  lemma ExpStep(table: FeatureTable, probs: ProbTable, n: nat, lhs: Token, rhsp: Rhs,
                rhsLeft: set<Rhs>, foo: Vector, term: Vector)
    requires Dimensioned(table, n) && PairsIn(table, probs)
    requires lhs in table && rhsp in rhsLeft && rhsLeft <= table[lhs].Keys
    requires foo == VSum(table[lhs].Keys - rhsLeft, ExpTerm(table, probs, n, lhs), n)
    requires term == Scale(probs[lhs][rhsp], table[lhs][rhsp])
    ensures Add(foo, term) == VSum(table[lhs].Keys - (rhsLeft - {rhsp}), ExpTerm(table, probs, n, lhs), n)
  {
    var f := ExpTerm(table, probs, n, lhs);
    var ks := table[lhs].Keys;
    ExpTermIs(table, probs, n, lhs, rhsp, term);
    AccumulateDone(ks - rhsLeft, f, n, rhsp);
    assert ks - (rhsLeft - {rhsp}) == ks - rhsLeft + {rhsp};
  }

  lemma ExpTermIs(table: FeatureTable, probs: ProbTable, n: nat, l: Token, r: Rhs, term: Vector)
    requires Dimensioned(table, n) && PairsIn(table, probs)
    requires l in table && r in table[l]
    requires term == Scale(probs[l][r], table[l][r])
    ensures ExpTerm(table, probs, n, l)(r) == term
  {
  }

  /** One `result += freq * (featvec(lhs, rhs) - expectation[lhs])`. */
  lemma GradStep(table: FeatureTable, probs: ProbTable, n: nat, td: FreqTable, lhs: Token, rhs: Rhs,
                 rhsLeft: set<Rhs>, e: Vector, result: Vector, acc: Vector, term: Vector)
    requires Dimensioned(table, n)
    requires lhs in table && rhs in table[lhs] && lhs in td && rhs in rhsLeft && rhsLeft <= td[lhs].Keys
    requires e == Expectation(table, probs, n, lhs) && |result| == n
    requires acc == Add(result, VSum(td[lhs].Keys - rhsLeft, GradTerm(table, probs, n, td, lhs), n))
    requires term == Scale(td[lhs][rhs] as real, Sub(table[lhs][rhs], e))
    ensures Add(acc, term)
      == Add(result, VSum(td[lhs].Keys - (rhsLeft - {rhs}), GradTerm(table, probs, n, td, lhs), n))
  {
    GradTermLength(table, probs, n, td, lhs);
    GradTermIs(table, probs, n, td, lhs, rhs, td[lhs], e, term);
    AccumulateTerm(result, td[lhs].Keys, rhsLeft, GradTerm(table, probs, n, td, lhs), n, rhs, acc, term);
  }

  lemma GradTermLength(table: FeatureTable, probs: ProbTable, n: nat, td: FreqTable, l: Token)
    ensures forall r :: |GradTerm(table, probs, n, td, l)(r)| == n
  {
  }

  lemma GradTermIs(table: FeatureTable, probs: ProbTable, n: nat, td: FreqTable, l: Token, r: Rhs,
                   d: map<Rhs, int>, e: Vector, term: Vector)
    requires Dimensioned(table, n)
    requires l in table && r in table[l] && l in td && d == td[l] && r in d
    requires e == Expectation(table, probs, n, l)
    requires term == Scale(d[r] as real, Sub(table[l][r], e))
    ensures GradTerm(table, probs, n, td, l)(r) == term
  {
  }

  /** Adding the term of a new key to a running total `base + sum` adds it to the sum. */
  lemma AccumulateStep<K>(base: Vector, ks: set<K>, f: K -> Vector, n: nat, x: K)
    requires |base| == n && |f(x)| == n && x !in ks
    requires forall k :: k in ks ==> |f(k)| == n
    ensures Add(Add(base, VSum(ks, f, n)), f(x)) == Add(base, VSum(ks + {x}, f, n))
  {
    VSumInsert(ks, f, n, x);
    AddAssoc(base, VSum(ks, f, n), f(x));
    AddComm(VSum(ks, f, n), f(x));
  }

  /** `acc += term` for the term of the next key of a loop over `all`. */
  lemma AccumulateTerm<K>(base: Vector, all: set<K>, left: set<K>, f: K -> Vector, n: nat, x: K,
                          acc: Vector, term: Vector)
    requires |base| == n && left <= all && x in left
    requires forall k :: |f(k)| == n
    requires acc == Add(base, VSum(all - left, f, n)) && term == f(x)
    ensures Add(acc, term) == Add(base, VSum(all - (left - {x}), f, n))
  {
    AccumulateStep(base, all - left, f, n, x);
    assert all - (left - {x}) == all - left + {x};
  }

  /** Closing an inner sum: `sum(done) + inner(l) == sum(done + {l})`. */
  lemma AccumulateDone<K>(done: set<K>, f: K -> Vector, n: nat, x: K)
    requires x !in done && |f(x)| == n
    requires forall k :: k in done ==> |f(k)| == n
    ensures Add(VSum(done, f, n), f(x)) == VSum(done + {x}, f, n)
  {
    VSumInsert(done, f, n, x);
    AddComm(VSum(done, f, n), f(x));
  }

  /////////////////////////////////////////////////////////////////////////////
  // Observed minus expected feature counts

  /** `freq * featvec(l, r)`, one observed term. */
  ghost function ObsTerm(table: FeatureTable, n: nat, td: FreqTable, l: Token): Rhs -> Vector
  {
    (r: Rhs) =>
      if l in table && r in table[l] && |table[l][r]| == n then Scale(Freq(td, l, r) as real, table[l][r])
      else Zeros(n)
  }

  /** `freq * expectation[l]`, the expected counterpart of one observed term. */
  ghost function ExpCountTerm(table: FeatureTable, probs: ProbTable, n: nat, td: FreqTable, l: Token): Rhs -> Vector
  {
    (r: Rhs) =>
      if l in table && r in table[l] && |table[l][r]| == n then
        Scale(Freq(td, l, r) as real, Expectation(table, probs, n, l))
      else Zeros(n)
  }

  ghost function FreqOf(td: FreqTable, l: Token): Rhs -> real
  {
    (r: Rhs) => Freq(td, l, r) as real
  }

  /** The observed feature counts of one LHS, `sum_y freq(l, y) * f(l, y)`. */
  ghost function ObservedLhs(table: FeatureTable, n: nat, td: FreqTable): Token -> Vector
  {
    (l: Token) => VSum(if l in td then td[l].Keys else {}, ObsTerm(table, n, td, l), n)
  }

  /** The expected feature counts of one LHS: its total frequency times its expectation. */
  ghost function ExpectedLhs(table: FeatureTable, probs: ProbTable, n: nat, td: FreqTable): Token -> Vector
  {
    (l: Token) =>
      Scale(RSum(if l in td then td[l].Keys else {}, FreqOf(td, l)), Expectation(table, probs, n, l))
  }

  /** The observed feature counts of the training data. */
  ghost function Observed(table: FeatureTable, n: nat, td: FreqTable): (o: Vector)
    ensures |o| == n
  {
    VSum(td.Keys, ObservedLhs(table, n, td), n)
  }

  /** The feature counts the model expects for the training data's LHS frequencies. */
  ghost function Expected(table: FeatureTable, probs: ProbTable, n: nat, td: FreqTable): (e: Vector)
    ensures |e| == n
  {
    VSum(td.Keys, ExpectedLhs(table, probs, n, td), n)
  }

  /** The gradient terms of one LHS are its observed minus its expected counts. */
  lemma GradLhsSplit(table: FeatureTable, probs: ProbTable, n: nat, td: FreqTable, l: Token)
    requires Dimensioned(table, n) && PairsIn(td, table) && l in td
    ensures GradLhs(table, probs, n, td)(l)
      == Sub(ObservedLhs(table, n, td)(l), ExpectedLhs(table, probs, n, td)(l))
  {
    var ks := td[l].Keys;
    var e := Expectation(table, probs, n, l);
    forall r | r in ks
      ensures GradTerm(table, probs, n, td, l)(r)
        == Sub(ObsTerm(table, n, td, l)(r), ExpCountTerm(table, probs, n, td, l)(r))
    {
      ScaleSub(Freq(td, l, r) as real, table[l][r], e);
    }
    VSumSub(ks, ObsTerm(table, n, td, l), ExpCountTerm(table, probs, n, td, l), GradTerm(table, probs, n, td, l), n);
    VSumScale(ks, FreqOf(td, l), ExpCountTerm(table, probs, n, td, l), e);
  }

  /** The re-expression of equation (6) of Collins' notes that opt.py:134-141 describes: the
      gradient is the observed feature counts minus the expected ones. */
  lemma GradientIsObservedMinusExpected(table: FeatureTable, probs: ProbTable, n: nat, td: FreqTable)
    requires Dimensioned(table, n) && PairsIn(td, table)
    ensures Gradient(table, probs, n, td) == Sub(Observed(table, n, td), Expected(table, probs, n, td))
  {
    forall l | l in td.Keys
      ensures GradLhs(table, probs, n, td)(l)
        == Sub(ObservedLhs(table, n, td)(l), ExpectedLhs(table, probs, n, td)(l))
    {
      GradLhsSplit(table, probs, n, td, l);
    }
    VSumSub(td.Keys, ObservedLhs(table, n, td), ExpectedLhs(table, probs, n, td), GradLhs(table, probs, n, td), n);
  }

  /////////////////////////////////////////////////////////////////////////////
  // loglikelihood

  /** `np.finfo('float').min`, the most negative finite double, `-(2 - 2^-52) * 2^1023`. */
  const FloatMin: real := -179769313486231570814527423731704356798070567525844996598917476803157260780028538760589558632766878171540458953514382464234321326889464182768467546703537516986049910576551282076245490090389328944075868508455133942304583236903222948165808559332123348274797826204144723168738177180919299881250404026184124858368.0

  /** Some training pair has probability 0. */
  ghost predicate HasZeroProb(td: FreqTable, probs: ProbTable)
  {
    exists l, r :: l in td && r in td[l] && l in probs && r in probs[l] && probs[l][r] == 0.0
  }

  /** `freq * logprob(lhs, rhs)` */
  ghost function LLTerm(td: FreqTable, probs: ProbTable, log: real -> real, l: Token): Rhs -> real
  {
    (r: Rhs) => Freq(td, l, r) as real * log(Prob(probs, l, r))
  }

  ghost function LLLhs(td: FreqTable, probs: ProbTable, log: real -> real): Token -> real
  {
    (l: Token) => RSum(if l in td then td[l].Keys else {}, LLTerm(td, probs, log, l))
  }

  /** Adding the term of a new key to a running sum. */
  lemma RSumStep<K>(done: set<K>, f: K -> real, x: K, total: real, term: real)
    requires x !in done && total == RSum(done, f) && term == f(x)
    ensures total + term == RSum(done + {x}, f)
  {
    RSumInsert(done, f, x);
  }

  lemma LLTermIs(td: FreqTable, probs: ProbTable, log: real -> real, l: Token, r: Rhs,
                 d: map<Rhs, int>, prob: real)
    requires l in td && d == td[l] && r in d && l in probs && r in probs[l] && prob == probs[l][r]
    ensures LLTerm(td, probs, log, l)(r) == d[r] as real * log(prob)
  {
    var x, y := Freq(td, l, r) as real, log(Prob(probs, l, r));
    assert x == d[r] as real;
    assert y == log(prob);
    assert LLTerm(td, probs, log, l)(r) == x * y;
  }

  /** The log-likelihood of the training data: the sum over its pairs of
      `freq * log p(rhs | lhs)`. */
  ghost function LogLikelihoodSum(td: FreqTable, probs: ProbTable, log: real -> real): real
  {
    RSum(td.Keys, LLLhs(td, probs, log))
  }

  /** How the terms of one LHS end: a pair without a probability (KeyError), a zero
      probability (ProbabilityZeroError), or the sum of the terms. */
  datatype LhsOutcome = KeyMissing | ZeroProbability | Total(value: real)

  /** `loglikelihood(td, weights)` with `probtable` and `np.log` given. When every training
      pair has a probability, the result is the sentinel `FloatMin` if one of them is 0
      and the log-likelihood otherwise. A pair without a probability raises KeyError
      (`None`); when there are both such a pair and a zero probability, which one the loop
      meets first decides between KeyError and the sentinel. */
  method LogLikelihood(td: FreqTable, probs: ProbTable, log: real -> real) returns (ll: Option<real>)
    ensures PairsIn(td, probs) ==>
      ll == Some(if HasZeroProb(td, probs) then FloatMin else LogLikelihoodSum(td, probs, log))
    ensures !PairsIn(td, probs) && !HasZeroProb(td, probs) ==> ll.None?
    ensures !PairsIn(td, probs) && HasZeroProb(td, probs) ==> ll.None? || ll == Some(FloatMin)
  {
    var acc := 0.0;
    var lhsLeft := td.Keys;
    while lhsLeft != {}
      invariant lhsLeft <= td.Keys
      invariant forall l, r :: l in td && l !in lhsLeft && r in td[l] ==>
        l in probs && r in probs[l] && probs[l][r] != 0.0
      invariant acc == RSum(td.Keys - lhsLeft, LLLhs(td, probs, log))
      decreases lhsLeft
    {
      var lhs :| lhs in lhsLeft;
      var done := td.Keys - lhsLeft;
      var outcome := LhsLogLikelihood(td, probs, log, lhs);
      match outcome {
        case KeyMissing =>
          return None;
        case ZeroProbability =>
          assert HasZeroProb(td, probs);
          return Some(FloatMin);
        case Total(inner) =>
          RSumStep(done, LLLhs(td, probs, log), lhs, acc, inner);
          acc := acc + inner;
      }
      lhsLeft := lhsLeft - {lhs};
      assert td.Keys - lhsLeft == done + {lhs};
    }
    assert td.Keys - lhsLeft == td.Keys;
    return Some(acc);
  }

  /** `sum([freq * logprob(lhs, rhs) for (rhs, freq) in d.items()])` for `d = td[lhs]`. */
  method LhsLogLikelihood(td: FreqTable, probs: ProbTable, log: real -> real, lhs: Token)
    returns (outcome: LhsOutcome)
    requires lhs in td
    ensures outcome == KeyMissing ==> exists r :: r in td[lhs] && !(lhs in probs && r in probs[lhs])
    ensures outcome == ZeroProbability ==>
      exists r :: r in td[lhs] && lhs in probs && r in probs[lhs] && probs[lhs][r] == 0.0
    ensures (forall r :: r in td[lhs] ==> lhs in probs && r in probs[lhs] && probs[lhs][r] != 0.0) ==>
      outcome.Total?
    ensures outcome.Total? ==>
      (forall r :: r in td[lhs] ==> lhs in probs && r in probs[lhs] && probs[lhs][r] != 0.0)
      && outcome.value == LLLhs(td, probs, log)(lhs)
  {
    var d := td[lhs];
    var inner := 0.0;
    var rhsLeft := d.Keys;
    while rhsLeft != {}
      invariant rhsLeft <= d.Keys
      invariant forall r :: r in d && r !in rhsLeft ==>
        lhs in probs && r in probs[lhs] && probs[lhs][r] != 0.0
      invariant inner == RSum(d.Keys - rhsLeft, LLTerm(td, probs, log, lhs))
      decreases rhsLeft
    {
      var rhs :| rhs in rhsLeft;
      if lhs !in probs || rhs !in probs[lhs] {
        return KeyMissing;
      }
      var prob := probs[lhs][rhs];
      if prob == 0.0 {
        return ZeroProbability;
      }
      var term := d[rhs] as real * log(prob);
      LLTermIs(td, probs, log, lhs, rhs, d, prob);
      RSumStep(d.Keys - rhsLeft, LLTerm(td, probs, log, lhs), rhs, inner, term);
      inner := inner + term;
      assert d.Keys - (rhsLeft - {rhs}) == d.Keys - rhsLeft + {rhs};
      rhsLeft := rhsLeft - {rhs};
    }
    assert d.Keys - rhsLeft == d.Keys;
    return Total(inner);
  }

  /////////////////////////////////////////////////////////////////////////////
  // L2 regularization

  /** `penalty(lam, weights)`: `(lam / 2) * norm(weights)**2`, with the squared norm as a
      sum of squares. */
  function Penalty(lam: real, w: Vector): (p: real)
    ensures lam >= 0.0 ==> p >= 0.0
  {
    NormSquaredNonNegative(w);
    (lam / 2.0) * NormSquared(w)
  }

  /** `penaltygrad(lam, weights)` */
  function PenaltyGrad(lam: real, w: Vector): (g: Vector)
    ensures |g| == |w|
  {
    Scale(lam, w)
  }

  /** A sum of squares is never negative. */
  lemma {:induction false} NormSquaredNonNegative(v: Vector)
    ensures NormSquared(v) >= 0.0
  {
    if |v| > 0 {
      NormSquaredNonNegative(v[1..]);
    }
  }

  /** The penalty is 0 at the origin, whatever `lam`. */
  lemma PenaltyAtOrigin(lam: real, n: nat)
    ensures Penalty(lam, Zeros(n)) == 0.0
  {
    DotZeros(Zeros(n));
  }

  /** `penaltygrad` is the gradient of `penalty`: moving the weights by `d` changes the
      penalty by the gradient's dot product with `d`, plus the penalty of `d` itself,
      which is of second order in `d`. */
  lemma PenaltyGradIsGradient(lam: real, w: Vector, d: Vector)
    requires |w| == |d|
    ensures Penalty(lam, Add(w, d)) == Penalty(lam, w) + Dot(PenaltyGrad(lam, w), d) + Penalty(lam, d)
  {
    NormSquaredOfSum(w, d);
    DotScaleLeft(lam, w, d);
    HalfExpansion(lam, NormSquared(Add(w, d)), NormSquared(w), Dot(w, d), NormSquared(d));
  }

  lemma HalfExpansion(lam: real, x: real, a: real, b: real, c: real)
    requires x == a + 2.0 * b + c
    ensures (lam / 2.0) * x == (lam / 2.0) * a + lam * b + (lam / 2.0) * c
  {
  }
}
