/**
  `LogLinModelBasic` of opt.py: every rule of a list is its own feature. The feature vector
  of the rule at list position `i` is the `i`-th standard basis vector, and the dot product
  with a weight vector selects the weight at that position. Positions and vectors are
  memoised in two dictionaries.
*/
module IndicatorFeatures {
  import opened Wrappers
  import opened Grammar
  import opened LinAlg
  import opened LogLinModel

  /** The position of the first occurrence of `x` in `rules`, as `list.index` finds it;
      `None` where it raises ValueError. */
  function IndexOf(rules: seq<Rule>, x: Rule): (r: Option<nat>)
    ensures r.Some? ==> r.value < |rules| && rules[r.value] == x
    ensures r.Some? ==> forall j :: 0 <= j < r.value ==> rules[j] != x
    ensures r.None? <==> x !in rules
  {
    if |rules| == 0 then None
    else if rules[0] == x then Some(0)
    else
      match IndexOf(rules[1..], x)
      case None => None
      case Some(i) => Some(i + 1)
  }

  /** A listed rule is its own rule. */
  function Listed(r: Rule): Rule
  {
    r
  }

  /** The feature table the indicator model stands for: each listed pair with the basis
      vector of its first position. */
  ghost function IndicatorTable(rules: seq<Rule>): (t: FeatureTable)
    ensures forall l, y :: l in t && y in t[l] <==> (l, y) in rules
  {
    map l | l in LhssOf(rules, Listed) ::
      map y | y in RhssOf(rules, Listed, l) :: Basis(|rules|, IndexOf(rules, (l, y)).value)
  }

  /** Every vector of the table has one entry per listed rule, duplicates included. */
  lemma IndicatorDimensioned(rules: seq<Rule>)
    ensures Dimensioned(IndicatorTable(rules), |rules|)
  {
    var t := IndicatorTable(rules);
    forall l, y | l in t && y in t[l] ensures |t[l][y]| == |rules| {
      assert t[l][y] == Basis(|rules|, IndexOf(rules, (l, y)).value);
    }
  }

  /** The base model's score on the indicator table, `np.dot(w, featvec(x, y))`, is the weight
      at the pair's first position. */
  lemma IndicatorScore(rules: seq<Rule>, w: Vector, x: Token, y: Rhs)
    requires |w| == |rules|
    ensures Score(IndicatorTable(rules), w, x, y)
      == if (x, y) in rules then Some(w[IndexOf(rules, (x, y)).value]) else None
  {
    var t := IndicatorTable(rules);
    if (x, y) in rules {
      var i := IndexOf(rules, (x, y)).value;
      assert t[x][y] == Basis(|w|, i);
      DotBasis(w, i);
    }
  }

  /** A rule listed twice: its later position is a dimension no feature vector sets. */
  lemma DeadDimension(rules: seq<Rule>, i: nat, j: nat)
    requires i < j < |rules| && rules[i] == rules[j]
    ensures forall x :: IndexOf(rules, x) != Some(j)
    ensures var t := IndicatorTable(rules);
      forall l, y :: l in t && y in t[l] ==> t[l][y][j] == 0.0
  {
    var t := IndicatorTable(rules);
    forall l, y | l in t && y in t[l] ensures t[l][y][j] == 0.0 {
      var k := IndexOf(rules, (l, y)).value;
      assert t[l][y] == Basis(|rules|, k);
      assert k != j;
    }
  }

  /** A vector of zeros with a 1 at position `i` is the basis vector of `i`. */
  lemma OneHot(v: Vector, i: nat)
    requires i < |v| && v[i] == 1.0
    requires forall k :: 0 <= k < |v| && k != i ==> v[k] == 0.0
    ensures v == Basis(|v|, i)
  {
  }

  /** Why `featvec_dot` fails: the pair is not listed (ValueError), or the weight vector is
      too short for its position (IndexError). */
  datatype DotFailure = RuleNotFound | IndexOutOfRange

  class IndicatorModel {
    /** `_rulelist` */
    const ruleList: seq<Rule>
    /** `_indexdict` */
    var indexMemo: map<Rule, nat>
    /** `_featvecdict` */
    var featvecMemo: map<Rule, Vector>

    /** Every memoised position is the first position of its rule, and every memoised
        vector is the basis vector of that position. */
    ghost predicate Valid()
      reads this
    {
      (forall x :: x in indexMemo ==> IndexOf(ruleList, x) == Some(indexMemo[x]))
      && (forall x :: x in featvecMemo ==>
        IndexOf(ruleList, x).Some? && featvecMemo[x] == Basis(|ruleList|, IndexOf(ruleList, x).value))
    }

    /** `LogLinModelBasic(rulelist)` */
    constructor(rulelist: seq<Rule>)
      ensures ruleList == rulelist && indexMemo == map[] && featvecMemo == map[]
      ensures Valid()
    {
      ruleList := rulelist;
      indexMemo := map[];
      featvecMemo := map[];
    }

    /** `dim()`: one dimension per listed rule, duplicates included, so every rule's position
        is a dimension. */
    function Dim(): (n: nat)
      ensures n == |ruleList|
      ensures forall x :: x in ruleList ==> IndexOf(ruleList, x).value < n
    {
      |ruleList|
    }

    /** `lhss()`: the LHSs of the listed rules, each once (in no particular order). */
    function Lhss(): (ls: set<Token>)
      ensures forall x :: x in ls <==> exists y :: (x, y) in ruleList
    {
      LhssOf(ruleList, Listed)
    }

    /** `rhss(x)`: the RHSs listed with `x`, each once; none for an unlisted `x`. */
    function Rhss(x: Token): (rs: set<Rhs>)
      ensures forall y :: y in rs <==> (x, y) in ruleList
    {
      RhssOf(ruleList, Listed, x)
    }

    /** `find_index(lhs, rhs)`: the first position of the pair, remembered once found; a
        remembered position is returned as it was stored. */
    method FindIndex(lhs: Token, rhs: Rhs) returns (r: Option<nat>)
      requires Valid()
      modifies this
      ensures Valid()
      ensures r == IndexOf(ruleList, (lhs, rhs))
      ensures (lhs, rhs) in old(indexMemo) ==> r == Some(old(indexMemo)[(lhs, rhs)])
      ensures indexMemo == if r.Some? then old(indexMemo)[(lhs, rhs) := r.value] else old(indexMemo)
      ensures featvecMemo == old(featvecMemo)
    {
      var key := (lhs, rhs);
      if key in indexMemo {
        r := Some(indexMemo[key]);
        assert indexMemo[key := r.value] == indexMemo;
        return;
      }
      r := IndexOf(ruleList, key);
      if r.Some? {
        indexMemo := indexMemo[key := r.value];
      }
    }

    /** `featvec(lhs, rhs)`: a vector of `dim()` zeros with a 1 at the pair's first position,
        remembered once built; `None` (ValueError) for an unlisted pair. */
    method Featvec(lhs: Token, rhs: Rhs) returns (v: Option<Vector>)
      requires Valid()
      modifies this
      ensures Valid()
      ensures v.None? <==> (lhs, rhs) !in ruleList
      ensures v.Some? ==> v.value == Basis(Dim(), IndexOf(ruleList, (lhs, rhs)).value)
      ensures (lhs, rhs) in old(featvecMemo) ==> indexMemo == old(indexMemo) && featvecMemo == old(featvecMemo)
      ensures (lhs, rhs) !in old(featvecMemo) && v.Some? ==>
        indexMemo == old(indexMemo)[(lhs, rhs) := IndexOf(ruleList, (lhs, rhs)).value]
        && featvecMemo == old(featvecMemo)[(lhs, rhs) := v.value]
      ensures v.None? ==> indexMemo == old(indexMemo) && featvecMemo == old(featvecMemo)
    {
      var key := (lhs, rhs);
      if key in featvecMemo {
        return Some(featvecMemo[key]);
      }
      var index := FindIndex(lhs, rhs);
      if index.None? {
        return None;
      }
      var a := new real[|ruleList|](_ => 0.0);
      a[index.value] := 1.0;
      var vec := a[..];
      OneHot(vec, index.value);
      featvecMemo := featvecMemo[key := vec];
      return Some(vec);
    }

    /** `featvec_dot(x, y, w)`, which is also `score(x, y, w)`: the weight at the pair's first
        position. It agrees with the base model's `np.dot(w, featvec(x, y))` whenever
        `w` has `dim()` entries. */
    method FeatvecDot(x: Token, y: Rhs, w: Vector) returns (r: Result<real, DotFailure>)
      requires Valid()
      modifies this
      ensures Valid() && featvecMemo == old(featvecMemo)
      ensures r == Failure(RuleNotFound) <==> (x, y) !in ruleList
      ensures r == Failure(IndexOutOfRange) <==> (x, y) in ruleList && IndexOf(ruleList, (x, y)).value >= |w|
      ensures r.Success? ==> r.value == w[IndexOf(ruleList, (x, y)).value]
      ensures |w| == Dim() ==> Score(IndicatorTable(ruleList), w, x, y) == if r.Success? then Some(r.value) else None
      ensures indexMemo == if (x, y) in ruleList then old(indexMemo)[(x, y) := IndexOf(ruleList, (x, y)).value]
        else old(indexMemo)
    {
      var index := FindIndex(x, y);
      if index.None? {
        r := Failure(RuleNotFound);
      } else if index.value >= |w| {
        r := Failure(IndexOutOfRange);
      } else {
        r := Success(w[index.value]);
      }
      if |w| == |ruleList| {
        IndicatorScore(ruleList, w, x, y);
      }
    }
  }
}
