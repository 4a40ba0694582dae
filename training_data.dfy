/**
  `extract_training_data` of opt.py: folding `(freq, lhs, rhs)` records into the nested
  table `td[lhs][rhs]` of summed frequencies.
*/
module TrainingData {
  import opened Grammar

  /** One training record, `(freq, lhs, rhs)`. */
  datatype Observation = Observation(freq: int, lhs: Token, rhs: Rhs)

  /** The nested `lhs -> rhs -> frequency` dictionary. */
  type FreqTable = map<Token, map<Rhs, int>>

  /** The rule a record counts. */
  function ObservedRule(o: Observation): Rule
  {
    (o.lhs, o.rhs)
  }

  /** The LHSs that occur in the records. */
  ghost function LhsSet(obs: seq<Observation>): set<Token>
  {
    LhssOf(obs, ObservedRule)
  }

  /** The RHSs that occur with LHS `l` in the records. */
  ghost function RhsSet(obs: seq<Observation>, l: Token): set<Rhs>
  {
    RhssOf(obs, ObservedRule, l)
  }

  /** The sum of the frequencies of all records for the pair `(l, r)`. */
  ghost function SumFreq(obs: seq<Observation>, l: Token, r: Rhs): int
  {
    if |obs| == 0 then 0
    else
      var o := obs[|obs| - 1];
      SumFreq(obs[..|obs| - 1], l, r) + (if o.lhs == l && o.rhs == r then o.freq else 0)
  }

  /** `td` is the table of the records `obs`: its keys are exactly the LHSs that occur,
      each inner table's keys exactly the RHSs that occur with that LHS, and every entry is
      the sum of the frequencies of its records. */
  ghost predicate Tabulates(td: FreqTable, obs: seq<Observation>)
  {
    td.Keys == LhsSet(obs)
    && (forall l :: l in td ==> td[l].Keys == RhsSet(obs, l))
    && (forall l, r :: l in td && r in td[l] ==> td[l][r] == SumFreq(obs, l, r))
  }

  /** `extract_training_data(inp)`; the table is built also for pairs whose frequencies sum
      to 0, since the defaultdict creates the entry before adding. */
  method ExtractTrainingData(inp: seq<Observation>) returns (td: FreqTable)
    ensures Tabulates(td, inp)
  {
    td := map[];
    var i := 0;
    while i < |inp|
      invariant 0 <= i <= |inp|
      invariant Tabulates(td, inp[..i])
    {
      var o := inp[i];
      assert inp[..i + 1] == inp[..i] + [o];
      TabulatesStep(td, inp[..i], o, inp[..i + 1]);
      td := Bump(td, o);
      i := i + 1;
    }
    assert inp[..|inp|] == inp;
  }

  /** The table after one `td[lhs][rhs] += freq` on a defaultdict of defaultdicts. */
  function Bump(td: FreqTable, o: Observation): (t: FreqTable)
    ensures t.Keys == td.Keys + {o.lhs}
    ensures t[o.lhs].Keys == (if o.lhs in td then td[o.lhs].Keys else {}) + {o.rhs}
    ensures t[o.lhs][o.rhs] - o.freq == if o.lhs in td && o.rhs in td[o.lhs] then td[o.lhs][o.rhs] else 0
    ensures forall l :: l in td && l != o.lhs ==> t[l] == td[l]
    ensures forall r :: o.lhs in td && r in td[o.lhs] && r != o.rhs ==> t[o.lhs][r] == td[o.lhs][r]
    ensures forall l, r :: l in td && r in td[l] && (l, r) != (o.lhs, o.rhs) ==>
      l in t && r in t[l] && t[l][r] == td[l][r]
  {
    var d := if o.lhs in td then td[o.lhs] else map[];
    var prev := if o.rhs in d then d[o.rhs] else 0;
    td[o.lhs := d[o.rhs := prev + o.freq]]
  }

  /** One `td[lhs][rhs] += freq` extends the table by one record. */
  lemma TabulatesStep(td: FreqTable, obs: seq<Observation>, o: Observation, obs': seq<Observation>)
    requires Tabulates(td, obs)
    requires obs' == obs + [o]
    ensures Tabulates(Bump(td, o), obs')
  {
    var td' := Bump(td, o);
    LhsSetStep(obs, o);
    forall l | l in td' ensures td'[l].Keys == RhsSet(obs', l) {
      RhsSetStep(obs, o, l);
    }
    BumpSums(td, obs, o);
  }

  lemma BumpSums(td: FreqTable, obs: seq<Observation>, o: Observation)
    requires Tabulates(td, obs)
    ensures forall l, r :: l in Bump(td, o) && r in Bump(td, o)[l] ==>
      Bump(td, o)[l][r] == SumFreq(obs + [o], l, r)
  {
    var td' := Bump(td, o);
    var d := if o.lhs in td then td[o.lhs] else map[];
    if o.rhs !in d {
      if o.lhs in td {
        SumFreqAbsentRhs(obs, o.lhs, o.rhs);
      } else {
        SumFreqAbsentLhs(obs, o.lhs, o.rhs);
      }
    }
    forall l, r | l in td' && r in td'[l] ensures td'[l][r] == SumFreq(obs + [o], l, r) {
      SumFreqStep(obs, o, l, r);
    }
  }

  lemma LhsSetStep(obs: seq<Observation>, o: Observation)
    ensures LhsSet(obs + [o]) == LhsSet(obs) + {o.lhs}
  {
    LhssOfAppend(obs, ObservedRule, o);
  }

  lemma SumFreqStep(obs: seq<Observation>, o: Observation, l: Token, r: Rhs)
    ensures SumFreq(obs + [o], l, r) == SumFreq(obs, l, r) + (if o.lhs == l && o.rhs == r then o.freq else 0)
  {
    assert (obs + [o])[..|obs|] == obs;
  }

  lemma RhsSetStep(obs: seq<Observation>, o: Observation, l: Token)
    ensures RhsSet(obs + [o], l) == RhsSet(obs, l) + (if o.lhs == l then {o.rhs} else {})
  {
    RhssOfAppend(obs, ObservedRule, o, l);
  }

  lemma SumFreqAbsentRhs(obs: seq<Observation>, l: Token, r: Rhs)
    requires r !in RhsSet(obs, l)
    ensures SumFreq(obs, l, r) == 0
  {
    forall k | 0 <= k < |obs| ensures obs[k].lhs != l || obs[k].rhs != r {
      assert obs[k] in obs;
    }
    SumFreqAbsent(obs, l, r);
  }

  lemma SumFreqAbsentLhs(obs: seq<Observation>, l: Token, r: Rhs)
    requires l !in LhsSet(obs)
    ensures SumFreq(obs, l, r) == 0
  {
    forall k | 0 <= k < |obs| ensures obs[k].lhs != l {
      assert obs[k] in obs;
    }
    SumFreqAbsent(obs, l, r);
  }

  /** A pair that does not occur has sum 0. */
  lemma {:induction false} SumFreqAbsent(obs: seq<Observation>, l: Token, r: Rhs)
    requires forall k :: 0 <= k < |obs| ==> obs[k].lhs != l || obs[k].rhs != r
    ensures SumFreq(obs, l, r) == 0
  {
    if |obs| > 0 {
      SumFreqAbsent(obs[..|obs| - 1], l, r);
    }
  }

  /** Sums over two batches of records add up. */
  lemma {:induction false} SumFreqAppend(a: seq<Observation>, b: seq<Observation>, l: Token, r: Rhs)
    ensures SumFreq(a + b, l, r) == SumFreq(a, l, r) + SumFreq(b, l, r)
    decreases |b|
  {
    if |b| > 0 {
      assert (a + b)[..|a + b| - 1] == a + b[..|b| - 1];
      SumFreqAppend(a, b[..|b| - 1], l, r);
    } else {
      assert a + b == a;
    }
  }

  /** The table does not depend on the order of the records: reordering them gives the
      same sums. */
  lemma {:induction false} SumFreqPermutation(a: seq<Observation>, b: seq<Observation>, l: Token, r: Rhs)
    requires multiset(a) == multiset(b)
    ensures SumFreq(a, l, r) == SumFreq(b, l, r)
    decreases |a|
  {
    if |a| > 0 {
      var x := a[|a| - 1];
      var a' := a[..|a| - 1];
      assert a == a' + [x];
      assert x in multiset(b);
      var j :| 0 <= j < |b| && b[j] == x;
      var b' := b[..j] + b[j + 1..];
      assert b == b[..j] + [x] + b[j + 1..];
      assert multiset(a') == multiset(a) - multiset{x};
      assert multiset(b) == multiset(b[..j]) + multiset{x} + multiset(b[j + 1..]);
      assert multiset(b') == multiset(b) - multiset{x};
      SumFreqPermutation(a', b', l, r);
      SumFreqAppend(b[..j] + [x], b[j + 1..], l, r);
      SumFreqAppend(b[..j], [x], l, r);
      SumFreqAppend(b[..j], b[j + 1..], l, r);
      SumFreqAppend(a', [x], l, r);
    } else {
      assert b == [];
    }
  }

  /** The order of the records does not matter: any two tables of the same records, in
      whatever order, are equal. */
  lemma TabulatesOrderFree(t1: FreqTable, a: seq<Observation>, t2: FreqTable, b: seq<Observation>)
    requires Tabulates(t1, a) && Tabulates(t2, b)
    requires multiset(a) == multiset(b)
    ensures t1 == t2
  {
    assert forall o :: o in a <==> o in b by {
      forall o ensures o in a <==> o in b {
        assert o in a <==> o in multiset(a);
        assert o in b <==> o in multiset(b);
      }
    }
    assert t1.Keys == t2.Keys;
    forall l | l in t1 ensures t1[l] == t2[l] {
      assert t1[l].Keys == t2[l].Keys;
      forall r | r in t1[l] ensures t1[l][r] == t2[l][r] {
        SumFreqPermutation(a, b, l, r);
      }
    }
  }
}
