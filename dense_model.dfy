/**
  `LogLinModelFromFile` of opt.py: a model whose feature vectors are read from the input,
  one `(lhs, rhs, feats)` record at a time. Construction keeps two rules: every vector has
  the length of the first one, and a pair seen again must come with an equal vector; a
  record that breaks either fails the construction (an AssertionError in the source).

  `Load` is the meaning of the construction loop, as a fold over the records; the class
  `DenseModel` performs the same loop on its fields and is proved to stay in step with it.
*/
module DenseFeatures {
  import opened Wrappers
  import opened Grammar
  import opened LinAlg
  import opened LogLinModel

  /** One `(lhs, rhs, feats)` record of the input. */
  datatype FeatureRecord = FeatureRecord(lhs: Token, rhs: Rhs, feats: Vector)

  /** The two failed assertions of the constructor. */
  datatype Mismatch = MismatchingDimensions | MismatchingFeatures

  /** The fields `_dim` (None until the first record) and `_rules`. */
  datatype DenseState = DenseState(dim: Option<nat>, rules: FeatureTable)

  /** One iteration of the constructor's loop. The lookup `self._rules[lhs]` on the
      defaultdict creates an empty entry for a new LHS before the RHS is looked up. */
  function Absorbed(st: DenseState, rec: FeatureRecord): (r: Result<DenseState, Mismatch>)
    ensures r == Failure(MismatchingDimensions) <==> st.dim.Some? && st.dim.value != |rec.feats|
    ensures r == Failure(MismatchingFeatures) <==>
      (st.dim.None? || st.dim.value == |rec.feats|)
      && rec.lhs in st.rules && rec.rhs in st.rules[rec.lhs] && st.rules[rec.lhs][rec.rhs] != rec.feats
    ensures r.Success? ==>
      r.value.dim == Some(|rec.feats|) && rec.lhs in r.value.rules && rec.rhs in r.value.rules[rec.lhs]
      && r.value.rules[rec.lhs][rec.rhs] == rec.feats
  {
    if st.dim.Some? && st.dim.value != |rec.feats| then Failure(MismatchingDimensions)
    else
      var d := if rec.lhs in st.rules then st.rules[rec.lhs] else map[];
      var rules := st.rules[rec.lhs := d];
      if rec.rhs in d then
        if d[rec.rhs] == rec.feats then Success(DenseState(Some(|rec.feats|), rules))
        else Failure(MismatchingFeatures)
      else Success(DenseState(Some(|rec.feats|), rules[rec.lhs := d[rec.rhs := rec.feats]]))
  }

  /** The constructor's loop over all records, stopping at the first failure. */
  function Load(inp: seq<FeatureRecord>): (r: Result<DenseState, Mismatch>)
    ensures r.Success? ==> (r.value.dim.None? <==> |inp| == 0)
  {
    if |inp| == 0 then Success(DenseState(None, map[]))
    else
      match Load(inp[..|inp| - 1])
      case Failure(e) => Failure(e)
      case Success(st) => Absorbed(st, inp[|inp| - 1])
  }

  /** The rule a record gives a vector to. */
  function RecordedRule(o: FeatureRecord): Rule
  {
    (o.lhs, o.rhs)
  }

  /** The LHSs of the records. */
  ghost function LoadedLhss(inp: seq<FeatureRecord>): set<Token>
  {
    LhssOf(inp, RecordedRule)
  }

  /** The RHSs recorded with LHS `l`. */
  ghost function LoadedRhss(inp: seq<FeatureRecord>, l: Token): set<Rhs>
  {
    RhssOf(inp, RecordedRule, l)
  }

  /** Every vector has length `n`. */
  ghost predicate AllOfLength(inp: seq<FeatureRecord>, n: nat)
  {
    forall o :: o in inp ==> |o.feats| == n
  }

  /** Every vector has the length of the first. */
  ghost predicate SameLengths(inp: seq<FeatureRecord>)
  {
    |inp| == 0 || AllOfLength(inp, |inp[0].feats|)
  }

  /** Records of one pair carry one vector. */
  ghost predicate AgreeOnPairs(inp: seq<FeatureRecord>)
  {
    forall o, p :: o in inp && p in inp && o.lhs == p.lhs && o.rhs == p.rhs ==> o.feats == p.feats
  }

  ghost predicate Consistent(inp: seq<FeatureRecord>)
  {
    SameLengths(inp) && AgreeOnPairs(inp)
  }

  /** `rules` holds exactly the records: the recorded LHSs, for each of them the recorded
      RHSs, and each pair's vector. */
  ghost predicate Holds(rules: FeatureTable, inp: seq<FeatureRecord>)
  {
    rules.Keys == LoadedLhss(inp)
    && (forall l :: l in rules ==> rules[l].Keys == LoadedRhss(inp, l))
    && (forall o :: o in inp ==> o.lhs in rules && o.rhs in rules[o.lhs] && rules[o.lhs][o.rhs] == o.feats)
  }

  /** The dimension is the first vector's length, and the table holds the records. */
  ghost predicate Describes(st: DenseState, inp: seq<FeatureRecord>)
  {
    st.dim == (if |inp| == 0 then None else Some(|inp[0].feats|))
    && Holds(st.rules, inp)
  }

  /////////////////////////////////////////////////////////////////////////////
  // What the construction computes

  /** Construction succeeds exactly when the vectors have one length and repeated pairs
      repeat their vector; it then holds exactly the records; a dimension failure means some
      vector's length differs from the first's, a feature failure that some pair comes with
      two different vectors. */
  lemma {:induction false} LoadCorrect(inp: seq<FeatureRecord>)
    ensures Load(inp).Success? <==> Consistent(inp)
    ensures Load(inp).Success? ==> Describes(Load(inp).value, inp)
    ensures Load(inp) == Failure(MismatchingDimensions) ==> !SameLengths(inp)
    ensures Load(inp) == Failure(MismatchingFeatures) ==> !AgreeOnPairs(inp)
    decreases |inp|
  {
    if |inp| > 0 {
      var pre := inp[..|inp| - 1];
      var rec := inp[|inp| - 1];
      assert inp == pre + [rec];
      LoadCorrect(pre);
      if Load(pre).Success? {
        LoadStep(pre, rec);
      } else {
        LoadFailed(pre, rec);
      }
    }
  }

  /** `Load` of one more record is one more `Absorbed`. */
  lemma LoadLast(pre: seq<FeatureRecord>, rec: FeatureRecord)
    ensures Load(pre + [rec]) == if Load(pre).Failure? then Load(pre) else Absorbed(Load(pre).value, rec)
  {
    assert (pre + [rec])[..|pre|] == pre;
  }

  lemma InAppend(pre: seq<FeatureRecord>, rec: FeatureRecord)
    ensures forall o :: o in pre + [rec] <==> o in pre || o == rec
    ensures (pre + [rec])[0] == if |pre| == 0 then rec else pre[0]
  {
  }

  /** A failure stays a failure, of the same kind, whatever follows. */
  lemma LoadFailed(pre: seq<FeatureRecord>, rec: FeatureRecord)
    requires Load(pre).Failure? && !Consistent(pre)
    requires Load(pre) == Failure(MismatchingDimensions) ==> !SameLengths(pre)
    requires Load(pre) == Failure(MismatchingFeatures) ==> !AgreeOnPairs(pre)
    ensures Load(pre + [rec]) == Load(pre)
    ensures !Consistent(pre + [rec])
    ensures !SameLengths(pre) ==> !SameLengths(pre + [rec])
    ensures !AgreeOnPairs(pre) ==> !AgreeOnPairs(pre + [rec])
  {
    LoadLast(pre, rec);
    InAppend(pre, rec);
  }

  /** One more record after a successful prefix. */
  lemma LoadStep(pre: seq<FeatureRecord>, rec: FeatureRecord)
    requires Load(pre).Success? && Consistent(pre) && Describes(Load(pre).value, pre)
    ensures Load(pre + [rec]).Success? <==> Consistent(pre + [rec])
    ensures Load(pre + [rec]).Success? ==> Describes(Load(pre + [rec]).value, pre + [rec])
    ensures Load(pre + [rec]) == Failure(MismatchingDimensions) ==> !SameLengths(pre + [rec])
    ensures Load(pre + [rec]) == Failure(MismatchingFeatures) ==> !AgreeOnPairs(pre + [rec])
  {
    var st := Load(pre).value;
    LoadLast(pre, rec);
    InAppend(pre, rec);
    if st.dim.Some? && st.dim.value != |rec.feats| {
      assert Load(pre + [rec]) == Failure(MismatchingDimensions);
    } else if rec.lhs in st.rules && rec.rhs in st.rules[rec.lhs] {
      assert rec.rhs in LoadedRhss(pre, rec.lhs);
      var o :| o in pre && o.lhs == rec.lhs && o.rhs == rec.rhs;
      if st.rules[rec.lhs][rec.rhs] == rec.feats {
        LoadRepeated(pre, rec, o);
      } else {
        assert Load(pre + [rec]) == Failure(MismatchingFeatures);
      }
    } else {
      LoadNew(pre, rec);
    }
  }

  /** A pair seen before, with its vector: the table does not change. */
  lemma LoadRepeated(pre: seq<FeatureRecord>, rec: FeatureRecord, o: FeatureRecord)
    requires Load(pre).Success? && Consistent(pre) && Describes(Load(pre).value, pre)
    requires o in pre && o.lhs == rec.lhs && o.rhs == rec.rhs && o.feats == rec.feats
    ensures Load(pre + [rec]) == Load(pre)
    ensures Consistent(pre + [rec]) && Describes(Load(pre + [rec]).value, pre + [rec])
  {
    var st := Load(pre).value;
    LoadLast(pre, rec);
    AbsorbedCases(st, rec);
    StoredPresent(st.rules, rec);
    assert |rec.feats| == |pre[0].feats|;
    HoldsRepeated(st.rules, pre, rec, o);
    ConsistentRepeated(pre, rec, o);
    InAppend(pre, rec);
  }

  lemma StoredPresent(rules: FeatureTable, rec: FeatureRecord)
    requires rec.lhs in rules && rec.rhs in rules[rec.lhs]
    ensures Stored(rules, rec) == rules
  {
  }

  lemma LoadedLhssStep(pre: seq<FeatureRecord>, rec: FeatureRecord)
    ensures LoadedLhss(pre + [rec]) == LoadedLhss(pre) + {rec.lhs}
  {
    LhssOfAppend(pre, RecordedRule, rec);
  }

  lemma LoadedRhssStep(pre: seq<FeatureRecord>, rec: FeatureRecord, l: Token)
    ensures LoadedRhss(pre + [rec], l) == LoadedRhss(pre, l) + (if rec.lhs == l then {rec.rhs} else {})
  {
    RhssOfAppend(pre, RecordedRule, rec, l);
  }

  lemma HoldsRepeated(rules: FeatureTable, pre: seq<FeatureRecord>, rec: FeatureRecord, o: FeatureRecord)
    requires Holds(rules, pre)
    requires o in pre && o.lhs == rec.lhs && o.rhs == rec.rhs && o.feats == rec.feats
    ensures Holds(rules, pre + [rec])
  {
    LoadedLhssStep(pre, rec);
    forall l | l in rules ensures rules[l].Keys == LoadedRhss(pre + [rec], l) {
      LoadedRhssStep(pre, rec, l);
    }
    InAppend(pre, rec);
  }

  lemma ConsistentRepeated(pre: seq<FeatureRecord>, rec: FeatureRecord, o: FeatureRecord)
    requires Consistent(pre)
    requires o in pre && o.lhs == rec.lhs && o.rhs == rec.rhs && o.feats == rec.feats
    ensures Consistent(pre + [rec])
  {
    InAppend(pre, rec);
  }

  /** The table after a record that passes both assertions. */
  function Stored(rules: FeatureTable, rec: FeatureRecord): FeatureTable
  {
    var d := if rec.lhs in rules then rules[rec.lhs] else map[];
    rules[rec.lhs := if rec.rhs in d then d else d[rec.rhs := rec.feats]]
  }

  /** The three outcomes of one iteration. */
  lemma AbsorbedCases(st: DenseState, rec: FeatureRecord)
    ensures st.dim.Some? && st.dim.value != |rec.feats| ==> Absorbed(st, rec) == Failure(MismatchingDimensions)
    ensures !(st.dim.Some? && st.dim.value != |rec.feats|)
      && rec.lhs in st.rules && rec.rhs in st.rules[rec.lhs] && st.rules[rec.lhs][rec.rhs] != rec.feats
      ==> Absorbed(st, rec) == Failure(MismatchingFeatures)
    ensures !(st.dim.Some? && st.dim.value != |rec.feats|)
      && !(rec.lhs in st.rules && rec.rhs in st.rules[rec.lhs] && st.rules[rec.lhs][rec.rhs] != rec.feats)
      ==> Absorbed(st, rec) == Success(DenseState(Some(|rec.feats|), Stored(st.rules, rec)))
  {
    var d := if rec.lhs in st.rules then st.rules[rec.lhs] else map[];
    assert st.rules[rec.lhs := d][rec.lhs := d[rec.rhs := rec.feats]] == st.rules[rec.lhs := d[rec.rhs := rec.feats]];
  }

  /** Loading one more record after a successful prefix: a vector of another length
      fails on the dimension, ... */
  lemma LoadNextDims(pre: seq<FeatureRecord>, st: DenseState, rec: FeatureRecord)
    requires Load(pre) == Success(st)
    requires st.dim.Some? && st.dim.value != |rec.feats|
    ensures Load(pre + [rec]) == Failure(MismatchingDimensions)
  {
    LoadLast(pre, rec);
    AbsorbedCases(st, rec);
  }

  /** ... a known pair with another vector fails on the features, ... */
  lemma LoadNextFeatures(pre: seq<FeatureRecord>, st: DenseState, rec: FeatureRecord)
    requires Load(pre) == Success(st)
    requires st.dim.None? || st.dim.value == |rec.feats|
    requires rec.lhs in st.rules && rec.rhs in st.rules[rec.lhs] && st.rules[rec.lhs][rec.rhs] != rec.feats
    ensures Load(pre + [rec]) == Failure(MismatchingFeatures)
  {
    LoadLast(pre, rec);
    AbsorbedCases(st, rec);
  }

  /** ... and anything else is stored. */
  lemma LoadNextStored(pre: seq<FeatureRecord>, st: DenseState, rec: FeatureRecord)
    requires Load(pre) == Success(st)
    requires st.dim.None? || st.dim.value == |rec.feats|
    requires !(rec.lhs in st.rules && rec.rhs in st.rules[rec.lhs] && st.rules[rec.lhs][rec.rhs] != rec.feats)
    ensures Load(pre + [rec]) == Success(DenseState(Some(|rec.feats|), Stored(st.rules, rec)))
  {
    LoadLast(pre, rec);
    AbsorbedCases(st, rec);
  }

  /** Keys of the table after a new pair. */
  lemma HoldsNewKeys(rules: FeatureTable, pre: seq<FeatureRecord>, rec: FeatureRecord)
    requires Holds(rules, pre)
    ensures Stored(rules, rec).Keys == LoadedLhss(pre + [rec])
    ensures forall l :: l in Stored(rules, rec) ==> Stored(rules, rec)[l].Keys == LoadedRhss(pre + [rec], l)
  {
    var rules' := Stored(rules, rec);
    LoadedLhssStep(pre, rec);
    forall l | l in rules' ensures rules'[l].Keys == LoadedRhss(pre + [rec], l) {
      LoadedRhssStep(pre, rec, l);
    }
  }

  /** Entries of the table after a new pair. */
  lemma HoldsNewEntries(rules: FeatureTable, pre: seq<FeatureRecord>, rec: FeatureRecord)
    requires Holds(rules, pre)
    requires !(rec.lhs in rules && rec.rhs in rules[rec.lhs])
    ensures var rules' := Stored(rules, rec);
      forall o :: o in pre + [rec] ==> o.lhs in rules' && o.rhs in rules'[o.lhs] && rules'[o.lhs][o.rhs] == o.feats
  {
    var rules' := Stored(rules, rec);
    forall o | o in pre + [rec]
      ensures o.lhs in rules' && o.rhs in rules'[o.lhs] && rules'[o.lhs][o.rhs] == o.feats
    {
      InAppend(pre, rec);
      if o != rec {
        assert o in pre;
      }
    }
  }

  /** Keys and entries of the table after a new pair. */
  lemma HoldsNew(rules: FeatureTable, pre: seq<FeatureRecord>, rec: FeatureRecord)
    requires Holds(rules, pre)
    requires !(rec.lhs in rules && rec.rhs in rules[rec.lhs])
    ensures Holds(Stored(rules, rec), pre + [rec])
  {
    HoldsNewKeys(rules, pre, rec);
    HoldsNewEntries(rules, pre, rec);
  }

  /** A new pair: it is added to the table. */
  lemma LoadNew(pre: seq<FeatureRecord>, rec: FeatureRecord)
    requires Load(pre).Success? && Consistent(pre) && Describes(Load(pre).value, pre)
    requires var st := Load(pre).value;
      (st.dim.None? || st.dim.value == |rec.feats|)
      && !(rec.lhs in st.rules && rec.rhs in st.rules[rec.lhs])
    ensures Load(pre + [rec]).Success?
    ensures Consistent(pre + [rec]) && Describes(Load(pre + [rec]).value, pre + [rec])
  {
    var st := Load(pre).value;
    LoadLast(pre, rec);
    AbsorbedCases(st, rec);
    HoldsNew(st.rules, pre, rec);
    InAppend(pre, rec);
    assert Load(pre + [rec]).value.rules == Stored(st.rules, rec);
  }

  /** Repeating an earlier record leaves the loaded table as it was. */
  lemma LoadRepeat(inp: seq<FeatureRecord>, rec: FeatureRecord)
    requires Load(inp).Success? && rec in inp
    ensures Load(inp + [rec]) == Load(inp)
  {
    LoadCorrect(inp);
    LoadRepeated(inp, rec, rec);
  }

  /** A failure part-way through fails the whole construction, with the same error. */
  lemma {:induction false} LoadPrefixFailure(inp: seq<FeatureRecord>, k: nat)
    requires k <= |inp| && Load(inp[..k]).Failure?
    ensures Load(inp) == Load(inp[..k])
    decreases |inp| - k
  {
    if k < |inp| {
      assert inp[..k + 1] == inp[..k] + [inp[k]];
      LoadLast(inp[..k], inp[k]);
      LoadPrefixFailure(inp, k + 1);
    } else {
      assert inp[..k] == inp;
    }
  }

  /** A successful construction gives a table every vector of which has the model's
      dimension. */
  lemma LoadDimensioned(inp: seq<FeatureRecord>)
    requires Load(inp).Success? && |inp| > 0
    ensures Dimensioned(Load(inp).value.rules, |inp[0].feats|)
  {
    LoadCorrect(inp);
    var rules := Load(inp).value.rules;
    forall l, r | l in rules && r in rules[l] ensures |rules[l][r]| == |inp[0].feats| {
      assert r in LoadedRhss(inp, l);
      var o :| o in inp && o.lhs == l && o.rhs == r;
    }
  }

  /** The table of a defaultdict whose entries for the keys `ks` were looked up: each of
      them not in `t` has an empty entry. */
  function Padded(t: FeatureTable, ks: set<Token>): FeatureTable
  {
    map l | l in t.Keys + ks :: if l in t then t[l] else map[]
  }

  /** The keys of the defaultdict: those of the table and those looked up. */
  lemma PaddedKeys(t: FeatureTable, ks: set<Token>)
    ensures Padded(t, ks).Keys == t.Keys + ks
  {
  }

  /** An entry of the defaultdict: the table's, or empty for a key only looked up. */
  lemma PaddedAt(t: FeatureTable, ks: set<Token>, l: Token)
    requires l in t || l in ks
    ensures l in Padded(t, ks)
    ensures Padded(t, ks)[l] == if l in t then t[l] else map[]
  {
  }

  lemma PrefixStep(inp: seq<FeatureRecord>, i: nat)
    requires i < |inp|
    ensures inp[..i + 1] == inp[..i] + [inp[i]]
  {
  }

  /** What a successful construction holds. */
  lemma LoadHolds(inp: seq<FeatureRecord>, st: DenseState)
    requires Load(inp) == Success(st)
    ensures Describes(st, inp)
  {
    LoadCorrect(inp);
  }

  /** Looking up `l` in the defaultdict. */
  lemma PaddedTouch(t: FeatureTable, ks: set<Token>, l: Token)
    ensures Padded(t, ks + {l}) == if l in Padded(t, ks) then Padded(t, ks) else Padded(t, ks)[l := map[]]
  {
  }

  /** Storing an entry for `l`. */
  lemma PaddedStore(t: FeatureTable, ks: set<Token>, l: Token, d: map<Rhs, Vector>)
    ensures Padded(t[l := d], ks) == Padded(t, ks)[l := d]
  {
  }

  /** The defaultdict lookup `self._rules[lhs]` sees the entry the table has. */
  lemma PaddedEntry(t: FeatureTable, ks: set<Token>, l: Token)
    ensures (if l in Padded(t, ks) then Padded(t, ks)[l] else map[]) == if l in t then t[l] else map[]
  {
  }

  /** Storing into the defaultdict stores what `Stored` stores. */
  lemma PaddedStored(t: FeatureTable, ks: set<Token>, rec: FeatureRecord, d: map<Rhs, Vector>)
    requires d == if rec.lhs in t then t[rec.lhs] else map[]
    ensures Padded(Stored(t, rec), ks) == Padded(t, ks)[rec.lhs := if rec.rhs in d then d else d[rec.rhs := rec.feats]]
  {
    PaddedStore(t, ks, rec.lhs, if rec.rhs in d then d else d[rec.rhs := rec.feats]);
  }

  /////////////////////////////////////////////////////////////////////////////
  // The class

  class DenseModel {
    /** `_dim` */
    var dim: Option<nat>
    /** `_rules`, a defaultdict of dicts */
    var rules: FeatureTable
    /** The records absorbed so far. */
    ghost var loaded: seq<FeatureRecord>
    /** The table of the absorbed records. */
    ghost var table: FeatureTable
    /** LHSs whose empty entry a query created by looking them up in the defaultdict. */
    ghost var touched: set<Token>

    /** The fields hold the construction of the absorbed records, plus an empty entry for
        every LHS a query looked up without it having a rule. */
    ghost predicate Valid()
      reads this
    {
      Load(loaded) == Success(DenseState(dim, table)) && rules == Padded(table, touched)
    }

    /** `_rules = defaultdict(lambda: {})`, `_dim = None`: the state before the loop. */
    constructor()
      ensures Valid() && loaded == [] && touched == {}
      ensures dim.None? && rules == map[]
    {
      dim := None;
      rules := map[];
      loaded := [];
      table := map[];
      touched := {};
    }

    /** The two assertions of one iteration of the constructor's loop, on the current
        fields: the error if one fails. */
    function Mismatched(rec: FeatureRecord): (e: Option<Mismatch>)
      reads this
      requires Valid()
      ensures e.None? <==> Load(loaded + [rec]).Success?
      ensures e.Some? ==> Load(loaded + [rec]) == Failure(e.value)
    {
      if dim.Some? && dim.value != |rec.feats| then
        LoadNextDims(loaded, DenseState(dim, table), rec);
        Some(MismatchingDimensions)
      else
        PaddedEntry(table, touched, rec.lhs);
        var d := if rec.lhs in rules then rules[rec.lhs] else map[];
        if rec.rhs in d && d[rec.rhs] != rec.feats then
          LoadNextFeatures(loaded, DenseState(dim, table), rec);
          Some(MismatchingFeatures)
        else
          LoadNextStored(loaded, DenseState(dim, table), rec);
          None
    }

    /** The rest of an iteration whose assertions hold: `_dim` is set and the vector is
        stored under its pair unless the pair is already there. */
    method Store(rec: FeatureRecord)
      requires Valid() && Mismatched(rec).None?
      modifies this
      ensures Valid() && loaded == old(loaded) + [rec] && touched == old(touched)
    {
      LoadNextStored(loaded, DenseState(dim, table), rec);
      PaddedEntry(table, touched, rec.lhs);
      var d := if rec.lhs in rules then rules[rec.lhs] else map[];
      PaddedStored(table, touched, rec, d);
      dim := Some(|rec.feats|);
      rules := rules[rec.lhs := if rec.rhs in d then d else d[rec.rhs := rec.feats]];
      table := Stored(table, rec);
      loaded := loaded + [rec];
    }

    /** One iteration of the constructor's loop; the error of a failed assertion, in which
        case nothing changes. */
    method Absorb(rec: FeatureRecord) returns (err: Option<Mismatch>)
      requires Valid()
      modifies this
      ensures err.None? <==> Load(old(loaded) + [rec]).Success?
      ensures err.Some? ==> Load(old(loaded) + [rec]) == Failure(err.value)
      ensures err.Some? ==>
        Valid() && loaded == old(loaded) && dim == old(dim) && rules == old(rules) && table == old(table)
      ensures err.None? ==> Valid() && loaded == old(loaded) + [rec]
      ensures touched == old(touched)
    {
      err := Mismatched(rec);
      if err.None? {
        Store(rec);
      }
    }

    /** `LogLinModelFromFile(inp)`: the model of the records, or the first failed
        assertion. */
    static method FromRecords(inp: seq<FeatureRecord>) returns (r: Result<DenseModel, Mismatch>)
      ensures r.Success? <==> Load(inp).Success?
      ensures r.Failure? ==> Load(inp) == Failure(r.error)
      ensures r.Success? ==>
        fresh(r.value) && r.value.Valid() && r.value.loaded == inp && r.value.touched == {}
    {
      var m := new DenseModel();
      var i := 0;
      while i < |inp|
        invariant 0 <= i <= |inp|
        invariant fresh(m) && m.Valid() && m.loaded == inp[..i] && m.touched == {}
      {
        PrefixStep(inp, i);
        var err := m.Absorb(inp[i]);
        if err.Some? {
          LoadPrefixFailure(inp, i + 1);
          return Failure(err.value);
        }
        i := i + 1;
      }
      assert inp[..|inp|] == inp;
      return Success(m);
    }

    /** `dim()`: the length of the first record's vector, None when there was none. */
    function Dim(): (d: Option<nat>)
      reads this
      requires Valid()
      ensures d == if |loaded| == 0 then None else Some(|loaded[0].feats|)
    {
      LoadCorrect(loaded);
      dim
    }

    /** `lhss()`: the recorded LHSs, and any LHS a query looked up. */
    function Lhss(): (ls: set<Token>)
      reads this
      requires Valid()
      ensures ls == LoadedLhss(loaded) + touched
    {
      LoadCorrect(loaded);
      PaddedKeys(table, touched);
      rules.Keys
    }

    /** `rhss(lhs)`: the RHSs recorded with `lhs`; an unseen `lhs` gets an empty entry. */
    method Rhss(lhs: Token) returns (rs: set<Rhs>)
      requires Valid()
      modifies this
      ensures Valid() && loaded == old(loaded) && table == old(table) && touched == old(touched) + {lhs}
      ensures rs == LoadedRhss(loaded, lhs)
    {
      LoadHolds(loaded, DenseState(dim, table));
      PaddedTouch(table, touched, lhs);
      if lhs !in rules {
        rules := rules[lhs := map[]];
      }
      touched := touched + {lhs};
      PaddedAt(table, touched, lhs);
      rs := rules[lhs].Keys;
      if lhs !in table {
        assert lhs !in LoadedLhss(loaded);
      }
    }

    /** `featvec(lhs, rhs)`: the recorded vector of the pair, `None` (KeyError) when the pair
        was not recorded; an unseen `lhs` gets an empty entry. */
    method Featvec(lhs: Token, rhs: Rhs) returns (v: Option<Vector>)
      requires Valid()
      modifies this
      ensures Valid() && loaded == old(loaded) && table == old(table) && touched == old(touched) + {lhs}
      ensures v.None? <==> forall o :: o in loaded ==> o.lhs != lhs || o.rhs != rhs
      ensures v.Some? ==> forall o :: o in loaded && o.lhs == lhs && o.rhs == rhs ==> v.value == o.feats
    {
      LoadHolds(loaded, DenseState(dim, table));
      PaddedTouch(table, touched, lhs);
      if lhs !in rules {
        rules := rules[lhs := map[]];
      }
      touched := touched + {lhs};
      PaddedAt(table, touched, lhs);
      if rhs in rules[lhs] {
        v := Some(rules[lhs][rhs]);
        assert rhs in LoadedRhss(loaded, lhs);
      } else {
        v := None;
        if lhs in table {
          assert rhs !in LoadedRhss(loaded, lhs);
        } else {
          assert lhs !in LoadedLhss(loaded);
        }
      }
    }
  }
}
