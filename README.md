# Log-linear grammar models of `opt.py`, in Dafny

`opt.py` trains a log-linear model of a context-free grammar. Training data arrives as
record lines `freq | lhs | rhs | features`, one per rule. The program:

- tabulates the frequencies of the `(lhs, rhs)` pairs;
- builds a model that gives each rule a feature vector, in one of two flavours. The dense
  model reads the vectors off the records (`LogLinModelFromFile`). The indicator model
  gives every rule its own standard basis vector (`LogLinModelBasic`);
- computes the log-likelihood of the data and its gradient (equation (6) of Collins' notes
  on log-linear models), together with an L2 penalty and its gradient;
- hands the objective and the gradient to a numerical optimiser.

The project models this core:

- `record_parser.dfy` (module `RecordParser`) is the record-line parser `parse`.
  - The field split `re.split('\s*\|\s*', line)` is a split on `|` in which each piece
    loses the whitespace next to a `|`. The first field keeps its leading whitespace and
    the last field its trailing whitespace, as with the regular expression.
  - `int()` is Python 3's base-10 integer syntax: optional sign, ASCII digits with single
    `_` separators between digits, surrounding whitespace. That whitespace is the
    `str.isspace()` characters except U+001C to U+001F, which make `int()` fail.
  - The RHS tokeniser `re.findall(token_re, rhs)` is the scanner that the regular
    expression `(?:\([^\(\)]*\)|\S)+` amounts to.
  - Feature floats use a conversion function that is passed in.
  - Round trips are proved between parsing and formatting: split/join, `int`/`str`,
    tokenise/join, and the whole line.
- `training_data.dfy` (module `TrainingData`) is `extract_training_data`. It is proved to
  yield the table of summed frequencies, whatever the order of the records.
- `log_lin_model.dfy` (module `LogLinModel`) holds the base class's computations over a
  feature table: `score`/`featvec_dot`, `loglhdgrad`, `loglikelihood`, `penalty` and
  `penaltygrad`.
  - The probability table that `probs_from_model` builds is a parameter of these
    computations, and so is `np.log`.
  - The loops over dictionaries are proved equal to finite sums over key sets. These sums
    do not depend on the order in which the loops visit the keys.
- `dense_model.dfy` (module `DenseFeatures`) is `LogLinModelFromFile`, as the class
  `DenseModel`.
  - Its construction loop is specified by the fold `Load`.
  - `Load` is proved to succeed exactly on consistent input, that is, when the vectors have
    one length and a repeated pair repeats its vector. On success it holds exactly the
    records.
  - The accessors mirror the defaultdict: a lookup of an unseen LHS creates an empty entry
    for it.
- `indicator_model.dfy` (module `IndicatorFeatures`) is `LogLinModelBasic`, as the class
  `IndicatorModel`.
  - The memo dictionaries are proved to stay consistent with `list.index`.
  - `featvec` builds its basis vector in an array.
  - `featvec_dot` is proved to agree with the base class's `np.dot(w, featvec(x, y))`.
- `wrappers.dfy`, `grammar.dfy` and `linalg.dfy` provide `Option`/`Result`, the grammar
  symbol types, and exact vector arithmetic with finite sums.

Python exceptions are modelled as error values: `Option.None` or a `Result.Failure` that
names the exception. Numbers are exact: integers are unbounded and floats are `real`.

Where the code and its documentation differ, the model follows the code:

- A dense-model construction with vectors of different lengths, or with a repeated pair and
  a different vector, fails with an AssertionError. It does not raise the declared
  `DimensionMismatchError` or `FeatureMismatchError`; the failures are the two values of
  `Mismatch`.
- `LogLinModelBasic.dim()` is the length of the rule list with duplicates counted, not the
  number of distinct rules. A rule listed twice takes its first position, and its second
  position is a dimension that no feature vector sets (`IndicatorFeatures.DeadDimension`).
- The dense model's `rhss` and `featvec` insert an empty entry for an LHS they have not
  seen (`DenseModel.Rhss`, `DenseModel.Featvec`). That LHS then shows up in `lhss()`.

## Model

| member | source | states |
|---|---|---|
| RecordParser.UnitEnd | opt.py:29 | one repetition of the token pattern: empty exactly at a space or the end of the line |
| RecordParser.TokenEnd | opt.py:29 | the greedy `+` of the token pattern ends at whitespace or at the end, and takes at least one character from a non-space |
| RecordParser.NextParen | opt.py:29 | the first parenthesis at or after a position: none before it, and a parenthesis at it unless it is the end |
| RecordParser.Tokenize | opt.py:41 | `re.findall(token_re, rhs)` returns only non-empty tokens |
| RecordParser.TokenizeCovers | opt.py:41 | `findall` covers exactly the non-space characters and the characters inside a `(...)` group; every match ends at a space outside any group, or at the end |
| RecordParser.TokensAreTokens | opt.py:41 | every string `findall` returns matches the token pattern in full |
| RecordParser.MatchesToken | opt.py:40 | a string that passes the LHS check is non-empty and does not start with whitespace |
| RecordParser.MatchesTokenIff | opt.py:40 | for a string without a trailing newline (every stripped field), the LHS check `re.match('^'+token_re+'$', lhs)` holds exactly when the string is one token |
| RecordParser.TokenizeJoin | opt.py:41 | tokenising space-joined tokens (whose groups close) gives back the tokens |
| RecordParser.SplitOn | opt.py:33 | a split on the field separator gives one more piece than there are separators, and no piece contains one |
| RecordParser.SplitOnJoin | opt.py:33 | splitting joined separator-free pieces gives back the pieces |
| RecordParser.JoinSplitOn | opt.py:33 | joining the pieces of a split gives back the string |
| RecordParser.Strip | opt.py:33 | the whitespace around a field is removed and nothing else: the result is a slice of the field with only whitespace around it, it neither starts nor ends with whitespace, and it is empty exactly for an all-whitespace field |
| RecordParser.TrimStart | opt.py:33 | removes exactly the leading whitespace, leaving a suffix |
| RecordParser.TrimEnd | opt.py:33 | removes exactly the trailing whitespace, leaving a prefix |
| RecordParser.SplitFields | opt.py:33 | the field split gives one more field than there are separators, none containing one |
| RecordParser.SplitFieldsJoin | opt.py:33 | splitting separator-joined stripped fields gives back the fields |
| RecordParser.ParseInt | opt.py:37-39 | `int()` succeeds exactly on optional whitespace, an optional sign and ASCII digits with single `_` separators between digits; it fails on any of U+001C to U+001F, which `str.isspace()` counts as whitespace but `int()` does not skip |
| RecordParser.ParseIntToString | opt.py:37 | `int(str(i)) == i` for every integer |
| RecordParser.Words | opt.py:42 | `str.split()` gives non-empty words without whitespace |
| RecordParser.WordsJoin | opt.py:42 | splitting space-joined words gives back the words |
| RecordParser.ParseFloats | opt.py:43-46 | `list(map(float, ...))` fails exactly when one word does not convert, and otherwise converts each word at its position |
| RecordParser.ParseLine | opt.py:31-47 | every `ParseError` and the LHS assertion, each in both directions, in the order the source checks them; on success the frequency, the LHS token, the RHS tokens and the feature values of the four fields |
| RecordParser.InfoSeparatorNotAnInteger | opt.py:33-39 | a line whose frequency field is `"\x1c5"` fails with "Not an integer value": the split keeps the field's leading U+001C, and `int()` rejects it |
| RecordParser.ParseFieldValues | opt.py:36-47 | the same for the four fields, once the split has produced four |
| RecordParser.FormatLineFields | opt.py:33 | splitting a formatted record line gives its four formatted fields |
| RecordParser.ParseFormatLine | opt.py:31-47 | parsing a formatted record line gives back the record |
| TrainingData.ExtractTrainingData | opt.py:64-68 | the result tabulates the records: the LHSs that occur, for each the RHSs that occur with it, and each pair's summed frequency |
| TrainingData.Bump | opt.py:67 | one `td[lhs][rhs] += freq` adds the pair's keys if they are new, raises the pair's count (from 0 if new) by `freq`, and changes no other entry |
| TrainingData.TabulatesStep | opt.py:67 | one `td[lhs][rhs] += freq` extends the table of the records by one record |
| TrainingData.SumFreqAppend | opt.py:66-67 | the sums of two batches of records add up |
| TrainingData.SumFreqPermutation | opt.py:66-67 | reordering the records leaves every pair's sum unchanged |
| TrainingData.TabulatesOrderFree | opt.py:64-68 | two tables of the same records, in any order, are equal |
| LogLinModel.Score | opt.py:79-84 | `np.dot(weights, featvec(x, y))` is defined exactly for a pair of the model whose vector has the length of the weights |
| LogLinModel.ScoreLinear | opt.py:79-84 | the score is additive in the weights |
| LogLinModel.ScoreScale | opt.py:79-84 | scaling the weights scales the score |
| LogLinModel.GradientIsObservedMinusExpected | opt.py:132-141 | the gradient computed as the sum of `freq * (f(x, y) - E[f(x, .)])` equals the observed feature counts minus the expected ones, the form of Collins' equation (6) |
| LogLinModel.LogLhdGrad | opt.py:142-165 | `None` (KeyError) exactly when a training pair is not in the model; otherwise a vector of the model's dimension equal to the gradient |
| LogLinModel.ComputeExpectations | opt.py:148-154 | the expectation dictionary has one entry per LHS of the model, that LHS's expected feature vector |
| LogLinModel.LhsExpectation | opt.py:150-153 | the inner loop sums `probtable[x][y] * featvec(x, y)` over the RHSs of `x` |
| LogLinModel.AddLhsGradient | opt.py:160-162 | the inner loop adds an LHS's gradient terms, and fails exactly when one of its training pairs is not in the model |
| LogLinModel.LogLikelihood | opt.py:116-130 | when every training pair has a probability: `-DBL_MAX` if one of them is 0, otherwise the sum of `freq * log p`; a missing pair with no zero probability gives KeyError |
| LogLinModel.LhsLogLikelihood | opt.py:118-127 | one LHS's terms end in a KeyError only when one of its pairs has no probability, in `ProbabilityZeroError` only when one of its pairs has probability 0, and in the LHS's sum whenever all its probabilities are present and non-zero |
| LogLinModel.PenaltyGrad | opt.py:255-256 | `lam * weights` has the length of the weights |
| LogLinModel.NormSquaredNonNegative | opt.py:253 | a squared norm is never negative |
| LogLinModel.Penalty | opt.py:252-253 | `(lam / 2) * norm(weights)**2` is non-negative for a non-negative `lam` |
| LogLinModel.PenaltyAtOrigin | opt.py:252-253 | the L2 penalty is 0 at the origin |
| LogLinModel.PenaltyGradIsGradient | opt.py:252-256 | `penaltygrad` is the exact gradient of `penalty`: a step `d` changes the penalty by the gradient's dot product with `d` plus the second-order `penalty(d)` |
| DenseFeatures.Absorbed | opt.py:184-193 | one iteration fails with the dimension assertion exactly when the length differs from `_dim`, and with the feature assertion exactly when the pair is stored with another vector; otherwise `_dim` is the record's length and the pair holds the record's vector |
| DenseFeatures.Load | opt.py:181-193 | after a successful construction, `_dim` is unset exactly when there were no records |
| DenseFeatures.LoadCorrect | opt.py:184-193 | construction succeeds exactly when the vectors share one length and repeated pairs repeat their vector; it then records exactly the records and the first length; each failure names a violated condition |
| DenseFeatures.LoadRepeat | opt.py:189-191 | repeating an earlier record leaves the construction unchanged (idempotence) |
| DenseFeatures.LoadPrefixFailure | opt.py:184-193 | a failure part-way through is the failure of the whole construction |
| DenseFeatures.LoadDimensioned | opt.py:185-188 | every vector of a successful construction has the model's dimension |
| DenseFeatures.DenseModel.constructor | opt.py:182-183 | no dimension and an empty rule table |
| DenseFeatures.DenseModel.Mismatched | opt.py:185-191 | the two assertions of one iteration fail exactly when the construction extended by the record fails, and with its error |
| DenseFeatures.DenseModel.Store | opt.py:185-193 | the fields after a successful iteration are the construction of one more record |
| DenseFeatures.DenseModel.Absorb | opt.py:184-193 | one iteration: either the fields advance by the record, or the error of the extended construction leaves them, the recorded table included, unchanged and consistent |
| DenseFeatures.DenseModel.FromRecords | opt.py:181-193 | the model of the records, or exactly the first failure of the construction |
| DenseFeatures.DenseModel.Dim | opt.py:195-196 | the first record's length, `None` without records |
| DenseFeatures.DenseModel.Lhss | opt.py:198-199 | the recorded LHSs, plus any LHS already looked up |
| DenseFeatures.DenseModel.Rhss | opt.py:201-202 | the RHSs recorded with the LHS, which is then a key of the defaultdict |
| DenseFeatures.DenseModel.Featvec | opt.py:204-205 | `None` (KeyError) exactly when no record has the pair, otherwise the recorded vector |
| IndicatorFeatures.IndexOf | opt.py:231 | `list.index`: the first position holding the rule; `None` (ValueError) exactly when the rule is not listed |
| IndicatorFeatures.IndicatorTable | opt.py:235-243 | the model's feature table has exactly the listed pairs |
| IndicatorFeatures.IndicatorDimensioned | opt.py:218-219 | every feature vector has `dim()` entries |
| IndicatorFeatures.IndicatorScore | opt.py:245-247 | with `dim()` weights, the base class's `np.dot(w, featvec(x, y))` is the weight at the pair's first position |
| IndicatorFeatures.DeadDimension | opt.py:218-219 | the second position of a repeated rule is no rule's index, and is 0 in every feature vector |
| IndicatorFeatures.IndicatorModel.constructor | opt.py:213-216 | the rule list as given and two empty memo dictionaries |
| IndicatorFeatures.IndicatorModel.Dim | opt.py:218-219 | the length of the rule list; every listed rule's index is below it |
| IndicatorFeatures.IndicatorModel.Lhss | opt.py:221-222 | exactly the LHSs of the listed rules |
| IndicatorFeatures.IndicatorModel.Rhss | opt.py:224-225 | exactly the RHSs listed with the LHS |
| IndicatorFeatures.IndicatorModel.FindIndex | opt.py:227-233 | the rule's first position, taken from the memo when it is there and memoised when found |
| IndicatorFeatures.IndicatorModel.Featvec | opt.py:235-243 | the basis vector of the rule's first position, `None` (ValueError) exactly for an unlisted rule; both memos are updated as the source updates them |
| IndicatorFeatures.IndicatorModel.FeatvecDot | opt.py:245-247 | the weight at the rule's first position; ValueError exactly for an unlisted rule, IndexError exactly when the weights are too short; equal to the base class's score with `dim()` weights |

## Left out

- `read_input` (opt.py:49-61) is left out: it reads the file, skips blank and `#` lines and prints to stderr. The model starts from one record line.
- `float()` on a feature word is the `toFloat` parameter of `RecordParser.ParseFloats`, since decimal-to-binary float conversion is not modelled.
- `probs_from_model` (opt.py:86-98) is left out: its softmax needs `exp` and floating-point division. The probability table it returns is a parameter, and so is `np.log`.
- Floating-point rounding, `np.longdouble` and numpy's summation order are left out: the model computes with exact reals.
- `train`, `report_model`, `run` and `main` are left out: they call a numerical optimiser, print, parse the command line and read files.
- The stderr warning of the base class's constructor (opt.py:77) is left out, because it is I/O.
- The `isinstance` assertion at opt.py:164 always holds for a numpy vector and is left out.
- RecordParser.ParseInt: accepts only ASCII digits. Python's `int()` also accepts other Unicode decimal digits.
- RecordParser.ParseInt: has no length limit. Current Python versions make `int()` raise ValueError on a string of more than 4300 digits.
- The string operations follow Python 3 (`str.isspace()` whitespace for `\s` and `str.split()`, `int()`'s own whitespace, `_` in `int()`), although opt.py imports `print_function` so as to run under Python 2 as well.
- `float("nan")` and `float("inf")` are only covered through the `toFloat` parameter. The exact reals have no NaN, so the model does not capture that a NaN in a repeated vector makes `np.array_equal` fail in the dense construction.
- LogLinModel.LogLhdGrad, LogLinModel.Score: they take the feature table as a value. They do not model the empty entry that the dense model's defaultdict gains when `loglhdgrad` calls `rhss`/`featvec` for an LHS of the training data that the model lacks.
- Aliasing of the memoised numpy arrays is left out: vectors are values, so a caller cannot modify a memoised vector in place.
- The lists returned by `lhss()` and `rhss()` are modelled as sets, because their order is that of Python's dictionaries and sets.
- LogLinModel.LogLikelihood: when a training pair is missing from the probability table and another has probability 0, the result (KeyError or `-DBL_MAX`) depends on which pair the loop reaches first. The contract allows both outcomes.
- LogLinModel.LogLhdGrad, LogLinModel.ComputeExpectations: these require that the probability table has every pair of the feature table, which always holds for a table built by `probs_from_model` over the same model.
- IndicatorFeatures.IndicatorModel.FeatvecDot: agreement with the base class's score is stated for weights of length `dim()`. With longer weights, `featvec_dot` returns the weight, while `np.dot` raises ValueError. With shorter weights and a position below their length, `featvec_dot` likewise returns the weight while `np.dot` raises ValueError.
