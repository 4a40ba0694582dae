/**
  The record-line parser of opt.py: the field split `re.split('\s*\|\s*', line)`, the
  integer frequency `int(freq)`, the LHS check `re.match('^' + token_re + '$', lhs)`, the RHS
  tokeniser `re.findall(token_re, rhs)` with `token_re = (?:\([^\(\)]*\)|\S)+`, and the
  whitespace split of the feature field.

  The regular expression is modelled by the scanner it amounts to. Each repetition of the
  `+` tries the group alternative `\([^\(\)]*\)` first and the single non-space character
  `\S` second; nothing follows the `+`, so the greedy match never backtracks. `findall` skips
  positions where no repetition matches (whitespace) and resumes after each match.
*/
module RecordParser {
  import opened Wrappers
  import opened Grammar
  import opened LinAlg

  /** Python's whitespace: the characters for which `str.isspace()` holds, which are also
      those `\s` and `str.split()` treat as whitespace. `int()` skips the same characters
      except the information separators (`IsInfoSeparator`). */
  predicate IsSpace(c: char)
  {
    ('\t' <= c <= '\r') || ('\U{1C}' <= c <= ' ') || c == '\U{85}' || c == '\U{A0}'
    || c == '\U{1680}' || ('\U{2000}' <= c <= '\U{200A}') || c == '\U{2028}' || c == '\U{2029}'
    || c == '\U{202F}' || c == '\U{205F}' || c == '\U{3000}'
  }

  predicate IsParen(c: char)
  {
    c == '(' || c == ')'
  }

  /////////////////////////////////////////////////////////////////////////////
  // The tokeniser

  /** The position of the first parenthesis at or after `j`, or `|s|` when there is none. */
  function NextParen(s: string, j: nat): (k: nat)
    requires j <= |s|
    ensures j <= k <= |s|
    ensures forall i :: j <= i < k ==> !IsParen(s[i])
    ensures k < |s| ==> IsParen(s[k])
    decreases |s| - j
  {
    if j == |s| || IsParen(s[j]) then j else NextParen(s, j + 1)
  }

  /** `s[lo..hi + 1]` is matched by the group alternative `\([^\(\)]*\)`. */
  ghost predicate IsGroup(s: string, lo: int, hi: int)
  {
    0 <= lo < hi < |s| && s[lo] == '(' && s[hi] == ')'
    && forall k :: lo < k < hi ==> !IsParen(s[k])
  }

  /** Position `p` lies strictly inside a parenthesis-free group. */
  ghost predicate InGroup(s: string, p: int)
  {
    exists lo, hi :: IsGroup(s, lo, hi) && lo < p < hi
  }

  /** No group starts before `i` and ends at or after it: the scanner may stop before `i`. */
  ghost predicate Boundary(s: string, i: int)
  {
    forall lo, hi :: IsGroup(s, lo, hi) && lo < i ==> hi < i
  }

  /** The end of one repetition of `(?:\([^\(\)]*\)|\S)` starting at `j`: after the group
      when the first alternative matches, after one character when the second does, and `j`
      itself when neither matches. */
  function UnitEnd(s: string, j: nat): (u: nat)
    requires j <= |s|
    ensures j <= u <= |s|
    ensures u == j <==> j == |s| || IsSpace(s[j])
  {
    if j == |s| then j
    else if s[j] == '(' && NextParen(s, j + 1) < |s| && s[NextParen(s, j + 1)] == ')' then
      NextParen(s, j + 1) + 1
    else if IsSpace(s[j]) then j
    else j + 1
  }

  /** The end of the greedy match of `token_re` starting at `j`. */
  function TokenEnd(s: string, j: nat): (e: nat)
    requires j <= |s|
    ensures j <= e <= |s|
    ensures e == |s| || IsSpace(s[e])
    ensures j < |s| && !IsSpace(s[j]) ==> j < e
    decreases |s| - j
  {
    var u := UnitEnd(s, j);
    if u == j then j else TokenEnd(s, u)
  }

  /** The `[start, end)` positions of the matches `re.findall(token_re, s[i..])` reports. */
  function Spans(s: string, i: nat): (sp: seq<(nat, nat)>)
    requires i <= |s|
    ensures forall k :: 0 <= k < |sp| ==> i <= sp[k].0 < sp[k].1 <= |s|
    decreases |s| - i
  {
    if i == |s| then []
    else if IsSpace(s[i]) then Spans(s, i + 1)
    else
      var e := TokenEnd(s, i);
      [(i, e)] + Spans(s, e)
  }

  /** `re.findall(token_re, s)`: the matched substrings, in order. */
  function Tokenize(s: string): (ts: seq<Token>)
    ensures forall k :: 0 <= k < |ts| ==> |ts[k]| > 0
  {
    Slices(s, Spans(s, 0))
  }

  /** The substrings of `s` at the given positions. */
  function Slices(s: string, sp: seq<(nat, nat)>): (ts: seq<string>)
    requires forall k :: 0 <= k < |sp| ==> sp[k].0 <= sp[k].1 <= |s|
    ensures |ts| == |sp|
  {
    seq(|sp|, k requires 0 <= k < |sp| => s[sp[k].0 .. sp[k].1])
  }

  /** Some match covers position `p`. */
  ghost predicate Covered(sp: seq<(nat, nat)>, p: int)
  {
    exists k :: 0 <= k < |sp| && sp[k].0 <= p < sp[k].1
  }

  /** The language of `^token_re$`: non-empty, and every whitespace character lies inside a
      parenthesis-free group. */
  ghost predicate IsToken(t: string)
  {
    |t| > 0 && forall p :: 0 <= p < |t| && IsSpace(t[p]) ==> InGroup(t, p)
  }

  /** The LHS check `re.match('^' + token_re + '$', lhs)`, decided by the scanner, for a
      string that does not end in a newline (Python's `$` also matches just before a final
      "\n"; a stripped field never ends in one). */
  predicate MatchesToken(t: string): (m: bool)
    ensures m ==> |t| > 0 && !IsSpace(t[0])
  {
    |t| > 0 && TokenEnd(t, 0) == |t|
  }

  lemma GroupClosesAtNextParen(s: string, lo: int, hi: int)
    requires IsGroup(s, lo, hi)
    ensures NextParen(s, lo + 1) == hi
  {
  }

  /** One repetition keeps the scanner at a boundary and covers only non-space characters
      and the insides of groups. */
  lemma UnitStep(s: string, j: nat)
    requires j <= |s| && Boundary(s, j)
    ensures Boundary(s, UnitEnd(s, j))
    ensures forall p :: j <= p < UnitEnd(s, j) ==> !IsSpace(s[p]) || InGroup(s, p)
  {
    var u := UnitEnd(s, j);
    if j < |s| && s[j] == '(' && NextParen(s, j + 1) < |s| && s[NextParen(s, j + 1)] == ')' {
      var h := NextParen(s, j + 1);
      assert IsGroup(s, j, h);
      forall lo, hi | IsGroup(s, lo, hi) && lo < u ensures hi < u {
        if lo == j {
          GroupClosesAtNextParen(s, lo, hi);
        } else if lo > j {
          assert j + 1 <= lo <= h;
        }
      }
      forall p | j <= p < u ensures !IsSpace(s[p]) || InGroup(s, p) {
        if j < p < h {
          assert IsGroup(s, j, h) && j < p < h;
        }
      }
    } else if u == j + 1 {
      forall lo, hi | IsGroup(s, lo, hi) && lo < u ensures hi < u {
        if lo == j {
          GroupClosesAtNextParen(s, lo, hi);
          assert false;
        }
      }
    }
  }

  /** A whole match keeps the scanner at a boundary and covers only non-space characters
      and the insides of groups. */
  lemma {:induction false} TokenStep(s: string, j: nat)
    requires j <= |s| && Boundary(s, j)
    ensures Boundary(s, TokenEnd(s, j))
    ensures forall p :: j <= p < TokenEnd(s, j) ==> !IsSpace(s[p]) || InGroup(s, p)
    decreases |s| - j
  {
    var u := UnitEnd(s, j);
    if u != j {
      UnitStep(s, j);
      TokenStep(s, u);
    }
  }

  lemma CoveredCons(h: (nat, nat), tail: seq<(nat, nat)>, p: int)
    ensures Covered([h] + tail, p) <==> (h.0 <= p < h.1) || Covered(tail, p)
  {
    var sp := [h] + tail;
    if Covered(tail, p) {
      var k :| 0 <= k < |tail| && tail[k].0 <= p < tail[k].1;
      assert sp[k + 1] == tail[k];
    }
    if Covered(sp, p) && !(h.0 <= p < h.1) {
      var k :| 0 <= k < |sp| && sp[k].0 <= p < sp[k].1;
      assert k > 0 && sp[k] == tail[k - 1];
    }
    if h.0 <= p < h.1 {
      assert sp[0] == h;
    }
  }

  /** What the scan from `i` covers, and that every match starts and ends at a boundary. */
  ghost predicate ScanFacts(s: string, i: nat)
    requires i <= |s|
  {
    (forall p :: i <= p < |s| ==> (Covered(Spans(s, i), p) <==> !IsSpace(s[p]) || InGroup(s, p)))
    && (forall k :: 0 <= k < |Spans(s, i)| ==>
      Boundary(s, Spans(s, i)[k].0) && Boundary(s, Spans(s, i)[k].1))
  }

  /** The scan from a boundary covers exactly the non-space characters and the insides of
      groups, and every match starts and ends at a boundary. */
  lemma {:induction false} SpansFacts(s: string, i: nat)
    requires i <= |s| && Boundary(s, i)
    ensures ScanFacts(s, i)
    decreases |s| - i
  {
    if i < |s| {
      if IsSpace(s[i]) {
        assert Boundary(s, i + 1);
        SpansFacts(s, i + 1);
        SpaceScanStep(s, i);
      } else {
        TokenStep(s, i);
        SpansFacts(s, TokenEnd(s, i));
        TokenScanStep(s, i);
      }
    }
  }

  lemma SpaceScanStep(s: string, i: nat)
    requires i < |s| && IsSpace(s[i]) && Boundary(s, i) && ScanFacts(s, i + 1)
    ensures ScanFacts(s, i)
  {
    assert Spans(s, i) == Spans(s, i + 1);
    assert !Covered(Spans(s, i + 1), i);
    assert !InGroup(s, i);
  }

  lemma TokenScanStep(s: string, i: nat)
    requires i < |s| && !IsSpace(s[i]) && Boundary(s, i)
    requires Boundary(s, TokenEnd(s, i))
    requires forall p :: i <= p < TokenEnd(s, i) ==> !IsSpace(s[p]) || InGroup(s, p)
    requires ScanFacts(s, TokenEnd(s, i))
    ensures ScanFacts(s, i)
  {
    var e := TokenEnd(s, i);
    assert Spans(s, i) == [(i, e)] + Spans(s, e);
    forall p | i <= p < |s|
      ensures Covered(Spans(s, i), p) <==> !IsSpace(s[p]) || InGroup(s, p)
    {
      CoveredCons((i, e), Spans(s, e), p);
    }
  }

  /** The tokeniser's meaning: a character belongs to a token exactly when it is not
      whitespace or lies inside a parenthesis-free group, so whitespace inside such a group
      never splits a token; and every token stops at the end of the string or at whitespace
      outside every group. */
  lemma TokenizeCovers(s: string)
    ensures forall p :: 0 <= p < |s| ==>
      (Covered(Spans(s, 0), p) <==> !IsSpace(s[p]) || InGroup(s, p))
    ensures forall k :: 0 <= k < |Spans(s, 0)| && Spans(s, 0)[k].1 < |s| ==>
      IsSpace(s[Spans(s, 0)[k].1]) && !InGroup(s, Spans(s, 0)[k].1)
  {
    SpansFacts(s, 0);
    SpansEnds(s, 0);
  }

  /** Each match ends at the end of the string or at whitespace. */
  lemma {:induction false} SpansEnds(s: string, i: nat)
    requires i <= |s|
    ensures forall k :: 0 <= k < |Spans(s, i)| && Spans(s, i)[k].1 < |s| ==>
      IsSpace(s[Spans(s, i)[k].1])
    decreases |s| - i
  {
    if i < |s| {
      if IsSpace(s[i]) {
        SpansEnds(s, i + 1);
      } else {
        SpansEnds(s, TokenEnd(s, i));
      }
    }
  }

  lemma ShiftGroup(s: string, lo: int, hi: int, a: int, b: int)
    requires 0 <= a <= lo && hi < b <= |s|
    requires IsGroup(s, lo, hi)
    ensures IsGroup(s[a..b], lo - a, hi - a)
  {
  }

  /** Every string `re.findall(token_re, s)` returns is non-empty and matches `^token_re$`. */
  lemma TokensAreTokens(s: string)
    ensures forall k :: 0 <= k < |Tokenize(s)| ==> IsToken(Tokenize(s)[k])
  {
    var sp := Spans(s, 0);
    SpansFacts(s, 0);
    forall k | 0 <= k < |sp| ensures IsToken(s[sp[k].0 .. sp[k].1]) {
      var a, b := sp[k].0, sp[k].1;
      var t := s[a..b];
      forall p | 0 <= p < |t| && IsSpace(t[p]) ensures InGroup(t, p) {
        assert Covered(sp, a + p);
        var lo, hi :| IsGroup(s, lo, hi) && lo < a + p < hi;
        ShiftGroup(s, lo, hi, a, b);
        assert IsGroup(t, lo - a, hi - a) && lo - a < p < hi - a;
      }
    }
  }

  /** The scanner decides the language of `^token_re$` exactly. */
  lemma MatchesTokenIff(t: string)
    ensures MatchesToken(t) <==> IsToken(t)
  {
    TokenStep(t, 0);
    var e := TokenEnd(t, 0);
    if IsToken(t) && e < |t| {
      assert false;
    }
  }

  /////////////////////////////////////////////////////////////////////////////
  // Tokenising joined tokens

  /** Every `(` of `t` is followed, later in `t`, by some parenthesis, so the scanner
      decides each group attempt without looking past the end of `t`. */
  ghost predicate Closed(t: string)
  {
    forall j :: 0 <= j < |t| && t[j] == '(' ==> exists k :: j < k < |t| && IsParen(t[k])
  }

  /** The matches, moved `d` positions to the right. */
  function ShiftSpans(sp: seq<(nat, nat)>, d: nat): (r: seq<(nat, nat)>)
    ensures |r| == |sp|
    ensures forall k :: 0 <= k < |sp| ==> r[k] == (sp[k].0 + d, sp[k].1 + d)
  {
    seq(|sp|, k requires 0 <= k < |sp| => (sp[k].0 + d, sp[k].1 + d))
  }

  lemma {:induction false} NextParenShift(a: string, b: string, j: nat)
    requires j <= |b|
    ensures NextParen(a + b, |a| + j) == |a| + NextParen(b, j)
    decreases |b| - j
  {
    if j < |b| && !IsParen(b[j]) {
      NextParenShift(a, b, j + 1);
    }
  }

  lemma {:induction false} TokenEndShift(a: string, b: string, j: nat)
    requires j <= |b|
    ensures TokenEnd(a + b, |a| + j) == |a| + TokenEnd(b, j)
    decreases |b| - j
  {
    UnitEndShift(a, b, j);
    var u := UnitEnd(b, j);
    if u != j {
      TokenEndShift(a, b, u);
    }
  }

  lemma UnitEndShift(a: string, b: string, j: nat)
    requires j <= |b|
    ensures UnitEnd(a + b, |a| + j) == |a| + UnitEnd(b, j)
  {
    if j < |b| {
      var s := a + b;
      NextParenShift(a, b, j + 1);
      assert s[|a| + j] == b[j];
      var k := NextParen(b, j + 1);
      if k < |b| {
        assert s[|a| + k] == b[k];
      }
    }
  }

  /** The scanner only looks forward: the matches in `b` do not depend on what precedes it. */
  lemma {:induction false} SpansShift(a: string, b: string, j: nat)
    requires j <= |b|
    ensures Spans(a + b, |a| + j) == ShiftSpans(Spans(b, j), |a|)
    decreases |b| - j, 1
  {
    var s := a + b;
    if j == |b| {
      assert |s| == |a| + j;
    } else if IsSpace(b[j]) {
      assert s[|a| + j] == b[j];
      SpansShift(a, b, j + 1);
    } else {
      SpansShiftToken(a, b, j);
    }
  }

  lemma {:induction false} SpansShiftToken(a: string, b: string, j: nat)
    requires j < |b| && !IsSpace(b[j])
    ensures Spans(a + b, |a| + j) == ShiftSpans(Spans(b, j), |a|)
    decreases |b| - j, 0
  {
    var s := a + b;
    assert s[|a| + j] == b[j];
    var e := TokenEnd(b, j);
    TokenEndShift(a, b, j);
    calc {
      Spans(s, |a| + j);
      [(|a| + j, |a| + e)] + Spans(s, |a| + e);
      { SpansShift(a, b, e); }
      [(|a| + j, |a| + e)] + ShiftSpans(Spans(b, e), |a|);
      { ShiftSpansCons((j, e), Spans(b, e), |a|); }
      ShiftSpans([(j, e)] + Spans(b, e), |a|);
    }
  }

  lemma ShiftSpansCons(h: (nat, nat), tail: seq<(nat, nat)>, d: nat)
    ensures ShiftSpans([h] + tail, d) == [(h.0 + d, h.1 + d)] + ShiftSpans(tail, d)
  {
  }

  lemma {:induction false} NextParenPrefix(t: string, x: string, j: nat)
    requires j <= |t| && NextParen(t, j) < |t|
    ensures NextParen(t + x, j) == NextParen(t, j)
    decreases |t| - j
  {
    if !IsParen(t[j]) {
      NextParenPrefix(t, x, j + 1);
    }
  }

  /** A closed token followed by whitespace (or nothing) is matched exactly. */
  lemma {:induction false} TokenEndPrefix(t: string, x: string, j: nat)
    requires Closed(t) && j <= |t| && TokenEnd(t, j) == |t|
    requires |x| == 0 || IsSpace(x[0])
    ensures TokenEnd(t + x, j) == |t|
    decreases |t| - j
  {
    if j < |t| {
      if t[j] == '(' {
        var k :| j < k < |t| && IsParen(t[k]);
        assert NextParen(t, j + 1) <= k;
        NextParenPrefix(t, x, j + 1);
      }
      assert UnitEnd(t + x, j) == UnitEnd(t, j);
      TokenEndPrefix(t, x, UnitEnd(t, j));
    }
  }

  /** The matches in a token followed by a space and more text. */
  lemma SpansCons(t: string, r: string)
    requires IsToken(t) && Closed(t)
    ensures Spans(t + " " + r, 0) == [(0, |t|)] + ShiftSpans(Spans(r, 0), |t| + 1)
  {
    var a := t + " ";
    assert t + " " + r == a + r;
    SpansFirst(t, r);
    SpansShift(a, r, 0);
  }

  /** The first match in a token followed by a space is the token. */
  lemma SpansFirst(t: string, r: string)
    requires IsToken(t) && Closed(t)
    ensures Spans(t + " " + r, 0) == [(0, |t|)] + Spans(t + " " + r, |t| + 1)
  {
    var s := t + " " + r;
    MatchesTokenIff(t);
    assert s == t + (" " + r);
    TokenEndPrefix(t, " " + r, 0);
    assert s[0] == t[0] && s[|t|] == ' ';
  }

  /** A token followed by a space and more text is the first token found. */
  lemma TokenizeCons(t: string, r: string)
    requires IsToken(t) && Closed(t)
    ensures Tokenize(t + " " + r) == [t] + Tokenize(r)
  {
    var a := t + " ";
    assert t + " " + r == a + r;
    SpansCons(t, r);
    assert (a + r)[..|t|] == t;
    assert (a + r)[|a|..] == r;
    SlicesShifted(a + r, |a|, r, Spans(r, 0), |t|);
  }

  lemma SlicesShifted(s: string, d: nat, r: string, sp: seq<(nat, nat)>, m: nat)
    requires d <= |s| && s[d..] == r && m <= d
    requires forall k :: 0 <= k < |sp| ==> sp[k].0 <= sp[k].1 <= |r|
    ensures Slices(s, [(0, m)] + ShiftSpans(sp, d)) == [s[..m]] + Slices(r, sp)
  {
    var ssp := [(0, m)] + ShiftSpans(sp, d);
    forall k | 0 <= k < |sp| ensures Slices(s, ssp)[k + 1] == Slices(r, sp)[k] {
      var x, y := sp[k].0, sp[k].1;
      assert ssp[k + 1] == (x + d, y + d);
      assert forall q :: 0 <= q < y - x ==> s[x + d .. y + d][q] == r[x..y][q];
      assert s[x + d .. y + d] == r[x..y];
    }
  }

  /** A single closed token is its own tokenisation. */
  lemma TokenizeOne(t: string)
    requires IsToken(t)
    ensures Tokenize(t) == [t]
  {
    MatchesTokenIff(t);
    assert Spans(t, |t|) == [];
    assert Spans(t, 0) == [(0, |t|)];
    assert Slices(t, [(0, |t|)]) == [t[0..|t|]];
    assert t[0..|t|] == t;
  }

  /** `re.findall(token_re, " ".join(ts)) == ts` for valid, closed tokens. */
  lemma {:induction false} TokenizeJoin(ts: seq<Token>)
    requires forall k :: 0 <= k < |ts| ==> IsToken(ts[k]) && Closed(ts[k])
    ensures Tokenize(Join(ts, " ")) == ts
  {
    if |ts| == 1 {
      TokenizeOne(ts[0]);
    } else if |ts| > 1 {
      TokenizeJoin(ts[1..]);
      TokenizeCons(ts[0], Join(ts[1..], " "));
      assert ts == [ts[0]] + ts[1..];
    }
  }

  /////////////////////////////////////////////////////////////////////////////
  // Splitting on a separator and stripping whitespace

  /** The number of occurrences of `c` in `s`. */
  function Count(s: string, c: char): (n: nat)
    ensures n <= |s|
    ensures n == 0 <==> c !in s
  {
    if |s| == 0 then 0 else (if s[0] == c then 1 else 0) + Count(s[1..], c)
  }

  /** `s.split(sep)` for a one-character separator: the maximal `sep`-free pieces. */
  function SplitOn(s: string, sep: char): (parts: seq<string>)
    ensures |parts| == Count(s, sep) + 1
    ensures forall k :: 0 <= k < |parts| ==> sep !in parts[k]
  {
    if |s| == 0 then [""]
    else
      var rest := SplitOn(s[1..], sep);
      if s[0] == sep then [""] + rest
      else [[s[0]] + rest[0]] + rest[1..]
  }

  /** `sep.join(parts)` */
  function Join(parts: seq<string>, sep: string): string
  {
    if |parts| == 0 then ""
    else if |parts| == 1 then parts[0]
    else parts[0] + sep + Join(parts[1..], sep)
  }

  /** Splitting undoes joining. */
  lemma {:induction false} SplitOnJoin(parts: seq<string>, sep: char)
    requires |parts| > 0
    requires forall k :: 0 <= k < |parts| ==> sep !in parts[k]
    ensures SplitOn(Join(parts, [sep]), sep) == parts
  {
    if |parts| == 1 {
      SplitOnPiece(parts[0], sep);
    } else {
      SplitOnJoin(parts[1..], sep);
      SplitOnPrefix(parts[0], Join(parts[1..], [sep]), sep);
      assert [parts[0]] + parts[1..] == parts;
    }
  }

  /** A piece without the separator is not split. */
  lemma {:induction false} SplitOnPiece(p: string, sep: char)
    requires sep !in p
    ensures SplitOn(p, sep) == [p]
  {
    if |p| > 0 {
      SplitOnPiece(p[1..], sep);
      assert [p[0]] + p[1..] == p;
    }
  }

  /** A piece without the separator, then the separator, comes off as the first part. */
  lemma {:induction false} SplitOnPrefix(p: string, s: string, sep: char)
    requires sep !in p
    ensures SplitOn(p + [sep] + s, sep) == [p] + SplitOn(s, sep)
  {
    var x := p + [sep] + s;
    if |p| == 0 {
      assert x == [sep] + s && x[1..] == s;
    } else {
      assert x[1..] == p[1..] + [sep] + s;
      SplitOnPrefix(p[1..], s, sep);
      assert [p[0]] + p[1..] == p;
    }
  }

  /** Joining undoes splitting. */
  lemma {:induction false} JoinSplitOn(s: string, sep: char)
    ensures Join(SplitOn(s, sep), [sep]) == s
  {
    if |s| > 0 {
      var rest := SplitOn(s[1..], sep);
      JoinSplitOn(s[1..], sep);
      if s[0] == sep {
        assert s == [sep] + s[1..];
      } else if |rest| == 1 {
        assert s == [s[0]] + s[1..];
      } else {
        var parts := [[s[0]] + rest[0]] + rest[1..];
        assert parts[1..] == rest[1..];
        assert s == [s[0]] + s[1..];
      }
    }
  }

  /** `s.lstrip()` */
  function TrimStart(s: string): (t: string)
    ensures |t| <= |s| && t == s[|s| - |t|..]
    ensures forall k :: 0 <= k < |s| - |t| ==> IsSpace(s[k])
    ensures |t| > 0 ==> !IsSpace(t[0])
  {
    if |s| > 0 && IsSpace(s[0]) then TrimStart(s[1..]) else s
  }

  /** `s.rstrip()` */
  function TrimEnd(s: string): (t: string)
    ensures |t| <= |s| && t == s[..|t|]
    ensures forall k :: |t| <= k < |s| ==> IsSpace(s[k])
    ensures |t| > 0 ==> !IsSpace(t[|t| - 1])
  {
    if |s| > 0 && IsSpace(s[|s| - 1]) then TrimEnd(s[..|s| - 1]) else s
  }

  /** `t` is the slice of `s` at `a`, and everything of `s` around it is whitespace. */
  predicate Unpadded(s: string, a: int, t: string)
  {
    0 <= a <= |s| - |t| && t == s[a..a + |t|]
    && (forall k :: 0 <= k < a ==> IsSpace(s[k]))
    && (forall k :: a + |t| <= k < |s| ==> IsSpace(s[k]))
  }

  /** `s.strip()`: `s` without its leading and trailing whitespace. */
  function Strip(s: string): (t: string)
    ensures |t| <= |s|
    ensures |t| > 0 ==> !IsSpace(t[0]) && !IsSpace(t[|t| - 1])
    ensures (forall k :: 0 <= k < |s| ==> IsSpace(s[k])) <==> t == ""
    ensures exists a :: Unpadded(s, a, t)
  {
    var u := TrimStart(s);
    var a := |s| - |u|;
    assert Unpadded(s, a, TrimEnd(u));
    TrimEnd(u)
  }

  /** A field that `\s*` leaves alone on both sides. */
  predicate Trimmed(s: string)
  {
    |s| == 0 || (!IsSpace(s[0]) && !IsSpace(s[|s| - 1]))
  }

  lemma TrimmedFixed(s: string)
    requires Trimmed(s)
    ensures TrimStart(s) == s && TrimEnd(s) == s && Strip(s) == s
  {
  }

  /** `re.split('\s*\|\s*', line)`. Every match of the pattern is one `|` with the
      whitespace around it, so the result is the split on `|` with whitespace removed where
      a piece meets a separator: the end of the first piece, both ends of the middle ones,
      the start of the last; a line without `|` is returned whole. */
  function SplitFields(line: string): (fields: seq<string>)
    ensures |fields| == Count(line, '|') + 1
    ensures forall k :: 0 <= k < |fields| ==> '|' !in fields[k]
  {
    var parts := SplitOn(line, '|');
    if |parts| == 1 then parts
    else seq(|parts|, k requires 0 <= k < |parts| => TrimPiece(parts[k], k, |parts|))
  }

  /** Piece `k` of `n > 1` pieces loses the whitespace where it meets a separator. */
  function TrimPiece(p: string, k: nat, n: nat): (t: string)
    ensures '|' !in p ==> '|' !in t
  {
    if k == 0 then TrimEnd(p)
    else if k == n - 1 then TrimStart(p)
    else Strip(p)
  }

  /** Fields without `|` and without surrounding whitespace come back from the line
      `"|".join(fields)` unchanged, whatever the number of fields. */
  lemma SplitFieldsJoin(fields: seq<string>)
    requires |fields| > 0
    requires forall k :: 0 <= k < |fields| ==> '|' !in fields[k] && Trimmed(fields[k])
    ensures SplitFields(Join(fields, "|")) == fields
  {
    var line := Join(fields, "|");
    SplitOnJoin(fields, '|');
    var parts := SplitOn(line, '|');
    if |parts| > 1 {
      forall k | 0 <= k < |fields| ensures TrimPiece(parts[k], k, |parts|) == fields[k] {
        TrimmedFixed(fields[k]);
      }
    }
  }

  /////////////////////////////////////////////////////////////////////////////
  // Integers

  predicate IsDigit(c: char)
  {
    '0' <= c <= '9'
  }

  /** The digit part Python's `int()` accepts in base 10: ASCII digits, with single
      underscores allowed between two digits. */
  predicate IsDigitString(d: string)
  {
    |d| > 0 && IsDigit(d[0]) && IsDigit(d[|d| - 1])
    && (forall k :: 0 <= k < |d| ==> IsDigit(d[k]) || d[k] == '_')
    && (forall k :: 0 <= k < |d| - 1 ==> d[k] == '_' ==> d[k + 1] != '_')
  }

  /** The value of a digit string, underscores ignored. */
  function DigitsValue(d: string): nat
  {
    if |d| == 0 then 0
    else if d[|d| - 1] == '_' then DigitsValue(d[..|d| - 1])
    else 10 * DigitsValue(d[..|d| - 1]) + (d[|d| - 1] as int - '0' as int) % 10
  }

  /** The ASCII information separators U+001C to U+001F. `str.isspace()` holds for them, but
      `int()` passes ASCII characters through unchanged and then skips only the ASCII
      whitespace " \t\n\v\f\r" (other Unicode whitespace it first turns into spaces), so
      for `int()` they are neither whitespace nor digits. */
  predicate IsInfoSeparator(c: char)
  {
    '\U{1C}' <= c <= '\U{1F}'
  }

  /** `int(s)` for a string: whitespace around it is ignored, then an optional sign and a
      digit string; anything else fails, modelled as `None` (Python's ValueError). An
      information separator anywhere makes it fail; without one, the whitespace `int()` skips
      is exactly the `IsSpace` whitespace that `Strip` removes. */
  function ParseInt(s: string): (r: Option<int>)
    ensures r.Some? <==>
      (forall k :: 0 <= k < |s| ==> !IsInfoSeparator(s[k]))
      && var t := Strip(s);
      IsDigitString(t) || (|t| > 0 && (t[0] == '+' || t[0] == '-') && IsDigitString(t[1..]))
  {
    var t := Strip(s);
    if exists k :: 0 <= k < |s| && IsInfoSeparator(s[k]) then None
    else if IsDigitString(t) then Some(DigitsValue(t))
    else if |t| > 0 && t[0] == '+' && IsDigitString(t[1..]) then Some(DigitsValue(t[1..]))
    else if |t| > 0 && t[0] == '-' && IsDigitString(t[1..]) then Some(-(DigitsValue(t[1..]) as int))
    else None
  }

  /** The decimal digits of `n`, without leading zeros. */
  function NatToDigits(n: nat): (d: string)
    ensures |d| > 0
    ensures forall k :: 0 <= k < |d| ==> IsDigit(d[k])
  {
    var c := ['0' + (n % 10) as char];
    assert IsDigit(c[0]);
    if n < 10 then c else NatToDigits(n / 10) + c
  }

  /** `str(i)` */
  function IntToString(i: int): string
  {
    if i < 0 then "-" + NatToDigits(-i) else NatToDigits(i)
  }

  lemma {:induction false} DigitsValueOfNat(n: nat)
    ensures DigitsValue(NatToDigits(n)) == n
  {
    var d := NatToDigits(n);
    if n >= 10 {
      DigitsValueOfNat(n / 10);
      assert d[..|d| - 1] == NatToDigits(n / 10);
    }
  }

  /** `int(str(i)) == i` */
  lemma ParseIntToString(i: int)
    ensures ParseInt(IntToString(i)) == Some(i)
  {
    var n: nat := if i < 0 then -i else i;
    DigitsValueOfNat(n);
    var d := NatToDigits(n);
    if i < 0 {
      ParseNegativeDigits(d);
    } else {
      ParseDigits(d);
    }
  }

  /** A string of ASCII digits parses to its value. */
  lemma ParseDigits(d: string)
    requires |d| > 0 && forall k :: 0 <= k < |d| ==> IsDigit(d[k])
    ensures ParseInt(d) == Some(DigitsValue(d) as int)
  {
    assert IsDigitString(d);
    assert Trimmed(d);
    TrimmedFixed(d);
  }

  /** `-` followed by a string of ASCII digits parses to minus its value. */
  lemma ParseNegativeDigits(d: string)
    requires |d| > 0 && forall k :: 0 <= k < |d| ==> IsDigit(d[k])
    ensures ParseInt("-" + d) == Some(-(DigitsValue(d) as int))
  {
    NegativeStripped(d);
    ParseNegative("-" + d, d);
  }

  lemma NegativeStripped(d: string)
    requires |d| > 0 && forall k :: 0 <= k < |d| ==> IsDigit(d[k])
    ensures Strip("-" + d) == "-" + d && ("-" + d)[1..] == d && IsDigitString(d)
  {
    assert Trimmed("-" + d);
    TrimmedFixed("-" + d);
  }

  lemma ParseNegative(s: string, d: string)
    requires Strip(s) == s && |s| > 0 && s[0] == '-' && s[1..] == d && IsDigitString(d)
    ensures ParseInt(s) == Some(-(DigitsValue(d) as int))
  {
    assert !IsDigit(s[0]);
  }

  /////////////////////////////////////////////////////////////////////////////
  // Whitespace-separated words

  /** The position of the first whitespace character in `s`, or `|s|`. */
  function WordEnd(s: string): (e: nat)
    ensures e <= |s|
    ensures forall k :: 0 <= k < e ==> !IsSpace(s[k])
    ensures e < |s| ==> IsSpace(s[e])
  {
    if |s| == 0 || IsSpace(s[0]) then 0 else 1 + WordEnd(s[1..])
  }

  /** `s.split()`: the maximal runs of non-whitespace characters, in order. */
  function Words(s: string): (ws: seq<string>)
    ensures forall k :: 0 <= k < |ws| ==> |ws[k]| > 0
    ensures forall k, p :: 0 <= k < |ws| && 0 <= p < |ws[k]| ==> !IsSpace(ws[k][p])
  {
    if |s| == 0 then []
    else if IsSpace(s[0]) then Words(s[1..])
    else
      var e := WordEnd(s);
      [s[..e]] + Words(s[e..])
  }

  /** Non-empty words without whitespace come back from `" ".join(ws).split()`. */
  lemma {:induction false} WordsJoin(ws: seq<string>)
    requires forall k :: 0 <= k < |ws| ==> |ws[k]| > 0
    requires forall k, p :: 0 <= k < |ws| && 0 <= p < |ws[k]| ==> !IsSpace(ws[k][p])
    ensures Words(Join(ws, " ")) == ws
  {
    if |ws| == 1 {
      WordsPiece(ws[0]);
    } else if |ws| > 1 {
      WordsJoin(ws[1..]);
      WordsPrefix(ws[0], Join(ws[1..], " "));
      assert [ws[0]] + ws[1..] == ws;
    }
  }

  /** A single word is its own split. */
  lemma WordsPiece(w: string)
    requires |w| > 0 && forall p :: 0 <= p < |w| ==> !IsSpace(w[p])
    ensures Words(w) == [w]
  {
    WordEndOfWord(w, w);
    assert w[|w|..] == "";
  }

  /** A word followed by a space comes off as the first word. */
  lemma WordsPrefix(w: string, r: string)
    requires |w| > 0 && forall p :: 0 <= p < |w| ==> !IsSpace(w[p])
    ensures Words(w + " " + r) == [w] + Words(r)
  {
    var s := w + " " + r;
    WordEndOfWord(w, s);
    assert s[|w|..] == " " + r;
    assert (" " + r)[1..] == r;
  }

  lemma {:induction false} WordEndOfWord(w: string, s: string)
    requires |w| > 0 && w <= s && (|s| == |w| || IsSpace(s[|w|]))
    requires forall p :: 0 <= p < |w| ==> !IsSpace(w[p])
    ensures WordEnd(s) == |w| && s[..|w|] == w
  {
    if |w| > 1 {
      WordEndOfWord(w[1..], s[1..]);
    }
  }

  /////////////////////////////////////////////////////////////////////////////
  // Parsing one record line

  /** Why `parse` rejects a line: the three `ParseError` messages, and the failed assertion
      on the LHS, which raises AssertionError. */
  datatype ParseFailure = WrongNumberOfFields | NotAnInteger | InvalidLhs | NotAFloat

  /** `(freq, lhs, rhs_tokens, feats_vals)` */
  datatype Record = Record(freq: int, lhs: Token, rhs: Rhs, feats: Vector)

  /** `list(map(float, ws))`, with the conversion of one word passed in: `None` is the
      ValueError of `float()`. */
  function ParseFloats(ws: seq<string>, toFloat: string -> Option<real>): (r: Option<Vector>)
    ensures r.Some? <==> forall k :: 0 <= k < |ws| ==> toFloat(ws[k]).Some?
    ensures r.Some? ==>
      |r.value| == |ws| && forall k :: 0 <= k < |ws| ==> r.value[k] == toFloat(ws[k]).value
  {
    if |ws| == 0 then Some([])
    else match toFloat(ws[0])
      case None => None
      case Some(x) =>
        match ParseFloats(ws[1..], toFloat)
        case None => None
        case Some(xs) => Some([x] + xs)
  }

  /** `parse(line)`: four fields, an integer frequency, a valid LHS token, the RHS tokens
      and the feature values, with the failures in the order the source checks them. */
  function ParseLine(line: string, toFloat: string -> Option<real>): (r: Result<Record, ParseFailure>)
    ensures r == Failure(WrongNumberOfFields) <==> Count(line, '|') != 3
    ensures var f := SplitFields(line);
      r == Failure(NotAnInteger) <==> |f| == 4 && ParseInt(f[0]).None?
    ensures var f := SplitFields(line);
      r == Failure(InvalidLhs) <==> |f| == 4 && ParseInt(f[0]).Some? && !IsToken(f[1])
    ensures var f := SplitFields(line);
      r == Failure(NotAFloat) <==>
        (|f| == 4 && ParseInt(f[0]).Some? && IsToken(f[1]) && ParseFloats(Words(f[3]), toFloat).None?)
    ensures r.Success? ==>
      var f := SplitFields(line);
      |f| == 4 && ParseInt(f[0]) == Some(r.value.freq)
      && r.value.lhs == f[1] && IsToken(r.value.lhs)
      && r.value.rhs == Tokenize(f[2])
      && (forall k :: 0 <= k < |r.value.rhs| ==> IsToken(r.value.rhs[k]))
      && Some(r.value.feats) == ParseFloats(Words(f[3]), toFloat)
  {
    var fields := SplitFields(line);
    if |fields| != 4 then Failure(WrongNumberOfFields) else ParseFieldValues(fields, toFloat)
  }

  /** The conversions of the four fields of a line, in the order `parse` makes them. */
  function ParseFieldValues(fields: seq<string>, toFloat: string -> Option<real>): (r: Result<Record, ParseFailure>)
    requires |fields| == 4
    ensures r != Failure(WrongNumberOfFields)
    ensures r == Failure(NotAnInteger) <==> ParseInt(fields[0]).None?
    ensures r == Failure(InvalidLhs) <==> ParseInt(fields[0]).Some? && !IsToken(fields[1])
    ensures r == Failure(NotAFloat) <==>
      ParseInt(fields[0]).Some? && IsToken(fields[1]) && ParseFloats(Words(fields[3]), toFloat).None?
    ensures r.Success? ==>
      ParseInt(fields[0]) == Some(r.value.freq)
      && r.value.lhs == fields[1] && IsToken(r.value.lhs)
      && r.value.rhs == Tokenize(fields[2])
      && (forall k :: 0 <= k < |r.value.rhs| ==> IsToken(r.value.rhs[k]))
      && Some(r.value.feats) == ParseFloats(Words(fields[3]), toFloat)
  {
    MatchesTokenIff(fields[1]);
    TokensAreTokens(fields[2]);
    match ParseInt(fields[0])
    case None => Failure(NotAnInteger)
    case Some(freq) =>
      if !MatchesToken(fields[1]) then Failure(InvalidLhs)
      else match ParseFloats(Words(fields[3]), toFloat)
        case None => Failure(NotAFloat)
        case Some(feats) => Success(Record(freq, fields[1], Tokenize(fields[2]), feats))
  }

  /** A frequency field that starts with an information separator is not an integer: the
      field split keeps the separator (it is not next to a `|`), and `int()` does not skip
      it. */
  lemma InfoSeparatorNotAnInteger(toFloat: string -> Option<real>)
    ensures ParseLine("\U{1C}5|S|A|1.0", toFloat) == Failure(NotAnInteger)
  {
    var fields := ["\U{1C}5", "S", "A", "1.0"];
    var line := Join(fields, "|");
    JoinedLine(line);
    FirstFieldKept(fields, line);
    assert !ParseInt(fields[0]).Some? by {
      assert IsInfoSeparator(fields[0][0]);
    }
  }

  lemma JoinedLine(line: string)
    requires line == Join(["\U{1C}5", "S", "A", "1.0"], "|")
    ensures line == "\U{1C}5|S|A|1.0"
  {
  }

  lemma FirstFieldKept(fields: seq<string>, line: string)
    requires fields == ["\U{1C}5", "S", "A", "1.0"] && line == Join(fields, "|")
    ensures |SplitFields(line)| == 4 && SplitFields(line)[0] == fields[0]
  {
    SplitOnJoin(fields, '|');
    assert SplitOn(line, '|') == fields;
    assert TrimEnd(fields[0]) == fields[0];
  }

  /** The line `str(freq)|lhs|" ".join(rhs)|" ".join(words)`. */
  function FormatLine(rec: Record, words: seq<string>): string
  {
    Join([IntToString(rec.freq), rec.lhs, Join(rec.rhs, " "), Join(words, " ")], "|")
  }

  lemma {:induction false} JoinExcludes(parts: seq<string>, sep: string, c: char)
    requires c !in sep && forall k :: 0 <= k < |parts| ==> c !in parts[k]
    ensures c !in Join(parts, sep)
  {
    if |parts| > 1 {
      JoinExcludes(parts[1..], sep, c);
    }
  }

  /** Joining non-empty trimmed pieces gives a trimmed string. */
  lemma {:induction false} JoinTrimmed(parts: seq<string>, sep: string)
    requires forall k :: 0 <= k < |parts| ==> |parts[k]| > 0 && Trimmed(parts[k])
    ensures Trimmed(Join(parts, sep))
    ensures |parts| > 0 ==> |Join(parts, sep)| > 0
  {
    if |parts| > 1 {
      JoinTrimmed(parts[1..], sep);
      var j := Join(parts, sep);
      var rest := Join(parts[1..], sep);
      assert j[0] == parts[0][0];
      assert j[|j| - 1] == rest[|rest| - 1];
    }
  }

  lemma TokenTrimmed(t: string)
    requires IsToken(t)
    ensures Trimmed(t)
  {
  }

  /** The fields of a written-out record come back from the field split. */
  lemma FormatLineFields(rec: Record, words: seq<string>)
    requires IsToken(rec.lhs) && '|' !in rec.lhs
    requires forall k :: 0 <= k < |rec.rhs| ==> IsToken(rec.rhs[k]) && '|' !in rec.rhs[k]
    requires forall k :: 0 <= k < |words| ==> |words[k]| > 0 && '|' !in words[k]
    requires forall k, p :: 0 <= k < |words| && 0 <= p < |words[k]| ==> !IsSpace(words[k][p])
    ensures SplitFields(FormatLine(rec, words))
      == [IntToString(rec.freq), rec.lhs, Join(rec.rhs, " "), Join(words, " ")]
  {
    var f0 := IntToString(rec.freq);
    assert Trimmed(f0) && '|' !in f0;
    TokenTrimmed(rec.lhs);
    forall k | 0 <= k < |rec.rhs| ensures |rec.rhs[k]| > 0 && Trimmed(rec.rhs[k]) {
      TokenTrimmed(rec.rhs[k]);
    }
    JoinTrimmed(rec.rhs, " ");
    JoinExcludes(rec.rhs, " ", '|');
    forall k | 0 <= k < |words| ensures Trimmed(words[k]) {
      assert !IsSpace(words[k][0]) && !IsSpace(words[k][|words[k]| - 1]);
    }
    JoinTrimmed(words, " ");
    JoinExcludes(words, " ", '|');
    SplitFieldsJoin([f0, rec.lhs, Join(rec.rhs, " "), Join(words, " ")]);
  }

  /** A record written out as a line is parsed back to the same record, provided its
      tokens are valid, closed and free of `|`, and its feature words are non-empty,
      free of whitespace and `|`, and convert to its feature values. */
  lemma ParseFormatLine(rec: Record, words: seq<string>, toFloat: string -> Option<real>)
    requires IsToken(rec.lhs) && '|' !in rec.lhs
    requires forall k :: 0 <= k < |rec.rhs| ==>
      IsToken(rec.rhs[k]) && Closed(rec.rhs[k]) && '|' !in rec.rhs[k]
    requires forall k :: 0 <= k < |words| ==> |words[k]| > 0 && '|' !in words[k]
    requires forall k, p :: 0 <= k < |words| && 0 <= p < |words[k]| ==> !IsSpace(words[k][p])
    requires |words| == |rec.feats|
    requires forall k :: 0 <= k < |words| ==> toFloat(words[k]) == Some(rec.feats[k])
    ensures ParseLine(FormatLine(rec, words), toFloat) == Success(rec)
  {
    FormatLineFields(rec, words);
    ParseIntToString(rec.freq);
    MatchesTokenIff(rec.lhs);
    TokenizeJoin(rec.rhs);
    WordsJoin(words);
    ParseFloatsOf(words, toFloat, rec.feats);
    var fields := [IntToString(rec.freq), rec.lhs, Join(rec.rhs, " "), Join(words, " ")];
    ParseFieldValuesOf(fields, toFloat, rec);
    ParseFields(FormatLine(rec, words), toFloat, rec, fields);
  }

  lemma ParseFields(line: string, toFloat: string -> Option<real>, rec: Record, fields: seq<string>)
    requires SplitFields(line) == fields && |fields| == 4
    requires ParseFieldValues(fields, toFloat) == Success(rec)
    ensures ParseLine(line, toFloat) == Success(rec)
  {
  }

  lemma ParseFieldValuesOf(fields: seq<string>, toFloat: string -> Option<real>, rec: Record)
    requires |fields| == 4
    requires ParseInt(fields[0]) == Some(rec.freq)
    requires MatchesToken(fields[1]) && fields[1] == rec.lhs
    requires Tokenize(fields[2]) == rec.rhs
    requires ParseFloats(Words(fields[3]), toFloat) == Some(rec.feats)
    ensures ParseFieldValues(fields, toFloat) == Success(rec)
  {
  }

  lemma ParseFloatsOf(ws: seq<string>, toFloat: string -> Option<real>, v: Vector)
    requires |ws| == |v| && forall k :: 0 <= k < |ws| ==> toFloat(ws[k]) == Some(v[k])
    ensures ParseFloats(ws, toFloat) == Some(v)
  {
    var r := ParseFloats(ws, toFloat);
    assert r.Some?;
    assert r.value == v;
  }
}
