/**
  Exact linear algebra over `real` vectors: the numpy operations the model uses
  (`np.zeros`, `+`, `-`, scalar `*`, `np.dot`, `v.put(i, 1)`), and finite sums over sets
  of keys, which give the order-free meaning of the source's loops over dictionaries.
*/
module LinAlg {

  type Vector = seq<real>

  /** `np.zeros(n)` */
  function Zeros(n: nat): (z: Vector)
    ensures |z| == n
    ensures forall i :: 0 <= i < n ==> z[i] == 0.0
  {
    seq(n, _ => 0.0)
  }

  /** Element-wise `u + v`. */
  function Add(u: Vector, v: Vector): (w: Vector)
    requires |u| == |v|
    ensures |w| == |u|
    ensures forall i :: 0 <= i < |w| ==> w[i] == u[i] + v[i]
  {
    seq(|u|, i requires 0 <= i < |u| => u[i] + v[i])
  }

  /** Element-wise `u - v`. */
  function Sub(u: Vector, v: Vector): (w: Vector)
    requires |u| == |v|
    ensures |w| == |u|
    ensures forall i :: 0 <= i < |w| ==> w[i] == u[i] - v[i]
  {
    seq(|u|, i requires 0 <= i < |u| => u[i] - v[i])
  }

  /** Scalar times vector, `c * v`. */
  function Scale(c: real, v: Vector): (w: Vector)
    ensures |w| == |v|
    ensures forall i :: 0 <= i < |w| ==> w[i] == c * v[i]
  {
    seq(|v|, i requires 0 <= i < |v| => c * v[i])
  }

  /** The standard basis vector of length `n` with a 1 at position `i`. */
  function Basis(n: nat, i: nat): (e: Vector)
    requires i < n
    ensures |e| == n
    ensures e[i] == 1.0
    ensures forall k :: 0 <= k < n && k != i ==> e[k] == 0.0
  {
    seq(n, k => if k == i then 1.0 else 0.0)
  }

  /** `np.dot(u, v)` on two vectors of one length. */
  function Dot(u: Vector, v: Vector): real
    requires |u| == |v|
  {
    if |u| == 0 then 0.0 else u[0] * v[0] + Dot(u[1..], v[1..])
  }

  /** The squared Euclidean norm, `np.linalg.norm(v)**2` without the square root. */
  function NormSquared(v: Vector): real
  {
    Dot(v, v)
  }

  lemma {:induction false} DotZeros(u: Vector)
    ensures Dot(u, Zeros(|u|)) == 0.0
  {
    if |u| > 0 {
      assert Zeros(|u|)[1..] == Zeros(|u| - 1);
      DotZeros(u[1..]);
    }
  }

  /** Dotting with a basis vector selects one coordinate. */
  lemma {:induction false} DotBasis(w: Vector, i: nat)
    requires i < |w|
    ensures Dot(w, Basis(|w|, i)) == w[i]
  {
    var e := Basis(|w|, i);
    if i == 0 {
      assert e[1..] == Zeros(|w| - 1);
      DotZeros(w[1..]);
    } else {
      assert e[1..] == Basis(|w| - 1, i - 1);
      DotBasis(w[1..], i - 1);
    }
  }

  lemma {:induction false} DotComm(u: Vector, v: Vector)
    requires |u| == |v|
    ensures Dot(u, v) == Dot(v, u)
  {
    if |u| > 0 {
      DotComm(u[1..], v[1..]);
    }
  }

  lemma {:induction false} DotAddRight(u: Vector, v: Vector, x: Vector)
    requires |u| == |v| == |x|
    ensures Dot(u, Add(v, x)) == Dot(u, v) + Dot(u, x)
  {
    if |u| > 0 {
      assert Add(v, x)[1..] == Add(v[1..], x[1..]);
      DotAddRight(u[1..], v[1..], x[1..]);
    }
  }

  lemma {:induction false} DotScaleRight(u: Vector, c: real, v: Vector)
    requires |u| == |v|
    ensures Dot(u, Scale(c, v)) == c * Dot(u, v)
  {
    if |u| > 0 {
      assert forall i :: 0 <= i < |v| - 1 ==> Scale(c, v)[1..][i] == Scale(c, v[1..])[i];
      assert Scale(c, v)[1..] == Scale(c, v[1..]);
      DotScaleRight(u[1..], c, v[1..]);
    }
  }

  lemma {:induction false} DotScaleLeft(c: real, u: Vector, v: Vector)
    requires |u| == |v|
    ensures Dot(Scale(c, u), v) == c * Dot(u, v)
  {
    if |u| > 0 {
      assert forall i :: 0 <= i < |u| - 1 ==> Scale(c, u)[1..][i] == Scale(c, u[1..])[i];
      assert Scale(c, u)[1..] == Scale(c, u[1..]);
      DotScaleLeft(c, u[1..], v[1..]);
    }
  }

  /** The squared norm of a sum: `|w + d|^2 == |w|^2 + 2 w.d + |d|^2`. */
  lemma NormSquaredOfSum(w: Vector, d: Vector)
    requires |w| == |d|
    ensures NormSquared(Add(w, d)) == NormSquared(w) + 2.0 * Dot(w, d) + NormSquared(d)
  {
    var x := Add(w, d);
    DotAddRight(x, w, d);
    DotComm(x, w);
    DotAddRight(w, w, d);
    DotComm(x, d);
    DotAddRight(d, w, d);
    DotComm(d, w);
  }

  lemma AddComm(u: Vector, v: Vector)
    requires |u| == |v|
    ensures Add(u, v) == Add(v, u)
  {
  }

  lemma AddAssoc(u: Vector, v: Vector, x: Vector)
    requires |u| == |v| == |x|
    ensures Add(Add(u, v), x) == Add(u, Add(v, x))
  {
  }

  lemma ScaleAdd(a: real, b: real, v: Vector)
    ensures Add(Scale(a, v), Scale(b, v)) == Scale(a + b, v)
  {
    forall i | 0 <= i < |v| ensures Add(Scale(a, v), Scale(b, v))[i] == Scale(a + b, v)[i] {
      assert a * v[i] + b * v[i] == (a + b) * v[i];
    }
  }

  lemma ScaleSub(c: real, u: Vector, v: Vector)
    requires |u| == |v|
    ensures Scale(c, Sub(u, v)) == Sub(Scale(c, u), Scale(c, v))
  {
    forall i | 0 <= i < |u| ensures Scale(c, Sub(u, v))[i] == Sub(Scale(c, u), Scale(c, v))[i] {
      assert c * (u[i] - v[i]) == c * u[i] - c * v[i];
    }
  }

  lemma ScaleZero(v: Vector)
    ensures Scale(0.0, v) == Zeros(|v|)
  {
  }

  /////////////////////////////////////////////////////////////////////////////
  // Finite sums over a set of keys

  /** The sum of `f(k)` over all `k` in `ks`, in no particular order (real addition). */
  ghost function RSum<K>(ks: set<K>, f: K -> real): real
    decreases ks
  {
    if ks == {} then 0.0 else var k :| k in ks; f(k) + RSum(ks - {k}, f)
  }

  /** Any element may be taken out of a sum first. */
  lemma {:induction false} RSumRemove<K>(ks: set<K>, f: K -> real, x: K)
    requires x in ks
    ensures RSum(ks, f) == f(x) + RSum(ks - {x}, f)
    decreases ks
  {
    var k :| k in ks && RSum(ks, f) == f(k) + RSum(ks - {k}, f);
    if k != x {
      RSumRemove(ks - {k}, f, x);
      RSumRemove(ks - {x}, f, k);
      assert ks - {k} - {x} == ks - {x} - {k};
    }
  }

  /** Adding a new key to a sum adds its term. */
  lemma RSumInsert<K>(ks: set<K>, f: K -> real, x: K)
    requires x !in ks
    ensures RSum(ks + {x}, f) == f(x) + RSum(ks, f)
  {
    RSumRemove(ks + {x}, f, x);
    assert ks + {x} - {x} == ks;
  }

  /** Sums of vectors of length `n`, `f(k)` for all `k` in `ks`. */
  ghost function VSum<K>(ks: set<K>, f: K -> Vector, n: nat): (s: Vector)
    requires forall k :: k in ks ==> |f(k)| == n
    ensures |s| == n
    decreases ks
  {
    if ks == {} then Zeros(n) else var k :| k in ks; Add(f(k), VSum(ks - {k}, f, n))
  }

  lemma {:induction false} VSumRemove<K>(ks: set<K>, f: K -> Vector, n: nat, x: K)
    requires forall k :: k in ks ==> |f(k)| == n
    requires x in ks
    ensures VSum(ks, f, n) == Add(f(x), VSum(ks - {x}, f, n))
    decreases ks
  {
    var k :| k in ks && VSum(ks, f, n) == Add(f(k), VSum(ks - {k}, f, n));
    if k != x {
      var rest := ks - {k} - {x};
      assert rest == ks - {x} - {k};
      VSumRemove(ks - {k}, f, n, x);
      VSumRemove(ks - {x}, f, n, k);
      AddAssoc(f(k), f(x), VSum(rest, f, n));
      AddComm(f(k), f(x));
      AddAssoc(f(x), f(k), VSum(rest, f, n));
    }
  }

  lemma VSumInsert<K>(ks: set<K>, f: K -> Vector, n: nat, x: K)
    requires forall k :: k in ks ==> |f(k)| == n
    requires |f(x)| == n
    requires x !in ks
    ensures VSum(ks + {x}, f, n) == Add(f(x), VSum(ks, f, n))
  {
    VSumRemove(ks + {x}, f, n, x);
    assert ks + {x} - {x} == ks;
  }

  /** A sum of differences is the difference of the sums. */
  lemma {:induction false} VSumSub<K>(ks: set<K>, f: K -> Vector, g: K -> Vector, h: K -> Vector, n: nat)
    requires forall k :: k in ks ==> |f(k)| == n && |g(k)| == n && |h(k)| == n
    requires forall k :: k in ks ==> h(k) == Sub(f(k), g(k))
    ensures VSum(ks, h, n) == Sub(VSum(ks, f, n), VSum(ks, g, n))
    decreases ks
  {
    if ks != {} {
      var k :| k in ks;
      VSumRemove(ks, f, n, k);
      VSumRemove(ks, g, n, k);
      VSumRemove(ks, h, n, k);
      VSumSub(ks - {k}, f, g, h, n);
    }
  }

  /** Scaling one vector by a sum of coefficients. */
  lemma {:induction false} VSumScale<K>(ks: set<K>, c: K -> real, h: K -> Vector, v: Vector)
    requires forall k :: k in ks ==> |h(k)| == |v| && h(k) == Scale(c(k), v)
    ensures VSum(ks, h, |v|) == Scale(RSum(ks, c), v)
    decreases ks
  {
    if ks != {} {
      var k :| k in ks;
      VSumRemove(ks, h, |v|, k);
      RSumRemove(ks, c, k);
      VSumScale(ks - {k}, c, h, v);
      ScaleAdd(c(k), RSum(ks - {k}, c), v);
    } else {
      ScaleZero(v);
    }
  }
}
