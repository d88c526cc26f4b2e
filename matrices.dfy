/** Dense real matrices as `numpy` arrays are used by the element formulations:
    row-major sequences of rows, the dot product and matrix products. */
module Matrices {

  type Vector = seq<real>
  type Matrix = seq<seq<real>>

  /** `m` has `rows` rows of `cols` entries each. */
  predicate IsMatrix(m: Matrix, rows: nat, cols: nat)
  {
    |m| == rows && forall i :: 0 <= i < rows ==> |m[i]| == cols
  }

  predicate Symmetric(m: Matrix)
  {
    IsMatrix(m, |m|, |m|) && forall i, j :: 0 <= i < |m| && 0 <= j < |m| ==> m[i][j] == m[j][i]
  }

  function Identity(n: nat): (m: Matrix)
    ensures IsMatrix(m, n, n)
  {
    seq(n, i requires 0 <= i < n => seq(n, j requires 0 <= j < n => if i == j then 1.0 else 0.0))
  }

  function Dot(u: Vector, v: Vector): real
    requires |u| == |v|
    decreases |u|
  {
    if |u| == 0 then 0.0 else u[0] * v[0] + Dot(u[1..], v[1..])
  }

  function Col(m: Matrix, j: nat): (c: Vector)
    requires forall i :: 0 <= i < |m| ==> j < |m[i]|
    ensures |c| == |m| && forall i :: 0 <= i < |m| ==> c[i] == m[i][j]
  {
    seq(|m|, i requires 0 <= i < |m| => m[i][j])
  }

  /** `numpy.transpose` of a matrix with `cols` columns. */
  function Transpose(m: Matrix, cols: nat): (t: Matrix)
    requires IsMatrix(m, |m|, cols)
    ensures IsMatrix(t, cols, |m|)
    ensures forall i, j :: 0 <= i < cols && 0 <= j < |m| ==> t[i][j] == m[j][i]
  {
    seq(cols, j requires 0 <= j < cols => Col(m, j))
  }

  /** The row vector `u` times `m`. */
  function VecMat(u: Vector, m: Matrix, cols: nat): (r: Vector)
    requires IsMatrix(m, |u|, cols)
    ensures |r| == cols
  {
    seq(cols, j requires 0 <= j < cols => Dot(u, Col(m, j)))
  }

  /** `m` times the column vector `v`. */
  function MatVec(m: Matrix, v: Vector): (r: Vector)
    requires IsMatrix(m, |m|, |v|)
    ensures |r| == |m|
  {
    seq(|m|, i requires 0 <= i < |m| => Dot(m[i], v))
  }

  /** `numpy.dot` of an r-by-n and an n-by-`cols` matrix. */
  function MatMul(a: Matrix, b: Matrix, cols: nat): (c: Matrix)
    requires IsMatrix(a, |a|, |b|) && IsMatrix(b, |b|, cols)
    ensures IsMatrix(c, |a|, cols)
  {
    seq(|a|, i requires 0 <= i < |a| => VecMat(a[i], b, cols))
  }

  lemma {:induction false} DotCommutes(u: Vector, v: Vector)
    requires |u| == |v|
    ensures Dot(u, v) == Dot(v, u)
    decreases |u|
  {
    if |u| > 0 {
      DotCommutes(u[1..], v[1..]);
    }
  }

  lemma {:induction false} DotZero(z: Vector, v: Vector)
    requires |z| == |v| && forall k :: 0 <= k < |z| ==> z[k] == 0.0
    ensures Dot(z, v) == 0.0
    decreases |z|
  {
    if |z| > 0 {
      DotZero(z[1..], v[1..]);
    }
  }

  /** The dot product is linear in its left argument. */
  lemma {:induction false} DotScaleAdd(a: real, x: Vector, y: Vector, z: Vector, v: Vector)
    requires |x| == |y| == |z| == |v|
    requires forall k :: 0 <= k < |z| ==> z[k] == a * x[k] + y[k]
    ensures Dot(z, v) == a * Dot(x, v) + Dot(y, v)
    decreases |z|
  {
    if |z| > 0 {
      DotScaleAdd(a, x[1..], y[1..], z[1..], v[1..]);
      calc {
        Dot(z, v);
        (a * x[0] + y[0]) * v[0] + Dot(z[1..], v[1..]);
        a * (x[0] * v[0]) + y[0] * v[0] + a * Dot(x[1..], v[1..]) + Dot(y[1..], v[1..]);
        a * (x[0] * v[0] + Dot(x[1..], v[1..])) + (y[0] * v[0] + Dot(y[1..], v[1..]));
      }
    }
  }

  /** The exchange of summation order behind every matrix-product identity:
      (u·m)·v == u·(m·v). */
  lemma {:induction false} VecMatDot(u: Vector, m: Matrix, v: Vector)
    requires IsMatrix(m, |u|, |v|)
    ensures Dot(VecMat(u, m, |v|), v) == Dot(u, MatVec(m, v))
    decreases |u|
  {
    var n := |v|;
    if |u| == 0 {
      DotZero(VecMat(u, m, n), v);
    } else {
      var mv := MatVec(m, v);
      calc {
        Dot(VecMat(u, m, n), v);
        { VecMatFirstRow(u, m, n);
          DotScaleAdd(u[0], m[0], VecMat(u[1..], m[1..], n), VecMat(u, m, n), v); }
        u[0] * Dot(m[0], v) + Dot(VecMat(u[1..], m[1..], n), v);
        { VecMatDot(u[1..], m[1..], v); }
        u[0] * Dot(m[0], v) + Dot(u[1..], MatVec(m[1..], v));
        { MatVecFirstRow(m, v); }
        u[0] * mv[0] + Dot(u[1..], mv[1..]);
        Dot(u, mv);
      }
    }
  }

  /** u·m splits into the first row, scaled by u[0], plus the rest. */
  lemma VecMatFirstRow(u: Vector, m: Matrix, n: nat)
    requires IsMatrix(m, |u|, n) && |u| > 0
    ensures forall k :: 0 <= k < n ==> VecMat(u, m, n)[k] == u[0] * m[0][k] + VecMat(u[1..], m[1..], n)[k]
  {
    forall k | 0 <= k < n
      ensures VecMat(u, m, n)[k] == u[0] * m[0][k] + VecMat(u[1..], m[1..], n)[k]
    {
      assert Col(m, k)[1..] == Col(m[1..], k);
    }
  }

  /** m·v splits into the first row's dot product and the rest. */
  lemma MatVecFirstRow(m: Matrix, v: Vector)
    requires IsMatrix(m, |m|, |v|) && |m| > 0
    ensures MatVec(m, v)[0] == Dot(m[0], v) && MatVec(m, v)[1..] == MatVec(m[1..], v)
  {
  }

  /** A symmetric matrix acts on the left as on the right. */
  lemma SymmetricMatVec(k: Matrix, v: Vector)
    requires Symmetric(k) && |k| == |v|
    ensures MatVec(k, v) == VecMat(v, k, |v|)
  {
    forall l | 0 <= l < |v|
      ensures MatVec(k, v)[l] == VecMat(v, k, |v|)[l]
    {
      assert Col(k, l) == k[l];
      DotCommutes(k[l], v);
    }
  }

  /** The congruence transform Tᵗ·k·T of a symmetric k is symmetric, for any T. */
  lemma CongruenceSymmetric(t: Matrix, k: Matrix, n: nat)
    requires IsMatrix(t, |k|, n) && Symmetric(k)
    ensures Symmetric(MatMul(MatMul(Transpose(t, n), k, |k|), t, n))
  {
    var tt := Transpose(t, n);
    var p := MatMul(tt, k, |k|);
    var s := MatMul(p, t, n);
    forall i, j | 0 <= i < n && 0 <= j < n
      ensures s[i][j] == s[j][i]
    {
      var u, w := Col(t, i), Col(t, j);
      assert tt[i] == u && tt[j] == w;
      assert s[i][j] == Dot(VecMat(u, k, |k|), w);
      assert s[j][i] == Dot(VecMat(w, k, |k|), u);
      VecMatDot(u, k, w);
      SymmetricMatVec(k, w);
      DotCommutes(u, VecMat(w, k, |k|));
    }
  }

  /** The first unfoldings of Dot, spelled out for the element matrices. */
  lemma Dot2(u: Vector, v: Vector)
    requires |u| == |v| == 2
    ensures Dot(u, v) == u[0] * v[0] + u[1] * v[1]
  {
    assert Dot(u[1..][1..], v[1..][1..]) == 0.0;
  }

  lemma Dot4(u: Vector, v: Vector)
    requires |u| == |v| == 4
    ensures Dot(u, v) == u[0] * v[0] + u[1] * v[1] + u[2] * v[2] + u[3] * v[3]
  {
    assert u[1..][1..] == u[2..] && v[1..][1..] == v[2..];
    Dot2(u[2..], v[2..]);
  }

  lemma Dot6(u: Vector, v: Vector)
    requires |u| == |v| == 6
    ensures Dot(u, v) == u[0] * v[0] + u[1] * v[1] + u[2] * v[2] + u[3] * v[3] + u[4] * v[4] + u[5] * v[5]
  {
    var u2, v2 := u[2..], v[2..];
    var u4, v4 := u[4..], v[4..];
    assert Dot(u, v) == u[0] * v[0] + u[1] * v[1] + Dot(u2, v2) by {
      assert u[1..][1..] == u2 && v[1..][1..] == v2;
    }
    assert Dot(u2, v2) == u[2] * v[2] + u[3] * v[3] + Dot(u4, v4) by {
      assert u2[1..][1..] == u4 && v2[1..][1..] == v4;
    }
    Dot2(u4, v4);
  }
}
