/** `transform_point`: the affine map a 4x4 homogeneous matrix applies to a 3D point. */
module PointTransformer {
  import opened TransformMatrix

  /** The dot product of two equally long vectors. */
  function Dot(a: seq<real>, b: seq<real>): real
    requires |a| == |b|
  {
    if |a| == 0 then 0.0 else a[0] * b[0] + Dot(a[1..], b[1..])
  }

  /** Homogeneous coordinates (x, y, z, 1) of a 3D point. */
  function Homogeneous(p: seq<real>): (h: seq<real>)
    requires |p| >= 3
    ensures |h| == 4 && h[..3] == p[..3] && h[3] == 1.0
  {
    [p[0], p[1], p[2], 1.0]
  }

  /** The affine image of `p`: the first three rows of the homogeneous product
      `t * (x, y, z, 1)`. */
  function Apply(t: Matrix, p: seq<real>): (q: seq<real>)
    requires Readable(t) && |p| >= 3
    ensures |q| == 3
  {
    var h := Homogeneous(p);
    [Dot(t[0][..4], h), Dot(t[1][..4], h), Dot(t[2][..4], h)]
  }

  /** A four-term dot product, written out. */
  lemma Dot4(a: seq<real>, b: seq<real>)
    requires |a| == 4 && |b| == 4
    ensures Dot(a, b) == a[0] * b[0] + a[1] * b[1] + a[2] * b[2] + a[3] * b[3]
  {
    assert a[1..][1..][1..][1..] == [];
    assert Dot(a[3..], b[3..]) == a[3] * b[3];
    assert Dot(a[2..], b[2..]) == a[2] * b[2] + a[3] * b[3];
  }

  /** `row[0] * p[0] + ... + row[j-1] * p[j-1]`, summed left to right as the inner loop does. */
  function PartialSum(row: seq<real>, p: seq<real>, j: nat): real
    requires j <= |row| && j <= |p|
  {
    if j == 0 then 0.0 else PartialSum(row, p, j - 1) + row[j - 1] * p[j - 1]
  }

  /** `row[0] * p[0] + row[1] * p[1] + row[2] * p[2] + row[3]`: one output
      coordinate as `transform_point` sums it. */
  function AffineRow(row: seq<real>, p: seq<real>): real
    requires |row| >= 4 && |p| >= 3
  {
    PartialSum(row, p, 3) + row[3]
  }

  /** The running sum of the inner loop, written out. */
  lemma AffineRowExplicit(row: seq<real>, p: seq<real>)
    requires |row| >= 4 && |p| >= 3
    ensures AffineRow(row, p) == row[0] * p[0] + row[1] * p[1] + row[2] * p[2] + row[3]
  {
    assert PartialSum(row, p, 1) == row[0] * p[0];
    assert PartialSum(row, p, 2) == row[0] * p[0] + row[1] * p[1];
  }

  /** Row `i` of the homogeneous product is the running sum of the inner loop
      plus the translation entry. */
  lemma ApplyRow(t: Matrix, p: seq<real>, i: nat)
    requires Readable(t) && |p| >= 3 && i < 3
    ensures Apply(t, p)[i] == AffineRow(t[i], p)
  {
    Dot4(t[i][..4], Homogeneous(p));
    AffineRowExplicit(t[i], p);
  }

  /** The homogeneous product is the sum `transform_point` forms: the 3x3 linear
      part applied to the point, plus the translation column. */
  lemma ApplyFormula(t: Matrix, p: seq<real>)
    requires Readable(t) && |p| >= 3
    ensures forall i :: 0 <= i < 3 ==> Apply(t, p)[i] == AffineRow(t[i], p)
    ensures forall i :: 0 <= i < 3 ==>
      Apply(t, p)[i] == t[i][0] * p[0] + t[i][1] * p[1] + t[i][2] * p[2] + t[i][3]
  {
    forall i | 0 <= i < 3
      ensures Apply(t, p)[i] == AffineRow(t[i], p)
      ensures Apply(t, p)[i] == t[i][0] * p[0] + t[i][1] * p[1] + t[i][2] * p[2] + t[i][3]
    {
      ApplyRow(t, p, i);
      AffineRowExplicit(t[i], p);
    }
  }

  /** The running sum reads only the first `j` entries of the row. */
  lemma {:induction false} PartialSumReadsPrefix(a: seq<real>, b: seq<real>, p: seq<real>, j: nat)
    requires j <= |a| && j <= |b| && j <= |p|
    requires forall k :: 0 <= k < j ==> a[k] == b[k]
    ensures PartialSum(a, p, j) == PartialSum(b, p, j)
  {
    if j > 0 {
      PartialSumReadsPrefix(a, b, p, j - 1);
    }
  }

  /** The C++ loops: `outpoint[i]` is reset, accumulates `T[i][j] * point[j]` for
      j = 0..2, then adds `T[i][3]`. Entries of `outpoint` past index 2 are left alone. */
  method TransformPoint(t: Matrix, point: seq<real>, outpoint: seq<real>) returns (out: seq<real>)
    requires Readable(t) && |point| >= 3 && |outpoint| >= 3
    ensures |out| == |outpoint| && out[3..] == outpoint[3..]
    ensures forall i :: 0 <= i < 3 ==> out[i] == AffineRow(t[i], point)
    ensures out[..3] == Apply(t, point)
  {
    out := outpoint;
    var i := 0;
    while i < 3
      invariant 0 <= i <= 3
      invariant |out| == |outpoint| && out[3..] == outpoint[3..]
      invariant forall k :: 0 <= k < i ==> out[k] == AffineRow(t[k], point)
    {
      out := out[i := 0.0];
      var j := 0;
      while j < 3
        invariant 0 <= j <= 3
        invariant |out| == |outpoint| && out[3..] == outpoint[3..]
        invariant forall k :: 0 <= k < i ==> out[k] == AffineRow(t[k], point)
        invariant out[i] == PartialSum(t[i], point, j)
      {
        out := out[i := out[i] + t[i][j] * point[j]];
        j := j + 1;
      }
      out := out[i := out[i] + t[i][3]];
      i := i + 1;
    }
    forall i | 0 <= i < 3
      ensures out[i] == Apply(t, point)[i]
    {
      ApplyRow(t, point, i);
    }
  }

  /** The 4x4 identity leaves every point where it is. */
  lemma IdentityFixesEveryPoint(p: seq<real>)
    requires |p| >= 3
    ensures Apply(Identity(), p) == p[..3]
  {
    forall i | 0 <= i < 3
      ensures Apply(Identity(), p)[i] == p[i]
    {
      ApplyRow(Identity(), p, i);
      AffineRowExplicit(Identity()[i], p);
    }
  }

  /** `t` with `v[i]` added to the translation entry `t[i][3]` of rows 0..2. */
  function Translate(t: Matrix, v: seq<real>): (u: Matrix)
    requires Readable(t) && |v| >= 3
    ensures |u| == |t| && Readable(u)
    ensures forall i :: 0 <= i < |t| ==> |u[i]| == |t[i]|
    ensures forall i, j :: 0 <= i < 3 && 0 <= j < |t[i]| ==>
      u[i][j] == if j == 3 then t[i][j] + v[i] else t[i][j]
    ensures forall i :: 3 <= i < |t| ==> u[i] == t[i]
  {
    seq(|t|, i requires 0 <= i < |t| => if i < 3 then t[i][3 := t[i][3] + v[i]] else t[i])
  }

  /** Adding `v` to the translation column moves every image by exactly `v`. */
  lemma TranslationShiftsOutput(t: Matrix, v: seq<real>, p: seq<real>)
    requires Readable(t) && |v| >= 3 && |p| >= 3
    ensures forall i :: 0 <= i < 3 ==> Apply(Translate(t, v), p)[i] == Apply(t, p)[i] + v[i]
  {
    var u := Translate(t, v);
    forall i | 0 <= i < 3
      ensures Apply(u, p)[i] == Apply(t, p)[i] + v[i]
    {
      ApplyRow(t, p, i);
      ApplyRow(u, p, i);
      PartialSumReadsPrefix(u[i], t[i], p, 3);
    }
  }

  /** Only rows 0..2, columns 0..3 are read: two matrices that agree there map
      every point alike, whatever their fourth row or extra columns hold. */
  lemma AffinePartDeterminesImage(t: Matrix, u: Matrix, p: seq<real>)
    requires Readable(t) && Readable(u) && |p| >= 3
    requires forall i, j :: 0 <= i < 3 && 0 <= j < 4 ==> t[i][j] == u[i][j]
    ensures Apply(t, p) == Apply(u, p)
  {
    forall i | 0 <= i < 3
      ensures Apply(t, p)[i] == Apply(u, p)[i]
    {
      ApplyRow(t, p, i);
      ApplyRow(u, p, i);
      PartialSumReadsPrefix(t[i], u[i], p, 3);
      assert t[i][3] == u[i][3];
    }
  }

  /** Replacing the fourth row changes nothing. */
  lemma FourthRowIsNeverRead(t: Matrix, row: seq<real>, p: seq<real>)
    requires Readable(t) && |t| >= 4 && |p| >= 3
    ensures Apply(t[3 := row], p) == Apply(t, p)
  {
    AffinePartDeterminesImage(t, t[3 := row], p);
  }
}
