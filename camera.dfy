/** The fixed pinhole camera of the dataset (`pose_to_pixel`) and the
    pixel normalisation used on boxes and projected points. */
module Camera {
  import opened Wrappers

  /** Intrinsics of the dataset camera (focal lengths and principal point, pixels). */
  const Fx: real := 2304.5479
  const Fy: real := 2305.8757
  const Cx: real := 1686.2379
  const Cy: real := 1354.9849

  /** `cam_matrix`: the 3x3 intrinsic matrix, row by row. */
  function CamMatrix(): seq<seq<real>> {
    [[Fx, 0.0, Cx],
     [0.0, Fy, Cy],
     [0.0, 0.0, 1.0]]
  }

  /** The 3x4 matrix `[I | 0]` that drops the homogeneous coordinate. */
  function Extrinsic(): seq<seq<real>> {
    [[1.0, 0.0, 0.0, 0.0],
     [0.0, 1.0, 0.0, 0.0],
     [0.0, 0.0, 1.0, 0.0]]
  }

  function Dot(u: seq<real>, v: seq<real>): real
    requires |u| == |v|
  {
    if |u| == 0 then 0.0 else u[0] * v[0] + Dot(u[1..], v[1..])
  }

  function Column(m: seq<seq<real>>, j: nat): seq<real>
    requires forall i :: 0 <= i < |m| ==> j < |m[i]|
  {
    seq(|m|, i requires 0 <= i < |m| => m[i][j])
  }

  /** `np.dot` of a matrix with a vector. */
  function MatVec(m: seq<seq<real>>, v: seq<real>): seq<real>
    requires forall i :: 0 <= i < |m| ==> |m[i]| == |v|
  {
    seq(|m|, i requires 0 <= i < |m| => Dot(m[i], v))
  }

  /** `np.dot` of two matrices; `cols` is the column count of `b`. */
  function MatMul(a: seq<seq<real>>, b: seq<seq<real>>, cols: nat): seq<seq<real>>
    requires forall i :: 0 <= i < |a| ==> |a[i]| == |b|
    requires forall k :: 0 <= k < |b| ==> |b[k]| == cols
  {
    seq(|a|, i requires 0 <= i < |a| =>
      seq(cols, j requires 0 <= j < cols => Dot(a[i], Column(b, j))))
  }

  lemma Dot3(u: seq<real>, v: seq<real>)
    requires |u| == 3 && |v| == 3
    ensures Dot(u, v) == u[0] * v[0] + u[1] * v[1] + u[2] * v[2]
  {
    assert Dot(u[2..], v[2..]) == u[2] * v[2] by {
      assert u[2..][1..] == [] && v[2..][1..] == [];
    }
    assert u[1..][1..] == u[2..] && v[1..][1..] == v[2..];
  }

  lemma Dot4(u: seq<real>, v: seq<real>)
    requires |u| == 4 && |v| == 4
    ensures Dot(u, v) == u[0] * v[0] + u[1] * v[1] + u[2] * v[2] + u[3] * v[3]
  {
    Dot3(u[1..], v[1..]);
  }

  /** `np.dot(cam_matrix, R)` is the intrinsic matrix padded with a zero column. */
  lemma ProjectionMatrix()
    ensures MatMul(CamMatrix(), Extrinsic(), 4)
         == [[Fx, 0.0, Cx, 0.0], [0.0, Fy, Cy, 0.0], [0.0, 0.0, 1.0, 0.0]]
  {
    var k, e := CamMatrix(), Extrinsic();
    var m := MatMul(k, e, 4);
    var target := [[Fx, 0.0, Cx, 0.0], [0.0, Fy, Cy, 0.0], [0.0, 0.0, 1.0, 0.0]];
    forall i | 0 <= i < 3 ensures m[i] == target[i] {
      forall j | 0 <= j < 4 ensures m[i][j] == target[i][j] {
        Dot3(k[i], Column(e, j));
      }
    }
  }

  /** `pose_to_pixel(x, y, z)`: the homogeneous pixel `K [I|0] (x, y, z, 1)`
      divided by the depth. When `z == 0` the division leaves non-finite
      values, represented by `None`. For `z != 0` the result is the
      pinhole projection `(fx x/z + cx, fy y/z + cy, 1)`. */
  function PoseToPixel(x: real, y: real, z: real): (r: Option<seq<real>>)
    ensures z == 0.0 <==> r == None
    ensures z != 0.0 ==> r == Some([Fx * x / z + Cx, Fy * y / z + Cy, 1.0])
  {
    ProjectionMatrix();
    var p := MatVec(MatMul(CamMatrix(), Extrinsic(), 4), [x, y, z, 1.0]);
    if z == 0.0 then None
    else
      var m := [[Fx, 0.0, Cx, 0.0], [0.0, Fy, Cy, 0.0], [0.0, 0.0, 1.0, 0.0]];
      Dot4(m[0], [x, y, z, 1.0]);
      Dot4(m[1], [x, y, z, 1.0]);
      Dot4(m[2], [x, y, z, 1.0]);
      assert p == [Fx * x + Cx * z, Fy * y + Cy * z, z];
      DivideOut(Fx * x, Cx, z);
      DivideOut(Fy * y, Cy, z);
      var q := seq(3, i requires 0 <= i < 3 => p[i] / z);
      assert q[0] == Fx * x / z + Cx && q[1] == Fy * y / z + Cy && q[2] == 1.0;
      assert q == [Fx * x / z + Cx, Fy * y / z + Cy, 1.0];
      Some(q)
  }

  lemma DivideOut(a: real, b: real, z: real)
    requires z != 0.0
    ensures (a + b * z) / z == a / z + b
    ensures z / z == 1.0
  {
    calc {
      (a + b * z) / z;
      a / z + (b * z) / z;
      a / z + b;
    }
  }

  /** A point on the optical axis projects to the principal point at every non-zero depth. */
  lemma OnAxisProjectsToPrincipalPoint(z: real)
    requires z != 0.0
    ensures PoseToPixel(0.0, 0.0, z) == Some([Cx, Cy, 1.0])
  {
  }

  /** `(v - extent/2) / (extent/2)`: a pixel coordinate in `[0, extent]`
      mapped to `[-1, 1]`; `Denormalize` undoes it. */
  function Normalize(v: real, extent: int): (r: real)
    requires extent > 0
    ensures Denormalize(r, extent) == v
  {
    var half := extent as real / 2.0;
    (v - half) / half
  }

  function Denormalize(r: real, extent: int): real
    requires extent > 0
  {
    (r + 1.0) * (extent as real / 2.0)
  }

  /** The image edges go to -1 and 1. */
  lemma NormalizeEdges(extent: int)
    requires extent > 0
    ensures Normalize(0.0, extent) == -1.0
    ensures Normalize(extent as real, extent) == 1.0
  {
    var half := extent as real / 2.0;
    assert extent as real - half == half;
    assert 0.0 - half == -half;
  }

  /** Normalisation is strictly increasing, so it keeps both strict and
      non-strict order between coordinates. */
  lemma NormalizeMonotone(u: real, v: real, extent: int)
    requires extent > 0
    ensures u < v <==> Normalize(u, extent) < Normalize(v, extent)
    ensures u <= v <==> Normalize(u, extent) <= Normalize(v, extent)
  {
    var half := extent as real / 2.0;
    assert Normalize(v, extent) - Normalize(u, extent) == (v - u) / half;
  }

  /** A coordinate inside the image lands in `[-1, 1]`. */
  lemma NormalizeInRange(v: real, extent: int)
    requires extent > 0 && 0.0 <= v <= extent as real
    ensures -1.0 <= Normalize(v, extent) <= 1.0
  {
    NormalizeEdges(extent);
    NormalizeMonotone(0.0, v, extent);
    NormalizeMonotone(v, extent as real, extent);
  }
}
