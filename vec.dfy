/** Vertex positions and the drag's rotation, as exact reals. */
module Vec {

  /** One row of a #V x 3 position matrix. */
  datatype Vec3 = Vec3(x: real, y: real, z: real)

  /** A quaternion stored (x, y, z, w), as Eigen::Vector4f holds it. */
  datatype Quat = Quat(x: real, y: real, z: real, w: real)

  const Zero := Vec3(0.0, 0.0, 0.0)

  /** The rotation a mouse release resets to: zero vector part, w = 1. */
  const Identity := Quat(0.0, 0.0, 0.0, 1.0)

  function Add(a: Vec3, b: Vec3): Vec3 {
    Vec3(a.x + b.x, a.y + b.y, a.z + b.z)
  }

  function Sub(a: Vec3, b: Vec3): Vec3 {
    Vec3(a.x - b.x, a.y - b.y, a.z - b.z)
  }

  /** A row multiplied by a scalar. */
  function Scale(k: real, a: Vec3): Vec3 {
    Vec3(k * a.x, k * a.y, k * a.z)
  }

  /** Component-wise division of a row by an integer count. */
  function Div(a: Vec3, n: int): Vec3
    requires n != 0
  {
    Vec3(a.x / n as real, a.y / n as real, a.z / n as real)
  }

  lemma MulDiv(a: real, n: real)
    requires n != 0.0
    ensures n * (a / n) == a
  {
  }

  /** n copies of the n-th part of a row add back up to the row. */
  lemma ScaleDiv(a: Vec3, n: int)
    requires n != 0
    ensures Scale(n as real, Div(a, n)) == a
  {
    MulDiv(a.x, n as real);
    MulDiv(a.y, n as real);
    MulDiv(a.z, n as real);
  }

  /** Adding t once more to k copies of t gives k + 1 copies. */
  lemma ScaleSucc(k: real, t: Vec3)
    ensures Scale(k + 1.0, t) == Add(Scale(k, t), t)
  {
    assert (k + 1.0) * t.x == k * t.x + t.x;
    assert (k + 1.0) * t.y == k * t.y + t.y;
    assert (k + 1.0) * t.z == k * t.z + t.z;
  }

  lemma DivAddScaled(a: real, b: real, n: real)
    requires n != 0.0
    ensures (a + n * b) / n == a / n + b
  {
    assert (a / n + b) * n == a + n * b;
  }

  /** The mean of n rows shifted by n copies of t is the mean shifted by t. */
  lemma DivShift(s: Vec3, n: int, t: Vec3)
    requires n != 0
    ensures Div(Add(s, Scale(n as real, t)), n) == Add(Div(s, n), t)
  {
    DivAddScaled(s.x, t.x, n as real);
    DivAddScaled(s.y, t.y, n as real);
    DivAddScaled(s.z, t.z, n as real);
  }
}
