/** Nested `Vec`s used by the dense stores of src/collection.rs: a cell is
    read through chained `get`s (absent when any index is negative or past
    the end, as a negative coordinate cast to `usize` is), and the cells are
    listed in x-major, then y, then z order. */
module Grid {
  import opened Wrappers
  import opened Element

  /** `f.get(x)?.get(y)?.get(z)`. */
  function Cell3<T>(f: seq<seq<seq<T>>>, q: Point3): (r: Option<T>)
    ensures r.Some? <==> 0 <= q.x < |f| && 0 <= q.y < |f[q.x]| && 0 <= q.z < |f[q.x][q.y]|
  {
    if 0 <= q.x < |f| && 0 <= q.y < |f[q.x]| && 0 <= q.z < |f[q.x][q.y]| then Some(f[q.x][q.y][q.z]) else None
  }

  /** `f.get(x)?.get(y)`. */
  function Cell2<T>(f: seq<seq<T>>, x: int, y: int): (r: Option<T>)
    ensures r.Some? <==> 0 <= x < |f| && 0 <= y < |f[x]|
  {
    if 0 <= x < |f| && 0 <= y < |f[x]| then Some(f[x][y]) else None
  }

  /** The field is an `s.x` by `s.y` by `s.z` box. */
  ghost predicate Shaped3<T>(f: seq<seq<seq<T>>>, s: Point3) {
    && 0 <= s.x && 0 <= s.y && 0 <= s.z && |f| == s.x
    && (forall i :: 0 <= i < |f| ==> |f[i]| == s.y)
    && (forall i, j :: 0 <= i < |f| && 0 <= j < |f[i]| ==> |f[i][j]| == s.z)
  }

  ghost predicate Shaped2<T>(f: seq<seq<T>>, sx: int, sy: int) {
    0 <= sx && 0 <= sy && |f| == sx && forall i :: 0 <= i < |f| ==> |f[i]| == sy
  }

  /** `vec![vec![vec![v; s.z]; s.y]; s.x]`. */
  function Filled3<T>(s: Point3, v: T): (r: seq<seq<seq<T>>>)
    requires 0 <= s.x && 0 <= s.y && 0 <= s.z
    ensures Shaped3(r, s)
    ensures forall q :: Cell3(r, q).Some? ==> Cell3(r, q) == Some(v)
  {
    seq(s.x, _ => seq(s.y, _ => seq(s.z, _ => v)))
  }

  function Filled2<T>(sx: nat, sy: nat, v: T): (r: seq<seq<T>>)
    ensures Shaped2(r, sx, sy)
    ensures forall x, y :: Cell2(r, x, y).Some? ==> Cell2(r, x, y) == Some(v)
  {
    seq(sx, _ => seq(sy, _ => v))
  }

  /** `f[x][y][z] = v` on a cell that exists. */
  function Set3<T>(f: seq<seq<seq<T>>>, q: Point3, v: T): (r: seq<seq<seq<T>>>)
    requires Cell3(f, q).Some?
    ensures Cell3(r, q) == Some(v)
    ensures forall q' :: q' != q ==> Cell3(r, q') == Cell3(f, q')
    ensures forall s :: Shaped3(f, s) ==> Shaped3(r, s)
  {
    f[q.x := f[q.x][q.y := f[q.x][q.y][q.z := v]]]
  }

  function Set2<T>(f: seq<seq<T>>, x: int, y: int, v: T): (r: seq<seq<T>>)
    requires Cell2(f, x, y).Some?
    ensures Cell2(r, x, y) == Some(v)
    ensures forall x', y' :: (x', y') != (x, y) ==> Cell2(r, x', y') == Cell2(f, x', y')
    ensures forall sx, sy :: Shaped2(f, sx, sy) ==> Shaped2(r, sx, sy)
  {
    f[x := f[x][y := v]]
  }

  /** Division with remainder is unique. */
  lemma DivModUnique(a: int, b: int, q: int, r: int)
    requires b > 0 && 0 <= r < b && a == q * b + r
    ensures a / b == q && a % b == r
  {
    var q', r' := a / b, a % b;
    assert (q - q') * b == r' - r;
    MulInsideBand(q - q', b);
  }

  /** A multiple of `b` strictly between `-b` and `b` is zero. */
  lemma MulInsideBand(n: int, b: int)
    requires b > 0
    ensures -b < n * b < b ==> n == 0
  {
    if n >= 1 {
      assert n * b == (n - 1) * b + b;
      assert (n - 1) * b >= 0;
    } else if n <= -1 {
      assert n * b == (n + 1) * b - b;
      assert (n + 1) * b <= 0;
    }
  }

  lemma DivBelow(k: int, n: int, d: int)
    requires d > 0 && 0 <= k < n * d
    ensures 0 <= k / d < n
  {
    assert k == (k / d) * d + k % d;
    assert (n - k / d) * d > 0;
    assert n - k / d > 0;
  }

  /** The cell listed at position `k` of a `_ * sy * sz` box. */
  function Unflat3(k: nat, sy: nat, sz: nat): Point3
    requires sy > 0 && sz > 0
  {
    Point3((k / sz) / sy, (k / sz) % sy, k % sz)
  }

  /** The position at which cell `q` is listed. */
  function Flat3(q: Point3, sy: int, sz: int): int {
    (q.x * sy + q.y) * sz + q.z
  }

  lemma UnflatInRange3(k: nat, s: Point3)
    requires 0 <= s.x && 0 <= s.y && 0 <= s.z && k < s.x * s.y * s.z
    ensures s.y > 0 && s.z > 0
    ensures 0 <= Unflat3(k, s.y, s.z).x < s.x && 0 <= Unflat3(k, s.y, s.z).y < s.y && 0 <= Unflat3(k, s.y, s.z).z < s.z
    ensures Flat3(Unflat3(k, s.y, s.z), s.y, s.z) == k
  {
    assert s.z != 0 && s.x * s.y != 0;
    assert s.y != 0;
    DivBelow(k, s.x * s.y, s.z);
    DivBelow(k / s.z, s.x, s.y);
    var m := k / s.z;
    assert m == (m / s.y) * s.y + m % s.y;
    assert k == m * s.z + k % s.z;
  }

  lemma FlatRoundTrip3(q: Point3, s: Point3)
    requires 0 <= q.x < s.x && 0 <= q.y < s.y && 0 <= q.z < s.z
    ensures 0 <= Flat3(q, s.y, s.z) < s.x * s.y * s.z
    ensures Unflat3(Flat3(q, s.y, s.z), s.y, s.z) == q
  {
    var m := q.x * s.y + q.y;
    FlatRoundTrip2(q.x, q.y, s.x, s.y);
    FlatRoundTrip2(m, q.z, s.x * s.y, s.z);
  }

  lemma UnflatInRange2(k: nat, sx: nat, sy: nat)
    requires k < sx * sy
    ensures sy > 0 && 0 <= k / sy < sx && 0 <= k % sy < sy
    ensures (k / sy) * sy + k % sy == k
  {
    DivBelow(k, sx, sy);
  }

  lemma FlatRoundTrip2(x: int, y: int, sx: int, sy: int)
    requires 0 <= x < sx && 0 <= y < sy
    ensures 0 <= x * sy + y < sx * sy
    ensures (x * sy + y) / sy == x && (x * sy + y) % sy == y
  {
    MulBelow(x, sx, sy);
    DivModUnique(x * sy + y, sy, x, y);
  }

  /** A row of `sy` cells that starts before row `sx` ends inside it. */
  lemma MulBelow(x: int, sx: int, sy: int)
    requires 0 <= x < sx && 0 < sy
    ensures 0 <= x * sy && x * sy + sy <= sx * sy
  {
    var d := sx - x;
    assert sx * sy == x * sy + d * sy;
    assert d * sy == (d - 1) * sy + sy;
    assert (d - 1) * sy >= 0;
  }
}
