/** Values shared by every part of the model: optional values, Godot's integer and
    float vectors, and the row-major (x outer, z inner) order in which every grid
    loop of the game visits its cells. */
module Common {

  datatype Option<T> = None | Some(value: T)

  /** Godot's Vector3I. */
  datatype Vec3I = Vec3I(x: int, y: int, z: int)

  /** Godot's Vector3; single-precision floats are modelled as reals. */
  datatype Vec3 = Vec3(x: real, y: real, z: real)

  /** The world position of grid cell (x, z) at height y: (x * c, y, z * c). */
  function CellToWorld(x: int, z: int, c: real, y: real): (p: Vec3)
    ensures p.y == y
    ensures c == 0.0 ==> p.x == 0.0 && p.z == 0.0
    ensures c > 0.0 ==> (p.x < 0.0 <==> x < 0) && (p.z < 0.0 <==> z < 0)
  {
    Vec3(x as real * c, y, z as real * c)
  }

  /** C#'s (int) cast of a float: truncation toward zero. */
  function Truncate(r: real): (n: int)
    ensures r >= 0.0 ==> n as real <= r < n as real + 1.0
    ensures r < 0.0 ==> n as real - 1.0 < r <= n as real
  {
    if r >= 0.0 then r.Floor else -((-r).Floor)
  }

  lemma TruncateOfInteger(n: int)
    ensures Truncate(n as real) == n
  {
  }

  /** The cells of a w-by-h grid in the order of the game's nested loops:
      `for x in 0..w { for z in 0..h { ... } }`. */
  function RowMajor(w: nat, h: nat): (cells: seq<(int, int)>)
    ensures |cells| == w * h
  {
    if w == 0 then [] else RowMajor(w - 1, h) + Column(w - 1, h)
  }

  /** Cells (x, 0), ..., (x, h - 1), the inner loop for one x. */
  function Column(x: int, h: nat): (cells: seq<(int, int)>)
    ensures |cells| == h
  {
    if h == 0 then [] else Column(x, h - 1) + [(x, h - 1)]
  }

  /** (x1, z1) is visited strictly before (x2, z2) by the nested loops. */
  predicate Before(a: (int, int), b: (int, int)) {
    a.0 < b.0 || (a.0 == b.0 && a.1 < b.1)
  }

  lemma {:induction false} ColumnContents(x: int, h: nat)
    ensures forall c :: c in Column(x, h) <==> c.0 == x && 0 <= c.1 < h
    ensures forall i, j :: 0 <= i < j < h ==> Before(Column(x, h)[i], Column(x, h)[j])
  {
    if h > 0 {
      ColumnContents(x, h - 1);
      var prev := Column(x, h - 1);
      assert Column(x, h) == prev + [(x, h - 1)];
      forall i, j | 0 <= i < j < h
        ensures Before(Column(x, h)[i], Column(x, h)[j])
      {
        if j < h - 1 {
          assert Column(x, h)[i] == prev[i] && Column(x, h)[j] == prev[j];
        } else {
          assert prev[i] in prev;
        }
      }
    }
  }

  /** Every cell of the grid is visited, nothing outside it is, and the visits are
      strictly ordered, so no cell is visited twice. */
  lemma {:induction false} RowMajorContents(w: nat, h: nat)
    ensures forall c :: c in RowMajor(w, h) <==> 0 <= c.0 < w && 0 <= c.1 < h
    ensures forall i, j :: 0 <= i < j < |RowMajor(w, h)| ==> Before(RowMajor(w, h)[i], RowMajor(w, h)[j])
  {
    if w > 0 {
      RowMajorContents(w - 1, h);
      ColumnContents(w - 1, h);
      var prev, col := RowMajor(w - 1, h), Column(w - 1, h);
      assert RowMajor(w, h) == prev + col;
      forall i, j | 0 <= i < j < |prev + col|
        ensures Before((prev + col)[i], (prev + col)[j])
      {
        if j < |prev| {
        } else if i >= |prev| {
          assert (prev + col)[i] == col[i - |prev|];
          assert (prev + col)[j] == col[j - |prev|];
        } else {
          assert prev[i] in prev;
          assert col[j - |prev|] in col;
        }
      }
    }
  }

  /** A grid with no column or no row has no cells. */
  lemma RowMajorEmpty(w: nat, h: nat)
    requires w == 0 || h == 0
    ensures RowMajor(w, h) == []
  {
    RowMajorContents(w, h);
  }

  lemma RowMajorVisitsOnce(w: nat, h: nat, i: int, j: int)
    requires 0 <= i < |RowMajor(w, h)| && 0 <= j < |RowMajor(w, h)| && i != j
    ensures RowMajor(w, h)[i] != RowMajor(w, h)[j]
  {
    RowMajorContents(w, h);
  }

  /** No two cells of a grid of references hold the same object. The game allocates
      a fresh tile per cell, so tile updates never alias. */
  ghost predicate Distinct<T>(a: array2<T>)
    reads a
  {
    forall x1, z1, x2, z2 ::
      (0 <= x1 < a.Length0 && 0 <= z1 < a.Length1 &&
       0 <= x2 < a.Length0 && 0 <= z2 < a.Length1 &&
       (x1 != x2 || z1 != z2)) ==> a[x1, z1] != a[x2, z2]
  }
}
