/** Bytes, small integer helpers and the block-grid geometry shared by every
    entry point of the engine (src/wasm/src/lib.rs).

    Cells are numbered row-major: cell k of a grid `gw` cells wide is column
    `k % gw`, row `k / gw`, so column x of row y is cell `y * gw + x`. */
module Image {

  /** A `u8`: the engine's buffers hold bytes and so do its outputs. */
  type Byte = b: int | 0 <= b < 256

  function Min(a: int, b: int): int { if a < b then a else b }

  function Max(a: int, b: int): int { if a < b then b else a }

  /** Multiplying both sides of an inequality by a natural number. */
  lemma MulLe(a: int, b: int, c: nat)
    requires a <= b
    ensures a * c <= b * c
  {}

  lemma MulSucc(k: nat, n: nat)
    ensures (k + 1) * n == k * n + n
  {}

  lemma MulAdd(a: nat, b: nat, v: nat)
    ensures (a + b) * v == a * v + b * v
  {}

  lemma MulAtLeast(k: int, d: int)
    requires k >= 1 && d > 0
    ensures k * d >= d
  {}

  /** Euclidean division is determined by quotient and remainder. */
  lemma DivModUnique(a: int, d: int, q: int, r: int)
    requires d > 0 && 0 <= r < d && a == q * d + r
    ensures a / d == q && a % d == r
  {
    var q', r' := a / d, a % d;
    assert (q - q') * d == r' - r;
    if q > q' {
      MulAtLeast(q - q', d);
    } else if q < q' {
      MulAtLeast(q' - q, d);
    }
  }

  /** Column x of row y is cell `y * gw + x`, and back. */
  lemma CellOf(x: nat, y: nat, gw: nat)
    requires x < gw
    ensures (y * gw + x) / gw == y && (y * gw + x) % gw == x
  {
    DivModUnique(y * gw + x, gw, y, x);
  }

  /** The colour bytes of cell `y * gw + x` start at `3 * (y * gw + x)`, which
      is byte `3 * x` of row y of rows `gw * 3` bytes long. */
  lemma CellOffset(x: nat, y: nat, gw: nat)
    ensures 3 * (y * gw + x) == y * (gw * 3) + 3 * x
  {}

  /** Column x < gw of row y < gh is a cell of the `gw` by `gh` grid. */
  lemma CellIndexInGrid(x: nat, y: nat, gw: nat, gh: nat)
    requires x < gw && y < gh
    ensures y * gw + x < gw * gh
  {
    MulLe(y + 1, gh, gw);
  }

  /** `grid * block_size`, the first column (or row) of block `grid`. */
  function BlockStart(g: nat, bs: nat): nat { g * bs }

  /** Block i of `n / bs` full blocks ends at or before n: no block reaches past
      the image, which is why the source's `.min(width)` never clips. */
  lemma FullBlockFits(i: nat, n: nat, bs: nat)
    requires bs > 0 && i < n / bs
    ensures i * bs + bs <= n
  {
    MulLe(i + 1, n / bs, bs);
    assert (n / bs) * bs <= n;
  }

  /** The rows of a grid, concatenated top to bottom: the row-major layout of
      every output buffer. */
  function Flatten<T>(rows: seq<seq<T>>): seq<T>
  {
    if rows == [] then [] else Flatten(rows[..|rows| - 1]) + rows[|rows| - 1]
  }

  /** Emitting one more row appends it. */
  lemma FlattenStep<T>(rows: seq<seq<T>>, i: nat)
    requires i < |rows|
    ensures Flatten(rows[..i + 1]) == Flatten(rows[..i]) + rows[i]
  {
    assert rows[..i + 1][..i] == rows[..i];
  }

  /** Every row holds n elements. */
  predicate AllLength<T>(rows: seq<seq<T>>, n: nat)
  {
    forall i :: 0 <= i < |rows| ==> |rows[i]| == n
  }

  lemma {:induction false} FlattenLength<T>(rows: seq<seq<T>>, n: nat)
    requires AllLength(rows, n)
    ensures |Flatten(rows)| == |rows| * n
  {
    if rows != [] {
      FlattenLength(rows[..|rows| - 1], n);
      MulSucc(|rows| - 1, n);
    }
  }

  /** Element j of row i of rows n long is element `i * n + j` of the layout. */
  lemma {:induction false} FlattenAt<T>(rows: seq<seq<T>>, n: nat, i: nat, j: nat)
    requires AllLength(rows, n) && i < |rows| && j < n
    ensures i * n + j < |Flatten(rows)| && Flatten(rows)[i * n + j] == rows[i][j]
  {
    var init := rows[..|rows| - 1];
    FlattenLength(init, n);
    FlattenLength(rows, n);
    if i < |init| {
      FlattenAt(init, n, i, j);
    }
  }

  /** A value in the layout comes from one of the rows. */
  lemma {:induction false} FlattenIn<T>(rows: seq<seq<T>>, s: set<T>)
    requires forall i, j :: 0 <= i < |rows| && 0 <= j < |rows[i]| ==> rows[i][j] in s
    ensures forall v :: v in Flatten(rows) ==> v in s
  {
    if rows != [] {
      var init := rows[..|rows| - 1];
      FlattenIn(init, s);
      assert Flatten(rows) == Flatten(init) + rows[|rows| - 1];
    }
  }

  /** Every pixel of an RGBA buffer has colour (r, g, b); alpha is free. */
  predicate Uniform(rgba: seq<Byte>, r: Byte, g: Byte, b: Byte)
  {
    forall idx :: 0 <= idx && idx + 3 < |rgba| && idx % 4 == 0 ==>
      rgba[idx] == r && rgba[idx + 1] == g && rgba[idx + 2] == b
  }}
