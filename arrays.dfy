/** The two array operations the block reader uses: reading a table out
    row-major, and numpy's row-major `reshape` into three dimensions. */
module Arrays {

  /** The rows one after the other (`ndarray.ravel()` of a 2-d array). */
  function Flatten<T>(rows: seq<seq<T>>): seq<T>
  {
    if rows == [] then [] else rows[0] + Flatten(rows[1..])
  }

  /** `m` rows of `n` elements each. */
  predicate Shaped<T>(rows: seq<seq<T>>, m: nat, n: nat)
  {
    |rows| == m && forall i :: 0 <= i < m ==> |rows[i]| == n
  }

  /** `x * y`, by repeated addition: the proofs below unfold it a step at a
      time and so stay within linear arithmetic. */
  function Mul(x: nat, y: nat): nat
  {
    if x == 0 then 0 else Mul(x - 1, y) + y
  }

  /** `Mul` is the product. */
  lemma {:induction false} MulIsProduct(x: nat, y: nat)
    ensures Mul(x, y) == x * y
  {
    if x > 0 {
      MulIsProduct(x - 1, y);
    }
  }

  /** The size of an `a` by `b` by `c` array, and the row-major offset of
      element (i, j, k) in it, are the usual products. */
  lemma Mul3IsProduct(a: nat, b: nat, c: nat, i: nat, j: nat, k: nat)
    ensures Mul(Mul(a, b), c) == a * b * c
    ensures Mul(Mul(i, b) + j, c) + k == (i * b + j) * c + k
  {
    MulIsProduct(a, b);
    MulIsProduct(Mul(a, b), c);
    MulIsProduct(i, b);
    MulIsProduct(Mul(i, b) + j, c);
  }

  /** Row `i` < `a` and column `j` < `b` of an `a` by `b` layout lie inside it. */
  lemma {:induction false} RowIndexBound(i: nat, j: nat, a: nat, b: nat)
    requires i < a && j < b
    ensures Mul(i, b) + j < Mul(a, b)
  {
    if i < a - 1 {
      RowIndexBound(i, j, a - 1, b);
    }
  }

  /** `s` cut into `m` consecutive rows of `n` elements. */
  function Chunks<T>(s: seq<T>, m: nat, n: nat): (r: seq<seq<T>>)
    requires |s| == Mul(m, n)
    ensures Shaped(r, m, n)
  {
    if m == 0 then []
    else [s[..n]] + Chunks(s[n..], m - 1, n)
  }

  /** Element `k` of row `i` is element `i*n + k` of `s`. */
  lemma {:induction false} ChunksIndex<T>(s: seq<T>, m: nat, n: nat, i: nat, k: nat)
    requires |s| == Mul(m, n) && i < m && k < n
    ensures Mul(i, n) + k < |s| && Chunks(s, m, n)[i][k] == s[Mul(i, n) + k]
  {
    RowIndexBound(i, k, m, n);
    var rows := Chunks(s, m, n);
    assert rows == [s[..n]] + Chunks(s[n..], m - 1, n);
    if i == 0 {
      assert rows[0] == s[..n];
    } else {
      var rest := s[n..];
      ChunksIndex(rest, m - 1, n, i - 1, k);
      var x := Mul(i - 1, n) + k;
      assert Mul(i, n) + k == x + n;
      assert rows[i] == Chunks(rest, m - 1, n)[i - 1];
      assert rest[x] == s[x + n];
    }
  }

  /** Cutting into rows loses nothing: reading the rows out gives `s` back. */
  lemma {:induction false} FlattenChunks<T>(s: seq<T>, m: nat, n: nat)
    requires |s| == Mul(m, n)
    ensures Flatten(Chunks(s, m, n)) == s
  {
    if m > 0 {
      FlattenChunks(s[n..], m - 1, n);
      assert Chunks(s, m, n)[1..] == Chunks(s[n..], m - 1, n);
      assert s == s[..n] + s[n..];
    }
  }

  /** Reading out rows of equal length and cutting again gives the rows back. */
  lemma {:induction false} ChunksFlatten<T>(rows: seq<seq<T>>, m: nat, n: nat)
    requires Shaped(rows, m, n)
    ensures |Flatten(rows)| == Mul(m, n)
    ensures Chunks(Flatten(rows), m, n) == rows
  {
    if m > 0 {
      ChunksFlatten(rows[1..], m - 1, n);
      var s := Flatten(rows);
      assert s == rows[0] + Flatten(rows[1..]);
      assert s[..n] == rows[0];
      assert s[n..] == Flatten(rows[1..]);
      assert rows == [rows[0]] + rows[1..];
    }
  }

  /** `flat.reshape(a, b, c)`: `a` blocks of `b` rows of `c` elements. */
  function Reshape3<T>(flat: seq<T>, a: nat, b: nat, c: nat): (t: seq<seq<seq<T>>>)
    requires |flat| == Mul(Mul(a, b), c)
    ensures |t| == a && forall i :: 0 <= i < a ==> Shaped(t[i], b, c)
  {
    var rows := Chunks(flat, Mul(a, b), c);
    ChunksOfRows(rows, a, b, c);
    Chunks(rows, a, b)
  }

  /** Cutting rows of `c` elements into blocks keeps every row at `c` elements. */
  lemma ChunksOfRows<T>(rows: seq<seq<T>>, a: nat, b: nat, c: nat)
    requires Shaped(rows, Mul(a, b), c)
    ensures forall i :: 0 <= i < a ==> Shaped(Chunks(rows, a, b)[i], b, c)
  {
    forall i, j | 0 <= i < a && 0 <= j < b
      ensures |Chunks(rows, a, b)[i][j]| == c
    {
      ChunksIndex(rows, a, b, i, j);
    }
  }

  /** Element (i, j, k) of the reshaped array is `flat[(i*b + j)*c + k]`: the
      order is row-major, the last index varying fastest. */
  lemma Reshape3Index<T>(flat: seq<T>, a: nat, b: nat, c: nat, i: nat, j: nat, k: nat)
    requires |flat| == Mul(Mul(a, b), c) && i < a && j < b && k < c
    ensures Mul(Mul(i, b) + j, c) + k < |flat|
    ensures Reshape3(flat, a, b, c)[i][j][k] == flat[Mul(Mul(i, b) + j, c) + k]
  {
    var rows := Chunks(flat, Mul(a, b), c);
    RowIndexBound(i, j, a, b);
    ChunksIndex(rows, a, b, i, j);
    ChunksIndex(flat, Mul(a, b), c, Mul(i, b) + j, k);
  }

  /** Reading a reshaped array out row-major gives the flat array back. */
  lemma Reshape3RoundTrip<T>(flat: seq<T>, a: nat, b: nat, c: nat)
    requires |flat| == Mul(Mul(a, b), c)
    ensures Flatten(Flatten(Reshape3(flat, a, b, c))) == flat
  {
    var rows := Chunks(flat, Mul(a, b), c);
    FlattenChunks(rows, a, b);
    FlattenChunks(flat, Mul(a, b), c);
  }
}
