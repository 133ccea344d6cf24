/** The array helpers of the engine (src/utils.js): building an array or a
    square grid from a callback, flattening one level, and the index-aware
    two-dimensional map that the grid uses for every traversal. */
module Utils {

  /** An element of a JavaScript array, as far as flattening can tell:
      a plain value, or a nested array of further elements. */
  datatype Item<T> = Scalar(value: T) | Nested(items: seq<Item<T>>)

  /** `createArray(size, cb)`: an empty array when `size` is 0 (the only
      falsy size a `nat` can be), otherwise `size` entries, entry `k` being
      what the callback returns for index `k`. */
  function CreateArray<T>(size: nat, callbackFn: nat -> T): (r: seq<T>)
    ensures |r| == size
    ensures forall k :: 0 <= k < size ==> r[k] == callbackFn(k)
  {
    if size == 0 then [] else seq(size, k requires 0 <= k < size => callbackFn(k))
  }

  /** `createGrid(size, cb)`: `size` rows of `size` entries. The callback is
      handed to the INNER `createArray` only, so it sees the column index and
      never the row index. */
  function CreateGrid<T>(size: nat, callbackFn: nat -> T): (r: seq<seq<T>>)
    ensures |r| == size
    ensures forall i :: 0 <= i < size ==> |r[i]| == size
    ensures forall i, j :: 0 <= i < size && 0 <= j < size ==> r[i][j] == callbackFn(j)
  {
    if size == 0 then [] else CreateArray(size, _ => CreateArray(size, callbackFn))
  }

  /** What one element contributes to `flattenArray`: an array is spread
      into its elements, anything else is kept as it is. */
  function Spread<T>(item: Item<T>): seq<Item<T>>
  {
    match item
    case Nested(items) => items
    case Scalar(_) => [item]
  }

  /** `flattenArray(arr)`: the left fold of `reduce`, appending the spread of
      each element to the accumulator (which starts as `[]` and so is always
      an array). Deeper arrays are not flattened further. */
  function FlattenArray<T>(arr: seq<Item<T>>): (r: seq<Item<T>>)
    ensures (forall k :: 0 <= k < |arr| ==> arr[k].Scalar?) ==> r == arr
  {
    if |arr| == 0 then []
    else
      assert arr == arr[..|arr| - 1] + [arr[|arr| - 1]];
      FlattenArray(arr[..|arr| - 1]) + Spread(arr[|arr| - 1])
  }

  /** Concatenation of a sequence of rows, the typed form of one-level
      flattening used on arrays of arrays. */
  function Concat<T>(rows: seq<seq<T>>): seq<T>
  {
    if |rows| == 0 then [] else Concat(rows[..|rows| - 1]) + rows[|rows| - 1]
  }

  /** `gridReducer(grid, cb)`: the nested `map`; every entry is replaced by
      what the callback returns for it, its row index and its column index. */
  function GridReducer<T, U>(grid: seq<seq<T>>, callbackFn: (T, nat, nat) -> U): (r: seq<seq<U>>)
    ensures |r| == |grid|
    ensures forall i :: 0 <= i < |grid| ==> |r[i]| == |grid[i]|
    ensures forall i, j :: 0 <= i < |grid| && 0 <= j < |grid[i]| ==> r[i][j] == callbackFn(grid[i][j], i, j)
  {
    seq(|grid|, i requires 0 <= i < |grid| =>
      seq(|grid[i]|, j requires 0 <= j < |grid[i]| => callbackFn(grid[i][j], i, j)))
  }

  /** A grid whose rows all have length `width`. */
  ghost predicate Rectangular<T>(rows: seq<seq<T>>, width: nat)
  {
    forall i :: 0 <= i < |rows| ==> |rows[i]| == width
  }

  /** A flat array of plain values. */
  function Scalars<T>(values: seq<T>): (r: seq<Item<T>>)
    ensures |r| == |values|
  {
    seq(|values|, k requires 0 <= k < |values| => Scalar(values[k]))
  }

  /** An array of arrays as flattenArray sees it: each row a nested array. */
  function Wrap<T>(rows: seq<seq<T>>): (r: seq<Item<T>>)
    ensures |r| == |rows|
  {
    seq(|rows|, i requires 0 <= i < |rows| => Nested(Scalars(rows[i])))
  }

  /** The position of row `i`, column `j` when rows of width `n` are laid
      end to end. */
  function RowMajor(i: int, j: int, n: int): int
  {
    i * n + j
  }

  lemma ModSelf(x: int, n: int)
    requires 0 <= x < n
    ensures x % n == x
  {
  }

  lemma MulAtLeast(k: int, n: nat)
    requires k >= 1
    ensures k * n >= n
  {
  }

  /** Euclidean division is unique: a remainder in [0, n) is THE remainder. */
  lemma ModUnique(m: int, n: nat, s: int, r: int)
    requires n > 0 && m == s * n + r && 0 <= r < n
    ensures m % n == r
  {
    var s', r' := m / n, m % n;
    assert m == s' * n + r';
    assert (s' - s) * n == r - r';
    if s' > s {
      MulAtLeast(s' - s, n);
    } else if s' < s {
      MulAtLeast(s - s', n);
    }
  }

  lemma ModShift(a: int, q: int, n: nat)
    requires n > 0
    ensures (a + q * n) % n == a % n
  {
    var p := a / n;
    assert a == p * n + a % n;
    assert a + q * n == (p + q) * n + a % n;
    ModUnique(a + q * n, n, p + q, a % n);
  }

  lemma ModStep(a: int, d: int, n: nat)
    requires n > 0
    ensures (a % n + d) % n == (a + d) % n
  {
    var q := a / n;
    assert a == q * n + a % n;
    assert a + d == (a % n + d) + q * n;
    ModShift(a % n + d, q, n);
  }

  /** On [0, n), a step down or up modulo n is the step itself, except that
      it wraps from 0 to n - 1 and from n - 1 to 0. */
  lemma WrapAround(x: int, n: nat)
    requires 0 <= x < n
    ensures (x - 1) % n == if x - 1 >= 0 then x - 1 else n - 1
    ensures (x + 1) % n == if x + 1 < n then x + 1 else 0
    ensures x % n == x
  {
    if x == 0 {
      ModUnique(-1, n, -1, n - 1);
    } else {
      ModSelf(x - 1, n);
    }
    if x + 1 == n {
      ModUnique(n, n, 1, 0);
    } else {
      ModSelf(x + 1, n);
    }
    ModSelf(x, n);
  }

  /** One more step of size d after k - 1 of them, each taken modulo n, is
      k steps taken modulo n. */
  lemma ShiftStep(x: int, d: int, k: nat, n: nat)
    requires n > 0 && k > 0
    ensures ((x + (k - 1) * d) % n + d) % n == (x + k * d) % n
  {
    ModStep(x + (k - 1) * d, d, n);
    assert (k - 1) * d + d == k * d;
  }

  lemma MulStep(i: int, m: int, n: nat)
    requires i < m
    ensures i * n + n <= m * n
  {
    assert m * n - i * n == (m - i) * n;
    assert (m - i) * n >= n by {
      assert m - i >= 1;
    }
  }

  /** Every position below n * n is the row-major position of one cell. */
  lemma Unflatten(k: nat, n: nat) returns (i: nat, j: nat)
    requires k < n * n
    ensures i < n && j < n && k == RowMajor(i, j, n)
  {
    i, j := k / n, k % n;
    assert k == i * n + j;
    if i >= n {
      MulStep(n - 1, i, n);
    }
  }

  /** Concatenating rows of width `n` gives `n` entries per row. */
  lemma {:induction false} ConcatLength<T>(rows: seq<seq<T>>, n: nat)
    requires Rectangular(rows, n)
    ensures |Concat(rows)| == |rows| * n
  {
    if |rows| > 0 {
      ConcatLength(rows[..|rows| - 1], n);
    }
  }

  /** Concatenation is row-major: entry `i * n + j` of the concatenation of
      rows of width `n` is entry `j` of row `i`. */
  lemma {:induction false} ConcatAt<T>(rows: seq<seq<T>>, n: nat, i: nat, j: nat)
    requires Rectangular(rows, n) && i < |rows| && j < n
    ensures i * n + j < |Concat(rows)| && Concat(rows)[i * n + j] == rows[i][j]
  {
    var m := |rows| - 1;
    var init := rows[..m];
    ConcatLength(init, n);
    assert Concat(rows) == Concat(init) + rows[m];
    if i < m {
      ConcatAt(init, n, i, j);
      MulStep(i, m, n);
    } else {
      assert i * n + j == m * n + j;
    }
  }

  /** Concatenating rows of width `n` lays them out in row-major order. */
  lemma ConcatRowMajor<T>(rows: seq<seq<T>>, n: nat)
    requires Rectangular(rows, n)
    ensures |Concat(rows)| == |rows| * n
    ensures forall i, j :: 0 <= i < |rows| && 0 <= j < n ==>
      RowMajor(i, j, n) < |Concat(rows)| && Concat(rows)[RowMajor(i, j, n)] == rows[i][j]
  {
    ConcatLength(rows, n);
    forall i, j | 0 <= i < |rows| && 0 <= j < n
      ensures RowMajor(i, j, n) < |Concat(rows)| && Concat(rows)[RowMajor(i, j, n)] == rows[i][j]
    {
      ConcatAt(rows, n, i, j);
    }
  }

  /** `flattenArray` is the concatenation of the spreads of the elements. */
  lemma {:induction false} FlattenArrayIsConcatOfSpreads<T>(arr: seq<Item<T>>)
    ensures FlattenArray(arr) == Concat(seq(|arr|, k requires 0 <= k < |arr| => Spread(arr[k])))
  {
    var spreads := seq(|arr|, k requires 0 <= k < |arr| => Spread(arr[k]));
    if |arr| > 0 {
      var m := |arr| - 1;
      FlattenArrayIsConcatOfSpreads(arr[..m]);
      assert spreads[..m] == seq(m, k requires 0 <= k < m => Spread(arr[..m][k]));
    }
  }

  /** On an array of arrays of plain values, `flattenArray` is
      concatenation: the rows' values end to end, in order. */
  lemma {:induction false} FlattenArrayOfRows<T>(rows: seq<seq<T>>)
    ensures FlattenArray(Wrap(rows)) == Scalars(Concat(rows))
  {
    if |rows| > 0 {
      var m := |rows| - 1;
      assert Wrap(rows)[..m] == Wrap(rows[..m]);
      FlattenArrayOfRows(rows[..m]);
      assert Scalars(Concat(rows[..m]) + rows[m]) == Scalars(Concat(rows[..m])) + Scalars(rows[m]);
    }
  }

  /** Flattening an n-by-n array of arrays of plain values lists the values
      in row-major order: n * n of them, the one at `RowMajor(i, j, n)`
      being `rows[i][j]`. */
  lemma {:induction false} FlattenArrayRowMajor<T>(rows: seq<seq<T>>, n: nat)
    requires |rows| == n && Rectangular(rows, n)
    ensures |FlattenArray(Wrap(rows))| == n * n
    ensures forall i, j :: 0 <= i < n && 0 <= j < n ==>
      RowMajor(i, j, n) < |FlattenArray(Wrap(rows))| && FlattenArray(Wrap(rows))[RowMajor(i, j, n)] == Scalar(rows[i][j])
  {
    var w := Wrap(rows);
    FlattenArrayIsConcatOfSpreads(w);
    var items := seq(n, i requires 0 <= i < n => Scalars(rows[i]));
    assert seq(|w|, k requires 0 <= k < |w| => Spread(w[k])) == items;
    ConcatRowMajor(items, n);
  }

  /** On an n-by-n grid the map applies the callback once per cell: read in
      row-major order its results are exactly one application per cell. */
  lemma {:induction false} GridReducerOncePerCell<T, U>(grid: seq<seq<T>>, n: nat, callbackFn: (T, nat, nat) -> U)
    requires |grid| == n && Rectangular(grid, n)
    ensures |Concat(GridReducer(grid, callbackFn))| == n * n
    ensures forall i, j :: 0 <= i < n && 0 <= j < n ==>
      RowMajor(i, j, n) < |Concat(GridReducer(grid, callbackFn))| &&
      Concat(GridReducer(grid, callbackFn))[RowMajor(i, j, n)] == callbackFn(grid[i][j], i, j)
  {
    var mapped := GridReducer(grid, callbackFn);
    assert Rectangular(mapped, n);
    ConcatRowMajor(mapped, n);
  }

  /** `flattenArray([1, 2, [3, [4]]])` is `[1, 2, 3, [4]]`. */
  lemma FlattenArrayOneLevelOnly()
    ensures FlattenArray([Scalar(1), Scalar(2), Nested([Scalar(3), Nested([Scalar(4)])])])
         == [Scalar(1), Scalar(2), Scalar(3), Nested([Scalar(4)])]
  {
    var a := [Scalar(1), Scalar(2), Nested([Scalar(3), Nested([Scalar(4)])])];
    assert a[..2] == [Scalar(1), Scalar(2)];
    assert FlattenArray(a[..2]) == a[..2];
  }
}
