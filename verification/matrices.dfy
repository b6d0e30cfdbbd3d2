/** The `Matrix` class of geometry.cpp: a rows x cols grid of reals with
    shape-checked arithmetic, transpose, cofactor-expansion determinant,
    adjugate inverse and the homogeneous 4 x 4 builders.

    A C++ `Matrix` is copied by value, so it is a datatype here. Every
    operation that the source writes as nested loops filling `result.m` is a
    method with those loops, proved equal to a specification function
    (`Sum`, `Product`, `Transposed`, `Minor`, `Det`, `Inverse`, ...); the
    algebraic facts are lemmas about those functions. */
module Matrices {
  import opened Vectors

  /** The exceptions geometry.cpp throws: `invalid_argument` for shapes,
      `runtime_error` for a singular matrix. */
  datatype MatrixError = DimensionMismatch | NotSquare | Singular

  datatype Result<T> = Ok(value: T) | Err(error: MatrixError)

  /** `m[i][j]` is row i, column j. */
  datatype Matrix = Matrix(rows: nat, cols: nat, m: seq<seq<real>>) {
    ghost predicate Valid() {
      |m| == rows && forall i :: 0 <= i < rows ==> |m[i]| == cols
    }

    /** The matrix after the assignment `m[i][j] = v`. */
    function Set(i: nat, j: nat, v: real): (r: Matrix)
      requires Valid() && i < rows && j < cols
      ensures r.Valid() && r.rows == rows && r.cols == cols
      ensures r.m[i][j] == v
      ensures forall p, q :: 0 <= p < rows && 0 <= q < cols && (p != i || q != j) ==> r.m[p][q] == m[p][q]
    {
      Matrix(rows, cols, m[i := m[i][j := v]])
    }
  }

  // ---------------------------------------------------------------------------
  // Specification functions

  /** `Matrix(rows, cols)`: all entries 0. */
  function Zero(rows: nat, cols: nat): (r: Matrix)
    ensures r.Valid() && r.rows == rows && r.cols == cols
    ensures forall i, j :: 0 <= i < rows && 0 <= j < cols ==> r.m[i][j] == 0.0
  {
    Matrix(rows, cols, seq(rows, _ => seq(cols, _ => 0.0)))
  }

  /** `Matrix(const vector<vector<float>>&)` as written: the column count is read
      from `values[0]`, so the row list must not be empty. */
  function FromRows(values: seq<seq<real>>): (r: Matrix)
    requires |values| > 0
    ensures r.rows == |values| && r.cols == |values[0]| && r.m == values
  {
    Matrix(|values|, |values[0]|, values)
  }

  ghost predicate SameShape(a: Matrix, b: Matrix) {
    a.Valid() && b.Valid() && a.rows == b.rows && a.cols == b.cols
  }

  /** Two matrices of the same shape with the same entries are equal. */
  lemma Extensionality(a: Matrix, b: Matrix)
    requires SameShape(a, b)
    requires forall i, j :: 0 <= i < a.rows && 0 <= j < a.cols ==> a.m[i][j] == b.m[i][j]
    ensures a == b
  {
    forall i | 0 <= i < a.rows
      ensures a.m[i] == b.m[i]
    {
      assert forall j :: 0 <= j < a.cols ==> a.m[i][j] == b.m[i][j];
    }
  }

  function Sum(a: Matrix, b: Matrix): (r: Matrix)
    requires SameShape(a, b)
    ensures SameShape(r, a)
  {
    Matrix(a.rows, a.cols, seq(a.rows, i requires 0 <= i < a.rows =>
      seq(a.cols, j requires 0 <= j < a.cols => a.m[i][j] + b.m[i][j])))
  }

  function Difference(a: Matrix, b: Matrix): (r: Matrix)
    requires SameShape(a, b)
    ensures SameShape(r, a)
  {
    Matrix(a.rows, a.cols, seq(a.rows, i requires 0 <= i < a.rows =>
      seq(a.cols, j requires 0 <= j < a.cols => a.m[i][j] - b.m[i][j])))
  }

  function Scaled(a: Matrix, s: real): (r: Matrix)
    requires a.Valid()
    ensures SameShape(r, a)
  {
    Matrix(a.rows, a.cols, seq(a.rows, i requires 0 <= i < a.rows =>
      seq(a.cols, j requires 0 <= j < a.cols => a.m[i][j] * s)))
  }

  /** Sum over k < n of a[i][k] * b[k][j], accumulated in increasing k. */
  function RowCol(a: Matrix, b: Matrix, i: nat, j: nat, n: nat): real
    requires a.Valid() && b.Valid() && a.cols == b.rows
    requires i < a.rows && j < b.cols && n <= a.cols
  {
    if n == 0 then 0.0 else RowCol(a, b, i, j, n - 1) + a.m[i][n - 1] * b.m[n - 1][j]
  }

  function Product(a: Matrix, b: Matrix): (r: Matrix)
    requires a.Valid() && b.Valid() && a.cols == b.rows
    ensures r.Valid() && r.rows == a.rows && r.cols == b.cols
  {
    Matrix(a.rows, b.cols, seq(a.rows, i requires 0 <= i < a.rows =>
      seq(b.cols, j requires 0 <= j < b.cols => RowCol(a, b, i, j, a.cols))))
  }

  function Transposed(a: Matrix): (r: Matrix)
    requires a.Valid()
    ensures r.Valid() && r.rows == a.cols && r.cols == a.rows
  {
    Matrix(a.cols, a.rows, seq(a.cols, j requires 0 <= j < a.cols =>
      seq(a.rows, i requires 0 <= i < a.rows => a.m[i][j])))
  }

  function Identity(n: nat): (r: Matrix)
    ensures r.Valid() && r.rows == n && r.cols == n
  {
    Matrix(n, n, seq(n, i => seq(n, j => if i == j then 1.0 else 0.0)))
  }

  /** Index of the source row (or column) kept at position i once index p is removed. */
  function Skip(i: nat, p: nat): nat {
    if i < p then i else i + 1
  }

  /** The cofactor matrix of getCofactorMatrix(p, q): row p and column q removed,
      the other entries kept in order. */
  function Minor(a: Matrix, p: nat, q: nat): (r: Matrix)
    requires a.Valid() && p < a.rows && q < a.cols
    ensures r.Valid() && r.rows == a.rows - 1 && r.cols == a.cols - 1
  {
    Matrix(a.rows - 1, a.cols - 1, seq(a.rows - 1, i requires 0 <= i < a.rows - 1 =>
      seq(a.cols - 1, j requires 0 <= j < a.cols - 1 => a.m[Skip(i, p)][Skip(j, q)])))
  }

  /** `(i % 2 == 0 ? 1 : -1)` */
  function Sign(i: nat): real {
    if i % 2 == 0 then 1.0 else -1.0
  }

  ghost predicate Square(a: Matrix) {
    a.Valid() && a.rows == a.cols
  }

  /** determinantRecursive: 1 x 1 and 2 x 2 base cases, otherwise expansion along
      the first row. An empty (0 x 0) matrix runs the expansion loop zero times: 0. */
  function Det(a: Matrix): real
    requires Square(a)
    decreases a.rows, 1, 0
  {
    if a.rows == 1 then a.m[0][0]
    else if a.rows == 2 then a.m[0][0] * a.m[1][1] - a.m[0][1] * a.m[1][0]
    else Expansion(a, a.rows)
  }

  /** The first n terms of the first-row expansion. */
  function Expansion(a: Matrix, n: nat): real
    requires Square(a) && n <= a.cols
    decreases a.rows, 0, n
  {
    if n == 0 then 0.0
    else Expansion(a, n - 1) + Sign(n - 1) * a.m[0][n - 1] * Det(Minor(a, 0, n - 1))
  }

  /** One more term of the expansion. */
  lemma ExpansionNext(a: Matrix, i: nat, d: real)
    requires Square(a) && i < a.cols && d == Det(Minor(a, 0, i))
    ensures Expansion(a, i + 1) == Expansion(a, i) + Sign(i) * a.m[0][i] * d
  {
  }

  /** The signed cofactor (-1)^(i+j) det(cofactor(i, j)). */
  function Cofactor(a: Matrix, i: nat, j: nat): real
    requires Square(a) && i < a.rows && j < a.cols
  {
    Sign(i + j) * Det(Minor(a, i, j))
  }

  /** adj[j][i] = (-1)^(i+j) det(cofactor(i, j)). For a 1 x 1 matrix the
      cofactor is empty and the adjugate is [[1]] (see README, Findings). */
  function Adjugate(a: Matrix): (r: Matrix)
    requires Square(a)
    ensures SameShape(r, a)
  {
    if a.rows == 1 then Matrix(1, 1, [[1.0]])
    else Matrix(a.rows, a.cols, seq(a.rows, j requires 0 <= j < a.rows =>
      seq(a.cols, i requires 0 <= i < a.cols => Cofactor(a, i, j))))
  }

  /** The adjugate formula exactly as the inverse loop writes it, with no case
      for 1 x 1 matrices. */
  function AdjugateAsWritten(a: Matrix): (r: Matrix)
    requires Square(a)
    ensures SameShape(r, a)
  {
    Matrix(a.rows, a.cols, seq(a.rows, j requires 0 <= j < a.rows =>
      seq(a.cols, i requires 0 <= i < a.cols => Cofactor(a, i, j))))
  }

  function Inverse(a: Matrix): (r: Matrix)
    requires Square(a) && Det(a) != 0.0
    ensures SameShape(r, a)
  {
    Scaled(Adjugate(a), 1.0 / Det(a))
  }

  // ---------------------------------------------------------------------------
  // The operations, as the nested loops of geometry.cpp

  /** `operator+`: throws unless both shapes agree; otherwise elementwise. */
  method Add(a: Matrix, b: Matrix) returns (r: Result<Matrix>)
    requires a.Valid() && b.Valid()
    ensures r == if a.rows == b.rows && a.cols == b.cols then Ok(Sum(a, b)) else Err(DimensionMismatch)
  {
    if a.rows != b.rows || a.cols != b.cols {
      return Err(DimensionMismatch);
    }
    var result := Zero(a.rows, a.cols);
    for i := 0 to a.rows
      invariant SameShape(result, a)
      invariant forall p, q :: 0 <= p < i && 0 <= q < a.cols ==> result.m[p][q] == a.m[p][q] + b.m[p][q]
    {
      for j := 0 to a.cols
        invariant SameShape(result, a)
        invariant forall p, q :: 0 <= p < i && 0 <= q < a.cols ==> result.m[p][q] == a.m[p][q] + b.m[p][q]
        invariant forall q :: 0 <= q < j ==> result.m[i][q] == a.m[i][q] + b.m[i][q]
      {
        result := result.Set(i, j, a.m[i][j] + b.m[i][j]);
      }
    }
    Extensionality(result, Sum(a, b));
    return Ok(result);
  }

  /** `operator-`: throws unless both shapes agree; otherwise elementwise. */
  method Subtract(a: Matrix, b: Matrix) returns (r: Result<Matrix>)
    requires a.Valid() && b.Valid()
    ensures r == if a.rows == b.rows && a.cols == b.cols then Ok(Difference(a, b)) else Err(DimensionMismatch)
  {
    if a.rows != b.rows || a.cols != b.cols {
      return Err(DimensionMismatch);
    }
    var result := Zero(a.rows, a.cols);
    for i := 0 to a.rows
      invariant SameShape(result, a)
      invariant forall p, q :: 0 <= p < i && 0 <= q < a.cols ==> result.m[p][q] == a.m[p][q] - b.m[p][q]
    {
      for j := 0 to a.cols
        invariant SameShape(result, a)
        invariant forall p, q :: 0 <= p < i && 0 <= q < a.cols ==> result.m[p][q] == a.m[p][q] - b.m[p][q]
        invariant forall q :: 0 <= q < j ==> result.m[i][q] == a.m[i][q] - b.m[i][q]
      {
        result := result.Set(i, j, a.m[i][j] - b.m[i][j]);
      }
    }
    Extensionality(result, Difference(a, b));
    return Ok(result);
  }

  /** `operator*(float)`: every entry times the scalar. */
  method Scale(a: Matrix, s: real) returns (r: Matrix)
    requires a.Valid()
    ensures r == Scaled(a, s)
  {
    r := Zero(a.rows, a.cols);
    for i := 0 to a.rows
      invariant SameShape(r, a)
      invariant forall p, q :: 0 <= p < i && 0 <= q < a.cols ==> r.m[p][q] == a.m[p][q] * s
    {
      for j := 0 to a.cols
        invariant SameShape(r, a)
        invariant forall p, q :: 0 <= p < i && 0 <= q < a.cols ==> r.m[p][q] == a.m[p][q] * s
        invariant forall q :: 0 <= q < j ==> r.m[i][q] == a.m[i][q] * s
      {
        r := r.Set(i, j, a.m[i][j] * s);
      }
    }
    Extensionality(r, Scaled(a, s));
  }

  /** `operator*(const Matrix&)`: throws unless cols == other.rows; the result
      starts at zero and accumulates a[i][k] * b[k][j] in increasing k. */
  method Multiply(a: Matrix, b: Matrix) returns (r: Result<Matrix>)
    requires a.Valid() && b.Valid()
    ensures r == if a.cols == b.rows then Ok(Product(a, b)) else Err(DimensionMismatch)
  {
    if a.cols != b.rows {
      return Err(DimensionMismatch);
    }
    var result := Zero(a.rows, b.cols);
    for i := 0 to a.rows
      invariant result.Valid() && result.rows == a.rows && result.cols == b.cols
      invariant forall p, q :: 0 <= p < i && 0 <= q < b.cols ==> result.m[p][q] == RowCol(a, b, p, q, a.cols)
      invariant forall p, q :: i <= p < a.rows && 0 <= q < b.cols ==> result.m[p][q] == 0.0
    {
      for j := 0 to b.cols
        invariant result.Valid() && result.rows == a.rows && result.cols == b.cols
        invariant forall p, q :: 0 <= p < i && 0 <= q < b.cols ==> result.m[p][q] == RowCol(a, b, p, q, a.cols)
        invariant forall q :: 0 <= q < j ==> result.m[i][q] == RowCol(a, b, i, q, a.cols)
        invariant forall q :: j <= q < b.cols ==> result.m[i][q] == 0.0
        invariant forall p, q :: i < p < a.rows && 0 <= q < b.cols ==> result.m[p][q] == 0.0
      {
        for k := 0 to a.cols
          invariant result.Valid() && result.rows == a.rows && result.cols == b.cols
          invariant forall p, q :: 0 <= p < i && 0 <= q < b.cols ==> result.m[p][q] == RowCol(a, b, p, q, a.cols)
          invariant forall q :: 0 <= q < j ==> result.m[i][q] == RowCol(a, b, i, q, a.cols)
          invariant result.m[i][j] == RowCol(a, b, i, j, k)
          invariant forall q :: j < q < b.cols ==> result.m[i][q] == 0.0
          invariant forall p, q :: i < p < a.rows && 0 <= q < b.cols ==> result.m[p][q] == 0.0
        {
          result := result.Set(i, j, result.m[i][j] + a.m[i][k] * b.m[k][j]);
        }
      }
    }
    Extensionality(result, Product(a, b));
    return Ok(result);
  }

  /** `transpose`: result[j][i] = m[i][j]. */
  method Transpose(a: Matrix) returns (r: Matrix)
    requires a.Valid()
    ensures r == Transposed(a)
  {
    r := Zero(a.cols, a.rows);
    for i := 0 to a.rows
      invariant r.Valid() && r.rows == a.cols && r.cols == a.rows
      invariant forall p, q :: 0 <= p < i && 0 <= q < a.cols ==> r.m[q][p] == a.m[p][q]
    {
      for j := 0 to a.cols
        invariant r.Valid() && r.rows == a.cols && r.cols == a.rows
        invariant forall p, q :: 0 <= p < i && 0 <= q < a.cols ==> r.m[q][p] == a.m[p][q]
        invariant forall q :: 0 <= q < j ==> r.m[q][i] == a.m[i][q]
      {
        r := r.Set(j, i, a.m[i][j]);
      }
    }
    Extensionality(r, Transposed(a));
  }

  /** `Matrix::identity(n)`: 1 on the diagonal, 0 elsewhere. */
  method BuildIdentity(n: nat) returns (r: Matrix)
    ensures r == Identity(n)
  {
    r := Zero(n, n);
    for i := 0 to n
      invariant r.Valid() && r.rows == n && r.cols == n
      invariant forall p, q :: 0 <= p < i && 0 <= q < n ==> r.m[p][q] == (if p == q then 1.0 else 0.0)
    {
      for j := 0 to n
        invariant r.Valid() && r.rows == n && r.cols == n
        invariant forall p, q :: 0 <= p < i && 0 <= q < n ==> r.m[p][q] == (if p == q then 1.0 else 0.0)
        invariant forall q :: 0 <= q < j ==> r.m[i][q] == (if i == q then 1.0 else 0.0)
      {
        if i == j {
          r := r.Set(i, j, 1.0);
        } else {
          r := r.Set(i, j, 0.0);
        }
      }
    }
    Extensionality(r, Identity(n));
  }

  /** getCofactorMatrix(p, q): copies every row but p, each without column q,
      with push_back, then wraps the rows with Matrix(temp), whose column count
      comes from temp[0]. When no row is left that read has no meaning, and the
      result is taken to have no rows and cols - 1 columns (see README, Findings). */
  method GetCofactorMatrix(a: Matrix, p: nat, q: nat) returns (r: Matrix)
    requires a.Valid() && p < a.rows && q < a.cols
    ensures r == Minor(a, p, q)
  {
    var temp: seq<seq<real>> := [];
    for i := 0 to a.rows
      invariant |temp| == (if i <= p then i else i - 1)
      invariant forall s :: 0 <= s < |temp| ==> temp[s] == Minor(a, p, q).m[s]
    {
      if i == p {
        continue;
      }
      var row: seq<real> := [];
      for j := 0 to a.cols
        invariant |row| == (if j <= q then j else j - 1)
        invariant forall t :: 0 <= t < |row| ==> row[t] == a.m[i][Skip(t, q)]
      {
        if j == q {
          continue;
        }
        row := row + [a.m[i][j]];
      }
      assert row == Minor(a, p, q).m[|temp|];
      temp := temp + [row];
    }
    assert temp == Minor(a, p, q).m;
    if |temp| > 0 {
      r := FromRows(temp);
    } else {
      r := Matrix(a.rows - 1, a.cols - 1, temp);
    }
  }

  /** `determinant()`: throws for a non-square matrix, else determinantRecursive. */
  method Determinant(a: Matrix) returns (r: Result<real>)
    requires a.Valid()
    ensures r == if a.rows == a.cols then Ok(Det(a)) else Err(NotSquare)
    decreases a.rows, 3
  {
    if a.rows != a.cols {
      return Err(NotSquare);
    }
    var d := DeterminantRecursive(a);
    return Ok(d);
  }

  /** determinantRecursive: the 1 x 1 and 2 x 2 base cases, else the loop over the
      first row. */
  method DeterminantRecursive(a: Matrix) returns (det: real)
    requires Square(a)
    ensures det == Det(a)
    decreases a.rows, 2
  {
    var n := a.rows;
    if n == 1 {
      return a.m[0][0];
    }
    if n == 2 {
      return a.m[0][0] * a.m[1][1] - a.m[0][1] * a.m[1][0];
    }
    det := ExpandFirstRow(a);
  }

  /** The loop of determinantRecursive: each term of the first-row expansion is the
      determinant of a freshly built cofactor matrix. */
  method ExpandFirstRow(a: Matrix) returns (det: real)
    requires Square(a)
    ensures det == Expansion(a, a.rows)
    decreases a.rows, 1
  {
    det := 0.0;
    for i := 0 to a.rows
      invariant det == Expansion(a, i)
    {
      var d := CofactorDeterminant(a, i);
      ExpansionNext(a, i, d);
      det := det + Sign(i) * a.m[0][i] * d;
    }
  }

  /** `((i + j) % 2 == 0 ? 1 : -1) * getCofactorMatrix(i, j).determinant()`. */
  method SignedCofactor(a: Matrix, i: nat, j: nat) returns (c: real)
    requires Square(a) && i < a.rows && j < a.cols
    ensures c == Cofactor(a, i, j)
  {
    var cofactor := GetCofactorMatrix(a, i, j);
    var d := Determinant(cofactor);
    c := Sign(i + j) * d.value;
  }

  /** One term's minor: `getCofactorMatrix(0, i).determinant()`. */
  method CofactorDeterminant(a: Matrix, i: nat) returns (d: real)
    requires Square(a) && i < a.cols
    ensures d == Det(Minor(a, 0, i))
    decreases a.rows, 0
  {
    var cofactor := GetCofactorMatrix(a, 0, i);
    var c := Determinant(cofactor);
    d := c.value;
  }

  /** The adjugate loop of `inverse()`: adj[j][i] is the signed determinant of
      cofactor (i, j); the 1 x 1 case writes [[1]] (see README, Findings). */
  method BuildAdjugate(a: Matrix) returns (adj: Matrix)
    requires Square(a)
    ensures adj == Adjugate(a)
  {
    adj := Zero(a.rows, a.cols);
    if a.rows == 1 {
      adj := adj.Set(0, 0, 1.0);
    } else {
      for i := 0 to a.rows
        invariant SameShape(adj, a)
        invariant forall p, q :: 0 <= p < i && 0 <= q < a.cols ==> adj.m[q][p] == Cofactor(a, p, q)
      {
        for j := 0 to a.cols
          invariant SameShape(adj, a)
          invariant forall p, q :: 0 <= p < i && 0 <= q < a.cols ==> adj.m[q][p] == Cofactor(a, p, q)
          invariant forall q :: 0 <= q < j ==> adj.m[q][i] == Cofactor(a, i, q)
        {
          var c := SignedCofactor(a, i, j);
          adj := adj.Set(j, i, c);
        }
      }
    }
    Extensionality(adj, Adjugate(a));
  }

  /** `inverse()`: the determinant (throwing for a non-square matrix), a
      runtime_error when it is exactly 0, else the adjugate scaled by 1/det. */
  method Invert(a: Matrix) returns (r: Result<Matrix>)
    requires a.Valid()
    ensures a.rows != a.cols ==> r == Err(NotSquare)
    ensures a.rows == a.cols ==> r == if Det(a) == 0.0 then Err(Singular) else Ok(Inverse(a))
  {
    var d := Determinant(a);
    if d.Err? {
      return Err(d.error);
    }
    var det := d.value;
    if det == 0.0 {
      return Err(Singular);
    }
    var adj := BuildAdjugate(a);
    var inv := Scale(adj, 1.0 / det);
    return Ok(inv);
  }

  // ---------------------------------------------------------------------------
  // Matrix times Vec4f

  /** Sum over j < n of a[i][j] * v[j], accumulated in increasing j. */
  function RowTimes(a: Matrix, i: nat, v: Vec4f, n: nat): real
    requires a.Valid() && a.rows >= 4 && a.cols >= 4 && i < 4 && n <= 4
  {
    if n == 0 then 0.0 else RowTimes(a, i, v, n - 1) + a.m[i][n - 1] * v[n - 1]
  }

  lemma RowTimesFull(a: Matrix, i: nat, v: Vec4f)
    requires a.Valid() && a.rows >= 4 && a.cols >= 4 && i < 4
    ensures RowTimes(a, i, v, 4) == Dot4(a, i, v)
  {
    assert RowTimes(a, i, v, 1) == a.m[i][0] * v[0];
    assert RowTimes(a, i, v, 2) == a.m[i][0] * v[0] + a.m[i][1] * v[1];
  }

  /** Row i of the top-left 4 x 4 block times v. */
  function Dot4(a: Matrix, i: nat, v: Vec4f): real
    requires a.Valid() && a.rows >= 4 && a.cols >= 4 && i < 4
  {
    a.m[i][0] * v[0] + a.m[i][1] * v[1] + a.m[i][2] * v[2] + a.m[i][3] * v[3]
  }

  /** The product of the top-left 4 x 4 block with a Vec4f. */
  function Apply(a: Matrix, v: Vec4f): (r: Vec4f)
    requires a.Valid() && a.rows >= 4 && a.cols >= 4
  {
    [Dot4(a, 0, v), Dot4(a, 1, v), Dot4(a, 2, v), Dot4(a, 3, v)]
  }

  /** `operator*(const Vec4f&)`: reads the first four rows and columns only. */
  method MultiplyVec(a: Matrix, v: Vec4f) returns (r: Vec4f)
    requires a.Valid() && a.rows >= 4 && a.cols >= 4
    ensures r == Apply(a, v)
  {
    r := [0.0, 0.0, 0.0, 0.0];
    for i := 0 to 4
      invariant forall p :: 0 <= p < i ==> r[p] == Apply(a, v)[p]
    {
      var sum := 0.0;
      for j := 0 to 4
        invariant sum == RowTimes(a, i, v, j)
      {
        sum := sum + a.m[i][j] * v[j];
      }
      RowTimesFull(a, i, v);
      r := r[i := sum];
    }
  }

  // ---------------------------------------------------------------------------
  // Homogeneous builders, each starting from identity(4)

  function RotationX(cos: real, sin: real): (r: Matrix)
    ensures r.Valid() && r.rows == 4 && r.cols == 4
  {
    Matrix(4, 4, [[1.0, 0.0, 0.0, 0.0], [0.0, cos, -sin, 0.0], [0.0, sin, cos, 0.0], [0.0, 0.0, 0.0, 1.0]])
  }

  function RotationY(cos: real, sin: real): (r: Matrix)
    ensures r.Valid() && r.rows == 4 && r.cols == 4
  {
    Matrix(4, 4, [[cos, 0.0, sin, 0.0], [0.0, 1.0, 0.0, 0.0], [-sin, 0.0, cos, 0.0], [0.0, 0.0, 0.0, 1.0]])
  }

  function RotationZ(cos: real, sin: real): (r: Matrix)
    ensures r.Valid() && r.rows == 4 && r.cols == 4
  {
    Matrix(4, 4, [[cos, -sin, 0.0, 0.0], [sin, cos, 0.0, 0.0], [0.0, 0.0, 1.0, 0.0], [0.0, 0.0, 0.0, 1.0]])
  }

  function Zoom(factor: real): (r: Matrix)
    ensures r.Valid() && r.rows == 4 && r.cols == 4
  {
    Matrix(4, 4, [[factor, 0.0, 0.0, 0.0], [0.0, factor, 0.0, 0.0], [0.0, 0.0, factor, 0.0], [0.0, 0.0, 0.0, 1.0]])
  }

  function Translation(v: Vec3f): (r: Matrix)
    ensures r.Valid() && r.rows == 4 && r.cols == 4
  {
    Matrix(4, 4, [[1.0, 0.0, 0.0, v.x], [0.0, 1.0, 0.0, v.y], [0.0, 0.0, 1.0, v.z], [0.0, 0.0, 0.0, 1.0]])
  }

  /** Each builder is identity(4) with the entries the source assigns. */
  lemma BuildersFromIdentity(c: real, s: real, f: real, t: Vec3f)
    ensures RotationX(c, s) == Identity(4).Set(1, 1, c).Set(2, 2, c).Set(1, 2, -s).Set(2, 1, s)
    ensures RotationY(c, s) == Identity(4).Set(0, 0, c).Set(2, 2, c).Set(0, 2, s).Set(2, 0, -s)
    ensures RotationZ(c, s) == Identity(4).Set(0, 0, c).Set(1, 1, c).Set(0, 1, -s).Set(1, 0, s)
    ensures Zoom(f) == Identity(4).Set(0, 0, f).Set(1, 1, f).Set(2, 2, f)
    ensures Translation(t) == Identity(4).Set(0, 3, t.x).Set(1, 3, t.y).Set(2, 3, t.z)
  {
    Extensionality(RotationX(c, s), Identity(4).Set(1, 1, c).Set(2, 2, c).Set(1, 2, -s).Set(2, 1, s));
    Extensionality(RotationY(c, s), Identity(4).Set(0, 0, c).Set(2, 2, c).Set(0, 2, s).Set(2, 0, -s));
    Extensionality(RotationZ(c, s), Identity(4).Set(0, 0, c).Set(1, 1, c).Set(0, 1, -s).Set(1, 0, s));
    Extensionality(Zoom(f), Identity(4).Set(0, 0, f).Set(1, 1, f).Set(2, 2, f));
    Extensionality(Translation(t), Identity(4).Set(0, 3, t.x).Set(1, 3, t.y).Set(2, 3, t.z));
  }

  // ---------------------------------------------------------------------------
  // Algebraic properties

  /** Subtraction undoes addition. */
  lemma SumThenDifference(a: Matrix, b: Matrix)
    requires SameShape(a, b)
    ensures Difference(Sum(a, b), b) == a
  {
    Extensionality(Difference(Sum(a, b), b), a);
  }

  /** Scaling by s and then by 1/s gives the matrix back. */
  lemma ScaledRoundTrip(a: Matrix, s: real)
    requires a.Valid() && s != 0.0
    ensures Scaled(Scaled(a, s), 1.0 / s) == a
  {
    forall i, j | 0 <= i < a.rows && 0 <= j < a.cols
      ensures Scaled(Scaled(a, s), 1.0 / s).m[i][j] == a.m[i][j]
    {
      var x := a.m[i][j];
      calc {
        (x * s) * (1.0 / s);
        x * (s * (1.0 / s));
        x * 1.0;
      }
    }
    Extensionality(Scaled(Scaled(a, s), 1.0 / s), a);
  }

  lemma TransposeInvolution(a: Matrix)
    requires a.Valid()
    ensures Transposed(Transposed(a)) == a
  {
    Extensionality(Transposed(Transposed(a)), a);
  }

  /** A prefix of the sum for row i of identity(n) times b picks b[i][j] once k passes i. */
  lemma {:induction false} RowColIdentityLeft(b: Matrix, i: nat, j: nat, k: nat)
    requires b.Valid() && i < b.rows && j < b.cols && k <= b.rows
    ensures RowCol(Identity(b.rows), b, i, j, k) == if i < k then b.m[i][j] else 0.0
  {
    if k > 0 {
      RowColIdentityLeft(b, i, j, k - 1);
    }
  }

  lemma {:induction false} RowColIdentityRight(a: Matrix, i: nat, j: nat, k: nat)
    requires a.Valid() && i < a.rows && j < a.cols && k <= a.cols
    ensures RowCol(a, Identity(a.cols), i, j, k) == if j < k then a.m[i][j] else 0.0
  {
    if k > 0 {
      RowColIdentityRight(a, i, j, k - 1);
    }
  }

  /** identity(n) is a left unit of the product. */
  lemma IdentityLeft(b: Matrix)
    requires b.Valid()
    ensures Product(Identity(b.rows), b) == b
  {
    forall i, j | 0 <= i < b.rows && 0 <= j < b.cols
      ensures Product(Identity(b.rows), b).m[i][j] == b.m[i][j]
    {
      RowColIdentityLeft(b, i, j, b.rows);
    }
    Extensionality(Product(Identity(b.rows), b), b);
  }

  /** identity(n) is a right unit of the product. */
  lemma IdentityRight(a: Matrix)
    requires a.Valid()
    ensures Product(a, Identity(a.cols)) == a
  {
    forall i, j | 0 <= i < a.rows && 0 <= j < a.cols
      ensures Product(a, Identity(a.cols)).m[i][j] == a.m[i][j]
    {
      RowColIdentityRight(a, i, j, a.cols);
    }
    Extensionality(Product(a, Identity(a.cols)), a);
  }

  /** Removing row i and column i of identity(n) leaves identity(n-1). */
  lemma MinorOfIdentity(n: nat, i: nat)
    requires i < n
    ensures Minor(Identity(n), i, i) == Identity(n - 1)
  {
    Extensionality(Minor(Identity(n), i, i), Identity(n - 1));
  }

  /** Only the first term of the expansion of identity(n) is non-zero. */
  lemma {:induction false} ExpansionOfIdentity(n: nat, k: nat)
    requires 3 <= n && 1 <= k <= n
    ensures Expansion(Identity(n), k) == Det(Identity(n - 1))
  {
    if k == 1 {
      MinorOfIdentity(n, 0);
      assert Expansion(Identity(n), 0) == 0.0;
    } else {
      ExpansionOfIdentity(n, k - 1);
      assert Identity(n).m[0][k - 1] == 0.0;
    }
  }

  /** det(identity(n)) = 1 for every n >= 1. */
  lemma {:induction false} DetIdentity(n: nat)
    requires n >= 1
    ensures Det(Identity(n)) == 1.0
  {
    if n >= 3 {
      ExpansionOfIdentity(n, n);
      DetIdentity(n - 1);
    }
  }

  /** Each cofactor of a 2 x 2 matrix is the single entry left over. */
  lemma MinorTwoByTwo(a: Matrix, i: nat, j: nat)
    requires Square(a) && a.rows == 2 && i < 2 && j < 2
    ensures Det(Minor(a, i, j)) == a.m[1 - i][1 - j]
  {
    var mi := Minor(a, i, j);
    assert mi.m[0][0] == a.m[1 - i][1 - j];
  }

  /** The adjugate of a 2 x 2 matrix [[p, q], [r, t]] is [[t, -q], [-r, p]]. */
  lemma AdjugateTwoByTwo(a: Matrix)
    requires Square(a) && a.rows == 2
    ensures Adjugate(a).m[0][0] == a.m[1][1] && Adjugate(a).m[0][1] == -a.m[0][1]
    ensures Adjugate(a).m[1][0] == -a.m[1][0] && Adjugate(a).m[1][1] == a.m[0][0]
  {
    MinorTwoByTwo(a, 0, 0);
    MinorTwoByTwo(a, 0, 1);
    MinorTwoByTwo(a, 1, 0);
    MinorTwoByTwo(a, 1, 1);
  }

  /** Each entry of a product of 2 x 2 matrices, written out. */
  lemma ProductTwoByTwo(a: Matrix, b: Matrix, i: nat, j: nat)
    requires Square(a) && Square(b) && a.rows == 2 && b.rows == 2 && i < 2 && j < 2
    ensures Product(a, b).m[i][j] == a.m[i][0] * b.m[0][j] + a.m[i][1] * b.m[1][j]
  {
    assert RowCol(a, b, i, j, 1) == a.m[i][0] * b.m[0][j];
  }

  /** [[p, q], [r, t]] times k [[t, -q], [-r, p]] is the identity when (pt - qr) k = 1. */
  lemma TwoByTwoAlgebra(a: Matrix, b: Matrix, k: real)
    requires Square(a) && Square(b) && a.rows == 2 && b.rows == 2
    requires (a.m[0][0] * a.m[1][1] - a.m[0][1] * a.m[1][0]) * k == 1.0
    requires b.m[0][0] == a.m[1][1] * k && b.m[0][1] == -a.m[0][1] * k
    requires b.m[1][0] == -a.m[1][0] * k && b.m[1][1] == a.m[0][0] * k
    ensures Product(a, b) == Identity(2)
  {
    var p, q, r, t := a.m[0][0], a.m[0][1], a.m[1][0], a.m[1][1];
    var prod := Product(a, b);
    ProductTwoByTwo(a, b, 0, 0);
    ProductTwoByTwo(a, b, 0, 1);
    ProductTwoByTwo(a, b, 1, 0);
    ProductTwoByTwo(a, b, 1, 1);
    assert p * (t * k) + q * (-r * k) == (p * t - q * r) * k;
    assert r * (-q * k) + t * (p * k) == (p * t - q * r) * k;
    assert prod.m[0][0] == 1.0 && prod.m[0][1] == 0.0;
    assert prod.m[1][0] == 0.0 && prod.m[1][1] == 1.0;
    Extensionality(prod, Identity(2));
  }

  /** For a 2 x 2 matrix the adjugate inverse is a right inverse. */
  lemma InverseTwoByTwo(a: Matrix)
    requires Square(a) && a.rows == 2 && Det(a) != 0.0
    ensures Product(a, Inverse(a)) == Identity(2)
  {
    var d := Det(a);
    assert d == a.m[0][0] * a.m[1][1] - a.m[0][1] * a.m[1][0];
    var k := 1.0 / d;
    assert d * k == 1.0;
    AdjugateTwoByTwo(a);
    TwoByTwoAlgebra(a, Inverse(a), k);
  }

  /** For a 1 x 1 matrix [[x]] with x != 0 the inverse is [[1/x]]. */
  lemma InverseOneByOne(a: Matrix)
    requires Square(a) && a.rows == 1 && Det(a) != 0.0
    ensures Inverse(a).m[0][0] == 1.0 / a.m[0][0]
    ensures Product(a, Inverse(a)) == Identity(1)
  {
    var x := a.m[0][0];
    var inv := Inverse(a);
    assert inv.m[0][0] == 1.0 * (1.0 / x);
    var prod := Product(a, inv);
    assert prod.m[0][0] == RowCol(a, inv, 0, 0, 1);
    assert prod.m[0][0] == x * (1.0 / x) == 1.0;
    Extensionality(prod, Identity(1));
  }

  /** The inverse loop as written on a 1 x 1 matrix [[x]]: the cofactor matrix
      has no rows, so `Matrix(temp)` has no `temp[0]` to take its column count
      from; read as a 0 x 0 matrix its determinant is 0, and the "inverse" comes
      out as [[0]], which is no inverse at all. */
  lemma OneByOneInverseAsWritten(a: Matrix)
    requires Square(a) && a.rows == 1 && Det(a) != 0.0
    ensures |Minor(a, 0, 0).m| == 0
    ensures Scaled(AdjugateAsWritten(a), 1.0 / Det(a)).m[0][0] == 0.0
    ensures Product(a, Scaled(AdjugateAsWritten(a), 1.0 / Det(a))) != Identity(1)
  {
    AdjugateAsWrittenOneByOne(a);
    ZeroIsNoInverse(a, Scaled(AdjugateAsWritten(a), 1.0 / Det(a)));
  }

  /** The as-written adjugate of any 1 x 1 matrix is [[0]]: the determinant of
      the empty cofactor is the empty expansion. */
  lemma AdjugateAsWrittenOneByOne(a: Matrix)
    requires Square(a) && a.rows == 1
    ensures AdjugateAsWritten(a).m[0][0] == 0.0
  {
    var minor := Minor(a, 0, 0);
    assert Det(minor) == Expansion(minor, 0) == 0.0;
  }

  lemma ZeroIsNoInverse(a: Matrix, b: Matrix)
    requires Square(a) && Square(b) && a.rows == 1 && b.rows == 1 && b.m[0][0] == 0.0
    ensures Product(a, b) != Identity(1)
  {
    assert Product(a, b).m[0][0] == RowCol(a, b, 0, 0, 1) == 0.0;
    assert Identity(1).m[0][0] == 1.0;
  }

  /** identity(4) leaves every Vec4f unchanged. */
  lemma ApplyIdentity(v: Vec4f)
    ensures Apply(Identity(4), v) == v
  {
  }

  /** Each entry of a product of 4 x 4 matrices, written out. */
  lemma ProductFourByFour(a: Matrix, b: Matrix, i: nat, j: nat)
    requires a.Valid() && b.Valid() && a.rows == 4 && a.cols == 4 && b.rows == 4 && b.cols == 4
    requires i < 4 && j < 4
    ensures Product(a, b).m[i][j] == a.m[i][0] * b.m[0][j] + a.m[i][1] * b.m[1][j] + a.m[i][2] * b.m[2][j] + a.m[i][3] * b.m[3][j]
  {
    assert RowCol(a, b, i, j, 1) == a.m[i][0] * b.m[0][j];
    assert RowCol(a, b, i, j, 2) == a.m[i][0] * b.m[0][j] + a.m[i][1] * b.m[1][j];
    assert RowCol(a, b, i, j, 3) == a.m[i][0] * b.m[0][j] + a.m[i][1] * b.m[1][j] + a.m[i][2] * b.m[2][j];
  }

  /** Applying a product of 4 x 4 matrices is applying its factors right to left,
      the order in which `viewport * projection * ModelView` acts on a vertex. */
  lemma ApplyProduct(a: Matrix, b: Matrix, v: Vec4f)
    requires a.Valid() && b.Valid() && a.rows == 4 && a.cols == 4 && b.rows == 4 && b.cols == 4
    ensures Apply(Product(a, b), v) == Apply(a, Apply(b, v))
  {
    ApplyProductRow(a, b, v, 0);
    ApplyProductRow(a, b, v, 1);
    ApplyProductRow(a, b, v, 2);
    ApplyProductRow(a, b, v, 3);
  }

  /** Row i of `ApplyProduct`: both sides are the double sum of
      a[i][k] * b[k][j] * v[j] over k and j, grouped two ways. */
  lemma ApplyProductRow(a: Matrix, b: Matrix, v: Vec4f, i: nat)
    requires a.Valid() && b.Valid() && a.rows == 4 && a.cols == 4 && b.rows == 4 && b.cols == 4 && i < 4
    ensures Dot4(Product(a, b), i, v) == Dot4(a, i, Apply(b, v))
  {
    ProductRowDot(a, b, v, i);
    ApplyRowDot(a, b, v, i);
    SumOfProducts4(a.m[i][0], a.m[i][1], a.m[i][2], a.m[i][3], b.m, v);
  }

  /** Row i of a product applied to v, with the product's entries written out. */
  lemma ProductRowDot(a: Matrix, b: Matrix, v: Vec4f, i: nat)
    requires a.Valid() && b.Valid() && a.rows == 4 && a.cols == 4 && b.rows == 4 && b.cols == 4 && i < 4
    ensures Dot4(Product(a, b), i, v)
      == (a.m[i][0] * b.m[0][0] + a.m[i][1] * b.m[1][0] + a.m[i][2] * b.m[2][0] + a.m[i][3] * b.m[3][0]) * v[0]
       + (a.m[i][0] * b.m[0][1] + a.m[i][1] * b.m[1][1] + a.m[i][2] * b.m[2][1] + a.m[i][3] * b.m[3][1]) * v[1]
       + (a.m[i][0] * b.m[0][2] + a.m[i][1] * b.m[1][2] + a.m[i][2] * b.m[2][2] + a.m[i][3] * b.m[3][2]) * v[2]
       + (a.m[i][0] * b.m[0][3] + a.m[i][1] * b.m[1][3] + a.m[i][2] * b.m[2][3] + a.m[i][3] * b.m[3][3]) * v[3]
  {
    ProductFourByFour(a, b, i, 0);
    ProductFourByFour(a, b, i, 1);
    ProductFourByFour(a, b, i, 2);
    ProductFourByFour(a, b, i, 3);
  }

  /** Row i of a applied to `Apply(b, v)`, with the inner product written out. */
  lemma ApplyRowDot(a: Matrix, b: Matrix, v: Vec4f, i: nat)
    requires a.Valid() && b.Valid() && a.rows == 4 && a.cols == 4 && b.rows == 4 && b.cols == 4 && i < 4
    ensures Dot4(a, i, Apply(b, v))
      == a.m[i][0] * (b.m[0][0] * v[0] + b.m[0][1] * v[1] + b.m[0][2] * v[2] + b.m[0][3] * v[3])
       + a.m[i][1] * (b.m[1][0] * v[0] + b.m[1][1] * v[1] + b.m[1][2] * v[2] + b.m[1][3] * v[3])
       + a.m[i][2] * (b.m[2][0] * v[0] + b.m[2][1] * v[1] + b.m[2][2] * v[2] + b.m[2][3] * v[3])
       + a.m[i][3] * (b.m[3][0] * v[0] + b.m[3][1] * v[1] + b.m[3][2] * v[2] + b.m[3][3] * v[3])
  {
    var w := Apply(b, v);
    assert w[0] == Dot4(b, 0, v) && w[1] == Dot4(b, 1, v) && w[2] == Dot4(b, 2, v) && w[3] == Dot4(b, 3, v);
  }

  /** Reordering the double sum sum_j (sum_k x_k b_kj) v_j = sum_k x_k (sum_j b_kj v_j). */
  lemma SumOfProducts4(x0: real, x1: real, x2: real, x3: real, b: seq<seq<real>>, v: Vec4f)
    requires |b| == 4 && |b[0]| == 4 && |b[1]| == 4 && |b[2]| == 4 && |b[3]| == 4
    ensures (x0 * b[0][0] + x1 * b[1][0] + x2 * b[2][0] + x3 * b[3][0]) * v[0]
          + (x0 * b[0][1] + x1 * b[1][1] + x2 * b[2][1] + x3 * b[3][1]) * v[1]
          + (x0 * b[0][2] + x1 * b[1][2] + x2 * b[2][2] + x3 * b[3][2]) * v[2]
          + (x0 * b[0][3] + x1 * b[1][3] + x2 * b[2][3] + x3 * b[3][3]) * v[3]
         == x0 * (b[0][0] * v[0] + b[0][1] * v[1] + b[0][2] * v[2] + b[0][3] * v[3])
          + x1 * (b[1][0] * v[0] + b[1][1] * v[1] + b[1][2] * v[2] + b[1][3] * v[3])
          + x2 * (b[2][0] * v[0] + b[2][1] * v[1] + b[2][2] * v[2] + b[2][3] * v[3])
          + x3 * (b[3][0] * v[0] + b[3][1] * v[1] + b[3][2] * v[2] + b[3][3] * v[3])
  {
  }

  // ---------------------------------------------------------------------------
  // What the builders do to a point (x, y, z, 1)

  /** translation(v) moves a point by v and keeps w = 1. */
  lemma TranslationMovesPoint(t: Vec3f, p: Vec3f)
    ensures Apply(Translation(t), Embed(p)) == Embed(p.Plus(t))
  {
    var m, e := Translation(t), Embed(p);
    assert Dot4(m, 0, e) == p.x + t.x;
    assert Dot4(m, 1, e) == p.y + t.y;
    assert Dot4(m, 2, e) == p.z + t.z;
    assert Dot4(m, 3, e) == 1.0;
  }

  /** zoom(f) scales x, y and z by f and keeps w = 1. */
  lemma ZoomScalesPoint(f: real, p: Vec3f)
    ensures Apply(Zoom(f), Embed(p)) == Embed(p.Scale(f))
  {
    var m, e := Zoom(f), Embed(p);
    assert Dot4(m, 0, e) == p.x * f;
    assert Dot4(m, 1, e) == p.y * f;
    assert Dot4(m, 2, e) == p.z * f;
    assert Dot4(m, 3, e) == 1.0;
    var scaled := p.Scale(f);
    assert scaled.x == p.x * f && scaled.y == p.y * f && scaled.z == p.z * f;
    assert Apply(m, e) == Embed(scaled);
  }

  /** rotation_x(c, s) keeps x; with c^2 + s^2 = 1, rotation_x(c, -s) undoes it. */
  lemma RotationXRoundTrip(c: real, s: real, p: Vec3f)
    requires c * c + s * s == 1.0
    ensures Apply(RotationX(c, s), Embed(p))[0] == p.x
    ensures Apply(RotationX(c, -s), Apply(RotationX(c, s), Embed(p))) == Embed(p)
  {
    var y1 := c * p.y - s * p.z;
    var z1 := s * p.y + c * p.z;
    var e := Embed(p);
    var m1, m2 := RotationX(c, s), RotationX(c, -s);
    assert Dot4(m1, 0, e) == p.x && Dot4(m1, 1, e) == y1 && Dot4(m1, 2, e) == z1 && Dot4(m1, 3, e) == 1.0;
    var q := Apply(m1, e);
    RotateBack(c, s, p.y, p.z);
    assert Dot4(m2, 0, q) == p.x && Dot4(m2, 1, q) == p.y && Dot4(m2, 2, q) == p.z && Dot4(m2, 3, q) == 1.0;
  }

  /** rotation_y(c, s) keeps y; with c^2 + s^2 = 1, rotation_y(c, -s) undoes it. */
  lemma RotationYRoundTrip(c: real, s: real, p: Vec3f)
    requires c * c + s * s == 1.0
    ensures Apply(RotationY(c, s), Embed(p))[1] == p.y
    ensures Apply(RotationY(c, -s), Apply(RotationY(c, s), Embed(p))) == Embed(p)
  {
    var z1 := -s * p.x + c * p.z;
    var x1 := c * p.x + s * p.z;
    var e := Embed(p);
    var m1, m2 := RotationY(c, s), RotationY(c, -s);
    assert Dot4(m1, 0, e) == x1 && Dot4(m1, 1, e) == p.y && Dot4(m1, 2, e) == z1 && Dot4(m1, 3, e) == 1.0;
    var q := Apply(m1, e);
    RotateBack(c, s, p.z, p.x);
    assert Dot4(m2, 0, q) == p.x && Dot4(m2, 1, q) == p.y && Dot4(m2, 2, q) == p.z && Dot4(m2, 3, q) == 1.0;
  }

  /** rotation_z(c, s) keeps z; with c^2 + s^2 = 1, rotation_z(c, -s) undoes it. */
  lemma RotationZRoundTrip(c: real, s: real, p: Vec3f)
    requires c * c + s * s == 1.0
    ensures Apply(RotationZ(c, s), Embed(p))[2] == p.z
    ensures Apply(RotationZ(c, -s), Apply(RotationZ(c, s), Embed(p))) == Embed(p)
  {
    var x1 := c * p.x - s * p.y;
    var y1 := s * p.x + c * p.y;
    var e := Embed(p);
    var m1, m2 := RotationZ(c, s), RotationZ(c, -s);
    assert Dot4(m1, 0, e) == x1 && Dot4(m1, 1, e) == y1 && Dot4(m1, 2, e) == p.z && Dot4(m1, 3, e) == 1.0;
    var q := Apply(m1, e);
    RotateBack(c, s, p.x, p.y);
    assert Dot4(m2, 0, q) == p.x && Dot4(m2, 1, q) == p.y && Dot4(m2, 2, q) == p.z && Dot4(m2, 3, q) == 1.0;
  }

  /** The planar rotation by (c, s) followed by (c, -s) is the identity. */
  lemma RotateBack(c: real, s: real, u: real, w: real)
    requires c * c + s * s == 1.0
    ensures c * (c * u - s * w) + s * (s * u + c * w) == u
    ensures -s * (c * u - s * w) + c * (s * u + c * w) == w
  {
    calc {
      c * (c * u - s * w) + s * (s * u + c * w);
      (c * c + s * s) * u;
      u;
    }
    calc {
      -s * (c * u - s * w) + c * (s * u + c * w);
      (c * c + s * s) * w;
      w;
    }
  }

  // ---------------------------------------------------------------------------
  // The 4 x 4 inverse: M * inverse(M) = identity(4)

  /** The 3 x 3 determinant written out: rows (p0 p1 p2), (q0 q1 q2), (r0 r1 r2)
      expanded along the first row as determinantRecursive does. */
  function Det3(p0: real, p1: real, p2: real, q0: real, q1: real, q2: real, r0: real, r1: real, r2: real): real {
    p0 * (q1 * r2 - q2 * r1) - p1 * (q0 * r2 - q2 * r0) + p2 * (q0 * r1 - q1 * r0)
  }

  /** The 3 x 3 matrix made of rows p, q, r of a 4-column matrix without column k. */
  function Block(p: seq<real>, q: seq<real>, r: seq<real>, k: nat): (b: Matrix)
    requires |p| == 4 && |q| == 4 && |r| == 4 && k < 4
    ensures Square(b) && b.rows == 3
  {
    Matrix(3, 3, [[p[Skip(0, k)], p[Skip(1, k)], p[Skip(2, k)]],
                  [q[Skip(0, k)], q[Skip(1, k)], q[Skip(2, k)]],
                  [r[Skip(0, k)], r[Skip(1, k)], r[Skip(2, k)]]])
  }

  /** The determinant of the 4 x 4 matrix with rows x, p, q, r expanded along x:
      each x[k] against the alternately signed determinant of the other rows
      without column k. */
  function Expand4(x: seq<real>, p: seq<real>, q: seq<real>, r: seq<real>): real
    requires |x| == 4 && |p| == 4 && |q| == 4 && |r| == 4
  {
    x[0] * Det(Block(p, q, r, 0)) - x[1] * Det(Block(p, q, r, 1)) + x[2] * Det(Block(p, q, r, 2)) - x[3] * Det(Block(p, q, r, 3))
  }

  /** The 2 x 2 base case on the minor of the first row and column q of a 3 x 3 matrix. */
  lemma DetMinorOfThree(m: Matrix, q: nat)
    requires Square(m) && m.rows == 3 && q < 3
    ensures Det(Minor(m, 0, q)) == m.m[1][Skip(0, q)] * m.m[2][Skip(1, q)] - m.m[1][Skip(1, q)] * m.m[2][Skip(0, q)]
  {
    var mq := Minor(m, 0, q);
    assert mq.m[0][0] == m.m[1][Skip(0, q)] && mq.m[0][1] == m.m[1][Skip(1, q)];
    assert mq.m[1][0] == m.m[2][Skip(0, q)] && mq.m[1][1] == m.m[2][Skip(1, q)];
  }

  /** The three signed terms of a 3 x 3 expansion, accumulated from 0. */
  lemma SignedSum3(a0: real, a1: real, a2: real, d0: real, d1: real, d2: real)
    ensures ((0.0 + Sign(0) * a0 * d0) + Sign(1) * a1 * d1) + Sign(2) * a2 * d2 == a0 * d0 - a1 * d1 + a2 * d2
  {
  }

  /** determinantRecursive on a 3 x 3 matrix: the loop's three terms, each with
      a 2 x 2 base case. */
  lemma DetThreeByThree(m: Matrix)
    requires Square(m) && m.rows == 3
    ensures Det(m) == Det3(m.m[0][0], m.m[0][1], m.m[0][2], m.m[1][0], m.m[1][1], m.m[1][2], m.m[2][0], m.m[2][1], m.m[2][2])
  {
    var d0, d1, d2 := Det(Minor(m, 0, 0)), Det(Minor(m, 0, 1)), Det(Minor(m, 0, 2));
    DetMinorOfThree(m, 0);
    DetMinorOfThree(m, 1);
    DetMinorOfThree(m, 2);
    ExpansionNext(m, 0, d0);
    ExpansionNext(m, 1, d1);
    ExpansionNext(m, 2, d2);
    SignedSum3(m.m[0][0], m.m[0][1], m.m[0][2], d0, d1, d2);
  }

  /** A block's determinant written out. */
  lemma BlockDet(p: seq<real>, q: seq<real>, r: seq<real>, k: nat)
    requires |p| == 4 && |q| == 4 && |r| == 4 && k < 4
    ensures Det(Block(p, q, r, k)) == Det3(p[Skip(0, k)], p[Skip(1, k)], p[Skip(2, k)],
                                           q[Skip(0, k)], q[Skip(1, k)], q[Skip(2, k)],
                                           r[Skip(0, k)], r[Skip(1, k)], r[Skip(2, k)])
  {
    DetThreeByThree(Block(p, q, r, k));
  }

  /** The expansion along x with every 3 x 3 determinant written out. */
  function Written4(x: seq<real>, p: seq<real>, q: seq<real>, r: seq<real>): real
    requires |x| == 4 && |p| == 4 && |q| == 4 && |r| == 4
  {
    x[0] * Det3(p[1], p[2], p[3], q[1], q[2], q[3], r[1], r[2], r[3])
    - x[1] * Det3(p[0], p[2], p[3], q[0], q[2], q[3], r[0], r[2], r[3])
    + x[2] * Det3(p[0], p[1], p[3], q[0], q[1], q[3], r[0], r[1], r[3])
    - x[3] * Det3(p[0], p[1], p[2], q[0], q[1], q[2], r[0], r[1], r[2])
  }

  lemma ExpandWritten(x: seq<real>, p: seq<real>, q: seq<real>, r: seq<real>)
    requires |x| == 4 && |p| == 4 && |q| == 4 && |r| == 4
    ensures Expand4(x, p, q, r) == Written4(x, p, q, r)
  {
    BlockDet(p, q, r, 0);
    BlockDet(p, q, r, 1);
    BlockDet(p, q, r, 2);
    BlockDet(p, q, r, 3);
  }

  /** Swapping the row expanded along with the first of the others flips the sign. */
  lemma SwapExpandedRow(x: seq<real>, p: seq<real>, q: seq<real>, r: seq<real>)
    requires |x| == 4 && |p| == 4 && |q| == 4 && |r| == 4
    ensures Expand4(p, x, q, r) == -Expand4(x, p, q, r)
  {
    ExpandWritten(p, x, q, r);
    ExpandWritten(x, p, q, r);
    WrittenSwapExpandedRow(x, p, q, r);
  }

  /** Swapping the first two of the other rows flips the sign. */
  lemma SwapMinorFirstRows(x: seq<real>, p: seq<real>, q: seq<real>, r: seq<real>)
    requires |x| == 4 && |p| == 4 && |q| == 4 && |r| == 4
    ensures Expand4(x, q, p, r) == -Expand4(x, p, q, r)
  {
    ExpandWritten(x, q, p, r);
    ExpandWritten(x, p, q, r);
    WrittenSwapMinorFirstRows(x, p, q, r);
  }

  /** Swapping the last two of the other rows flips the sign. */
  lemma SwapMinorLastRows(x: seq<real>, p: seq<real>, q: seq<real>, r: seq<real>)
    requires |x| == 4 && |p| == 4 && |q| == 4 && |r| == 4
    ensures Expand4(x, p, r, q) == -Expand4(x, p, q, r)
  {
    ExpandWritten(x, p, r, q);
    ExpandWritten(x, p, q, r);
    WrittenSwapMinorLastRows(x, p, q, r);
  }

  lemma WrittenSwapExpandedRow(x: seq<real>, p: seq<real>, q: seq<real>, r: seq<real>)
    requires |x| == 4 && |p| == 4 && |q| == 4 && |r| == 4
    ensures Written4(p, x, q, r) == -Written4(x, p, q, r)
  {
    var q01, q02, q03 := q[0] * r[1] - q[1] * r[0], q[0] * r[2] - q[2] * r[0], q[0] * r[3] - q[3] * r[0];
    var q12, q13, q23 := q[1] * r[2] - q[2] * r[1], q[1] * r[3] - q[3] * r[1], q[2] * r[3] - q[3] * r[2];
    TwoRowLaplace(x[0], x[1], x[2], x[3], p[0], p[1], p[2], p[3], q01, q02, q03, q12, q13, q23);
    TwoRowLaplace(p[0], p[1], p[2], p[3], x[0], x[1], x[2], x[3], q01, q02, q03, q12, q13, q23);
  }

  /** The expansion along x of rows x, p, q, r regrouped by the 2 x 2 minors of
      x and p against the complementary 2 x 2 minors qmn of q and r: the
      Laplace expansion along the first two rows, which changes sign when x and
      p are exchanged. */
  lemma TwoRowLaplace(x0: real, x1: real, x2: real, x3: real, p0: real, p1: real, p2: real, p3: real,
                      q01: real, q02: real, q03: real, q12: real, q13: real, q23: real)
    ensures x0 * (p1 * q23 - p2 * q13 + p3 * q12) - x1 * (p0 * q23 - p2 * q03 + p3 * q02)
          + x2 * (p0 * q13 - p1 * q03 + p3 * q01) - x3 * (p0 * q12 - p1 * q02 + p2 * q01)
         == (x0 * p1 - x1 * p0) * q23 - (x0 * p2 - x2 * p0) * q13 + (x0 * p3 - x3 * p0) * q12
          + (x1 * p2 - x2 * p1) * q03 - (x1 * p3 - x3 * p1) * q02 + (x2 * p3 - x3 * p2) * q01
  {
  }

  lemma WrittenSwapMinorFirstRows(x: seq<real>, p: seq<real>, q: seq<real>, r: seq<real>)
    requires |x| == 4 && |p| == 4 && |q| == 4 && |r| == 4
    ensures Written4(x, q, p, r) == -Written4(x, p, q, r)
  {
  }

  lemma WrittenSwapMinorLastRows(x: seq<real>, p: seq<real>, q: seq<real>, r: seq<real>)
    requires |x| == 4 && |p| == 4 && |q| == 4 && |r| == 4
    ensures Written4(x, p, r, q) == -Written4(x, p, q, r)
  {
  }

  /** The four signed terms of a 4 x 4 expansion, accumulated from 0. */
  lemma SignedSum4(a0: real, a1: real, a2: real, a3: real, d0: real, d1: real, d2: real, d3: real)
    ensures (((0.0 + Sign(0) * a0 * d0) + Sign(1) * a1 * d1) + Sign(2) * a2 * d2) + Sign(3) * a3 * d3
      == a0 * d0 - a1 * d1 + a2 * d2 - a3 * d3
  {
  }

  /** The cofactor matrix (j, k) of a 4 x 4 matrix is the block of the three rows
      other than j without column k. */
  lemma MinorIsBlock(a: Matrix, j: nat, k: nat)
    requires Square(a) && a.rows == 4 && j < 4 && k < 4
    ensures Minor(a, j, k) == Block(a.m[Skip(0, j)], a.m[Skip(1, j)], a.m[Skip(2, j)], k)
  {
    Extensionality(Minor(a, j, k), Block(a.m[Skip(0, j)], a.m[Skip(1, j)], a.m[Skip(2, j)], k));
  }

  /** determinantRecursive on a 4 x 4 matrix is the expansion along its first row. */
  lemma DetFourByFour(a: Matrix)
    requires Square(a) && a.rows == 4
    ensures Det(a) == Expand4(a.m[0], a.m[1], a.m[2], a.m[3])
  {
    MinorIsBlock(a, 0, 0);
    MinorIsBlock(a, 0, 1);
    MinorIsBlock(a, 0, 2);
    MinorIsBlock(a, 0, 3);
    var d0, d1, d2, d3 := Det(Minor(a, 0, 0)), Det(Minor(a, 0, 1)), Det(Minor(a, 0, 2)), Det(Minor(a, 0, 3));
    ExpansionNext(a, 0, d0);
    ExpansionNext(a, 1, d1);
    ExpansionNext(a, 2, d2);
    ExpansionNext(a, 3, d3);
    SignedSum4(a.m[0][0], a.m[0][1], a.m[0][2], a.m[0][3], d0, d1, d2, d3);
  }

  /** The signed cofactor (j, k) of a 4 x 4 matrix: the determinant of the block
      of the other rows without column k, negated when j + k is odd. */
  lemma CofactorFourByFour(a: Matrix, j: nat, k: nat)
    requires Square(a) && a.rows == 4 && j < 4 && k < 4
    ensures var d := Det(Block(a.m[Skip(0, j)], a.m[Skip(1, j)], a.m[Skip(2, j)], k));
      Cofactor(a, j, k) == if (j % 2 == 0) == (k % 2 == 0) then d else -d
  {
    MinorIsBlock(a, j, k);
  }

  /** Four products with cofactors that equal the minors up to the
      alternating sign, which starts negative when `even` is false. */
  lemma SignedRow(x0: real, x1: real, x2: real, x3: real, m0: real, m1: real, m2: real, m3: real,
                  c0: real, c1: real, c2: real, c3: real, even: bool)
    requires c0 == (if even then m0 else -m0) && c1 == (if even then -m1 else m1)
    requires c2 == (if even then m2 else -m2) && c3 == (if even then -m3 else m3)
    ensures var e := x0 * m0 - x1 * m1 + x2 * m2 - x3 * m3;
      x0 * c0 + x1 * c1 + x2 * c2 + x3 * c3 == if even then e else -e
  {
  }

  /** Row i of a times column j of its adjugate is the expansion of row i
      against the cofactors of row j, negated when j is odd. */
  lemma RowAgainstCofactors(a: Matrix, i: nat, j: nat)
    requires Square(a) && a.rows == 4 && i < 4 && j < 4
    ensures var e := Expand4(a.m[i], a.m[Skip(0, j)], a.m[Skip(1, j)], a.m[Skip(2, j)]);
      a.m[i][0] * Cofactor(a, j, 0) + a.m[i][1] * Cofactor(a, j, 1) + a.m[i][2] * Cofactor(a, j, 2) + a.m[i][3] * Cofactor(a, j, 3)
      == if j % 2 == 0 then e else -e
  {
    var x, p, q, r := a.m[i], a.m[Skip(0, j)], a.m[Skip(1, j)], a.m[Skip(2, j)];
    CofactorFourByFour(a, j, 0);
    CofactorFourByFour(a, j, 1);
    CofactorFourByFour(a, j, 2);
    CofactorFourByFour(a, j, 3);
    SignedRow(x[0], x[1], x[2], x[3], Det(Block(p, q, r, 0)), Det(Block(p, q, r, 1)), Det(Block(p, q, r, 2)), Det(Block(p, q, r, 3)),
              Cofactor(a, j, 0), Cofactor(a, j, 1), Cofactor(a, j, 2), Cofactor(a, j, 3), j % 2 == 0);
  }

  /** Row i of a expanded against the other rows of row j, signed by j, is
      det(a) when i = j and 0 otherwise (then two of its rows are equal). */
  lemma ExpandAgainstRow(a: Matrix, i: nat, j: nat)
    requires Square(a) && a.rows == 4 && i < 4 && j < 4
    ensures var e := Expand4(a.m[i], a.m[Skip(0, j)], a.m[Skip(1, j)], a.m[Skip(2, j)]);
      (if j % 2 == 0 then e else -e) == if i == j then Expand4(a.m[0], a.m[1], a.m[2], a.m[3]) else 0.0
  {
    if i == j {
      ExpandDiagonal(a.m[0], a.m[1], a.m[2], a.m[3], j);
    } else {
      ExpandRepeated(a.m[i], a.m[Skip(0, j)], a.m[Skip(1, j)], a.m[Skip(2, j)], if i == Skip(0, j) then 0 else if i == Skip(1, j) then 1 else 2);
    }
  }

  /** Expanding along row j against the others in order, signed by j, gives the
      expansion along row 0. */
  lemma ExpandDiagonal(r0: seq<real>, r1: seq<real>, r2: seq<real>, r3: seq<real>, j: nat)
    requires |r0| == 4 && |r1| == 4 && |r2| == 4 && |r3| == 4 && j < 4
    ensures var rows := [r0, r1, r2, r3];
      var e := Expand4(rows[j], rows[Skip(0, j)], rows[Skip(1, j)], rows[Skip(2, j)]);
      (if j % 2 == 0 then e else -e) == Expand4(r0, r1, r2, r3)
  {
    if j == 1 {
      SwapExpandedRow(r1, r0, r2, r3);
    } else if j == 2 {
      SwapExpandedRow(r2, r0, r1, r3);
      SwapMinorFirstRows(r0, r1, r2, r3);
    } else if j == 3 {
      SwapExpandedRow(r3, r0, r1, r2);
      SwapMinorFirstRows(r0, r1, r3, r2);
      SwapMinorLastRows(r0, r1, r2, r3);
    }
  }

  /** An expansion in which the expanded row reappears among the others (at
      position t) is 0. */
  lemma ExpandRepeated(x: seq<real>, p: seq<real>, q: seq<real>, r: seq<real>, t: nat)
    requires |x| == 4 && |p| == 4 && |q| == 4 && |r| == 4 && t < 3
    requires x == [p, q, r][t]
    ensures Expand4(x, p, q, r) == 0.0
  {
    if t == 0 {
      SwapExpandedRow(x, x, q, r);
    } else if t == 1 {
      SwapMinorFirstRows(x, x, p, r);
      SwapExpandedRow(x, x, p, r);
    } else {
      SwapMinorLastRows(x, p, x, q);
      SwapMinorFirstRows(x, x, p, q);
      SwapExpandedRow(x, x, p, q);
    }
  }

  /** Row i of a against column j of its adjugate gives det(a) when i = j and
      0 otherwise; the column's entries, the cofactors of row j, are handed
      back so that callers need not mention them. */
  lemma AdjugateEntry(a: Matrix, i: nat, j: nat) returns (c0: real, c1: real, c2: real, c3: real)
    requires Square(a) && a.rows == 4 && i < 4 && j < 4
    ensures var adj := Adjugate(a);
      adj.m[0][j] == c0 && adj.m[1][j] == c1 && adj.m[2][j] == c2 && adj.m[3][j] == c3
    ensures a.m[i][0] * c0 + a.m[i][1] * c1 + a.m[i][2] * c2 + a.m[i][3] * c3
      == if i == j then Det(a) else 0.0
  {
    AdjugateColumn(a, j);
    CofactorRow(a, i, j);
    c0, c1, c2, c3 := Cofactor(a, j, 0), Cofactor(a, j, 1), Cofactor(a, j, 2), Cofactor(a, j, 3);
  }

  /** A common factor k taken out of a four-term sum. */
  lemma FactorOut(x0: real, x1: real, x2: real, x3: real, c0: real, c1: real, c2: real, c3: real, k: real)
    ensures x0 * (c0 * k) + x1 * (c1 * k) + x2 * (c2 * k) + x3 * (c3 * k) == (x0 * c0 + x1 * c1 + x2 * c2 + x3 * c3) * k
  {
  }

  /** Scaling the right factor of a 4 x 4 product scales each entry of the product. */
  lemma ProductScaledRight(a: Matrix, b: Matrix, k: real, i: nat, j: nat)
    requires Square(a) && Square(b) && a.rows == 4 && b.rows == 4 && i < 4 && j < 4
    ensures Product(a, Scaled(b, k)).m[i][j] == Product(a, b).m[i][j] * k
  {
    var s := Scaled(b, k);
    ProductFourByFour(a, s, i, j);
    ProductFourByFour(a, b, i, j);
    assert s.m[0][j] == b.m[0][j] * k && s.m[1][j] == b.m[1][j] * k;
    assert s.m[2][j] == b.m[2][j] * k && s.m[3][j] == b.m[3][j] * k;
    FactorOut(a.m[i][0], a.m[i][1], a.m[i][2], a.m[i][3], b.m[0][j], b.m[1][j], b.m[2][j], b.m[3][j], k);
  }

  /** Entry (i, j) of a 4 x 4 matrix times its adjugate is det(a) on the
      diagonal and 0 off it. */
  lemma AdjugateProductEntry(a: Matrix, i: nat, j: nat)
    requires Square(a) && a.rows == 4 && i < 4 && j < 4
    ensures Product(a, Adjugate(a)).m[i][j] == if i == j then Det(a) else 0.0
  {
    var c0, c1, c2, c3 := AdjugateEntry(a, i, j);
    ProductEntry(a, Adjugate(a), i, j, c0, c1, c2, c3, if i == j then Det(a) else 0.0);
  }

  /** Row i of a against the cofactors of row j. */
  lemma CofactorRow(a: Matrix, i: nat, j: nat)
    requires Square(a) && a.rows == 4 && i < 4 && j < 4
    ensures a.m[i][0] * Cofactor(a, j, 0) + a.m[i][1] * Cofactor(a, j, 1) + a.m[i][2] * Cofactor(a, j, 2) + a.m[i][3] * Cofactor(a, j, 3)
      == if i == j then Det(a) else 0.0
  {
    RowAgainstCofactors(a, i, j);
    ExpandAgainstRow(a, i, j);
    DetFourByFour(a);
  }

  /** Entry (i, j) of a 4 x 4 product from column j of b given entry by entry. */
  lemma ProductEntry(a: Matrix, b: Matrix, i: nat, j: nat, c0: real, c1: real, c2: real, c3: real, v: real)
    requires Square(a) && a.rows == 4 && Square(b) && b.rows == 4 && i < 4 && j < 4
    requires b.m[0][j] == c0 && b.m[1][j] == c1 && b.m[2][j] == c2 && b.m[3][j] == c3
    requires a.m[i][0] * c0 + a.m[i][1] * c1 + a.m[i][2] * c2 + a.m[i][3] * c3 == v
    ensures Product(a, b).m[i][j] == v
  {
    ProductFourByFour(a, b, i, j);
  }

  /** Column j of the adjugate of a 4 x 4 matrix holds the cofactors of row j. */
  lemma AdjugateColumn(a: Matrix, j: nat)
    requires Square(a) && a.rows == 4 && j < 4
    ensures var adj := Adjugate(a);
      adj.m[0][j] == Cofactor(a, j, 0) && adj.m[1][j] == Cofactor(a, j, 1)
      && adj.m[2][j] == Cofactor(a, j, 2) && adj.m[3][j] == Cofactor(a, j, 3)
  {
  }

  /** For every invertible 4 x 4 matrix the adjugate inverse is a right inverse. */
  lemma InverseFourByFour(a: Matrix)
    requires Square(a) && a.rows == 4 && Det(a) != 0.0
    ensures Product(a, Inverse(a)) == Identity(4)
  {
    var prod := Product(a, Inverse(a));
    forall i, j | 0 <= i < 4 && 0 <= j < 4
      ensures prod.m[i][j] == Identity(4).m[i][j]
    {
      InverseEntry(a, i, j);
    }
    Extensionality(prod, Identity(4));
  }

  /** Entry (i, j) of a 4 x 4 matrix times its inverse is 1 on the diagonal
      and 0 off it. */
  lemma InverseEntry(a: Matrix, i: nat, j: nat)
    requires Square(a) && a.rows == 4 && Det(a) != 0.0 && i < 4 && j < 4
    ensures Product(a, Inverse(a)).m[i][j] == if i == j then 1.0 else 0.0
  {
    var d := Det(a);
    ProductScaledRight(a, Adjugate(a), 1.0 / d, i, j);
    AdjugateProductEntry(a, i, j);
    DividedByDet(Product(a, Adjugate(a)).m[i][j], d, i == j);
  }

  /** det(a) / det(a) = 1 and 0 / det(a) = 0. */
  lemma DividedByDet(p: real, d: real, diagonal: bool)
    requires d != 0.0 && p == if diagonal then d else 0.0
    ensures p * (1.0 / d) == if diagonal then 1.0 else 0.0
  {
  }

  /** Column j of a 4 x 4 matrix. */
  function Column(c: Matrix, j: nat): (v: Vec4f)
    requires c.Valid() && c.rows == 4 && c.cols == 4 && j < 4
    ensures forall k :: 0 <= k < 4 ==> v[k] == c.m[k][j]
  {
    [c.m[0][j], c.m[1][j], c.m[2][j], c.m[3][j]]
  }

  /** Entry (i, j) of (a b) c and of a (b c): row i of a against column j of c
      through b, grouped two ways. */
  lemma AssociativeEntry(a: Matrix, b: Matrix, c: Matrix, i: nat, j: nat)
    requires Square(a) && Square(b) && Square(c) && a.rows == 4 && b.rows == 4 && c.rows == 4
    requires i < 4 && j < 4
    ensures Product(Product(a, b), c).m[i][j] == Product(a, Product(b, c)).m[i][j]
  {
    var ab, bc, v := Product(a, b), Product(b, c), Column(c, j);
    ProductFourByFour(ab, c, i, j);
    ProductFourByFour(a, bc, i, j);
    ColumnOfProduct(b, c, j);
    ApplyProductRow(a, b, v, i);
  }

  /** Column j of b c is b applied to column j of c. */
  lemma ColumnOfProduct(b: Matrix, c: Matrix, j: nat)
    requires Square(b) && Square(c) && b.rows == 4 && c.rows == 4 && j < 4
    ensures Apply(b, Column(c, j)) == Column(Product(b, c), j)
  {
    var v, bc := Column(c, j), Product(b, c);
    ProductFourByFour(b, c, 0, j);
    ProductFourByFour(b, c, 1, j);
    ProductFourByFour(b, c, 2, j);
    ProductFourByFour(b, c, 3, j);
    assert Dot4(b, 0, v) == bc.m[0][j] && Dot4(b, 1, v) == bc.m[1][j];
    assert Dot4(b, 2, v) == bc.m[2][j] && Dot4(b, 3, v) == bc.m[3][j];
  }

  /** The product of 4 x 4 matrices is associative. */
  lemma ProductAssociative(a: Matrix, b: Matrix, c: Matrix)
    requires Square(a) && Square(b) && Square(c) && a.rows == 4 && b.rows == 4 && c.rows == 4
    ensures Product(Product(a, b), c) == Product(a, Product(b, c))
  {
    forall i, j | 0 <= i < 4 && 0 <= j < 4
      ensures Product(Product(a, b), c).m[i][j] == Product(a, Product(b, c)).m[i][j]
    {
      AssociativeEntry(a, b, c, i, j);
    }
    Extensionality(Product(Product(a, b), c), Product(a, Product(b, c)));
  }

  /** Inverting twice gives the matrix back, for every invertible 4 x 4 matrix
      whose inverse is invertible in turn. */
  lemma InverseInvolution(a: Matrix)
    requires Square(a) && a.rows == 4 && Det(a) != 0.0
    requires Det(Inverse(a)) != 0.0
    ensures Inverse(Inverse(a)) == a
  {
    var b := Inverse(a);
    var c := Inverse(b);
    InverseFourByFour(a);
    InverseFourByFour(b);
    ProductAssociative(a, b, c);
    IdentityLeft(c);
    IdentityRight(a);
  }
}
