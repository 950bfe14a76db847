/** The integer containers of `org.umtools.math`: `IntVector` over an `int[]`
    and `IntMatrix` over a jagged `int[][]`, both implementations of the
    `NumpyClone` interface.

    Each class keeps the very array its constructor was given, so writes
    through `Set` are visible to whoever else holds that array. Reads and
    writes out of range raise `ArrayIndexOutOfBoundsException`, modelled as
    an error result. The four arithmetic operations are stubs that return
    `null`. */
module Math {
  import opened JavaLang

  /** A `NumpyClone<Integer>` reference: one of its two implementations. */
  datatype NumpyClone = VectorClone(vector: IntVector) | MatrixClone(matrix: IntMatrix)
  {
    /** `getRows()`, dispatched to the implementation. */
    function GetRows(): (r: int)
      reads if VectorClone? then {vector} else {matrix}
      ensures VectorClone? ==> r == 1
      ensures MatrixClone? ==> r == matrix.matrix.Length
    {
      match this
      case VectorClone(v) => v.GetRows()
      case MatrixClone(m) => m.GetRows()
    }

    /** `getCols()`, dispatched to the implementation; only a matrix without
        rows can fail. */
    function GetCols(): (r: Result<int, IndexOutOfBounds>)
      reads if VectorClone? then {vector} else {matrix, matrix.matrix}
      ensures VectorClone? ==> r == Ok(vector.arr.Length)
      ensures MatrixClone? ==> (r.Ok? <==> matrix.matrix.Length > 0)
      ensures MatrixClone? && r.Ok? ==> r.value == matrix.matrix[0].Length
    {
      match this
      case VectorClone(v) => Ok(v.GetCols())
      case MatrixClone(m) => m.GetCols()
    }
  }

  class IntVector {
    var arr: array<Int32>  // the Java field `array`

    /** Keeps the caller's array itself: no copy is made. */
    constructor (arr: array<Int32>)
      ensures this.arr == arr
    {
      this.arr := arr;
    }

    /** The stored elements. */
    function Elements(): (s: seq<Int32>)
      reads this, arr
      ensures |s| == arr.Length
    {
      arr[..]
    }

    /** `get(index)`: the element at `index`, or the index failure. */
    method Get(index: int) returns (r: Result<Int32, IndexOutOfBounds>)
      ensures 0 <= index < arr.Length ==> r == Ok(Elements()[index])
      ensures !(0 <= index < arr.Length) ==> r == Err(IndexOutOfBounds(index, arr.Length))
    {
      if !(0 <= index < arr.Length) {
        return Err(IndexOutOfBounds(index, arr.Length));
      }
      r := Ok(arr[index]);
    }

    /** `set(index, value)`: writes one element of the shared array in place;
        out of range, nothing is written. */
    method Set(index: int, value: Int32) returns (r: Outcome)
      modifies arr
      ensures 0 <= index < arr.Length ==> r == Done && Elements() == old(Elements())[index := value]
      ensures !(0 <= index < arr.Length) ==>
                r == Failed(IndexOutOfBounds(index, arr.Length)) && Elements() == old(Elements())
    {
      if !(0 <= index < arr.Length) {
        return Failed(IndexOutOfBounds(index, arr.Length));
      }
      arr[index] := value;
      r := Done;
    }

    /** `getRows()`: a vector is always one row. */
    function GetRows(): (r: int)
      ensures r == 1
    {
      1
    }

    /** `getCols()`: the length of the stored array, 0 when it is empty. */
    function GetCols(): (r: nat)
      reads this
      ensures r == arr.Length
    {
      arr.Length
    }

    /** `add`, `subtract`, `multiply` and `divide` are unimplemented: they
        return `null` whatever the argument, and change nothing. */
    method Add(nc: NumpyClone) returns (r: Option<NumpyClone>)
      ensures r == None
    {
      r := None;
    }

    method Subtract(nc: NumpyClone) returns (r: Option<NumpyClone>)
      ensures r == None
    {
      r := None;
    }

    method Multiply(nc: NumpyClone) returns (r: Option<NumpyClone>)
      ensures r == None
    {
      r := None;
    }

    method Divide(nc: NumpyClone) returns (r: Option<NumpyClone>)
      ensures r == None
    {
      r := None;
    }
  }

  class IntMatrix {
    var matrix: array<array<Int32>>

    /** Keeps the caller's array itself: no copy is made and the rows are
        not checked to have equal lengths. */
    constructor (matrix: array<array<Int32>>)
      ensures this.matrix == matrix
    {
      this.matrix := matrix;
    }

    /** No two rows are the same Java array. Java allows `m[0] == m[1]`, and
        then a write through one row shows in the other. */
    predicate DistinctRows()
      reads this, matrix
    {
      forall i, k :: 0 <= i < k < matrix.Length ==> matrix[i] != matrix[k]
    }

    /** `matrix[row][col]` is a legal access. */
    predicate InRange(row: int, col: int)
      reads this, matrix
    {
      0 <= row < matrix.Length && 0 <= col < matrix[row].Length
    }

    /** `get(row, col)`: the cell, or the failure of the first index that is
        out of range (the row is looked up before the column). */
    method Get(row: int, col: int) returns (r: Result<Int32, IndexOutOfBounds>)
      ensures InRange(row, col) ==> r == Ok(matrix[row][col])
      ensures !(0 <= row < matrix.Length) ==> r == Err(IndexOutOfBounds(row, matrix.Length))
      ensures 0 <= row < matrix.Length && !(0 <= col < matrix[row].Length) ==>
                r == Err(IndexOutOfBounds(col, matrix[row].Length))
    {
      if !(0 <= row < matrix.Length) {
        return Err(IndexOutOfBounds(row, matrix.Length));
      }
      var line := matrix[row];
      if !(0 <= col < line.Length) {
        return Err(IndexOutOfBounds(col, line.Length));
      }
      r := Ok(line[col]);
    }

    /** `set(row, col, value)`: writes one cell of the row array in place.
        Only that row array is touched, so the row count and every row length
        stay as they were; a cell of another row changes only when that row
        is the same Java array. Out of range, nothing is written. */
    method Set(row: int, col: int, value: Int32) returns (r: Outcome)
      modifies if 0 <= row < matrix.Length then {matrix[row]} else {}
      ensures r.Done? <==> old(InRange(row, col))
      ensures !(0 <= row < matrix.Length) ==> r == Failed(IndexOutOfBounds(row, matrix.Length))
      ensures 0 <= row < matrix.Length && !(0 <= col < matrix[row].Length) ==>
                r == Failed(IndexOutOfBounds(col, matrix[row].Length))
      ensures r.Done? ==> matrix[row][col] == value
      ensures forall i, j :: 0 <= i < matrix.Length && 0 <= j < matrix[i].Length ==>
                matrix[i][j] == if r.Done? && matrix[i] == matrix[row] && j == col then value
                                else old(matrix[i][j])
      ensures old(DistinctRows()) ==>
                forall i, j :: 0 <= i < matrix.Length && 0 <= j < matrix[i].Length && (i != row || j != col) ==>
                  matrix[i][j] == old(matrix[i][j])
    {
      if !(0 <= row < matrix.Length) {
        return Failed(IndexOutOfBounds(row, matrix.Length));
      }
      var line := matrix[row];
      if !(0 <= col < line.Length) {
        return Failed(IndexOutOfBounds(col, line.Length));
      }
      line[col] := value;
      r := Done;
    }

    /** `getRows()`: the number of rows of the stored array. */
    function GetRows(): (r: nat)
      reads this
      ensures r == matrix.Length
    {
      matrix.Length
    }

    /** `getCols()`: the length of row 0 only, whatever the other rows hold;
        without rows, `matrix[0]` fails. */
    function GetCols(): (r: Result<int, IndexOutOfBounds>)
      reads this, matrix
      ensures matrix.Length > 0 ==> r == Ok(matrix[0].Length)
      ensures matrix.Length == 0 ==> r == Err(IndexOutOfBounds(0, 0))
    {
      if matrix.Length == 0 then Err(IndexOutOfBounds(0, 0)) else Ok(matrix[0].Length)
    }

    /** The four stubs, as in `IntVector`. */
    method Add(nc: NumpyClone) returns (r: Option<NumpyClone>)
      ensures r == None
    {
      r := None;
    }

    method Subtract(nc: NumpyClone) returns (r: Option<NumpyClone>)
      ensures r == None
    {
      r := None;
    }

    method Multiply(nc: NumpyClone) returns (r: Option<NumpyClone>)
      ensures r == None
    {
      r := None;
    }

    method Divide(nc: NumpyClone) returns (r: Option<NumpyClone>)
      ensures r == None
    {
      r := None;
    }
  }

  /** A write through an `IntVector` is read back by its `Get`, and is seen
      in the caller's own array, which the vector shares. */
  method VectorSetThenGet(caller: array<Int32>, index: int, value: Int32) returns (v: IntVector, got: Result<Int32, IndexOutOfBounds>)
    requires 0 <= index < caller.Length
    modifies caller
    ensures got == Ok(value) && caller[index] == value
    ensures forall k :: 0 <= k < caller.Length && k != index ==> caller[k] == old(caller[k])
  {
    v := new IntVector(caller);
    var done := v.Set(index, value);
    got := v.Get(index);
  }

  /** The same for an `IntMatrix` whose rows are distinct arrays: the written
      cell reads back, the caller's rows show it, and no other cell moves. */
  method MatrixSetThenGet(caller: array<array<Int32>>, row: int, col: int, value: Int32)
    returns (m: IntMatrix, got: Result<Int32, IndexOutOfBounds>)
    requires 0 <= row < caller.Length && 0 <= col < caller[row].Length
    requires forall i, k :: 0 <= i < k < caller.Length ==> caller[i] != caller[k]
    modifies caller[row]
    ensures got == Ok(value) && caller[row][col] == value
    ensures forall i, j :: 0 <= i < caller.Length && 0 <= j < caller[i].Length && (i, j) != (row, col) ==>
              caller[i][j] == old(caller[i][j])
  {
    m := new IntMatrix(caller);
    var done := m.Set(row, col, value);
    got := m.Get(row, col);
  }
}
