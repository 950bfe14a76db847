/** The validation layer of `org.umtools.util.Asserts`.

    Every check evaluates one condition and hands it to `IsTrue`, together
    with the exception class the caller wants raised and a message. A check
    never changes its arguments: the int checks and the 1-D shape checks are
    functions without a `reads` clause (they see only values and array
    lengths, never array contents), and the 2-D scans are methods without a
    `modifies` clause. */
module Asserts {

  /** A `Class<? extends Exception>` as far as `isTrue` can tell: whether it
      is a subtype of `RuntimeException`, and whether reflection can create an
      instance through a public constructor taking one `String`. */
  datatype ExceptionClass = ExceptionClass(name: string, isRuntime: bool, instantiable: bool)

  const RuntimeException := ExceptionClass("java.lang.RuntimeException", true, true)

  /** The message of the exception that always escapes a failed check. */
  const WrapperMessage := "Failed to throw exception"

  /** What `isTrue` caught inside its own `try` block, which becomes the
      cause of the exception that escapes. */
  datatype Cause =
    | Created(cls: ExceptionClass, message: string)  // the requested exception, thrown and caught
    | NotInstantiable(cls: ExceptionClass)           // reflection found no usable (String) constructor
    | NotRuntime(cls: ExceptionClass)                // the `(RuntimeException)` cast failed

  /** The result of a check: it returns normally, or an exception escapes. */
  datatype Check = Passed | Raised(cls: ExceptionClass, message: string, cause: Cause)

  /** What the `try` block at the heart of `isTrue` throws for `clazz`. */
  function Attempt(clazz: ExceptionClass, message: string): Cause
  {
    if !clazz.instantiable then NotInstantiable(clazz)
    else if !clazz.isRuntime then NotRuntime(clazz)
    else Created(clazz, message)
  }

  /** `isTrue`: nothing happens when the condition holds. Otherwise the
      exception the caller asked for is thrown inside a `try` whose `catch`
      takes every `Exception`, so what escapes is always a new
      `RuntimeException("Failed to throw exception")`; the requested
      exception is only its cause, and only when the class could be
      instantiated and cast to `RuntimeException`. */
  function IsTrue(condition: bool, clazz: ExceptionClass, message: string): (r: Check)
    ensures r.Passed? <==> condition
    ensures r.Raised? ==> r.cls == RuntimeException && r.message == WrapperMessage
    ensures r.Raised? ==> r.cause.cls == clazz
    ensures r.Raised? ==> (r.cause.Created? <==> clazz.instantiable && clazz.isRuntime)
    ensures r.Raised? && r.cause.Created? ==> r.cause.message == message
    ensures r.Raised? && !clazz.instantiable ==> r.cause == NotInstantiable(clazz)
    ensures r.Raised? && clazz.instantiable && !clazz.isRuntime ==> r.cause == NotRuntime(clazz)
  {
    if condition then Passed else Raised(RuntimeException, WrapperMessage, Attempt(clazz, message))
  }

  /** The one failure every check below can produce. */
  function Failure(clazz: ExceptionClass, message: string): Check
  {
    IsTrue(false, clazz, message)
  }

  // ========================= Dimension checks =========================

  /** Two jagged 2-D arrays have the same shape: the same number of rows,
      and rows of equal length at every index. */
  predicate SameShape<T>(matrix1: array<array<T>>, matrix2: array<array<T>>)
    reads matrix1, matrix2
  {
    matrix1.Length == matrix2.Length &&
    forall i :: 0 <= i < matrix1.Length ==> matrix1[i].Length == matrix2[i].Length
  }

  /** `sameDimension(int[][], int[][])` and its `double[][]` overload: the row
      counts are compared first, then the rows one by one, stopping at the
      first mismatch. */
  method SameDimension2D<T>(matrix1: array<array<T>>, matrix2: array<array<T>>,
                            clazz: ExceptionClass, message: string) returns (r: Check)
    ensures r.Passed? <==> SameShape(matrix1, matrix2)
    ensures r.Raised? ==> r == Failure(clazz, message)
  {
    r := EqualInt(matrix1.Length, matrix2.Length, clazz, message);
    if r.Raised? {
      return;
    }
    var i := 0;
    while i < matrix1.Length
      invariant 0 <= i <= matrix1.Length
      invariant forall k :: 0 <= k < i ==> matrix1[k].Length == matrix2[k].Length
      invariant r == Passed
    {
      r := EqualInt(matrix1[i].Length, matrix2[i].Length, clazz, message);
      if r.Raised? {
        return;
      }
      i := i + 1;
    }
  }

  /** `sameDimension(int[], int[])` and its `double[]` overload: only the
      lengths are compared (there is no `reads` clause, so the contents
      cannot matter). */
  function SameDimension<T>(first: array<T>, second: array<T>,
                            clazz: ExceptionClass, message: string): (r: Check)
    ensures r.Passed? <==> first.Length == second.Length
    ensures r.Raised? ==> r == Failure(clazz, message)
  {
    EqualInt(first.Length, second.Length, clazz, message)
  }

  /** Every row of `matrix` is exactly as long as `vector`. */
  predicate ColumnsMatch<T>(vector: array<T>, matrix: array<array<T>>)
    reads matrix
  {
    forall i :: 0 <= i < matrix.Length ==> matrix[i].Length == vector.Length
  }

  /** `sameColumns(int[], int[][])` and its `double[]` overload: a scan over
      the rows, failing at the first row whose length differs from the
      vector's; a matrix without rows passes. */
  method SameColumns<T>(vector: array<T>, matrix: array<array<T>>,
                        clazz: ExceptionClass, message: string) returns (r: Check)
    ensures r.Passed? <==> ColumnsMatch(vector, matrix)
    ensures r.Raised? ==> r == Failure(clazz, message)
  {
    r := Passed;
    var i := 0;
    while i < matrix.Length
      invariant 0 <= i <= matrix.Length
      invariant forall k :: 0 <= k < i ==> matrix[k].Length == vector.Length
      invariant r == Passed
    {
      r := EqualInt(vector.Length, matrix[i].Length, clazz, message);
      if r.Raised? {
        return;
      }
      i := i + 1;
    }
  }

  // ========================= Comparison checks =========================

  function EqualInt(value: int, target: int, clazz: ExceptionClass, message: string): (r: Check)
    ensures r.Passed? <==> value == target
    ensures r.Raised? ==> r == Failure(clazz, message)
  {
    IsTrue(value == target, clazz, message)
  }

  function SmallerThan(value: int, target: int, clazz: ExceptionClass, message: string): (r: Check)
    ensures r.Passed? <==> value < target
    ensures r.Raised? ==> r == Failure(clazz, message)
  {
    IsTrue(value < target, clazz, message)
  }

  function GreaterThan(value: int, target: int, clazz: ExceptionClass, message: string): (r: Check)
    ensures r.Passed? <==> value > target
    ensures r.Raised? ==> r == Failure(clazz, message)
  {
    IsTrue(value > target, clazz, message)
  }

  function Geq(value: int, target: int, clazz: ExceptionClass, message: string): (r: Check)
    ensures r.Passed? <==> value >= target
    ensures r.Raised? ==> r == Failure(clazz, message)
  {
    IsTrue(value >= target, clazz, message)
  }

  function Leq(value: int, target: int, clazz: ExceptionClass, message: string): (r: Check)
    ensures r.Passed? <==> value <= target
    ensures r.Raised? ==> r == Failure(clazz, message)
  {
    IsTrue(value <= target, clazz, message)
  }

  /** Both bounds inclusive. */
  function Between(value: int, startInclusive: int, endInclusive: int,
                   clazz: ExceptionClass, message: string): (r: Check)
    ensures r.Passed? <==> startInclusive <= value <= endInclusive
    ensures r.Raised? ==> r == Failure(clazz, message)
  {
    IsTrue(value >= startInclusive && value <= endInclusive, clazz, message)
  }

  /** Both bounds exclusive, so both endpoints fail. */
  function BetweenExclusive(value: int, startExclusive: int, endExclusive: int,
                            clazz: ExceptionClass, message: string): (r: Check)
    ensures r.Passed? <==> startExclusive < value < endExclusive
    ensures r.Raised? ==> r == Failure(clazz, message)
    ensures value == startExclusive || value == endExclusive ==> r == Failure(clazz, message)
  {
    IsTrue(value > startExclusive && value < endExclusive, clazz, message)
  }

  /** Over the unbounded integers (Java's `s + 1` and `e - 1` would wrap at
      the ends of `int`), the exclusive range (s, e) is the inclusive range
      [s + 1, e - 1], and the two checks raise the same failure. */
  lemma BetweenExclusiveIsNarrowedBetween(value: int, s: int, e: int, clazz: ExceptionClass, message: string)
    ensures BetweenExclusive(value, s, e, clazz, message) == Between(value, s + 1, e - 1, clazz, message)
  {
  }

  // ========================= Emptiness checks =========================

  /** `isEmpty(int[])`, `isEmpty(double[])` and `isEmpty(Object[])`:
      a `null` array counts as empty. */
  function IsEmpty<T>(arr: array?<T>, clazz: ExceptionClass, message: string): (r: Check)
    ensures r.Passed? <==> arr == null || arr.Length == 0
    ensures r.Raised? ==> r == Failure(clazz, message)
  {
    IsTrue(arr == null || arr.Length == 0, clazz, message)
  }

  /** The three `isNotEmpty` array overloads: exactly the arrays `IsEmpty`
      rejects pass. */
  function IsNotEmpty<T>(arr: array?<T>, clazz: ExceptionClass, message: string): (r: Check)
    ensures r.Passed? <==> arr != null && arr.Length > 0
    ensures r.Passed? <==> IsEmpty(arr, clazz, message).Raised?
    ensures r.Raised? ==> r == Failure(clazz, message)
  {
    IsTrue(arr != null && arr.Length > 0, clazz, message)
  }

  // ========================= Positivity checks =========================

  function IsNonNegative(number: int, clazz: ExceptionClass, message: string): (r: Check)
    ensures r.Passed? <==> number >= 0
    ensures r.Raised? ==> r == Failure(clazz, message)
  {
    IsTrue(number >= 0, clazz, message)
  }

  function IsPositive(number: int, clazz: ExceptionClass, message: string): (r: Check)
    ensures r.Passed? <==> number > 0
    ensures r.Raised? ==> r == Failure(clazz, message)
  {
    IsTrue(number > 0, clazz, message)
  }

  // ========================= Null checks =========================

  function IsNotNull(obj: object?, clazz: ExceptionClass, message: string): (r: Check)
    ensures r.Passed? <==> obj != null
    ensures r.Raised? ==> r == Failure(clazz, message)
  {
    IsTrue(obj != null, clazz, message)
  }

  function IsNull(obj: object?, clazz: ExceptionClass, message: string): (r: Check)
    ensures r.Passed? <==> obj == null
    ensures r.Raised? ==> r == Failure(clazz, message)
  {
    IsTrue(obj == null, clazz, message)
  }

  // ========================= Properties of the failure =========================

  /** Whatever class the caller names, a failed check lets only a
      `RuntimeException` escape. For a class that is not a `RuntimeException`
      subtype (a checked exception such as `java.io.IOException`), the cause
      is never the requested exception, the instance its `String`
      constructor would create: it is the failed cast when
      the class has a usable `String` constructor, and the reflection failure
      when it has none. */
  lemma CheckedClassIsNeverRaised(clazz: ExceptionClass, message: string)
    requires !clazz.isRuntime
    ensures Failure(clazz, message).cls == RuntimeException
    ensures !Failure(clazz, message).cause.Created?
    ensures clazz.instantiable ==> Failure(clazz, message).cause == NotRuntime(clazz)
    ensures !clazz.instantiable ==> Failure(clazz, message).cause == NotInstantiable(clazz)
  {
  }
}
