# um-tools core in Dafny

A Dafny model of the parts of the `org.umtools` Java utilities that carry
checkable behaviour:

- **`Asserts`** (`asserts.dfy`): the validation layer. Each check evaluates a
  condition and passes it to `isTrue` with the exception class the caller
  wants raised and a message. A check returns `Passed`, or `Raised(cls,
  message, cause)` for the exception that escapes. Because `isTrue` throws the
  requested exception inside a `try` whose `catch` takes every `Exception`,
  what escapes is always a fresh `RuntimeException("Failed to throw
  exception")`. The requested exception appears only as its cause, and only
  when its class can be created through a `String` constructor and cast to
  `RuntimeException`. For a checked exception class that has a usable
  `String` constructor the cast fails, so the cause is the
  `ClassCastException`; for a class without one the cause is the reflection
  failure. Either way the requested exception is never thrown and is never
  the cause: a checked class with a `String` constructor is instantiated and
  then discarded when the cast fails. The
  exception class is a value (`ExceptionClass`) that records the two facts
  `isTrue` depends on. The 2-D `sameDimension` and `sameColumns` scans are
  loops, modelled as methods that read the arrays and modify nothing. The
  other checks are functions without a `reads` clause, so they cannot depend
  on array contents.
- **`IntVector` and `IntMatrix`** (`math.dfy`): classes over `array<Int32>`
  and `array<array<Int32>>`. The constructor keeps the caller's array itself,
  so writes through `Set` are seen by the caller. There is no rectangularity
  check, and rows of the matrix may even be one and the same Java array;
  `IntMatrix.Set` states its effect cell by cell with that aliasing taken into
  account. Out-of-range `get`/`set` return the `ArrayIndexOutOfBoundsException`
  as an error value and leave the arrays unchanged. `add`, `subtract`,
  `multiply` and `divide` return `null` (`None`) and change nothing. The
  `NumpyClone` interface is the datatype `NumpyClone`, with one variant per
  implementation and dispatching `GetRows`/`GetCols`.
- **`ArrayUtils.swap`** (`array_utils.dfy`): one generic in-place method for
  the `int[]` and `double[]` overloads, specified by the function `Swapped`.
- **`FileUtils` string helpers** (`file_utils.dfy`): `getExtension` and
  `getFileName`, both "the text after the last occurrence of a character",
  and `dir`, a `String.join` whose separator (`File.separator` in Java) is a
  parameter.

`java_lang.dfy` holds the 32-bit `Int32`, `Option` for `null` results,
`Result`/`Outcome`, and the index failure.

The containers alias the caller's array, accept jagged arrays, and return
`null` from all four arithmetic operations.

## Model

| member | source | states |
|---|---|---|
| Asserts.IsTrue | src/main/java/org/umtools/util/Asserts.java:175-183 | passes exactly when the condition holds; a failure is always a `RuntimeException` with message "Failed to throw exception"; its cause is the requested exception with the caller's message exactly when the class is instantiable and a `RuntimeException` subtype, the reflection failure when the class is not instantiable, and the cast failure when it is instantiable but checked |
| Asserts.CheckedClassIsNeverRaised | src/main/java/org/umtools/util/Asserts.java:177-181 | for a class that is not a `RuntimeException` subtype, the escaping exception is a `RuntimeException` whose cause is never the requested exception (the instance the `String` constructor would create): it is the cast failure when the class has a usable `String` constructor and the reflection failure otherwise |
| Asserts.SameDimension2D | src/main/java/org/umtools/util/Asserts.java:24-29 | passes iff the row counts are equal and row i has the same length in both, for every i; the row count is compared before any row is indexed; a failure is the `isTrue` failure for the caller's class and message (also the `double[][]` overload, lines 31-36) |
| Asserts.SameDimension | src/main/java/org/umtools/util/Asserts.java:38-40 | passes iff the two lengths are equal; contents are never read (also the `double[]` overload, lines 42-44) |
| Asserts.SameColumns | src/main/java/org/umtools/util/Asserts.java:46-50 | passes iff every row of the matrix is as long as the array, so a matrix without rows passes (also the `double` overload, lines 52-56) |
| Asserts.EqualInt | src/main/java/org/umtools/util/Asserts.java:59-61 | passes iff value == target; otherwise raises the `isTrue` failure |
| Asserts.SmallerThan | src/main/java/org/umtools/util/Asserts.java:67-69 | passes iff value < target |
| Asserts.GreaterThan | src/main/java/org/umtools/util/Asserts.java:71-73 | passes iff value > target |
| Asserts.Geq | src/main/java/org/umtools/util/Asserts.java:83-85 | passes iff value >= target |
| Asserts.Leq | src/main/java/org/umtools/util/Asserts.java:87-89 | passes iff value <= target |
| Asserts.Between | src/main/java/org/umtools/util/Asserts.java:99-101 | passes iff start <= value <= end, both bounds inclusive |
| Asserts.BetweenExclusive | src/main/java/org/umtools/util/Asserts.java:107-109 | passes iff start < value < end; fails at both endpoints |
| Asserts.BetweenExclusiveIsNarrowedBetween | src/main/java/org/umtools/util/Asserts.java:99-109 | on unbounded integers, the exclusive check on (s, e) gives the same result as the inclusive check on [s + 1, e - 1] |
| Asserts.IsEmpty | src/main/java/org/umtools/util/Asserts.java:124-126 | passes iff the array is null or has length 0 (also the `double[]` and `Object[]` overloads, lines 132-134 and 140-142) |
| Asserts.IsNotEmpty | src/main/java/org/umtools/util/Asserts.java:128-130 | passes iff the array is non-null with length > 0, which is exactly when `IsEmpty` raises (also lines 136-138 and 144-146) |
| Asserts.IsNonNegative | src/main/java/org/umtools/util/Asserts.java:157-159 | passes iff number >= 0 |
| Asserts.IsPositive | src/main/java/org/umtools/util/Asserts.java:161-163 | passes iff number > 0 |
| Asserts.IsNotNull | src/main/java/org/umtools/util/Asserts.java:166-168 | passes iff the reference is not null |
| Asserts.IsNull | src/main/java/org/umtools/util/Asserts.java:170-172 | passes iff the reference is null |
| Math.NumpyClone.GetRows | src/main/java/org/umtools/math/NumpyClone.java:4 | a vector reports 1 row, a matrix the length of its stored array |
| Math.NumpyClone.GetCols | src/main/java/org/umtools/math/NumpyClone.java:6 | a vector reports its length; a matrix reports a width exactly when it has a row, and that width is the length of row 0 |
| Math.IntVector.constructor | src/main/java/org/umtools/math/IntVector.java:6-8 | the vector holds the caller's array itself, not a copy |
| Math.IntVector.Get | src/main/java/org/umtools/math/IntVector.java:10-12 | returns the element at i when 0 <= i < length, otherwise the index failure for i and the length |
| Math.IntVector.Set | src/main/java/org/umtools/math/IntVector.java:14-16 | in range, the contents become the old contents with index i replaced by v (length and other elements unchanged); out of range, the index failure and nothing changes |
| Math.IntVector.GetRows | src/main/java/org/umtools/math/IntVector.java:18-21 | always 1, whatever the array |
| Math.IntVector.GetCols | src/main/java/org/umtools/math/IntVector.java:23-26 | the stored array's length, 0 for an empty array |
| Math.IntVector.Add | src/main/java/org/umtools/math/IntVector.java:28-31 | returns null for every argument and modifies nothing |
| Math.IntVector.Subtract | src/main/java/org/umtools/math/IntVector.java:33-36 | returns null for every argument and modifies nothing |
| Math.IntVector.Multiply | src/main/java/org/umtools/math/IntVector.java:38-41 | returns null for every argument and modifies nothing |
| Math.IntVector.Divide | src/main/java/org/umtools/math/IntVector.java:43-46 | returns null for every argument and modifies nothing |
| Math.VectorSetThenGet | src/main/java/org/umtools/math/IntVector.java:6-16 | a vector built on the caller's array, after `set(i, v)`, answers `get(i)` with v; the caller's array shows v at i and is unchanged elsewhere |
| Math.IntMatrix.constructor | src/main/java/org/umtools/math/IntMatrix.java:6-8 | the matrix holds the caller's array itself, without copying or checking rectangularity |
| Math.IntMatrix.Get | src/main/java/org/umtools/math/IntMatrix.java:10-12 | returns cell (r, c) when 0 <= r < rows and 0 <= c < length of row r; otherwise the failure of the row index, or of the column index against that row's length |
| Math.IntMatrix.Set | src/main/java/org/umtools/math/IntMatrix.java:14-16 | succeeds exactly in range; then cell (r, c) holds v, the row count and row lengths are unchanged, and any other cell changes only if its row is the same Java array as row r; with distinct rows no other cell changes; out of range, nothing changes |
| Math.IntMatrix.GetRows | src/main/java/org/umtools/math/IntMatrix.java:18-21 | the number of rows of the stored array |
| Math.IntMatrix.GetCols | src/main/java/org/umtools/math/IntMatrix.java:23-26 | the length of row 0 only (the first row's width on a jagged array); without rows, the index failure for index 0 |
| Math.IntMatrix.Add | src/main/java/org/umtools/math/IntMatrix.java:28-31 | returns null for every argument and modifies nothing |
| Math.IntMatrix.Subtract | src/main/java/org/umtools/math/IntMatrix.java:33-36 | returns null for every argument and modifies nothing |
| Math.IntMatrix.Multiply | src/main/java/org/umtools/math/IntMatrix.java:38-41 | returns null for every argument and modifies nothing |
| Math.IntMatrix.Divide | src/main/java/org/umtools/math/IntMatrix.java:43-46 | returns null for every argument and modifies nothing |
| Math.MatrixSetThenGet | src/main/java/org/umtools/math/IntMatrix.java:6-16 | a matrix built on the caller's rows (distinct arrays), after `set(r, c, v)`, answers `get(r, c)` with v; the caller's row shows v and no other cell changes |
| ArrayUtils.Swapped | src/main/java/org/umtools/util/ArrayUtils.java:16-20 | the exchanged sequence: same length, position i holds the old j-th element, j the old i-th, every other position unchanged |
| ArrayUtils.SwappedSelf | src/main/java/org/umtools/util/ArrayUtils.java:16-20 | swapping a position with itself changes nothing |
| ArrayUtils.SwappedTwice | src/main/java/org/umtools/util/ArrayUtils.java:16-20 | swapping the same pair twice restores the original |
| ArrayUtils.SwappedPermutes | src/main/java/org/umtools/util/ArrayUtils.java:16-20 | the multiset of elements is preserved |
| ArrayUtils.Swap | src/main/java/org/umtools/util/ArrayUtils.java:16-20 | with both indices in range, the array becomes `Swapped` of its old contents; an out-of-range i (checked first) or j gives the index failure with the array unchanged; the multiset is always preserved (also the `double[]` overload, lines 29-33) |
| FileUtils.LastIndexOf | src/main/java/org/umtools/util/FileUtils.java:76 | `lastIndexOf` of one character: -1 exactly when it does not occur, otherwise an index holding it with no later occurrence |
| FileUtils.AfterLast | src/main/java/org/umtools/util/FileUtils.java:75-77 | the result is a suffix of the input without the character, preceded in the input by that character when it occurs, and the whole input when it does not |
| FileUtils.GetExtension | src/main/java/org/umtools/util/FileUtils.java:75-77 | a suffix of the name containing no '.', immediately after the last '.'; the whole name when there is no '.', so "" for a name ending in '.' |
| FileUtils.GetFileName | src/main/java/org/umtools/util/FileUtils.java:86-88 | a suffix of the path containing no '/', immediately after the last '/'; the whole path when there is no '/', so "" for a trailing '/' |
| FileUtils.AfterLastIdempotent | src/main/java/org/umtools/util/FileUtils.java:75-88 | taking the suffix after the last occurrence twice gives the same as once |
| FileUtils.GetExtensionIdempotent | src/main/java/org/umtools/util/FileUtils.java:75-77 | `getExtension` is idempotent |
| FileUtils.GetFileNameIdempotent | src/main/java/org/umtools/util/FileUtils.java:86-88 | `getFileName` is idempotent |
| FileUtils.BackslashIsNotASeparator | src/main/java/org/umtools/util/FileUtils.java:87 | only '/' splits: for every p and every q without '/', the file name of p + "/" + q is q, and q alone comes back whole, whatever '\\' characters q holds |
| FileUtils.Dir | src/main/java/org/umtools/util/FileUtils.java:64-66 | no parts give "", one part gives that part, n >= 1 parts give a string as long as the parts plus n - 1 separators |
| FileUtils.DirSplitRoundTrip | src/main/java/org/umtools/util/FileUtils.java:64-66 | with a one-character separator that occurs in no part, splitting the joined string on it gives back the parts in order |

## Left out

- Null arguments, which Java meets with a `NullPointerException`: all Dafny
  arrays and strings here are non-null, except the arrays of
  `isEmpty`/`isNotEmpty` and the references of `isNull`/`isNotNull`, which
  handle null. Not modelled, case by case:
  - `sameDimension` with a null array or a null row throws.
  - `sameColumns` with a null matrix or a null row throws. A null `array`
    throws only when the matrix has a row, because its length is read inside
    the loop; with a zero-row matrix the check passes.
  - `swap` with a null array throws on the first read, before any write.
  - `getExtension`/`getFileName` with a null string throw.
  - `dir` with a null `paths` array throws; null elements are written as
    "null" by `String.join`.
  - The `IntVector`/`IntMatrix` constructors accept a null array. Every
    later `get`, `set`, `getCols` and `IntMatrix.getRows` then throws;
    `IntVector.getRows` and the four arithmetic stubs do not read the array
    and behave as modelled.
  - An `IntMatrix` over an outer array whose rows are null (`new
    IntMatrix(new int[2][])`): `getRows` returns the outer length, but
    `getCols`, `get` and `set` on a null row throw. The model's rows are
    non-null arrays.
  - `isTrue` with a null `clazz` returns normally when the condition holds.
    When the condition is false, it throws its `NullPointerException` inside
    the `try`, so it is caught and wrapped like any other failure, with that
    exception as the cause. A null `message` is passed on unchanged to the
    exception's constructor.
- The floating-point checks of `Asserts` (`equalDouble` with its epsilon and
  the `double` comparison, range and sign checks): IEEE arithmetic and NaN
  are not modelled. The `double[]` shape checks compare lengths only and are
  covered by the generic methods.
- `isEmpty`/`isNotEmpty` over a `Collection`: they delegate to Apache Commons
  `CollectionUtils`, which is not part of this model.
- The reflection in `isTrue` (`getConstructor(String.class).newInstance`): an
  exception class is a value recording whether it is instantiable and whether
  it is a `RuntimeException` subtype. The JVM's own messages for the
  reflection and cast failures are not modelled.
- The 32-bit width of the `int` arguments of the comparison checks: they are
  unbounded integers here, since no check does arithmetic and comparisons
  agree on every 32-bit value (the one lemma that adds to a bound is listed
  above).
- Asserts.BetweenExclusiveIsNarrowedBetween: holds on unbounded integers
  only. In Java `s + 1` wraps when `s` is `Integer.MAX_VALUE` and `e - 1`
  wraps when `e` is `Integer.MIN_VALUE`, so there the narrowed inclusive
  check can differ from the exclusive one.
- `File.separator` is a parameter of `FileUtils.Dir`, since it depends on the
  platform.
- Java strings are sequences of UTF-16 code units, while a Dafny `string` is
  a sequence of Unicode scalar values, so a Java string holding an unpaired
  surrogate has no counterpart here. On every string that does,
  `getExtension`, `getFileName` and `dir` agree with the model, because '.'
  and '/' are single code units and the functions only cut and join.
- `String.lastIndexOf(".")` and `lastIndexOf("/")` take a one-character
  string; the model searches for that character, which is the same thing.
- `FileUtils.writeFile` and `readFileAsString`: file I/O.
- `InputUtils`, `ConsoleLogger`, `TableUtils`, `ReflectionUtils`,
  `Benchmark`, `BenchmarkRunner` and `CommonConstants`: console I/O, table
  rendering, reflection, timing and constants, none of which is part of this
  model.
- Elementwise arithmetic, matrix product and division by zero for the
  containers: the source has no such behaviour, as all four operations are
  stubs.
- Concurrency: the classes do no locking and the model is sequential.
