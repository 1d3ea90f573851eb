# JHiGHS binding, modelled in Dafny

JHiGHS is a Java binding to the native HiGHS linear and mixed-integer
optimisation library. This project models the parts of it that hold logic of
their own:

- the solver session `HiGHS`: one native solver handle behind an
  `initialized` latch that guards every public operation, a `dispose` that
  releases the handle at most once, and the local argument checks in
  `addVars`, `changeColIntegrality` and `setObjectiveFunction`;
- the closed enumerations `HighsStatus`, `ModelStatus` and `VarType` with
  their `fromInt` decoders;
- the immutable `Solution` snapshot, which copies its array on the way in
  and on the way out;
- the native helpers in `jni_utils.cpp`: the validators, the model-status
  classifiers, the status-to-string tables and the array-to-vector conversions.

The solver is not modelled. The native library is an opaque provider. A
`NativeSolver` value gives the handle `createSolver` returns. It also gives
the reply to every later call, as an arbitrary function of the calls received
before it. Each session keeps the `history` of native calls it has sent. So
every property below holds for every possible behaviour of the solver. "Threw
and sent nothing" is stated as `history == old(history)`.

Files, one module each:

- `outcomes.dfy` (`Outcomes`): `Option`, the Java exception classes, and
  `Outcome` (returned or threw).
- `code_table.dfy` (`CodeTable`): the first-match search that every
  `fromInt` runs over `values()`.
- `highs_status.dfy`, `model_status.dfy`, `var_type.dfy`: the three
  enumerations.
- `solution.dfy` (`SolutionSnapshot`): the `Solution` class.
- `jni_utils.dfy` (`JniUtils`): the native helpers.
- `highs.dfy` (`Session`): the `HiGHS` class and the native call log.

How the model represents the source:

- The array arguments of `HiGHS` and the native values reply are
  `NullableArray<T>` (`None` is null), so the NullPointerException that
  `.length` raises on a null array is modelled. Inside `Solution` the arrays
  are Dafny arrays, which are never null.
- A thrown Java exception is an `Outcome.Threw` of its class. Messages are
  not modelled.
- A C++ helper that raises a Java exception through the JNI environment
  returns that exception as a field next to its result.
- Doubles are `real`.
- The C++ `HighsModelStatus` and `HighsStatus` are taken to have the
  codes of the Java enums. The binding relies on this when it casts them to
  `jint`. The two `*ToString` functions take the raw code, because a C++
  enum class value can hold a code no enumerator names; that is the
  `default` branch.

## Model

| member | source | states |
|---|---|---|
| `CodeTable.Find` | src/main/java/nl/jessenagel/jhighs/HighsStatus.java:15-20 | the first-match lookup of `fromInt`: a result has the sought code and no earlier entry has it; no result means no entry has that code |
| `CodeTable.Search` | src/main/java/nl/jessenagel/jhighs/ModelStatus.java:27-32 | the for-each loop with early return computes exactly `Find` |
| `CodeTable.FindsEveryEntry` | src/main/java/nl/jessenagel/jhighs/VarType.java:17-22 | with pairwise distinct codes, searching for an entry's code yields that very entry |
| `HighsStatusCodec.Decode` | src/main/java/nl/jessenagel/jhighs/HighsStatus.java:15-20 | `fromInt(v)` returns a status iff v is -1, 0 or 1; the status returned has code v; any other v throws IllegalArgumentException |
| `HighsStatusCodec.FromInt` | src/main/java/nl/jessenagel/jhighs/HighsStatus.java:15-20 | the search loop yields exactly `Decode` |
| `HighsStatusCodec.ValuesDistinct` | src/main/java/nl/jessenagel/jhighs/HighsStatus.java:5-7 | the three codes are pairwise distinct |
| `HighsStatusCodec.RoundTrip` | src/main/java/nl/jessenagel/jhighs/HighsStatus.java:9-19 | `fromInt(s.value) == s` for every status |
| `HighsStatusCodec.KnownCodes` | src/main/java/nl/jessenagel/jhighs/HighsStatus.java:5-7 | 0 decodes to kOk, 1 to kWarning, -1 to kError |
| `ModelStatusCodec.ValuesIndexed` | src/main/java/nl/jessenagel/jhighs/ModelStatus.java:4-19 | the status at position i of `values()` has code i, for all sixteen |
| `ModelStatusCodec.Decode` | src/main/java/nl/jessenagel/jhighs/ModelStatus.java:27-32 | `fromInt(k)` returns a status exactly for 0 <= k <= 15, with code k; k < 0 (the -1 of a null handle among them) and k > 15 throw IllegalArgumentException |
| `ModelStatusCodec.FromInt` | src/main/java/nl/jessenagel/jhighs/ModelStatus.java:27-32 | the search loop yields exactly `Decode` |
| `ModelStatusCodec.RoundTrip` | src/main/java/nl/jessenagel/jhighs/ModelStatus.java:21-31 | `fromInt(s.value) == s` for every model status |
| `ModelStatusCodec.ValueBijective` | src/main/java/nl/jessenagel/jhighs/ModelStatus.java:4-19 | codes are distinct, and k is some status's code iff 0 <= k <= 15 |
| `VarTypeCodec.GetValue` | src/main/java/nl/jessenagel/jhighs/VarType.java:24-26 | `getValue` lies in 0..5 |
| `VarTypeCodec.ValuesIndexed` | src/main/java/nl/jessenagel/jhighs/VarType.java:4-9 | the type at position i of `values()` has code i |
| `VarTypeCodec.Decode` | src/main/java/nl/jessenagel/jhighs/VarType.java:17-22 | `fromInt(v)` returns a type iff 0 <= v <= 5, with code v; otherwise IllegalArgumentException |
| `VarTypeCodec.FromInt` | src/main/java/nl/jessenagel/jhighs/VarType.java:17-22 | the search loop yields exactly `Decode` |
| `VarTypeCodec.RoundTrip` | src/main/java/nl/jessenagel/jhighs/VarType.java:17-26 | `fromInt(getValue(t)) == t` |
| `VarTypeCodec.GetValueInjective` | src/main/java/nl/jessenagel/jhighs/VarType.java:4-9 | no two types share a code |
| `SolutionSnapshot.Solution.constructor` | src/main/java/nl/jessenagel/jhighs/Solution.java:7-10 | the snapshot holds a fresh copy of the caller's values and the given objective |
| `SolutionSnapshot.Solution.GetVariableValues` | src/main/java/nl/jessenagel/jhighs/Solution.java:12-14 | returns a fresh array equal to the snapshot's values, so writes to it cannot reach the snapshot |
| `SolutionSnapshot.Solution.GetVariableValue` | src/main/java/nl/jessenagel/jhighs/Solution.java:16-18 | element i of the constructor's values for 0 <= i < n; any other index throws ArrayIndexOutOfBoundsException |
| `SolutionSnapshot.Solution.GetObjectiveValue` | src/main/java/nl/jessenagel/jhighs/Solution.java:20-22 | the objective given to the constructor |
| `SolutionSnapshot.Solution.GetNumVariables` | src/main/java/nl/jessenagel/jhighs/Solution.java:24-26 | the length of the constructor's array |
| `SolutionSnapshot.Clone` | src/main/java/nl/jessenagel/jhighs/Solution.java:8 | `clone()` gives a fresh array with the same elements |
| `SolutionSnapshot.Scenario` | src/main/java/nl/jessenagel/jhighs/Solution.java:7-26 | from [0.5, 2.25] and 2.75, after the caller overwrites both its own array and a handed-out copy, the snapshot still reads 0.5, 2.25, length 2, objective 2.75, and index 2 throws |
| `JniUtils.ValidateArraySizes` | src/main/native/cpp/jni_utils.cpp:197-207 | passes iff the sizes are equal; raises IllegalArgumentException exactly when it fails |
| `JniUtils.ValidateBounds` | src/main/native/cpp/jni_utils.cpp:209-218 | fails iff lower > upper, so equal bounds pass; raises IllegalArgumentException exactly when it fails |
| `JniUtils.ValidateNonNegativeIndex` | src/main/native/cpp/jni_utils.cpp:220-228 | fails iff index < 0, so index 0 passes; raises IllegalArgumentException exactly when it fails |
| `JniUtils.IsOptimalStatus` | src/main/native/cpp/jni_utils.cpp:272-274 | holds exactly for kOptimal, code 7 |
| `JniUtils.IsInfeasibleStatus` | src/main/native/cpp/jni_utils.cpp:276-278 | holds exactly for kInfeasible, code 8 |
| `JniUtils.IsUnboundedStatus` | src/main/native/cpp/jni_utils.cpp:280-283 | holds exactly for kUnboundedOrInfeasible and kUnbounded, codes 9 and 10 |
| `JniUtils.IsErrorStatus` | src/main/native/cpp/jni_utils.cpp:285-291 | holds exactly for the five error statuses, codes 1 to 5 |
| `JniUtils.ClassesDisjoint` | src/main/native/cpp/jni_utils.cpp:272-291 | an error status is never optimal, infeasible or unbounded, and those three classes do not overlap |
| `JniUtils.ModelStatusName` | src/main/native/cpp/jni_utils.cpp:295-310 | the label of each of the sixteen enumerators; no label is "Unrecognized status" |
| `JniUtils.ModelStatusToString` | src/main/native/cpp/jni_utils.cpp:293-313 | codes 0..15 get their enumerator's label; the result is "Unrecognized status" iff the code is outside 0..15 |
| `JniUtils.ModelStatusNamesDistinct` | src/main/native/cpp/jni_utils.cpp:293-313 | the sixteen labels are pairwise distinct |
| `JniUtils.HighsStatusToString` | src/main/native/cpp/jni_utils.cpp:315-322 | 0 gives "OK", 1 "Warning", -1 "Error"; "Unrecognized status" iff the code is none of these |
| `JniUtils.ArrayToVector` | src/main/native/cpp/jni_utils.cpp:51-93 | null or empty gives an empty vector and no exception; otherwise the same elements in order; OutOfMemoryError with an empty vector exactly when the JVM withholds the elements of a non-empty array |
| `JniUtils.SizeCheckOfConverted` | src/main/native/cpp/jni_utils.cpp:197-207 | on converted arrays the size check passes iff the lengths agree, with null counted as length 0 |
| `Session.LengthFault` | src/main/java/nl/jessenagel/jhighs/HiGHS.java:150-152 | the `addVars` test: no fault iff all three arrays are non-null with length `count`; a fault is NullPointerException or IllegalArgumentException, and NullPointerException only if some array is null |
| `Session.HiGHS.constructor` | src/main/java/nl/jessenagel/jhighs/HiGHS.java:22-25 | the new session is initialized, holds the handle `createSolver` returned, and has sent only `createSolver` |
| `Session.HiGHS.Invoke` | src/main/java/nl/jessenagel/jhighs/HiGHS.java:28-80 | a native call appends exactly that call to the history and returns the provider's reply to it |
| `Session.HiGHS.StatusCall` | src/main/java/nl/jessenagel/jhighs/HiGHS.java:100-104 | the shape all status methods share: closed latch means IllegalStateException and nothing sent; open latch means one call sent and its reply decoded by `HighsStatus.fromInt` |
| `Session.HiGHS.ClearModel` | src/main/java/nl/jessenagel/jhighs/HiGHS.java:100-104 | guarded by the latch; sends `clearModel` and decodes the reply |
| `Session.HiGHS.ClearSolver` | src/main/java/nl/jessenagel/jhighs/HiGHS.java:106-110 | guarded by the latch; sends `clearSolver` and decodes the reply |
| `Session.HiGHS.WriteModel` | src/main/java/nl/jessenagel/jhighs/HiGHS.java:112-116 | guarded by the latch; forwards the file name and decodes the reply |
| `Session.HiGHS.WriteSolution` | src/main/java/nl/jessenagel/jhighs/HiGHS.java:118-122 | guarded by the latch; forwards the file name and decodes the reply |
| `Session.HiGHS.ReadModel` | src/main/java/nl/jessenagel/jhighs/HiGHS.java:124-128 | guarded by the latch; forwards the file name and decodes the reply |
| `Session.HiGHS.Solve` | src/main/java/nl/jessenagel/jhighs/HiGHS.java:130-134 | guarded by the latch; sends `run` and decodes the reply, so a code outside {-1, 0, 1} throws |
| `Session.HiGHS.GetModelStatus` | src/main/java/nl/jessenagel/jhighs/HiGHS.java:136-140 | guarded by the latch; the reply is decoded by `ModelStatus.fromInt` |
| `Session.HiGHS.AddVar` | src/main/java/nl/jessenagel/jhighs/HiGHS.java:143-146 | guarded by the latch; returns the raw native int without decoding |
| `Session.HiGHS.AddVars` | src/main/java/nl/jessenagel/jhighs/HiGHS.java:148-155 | guarded by the latch; a fault in the length test throws with nothing sent; otherwise forwards `count` and both bounds arrays, not `costs` |
| `Session.HiGHS.DeleteVar` | src/main/java/nl/jessenagel/jhighs/HiGHS.java:157-161 | guarded by the latch; forwards the column index as given |
| `Session.HiGHS.ChangeVarBounds` | src/main/java/nl/jessenagel/jhighs/HiGHS.java:163-167 | guarded by the latch; forwards index and bounds as given |
| `Session.HiGHS.ChangeColIntegrality` | src/main/java/nl/jessenagel/jhighs/HiGHS.java:169-176 | guarded by the latch; a null type throws IllegalArgumentException with nothing sent; otherwise forwards `getValue()` of the type unchanged |
| `Session.HiGHS.AddConstraint` | src/main/java/nl/jessenagel/jhighs/HiGHS.java:179-184 | guarded by the latch; forwards both arrays unchecked, null or not, of any lengths |
| `Session.HiGHS.DeleteConstraint` | src/main/java/nl/jessenagel/jhighs/HiGHS.java:186-190 | guarded by the latch; forwards the row index as given |
| `Session.HiGHS.ChangeConstraintBounds` | src/main/java/nl/jessenagel/jhighs/HiGHS.java:192-196 | guarded by the latch; forwards index and bounds as given |
| `Session.HiGHS.SetObjectiveFunction` | src/main/java/nl/jessenagel/jhighs/HiGHS.java:199-208 | guarded by the latch; a null array throws NullPointerException and unequal lengths throw IllegalArgumentException, both with nothing sent; otherwise forwards arrays, sense and offset |
| `Session.HiGHS.GetSolution` | src/main/java/nl/jessenagel/jhighs/HiGHS.java:211-216 | guarded by the latch; asks for the values, then the objective; a null values array throws NullPointerException; otherwise returns a fresh snapshot of exactly those values and that objective |
| `Session.HiGHS.Dispose` | src/main/java/nl/jessenagel/jhighs/HiGHS.java:286-291 | the first call sends `destroySolver` with the session's handle and closes the latch; later calls send nothing |
| `Session.ReleasedAtMostOnce` | src/main/java/nl/jessenagel/jhighs/HiGHS.java:286-291 | in every valid session `destroySolver` appears at most once, only as the last call, with the session's handle, and only once the latch is closed: after `dispose` nothing more reaches the native library |
| `Session.DisposeTwice` | src/main/java/nl/jessenagel/jhighs/HiGHS.java:131 | dispose twice and then solve: the log is `createSolver` then one `destroySolver`, and the solve throws IllegalStateException |
| `Session.MismatchedAddVars` | src/main/java/nl/jessenagel/jhighs/HiGHS.java:150-151 | `addVars(2, [0, 0], [4], [1, 1])` throws IllegalArgumentException and sends nothing |

Every `Session.HiGHS` method also ensures `Valid()` and leaves
`initialized` and `solverHandle` unchanged; only `Dispose` clears the
latch, and nothing sets it again. Together these mean that once a session is
disposed, every guarded operation throws for good.

## Left out

- The solver itself: `run`, the model status it reaches, and the solution and objective values. These are replies of the opaque `NativeSolver` provider.
- src/main/native/cpp/highs_jni.cpp is not part of this model. It is JNI glue: allocation and deletion of the native `Highs` object, handle casts, and calls into HiGHS.
- Native library loading (NativeLibraryLoader.java and the static initializer of HiGHS.java) is platform I/O and concurrency.
- `Session.HiGHS.constructor`: a `createSolver` that fails with a RuntimeException is not modelled; the provider always returns a handle.
- The commented-out reduced-cost, dual, row-value and parameter operations of HiGHS.java are dead code.
- JNI plumbing in jni_utils.cpp is not modelled: exception dispatch through `JNIEnv`, local and global references, logging, benchmark hooks, string conversion, `vectorToJ*Array`, and handle and status casts.
- Exception messages are not modelled, only the exception class.
- Floating-point semantics are not modelled. Bounds, costs and values are reals, so NaN and infinities are not represented.
- `SolutionSnapshot.Solution.constructor`: a null argument is unrepresentable, because Dafny arrays are non-null. The null reply of the native values call is modelled in `Session.HiGHS.GetSolution`, where it throws NullPointerException.
- The `Session.HiGHS` history is not part of the Java object. It stands for the native library's record of the calls made on the handle.
- Concurrent use of one session is not modelled; the model is sequential.
