/** The native side's argument checks, status classifiers, status names and
    array conversions (jni_utils.cpp). A Java exception that the native code
    raises through the JNI environment is modelled as a returned field. */
module JniUtils {
  import opened Outcomes
  import ModelStatusCodec
  import HighsStatusCodec

  type ModelStatus = ModelStatusCodec.ModelStatus

  /** A validator's answer and the exception it left pending, if any. */
  datatype Check = Check(passed: bool, raised: Option<Exception>)

  /** `validateArraySizes`: accepts exactly when both vectors have the same size. */
  function ValidateArraySizes(coeffs: seq<real>, indices: seq<int>): (c: Check)
    ensures c.passed <==> |coeffs| == |indices|
    ensures c.raised == (if c.passed then None else Some(IllegalArgumentException))
  {
    if |coeffs| != |indices| then Check(false, Some(IllegalArgumentException))
    else Check(true, None)
  }

  /** `validateBounds`: rejects only a lower bound above the upper bound. */
  function ValidateBounds(lowerBound: real, upperBound: real): (c: Check)
    ensures c.passed <==> lowerBound <= upperBound
    ensures c.raised == (if c.passed then None else Some(IllegalArgumentException))
  {
    if lowerBound > upperBound then Check(false, Some(IllegalArgumentException))
    else Check(true, None)
  }

  /** `validateNonNegativeIndex`: rejects only a negative index. */
  function ValidateNonNegativeIndex(index: int): (c: Check)
    ensures c.passed <==> index >= 0
    ensures c.raised == (if c.passed then None else Some(IllegalArgumentException))
  {
    if index < 0 then Check(false, Some(IllegalArgumentException))
    else Check(true, None)
  }

  /** `isOptimalStatus`: holds for kOptimal, code 7, alone. */
  predicate IsOptimalStatus(s: ModelStatus)
    ensures IsOptimalStatus(s) <==> ModelStatusCodec.Value(s) == 7
  {
    s == ModelStatusCodec.Optimal
  }

  /** `isInfeasibleStatus`: holds for kInfeasible, code 8, alone. */
  predicate IsInfeasibleStatus(s: ModelStatus)
    ensures IsInfeasibleStatus(s) <==> ModelStatusCodec.Value(s) == 8
  {
    s == ModelStatusCodec.Infeasible
  }

  /** `isUnboundedStatus`: holds for kUnboundedOrInfeasible and kUnbounded, codes 9 and 10. */
  predicate IsUnboundedStatus(s: ModelStatus)
    ensures IsUnboundedStatus(s) <==> 9 <= ModelStatusCodec.Value(s) <= 10
  {
    s == ModelStatusCodec.Unbounded || s == ModelStatusCodec.UnboundedOrInfeasible
  }

  /** `isErrorStatus`: holds for the five error statuses, codes 1 to 5. */
  predicate IsErrorStatus(s: ModelStatus)
    ensures IsErrorStatus(s) <==> 1 <= ModelStatusCodec.Value(s) <= 5
  {
    || s == ModelStatusCodec.LoadError
    || s == ModelStatusCodec.ModelError
    || s == ModelStatusCodec.PresolveError
    || s == ModelStatusCodec.SolveError
    || s == ModelStatusCodec.PostsolveError
  }

  /** No status is both an error and a solve outcome, and the outcome classes do not overlap. */
  lemma ClassesDisjoint(s: ModelStatus)
    ensures IsErrorStatus(s) ==> !IsOptimalStatus(s) && !IsInfeasibleStatus(s) && !IsUnboundedStatus(s)
    ensures IsOptimalStatus(s) ==> !IsInfeasibleStatus(s) && !IsUnboundedStatus(s)
    ensures IsInfeasibleStatus(s) ==> !IsUnboundedStatus(s)
  {
  }

  const Unrecognized: string := "Unrecognized status"

  /** The label of each model status enumerator; none is the label of the default branch. */
  function ModelStatusName(s: ModelStatus): (name: string)
    ensures name != Unrecognized
  {
    match s
    case NotSet => "Not set"
    case LoadError => "Load error"
    case ModelError => "Model error"
    case PresolveError => "Presolve error"
    case SolveError => "Solve error"
    case PostsolveError => "Postsolve error"
    case ModelEmpty => "Model empty"
    case Optimal => "Optimal"
    case Infeasible => "Infeasible"
    case UnboundedOrInfeasible => "Unbounded or infeasible"
    case Unbounded => "Unbounded"
    case ObjectiveBound => "Objective bound reached"
    case ObjectiveTarget => "Objective target reached"
    case TimeLimit => "Time limit reached"
    case IterationLimit => "Iteration limit reached"
    case Unknown => "Unknown"
  }

  /** `modelStatusToString` of the native enum value with code `code`: the
      enumerator's label for codes 0..15, "Unrecognized status" for any other code. */
  function ModelStatusToString(code: int): (name: string)
    ensures 0 <= code <= 15 ==> name == ModelStatusName(ModelStatusCodec.Decode(code).value)
    ensures name == Unrecognized <==> !(0 <= code <= 15)
  {
    match ModelStatusCodec.Decode(code)
    case Returned(s) => ModelStatusName(s)
    case Threw(_) => Unrecognized
  }

  /** Each of the sixteen enumerators gets a label of its own. */
  lemma ModelStatusNamesDistinct(a: ModelStatus, b: ModelStatus)
    ensures ModelStatusName(a) == ModelStatusName(b) ==> a == b
  {
  }

  /** `highsStatusToString` of the native enum value with code `code`. */
  function HighsStatusToString(code: int): (name: string)
    ensures code == 0 ==> name == "OK"
    ensures code == 1 ==> name == "Warning"
    ensures code == -1 ==> name == "Error"
    ensures name == Unrecognized <==> !(-1 <= code <= 1)
  {
    match HighsStatusCodec.Decode(code)
    case Returned(Ok) => "OK"
    case Returned(Warning) => "Warning"
    case Returned(Error) => "Error"
    case Threw(_) => Unrecognized
  }

  /** A vector built from a Java array, and the exception left pending, if any. */
  datatype Converted<T> = Converted(vector: seq<T>, raised: Option<Exception>)

  /** `jdoubleArrayToVector` and `jintArrayToVector`. `source` is the Java array
      (None for null); `pinned` says whether the JVM hands out its elements. */
  function ArrayToVector<T>(source: NullableArray<T>, pinned: bool): (r: Converted<T>)
    ensures source.None? || |source.value| == 0 ==> r == Converted([], None)
    ensures source.Some? && pinned ==> r == Converted(source.value, None)
    ensures r.raised.Some? <==> source.Some? && |source.value| > 0 && !pinned
    ensures r.raised.Some? ==> r == Converted([], Some(OutOfMemoryError))
  {
    if source.None? then Converted([], None)
    else if |source.value| == 0 then Converted([], None)
    else if !pinned then Converted([], Some(OutOfMemoryError))
    else Converted(source.value, None)
  }

  /** Null arrays count as empty: the size check on two converted arrays accepts
      exactly when their lengths agree, with null read as length 0. */
  lemma SizeCheckOfConverted(coeffs: NullableArray<real>, indices: NullableArray<int>)
    ensures
      var c := ArrayToVector(coeffs, true).vector;
      var i := ArrayToVector(indices, true).vector;
      ValidateArraySizes(c, i).passed <==>
        (if coeffs.None? then 0 else |coeffs.value|) == (if indices.None? then 0 else |indices.value|)
  {
  }
}
