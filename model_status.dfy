/** The model status the solver reports after a run (ModelStatus.java),
    and its decoder `fromInt`. */
module ModelStatusCodec {
  import opened Outcomes
  import CodeTable

  datatype ModelStatus =
    | NotSet
    | LoadError
    | ModelError
    | PresolveError
    | SolveError
    | PostsolveError
    | ModelEmpty
    | Optimal
    | Infeasible
    | UnboundedOrInfeasible
    | Unbounded
    | ObjectiveBound
    | ObjectiveTarget
    | TimeLimit
    | IterationLimit
    | Unknown

  /** The integer each enumerator is declared with. */
  function Value(s: ModelStatus): int {
    match s
    case NotSet => 0
    case LoadError => 1
    case ModelError => 2
    case PresolveError => 3
    case SolveError => 4
    case PostsolveError => 5
    case ModelEmpty => 6
    case Optimal => 7
    case Infeasible => 8
    case UnboundedOrInfeasible => 9
    case Unbounded => 10
    case ObjectiveBound => 11
    case ObjectiveTarget => 12
    case TimeLimit => 13
    case IterationLimit => 14
    case Unknown => 15
  }

  /** The enumerators in declaration order, as `values()` lists them. */
  const Values: seq<ModelStatus> :=
    [NotSet, LoadError, ModelError, PresolveError, SolveError, PostsolveError,
     ModelEmpty, Optimal, Infeasible, UnboundedOrInfeasible, Unbounded,
     ObjectiveBound, ObjectiveTarget, TimeLimit, IterationLimit, Unknown]

  /** The declaration order agrees with the codes: the status at position i has code i,
      and every status has a position. */
  lemma ValuesIndexed(s: ModelStatus)
    ensures |Values| == 16
    ensures forall i :: 0 <= i < |Values| ==> Value(Values[i]) == i
    ensures 0 <= Value(s) < |Values| && Values[Value(s)] == s
  {
  }

  /** What `fromInt(v)` yields: the status declared with code v, or
      IllegalArgumentException when no status has that code. */
  function Decode(v: int): (r: Outcome<ModelStatus>)
    ensures r.Returned? <==> 0 <= v <= 15
    ensures r.Returned? ==> Value(r.value) == v
    ensures r.Threw? ==> r.exception == IllegalArgumentException
  {
    ValuesIndexed(NotSet);
    assert 0 <= v < |Values| ==> Value(Values[v]) == v;
    match CodeTable.Find(Values, Value, v)
    case Some(s) =>
      ValuesIndexed(s);
      Returned(s)
    case None =>
      Threw(IllegalArgumentException)
  }

  /** `fromInt`: a search over `values()` that returns on the first match. */
  method FromInt(v: int) returns (r: Outcome<ModelStatus>)
    ensures r == Decode(v)
  {
    var found := CodeTable.Search(Values, Value, v);
    if found.Some? {
      r := Returned(found.value);
    } else {
      r := Threw(IllegalArgumentException);
    }
  }

  /** Decoding the code of a status gives that status back. */
  lemma RoundTrip(s: ModelStatus)
    ensures Decode(Value(s)) == Returned(s)
  {
    ValuesIndexed(s);
    CodeTable.FindsEveryEntry(Values, Value, Value(s));
  }

  /** The codes are distinct and cover 0..15 without gaps: `Value` is a
      bijection from the statuses onto 0..15. */
  lemma ValueBijective(k: int)
    ensures forall a, b :: Value(a) == Value(b) ==> a == b
    ensures 0 <= k <= 15 <==> exists s :: Value(s) == k
  {
    forall a, b | Value(a) == Value(b) ensures a == b {
      ValuesIndexed(a);
      ValuesIndexed(b);
    }
    if 0 <= k <= 15 {
      ValuesIndexed(NotSet);
      assert Value(Values[k]) == k;
    }
  }
}
