/** The call status every mutating or solving native call returns
    (HighsStatus.java), and its decoder `fromInt`. */
module HighsStatusCodec {
  import opened Outcomes
  import CodeTable

  datatype HighsStatus = Ok | Warning | Error

  /** The integer each enumerator is declared with. */
  function Value(s: HighsStatus): int {
    match s
    case Ok => 0
    case Warning => 1
    case Error => -1
  }

  /** The enumerators in declaration order, as `values()` lists them. */
  const Values: seq<HighsStatus> := [Ok, Warning, Error]

  /** What `fromInt(v)` yields: the status declared with code v, or
      IllegalArgumentException when no status has that code. */
  function Decode(v: int): (r: Outcome<HighsStatus>)
    ensures r.Returned? <==> v == -1 || v == 0 || v == 1
    ensures r.Returned? ==> Value(r.value) == v
    ensures r.Threw? ==> r.exception == IllegalArgumentException
  {
    assert Value(Values[0]) == 0 && Value(Values[1]) == 1 && Value(Values[2]) == -1;
    match CodeTable.Find(Values, Value, v)
    case Some(s) => Returned(s)
    case None => Threw(IllegalArgumentException)
  }

  /** `fromInt`: a search over `values()` that returns on the first match. */
  method FromInt(v: int) returns (r: Outcome<HighsStatus>)
    ensures r == Decode(v)
  {
    var found := CodeTable.Search(Values, Value, v);
    if found.Some? {
      r := Returned(found.value);
    } else {
      r := Threw(IllegalArgumentException);
    }
  }

  /** No two statuses share a code. */
  lemma ValuesDistinct()
    ensures CodeTable.Injective(Values, Value)
  {
  }

  /** Decoding the code of a status gives that status back. */
  lemma RoundTrip(s: HighsStatus)
    ensures Decode(Value(s)) == Returned(s)
  {
    var k := match s case Ok => 0 case Warning => 1 case Error => 2;
    assert Values[k] == s;
    ValuesDistinct();
    CodeTable.FindsEveryEntry(Values, Value, k);
  }

  /** The three codes the native layer may return, decoded. */
  lemma KnownCodes()
    ensures Decode(0) == Returned(Ok)
    ensures Decode(1) == Returned(Warning)
    ensures Decode(-1) == Returned(Error)
  {
    RoundTrip(Ok);
    RoundTrip(Warning);
    RoundTrip(Error);
  }
}
