/** The integrality kind of a column (VarType.java), its code `getValue`
    and its decoder `fromInt`. */
module VarTypeCodec {
  import opened Outcomes
  import CodeTable

  datatype VarType =
    | Continuous
    | Integer
    | SemiContinuous
    | SemiInteger
    | SemiSemiInteger
    | Binary

  /** `getValue`: the integer each enumerator is declared with, always within 0..5. */
  function GetValue(t: VarType): (code: int)
    ensures 0 <= code <= 5
  {
    match t
    case Continuous => 0
    case Integer => 1
    case SemiContinuous => 2
    case SemiInteger => 3
    case SemiSemiInteger => 4
    case Binary => 5
  }

  /** The enumerators in declaration order, as `values()` lists them. */
  const Values: seq<VarType> :=
    [Continuous, Integer, SemiContinuous, SemiInteger, SemiSemiInteger, Binary]

  /** The type at position i has code i, and every type has a position. */
  lemma ValuesIndexed(t: VarType)
    ensures |Values| == 6
    ensures forall i :: 0 <= i < |Values| ==> GetValue(Values[i]) == i
    ensures Values[GetValue(t)] == t
  {
  }

  /** What `fromInt(v)` yields: the type declared with code v, or
      IllegalArgumentException when no type has that code. */
  function Decode(v: int): (r: Outcome<VarType>)
    ensures r.Returned? <==> 0 <= v <= 5
    ensures r.Returned? ==> GetValue(r.value) == v
    ensures r.Threw? ==> r.exception == IllegalArgumentException
  {
    ValuesIndexed(Continuous);
    assert 0 <= v < |Values| ==> GetValue(Values[v]) == v;
    match CodeTable.Find(Values, GetValue, v)
    case Some(t) => Returned(t)
    case None =>
      Threw(IllegalArgumentException)
  }

  /** `fromInt`: a search over `values()` that returns on the first match. */
  method FromInt(v: int) returns (r: Outcome<VarType>)
    ensures r == Decode(v)
  {
    var found := CodeTable.Search(Values, GetValue, v);
    if found.Some? {
      r := Returned(found.value);
    } else {
      r := Threw(IllegalArgumentException);
    }
  }

  /** Decoding the code of a type gives that type back. */
  lemma RoundTrip(t: VarType)
    ensures Decode(GetValue(t)) == Returned(t)
  {
    ValuesIndexed(t);
    CodeTable.FindsEveryEntry(Values, GetValue, GetValue(t));
  }

  /** No two types share a code. */
  lemma GetValueInjective(a: VarType, b: VarType)
    ensures GetValue(a) == GetValue(b) ==> a == b
  {
    ValuesIndexed(a);
    ValuesIndexed(b);
  }
}
