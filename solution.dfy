/** The immutable snapshot of a solve's primal values (Solution.java). */
module SolutionSnapshot {
  import opened Outcomes

  class Solution {
    /** The private copy of the variable values; never handed out. */
    const variableValues: array<real>
    const objectiveValue: real
    /** The values the snapshot was built from, fixed at construction. */
    ghost const Values: seq<real>

    /** The private copy still holds the values the snapshot was built from. */
    ghost predicate Valid()
      reads variableValues
    {
      variableValues[..] == Values
    }

    /** Copies `variableValues`, so later writes to the caller's array cannot reach the snapshot. */
    constructor (variableValues: array<real>, objectiveValue: real)
      ensures Valid()
      ensures Values == variableValues[..]
      ensures fresh(this.variableValues)
      ensures this.objectiveValue == objectiveValue
    {
      var copy := Clone(variableValues);
      this.variableValues := copy;
      this.objectiveValue := objectiveValue;
      Values := variableValues[..];
    }

    /** A fresh copy of the values: writing to it leaves the snapshot as it was. */
    method GetVariableValues() returns (copy: array<real>)
      requires Valid()
      ensures fresh(copy)
      ensures copy[..] == Values
    {
      copy := Clone(variableValues);
    }

    /** The value of column `index`; an index outside the snapshot throws. */
    function GetVariableValue(index: int): (r: Outcome<real>)
      requires Valid()
      reads variableValues
      ensures 0 <= index < |Values| ==> r == Returned(Values[index])
      ensures !(0 <= index < |Values|) ==> r == Threw(ArrayIndexOutOfBoundsException)
    {
      if 0 <= index < variableValues.Length then Returned(variableValues[index])
      else Threw(ArrayIndexOutOfBoundsException)
    }

    /** The objective value the snapshot was built with. */
    function GetObjectiveValue(): (r: real)
      ensures r == objectiveValue
    {
      objectiveValue
    }

    /** One entry per column of the values the snapshot was built from. */
    function GetNumVariables(): (n: int)
      requires Valid()
      reads variableValues
      ensures n == |Values|
    {
      variableValues.Length
    }
  }

  /** Java's `clone()` of a double[]: a new array with the same elements. */
  method Clone(source: array<real>) returns (copy: array<real>)
    ensures fresh(copy)
    ensures copy[..] == source[..]
  {
    copy := new real[source.Length](i reads source requires 0 <= i < source.Length => source[i]);
  }

  /** The snapshot built from [0.5, 2.25] with objective 2.75, after the
      caller has overwritten its own array and the copy it was handed. */
  method Scenario() returns (s: Solution)
    ensures s.Valid()
    ensures s.GetNumVariables() == 2
    ensures s.GetVariableValue(0) == Returned(0.5)
    ensures s.GetVariableValue(1) == Returned(2.25)
    ensures s.GetVariableValue(2) == Threw(ArrayIndexOutOfBoundsException)
    ensures s.GetObjectiveValue() == 2.75
  {
    var values := new real[2];
    values[0], values[1] := 0.5, 2.25;
    s := new Solution(values, 2.75);
    values[0] := 9.0;
    var handedOut := s.GetVariableValues();
    handedOut[1] := 9.0;
  }
}
