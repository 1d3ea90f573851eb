/** The solver session (HiGHS.java): one native solver handle behind an
    `initialized` latch. The native library is an opaque provider; the session
    records every call it sends there, and the provider's replies are arbitrary
    functions of the calls received so far. */
module Session {
  import opened Outcomes
  import HighsStatusCodec
  import ModelStatusCodec
  import VarTypeCodec
  import SolutionSnapshot

  type HighsStatus = HighsStatusCodec.HighsStatus
  type ModelStatus = ModelStatusCodec.ModelStatus
  type VarType = VarTypeCodec.VarType

  /** One call into the native library, with the arguments it receives. */
  datatype NativeCall =
    | CreateSolver
    | DestroySolver(handle: int)
    | ClearModel(handle: int)
    | ClearSolver(handle: int)
    | WriteModel(handle: int, filename: string)
    | WriteSolution(handle: int, filename: string)
    | ReadModel(handle: int, filename: string)
    | Run(handle: int)
    | GetModelStatus(handle: int)
    | AddVariable(handle: int, lowerBound: real, upperBound: real)
    | AddVariables(handle: int, count: int, lowerBounds: NullableArray<real>, upperBounds: NullableArray<real>)
    | DeleteVariable(handle: int, col: int)
    | ChangeVariableBounds(handle: int, col: int, lower: real, upper: real)
    | ChangeColIntegrality(handle: int, col: int, varType: int)
    | DeleteConstraint(handle: int, row: int)
    | ChangeConstraintBounds(handle: int, row: int, lower: real, upper: real)
    | AddConstraint(handle: int, coefficients: NullableArray<real>, variableIndices: NullableArray<int>,
                    lowerBound: real, upperBound: real)
    | SetObjective(handle: int, coefficients: NullableArray<real>, variableIndices: NullableArray<int>,
                   sense: bool, offset: real)
    | GetSolutionValues(handle: int)
    | GetObjectiveValue(handle: int)

  /** The native library as the session sees it: the handle `createSolver`
      returns, and the reply to each later call given the calls sent before it. */
  datatype NativeSolver = NativeSolver(
    createdHandle: int,
    status: (seq<NativeCall>, NativeCall) -> int,
    objectiveValue: seq<NativeCall> -> real,
    solutionValues: seq<NativeCall> -> NullableArray<real>)

  /** The test in `addVars`, evaluated left to right as Java's `||` does: the
      first null array throws NullPointerException, the first array whose length
      is not `count` throws IllegalArgumentException, and None means every array passed. */
  function LengthFault(arrays: seq<NullableArray<real>>, count: int): (f: Option<Exception>)
    ensures f.None? <==> forall i :: 0 <= i < |arrays| ==> arrays[i].Some? && |arrays[i].value| == count
    ensures f.Some? ==> f.value == NullPointerException || f.value == IllegalArgumentException
    ensures f == Some(NullPointerException) ==> exists i :: 0 <= i < |arrays| && arrays[i].None?
  {
    if arrays == [] then None
    else if arrays[0].None? then Some(NullPointerException)
    else if |arrays[0].value| != count then Some(IllegalArgumentException)
    else
      var rest := LengthFault(arrays[1..], count);
      assert forall i :: 1 <= i < |arrays| ==> arrays[i] == arrays[1..][i - 1];
      rest
  }

  class HiGHS {
    const native: NativeSolver
    var solverHandle: int
    var initialized: bool
    /** The calls sent to the native library so far, oldest first. */
    var history: seq<NativeCall>

    /** The session invariant: the handle is the one `createSolver` returned,
        every later call carries that handle, and `destroySolver` was sent at most
        once, as the last call, exactly when the latch is closed. */
    ghost predicate Valid()
      reads this
    {
      && |history| >= 1
      && history[0] == CreateSolver
      && solverHandle == native.createdHandle
      && (forall i :: 1 <= i < |history| ==> !history[i].CreateSolver? && history[i].handle == solverHandle)
      && (forall i :: 0 <= i < |history| - 1 ==> !history[i].DestroySolver?)
      && (history[|history| - 1].DestroySolver? <==> !initialized)
    }

    /** A guarded operation found the latch closed or its arguments wrong:
        it threw `e` and sent nothing. */
    ghost predicate Refused<T>(before: seq<NativeCall>, r: Outcome<T>, e: Exception)
      reads this
    {
      r == Threw(e) && history == before
    }

    /** A status-returning operation sent `call` alone and decoded its reply with `fromInt`. */
    ghost predicate Forwarded(before: seq<NativeCall>, call: NativeCall, r: Outcome<HighsStatus>)
      reads this
    {
      history == before + [call] && r == HighsStatusCodec.Decode(native.status(before, call))
    }

    constructor (native: NativeSolver)
      ensures Valid()
      ensures this.native == native
      ensures initialized
      ensures solverHandle == native.createdHandle
      ensures history == [CreateSolver]
    {
      this.native := native;
      solverHandle := native.createdHandle;
      history := [CreateSolver];
      initialized := true;
    }

    /** Sends one call carrying the session's handle to the native library. */
    method Send(call: NativeCall)
      requires Valid() && initialized
      requires !call.CreateSolver? && !call.DestroySolver? && call.handle == solverHandle
      modifies this
      ensures Valid() && initialized && solverHandle == old(solverHandle)
      ensures history == old(history) + [call]
    {
      history := history + [call];
    }

    /** Sends a call whose native entry point returns an int, and returns that int. */
    method Invoke(call: NativeCall) returns (code: int)
      requires Valid() && initialized
      requires !call.CreateSolver? && !call.DestroySolver? && call.handle == solverHandle
      modifies this
      ensures Valid() && initialized && solverHandle == old(solverHandle)
      ensures history == old(history) + [call]
      ensures code == native.status(old(history), call)
    {
      code := native.status(history, call);
      Send(call);
    }

    /** The shape of every guarded status-returning operation of the session. */
    method StatusCall(call: NativeCall) returns (r: Outcome<HighsStatus>)
      requires Valid()
      requires !call.CreateSolver? && !call.DestroySolver? && call.handle == solverHandle
      modifies this
      ensures Valid() && initialized == old(initialized) && solverHandle == old(solverHandle)
      ensures !old(initialized) ==> Refused(old(history), r, IllegalStateException)
      ensures old(initialized) ==> Forwarded(old(history), call, r)
    {
      if !initialized {
        return Threw(IllegalStateException);
      }
      var code := Invoke(call);
      r := HighsStatusCodec.FromInt(code);
    }

    method ClearModel() returns (r: Outcome<HighsStatus>)
      requires Valid()
      modifies this
      ensures Valid() && initialized == old(initialized) && solverHandle == old(solverHandle)
      ensures !old(initialized) ==> Refused(old(history), r, IllegalStateException)
      ensures old(initialized) ==> Forwarded(old(history), NativeCall.ClearModel(solverHandle), r)
    {
      r := StatusCall(NativeCall.ClearModel(solverHandle));
    }

    method ClearSolver() returns (r: Outcome<HighsStatus>)
      requires Valid()
      modifies this
      ensures Valid() && initialized == old(initialized) && solverHandle == old(solverHandle)
      ensures !old(initialized) ==> Refused(old(history), r, IllegalStateException)
      ensures old(initialized) ==> Forwarded(old(history), NativeCall.ClearSolver(solverHandle), r)
    {
      r := StatusCall(NativeCall.ClearSolver(solverHandle));
    }

    method WriteModel(filename: string) returns (r: Outcome<HighsStatus>)
      requires Valid()
      modifies this
      ensures Valid() && initialized == old(initialized) && solverHandle == old(solverHandle)
      ensures !old(initialized) ==> Refused(old(history), r, IllegalStateException)
      ensures old(initialized) ==> Forwarded(old(history), NativeCall.WriteModel(solverHandle, filename), r)
    {
      r := StatusCall(NativeCall.WriteModel(solverHandle, filename));
    }

    method WriteSolution(filename: string) returns (r: Outcome<HighsStatus>)
      requires Valid()
      modifies this
      ensures Valid() && initialized == old(initialized) && solverHandle == old(solverHandle)
      ensures !old(initialized) ==> Refused(old(history), r, IllegalStateException)
      ensures old(initialized) ==> Forwarded(old(history), NativeCall.WriteSolution(solverHandle, filename), r)
    {
      r := StatusCall(NativeCall.WriteSolution(solverHandle, filename));
    }

    method ReadModel(filename: string) returns (r: Outcome<HighsStatus>)
      requires Valid()
      modifies this
      ensures Valid() && initialized == old(initialized) && solverHandle == old(solverHandle)
      ensures !old(initialized) ==> Refused(old(history), r, IllegalStateException)
      ensures old(initialized) ==> Forwarded(old(history), NativeCall.ReadModel(solverHandle, filename), r)
    {
      r := StatusCall(NativeCall.ReadModel(solverHandle, filename));
    }

    /** `solve`: the native `run`, the one long-running call. */
    method Solve() returns (r: Outcome<HighsStatus>)
      requires Valid()
      modifies this
      ensures Valid() && initialized == old(initialized) && solverHandle == old(solverHandle)
      ensures !old(initialized) ==> Refused(old(history), r, IllegalStateException)
      ensures old(initialized) ==> Forwarded(old(history), Run(solverHandle), r)
    {
      r := StatusCall(Run(solverHandle));
    }

    /** The model status reply is decoded with `ModelStatus.fromInt`, so a code
        outside 0..15 (the -1 of a null handle among them) throws. */
    method GetModelStatus() returns (r: Outcome<ModelStatus>)
      requires Valid()
      modifies this
      ensures Valid() && initialized == old(initialized) && solverHandle == old(solverHandle)
      ensures !old(initialized) ==> Refused(old(history), r, IllegalStateException)
      ensures old(initialized) ==>
        var call := NativeCall.GetModelStatus(solverHandle);
        history == old(history) + [call] && r == ModelStatusCodec.Decode(native.status(old(history), call))
    {
      if !initialized {
        return Threw(IllegalStateException);
      }
      var code := Invoke(NativeCall.GetModelStatus(solverHandle));
      r := ModelStatusCodec.FromInt(code);
    }

    /** `addVar` hands back the native reply as a raw int, without decoding it. */
    method AddVar(lowerBound: real, upperBound: real) returns (r: Outcome<int>)
      requires Valid()
      modifies this
      ensures Valid() && initialized == old(initialized) && solverHandle == old(solverHandle)
      ensures !old(initialized) ==> Refused(old(history), r, IllegalStateException)
      ensures old(initialized) ==>
        var call := AddVariable(solverHandle, lowerBound, upperBound);
        history == old(history) + [call] && r == Returned(native.status(old(history), call))
    {
      if !initialized {
        return Threw(IllegalStateException);
      }
      var code := Invoke(AddVariable(solverHandle, lowerBound, upperBound));
      r := Returned(code);
    }

    /** `addVars` checks the three array lengths against `count` before any native
        call, and then forwards `count` and the bounds; `costs` is checked but not sent. */
    method AddVars(count: int, lowerBounds: NullableArray<real>, upperBounds: NullableArray<real>,
                   costs: NullableArray<real>) returns (r: Outcome<HighsStatus>)
      requires Valid()
      modifies this
      ensures Valid() && initialized == old(initialized) && solverHandle == old(solverHandle)
      ensures !old(initialized) ==> Refused(old(history), r, IllegalStateException)
      ensures old(initialized) && LengthFault([lowerBounds, upperBounds, costs], count).Some? ==>
        Refused(old(history), r, LengthFault([lowerBounds, upperBounds, costs], count).value)
      ensures old(initialized) && LengthFault([lowerBounds, upperBounds, costs], count).None? ==>
        Forwarded(old(history), AddVariables(solverHandle, count, lowerBounds, upperBounds), r)
    {
      if !initialized {
        return Threw(IllegalStateException);
      }
      var fault := LengthFault([lowerBounds, upperBounds, costs], count);
      if fault.Some? {
        return Threw(fault.value);
      }
      r := StatusCall(AddVariables(solverHandle, count, lowerBounds, upperBounds));
    }

    method DeleteVar(colIndex: int) returns (r: Outcome<HighsStatus>)
      requires Valid()
      modifies this
      ensures Valid() && initialized == old(initialized) && solverHandle == old(solverHandle)
      ensures !old(initialized) ==> Refused(old(history), r, IllegalStateException)
      ensures old(initialized) ==> Forwarded(old(history), DeleteVariable(solverHandle, colIndex), r)
    {
      r := StatusCall(DeleteVariable(solverHandle, colIndex));
    }

    method ChangeVarBounds(colIndex: int, lower: real, upper: real) returns (r: Outcome<HighsStatus>)
      requires Valid()
      modifies this
      ensures Valid() && initialized == old(initialized) && solverHandle == old(solverHandle)
      ensures !old(initialized) ==> Refused(old(history), r, IllegalStateException)
      ensures old(initialized) ==> Forwarded(old(history), ChangeVariableBounds(solverHandle, colIndex, lower, upper), r)
    {
      r := StatusCall(ChangeVariableBounds(solverHandle, colIndex, lower, upper));
    }

    /** A null `varType` throws before any native call; otherwise its code is sent. */
    method ChangeColIntegrality(colIndex: int, varType: Option<VarType>) returns (r: Outcome<HighsStatus>)
      requires Valid()
      modifies this
      ensures Valid() && initialized == old(initialized) && solverHandle == old(solverHandle)
      ensures !old(initialized) ==> Refused(old(history), r, IllegalStateException)
      ensures old(initialized) && varType.None? ==> Refused(old(history), r, IllegalArgumentException)
      ensures old(initialized) && varType.Some? ==>
        Forwarded(old(history),
                  NativeCall.ChangeColIntegrality(solverHandle, colIndex, VarTypeCodec.GetValue(varType.value)), r)
    {
      if !initialized {
        return Threw(IllegalStateException);
      }
      if varType.None? {
        return Threw(IllegalArgumentException);
      }
      r := StatusCall(NativeCall.ChangeColIntegrality(solverHandle, colIndex, VarTypeCodec.GetValue(varType.value)));
    }

    /** `addConstraint` forwards its arrays unchecked, null or not, whatever their lengths. */
    method AddConstraint(coefficients: NullableArray<real>, variableIndices: NullableArray<int>,
                         lowerBound: real, upperBound: real) returns (r: Outcome<HighsStatus>)
      requires Valid()
      modifies this
      ensures Valid() && initialized == old(initialized) && solverHandle == old(solverHandle)
      ensures !old(initialized) ==> Refused(old(history), r, IllegalStateException)
      ensures old(initialized) ==>
        Forwarded(old(history),
                  NativeCall.AddConstraint(solverHandle, coefficients, variableIndices, lowerBound, upperBound), r)
    {
      r := StatusCall(NativeCall.AddConstraint(solverHandle, coefficients, variableIndices, lowerBound, upperBound));
    }

    method DeleteConstraint(rowIndex: int) returns (r: Outcome<HighsStatus>)
      requires Valid()
      modifies this
      ensures Valid() && initialized == old(initialized) && solverHandle == old(solverHandle)
      ensures !old(initialized) ==> Refused(old(history), r, IllegalStateException)
      ensures old(initialized) ==> Forwarded(old(history), NativeCall.DeleteConstraint(solverHandle, rowIndex), r)
    {
      r := StatusCall(NativeCall.DeleteConstraint(solverHandle, rowIndex));
    }

    method ChangeConstraintBounds(rowIndex: int, lower: real, upper: real) returns (r: Outcome<HighsStatus>)
      requires Valid()
      modifies this
      ensures Valid() && initialized == old(initialized) && solverHandle == old(solverHandle)
      ensures !old(initialized) ==> Refused(old(history), r, IllegalStateException)
      ensures old(initialized) ==>
        Forwarded(old(history), NativeCall.ChangeConstraintBounds(solverHandle, rowIndex, lower, upper), r)
    {
      r := StatusCall(NativeCall.ChangeConstraintBounds(solverHandle, rowIndex, lower, upper));
    }

    /** `setObjectiveFunction` reads both array lengths (a null array throws
        NullPointerException) and throws IllegalArgumentException when they
        differ, in both cases before any native call. */
    method SetObjectiveFunction(coefficients: NullableArray<real>, variableIndices: NullableArray<int>,
                                minimize: bool, constant: real) returns (r: Outcome<HighsStatus>)
      requires Valid()
      modifies this
      ensures Valid() && initialized == old(initialized) && solverHandle == old(solverHandle)
      ensures !old(initialized) ==> Refused(old(history), r, IllegalStateException)
      ensures old(initialized) && (coefficients.None? || variableIndices.None?) ==>
        Refused(old(history), r, NullPointerException)
      ensures old(initialized) && coefficients.Some? && variableIndices.Some? &&
              |coefficients.value| != |variableIndices.value| ==>
        Refused(old(history), r, IllegalArgumentException)
      ensures old(initialized) && coefficients.Some? && variableIndices.Some? &&
              |coefficients.value| == |variableIndices.value| ==>
        Forwarded(old(history), SetObjective(solverHandle, coefficients, variableIndices, minimize, constant), r)
    {
      if !initialized {
        return Threw(IllegalStateException);
      }
      if coefficients.None? || variableIndices.None? {
        return Threw(NullPointerException);
      }
      if |coefficients.value| != |variableIndices.value| {
        return Threw(IllegalArgumentException);
      }
      r := StatusCall(SetObjective(solverHandle, coefficients, variableIndices, minimize, constant));
    }

    /** `getSolution` asks for the values, then the objective, and snapshots both.
        A null values array makes the snapshot's copy throw NullPointerException. */
    method GetSolution() returns (r: Outcome<SolutionSnapshot.Solution>)
      requires Valid()
      modifies this
      ensures Valid() && initialized == old(initialized) && solverHandle == old(solverHandle)
      ensures !old(initialized) ==> Refused(old(history), r, IllegalStateException)
      ensures old(initialized) ==>
        history == old(history) + [GetSolutionValues(solverHandle), NativeCall.GetObjectiveValue(solverHandle)]
      ensures old(initialized) && native.solutionValues(old(history)).None? ==>
        r == Threw(NullPointerException)
      ensures old(initialized) && native.solutionValues(old(history)).Some? ==>
        && r.Returned?
        && fresh(r.value) && fresh(r.value.variableValues)
        && r.value.Valid()
        && r.value.Values == native.solutionValues(old(history)).value
        && r.value.objectiveValue == native.objectiveValue(old(history) + [GetSolutionValues(solverHandle)])
    {
      if !initialized {
        return Threw(IllegalStateException);
      }
      var values := native.solutionValues(history);
      Send(GetSolutionValues(solverHandle));
      var objective := native.objectiveValue(history);
      Send(NativeCall.GetObjectiveValue(solverHandle));
      if values.None? {
        return Threw(NullPointerException);
      }
      var elements := values.value;
      var javaArray := new real[|elements|](i requires 0 <= i < |elements| => elements[i]);
      assert javaArray[..] == elements;
      var solution := new SolutionSnapshot.Solution(javaArray, objective);
      r := Returned(solution);
    }

    /** `dispose` releases the handle the first time and does nothing afterwards. */
    method Dispose()
      requires Valid()
      modifies this
      ensures Valid() && !initialized && solverHandle == old(solverHandle)
      ensures old(initialized) ==> history == old(history) + [DestroySolver(solverHandle)]
      ensures !old(initialized) ==> history == old(history)
    {
      if initialized {
        history := history + [DestroySolver(solverHandle)];
        initialized := false;
      }
    }
  }

  /** Over any run of a valid session, `destroySolver` was sent at most once,
      was the last call, and carried the session's own handle. */
  lemma ReleasedAtMostOnce(s: HiGHS)
    requires s.Valid()
    ensures forall i, j :: 0 <= i < j < |s.history| ==> !(s.history[i].DestroySolver? && s.history[j].DestroySolver?)
    ensures forall i :: 0 <= i < |s.history| && s.history[i].DestroySolver? ==>
              i == |s.history| - 1 && s.history[i] == DestroySolver(s.solverHandle) && !s.initialized
  {
  }

  /** Dispose twice, then solve: one `destroySolver`, and the solve throws without a native call. */
  method DisposeTwice(native: NativeSolver) returns (s: HiGHS, r: Outcome<HighsStatus>)
    ensures fresh(s) && s.Valid() && !s.initialized
    ensures s.history == [CreateSolver, DestroySolver(native.createdHandle)]
    ensures r == Threw(IllegalStateException)
  {
    s := new HiGHS(native);
    s.Dispose();
    s.Dispose();
    r := s.Solve();
  }

  /** Arrays that disagree with `count` are refused, and the session can still be used. */
  method MismatchedAddVars(native: NativeSolver) returns (s: HiGHS, r: Outcome<HighsStatus>)
    ensures fresh(s) && s.Valid() && s.initialized
    ensures s.history == [CreateSolver]
    ensures r == Threw(IllegalArgumentException)
  {
    var arrays: seq<NullableArray<real>> := [Some([0.0, 0.0]), Some([4.0]), Some([1.0, 1.0])];
    assert LengthFault(arrays[1..], 2) == Some(IllegalArgumentException);
    s := new HiGHS(native);
    r := s.AddVars(2, arrays[0], arrays[1], arrays[2]);
  }
}
