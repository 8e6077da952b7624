/**
 * The broadcast rule of REnvironment.ParameterList: every argument position
 * holds a vector of values, a vector of length one is reused for every call,
 * and a call is made for every index up to the longest vector.
 */
module Broadcast {
  import opened Wrappers
  import opened TypeCatalogue
  import opened Codec

  /** REnvironment.ParameterList: one vector of candidate values per argument position. */
  type ParameterList = seq<seq<ParameterWrapper>>

  const InconsistentSetup := "Inconsistent parameter setup!"
  const LengthMismatch := "The length of the java.arraylist object is different of the length of the vectors in the parameters!"

  /** The length of the longest vector, 0 for no vectors. */
  function MaxLength(params: ParameterList): (r: nat)
    ensures forall j :: 0 <= j < |params| ==> |params[j]| <= r
    ensures r == 0 || exists j :: 0 <= j < |params| && |params[j]| == r
  {
    if params == [] then 0
    else
      var rest := MaxLength(params[1..]);
      assert forall j :: 1 <= j < |params| ==> params[j] == params[1..][j - 1];
      if |params[0]| > rest then |params[0]| else rest
  }

  /** getInnerSize: the loop keeping the largest vector length seen so far. */
  method GetInnerSize(params: ParameterList) returns (size: nat)
    ensures size == MaxLength(params)
  {
    size := 0;
    var i := 0;
    while i < |params|
      invariant 0 <= i <= |params|
      invariant forall j :: 0 <= j < i ==> |params[j]| <= size
      invariant size == 0 || exists j :: 0 <= j < i && |params[j]| == size
    {
      if |params[i]| > size {
        size := |params[i]|;
      }
      i := i + 1;
    }
    MaxLengthIsLeast(params, size);
  }

  /** Any bound reached by some vector (or 0) that no vector exceeds is the maximum length. */
  lemma MaxLengthIsLeast(params: ParameterList, m: nat)
    requires forall j :: 0 <= j < |params| ==> |params[j]| <= m
    requires m == 0 || exists j :: 0 <= j < |params| && |params[j]| == m
    ensures m == MaxLength(params)
  {
  }

  /** The value a vector contributes to call `i`: its sole element, or its element `i`. */
  function Pick(v: seq<ParameterWrapper>, i: nat): JValue
    requires |v| == 1 || i < |v|
  {
    if |v| == 1 then v[0].value else v[i].value
  }

  /** Every vector can serve call `i`: it has one element or more than `i`. */
  predicate Serves(params: ParameterList, i: nat) {
    forall j :: 0 <= j < |params| ==> |params[j]| == 1 || i < |params[j]|
  }

  /** The argument array of call `i` once the guard has passed: IndexOutOfBounds from a vector that is too short. */
  function ArgumentsAt(params: ParameterList, i: nat): (r: Result<seq<JValue>, JavaException>)
    ensures r.Ok? <==> Serves(params, i)
    ensures r.Err? ==> r.error == IndexOutOfBounds
    ensures r.Ok? ==> |r.value| == |params| && forall j :: 0 <= j < |params| ==> r.value[j] == Pick(params[j], i)
  {
    if Serves(params, i) then Ok(seq(|params|, j requires 0 <= j < |params| => Pick(params[j], i)))
    else Err(IndexOutOfBounds)
  }

  /** The result of getParameterArray(i) with its guard as written: only an index above the inner size is refused. */
  function WrittenGuard(params: ParameterList, i: nat): Result<seq<JValue>, JavaException> {
    if i > MaxLength(params) then Err(InvalidParameter(InconsistentSetup)) else ArgumentsAt(params, i)
  }

  /** The result of getParameterArray(i) with the guard its message intends: every index from the inner size on is refused. */
  function IntendedGuard(params: ParameterList, i: nat): Result<seq<JValue>, JavaException> {
    if i >= MaxLength(params) then Err(InvalidParameter(InconsistentSetup)) else ArgumentsAt(params, i)
  }

  /**
   * getParameterArray as written: the guard lets `i == getInnerSize()` through,
   * so that index fails with IndexOutOfBounds on any vector longer than one,
   * or silently reuses the sole elements when every vector has length one.
   */
  method ParameterArrayAsWritten(params: ParameterList, i: nat) returns (r: Result<seq<JValue>, JavaException>)
    ensures r == WrittenGuard(params, i)
  {
    var size := GetInnerSize(params);
    if i > size {
      return Err(InvalidParameter(InconsistentSetup));
    }
    r := FillArguments(params, i);
  }

  /** getParameterArray with the guard the message intends: every index from the inner size on is rejected. */
  method ParameterArray(params: ParameterList, i: nat) returns (r: Result<seq<JValue>, JavaException>)
    ensures r == IntendedGuard(params, i)
  {
    var size := GetInnerSize(params);
    if i >= size {
      return Err(InvalidParameter(InconsistentSetup));
    }
    r := FillArguments(params, i);
  }

  /** The filling loop of getParameterArray. */
  method FillArguments(params: ParameterList, i: nat) returns (r: Result<seq<JValue>, JavaException>)
    ensures r == ArgumentsAt(params, i)
  {
    var args: seq<JValue> := [];
    var j := 0;
    while j < |params|
      invariant 0 <= j <= |params|
      invariant |args| == j
      invariant forall l :: 0 <= l < j ==> (|params[l]| == 1 || i < |params[l]|) && args[l] == Pick(params[l], i)
    {
      if |params[j]| == 1 {
        args := args + [params[j][0].value];
      } else if i < |params[j]| {
        args := args + [params[j][i].value];
      } else {
        return Err(IndexOutOfBounds);
      }
      j := j + 1;
    }
    assert Serves(params, i);
    assert args == ArgumentsAt(params, i).value;
    return Ok(args);
  }

  /** The finding: with one two-element vector, index 2 passes the guard and fails on the vector instead. */
  lemma GuardLetsInnerSizeThrough(a: ParameterWrapper, b: ParameterWrapper)
    ensures MaxLength([[a, b]]) == 2
    ensures WrittenGuard([[a, b]], 2) == Err(IndexOutOfBounds)
    ensures IntendedGuard([[a, b]], 2) == Err(InvalidParameter(InconsistentSetup))
  {
    var p := [[a, b]];
    assert |p[0]| == 2 && !(|p[0]| == 1 || 2 < |p[0]|);
    assert !Serves(p, 2);
  }


  /**
   * When every vector has length one or the inner size, every index below the
   * inner size yields an argument array: position j holds the sole element of
   * vector j, or its element i.
   */
  lemma ConsistentVectorsServeEveryCall(params: ParameterList, i: nat)
    requires forall j :: 0 <= j < |params| ==> |params[j]| == 1 || |params[j]| == MaxLength(params)
    requires i < MaxLength(params)
    ensures ArgumentsAt(params, i).Ok?
    ensures forall j :: 0 <= j < |params| ==> ArgumentsAt(params, i).value[j] == (if |params[j]| == 1 then params[j][0].value else params[j][i].value)
  {
  }

  /** A vector of another length above one makes the calls past its end fail. */
  lemma ShortVectorFails(params: ParameterList, j: nat, i: nat)
    requires j < |params| && |params[j]| != 1 && |params[j]| <= i
    ensures ArgumentsAt(params, i) == Err(IndexOutOfBounds)
  {
  }

  // ---------------------------------------------------------------------------
  // Pairing targets with argument indices
  // ---------------------------------------------------------------------------

  /** The two counts cannot be broadcast against each other: both exceed one and they differ. */
  predicate Mismatched(targets: nat, innerSize: nat) {
    targets > 1 && innerSize > 1 && targets != innerSize
  }

  function Max(a: nat, b: nat): nat {
    if a >= b then a else b
  }

  /** Call `i` of a broadcast: the target index `k` and the argument index `j`. */
  datatype CallIndex = CallIndex(target: nat, argument: nat)

  function IndexOfCall(targets: nat, innerSize: nat, i: nat): (r: CallIndex) {
    CallIndex(if targets == 1 then 0 else i, if innerSize == 1 then 0 else i)
  }

  /** The calls a broadcast makes, in order, when the counts are compatible. */
  function Calls(targets: nat, innerSize: nat): (r: seq<CallIndex>)
  {
    seq(Max(targets, innerSize), i requires 0 <= i < Max(targets, innerSize) => IndexOfCall(targets, innerSize, i))
  }

  /** Some call of `calls` is made on target `k`. */
  predicate TargetUsed(calls: seq<CallIndex>, k: nat) {
    exists i :: 0 <= i < |calls| && calls[i].target == k
  }

  /** Some call of `calls` takes its arguments from index `j` of the vectors. */
  predicate ArgumentUsed(calls: seq<CallIndex>, j: nat) {
    exists i :: 0 <= i < |calls| && calls[i].argument == j
  }

  /**
   * The broadcast makes max(#targets, innerSize) calls, every index stays in
   * range, and both sides are covered: every target is called and every
   * argument index is used.
   */
  lemma CallsCoverBothSides(targets: nat, innerSize: nat)
    requires targets >= 1 && innerSize >= 1 && !Mismatched(targets, innerSize)
    ensures |Calls(targets, innerSize)| == Max(targets, innerSize)
    ensures forall i :: 0 <= i < |Calls(targets, innerSize)| ==>
      Calls(targets, innerSize)[i].target < targets && Calls(targets, innerSize)[i].argument < innerSize
    ensures forall k :: 0 <= k < targets ==> TargetUsed(Calls(targets, innerSize), k)
    ensures forall j :: 0 <= j < innerSize ==> ArgumentUsed(Calls(targets, innerSize), j)
  {
    var cs := Calls(targets, innerSize);
    forall k | 0 <= k < targets
      ensures TargetUsed(cs, k)
    {
      var i := if targets == 1 then 0 else k;
      assert cs[i].target == k;
    }
    forall j | 0 <= j < innerSize
      ensures ArgumentUsed(cs, j)
    {
      var i := if innerSize == 1 then 0 else j;
      assert cs[i].argument == j;
    }
  }

  /**
   * Every call the broadcast makes asks getParameterArray for an index below
   * the inner size, where the guard as written and the intended guard give the
   * same argument array: the defect of the written guard never shows through
   * the broadcast.
   */
  lemma BroadcastNeverReachesGuard(targets: nat, params: ParameterList)
    requires targets >= 1 && MaxLength(params) >= 1 && !Mismatched(targets, MaxLength(params))
    ensures forall c :: c in Calls(targets, MaxLength(params)) ==>
      c.argument < MaxLength(params) &&
      WrittenGuard(params, c.argument) == IntendedGuard(params, c.argument) == ArgumentsAt(params, c.argument)
  {
    CallsCoverBothSides(targets, MaxLength(params));
  }
}
