/**
 * RBParameters (src/reduced_basis/rb_parameters.C): a parameter point of the reduced
 * basis method. Each named parameter holds one value per step; a second, independent
 * map holds the "extra" parameters; _n_steps is the step count declared for a point
 * that has no parameters yet.
 */
module RBParams {
  import opened Errors
  import Utility
  import opened KeyOrder

  /** std::map<std::string, std::vector<Real>>. */
  type ParamMap = map<string, seq<real>>

  /** The value of an RBParameters object, as theta functions receive it (a const reference). */
  datatype Point = Point(parameters: ParamMap, extraParameters: ParamMap, nSteps: nat)

  function Max(a: nat, b: nat): nat {
    if a < b then b else a
  }

  /** map[name]: the stored vector, or the empty vector std::map::operator[] inserts for a new name. */
  function Entry(m: ParamMap, name: string): seq<real> {
    if name in m then m[name] else []
  }

  /** std::vector<Real>::resize(n) for n >= size: appends value-initialised (zero) elements. */
  function Resize(vec: seq<real>, n: nat): (r: seq<real>)
    requires |vec| <= n
    ensures |r| == n
    ensures forall i :: 0 <= i < |vec| ==> r[i] == vec[i]
    ensures forall i :: |vec| <= i < n ==> r[i] == 0.0
  {
    vec + seq(n - |vec|, _ => 0.0)
  }

  /**
   * set_value_helper: write value at index of the vector stored under name, creating the
   * vector if needed, appending when index is its size and zero-padding when index is beyond.
   */
  function SetValueHelper(m: ParamMap, name: string, index: nat, value: real): (r: ParamMap)
    ensures r.Keys == m.Keys + {name}
    ensures |r[name]| == Max(|Entry(m, name)|, index + 1)
    ensures r[name][index] == value
    ensures forall i :: 0 <= i < |Entry(m, name)| && i != index ==> r[name][i] == Entry(m, name)[i]
    ensures forall i :: |Entry(m, name)| <= i < index ==> r[name][i] == 0.0
    ensures forall k :: k in m && k != name ==> r[k] == m[k]
  {
    var vec := Entry(m, name);
    var written :=
      if |vec| > index then vec[index := value]
      else if |vec| == index then vec + [value]
      else Resize(vec, index + 1)[index := value];
    m[name := written]
  }

  /** Writing one past the end is the same as push_back. */
  lemma SetAtEndIsPushBack(m: ParamMap, name: string, value: real)
    ensures SetValueHelper(m, name, |Entry(m, name)|, value) == m[name := Entry(m, name) + [value]]
  {
  }

  /** Writing at an index that is already stored changes that one entry only. */
  lemma {:induction false} SetValueHelperOverwrites(m: ParamMap, name: string, index: nat, value: real)
    requires name in m && index < |m[name]|
    ensures SetValueHelper(m, name, index, value) == m[name := m[name][index := value]]
  {
    var r := SetValueHelper(m, name, index, value);
    assert r[name] == m[name][index := value];
  }

  /** Every name of m with its one value as a single-step vector (the legacy constructor). */
  function SingleSteps(m: map<string, real>): ParamMap {
    map k | k in m :: [m[k]]
  }

  /** Every parameter has the same number of steps (what n_steps checks in DEBUG builds). */
  ghost predicate Consistent(m: ParamMap) {
    forall a, b :: a in m && b in m ==> |m[a]| == |m[b]|
  }

  /** n_steps(): the declared count when there are no parameters, else the size of the first one. */
  ghost function StepsOf(m: ParamMap, declared: nat): nat {
    if m.Keys == {} then declared else |m[FirstOf(m.Keys)]|
  }

  /** When all vectors have one size, n_steps is that size whichever key comes first. */
  lemma ConsistentSteps(m: ParamMap, declared: nat, k: string)
    requires Consistent(m) && k in m
    ensures StepsOf(m, declared) == |m[k]|
  {
  }

  /**
   * operator+= keeps the step invariant: merging two consistent points with equal
   * n_steps() gives a consistent point with the same n_steps().
   */
  lemma MergeKeepsSteps(m: ParamMap, declared: nat, rhs: ParamMap, rhsDeclared: nat)
    requires Consistent(m) && Consistent(rhs)
    requires StepsOf(m, declared) == StepsOf(rhs, rhsDeclared)
    ensures Consistent(m + rhs)
    ensures StepsOf(m + rhs, declared) == StepsOf(m, declared)
  {
    var s := StepsOf(m, declared);
    if m.Keys == {} {
      assert m + rhs == rhs;
    } else if rhs.Keys == {} {
      assert m + rhs == m;
    } else {
      var u := m + rhs;
      forall k | k in u ensures |u[k]| == s {
        if k in rhs {
          ConsistentSteps(rhs, rhsDeclared, k);
        } else {
          ConsistentSteps(m, declared, k);
        }
      }
      assert u.Keys != {};
    }
  }

  /** The legacy constructor's point has one step, and every parameter holds exactly one value. */
  lemma SingleStepsHaveOneStep(m: map<string, real>)
    ensures Consistent(SingleSteps(m))
    ensures StepsOf(SingleSteps(m), 1) == 1
  {
  }

  class RBParameters {
    var parameters: ParamMap        // _parameters
    var extraParameters: ParamMap   // _extra_parameters
    var nSteps: nat                 // _n_steps

    /** The default constructor: no parameters, one step. */
    constructor ()
      ensures parameters == map[] && extraParameters == map[] && nSteps == 1
    {
      parameters, extraParameters, nSteps := map[], map[], 1;
    }

    /** The constructor from a map<string, Real>: each value becomes a single-step vector. */
    constructor FromMap(parameterMap: map<string, real>)
      ensures parameters == SingleSteps(parameterMap)
      ensures extraParameters == map[] && nSteps == 1
    {
      var built: ParamMap := map[];
      var todo := parameterMap.Keys;
      while todo != {}
        invariant todo <= parameterMap.Keys
        invariant built == map k | k in parameterMap.Keys - todo :: [parameterMap[k]]
        decreases |todo|
      {
        var key :| key in todo;
        built := built[key := [parameterMap[key]]];
        todo := todo - {key};
      }
      parameters, extraParameters, nSteps := built, map[], 1;
    }

    /** The value handed to theta functions. */
    function Snapshot(): (p: Point)
      reads this
      ensures p.parameters == parameters && p.extraParameters == extraParameters && p.nSteps == nSteps
    {
      Point(parameters, extraParameters, nSteps)
    }

    /** n_steps() as a function of the state. */
    ghost function StepCount(): nat
      reads this
    {
      StepsOf(parameters, nSteps)
    }

    method Clear()
      modifies this
      ensures parameters == map[] && extraParameters == map[] && nSteps == 1
      ensures NParameters() == 0 && StepCount() == 1
    {
      nSteps := 1;
      parameters := map[];
      extraParameters := map[];
    }

    function HasValue(name: string): (b: bool)
      reads this
      ensures b <==> Utility.MapFind(parameters, name).Ok?
    {
      name in parameters
    }

    function HasExtraValue(name: string): (b: bool)
      reads this
      ensures b <==> Utility.MapFind(extraParameters, name).Ok?
    {
      name in extraParameters
    }

    /** get_step_value(name, step): map_find's error for a missing name, a step error past the end. */
    function GetStepValue(name: string, step: nat): (r: Result<real>)
      reads this
      ensures r.Ok? <==> name in parameters && step < |parameters[name]|
      ensures r.Ok? ==> r.value == parameters[name][step]
      ensures name !in parameters ==> r == Err(KeyNotFound)
      ensures name in parameters && step >= |parameters[name]| ==> r == Err(StepOutOfRange(name, step))
    {
      var vec :- Utility.MapFind(parameters, name);
      if step >= |vec| then Err(StepOutOfRange(name, step)) else Ok(vec[step])
    }

    /** get_value(name): the legacy accessor, the value of step 0. */
    function GetValue(name: string): (r: Result<real>)
      reads this
      ensures r.Ok? <==> name in parameters && |parameters[name]| > 0
      ensures r.Ok? ==> r.value == parameters[name][0]
      ensures name !in parameters ==> r == Err(KeyNotFound)
      ensures name in parameters && |parameters[name]| == 0 ==> r == Err(StepOutOfRange(name, 0))
    {
      GetStepValue(name, 0)
    }

    /** get_step_value(name, step, default_val): never fails; the default covers both failures. */
    function GetStepValueOr(name: string, step: nat, defaultVal: real): (r: real)
      reads this
      ensures GetStepValue(name, step).Ok? ==> r == GetStepValue(name, step).value
      ensures GetStepValue(name, step).Err? ==> r == defaultVal
    {
      if name in parameters && step < |parameters[name]| then parameters[name][step] else defaultVal
    }

    /** get_value(name, default_val): the defaulted accessor at step 0. */
    function GetValueOr(name: string, defaultVal: real): (r: real)
      reads this
      ensures GetValue(name).Ok? ==> r == GetValue(name).value
      ensures GetValue(name).Err? ==> r == defaultVal
    {
      GetStepValueOr(name, 0, defaultVal)
    }

    /** get_extra_step_value(name, step). */
    function GetExtraStepValue(name: string, step: nat): (r: Result<real>)
      reads this
      ensures r.Ok? <==> name in extraParameters && step < |extraParameters[name]|
      ensures r.Ok? ==> r.value == extraParameters[name][step]
      ensures name !in extraParameters ==> r == Err(KeyNotFound)
      ensures name in extraParameters && step >= |extraParameters[name]| ==> r == Err(StepOutOfRange(name, step))
    {
      var vec :- Utility.MapFind(extraParameters, name);
      if step >= |vec| then Err(StepOutOfRange(name, step)) else Ok(vec[step])
    }

    /** get_extra_value(name): tests for an empty vector rather than a step bound, to the same effect. */
    function GetExtraValue(name: string): (r: Result<real>)
      reads this
      ensures r == GetExtraStepValue(name, 0)
    {
      var vec :- Utility.MapFind(extraParameters, name);
      if |vec| == 0 then Err(StepOutOfRange(name, 0)) else Ok(vec[0])
    }

    /** get_extra_step_value(name, step, default_val). */
    function GetExtraStepValueOr(name: string, step: nat, defaultVal: real): (r: real)
      reads this
      ensures GetExtraStepValue(name, step).Ok? ==> r == GetExtraStepValue(name, step).value
      ensures GetExtraStepValue(name, step).Err? ==> r == defaultVal
    {
      if name in extraParameters && step < |extraParameters[name]| then extraParameters[name][step] else defaultVal
    }

    /** get_extra_value(name, default_val). */
    function GetExtraValueOr(name: string, defaultVal: real): (r: real)
      reads this
      ensures r == GetExtraStepValueOr(name, 0, defaultVal)
    {
      if name in extraParameters && |extraParameters[name]| != 0 then extraParameters[name][0] else defaultVal
    }

    /** set_value(name, value): the legacy setter replaces the whole vector by [value]. */
    method SetValue(name: string, value: real)
      modifies this
      ensures parameters.Keys == old(parameters.Keys) + {name}
      ensures parameters[name] == [value]
      ensures forall k :: k in old(parameters) && k != name ==> parameters[k] == old(parameters)[k]
      ensures extraParameters == old(extraParameters) && nSteps == old(nSteps)
    {
      parameters := parameters[name := [value]];
    }

    /** set_value(name, index, value). */
    method SetValueAt(name: string, index: nat, value: real)
      modifies this
      ensures parameters == SetValueHelper(old(parameters), name, index, value)
      ensures extraParameters == old(extraParameters) && nSteps == old(nSteps)
    {
      parameters := SetValueHelper(parameters, name, index, value);
    }

    /** set_extra_value(name, index, value). */
    method SetExtraValueAt(name: string, index: nat, value: real)
      modifies this
      ensures extraParameters == SetValueHelper(old(extraParameters), name, index, value)
      ensures parameters == old(parameters) && nSteps == old(nSteps)
    {
      extraParameters := SetValueHelper(extraParameters, name, index, value);
    }

    /** set_extra_value(name, value): the legacy setter for the extra map. */
    method SetExtraValue(name: string, value: real)
      modifies this
      ensures extraParameters.Keys == old(extraParameters.Keys) + {name}
      ensures extraParameters[name] == [value]
      ensures forall k :: k in old(extraParameters) && k != name ==> extraParameters[k] == old(extraParameters)[k]
      ensures parameters == old(parameters) && nSteps == old(nSteps)
    {
      extraParameters := extraParameters[name := [value]];
    }

    /** push_back_value(name, value): one more step, creating the parameter if it is new. */
    method PushBackValue(name: string, value: real)
      modifies this
      ensures parameters.Keys == old(parameters.Keys) + {name}
      ensures parameters[name] == Entry(old(parameters), name) + [value]
      ensures forall k :: k in old(parameters) && k != name ==> parameters[k] == old(parameters)[k]
      ensures extraParameters == old(extraParameters) && nSteps == old(nSteps)
    {
      parameters := parameters[name := Entry(parameters, name) + [value]];
    }

    /** push_back_extra_value(name, value). */
    method PushBackExtraValue(name: string, value: real)
      modifies this
      ensures extraParameters.Keys == old(extraParameters.Keys) + {name}
      ensures extraParameters[name] == Entry(old(extraParameters), name) + [value]
      ensures forall k :: k in old(extraParameters) && k != name ==> extraParameters[k] == old(extraParameters)[k]
      ensures parameters == old(parameters) && nSteps == old(nSteps)
    {
      extraParameters := extraParameters[name := Entry(extraParameters, name) + [value]];
    }

    /** n_parameters(). */
    function NParameters(): (n: nat)
      reads this
      ensures n == 0 <==> parameters == map[]
    {
      |parameters|
    }

    /** set_n_steps(n): the declared count, used only while there are no parameters. */
    method SetNSteps(n: nat)
      modifies this
      ensures nSteps == n
      ensures parameters == old(parameters) && extraParameters == old(extraParameters)
      ensures parameters == map[] ==> StepCount() == n
    {
      nSteps := n;
    }

    /**
     * n_steps() as built without DEBUG: _n_steps when there are no parameters, otherwise
     * the size of the first parameter's vector, unchecked against the others.
     */
    method NSteps() returns (n: nat)
      ensures n == StepCount()
      ensures parameters == map[] ==> n == nSteps
      ensures Consistent(parameters) ==> forall k :: k in parameters ==> n == |parameters[k]|
    {
      if parameters.Keys == {} {
        return nSteps;
      }
      var first := FirstKey(parameters.Keys);
      n := |parameters[first]|;
    }

    /**
     * n_steps() as built with DEBUG: the loop over all parameters asserts that each has
     * the first one's size, and the failed assertion is reported as an error.
     */
    method NStepsChecked() returns (r: Result<nat>)
      ensures r.Ok? <==> Consistent(parameters)
      ensures r.Ok? ==> r.value == StepCount()
      ensures r.Err? ==> r.error == InconsistentSteps
    {
      if parameters.Keys == {} {
        return Ok(nSteps);
      }
      var first := FirstKey(parameters.Keys);
      var sizeFirst := |parameters[first]|;
      var todo := parameters.Keys;
      while todo != {}
        invariant todo <= parameters.Keys
        invariant forall k :: k in parameters && k !in todo ==> |parameters[k]| == sizeFirst
        decreases |todo|
      {
        var k :| k in todo;
        if |parameters[k]| != sizeFirst {
          return Err(InconsistentSteps);
        }
        todo := todo - {k};
      }
      return Ok(sizeFirst);
    }

    /** get_parameter_names(): the key set, gathered by visiting every entry. */
    method GetParameterNames() returns (names: set<string>)
      ensures names == parameters.Keys
    {
      names := CollectKeys(parameters);
    }

    /** get_extra_parameter_names(). */
    method GetExtraParameterNames() returns (names: set<string>)
      ensures names == extraParameters.Keys
    {
      names := CollectKeys(extraParameters);
    }

    /** erase_parameter(name): no effect when name is absent. */
    method EraseParameter(name: string)
      modifies this
      ensures parameters.Keys == old(parameters.Keys) - {name}
      ensures forall k :: k in parameters ==> parameters[k] == old(parameters)[k]
      ensures extraParameters == old(extraParameters) && nSteps == old(nSteps)
    {
      parameters := parameters - {name};
    }

    /** erase_extra_parameter(name). */
    method EraseExtraParameter(name: string)
      modifies this
      ensures extraParameters.Keys == old(extraParameters.Keys) - {name}
      ensures forall k :: k in extraParameters ==> extraParameters[k] == old(extraParameters)[k]
      ensures parameters == old(parameters) && nSteps == old(nSteps)
    {
      extraParameters := extraParameters - {name};
    }

    /** operator==: both maps agree key by key and vector by vector; _n_steps is not compared. */
    function Equals(rhs: RBParameters): (b: bool)
      reads this, rhs
      ensures b <==> SameLookups(parameters, rhs.parameters) && SameLookups(extraParameters, rhs.extraParameters)
    {
      EqualByLookups(parameters, rhs.parameters);
      EqualByLookups(extraParameters, rhs.extraParameters);
      parameters == rhs.parameters && extraParameters == rhs.extraParameters
    }

    /** operator!=. */
    function NotEquals(rhs: RBParameters): (b: bool)
      reads this, rhs
      ensures b <==> parameters != rhs.parameters || extraParameters != rhs.extraParameters
    {
      !Equals(rhs)
    }

    /**
     * operator+=: an error when n_steps() differ; otherwise every entry of rhs, in both
     * maps, overwrites or joins this object's entries.
     */
    method Append(rhs: RBParameters) returns (res: Outcome)
      modifies this
      ensures old(StepCount()) != old(rhs.StepCount()) ==>
        res == Fail(StepCountMismatch(old(StepCount()), old(rhs.StepCount())))
        && parameters == old(parameters) && extraParameters == old(extraParameters)
      ensures old(StepCount()) == old(rhs.StepCount()) ==>
        res == Pass
        && parameters == old(parameters) + old(rhs.parameters)
        && extraParameters == old(extraParameters) + old(rhs.extraParameters)
      ensures nSteps == old(nSteps)
      ensures res == Pass && old(Consistent(parameters)) && old(Consistent(rhs.parameters)) ==>
        Consistent(parameters) && StepCount() == old(StepCount())
    {
      var lhsSteps := NSteps();
      var rhsSteps := rhs.NSteps();
      if lhsSteps != rhsSteps {
        return Fail(StepCountMismatch(lhsSteps, rhsSteps));
      }
      ghost var before, rhsBefore := parameters, rhs.parameters;
      ghost var rhsDeclared := rhs.nSteps;
      var src, srcExtra := rhs.parameters, rhs.extraParameters;
      parameters := OverwriteAll(parameters, src);
      extraParameters := OverwriteAll(extraParameters, srcExtra);
      if Consistent(before) && Consistent(rhsBefore) {
        MergeKeepsSteps(before, nSteps, rhsBefore, rhsDeclared);
      }
      return Pass;
    }
  }

  /** Every checked lookup by name gives the same result in both maps. */
  ghost predicate SameLookups(m: ParamMap, n: ParamMap) {
    forall name :: Utility.MapFind(m, name) == Utility.MapFind(n, name)
  }

  /** Two maps are equal exactly when every checked lookup agrees. */
  lemma EqualByLookups(m: ParamMap, n: ParamMap)
    ensures m == n <==> SameLookups(m, n)
  {
    if SameLookups(m, n) {
      forall k | k in m ensures k in n && m[k] == n[k] {
        assert Utility.MapFind(m, k) == Utility.MapFind(n, k);
      }
      forall k | k in n ensures k in m {
        assert Utility.MapFind(m, k) == Utility.MapFind(n, k);
      }
      assert m.Keys == n.Keys;
    }
  }

  /** The loop of get_*_parameter_names: inserts each key it visits. */
  method CollectKeys(m: ParamMap) returns (names: set<string>)
    ensures names == m.Keys
  {
    names := {};
    var todo := m.Keys;
    while todo != {}
      invariant todo <= m.Keys
      invariant names == m.Keys - todo
      decreases |todo|
    {
      var k :| k in todo;
      names := names + {k};
      todo := todo - {k};
    }
  }

  /**
   * The loops of operator+=: "dst[key] = vec" for each (key, vec) of src. Keys of src end
   * with src's vectors; keys only in dst keep theirs.
   */
  method OverwriteAll(dst: ParamMap, src: ParamMap) returns (r: ParamMap)
    ensures r == dst + src
  {
    r := dst;
    var todo := src.Keys;
    while todo != {}
      invariant todo <= src.Keys
      invariant r == dst + (src - todo)
      decreases |todo|
    {
      var key :| key in todo;
      assert dst + (src - (todo - {key})) == (dst + (src - todo))[key := src[key]];
      r := r[key := src[key]];
      todo := todo - {key};
    }
    assert src - {} == src;
  }

  /** The legacy constructor round trip: get_value returns each original value, and n_steps() is 1. */
  lemma FromMapRoundTrip(p: RBParameters, m: map<string, real>)
    requires p.parameters == SingleSteps(m) && p.nSteps == 1
    ensures forall k :: k in m ==> p.GetValue(k) == Ok(m[k])
    ensures forall k :: k !in m ==> p.GetValue(k) == Err(KeyNotFound)
    ensures p.StepCount() == 1
  {
    SingleStepsHaveOneStep(m);
  }

  /** After set_value(name, j, v) on a parameter-free point, steps below j read 0 and step j reads v. */
  lemma SetOnEmptyZeroFills(p: RBParameters, name: string, j: nat, v: real)
    requires name !in p.parameters
    ensures var m := SetValueHelper(p.parameters, name, j, v);
            |m[name]| == j + 1 && m[name][j] == v && forall i :: 0 <= i < j ==> m[name][i] == 0.0
  {
  }

  /** push_back_value called once per element of vs on a new name stores exactly vs. */
  method PushBackAll(p: RBParameters, name: string, vs: seq<real>)
    requires name !in p.parameters
    modifies p
    ensures forall i :: 0 <= i < |vs| ==> p.GetStepValue(name, i) == Ok(vs[i])
    ensures p.GetStepValue(name, |vs|) == Err(if vs == [] then KeyNotFound else StepOutOfRange(name, |vs|))
  {
    var i := 0;
    while i < |vs|
      invariant 0 <= i <= |vs|
      invariant i == 0 ==> name !in p.parameters
      invariant i > 0 ==> name in p.parameters && p.parameters[name] == vs[..i]
    {
      p.PushBackValue(name, vs[i]);
      assert vs[..i + 1] == vs[..i] + [vs[i]];
      i := i + 1;
    }
    assert vs != [] ==> vs[..|vs|] == vs;
  }
}
