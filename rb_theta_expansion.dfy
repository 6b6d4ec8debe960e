/**
 * RBThetaExpansion (src/reduced_basis/rb_theta_expansion.C): the registry of theta
 * functions of an affine decomposition. It keeps the A-terms, the F-terms and a ragged
 * list of outputs, each output having its own list of terms. Evaluation checks the index
 * and then delegates to the registered handle.
 */
module ThetaExpansion {
  import opened Errors
  import RBParams

  /**
   * A theta handle (RBTheta *): evaluate(mu) and evaluate_vec(mus). Their bodies lie
   * outside this model, so both are arbitrary functions of the parameter values.
   */
  datatype Theta = Theta(evaluate: RBParams.Point -> real, evaluateVec: seq<RBParams.Point> -> seq<real>)

  /** The handle's batch evaluation is the pointwise map of its single evaluation. */
  ghost predicate BatchAgrees(t: Theta) {
    forall mus: seq<RBParams.Point> ::
      |t.evaluateVec(mus)| == |mus| && forall i :: 0 <= i < |mus| ==> t.evaluateVec(mus)[i] == t.evaluate(mus[i])
  }

  /** The number of terms of all outputs together. */
  function SumSizes<T>(s: seq<seq<T>>): nat {
    if s == [] then 0 else SumSizes(s[..|s| - 1]) + |s[|s| - 1]|
  }

  /** Term qL of output n in the flat numbering of all output terms, output after output. */
  function FlatIndex<T>(s: seq<seq<T>>, n: nat, qL: nat): nat
    requires n <= |s|
  {
    qL + SumSizes(s[..n])
  }

  /** (n, qL) names an existing output term. */
  predicate ValidTerm<T>(s: seq<seq<T>>, n: nat, qL: nat) {
    n < |s| && qL < |s[n]|
  }

  /** The term counts of a prefix never exceed those of a longer prefix. */
  lemma {:induction false} SumSizesPrefix<T>(s: seq<seq<T>>, n: nat, m: nat)
    requires n <= m <= |s|
    ensures SumSizes(s[..n]) <= SumSizes(s[..m])
    ensures n < m ==> SumSizes(s[..n]) + |s[n]| <= SumSizes(s[..m])
    decreases m - n
  {
    if n < m {
      assert s[..n + 1][..n] == s[..n];
      SumSizesPrefix(s, n + 1, m);
    }
  }

  /** Appending an output leaves the sum over the earlier outputs as it was. */
  lemma SumSizesAppend<T>(s: seq<seq<T>>, v: seq<T>)
    ensures SumSizes(s + [v]) == SumSizes(s) + |v|
  {
    assert (s + [v])[..|s|] == s;
  }

  /** A valid output term has a flat index below the total number of output terms. */
  lemma FlatIndexBelowTotal<T>(s: seq<seq<T>>, n: nat, qL: nat)
    requires ValidTerm(s, n, qL)
    ensures FlatIndex(s, n, qL) < SumSizes(s)
  {
    SumSizesPrefix(s, n, |s|);
    assert s[..|s|] == s;
  }

  /** Distinct valid output terms have distinct flat indices. */
  lemma FlatIndexInjective<T>(s: seq<seq<T>>, n1: nat, q1: nat, n2: nat, q2: nat)
    requires ValidTerm(s, n1, q1) && ValidTerm(s, n2, q2)
    requires FlatIndex(s, n1, q1) == FlatIndex(s, n2, q2)
    ensures n1 == n2 && q1 == q2
  {
    if n1 < n2 {
      SumSizesPrefix(s, n1, n2);
    } else if n2 < n1 {
      SumSizesPrefix(s, n2, n1);
    }
  }

  /** The output term whose flat index is j: every index below the total is reached. */
  function Unflatten<T>(s: seq<seq<T>>, j: nat): (r: (nat, nat))
    requires j < SumSizes(s)
    ensures ValidTerm(s, r.0, r.1)
    ensures FlatIndex(s, r.0, r.1) == j
    decreases |s|
  {
    var prefix := s[..|s| - 1];
    if j >= SumSizes(prefix) then
      (|s| - 1, j - SumSizes(prefix))
    else
      var r := Unflatten(prefix, j);
      assert s[..r.0] == prefix[..r.0];
      r
  }

  /** Appending an output leaves every existing flat index unchanged. */
  lemma FlatIndexStable<T>(s: seq<seq<T>>, v: seq<T>, n: nat, qL: nat)
    requires n <= |s|
    ensures FlatIndex(s + [v], n, qL) == FlatIndex(s, n, qL)
  {
    assert (s + [v])[..n] == s[..n];
  }

  /** Outputs with 2, 0 and 3 terms: the third output's terms are numbered 2, 3 and 4 of 5. */
  lemma FlatIndexExample<T>(s: seq<seq<T>>, qL: nat)
    requires |s| == 3 && |s[0]| == 2 && |s[1]| == 0 && |s[2]| == 3
    requires qL < 3
    ensures FlatIndex(s, 2, qL) == 2 + qL
    ensures FlatIndex(s, 2, qL) < SumSizes(s) == 5
  {
    assert s[..1][..0] == [];
    assert SumSizes(s[..1]) == 2;
    assert s[..2][..1] == s[..1];
    assert SumSizes(s[..2]) == 2;
    assert s[..3] == s;
    assert s[..|s|-1] == s[..2];
    assert SumSizes(s) == 5;
  }

  class RBThetaExpansion {
    var aTheta: seq<Theta>             // _A_theta_vector
    var fTheta: seq<Theta>             // _F_theta_vector
    var outputTheta: seq<seq<Theta>>   // _output_theta_vector

    constructor ()
      ensures aTheta == [] && fTheta == [] && outputTheta == []
    {
      aTheta, fTheta, outputTheta := [], [], [];
    }

    /** get_n_A_terms(): the number of A-terms attached so far. */
    function GetNATerms(): (n: nat)
      reads this
      ensures n == |aTheta|
    {
      |aTheta|
    }

    /** get_n_F_terms(): the number of F-terms attached so far. */
    function GetNFTerms(): (n: nat)
      reads this
      ensures n == |fTheta|
    {
      |fTheta|
    }

    /** get_n_outputs(): the number of outputs attached so far. */
    function GetNOutputs(): (n: nat)
      reads this
      ensures n == |outputTheta|
    {
      |outputTheta|
    }

    /** get_n_output_terms(index): an error unless index < get_n_outputs(). */
    function GetNOutputTerms(index: nat): (r: Result<nat>)
      reads this
      ensures r.Ok? <==> index < GetNOutputs()
      ensures r.Ok? ==> r.value == |outputTheta[index]|
      ensures r.Err? ==> r.error == OutputIndexOutOfRange(index, GetNOutputs())
    {
      if index >= GetNOutputs() then Err(OutputIndexOutOfRange(index, GetNOutputs()))
      else Ok(|outputTheta[index]|)
    }

    /** get_total_n_output_terms(): the accumulating loop over all outputs. */
    method GetTotalNOutputTerms() returns (sum: nat)
      ensures sum == SumSizes(outputTheta)
    {
      sum := 0;
      var i := 0;
      while i < |outputTheta|
        invariant 0 <= i <= |outputTheta|
        invariant sum == SumSizes(outputTheta[..i])
      {
        assert outputTheta[..i + 1][..i] == outputTheta[..i];
        sum := sum + |outputTheta[i]|;
        i := i + 1;
      }
      assert outputTheta[..i] == outputTheta;
    }

    /**
     * output_index_1D(n, q_l): q_l plus the term counts of outputs 0 .. n-1. The source
     * does not check n; it reads _output_theta_vector[i] for every i < n.
     */
    method OutputIndex1D(n: nat, qL: nat) returns (index: nat)
      requires n <= |outputTheta|
      ensures index == FlatIndex(outputTheta, n, qL)
      ensures ValidTerm(outputTheta, n, qL) ==> index < SumSizes(outputTheta)
    {
      index := qL;
      var i := 0;
      while i < n
        invariant 0 <= i <= n
        invariant index == qL + SumSizes(outputTheta[..i])
      {
        assert outputTheta[..i + 1][..i] == outputTheta[..i];
        index := index + |outputTheta[i]|;
        i := i + 1;
      }
      if ValidTerm(outputTheta, n, qL) {
        FlatIndexBelowTotal(outputTheta, n, qL);
      }
    }

    method AttachATheta(theta: Theta)
      modifies this
      ensures aTheta == old(aTheta) + [theta]
      ensures GetNATerms() == old(GetNATerms()) + 1
      ensures fTheta == old(fTheta) && outputTheta == old(outputTheta)
    {
      aTheta := aTheta + [theta];
    }

    /** attach_multiple_A_theta: push_back of each handle in turn. */
    method AttachMultipleATheta(thetas: seq<Theta>)
      modifies this
      ensures aTheta == old(aTheta) + thetas
      ensures GetNATerms() == old(GetNATerms()) + |thetas|
      ensures fTheta == old(fTheta) && outputTheta == old(outputTheta)
    {
      var i := 0;
      while i < |thetas|
        invariant 0 <= i <= |thetas|
        invariant aTheta == old(aTheta) + thetas[..i]
        invariant fTheta == old(fTheta) && outputTheta == old(outputTheta)
      {
        assert thetas[..i + 1] == thetas[..i] + [thetas[i]];
        aTheta := aTheta + [thetas[i]];
        i := i + 1;
      }
      assert thetas[..i] == thetas;
    }

    method AttachFTheta(theta: Theta)
      modifies this
      ensures fTheta == old(fTheta) + [theta]
      ensures GetNFTerms() == old(GetNFTerms()) + 1
      ensures aTheta == old(aTheta) && outputTheta == old(outputTheta)
    {
      fTheta := fTheta + [theta];
    }

    /** attach_multiple_F_theta. */
    method AttachMultipleFTheta(thetas: seq<Theta>)
      modifies this
      ensures fTheta == old(fTheta) + thetas
      ensures GetNFTerms() == old(GetNFTerms()) + |thetas|
      ensures aTheta == old(aTheta) && outputTheta == old(outputTheta)
    {
      var i := 0;
      while i < |thetas|
        invariant 0 <= i <= |thetas|
        invariant fTheta == old(fTheta) + thetas[..i]
        invariant aTheta == old(aTheta) && outputTheta == old(outputTheta)
      {
        assert thetas[..i + 1] == thetas[..i] + [thetas[i]];
        fTheta := fTheta + [thetas[i]];
        i := i + 1;
      }
      assert thetas[..i] == thetas;
    }

    /**
     * attach_output_theta(std::vector<std::unique_ptr<RBTheta>> &): copies the raw handles
     * into a new vector, in order, and appends it as one output.
     */
    method AttachOutputThetaOwned(thetas: seq<Theta>)
      modifies this
      ensures outputTheta == old(outputTheta) + [thetas]
      ensures aTheta == old(aTheta) && fTheta == old(fTheta)
    {
      var handles: seq<Theta> := [];
      var i := 0;
      while i < |thetas|
        invariant 0 <= i <= |thetas|
        invariant handles == thetas[..i]
      {
        assert thetas[..i + 1] == thetas[..i] + [thetas[i]];
        handles := handles + [thetas[i]];
        i := i + 1;
      }
      assert thetas[..i] == thetas;
      outputTheta := outputTheta + [handles];
    }

    /** attach_output_theta(std::vector<RBTheta *>): appends the vector as one output. */
    method AttachOutputThetaVector(thetas: seq<Theta>)
      modifies this
      ensures outputTheta == old(outputTheta) + [thetas]
      ensures aTheta == old(aTheta) && fTheta == old(fTheta)
    {
      outputTheta := outputTheta + [thetas];
    }

    /** attach_output_theta(RBTheta *): one output with exactly one term. */
    method AttachOutputTheta(theta: Theta)
      modifies this
      ensures outputTheta == old(outputTheta) + [[theta]]
      ensures GetNOutputs() == old(GetNOutputs()) + 1
      ensures GetNOutputTerms(GetNOutputs() - 1) == Ok(1)
      ensures aTheta == old(aTheta) && fTheta == old(fTheta)
    {
      AttachOutputThetaVector([theta]);
    }

    /** eval_A_theta(q, mu). */
    function EvalATheta(q: nat, mu: RBParams.Point): (r: Result<real>)
      reads this
      ensures r.Ok? <==> q < GetNATerms()
      ensures r.Ok? ==> r.value == aTheta[q].evaluate(mu)
      ensures r.Err? ==> r.error == TermIndexOutOfRange(q, GetNATerms())
    {
      if q >= GetNATerms() then Err(TermIndexOutOfRange(q, GetNATerms())) else Ok(aTheta[q].evaluate(mu))
    }

    /** eval_A_theta(q, mus): the handle's own batch evaluation. */
    function EvalAThetaVec(q: nat, mus: seq<RBParams.Point>): (r: Result<seq<real>>)
      reads this
      ensures r.Ok? <==> q < GetNATerms()
      ensures r.Ok? ==> r.value == aTheta[q].evaluateVec(mus)
      ensures r.Err? ==> r.error == TermIndexOutOfRange(q, GetNATerms())
    {
      if q >= GetNATerms() then Err(TermIndexOutOfRange(q, GetNATerms())) else Ok(aTheta[q].evaluateVec(mus))
    }

    /** eval_F_theta(q, mu). */
    function EvalFTheta(q: nat, mu: RBParams.Point): (r: Result<real>)
      reads this
      ensures r.Ok? <==> q < GetNFTerms()
      ensures r.Ok? ==> r.value == fTheta[q].evaluate(mu)
      ensures r.Err? ==> r.error == TermIndexOutOfRange(q, GetNFTerms())
    {
      if q >= GetNFTerms() then Err(TermIndexOutOfRange(q, GetNFTerms())) else Ok(fTheta[q].evaluate(mu))
    }

    /** eval_F_theta(q, mus). */
    function EvalFThetaVec(q: nat, mus: seq<RBParams.Point>): (r: Result<seq<real>>)
      reads this
      ensures r.Ok? <==> q < GetNFTerms()
      ensures r.Ok? ==> r.value == fTheta[q].evaluateVec(mus)
      ensures r.Err? ==> r.error == TermIndexOutOfRange(q, GetNFTerms())
    {
      if q >= GetNFTerms() then Err(TermIndexOutOfRange(q, GetNFTerms())) else Ok(fTheta[q].evaluateVec(mus))
    }

    /**
     * eval_output_theta(output_index, q_l, mu): one error for both bad indices; the term
     * count is read only once output_index is known to be in range.
     */
    function EvalOutputTheta(outputIndex: nat, qL: nat, mu: RBParams.Point): (r: Result<real>)
      reads this
      ensures r.Ok? <==> ValidTerm(outputTheta, outputIndex, qL)
      ensures r.Ok? ==> r.value == outputTheta[outputIndex][qL].evaluate(mu)
      ensures r.Err? ==> r.error == OutputTermOutOfRange(outputIndex, qL)
    {
      if outputIndex >= GetNOutputs() || qL >= GetNOutputTerms(outputIndex).value then
        Err(OutputTermOutOfRange(outputIndex, qL))
      else
        Ok(outputTheta[outputIndex][qL].evaluate(mu))
    }

    /** eval_output_theta(output_index, q_l, mus). */
    function EvalOutputThetaVec(outputIndex: nat, qL: nat, mus: seq<RBParams.Point>): (r: Result<seq<real>>)
      reads this
      ensures r.Ok? <==> ValidTerm(outputTheta, outputIndex, qL)
      ensures r.Ok? ==> r.value == outputTheta[outputIndex][qL].evaluateVec(mus)
      ensures r.Err? ==> r.error == OutputTermOutOfRange(outputIndex, qL)
    {
      if outputIndex >= GetNOutputs() || qL >= GetNOutputTerms(outputIndex).value then
        Err(OutputTermOutOfRange(outputIndex, qL))
      else
        Ok(outputTheta[outputIndex][qL].evaluateVec(mus))
    }
  }

  /** Every handle registered in the expansion evaluates batches pointwise. */
  ghost predicate AllBatchAgree(e: RBThetaExpansion)
    reads e
  {
    (forall t :: t in e.aTheta ==> BatchAgrees(t))
    && (forall t :: t in e.fTheta ==> BatchAgrees(t))
    && (forall o, t :: o in e.outputTheta && t in o ==> BatchAgrees(t))
  }

  /**
   * When every handle agrees with itself, each batch evaluation of the expansion fails
   * exactly when the single one does, and otherwise is the list of single evaluations.
   */
  lemma BatchIsPointwise(e: RBThetaExpansion, q: nat, outputIndex: nat, qL: nat, mus: seq<RBParams.Point>)
    requires AllBatchAgree(e)
    ensures forall mu :: e.EvalAThetaVec(q, mus).Ok? == e.EvalATheta(q, mu).Ok?
    ensures e.EvalAThetaVec(q, mus).Ok? ==>
      (|e.EvalAThetaVec(q, mus).value| == |mus|
       && forall i :: 0 <= i < |mus| ==> e.EvalAThetaVec(q, mus).value[i] == e.EvalATheta(q, mus[i]).value)
    ensures forall mu :: e.EvalFThetaVec(q, mus).Ok? == e.EvalFTheta(q, mu).Ok?
    ensures e.EvalFThetaVec(q, mus).Ok? ==>
      (|e.EvalFThetaVec(q, mus).value| == |mus|
       && forall i :: 0 <= i < |mus| ==> e.EvalFThetaVec(q, mus).value[i] == e.EvalFTheta(q, mus[i]).value)
    ensures forall mu :: e.EvalOutputThetaVec(outputIndex, qL, mus).Ok? == e.EvalOutputTheta(outputIndex, qL, mu).Ok?
    ensures e.EvalOutputThetaVec(outputIndex, qL, mus).Ok? ==>
      (|e.EvalOutputThetaVec(outputIndex, qL, mus).value| == |mus|
       && forall i :: 0 <= i < |mus| ==>
         e.EvalOutputThetaVec(outputIndex, qL, mus).value[i] == e.EvalOutputTheta(outputIndex, qL, mus[i]).value)
  {
    if q < |e.aTheta| {
      assert e.aTheta[q] in e.aTheta;
    }
    if q < |e.fTheta| {
      assert e.fTheta[q] in e.fTheta;
    }
    if ValidTerm(e.outputTheta, outputIndex, qL) {
      var o := e.outputTheta[outputIndex];
      assert o in e.outputTheta && o[qL] in o;
    }
  }

  /** A handle for a constant theta function. */
  function Constant(c: real): (t: Theta)
    ensures BatchAgrees(t)
    ensures forall mu :: t.evaluate(mu) == c
  {
    Theta(_ => c, mus => seq(|mus|, _ => c))
  }

  /** A handle for the theta function mu |-> value of parameter name at step 0, or 0 when unset. */
  function ParameterValue(name: string): (t: Theta)
    ensures BatchAgrees(t)
    ensures forall mu: RBParams.Point :: name in mu.parameters && |mu.parameters[name]| > 0 ==>
      t.evaluate(mu) == mu.parameters[name][0]
  {
    var f := (mu: RBParams.Point) =>
      if name in mu.parameters && |mu.parameters[name]| > 0 then mu.parameters[name][0] else 0.0;
    Theta(f, mus => seq(|mus|, i requires 0 <= i < |mus| => f(mus[i])))
  }

  /**
   * A two-term affine expansion theta_0(mu) = mu["k"], theta_1 = 1, evaluated at a point
   * whose parameter k holds 3.5.
   */
  method EvalScenario() returns (first: Result<real>, second: Result<real>, beyond: Result<real>)
    ensures first == Ok(3.5) && second == Ok(1.0)
    ensures beyond == Err(TermIndexOutOfRange(2, 2))
  {
    var mu := new RBParams.RBParameters();
    mu.SetValueAt("k", 0, 3.5);
    var point := mu.Snapshot();
    assert point.parameters["k"] == [3.5];
    var e := new RBThetaExpansion();
    var thetaK, thetaOne := ParameterValue("k"), Constant(1.0);
    e.AttachMultipleATheta([thetaK, thetaOne]);
    assert e.aTheta[0] == thetaK && e.aTheta[1] == thetaOne;
    first := e.EvalATheta(0, point);
    second := e.EvalATheta(1, point);
    beyond := e.EvalATheta(2, point);
  }

  /** An output of two terms registered after an output of one: its second term is flat index 2 of 3. */
  method FlatScenario(t: Theta) returns (flat: nat, total: nat)
    ensures flat == 2 && total == 3
  {
    var e := new RBThetaExpansion();
    e.AttachOutputTheta(t);
    e.AttachOutputThetaVector([t, t]);
    assert e.outputTheta == [[t], [t, t]];
    assert e.outputTheta[..1][..0] == [];
    assert SumSizes(e.outputTheta[..1]) == 1;
    assert e.outputTheta[..|e.outputTheta| - 1] == e.outputTheta[..1];
    flat := e.OutputIndex1D(1, 1);
    total := e.GetTotalNOutputTerms();
  }
}
