# libMesh reduced-basis parameters, theta expansion and utilities in Dafny

This project models three pieces of libMesh and proves properties about them.

- **`RBParameters`**: a parameter point of the reduced basis method. It is a map from parameter names to one value per step. Beside it sits an independent map of "extra" parameters and a declared step count (`_n_steps`) that applies while no parameter is set. The model is a class with fields `parameters`, `extraParameters` and `nSteps`. It covers:
  - the checked getters, the defaulted getters and the setters (`set_value_helper` assigns, appends or zero-pads);
  - `push_back`, erasure, `n_steps` in its release form and its DEBUG form, and the name sets;
  - equality and the step-checked right-biased merge `operator+=`.
- **`RBThetaExpansion`**: the registry of theta functions of an affine decomposition. It holds A-terms, F-terms and a ragged list of outputs. The model covers:
  - the counts, and the prefix-sum flattening `output_index_1D` together with the `get_total_n_output_terms` loop;
  - the attach family;
  - the bounds-checked evaluations, in single and vector forms.

  Each theta handle is a pair of arbitrary functions over the parameter values.
- **`libMesh::Utility`**: the algorithms `map_find`, `vector_at`, `iota`, `is_sorted`, `binary_find`, `do_pow`/`pow`, `factorial` and `binomial`, and the `ReverseBytes` functor.

Files:
- `errors.dfy` (`Errors`): the error conditions signalled by `libmesh_error_msg`, and a `Result` type.
- `utility.dfy` (`Utility`).
- `key_order.dfy` (`KeyOrder`): the `std::less<std::string>` order. It gives the key that `std::map::begin()` designates, which `n_steps` reads.
- `rb_parameters.dfy` (`RBParams`).
- `rb_theta_expansion.dfy` (`ThetaExpansion`).

How errors are modelled: on an error the library raises an exception or aborts. Here the operation returns `Err(e)` instead, where `e` names the condition. Operations that return nothing return an `Outcome` instead (`Pass` or `Fail(e)`).

`n_steps` behaves differently in the two builds. With DEBUG, a loop asserts that all parameters have the same size. Release builds skip that loop, and so does the modelled `NSteps`. `NStepsChecked` models the DEBUG build, where a failed assertion is reported as `InconsistentSteps`.

`Append` (`operator+=`) reads the right-hand side's maps before writing, so `p += p` leaves `p` as it was, as in the source.

## Model

| member | source | states |
|---|---|---|
| Utility.MapFind | include/utils/utility.h:84-156 | succeeds exactly when the key is present, with the mapped value; otherwise a key-not-found error |
| Utility.MapFindAfterInsert | include/utils/utility.h:84-156 | a key just inserted is found with its new value; lookups of other keys are unaffected |
| Utility.VectorAt | include/utils/utility.h:164-195 | fails exactly when index >= size, with an error naming index and size; otherwise returns vec[index] |
| Utility.Iota | include/utils/utility.h:204-215 | position k of [first, last) receives value + (k - first); every position outside the range is unchanged |
| Utility.IsSorted | include/utils/utility.h:224-249 | returns true exactly when no element is less than its left neighbour |
| Utility.AdjacentInOrderAt | include/utils/utility.h:219-249 | under a strict weak order, adjacent pairs in order imply that no later element is less than any earlier one |
| Utility.AdjacentInOrderIffSorted | include/utils/utility.h:219-249 | under a strict weak order, is_sorted's adjacent-pair test is equivalent to sortedness over all pairs |
| Utility.IsSortedInts | include/utils/utility.h:219-249 | for integers with operator<, the adjacent test holds exactly when the sequence is non-decreasing |
| Utility.LowerBoundIn | include/utils/utility.h:282-297 | bisection on a partitioned range returns the split point: everything before it is below value, nothing after it is |
| Utility.LowerBound | include/utils/utility.h:282-297 | std::lower_bound over the whole range: the first position whose element is not below value |
| Utility.BinaryFindBy | include/utils/utility.h:292-297 | returns last (size) or a position holding an element equivalent to value, with everything before it below value |
| Utility.SortedIsPartitioned | include/utils/utility.h:276-297 | a sorted range satisfies lower_bound's partition requirement for every value |
| Utility.BinaryFindByAbsent | include/utils/utility.h:292-297 | on a sorted range, binary_find returns last exactly when no element is equivalent to value |
| Utility.BinaryFind | include/utils/utility.h:282-287 | on a non-decreasing sequence, returns size exactly when value does not occur; otherwise the first occurrence |
| Utility.PowerAdd | include/utils/utility.h:304-317 | x^(a+b) == x^a * x^b, the identity behind squaring |
| Utility.DoPow | include/utils/utility.h:304-341 | the recursive template, with its specialisations for 0, 1 and 6, computes x^N |
| Utility.Pow | include/utils/utility.h:344-349 | pow<N>(x) equals x^N |
| Utility.Factorial | include/utils/utility.h:355-367 | the unsigned loop returns n! modulo 2^32 |
| Utility.FactorialExactRange | include/utils/utility.h:355-367 | factorial is exact for n <= 12, and 13! is the first value that wraps |
| Utility.ChooseAbove | include/utils/utility.h:371-388 | C(n, k) is 0 when k > n |
| Utility.ChooseAll | include/utils/utility.h:371-388 | C(n, n) is 1 |
| Utility.ChooseSymmetric | include/utils/utility.h:375-377 | C(n, k) == C(n, n - k), the symmetry that justifies the swap of k |
| Utility.ChooseStep | include/utils/utility.h:379-384 | (i + 1) * C(n, i + 1) == (n - i) * C(n, i), so every division in the loop is exact |
| Utility.Binomial | include/utils/utility.h:371-388 | with the swap and the multiply-then-divide loop, returns C(n, k), including 0 for k > n with an unsigned T |
| Utility.ChooseFactorials | include/utils/utility.h:352-388 | binomial and factorial agree: C(n, k) * k! * (n - k)! == n! |
| Utility.Reversed | include/utils/utility.h:477-497 | a reversed sequence has the same length, and element k is element size-1-k of the input |
| Utility.ReversedTwice | include/utils/utility.h:477-497 | reversing twice restores the sequence |
| Utility.ReverseBytes.constructor | include/utils/utility.h:471-474 | stores the reverse flag |
| Utility.ReverseBytes.Apply | include/utils/utility.h:477-497 | the two-index swap loop leaves the bytes reversed when the flag is set, untouched otherwise, and returns them |
| Utility.ApplyTwice | include/utils/utility.h:477-497 | applying the same functor twice restores the original bytes |
| KeyOrder.LessAsymmetric | src/reduced_basis/rb_parameters.C:202 | the key order is asymmetric |
| KeyOrder.LessTransitive | src/reduced_basis/rb_parameters.C:202 | the key order is transitive |
| KeyOrder.LessTotal | src/reduced_basis/rb_parameters.C:202 | any two distinct keys are ordered one way or the other |
| KeyOrder.FirstUnique | src/reduced_basis/rb_parameters.C:202 | a key set has at most one least key |
| KeyOrder.FirstExists | src/reduced_basis/rb_parameters.C:202 | every non-empty key set has a least key |
| KeyOrder.FirstOf | src/reduced_basis/rb_parameters.C:202 | the key begin() designates is the least key |
| KeyOrder.FirstKey | src/reduced_basis/rb_parameters.C:202 | visiting all keys finds exactly the key begin() designates |
| RBParams.Resize | src/reduced_basis/rb_parameters.C:119-123 | resize keeps the existing elements and pads with zeros up to the new size |
| RBParams.SetValueHelper | src/reduced_basis/rb_parameters.C:99-124 | creates the name if needed; the vector grows to max(size, index+1), holds value at index, keeps other old entries, is zero between the old end and index; other names unchanged |
| RBParams.SetAtEndIsPushBack | src/reduced_basis/rb_parameters.C:113-116 | writing at index == size is push_back |
| RBParams.SetValueHelperOverwrites | src/reduced_basis/rb_parameters.C:109-111 | writing at an index below size replaces that one element only |
| RBParams.ConsistentSteps | src/reduced_basis/rb_parameters.C:195-213 | when all vectors have one size, n_steps is that size whichever key comes first |
| RBParams.MergeKeepsSteps | src/reduced_basis/rb_parameters.C:274-286 | merging consistent points with equal n_steps keeps them consistent and keeps n_steps |
| RBParams.SingleStepsHaveOneStep | src/reduced_basis/rb_parameters.C:35-43 | the legacy constructor's parameters are consistent with one step |
| RBParams.EqualByLookups | src/reduced_basis/rb_parameters.C:263-267 | two parameter maps are equal exactly when every map_find lookup agrees |
| RBParams.CollectKeys | src/reduced_basis/rb_parameters.C:215-227 | the insertion loop collects exactly the key set |
| RBParams.OverwriteAll | src/reduced_basis/rb_parameters.C:278-283 | the overwrite loop yields the right-biased union: keys of src take src's vectors, the others keep theirs |
| RBParams.FromMapRoundTrip | src/reduced_basis/rb_parameters.C:35-43 | after the legacy constructor, get_value returns each original value, fails for names not given, and n_steps is 1 |
| RBParams.SetOnEmptyZeroFills | src/reduced_basis/rb_parameters.C:99-124 | setting index j of a new name gives j zeros followed by the value |
| RBParams.PushBackAll | src/reduced_basis/rb_parameters.C:136-141 | pushing each value of a list onto a new name stores that list: each step reads back, the next step is out of range |
| RBParams.RBParameters.constructor | src/reduced_basis/rb_parameters.C:30-33 | no parameters, no extra parameters, one step |
| RBParams.RBParameters.FromMap | src/reduced_basis/rb_parameters.C:35-43 | each name of the map holds its value as a one-step vector; one step |
| RBParams.RBParameters.Clear | src/reduced_basis/rb_parameters.C:45-50 | empties both maps and resets the step count to 1 |
| RBParams.RBParameters.HasValue | src/reduced_basis/rb_parameters.C:52-55 | true exactly when map_find on the parameters would succeed |
| RBParams.RBParameters.HasExtraValue | src/reduced_basis/rb_parameters.C:57-60 | true exactly when map_find on the extra parameters would succeed |
| RBParams.RBParameters.GetStepValue | src/reduced_basis/rb_parameters.C:78-83 | succeeds exactly when the name exists and step < its size, with that entry; otherwise the key error or the step error |
| RBParams.RBParameters.GetValue | src/reduced_basis/rb_parameters.C:62-68 | the value at step 0, with the same two errors |
| RBParams.RBParameters.GetStepValueOr | src/reduced_basis/rb_parameters.C:85-89 | the checked getter's value when it succeeds, the default whenever it fails |
| RBParams.RBParameters.GetValueOr | src/reduced_basis/rb_parameters.C:70-76 | the checked step-0 value when it succeeds, the default otherwise |
| RBParams.RBParameters.GetExtraStepValue | src/reduced_basis/rb_parameters.C:165-170 | the checked getter on the extra map, with the same error cases |
| RBParams.RBParameters.GetExtraValue | src/reduced_basis/rb_parameters.C:150-156 | its empty-vector test agrees with the checked step-0 getter on the extra map |
| RBParams.RBParameters.GetExtraStepValueOr | src/reduced_basis/rb_parameters.C:172-177 | the checked extra getter's value when it succeeds, the default otherwise |
| RBParams.RBParameters.GetExtraValueOr | src/reduced_basis/rb_parameters.C:158-163 | its non-empty test agrees with the defaulted step-0 extra getter |
| RBParams.RBParameters.SetValue | src/reduced_basis/rb_parameters.C:91-97 | the name's vector becomes exactly [value]; other names and the extra map are unchanged |
| RBParams.RBParameters.SetValueAt | src/reduced_basis/rb_parameters.C:126-129 | the parameters become set_value_helper's result; nothing else changes |
| RBParams.RBParameters.SetExtraValueAt | src/reduced_basis/rb_parameters.C:131-134 | the extra parameters become set_value_helper's result; nothing else changes |
| RBParams.RBParameters.SetExtraValue | src/reduced_basis/rb_parameters.C:179-183 | the extra name's vector becomes exactly [value]; everything else unchanged |
| RBParams.RBParameters.PushBackValue | src/reduced_basis/rb_parameters.C:136-141 | appends value to the name's vector, creating an empty one first if needed; nothing else changes |
| RBParams.RBParameters.PushBackExtraValue | src/reduced_basis/rb_parameters.C:143-148 | the same on the extra map |
| RBParams.RBParameters.NParameters | src/reduced_basis/rb_parameters.C:185-188 | zero exactly when there are no parameters |
| RBParams.RBParameters.SetNSteps | src/reduced_basis/rb_parameters.C:190-193 | sets the declared count, which is n_steps while there are no parameters; the maps are unchanged |
| RBParams.RBParameters.NSteps | src/reduced_basis/rb_parameters.C:195-213 | the declared count with no parameters, else the size of the first key's vector; when sizes agree, that common size |
| RBParams.RBParameters.NStepsChecked | src/reduced_basis/rb_parameters.C:195-213 | succeeds exactly when all parameters have the same number of steps, with n_steps; otherwise the inconsistency error |
| RBParams.RBParameters.GetParameterNames | src/reduced_basis/rb_parameters.C:215-220 | exactly the parameter names |
| RBParams.RBParameters.GetExtraParameterNames | src/reduced_basis/rb_parameters.C:222-227 | exactly the extra parameter names |
| RBParams.RBParameters.EraseParameter | src/reduced_basis/rb_parameters.C:229-232 | removes the name (no effect if absent); all other entries unchanged |
| RBParams.RBParameters.EraseExtraParameter | src/reduced_basis/rb_parameters.C:234-237 | the same on the extra map |
| RBParams.RBParameters.Equals | src/reduced_basis/rb_parameters.C:263-267 | true exactly when every lookup in both maps agrees; the declared step count is ignored |
| RBParams.RBParameters.NotEquals | src/reduced_basis/rb_parameters.C:269-272 | true exactly when one of the two maps differs |
| RBParams.RBParameters.Append | src/reduced_basis/rb_parameters.C:274-286 | on differing n_steps, an error naming both counts and no change; otherwise both maps become right-biased unions with rhs; consistency and n_steps are preserved |
| ThetaExpansion.SumSizesPrefix | src/reduced_basis/rb_theta_expansion.C:57-75 | the term count of a prefix of outputs grows with the prefix, by at least the next output's size |
| ThetaExpansion.SumSizesAppend | src/reduced_basis/rb_theta_expansion.C:57-63 | appending an output adds exactly its size to the total |
| ThetaExpansion.FlatIndexBelowTotal | src/reduced_basis/rb_theta_expansion.C:57-75 | a valid (output, term) pair flattens to an index below the total number of output terms |
| ThetaExpansion.FlatIndexInjective | src/reduced_basis/rb_theta_expansion.C:65-75 | distinct valid pairs have distinct flat indices |
| ThetaExpansion.Unflatten | src/reduced_basis/rb_theta_expansion.C:57-75 | every index below the total is the flat index of some valid pair |
| ThetaExpansion.FlatIndexStable | src/reduced_basis/rb_theta_expansion.C:65-75 | appending an output leaves every existing flat index unchanged |
| ThetaExpansion.FlatIndexExample | src/reduced_basis/rb_theta_expansion.C:57-75 | outputs of sizes 2, 0 and 3: the third output's terms are 2, 3 and 4 of 5 |
| ThetaExpansion.RBThetaExpansion.constructor | src/reduced_basis/rb_theta_expansion.C:31-47 | all three collections start empty, as in the implicit default constructor. That constructor is declared in rb_theta_expansion.h, which is not part of this model; the cited lines are the count getters that read the empty vectors |
| ThetaExpansion.RBThetaExpansion.GetNATerms | src/reduced_basis/rb_theta_expansion.C:31-35 | the number of attached A-terms; the attach methods raise it by one per handle |
| ThetaExpansion.RBThetaExpansion.GetNFTerms | src/reduced_basis/rb_theta_expansion.C:37-41 | the number of attached F-terms; the attach methods raise it by one per handle |
| ThetaExpansion.RBThetaExpansion.GetNOutputs | src/reduced_basis/rb_theta_expansion.C:43-47 | the number of attached outputs; each attach_output_theta adds one |
| ThetaExpansion.RBThetaExpansion.GetNOutputTerms | src/reduced_basis/rb_theta_expansion.C:49-55 | fails exactly when index >= the number of outputs; otherwise that output's size |
| ThetaExpansion.RBThetaExpansion.GetTotalNOutputTerms | src/reduced_basis/rb_theta_expansion.C:57-63 | the accumulating loop returns the sum of all output sizes |
| ThetaExpansion.RBThetaExpansion.OutputIndex1D | src/reduced_basis/rb_theta_expansion.C:65-75 | q_l plus the sizes of outputs 0..n-1, which lies below the total for a valid pair |
| ThetaExpansion.RBThetaExpansion.AttachATheta | src/reduced_basis/rb_theta_expansion.C:77-82 | appends one A-term, so the count grows by 1; the other collections are unchanged |
| ThetaExpansion.RBThetaExpansion.AttachMultipleATheta | src/reduced_basis/rb_theta_expansion.C:84-91 | appends the given handles in order, so the count grows by their number |
| ThetaExpansion.RBThetaExpansion.AttachFTheta | src/reduced_basis/rb_theta_expansion.C:93-98 | appends one F-term, so the count grows by 1; the other collections are unchanged |
| ThetaExpansion.RBThetaExpansion.AttachMultipleFTheta | src/reduced_basis/rb_theta_expansion.C:100-107 | appends the given handles in order, so the count grows by their number |
| ThetaExpansion.RBThetaExpansion.AttachOutputThetaOwned | src/reduced_basis/rb_theta_expansion.C:109-117 | adds one output whose terms are exactly the given handles, in order |
| ThetaExpansion.RBThetaExpansion.AttachOutputThetaVector | src/reduced_basis/rb_theta_expansion.C:119-122 | adds one output whose terms are exactly the vector |
| ThetaExpansion.RBThetaExpansion.AttachOutputTheta | src/reduced_basis/rb_theta_expansion.C:124-132 | adds one output of exactly one term |
| ThetaExpansion.RBThetaExpansion.EvalATheta | src/reduced_basis/rb_theta_expansion.C:134-141 | fails exactly when q >= the number of A-terms; otherwise term q's evaluation at mu |
| ThetaExpansion.RBThetaExpansion.EvalAThetaVec | src/reduced_basis/rb_theta_expansion.C:143-150 | the same bounds check; otherwise term q's batch evaluation |
| ThetaExpansion.RBThetaExpansion.EvalFTheta | src/reduced_basis/rb_theta_expansion.C:152-159 | fails exactly when q >= the number of F-terms; otherwise term q's evaluation at mu |
| ThetaExpansion.RBThetaExpansion.EvalFThetaVec | src/reduced_basis/rb_theta_expansion.C:161-168 | the same bounds check; otherwise term q's batch evaluation |
| ThetaExpansion.RBThetaExpansion.EvalOutputTheta | src/reduced_basis/rb_theta_expansion.C:170-181 | fails exactly when the output or the term index is out of range, reading the term count only for a valid output; otherwise that term's evaluation |
| ThetaExpansion.RBThetaExpansion.EvalOutputThetaVec | src/reduced_basis/rb_theta_expansion.C:183-195 | the same check; otherwise that term's batch evaluation |
| ThetaExpansion.BatchIsPointwise | src/reduced_basis/rb_theta_expansion.C:134-195 | when handles evaluate batches pointwise, each vector evaluation fails exactly when the single one does and otherwise lists the single evaluations |
| ThetaExpansion.EvalScenario | src/reduced_basis/rb_theta_expansion.C:84-141 | two attached A-terms evaluate to 3.5 and 1.0 at a point with k = 3.5; term 2 is out of range |
| ThetaExpansion.FlatScenario | src/reduced_basis/rb_theta_expansion.C:57-132 | after outputs of sizes 1 and 2, the flat index of (1, 1) is 2 and the total is 3 |

Some members have no row:
- the specification definitions the contracts are stated against: `KeyOrder.Less` (the model of `std::less<std::string>`) and `KeyOrder.IsFirst`; `RBParams.Max`, `RBParams.Entry` (the empty vector `std::map::operator[]` inserts for a new name), `RBParams.SingleSteps`, `RBParams.Consistent`, `RBParams.StepsOf`, `RBParams.SameLookups` and `RBParameters.StepCount`; `ThetaExpansion.SumSizes`, `ThetaExpansion.FlatIndex`, `ThetaExpansion.ValidTerm`, `ThetaExpansion.BatchAgrees` and `ThetaExpansion.AllBatchAgree`; and in `Utility`, `AdjacentInOrder`, `SortedBy`, `NegativelyTransitive`, `Equivalent`, `Partitioned`, `Power`, `Fact` and `Choose`;
- the proof helpers `ModShift`, `ModMul`, `MulAddLeft`, `MulAddRight`, `DivExact`, `Regroup` and `FactMonotone`;
- the view `RBParameters.Snapshot`;
- the sample handles `Constant` and `ParameterValue`. They show that `BatchAgrees` can be met, and the scenarios use them.

## Left out

- `get_string` and `print` (string formatting and output streams) are not modelled.
- The `const_iterator` over (name, step) pairs, with `begin`, `end`, `extra_begin` and `extra_end`, is not modelled. The names and the checked getters give the same values.
- Null theta pointers: `libmesh_assert(theta)` has no counterpart, because a `Theta` value always holds its two functions.
- `RBTheta::evaluate` and `evaluate_vec` are external. They are arbitrary functions here, and pointwise batch agreement is an explicit predicate (`BatchAgrees`), not a theorem.
- `Number` is modelled as `real`. The complex-number build and floating-point rounding are not modelled.
- Utility.DoPow: works over exact reals, so the floating-point results of the specialisation for 6, which multiplies in a different order, coincide with x^6 only up to rounding.
- Utility.Binomial: models an unsigned `T` over unbounded integers. The intermediate `ret * (n - i)` can overflow a fixed-width `T` for large arguments, and that is not modelled. For a signed `T`, `n - k` for k > n is negative. The swap then happens, and the loop runs zero times, returning 1. That variant is not modelled.
- Utility.MapFind: models reads through `map_find` only, returning a copy of the mapped value. That is all the modelled code does (src/reduced_basis/rb_parameters.C:80, 153, 167). The non-const overloads return a mutable reference through which a caller can write into the map, and such writes are not modelled. The error message text, which differs between the overloads with and without a printable key, is not modelled either.
- ThetaExpansion.RBThetaExpansion.GetTotalNOutputTerms: the unsigned 32-bit sum, and the unsigned index of `OutputIndex1D`, are unbounded here. The model assumes fewer than 2^32 output terms.
- ThetaExpansion.RBThetaExpansion.OutputIndex1D: demands n <= the number of outputs. The source reads past the end of the outputs otherwise, which is undefined behaviour.
- RBParams.RBParameters.NParameters: the `cast_int` to `unsigned int` is not modelled.
- RBParams.RBParameters.Equals and NotEquals: parameter values are `Real` (a C++ `double`), modelled as exact `real`. `operator==` compares the vectors element by element with `double ==`. After a NaN is stored, the source's `p == p` is false and `p != p` is true, but the model's `p.Equals(p)` is always true. NaN, infinities and rounding of stored values are not modelled.
- RBParams.RBParameters.NSteps and NStepsChecked: `n_steps` returns the `size_t` size of the first vector as an `unsigned int` (src/reduced_basis/rb_parameters.C:202, 212). That conversion silently wraps modulo 2^32. The model returns the unbounded size, and so assumes every vector has fewer than 2^32 steps. `Append` compares those unbounded counts.
- ThetaExpansion.RBThetaExpansion.GetNATerms, GetNFTerms, GetNOutputs and GetNOutputTerms: the `cast_int` of the vector size to `unsigned int` is not modelled.
- RBParams.RBParameters.Append: models the release build. With DEBUG, the two `n_steps()` calls at src/reduced_basis/rb_parameters.C:276 abort when either side's vectors differ in size, before the counts are compared. `Append` uses the unchecked `NSteps` instead.
- Utility.Iota: the `libmesh_deprecated()` call (include/utils/utility.h:208), a runtime deprecation warning, has no counterpart.
- KeyOrder.Less: compares Dafny characters (code points), whereas `std::less<std::string>` compares bytes. The two orders agree on ASCII and UTF-8 names, but not on arbitrary byte strings, which are not modelled. This affects which key `NSteps` reads first.
- Other functions declared in the utility header (`system_info`, `mkdir`, `complex_filename`, `prepare_complex_data`, `is_streamable`, `deallocate`) are not modelled. src/numerics/petsc_preconditioner.C and src/apps/L2system.C are not part of this model.
