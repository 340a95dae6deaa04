# compute-io/bootstrap in Dafny

A model of the deterministic layer of the `compute-io/bootstrap` library, with proofs about it. The library does four things:

- `bootstrap( x, statFun, r[, options] )` evaluates a statistic on the data. It then evaluates the statistic on `r` resamples and wraps the results in bootstrap outputs: one output for a number-valued statistic, or one per component for an array-valued one.
- Each output carries `original`, `stdev` and `bias`.
- Each output has read-only accessors `realizations`, `statFun` and `data`. The first and third return fresh copies.
- Each output has the method `ci( options )`. It computes a two-sided confidence interval of type `basic`, `bca`, `normal`, `percentile` or `studentized`. Its options are checked by a first-failure validator that copies the recognised keys into a destination record.

The numeric work of the library is done by packages whose source is not part of this model. These are quantile, normal quantile and CDF, mean, standard deviation, power, resampling and the matrix type. Numbers are `real`, and the numeric routines are the fields of the datatype `Foreign.Routines`: total functions that every operation takes as a parameter. Properties that need more of a routine state it as a premise, for example `QuantileMonotone`. JavaScript values are the datatype `JsValues.JsValue`. It comes with truthiness, the `Number` coercion used by `<=` and `/`, and reads past the end of an array giving `undefined`.

Modules, following the source files:

| module | file | models |
|---|---|---|
| JsValues | js_values.dfy | JavaScript values, truthiness, coercion, indexing |
| Foreign | foreign.dfy | the numeric routines of other packages, as parameters |
| PickResult | pick_result.dfy | lib/pickResult.js |
| ValidateCi | validate_ci.dfy | lib/validate_ci.js, with the destination `opts` as a class |
| Ci | ci.dfy | lib/ci.js as functions of the output's state |
| CiProperties | ci_properties.dfy | properties of `ci` |
| Output | bootstrap_output.dfy | lib/BootstrapOutput.js, the accessors, and the imperative `ci` with its jackknife loops |
| AttachProperties | attach_properties.dfy | lib/attachProperties.js |
| Bootstrap | bootstrap.dfy | lib/index.js |
| BootstrapProperties | bootstrap_properties.dfy | properties of `bootstrap` |

Two behaviours of `ci` are modelled as written:

- The jackknife loop of the array case runs to `n = tBoot.length`, the number of replicates, and not to the length of the data. Positions past the end of the data are read as `undefined` (`LeaveOneOutReadsPastData`), and data past position `n` are never used (`LeaveOneOutIgnoresDataPastN`).
- The studentized interval divides each deviation by the variance itself, not by its square root (`StudentizedDividesByVariance`).

## Model

| member | source | states |
|---|---|---|
| PickResult.PickResult | lib/pickResult.js:11-16 | the closure `pickResult( fcn, idx )` returns; its meaning is stated by the three PickResult lemmas below |
| PickResult.PickResultSelects | lib/pickResult.js:11-16 | the picked function returns `fcn(args)[idx]` when the output is an array long enough; `undefined` when it is a number or a shorter array; a TypeError when the output is `undefined`; and it rethrows what `fcn` throws |
| PickResult.PickedDependsOnlyOnOneCall | lib/pickResult.js:12-14 | the picked value depends only on one result of `fcn` on the forwarded arguments; `idx` is fixed when the closure is made |
| PickResult.PickersReassemble | lib/pickResult.js:11-16 | the `k` pickers of an array output of length `k` reproduce that output in order |
| ValidateCi.AlphaRejected | lib/validate_ci.js:29 | the alpha test: a value is refused when it converts to a number at most 0 or at least 1, and a value that converts to NaN is not refused; stated by AlphaBounds and FalsyAlphaFallsBack |
| ValidateCi.ValidateSpec | lib/validate_ci.js:23-46 | the result of `validate( opts, options )` as a value: the error of the first failing key and the keys copied up to it; stated by the ValidateCi lemmas below |
| ValidateCi.Validate | lib/validate_ci.js:23-46 | the returned error and the new contents of `opts` are those of ValidateSpec: the old contents plus the copied keys |
| ValidateCi.FirstFailureIsFirst | lib/validate_ci.js:27-44 | the position found is the first failing recognised key; all earlier keys pass |
| ValidateCi.NonObjectRefused | lib/validate_ci.js:24-26 | a non-object is refused with a TypeError and nothing is copied |
| ValidateCi.AlphaBounds | lib/validate_ci.js:27-32 | a numeric alpha is refused exactly when it is at most 0 or at least 1, so 0 and 1 are both refused |
| ValidateCi.AnyStringTypePasses | lib/validate_ci.js:33-38 | every string passes the type check, a known interval name or not |
| ValidateCi.SucceedsIff | lib/validate_ci.js:23-46 | validation succeeds if and only if the options are an object and no present recognised key fails |
| ValidateCi.CopiedUpToExact | lib/validate_ci.js:27-44 | the keys copied after `j` checks are exactly the present ones among the first `j`, with unchanged values |
| ValidateCi.SuccessCopiesRecognised | lib/validate_ci.js:27-45 | on success `opts` holds exactly the present keys among alpha, type and variance, unchanged; other keys are ignored |
| ValidateCi.FirstFailureReported | lib/validate_ci.js:27-44 | the first failing key decides the error; the present keys up to and including it are copied, with that key copied and no later one |
| Ci.ParseType | lib/ci.js:63-141 | each of the five names selects its own interval type, in both directions, and no other value selects one |
| Ci.EffectiveType | lib/ci.js:60 | `opts.type || 'basic'`; its meaning is stated by MissingTypeAndAlphaMeanBasic and UnknownTypeIff |
| Ci.EffectiveAlpha | lib/ci.js:61 | `opts.alpha || 0.05` as a number, None for NaN; stated by ValidatedAlphaInUnitInterval and FalsyAlphaFallsBack |
| Ci.BasicCi | lib/ci.js:65-68 | the basic interval; stated by BasicReflectsPercentile and PercentileOrdered |
| Ci.PercentileCi | lib/ci.js:124-127 | the percentile interval; stated by PercentileOrdered |
| Ci.NormalCi | lib/ci.js:116-121 | the normal interval; stated by NormalSymmetric |
| Ci.StudentizedCi | lib/ci.js:133-137 | the studentized interval over StudentizedDeviations; stated by StudentizedDividesByVariance |
| Ci.CountBelow | lib/ci.js:106 | `sum( lt( tBoot, tHat ) )`; stated by CountBelowBounded and CountBelowCounts |
| Ci.Acceleration | lib/ci.js:104 | the acceleration from the jackknife deviations; stated by BcaWithoutCorrectionIsPercentile |
| Ci.AdjustedTail | lib/ci.js:108-109 | `normCDF( z0 + ( z0 + z ) / ( 1 - accel * ( z0 + z ) ) )`; stated by BcaWithoutCorrectionIsPercentile |
| Ci.BcaCi | lib/ci.js:104-113 | the quantiles of the replicates at the two adjusted tails; stated by BcaWithoutCorrectionIsPercentile |
| Ci.CiSpec | lib/ci.js:34-143 | what `ci( options )` returns or throws; stated by the CiProperties lemmas and implemented by Output.BootstrapOutput.Ci |
| Ci.StudentizedDeviations | lib/ci.js:133 | there is one deviation per replicate, and deviation `k` times `variance[k]` is `tBoot[k] - tHat` |
| CiProperties.LeaveOneOutIsWindowWithoutI | lib/ci.js:94-99 | after `m` steps the inner loop has collected the first `m` positions, without position `i` once it is passed |
| CiProperties.LeaveOneOutDropsOne | lib/ci.js:93-101 | `x_noti` is the first `n` positions without position `i`, in order, of length `n - 1` |
| CiProperties.LeaveOneOutIgnoresDataPastN | lib/ci.js:93-99 | with at least `n` observations, `x_noti` is `x[..i] + x[i+1..n]`: data past the replicate count are dropped |
| CiProperties.LeaveOneOutReadsPastData | lib/ci.js:95-97 | with fewer observations than `n - 1`, `x_noti` contains `undefined` |
| CiProperties.LeaveOneOutExample | lib/ci.js:93-99 | an example: on two observations and three replicates, the sequences are `[x1, undefined]` and `[x0, x1]` |
| CiProperties.JackknifeDeviation | lib/ci.js:100 | when every deviation is a number, `u[i]` is `tHat` minus the statistic on the `i`-th leave-one-out sequence |
| CiProperties.JackknifeCoercion | lib/ci.js:100 | `tHat - statFun( x_noti )` subtracts a number, a one-element array as its element and an empty array as 0; `undefined` and longer arrays give NaN |
| CiProperties.FirstThrownIsFirst | lib/ci.js:93-101 | no exception escapes the loop exactly when no call throws; otherwise the one that escapes is that of the first call that throws |
| CiProperties.BcaStatisticThrows | lib/ci.js:93-101 | on the bca path the first exception of the statistic on a leave-one-out sequence is what `ci` throws |
| CiProperties.CountBelowBounded | lib/ci.js:106 | `sum( lt( tBoot, tHat ) )` is at most the number of replicates |
| CiProperties.CountBelowCounts | lib/ci.js:106 | `sum( lt( tBoot, tHat ) )` is the size of the set of replicates below `tHat` |
| CiProperties.BiasCorrectionArgumentInUnitInterval | lib/ci.js:106 | the argument of `normQ` in `z0` lies in [0, 1] |
| CiProperties.BasicReflectsPercentile | lib/ci.js:64-69 | the basic interval is the percentile interval reflected about `tHat`, with its ends swapped |
| CiProperties.PercentileOrdered | lib/ci.js:123-128 | with a monotone quantile and 0 < alpha < 1, the percentile and basic intervals have low <= high |
| CiProperties.NormalSymmetric | lib/ci.js:115-122 | the normal interval is centred at `tHat - bias`, with half-width `normQ(1 - alpha/2) * stdev` |
| CiProperties.BcaWithoutCorrectionIsPercentile | lib/ci.js:104-113 | with zero acceleration and zero bias correction, BCA gives the percentile interval |
| CiProperties.StudentizedDividesByVariance | lib/ci.js:133 | the studentized deviation `k` is `(tBoot[k] - tHat) / variance[k]` |
| CiProperties.ValidatedAlphaInUnitInterval | lib/ci.js:54-61 | an alpha that passed validation, or the default, lies strictly between 0 and 1 |
| CiProperties.NoOptionsMeansBasic | lib/ci.js:54-61 | without an argument nothing is validated and the result is the basic interval at alpha 0.05 |
| CiProperties.MissingTypeAndAlphaMeanBasic | lib/ci.js:60-61 | options without alpha and with no type or an empty one give the basic interval at alpha 0.05 |
| CiProperties.FalsyAlphaFallsBack | lib/ci.js:61 | an alpha of NaN or undefined passes validation and is replaced by 0.05 |
| CiProperties.UnknownTypeIff | lib/ci.js:139-140 | `ci` throws the unknown-type TypeError if and only if the options pass and the type in force is none of the five names |
| CiProperties.UnknownNameRejected | lib/ci.js:139-140 | a non-empty string that names no interval type is rejected; there is no fallback |
| CiProperties.InvalidOptionsThrown | lib/ci.js:54-59 | an error from the validator is thrown before any interval is computed |
| CiProperties.StudentizedNeedsVariance | lib/ci.js:129-132 | a studentized request without variance throws a TypeError, whatever alpha is as long as it passes validation |
| CiProperties.StudentizedNeedsVarianceWhateverAlpha | lib/ci.js:61-132 | for every alpha that converts to NaN, a studentized request without variance still throws the missing-variance TypeError, although no numeric alpha is in force: the variance check comes before alpha is used |
| CiProperties.NamedTypeSelects | lib/ci.js:63-138 | after validation each of the five names gives its own interval: basic, bca, normal, percentile, and studentized when a variance is given |
| CiProperties.CiPercentileAndBasicOrdered | lib/ci.js:63-128 | every percentile or basic interval `ci` returns has low <= high when the quantile is monotone |
| CiProperties.CiNormalOrdered | lib/ci.js:115-122 | every normal interval `ci` returns is ordered and centred at `tHat - bias`, given a non-negative stdev |
| Output.BootstrapOutput.constructor | lib/BootstrapOutput.js:13-17 | sets `original`, `stdev` and `bias` to its three arguments in that order, and has no accessors yet |
| Output.BootstrapOutput.Realizations | lib/attachProperties.js:32-37 | every read gives a freshly allocated array equal to the stored replicates |
| Output.BootstrapOutput.StatFunction | lib/attachProperties.js:38-43 | returns the stored statistic itself |
| Output.BootstrapOutput.Data | lib/attachProperties.js:44-49 | every read gives a freshly allocated array equal to the stored data |
| Output.BootstrapOutput.Ci | lib/ci.js:34-143 | returns or throws exactly what CiSpec gives for the output's state and options |
| Output.BootstrapOutput.Branch | lib/ci.js:63-141 | each branch of the switch computes the interval or throws the error CiOfKind gives for its type, with alpha used only by the branch that needs it |
| Output.BootstrapOutput.JackknifeDeviations | lib/ci.js:92-102 | for every statistic, the loop fills `u` with JackknifeValues, `tHat` minus the statistic on `x_noti` with NaN as None; an exception of the statistic stops it and is the first one FirstThrown finds |
| Output.BootstrapOutput.BcaInterval | lib/ci.js:70-114 | the bca branch gives BcaResult: the statistic's first exception, or BcaCi, the quantiles of the replicates at the adjusted tails |
| Output.LeaveOut | lib/ci.js:94-99 | the inner loop pushes `x[j]` for every `j < n` other than `i`, reading `undefined` past the data |
| AttachProperties.AttachProperties | lib/attachProperties.js:25-50 | on an output without accessors, it installs them over the given replicates, statistic and data; otherwise it throws a TypeError and changes nothing; `original`, `stdev` and `bias` stay unchanged |
| AttachProperties.RealizationsAreSnapshots | lib/attachProperties.js:32-37 | after any write of any value at any position of the array one read returns, the next read still returns the stored replicates; only the first copy holds the write |
| AttachProperties.DataAreSnapshots | lib/attachProperties.js:44-49 | the same for `data`: a write into one copy leaves later reads equal to the stored data |
| AttachProperties.RealizationsReadTwice | lib/attachProperties.js:34-36 | two successive reads return two distinct fresh arrays, both holding the stored replicates |
| Bootstrap.ArgumentError | lib/index.js:49-64 | when no argument check fails, there are at least three arguments, the statistic is a function and `r` is a number primitive |
| Bootstrap.Failure | lib/index.js:49-82 | what `bootstrap` throws, in source order; when it throws nothing, the arguments pass, the statistic does not throw on the data, `r` is a valid array length and no resample makes the statistic throw |
| Bootstrap.Replicates | lib/index.js:71-82 | the replicate array has `r` entries |
| Bootstrap.Aggregate | lib/index.js:83-96 | one output for a number-valued statistic and one per component otherwise; each output keeps the data and has one replicate per replication |
| Bootstrap.Bootstrap | lib/index.js:37-98 | throws exactly what Failure gives: a failed argument check, then the statistic on the data, then the array length, then the first resample on which the statistic throws; otherwise returns fresh, distinct outputs whose states are those of Aggregate, a single output exactly when the statistic is a number |
| Bootstrap.Columns | lib/index.js:88-92 | the second loop builds one fresh output per component, output `i` with the state Aggregate gives it |
| BootstrapProperties.ArgumentsPassIff | lib/index.js:49-64 | the arguments pass if and only if there are at least three, the options pass when given, the statistic is a function and `r` is a number primitive |
| BootstrapProperties.NothingThrownIff | lib/index.js:49-82 | `bootstrap` throws nothing if and only if the arguments pass, the statistic does not throw on the data, `r` is a whole number in [0, 2^32) and the statistic throws on none of the `r` resamples |
| BootstrapProperties.TooFewArgumentsThrown | lib/index.js:49-52 | fewer than three arguments throw an Error |
| BootstrapProperties.ThreeArgumentsSkipValidation | lib/index.js:53-58 | with exactly three arguments the options validator is not consulted |
| BootstrapProperties.StatFunChecked | lib/index.js:59-61 | a statistic that is not a function throws a TypeError, before `r` is checked |
| BootstrapProperties.ReplicationsChecked | lib/index.js:62-64 | an `r` that is not a number primitive, NaN included, throws a TypeError before the statistic is called |
| BootstrapProperties.StatisticOnDataThrownFirst | lib/index.js:70-71 | once the arguments pass, an exception of the statistic on the data is thrown before `new Array( r )`, whatever number `r` is |
| BootstrapProperties.ArrayLengthChecked | lib/index.js:70-71 | once the arguments pass and the statistic does not throw on the data, `new Array( r )` throws a RangeError exactly when `r` is negative, fractional or at least 2^32; otherwise only a resample can make `bootstrap` throw; 0 replications throw nothing |
| BootstrapProperties.ResampleThrown | lib/index.js:72-82 | the first resample on which the statistic throws decides what `bootstrap` throws |
| BootstrapProperties.OutputCount | lib/index.js:83-96 | one output for a number-valued statistic, `tHat.length` outputs for an array-valued one |
| BootstrapProperties.OriginalIsStatisticOfData | lib/index.js:70-94 | each output's statistic applied to its data gives its `original`, the statistic on the unresampled data or that value's component |
| BootstrapProperties.RealizationsAreStatisticOfResamples | lib/index.js:72-90 | each output has `r` replicates, and replicate `k` is its own statistic on the `k`-th resample |
| BootstrapProperties.StdevAndBiasOfRealizations | lib/index.js:85-94 | each output's `stdev` is the standard deviation of its replicates, and its `bias` is their mean less `original` |
| BootstrapProperties.ScalarKeepsStatistic | lib/index.js:93-96 | the number-valued output keeps the statistic itself and the replicate array |
| BootstrapProperties.VectorSelectsComponent | lib/index.js:88-90 | output `i` of an array-valued statistic has `pickResult( statFun, i )`, component `i` of `tHat` and column `i` of the replicates |

## Left out

- The numeric routines: `compute-quantile`, the normal quantile and CDF, `compute-mean`, `compute-stdev` and `compute-power` are parameters of type `Foreign.Routines`, with no definition. The conversion of a string to a number is a parameter too.
- Floating point: every number is a `real`, and Infinity is not a value of the model. NaN exists only among JavaScript values (the `JNaN` constructor of `JsValue`) and as None where a value is coerced to a number. A statistic's result (`Stat`) cannot be NaN, and an array result cannot hold a NaN component.
- Ci.CiSpec: requires `CiDefined`. On the BCA path, when no jackknife call throws, there must be at least one replicate, because lib/ci.js:106 divides by `tBoot.length`, and `bootstrap` accepts `r = 0`. The acceleration denominator and both tail divisors must be non-zero, and every jackknife deviation must be a number (`JackknifeNumeric`). Where JavaScript would go on with NaN or Infinity, the model says nothing.
- Output.BootstrapOutput.Ci: the same precondition as Ci.CiSpec.
- Output.BootstrapOutput.JackknifeDeviations: has no precondition. A NaN deviation is None in `u`, and an exception of the statistic is returned. Only the arithmetic after the loop needs `JackknifeNumeric`.
- Ci.CiSpec: alpha must convert to a number only on a path that computes an interval. An array-like variance of the studentized path must be an array of `tBoot.length` non-zero numbers. A string variance passes validation, but `compute-divide` on it is not modelled.
- Output.BootstrapOutput.BcaInterval, Output.BootstrapOutput.Branch: the same preconditions, per branch (`BcaDefined`, `KindDefined`).
- The matrix paths of `ci` and `bootstrap` are not modelled: the matrix jackknife of `ci` (lib/ci.js:84-90) and the matrix resampling of `bootstrap` (lib/index.js:73-77). The data is always an array of values, and the matrix type is not part of this model.
- `toMatrix`, `stdev( tBootMat, {dim: 1} )`, `mean( tBootMat, {dim: 1} )` and `tBootMat.mget( null, [i] )` (lib/index.js:84-90) are modelled abstractly. Column `i` of the replicate matrix is `Column(t, i)`, and the `sds` and `means` are `fx.stdev` and `fx.mean` of that column. What `toMatrix` does with arrays of different lengths is not modelled. The model assumes that `toMatrix` succeeds on an empty replicate array (`r = 0`), giving `tHat.length` outputs with no replicates; `toMatrix` is not part of this model.
- Resampling and its seed: `compute-sample` and `sample.seed = opts.seed` are left out. The `k`-th resample is the parameter `draws(k)`. It is unconstrained: nothing ties it to `x`, not even its length.
- `lib/validate.js` is not part of this model. The options check of `bootstrap` is the parameter `validate`, and the error it returns has no modelled kind.
- Bootstrap.Bootstrap: when nothing is thrown, requires that the statistic keeps one shape: a number on the data and on every resample, or arrays of one length. A statistic that returns `undefined`, a string or arrays of varying length without throwing is not modelled there. Neither is a NaN-valued statistic or one with NaN components, whose replicates JavaScript would keep as NaN. Exceptions of the statistic are modelled (Bootstrap.Failure).
- Statistics that throw are modelled as the `Thrown` value, in `bootstrap`, in `pickResult` and in the jackknife of `ci`. Statistics with side effects are not modelled. Statistics are pure functions of one argument sequence, and pickResult's forwarding of `this` and of several arguments is reduced to one argument.
- PickResult.PickResult: NaN-valued statistics and NaN components are not modelled. JavaScript passes a NaN component on, and for a NaN result `NaN[ idx ]` is `undefined`. That happens, for instance, when the BCA jackknife of `ci` runs past the data (lib/ci.js:93-99) and a mean of `undefined` values is NaN. The model has no such result: `Undefined` is a different value, on which `pickResult` throws a TypeError.
- Data that is neither an array nor a matrix, for which `bootstrap` leaves the replicate array with holes, is not modelled.
- `isArrayLike` holds for arrays and strings. Plain objects with a numeric `length` are not treated as array-like.
- The property descriptors of attachProperties (enumerability, writability) are not modelled. `ci` is a method of the class and cannot be replaced. A second attachProperties on the same output throws, as redefining its non-configurable `realizations` does, and changes nothing.
- AttachProperties.AttachProperties: captures the data `x` and the replicates as values, not by reference. In JavaScript the `data` getter copies the caller's live array on every read (lib/attachProperties.js:47), and `bootstrap` passes the caller's own `x` (lib/index.js:90, lib/index.js:95). So does the BCA jackknife, which reads `this.data` (lib/ci.js:82). A caller that changes `x` after `bootstrap` returns would change later reads of `data` and later BCA intervals; the model does not capture that aliasing. `utils-copy` is modelled as an element-by-element copy.
