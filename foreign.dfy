/** The numeric routines the library takes from other packages
    (compute-quantile, distributions-normal-quantile, distributions-normal-cdf,
    compute-mean, compute-stdev, compute-power) and the language's own
    string-to-number conversion. None of them is part of this model: each is
    an arbitrary total function, and a property that needs more of one
    states it as a hypothesis. */
module Foreign {
  import opened JsValues

  datatype Routines = Routines(
    quantile: (seq<real>, real) -> real,
    normQuantile: real -> real,
    normCdf: real -> real,
    mean: seq<real> -> real,
    stdev: seq<real> -> real,
    pow: (real, real) -> real,
    stringToNumber: string -> Option<real>)

  /** The empirical quantile does not decrease as the probability grows */
  ghost predicate QuantileMonotone(fx: Routines) {
    forall s, p, p' :: 0.0 <= p <= p' <= 1.0 ==> fx.quantile(s, p) <= fx.quantile(s, p')
  }

  /** The normal quantile is not negative above the median */
  ghost predicate UpperQuantileNonNegative(fx: Routines) {
    forall p :: 0.5 <= p < 1.0 ==> fx.normQuantile(p) >= 0.0
  }

  /** The normal CDF undoes the normal quantile on the open unit interval */
  ghost predicate CdfInvertsQuantile(fx: Routines) {
    forall p :: 0.0 < p < 1.0 ==> fx.normCdf(fx.normQuantile(p)) == p
  }

  /** Elementwise `pow( u, e )` from compute-power */
  function PowEach(fx: Routines, u: seq<real>, e: real): seq<real>
  {
    seq(|u|, i requires 0 <= i < |u| => fx.pow(u[i], e))
  }

  /** compute-sum: the sum of the elements */
  function Sum(u: seq<real>): real {
    if u == [] then 0.0 else Sum(u[..|u| - 1]) + u[|u| - 1]
  }
}
