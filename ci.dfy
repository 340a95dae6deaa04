/** ci: the two-sided confidence interval of a bootstrap output, one of
    five kinds chosen by the `type` option. This module states what `ci`
    computes as functions of the output's readable state; the method that
    computes it, with the jackknife loops, is BootstrapOutput.Ci. */
module Ci {
  import opened JsValues
  import opened Foreign
  import opened ValidateCi

  datatype Interval = Interval(low: real, high: real)

  /** Why `ci` throws: the validator's error, a missing variance and an
      unknown type are TypeErrors; an exception of the statistic during the
      jackknife passes through */
  datatype CiError = Invalid(reason: OptionError) | VarianceMissing | UnknownType | StatisticThrew(kind: ErrorKind) {
    function Kind(): ErrorKind {
      if StatisticThrew? then kind else TypeError
    }
  }

  datatype IntervalType = Basic | Bca | Normal | Percentile | Studentized

  /** What `ci` reads from its bootstrap output (`this`): the plain fields
      and what the three accessors return */
  datatype Record = Record(
    original: real,
    stdev: real,
    bias: real,
    realizations: seq<real>,
    statFun: StatFun,
    data: seq<JsValue>)

  const DefaultAlpha: real := 0.05

  /** The `switch`: strict equality with the five names, each selecting its
      own interval */
  function ParseType(t: JsValue): (r: Option<IntervalType>)
    ensures r == Some(Basic) <==> t == JStr("basic")
    ensures r == Some(Bca) <==> t == JStr("bca")
    ensures r == Some(Normal) <==> t == JStr("normal")
    ensures r == Some(Percentile) <==> t == JStr("percentile")
    ensures r == Some(Studentized) <==> t == JStr("studentized")
    ensures r.Some? <==> t in {JStr("basic"), JStr("bca"), JStr("normal"), JStr("percentile"), JStr("studentized")}
  {
    if t == JStr("basic") then Some(Basic)
    else if t == JStr("bca") then Some(Bca)
    else if t == JStr("normal") then Some(Normal)
    else if t == JStr("percentile") then Some(Percentile)
    else if t == JStr("studentized") then Some(Studentized)
    else None
  }

  /** `opts.type || 'basic'` */
  function EffectiveType(opts: map<string, JsValue>): JsValue {
    if "type" in opts && Truthy(opts["type"]) then opts["type"] else JStr("basic")
  }

  /** The number `opts.alpha || 0.05` stands for in `alpha / 2`; None when
      that is NaN */
  function EffectiveAlpha(opts: map<string, JsValue>, stringToNumber: string -> Option<real>): Option<real> {
    if "alpha" in opts && Truthy(opts["alpha"]) then ToNumber(opts["alpha"], stringToNumber)
    else Some(DefaultAlpha)
  }

  /** The validation `ci` performs: none when it is called without an
      argument, leaving `opts` empty */
  function ValidationOf(fx: Routines, options: Option<JsValue>): Validation {
    if options.None? then Validation(None, map[]) else ValidateSpec(options.value, fx.stringToNumber)
  }

  // The five interval formulas

  function PercentileCi(fx: Routines, t: seq<real>, alpha: real): Interval {
    Interval(fx.quantile(t, alpha / 2.0), fx.quantile(t, 1.0 - alpha / 2.0))
  }

  function BasicCi(fx: Routines, t: seq<real>, tHat: real, alpha: real): Interval {
    Interval(2.0 * tHat - fx.quantile(t, 1.0 - alpha / 2.0), 2.0 * tHat - fx.quantile(t, alpha / 2.0))
  }

  function NormalCi(fx: Routines, tHat: real, bias: real, stdev: real, alpha: real): Interval {
    var zu := fx.normQuantile(1.0 - alpha / 2.0);
    Interval(tHat - bias - zu * stdev, tHat - bias + zu * stdev)
  }

  /** The variance option as the numbers it must hold for the division */
  predicate NumericVariance(variance: JsValue, n: nat) {
    && variance.JArray?
    && |variance.items| == n
    && forall k :: 0 <= k < n ==> variance.items[k].JNum? && variance.items[k].n != 0.0
  }

  /** `divide( subtract( tBoot, tHat ), variance )`: each deviation divided by
      the variance itself, not by its square root */
  function StudentizedDeviations(t: seq<real>, tHat: real, variance: JsValue): (zbs: seq<real>)
    requires NumericVariance(variance, |t|)
    ensures |zbs| == |t|
    ensures forall k :: 0 <= k < |t| ==> zbs[k] * variance.items[k].n == t[k] - tHat
  {
    seq(|t|, k requires 0 <= k < |t| => (t[k] - tHat) / variance.items[k].n)
  }

  function StudentizedCi(fx: Routines, t: seq<real>, tHat: real, stdev: real, variance: JsValue, alpha: real): Interval
    requires NumericVariance(variance, |t|)
  {
    var zbs := StudentizedDeviations(t, tHat, variance);
    Interval(tHat - fx.quantile(zbs, 1.0 - alpha / 2.0) * stdev, tHat - fx.quantile(zbs, alpha / 2.0) * stdev)
  }

  // The bias-corrected and accelerated interval

  /** `x_noti` after the inner loop has looked at positions 0 .. m-1:
      every position but `i`, read with `x[ j ]`. With `m == n`, the
      number of replicates and not the length of the data, it is the
      `i`-th leave-one-out sequence of the array case. */
  function LeaveOneOut(x: seq<JsValue>, m: nat, i: nat): seq<JsValue> {
    if m == 0 then []
    else if m - 1 != i then LeaveOneOut(x, m - 1, i) + [Get(x, m - 1)]
    else LeaveOneOut(x, m - 1, i)
  }

  /** The first `n` positions of `x`, read with `x[ j ]`: `undefined` where
      `n` runs past the end of the data */
  function Window(x: seq<JsValue>, n: nat): (w: seq<JsValue>)
    ensures |w| == n
  {
    seq(n, j requires 0 <= j < n => Get(x, j))
  }

  /** `this.statFun( x_noti )` for every `i < n`, in order */
  function JackknifeStats(s: Record): (st: seq<Stat>)
    ensures |st| == |s.realizations|
  {
    var n := |s.realizations|;
    seq(n, i requires 0 <= i < n => s.statFun(LeaveOneOut(s.data, n, i)))
  }

  /** The exception of the first call that throws, if any */
  function FirstThrown(st: seq<Stat>): Option<ErrorKind> {
    if st == [] then None
    else if st[0].Thrown? then Some(st[0].kind)
    else FirstThrown(st[1..])
  }

  /** The first call to throw decides the exception */
  lemma {:induction false} ThrownAt(st: seq<Stat>, i: nat)
    requires i < |st| && st[i].Thrown?
    requires forall k :: 0 <= k < i ==> !st[k].Thrown?
    ensures FirstThrown(st) == Some(st[i].kind)
  {
    if i > 0 {
      ThrownAt(st[1..], i - 1);
    }
  }

  /** When no call throws, nothing is thrown */
  lemma {:induction false} NoneThrown(st: seq<Stat>)
    requires forall k :: 0 <= k < |st| ==> !st[k].Thrown?
    ensures FirstThrown(st).None?
  {
    if st != [] {
      NoneThrown(st[1..]);
    }
  }

  /** What the Float64Array `u` holds after the jackknife loop:
      `tHat - statFun( x_noti )`, None where that is NaN */
  function JackknifeValues(s: Record): (u: seq<Option<real>>)
    ensures |u| == |s.realizations|
  {
    var st := JackknifeStats(s);
    seq(|st|, i requires 0 <= i < |st| =>
      match StatToNumber(st[i]) case Some(v) => Some(s.original - v) case None => None)
  }

  /** No jackknife deviation is NaN */
  ghost predicate JackknifeNumeric(s: Record) {
    forall i :: 0 <= i < |s.realizations| ==> JackknifeValues(s)[i].Some?
  }

  /** Deviations none of which is NaN, as numbers */
  function Numbers(v: seq<Option<real>>): (u: seq<real>)
    requires forall i :: 0 <= i < |v| ==> v[i].Some?
    ensures |u| == |v|
  {
    seq(|v|, i requires 0 <= i < |v| => v[i].value)
  }

  /** The jackknife deviations as numbers */
  function Jackknife(s: Record): (u: seq<real>)
    requires JackknifeNumeric(s)
    ensures |u| == |s.realizations|
  {
    Numbers(JackknifeValues(s))
  }

  /** `pow( sum( pow( u, 2 ) ), 3/2 )` */
  function AccelDenominator(fx: Routines, u: seq<real>): real {
    fx.pow(Sum(PowEach(fx, u, 2.0)), 1.5)
  }

  /** `(1/6) * sum( pow( u, 3 ) ) / pow( sum( pow( u, 2 ) ), 3/2 )` */
  function Acceleration(fx: Routines, u: seq<real>): real
    requires AccelDenominator(fx, u) != 0.0
  {
    (1.0 / 6.0) * Sum(PowEach(fx, u, 3.0)) / AccelDenominator(fx, u)
  }

  /** `sum( lt( tBoot, tHat ) )`: how many replicates lie below `tHat` */
  function CountBelow(t: seq<real>, tHat: real): nat {
    if t == [] then 0
    else CountBelow(t[..|t| - 1], tHat) + (if t[|t| - 1] < tHat then 1 else 0)
  }

  /** The argument of the normal quantile in the bias correction */
  function BiasCorrectionArgument(t: seq<real>, tHat: real): real
    requires |t| > 0
  {
    CountBelow(t, tHat) as real / |t| as real
  }

  /** `1 - accel * ( z0 + z )`, the divisor of an adjusted tail */
  function TailDivisor(accel: real, z0: real, z: real): real {
    1.0 - accel * (z0 + z)
  }

  /** `normCDF( z0 + ( z0 + z ) / ( 1 - accel * ( z0 + z ) ) )` */
  function AdjustedTail(fx: Routines, accel: real, z0: real, z: real): real
    requires TailDivisor(accel, z0, z) != 0.0
  {
    fx.normCdf(z0 + (z0 + z) / TailDivisor(accel, z0, z))
  }

  /** Where JavaScript would divide by zero on the BCA path, the model
      requires the divisor not to be zero */
  ghost predicate BcaDefined(fx: Routines, s: Record, alpha: real) {
    && |s.realizations| > 0
    && JackknifeNumeric(s)
    && AccelDenominator(fx, Jackknife(s)) != 0.0
    && var accel := Acceleration(fx, Jackknife(s));
       var z0 := fx.normQuantile(BiasCorrectionArgument(s.realizations, s.original));
       && TailDivisor(accel, z0, fx.normQuantile(alpha / 2.0)) != 0.0
       && TailDivisor(accel, z0, fx.normQuantile(1.0 - alpha / 2.0)) != 0.0
  }

  /** The interval from the acceleration `accel` and the bias correction
      `z0`: the percentile interval at the adjusted tails */
  function BcaTail(fx: Routines, t: seq<real>, accel: real, z0: real, alpha: real): Interval
    requires TailDivisor(accel, z0, fx.normQuantile(alpha / 2.0)) != 0.0
    requires TailDivisor(accel, z0, fx.normQuantile(1.0 - alpha / 2.0)) != 0.0
  {
    var zl := fx.normQuantile(alpha / 2.0);
    var zu := fx.normQuantile(1.0 - alpha / 2.0);
    Interval(fx.quantile(t, AdjustedTail(fx, accel, z0, zl)), fx.quantile(t, AdjustedTail(fx, accel, z0, zu)))
  }

  function BcaCi(fx: Routines, s: Record, alpha: real): Interval
    requires BcaDefined(fx, s, alpha)
  {
    var accel := Acceleration(fx, Jackknife(s));
    var z0 := fx.normQuantile(BiasCorrectionArgument(s.realizations, s.original));
    BcaTail(fx, s.realizations, accel, z0, alpha)
  }

  /** The `bca` branch: an exception of the statistic in the jackknife
      loop is thrown before any arithmetic */
  function BcaResult(fx: Routines, s: Record, alpha: Option<real>): Result<Interval, CiError>
    requires FirstThrown(JackknifeStats(s)).None? ==> alpha.Some? && BcaDefined(fx, s, alpha.value)
  {
    var thrown := FirstThrown(JackknifeStats(s));
    if thrown.Some? then Err(StatisticThrew(thrown.value)) else Ok(BcaCi(fx, s, alpha.value))
  }

  // The dispatcher

  /** The inputs on which the branch for `kind` computes with numbers only:
      `alpha` (None for NaN) is a number wherever an interval is computed,
      and the BCA and studentized paths divide by nothing that is zero */
  ghost predicate KindDefined(fx: Routines, s: Record, kind: IntervalType, alpha: Option<real>, opts: map<string, JsValue>) {
    match kind
    case Bca =>
      FirstThrown(JackknifeStats(s)).None? ==> alpha.Some? && BcaDefined(fx, s, alpha.value)
    case Studentized =>
      IsArrayLike(Lookup(opts, "variance")) ==>
        alpha.Some? && NumericVariance(Lookup(opts, "variance"), |s.realizations|)
    case _ => alpha.Some?
  }

  /** The branch of the `switch` for `kind`, once alpha is known */
  function CiOfKind(fx: Routines, s: Record, kind: IntervalType, alpha: Option<real>, opts: map<string, JsValue>): Result<Interval, CiError>
    requires KindDefined(fx, s, kind, alpha, opts)
  {
    match kind
    case Basic => Ok(BasicCi(fx, s.realizations, s.original, alpha.value))
    case Bca => BcaResult(fx, s, alpha)
    case Normal => Ok(NormalCi(fx, s.original, s.bias, s.stdev, alpha.value))
    case Percentile => Ok(PercentileCi(fx, s.realizations, alpha.value))
    case Studentized =>
      var variance := Lookup(opts, "variance");
      if !IsArrayLike(variance) then Err(VarianceMissing)
      else Ok(StudentizedCi(fx, s.realizations, s.original, s.stdev, variance, alpha.value))
  }

  /** The inputs on which `ci` computes with numbers only, once the options
      pass and name a known type */
  ghost predicate CiDefined(fx: Routines, s: Record, options: Option<JsValue>) {
    var v := ValidationOf(fx, options);
    v.err.None? && ParseType(EffectiveType(v.copied)).Some? ==>
      KindDefined(fx, s, ParseType(EffectiveType(v.copied)).value, EffectiveAlpha(v.copied, fx.stringToNumber), v.copied)
  }

  /** What `ci( options )` returns or throws; `options` is None for a call
      without an argument */
  function CiSpec(fx: Routines, s: Record, options: Option<JsValue>): Result<Interval, CiError>
    requires CiDefined(fx, s, options)
  {
    var v := ValidationOf(fx, options);
    if v.err.Some? then Err(Invalid(v.err.value))
    else
      match ParseType(EffectiveType(v.copied))
      case None => Err(UnknownType)
      case Some(kind) => CiOfKind(fx, s, kind, EffectiveAlpha(v.copied, fx.stringToNumber), v.copied)
  }
}
