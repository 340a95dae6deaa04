/** BootstrapOutput: the record `bootstrap` returns for one statistic. The
    constructor sets `original`, `stdev` and `bias`; attachProperties later
    adds the read-only accessors `realizations`, `statFun` and `data` and the
    method `ci`, which here are the methods of the class. */
module Output {
  import opened JsValues
  import opened Foreign
  import opened ValidateCi
  import opened Ci

  /** What the accessors added by attachProperties close over */
  datatype Accessors = Accessors(realizations: seq<real>, statFun: StatFun, data: seq<JsValue>)

  class BootstrapOutput {
    var original: real
    var stdev: real
    var bias: real
    /** None until attachProperties has run */
    var accessors: Option<Accessors>

    /** new BootstrapOutput( original, stdev, bias ) */
    constructor (original: real, stdev: real, bias: real)
      ensures this.original == original && this.stdev == stdev && this.bias == bias
      ensures accessors.None?
    {
      this.original := original;
      this.stdev := stdev;
      this.bias := bias;
      accessors := None;
    }

    /** The state `ci` reads through `this` */
    ghost function View(): (r: Record)
      reads this
      requires accessors.Some?
    {
      Record(original, stdev, bias, accessors.value.realizations, accessors.value.statFun, accessors.value.data)
    }

    /** The `realizations` getter: a fresh copy of the replicates on every read */
    method Realizations() returns (copy: array<real>)
      requires accessors.Some?
      ensures fresh(copy)
      ensures copy[..] == accessors.value.realizations
    {
      var t := accessors.value.realizations;
      copy := new real[|t|](k requires 0 <= k < |t| => t[k]);
    }

    /** The `statFun` getter: the stored function itself, not a copy */
    method StatFunction() returns (f: StatFun)
      requires accessors.Some?
      ensures f == accessors.value.statFun
    {
      f := accessors.value.statFun;
    }

    /** The `data` getter: a fresh copy of the original observations on every read */
    method Data() returns (copy: array<JsValue>)
      requires accessors.Some?
      ensures fresh(copy)
      ensures copy[..] == accessors.value.data
    {
      var x := accessors.value.data;
      copy := new JsValue[|x|](k requires 0 <= k < |x| => x[k]);
    }

    /** `ci( options )`, with `options` None for a call without an argument.
        It changes nothing: every array it uses is a fresh copy or its own. */
    method Ci(fx: Routines, options: Option<JsValue>) returns (res: Result<Interval, CiError>)
      requires accessors.Some?
      requires CiDefined(fx, View(), options)
      ensures res == CiSpec(fx, View(), options)
    {
      var opts := new OptionsRecord();
      if options.Some? {
        var err := Validate(opts, options.value, fx.stringToNumber);
        if err.Some? {
          return Err(Invalid(err.value));
        }
      }
      assert opts.fields == ValidationOf(fx, options).copied;
      var kind := ParseType(EffectiveType(opts.fields));
      var alphaOrNaN := EffectiveAlpha(opts.fields, fx.stringToNumber);
      if kind.None? {
        return Err(UnknownType);
      }
      res := Branch(fx, kind.value, alphaOrNaN, opts.fields);
    }

    /** The `switch` of `ci` on the interval type; `alpha` is None where
        `opts.alpha || 0.05` is NaN */
    method Branch(fx: Routines, kind: IntervalType, alpha: Option<real>, opts: map<string, JsValue>)
      returns (res: Result<Interval, CiError>)
      requires accessors.Some?
      requires KindDefined(fx, View(), kind, alpha, opts)
      ensures res == CiOfKind(fx, View(), kind, alpha, opts)
    {
      var tBoot := Realizations();
      var n := tBoot.Length;
      var tHat := original;
      match kind
      case Basic =>
        var a := alpha.value;
        res := Ok(Interval(2.0 * tHat - fx.quantile(tBoot[..], 1.0 - a / 2.0),
                           2.0 * tHat - fx.quantile(tBoot[..], a / 2.0)));
      case Bca =>
        res := BcaInterval(fx, alpha);
      case Normal =>
        var a := alpha.value;
        var zu := fx.normQuantile(1.0 - a / 2.0);
        res := Ok(Interval(tHat - bias - zu * stdev, tHat - bias + zu * stdev));
        assert NormalCi(fx, original, bias, stdev, a).low == tHat - bias - zu * stdev;
      case Percentile =>
        var a := alpha.value;
        res := Ok(Interval(fx.quantile(tBoot[..], a / 2.0), fx.quantile(tBoot[..], 1.0 - a / 2.0)));
      case Studentized =>
        var variance := Lookup(opts, "variance");
        if !IsArrayLike(variance) {
          return Err(VarianceMissing);
        }
        var a := alpha.value;
        var zbs := seq(n, k requires 0 <= k < n reads tBoot => (tBoot[k] - tHat) / variance.items[k].n);
        assert zbs == StudentizedDeviations(View().realizations, original, variance);
        res := Ok(Interval(tHat - fx.quantile(zbs, 1.0 - a / 2.0) * stdev,
                           tHat - fx.quantile(zbs, a / 2.0) * stdev));
        assert StudentizedCi(fx, View().realizations, original, stdev, variance, a)
            == Interval(tHat - fx.quantile(zbs, 1.0 - a / 2.0) * stdev, tHat - fx.quantile(zbs, a / 2.0) * stdev);
    }

    /** The jackknife loop of the `bca` branch: `u[ i ] = tHat - statFun( x_noti )`
        for every `i < n`, with `n = tBoot.length`; None in `u` stands for
        NaN. A call of the statistic that throws ends the loop with its
        exception. */
    method JackknifeDeviations() returns (u: array<Option<real>>, thrown: Option<ErrorKind>)
      requires accessors.Some?
      ensures fresh(u)
      ensures thrown == FirstThrown(JackknifeStats(View()))
      ensures thrown.None? ==> u[..] == JackknifeValues(View())
    {
      ghost var s := View();
      ghost var st := JackknifeStats(s);
      var tBoot := Realizations();
      var n := tBoot.Length;
      u := new Option<real>[n](_ => None);
      var tHat := original;
      var x := Data();
      var f := StatFunction();
      var i := 0;
      while i < n
        invariant 0 <= i <= n
        invariant x[..] == s.data
        invariant forall k :: 0 <= k < i ==> !st[k].Thrown?
        invariant forall k :: 0 <= k < i ==> u[k] == JackknifeValues(s)[k]
      {
        var xNoti := LeaveOut(x, n, i);
        var out := f(xNoti);
        if out.Thrown? {
          ThrownAt(st, i);
          return u, Some(out.kind);
        }
        u[i] := match StatToNumber(out) case Some(v) => Some(tHat - v) case None => None;
        i := i + 1;
      }
      NoneThrown(st);
      assert u[..] == JackknifeValues(s);
      thrown := None;
    }

    /** The `bca` branch of `ci`: the jackknife deviations, then the
        acceleration, the bias correction and the adjusted tails */
    method BcaInterval(fx: Routines, alpha: Option<real>) returns (res: Result<Interval, CiError>)
      requires accessors.Some?
      requires FirstThrown(JackknifeStats(View())).None? ==> alpha.Some? && BcaDefined(fx, View(), alpha.value)
      ensures res == BcaResult(fx, View(), alpha)
    {
      var tBoot := Realizations();
      var tHat := original;
      var u, thrown := JackknifeDeviations();
      if thrown.Some? {
        return Err(StatisticThrew(thrown.value));
      }
      var deviations := Numbers(u[..]);
      var accel := Acceleration(fx, deviations);
      var z0 := fx.normQuantile(BiasCorrectionArgument(tBoot[..], tHat));
      res := Ok(BcaTail(fx, tBoot[..], accel, z0, alpha.value));
    }
  }

  /** The inner loop of the jackknife: `x_noti` collects `x[ j ]` for every
      `j < n` other than `i`, reading `undefined` past the end of `x` */
  method LeaveOut(x: array<JsValue>, n: nat, i: nat) returns (xNoti: seq<JsValue>)
    ensures xNoti == LeaveOneOut(x[..], n, i)
  {
    xNoti := [];
    var j := 0;
    while j < n
      invariant 0 <= j <= n
      invariant xNoti == LeaveOneOut(x[..], j, i)
    {
      if j != i {
        xNoti := xNoti + [if j < x.Length then x[j] else JUndefined];
      }
      j := j + 1;
    }
  }
}
