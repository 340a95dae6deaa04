/** Properties of `bootstrap`: the order of its argument checks, and what
    every output it returns records about the data, the statistic and the
    resamples. */
module BootstrapProperties {
  import opened JsValues
  import opened Foreign
  import opened PickResult
  import opened Ci
  import opened CiProperties
  import opened Bootstrap

  // The argument checks and the exceptions before the outputs

  /** The arguments pass exactly when there are at least three, the options
      (when given) pass their validator, the statistic is a function and `r`
      is a number primitive */
  lemma ArgumentsPassIff(argc: nat, stat: StatArg, r: JsValue, options: JsValue, validate: JsValue -> bool)
    ensures ArgumentError(argc, stat, r, options, validate).None? <==>
      && argc >= 3
      && (argc > 3 ==> validate(options))
      && stat.Callable?
      && r.JNum?
  {
  }

  /** `bootstrap` throws nothing exactly when the arguments pass, the
      statistic does not throw on the data, `r` is a whole number below 2^32
      and the statistic throws on none of the resamples */
  lemma {:induction false} NothingThrownIff(argc: nat, x: seq<JsValue>, stat: StatArg, r: JsValue, options: JsValue,
                                            validate: JsValue -> bool, draws: nat -> seq<JsValue>)
    ensures Failure(argc, x, stat, r, options, validate, draws).None? <==>
      && ArgumentError(argc, stat, r, options, validate).None?
      && !stat.f(x).Thrown?
      && ValidLength(r.n)
      && forall k :: 0 <= k < r.n.Floor ==> !stat.f(draws(k)).Thrown?
  {
    if ArgumentError(argc, stat, r, options, validate).None? && !stat.f(x).Thrown? && ValidLength(r.n) {
      var t := Replicates(stat.f, draws, r.n.Floor);
      FirstThrownIsFirst(t);
      assert forall k :: 0 <= k < r.n.Floor ==> t[k] == stat.f(draws(k));
    }
  }

  /** Fewer than three arguments is an Error, whatever the arguments are */
  lemma TooFewArgumentsThrown(argc: nat, x: seq<JsValue>, stat: StatArg, r: JsValue, options: JsValue,
                              validate: JsValue -> bool, draws: nat -> seq<JsValue>)
    requires argc < 3
    ensures Failure(argc, x, stat, r, options, validate, draws) == Some(TooFewArguments)
    ensures TooFewArguments.Kind() == Some(Error)
  {
  }

  /** With exactly three arguments the options validator is not consulted */
  lemma ThreeArgumentsSkipValidation(x: seq<JsValue>, stat: StatArg, r: JsValue, options: JsValue, options': JsValue,
                                     validate: JsValue -> bool, validate': JsValue -> bool, draws: nat -> seq<JsValue>)
    ensures Failure(3, x, stat, r, options, validate, draws) == Failure(3, x, stat, r, options', validate', draws)
  {
  }

  /** A statistic that is not a function is a TypeError, checked before `r` */
  lemma StatFunChecked(argc: nat, x: seq<JsValue>, v: JsValue, r: JsValue, options: JsValue,
                       validate: JsValue -> bool, draws: nat -> seq<JsValue>)
    requires argc >= 3 && (argc > 3 ==> validate(options))
    ensures Failure(argc, x, NotCallable(v), r, options, validate, draws) == Some(StatFunNotFunction)
    ensures StatFunNotFunction.Kind() == Some(TypeError)
  {
  }

  /** An `r` that is not a number primitive, NaN included, is a TypeError,
      thrown before the statistic is called */
  lemma ReplicationsChecked(argc: nat, x: seq<JsValue>, f: StatFun, r: JsValue, options: JsValue,
                            validate: JsValue -> bool, draws: nat -> seq<JsValue>)
    requires argc >= 3 && (argc > 3 ==> validate(options))
    requires !r.JNum?
    ensures Failure(argc, x, Callable(f), r, options, validate, draws) == Some(ReplicationsNotNumber)
    ensures Failure(argc, x, Callable(f), JNaN, options, validate, draws) == Some(ReplicationsNotNumber)
    ensures ReplicationsNotNumber.Kind() == Some(TypeError)
  {
  }

  /** Once the arguments pass, an exception of the statistic on the data is
      thrown before `new Array( r )` is reached, whatever number `r` is */
  lemma StatisticOnDataThrownFirst(argc: nat, x: seq<JsValue>, f: StatFun, v: real, options: JsValue,
                                   validate: JsValue -> bool, draws: nat -> seq<JsValue>)
    requires argc >= 3 && (argc > 3 ==> validate(options))
    requires f(x).Thrown?
    ensures Failure(argc, x, Callable(f), JNum(v), options, validate, draws) == Some(StatisticThrown(f(x).kind))
    ensures StatisticThrown(f(x).kind).Kind() == Some(f(x).kind)
  {
  }

  /** Once the arguments pass and the statistic does not throw on the data,
      `new Array( r )` throws a RangeError exactly for a negative, fractional
      or too large number `r`; otherwise only a resample can make
      `bootstrap` throw, and with 0 replications nothing is thrown */
  lemma ArrayLengthChecked(argc: nat, x: seq<JsValue>, f: StatFun, v: real, options: JsValue,
                           validate: JsValue -> bool, draws: nat -> seq<JsValue>)
    requires argc >= 3 && (argc > 3 ==> validate(options))
    requires !f(x).Thrown?
    ensures Failure(argc, x, Callable(f), JNum(v), options, validate, draws) == Some(InvalidArrayLength) <==>
      v < 0.0 || v.Floor as real != v || v >= ArrayLengthBound as real
    ensures Failure(argc, x, Callable(f), JNum(v), options, validate, draws) != Some(InvalidArrayLength) ==>
      Failure(argc, x, Callable(f), JNum(v), options, validate, draws) ==
        match FirstThrown(Replicates(f, draws, v.Floor))
        case Some(k) => Some(StatisticThrown(k))
        case None => None
    ensures Failure(argc, x, Callable(f), JNum(0.0), options, validate, draws).None?
    ensures InvalidArrayLength.Kind() == Some(RangeError)
  {
  }

  /** The first resample on which the statistic throws decides the
      exception, the later ones are never evaluated */
  lemma ResampleThrown(argc: nat, x: seq<JsValue>, f: StatFun, r: JsValue, options: JsValue,
                       validate: JsValue -> bool, draws: nat -> seq<JsValue>, i: nat)
    requires ArgumentError(argc, Callable(f), r, options, validate).None? && !f(x).Thrown? && ValidLength(r.n)
    requires i < r.n.Floor && f(draws(i)).Thrown?
    requires forall k :: 0 <= k < i ==> !f(draws(k)).Thrown?
    ensures Failure(argc, x, Callable(f), r, options, validate, draws) == Some(StatisticThrown(f(draws(i)).kind))
  {
    ThrownAt(Replicates(f, draws, r.n.Floor), i);
  }

  // The outputs

  /** One output for a number-valued statistic, one per component for an
      array-valued one */
  lemma OutputCount(fx: Routines, x: seq<JsValue>, f: StatFun, tHat: Stat, t: seq<Stat>)
    requires SameShape(tHat, t)
    ensures tHat.Num? ==> |Aggregate(fx, x, f, tHat, t)| == 1
    ensures tHat.Vec? ==> |Aggregate(fx, x, f, tHat, t)| == |tHat.items|
  {
  }

  /** Every output's statistic, applied to its data, gives back its
      `original`: the value of the statistic on the unresampled data, or
      that value's component */
  lemma {:induction false} OriginalIsStatisticOfData(fx: Routines, x: seq<JsValue>, f: StatFun, t: seq<Stat>)
    requires SameShape(f(x), t)
    ensures forall i :: 0 <= i < |Aggregate(fx, x, f, f(x), t)| ==>
      var rec := Aggregate(fx, x, f, f(x), t)[i];
      rec.data == x && rec.statFun(rec.data) == Num(rec.original)
  {
    if f(x).Vec? {
      forall i | 0 <= i < |f(x).items|
        ensures PickResult.PickResult(f, i)(x) == Num(f(x).items[i])
      {
        PickResultSelects(f, i, x);
      }
    }
  }

  /** Every output's replicates are its own statistic on the resamples, in
      the order drawn, one per replication */
  lemma {:induction false} RealizationsAreStatisticOfResamples(fx: Routines, x: seq<JsValue>, f: StatFun,
                                                               draws: nat -> seq<JsValue>, count: nat)
    requires SameShape(f(x), Replicates(f, draws, count))
    ensures forall i :: 0 <= i < |Aggregate(fx, x, f, f(x), Replicates(f, draws, count))| ==>
      var rec := Aggregate(fx, x, f, f(x), Replicates(f, draws, count))[i];
      && |rec.realizations| == count
      && forall k :: 0 <= k < count ==> rec.statFun(draws(k)) == Num(rec.realizations[k])
  {
    var t := Replicates(f, draws, count);
    var rs := Aggregate(fx, x, f, f(x), t);
    forall i, k | 0 <= i < |rs| && 0 <= k < count
      ensures rs[i].statFun(draws(k)) == Num(rs[i].realizations[k])
    {
      assert t[k] == f(draws(k));
      if f(x).Vec? {
        PickResultSelects(f, i, draws(k));
        assert rs[i].realizations == Column(t, i);
      } else {
        assert rs[i].realizations == Values(t);
      }
    }
  }

  /** Every output's `stdev` and `bias` are the standard deviation of its
      replicates and their mean less `original`, in that order */
  lemma StdevAndBiasOfRealizations(fx: Routines, x: seq<JsValue>, f: StatFun, tHat: Stat, t: seq<Stat>)
    requires SameShape(tHat, t)
    ensures forall i :: 0 <= i < |Aggregate(fx, x, f, tHat, t)| ==>
      var rec := Aggregate(fx, x, f, tHat, t)[i];
      && rec.stdev == fx.stdev(rec.realizations)
      && rec.bias == fx.mean(rec.realizations) - rec.original
  {
  }

  /** The number-valued case keeps the statistic itself, and its replicates
      are the replicate array as numbers */
  lemma ScalarKeepsStatistic(fx: Routines, x: seq<JsValue>, f: StatFun, t: seq<Stat>)
    requires f(x).Num? && SameShape(f(x), t)
    ensures Aggregate(fx, x, f, f(x), t)[0].statFun == f
    ensures Aggregate(fx, x, f, f(x), t)[0].realizations == Values(t)
    ensures Aggregate(fx, x, f, f(x), t)[0].original == f(x).value
  {
  }

  /** In the array-valued case output `i` selects component `i`: its
      statistic is `pickResult( statFun, i )` and its replicates are column
      `i` of the replicate matrix */
  lemma VectorSelectsComponent(fx: Routines, x: seq<JsValue>, f: StatFun, t: seq<Stat>, i: nat)
    requires f(x).Vec? && SameShape(f(x), t) && i < |f(x).items|
    ensures Aggregate(fx, x, f, f(x), t)[i].statFun == PickResult.PickResult(f, i)
    ensures Aggregate(fx, x, f, f(x), t)[i].original == f(x).items[i]
    ensures Aggregate(fx, x, f, f(x), t)[i].realizations == Column(t, i)
    ensures forall k :: 0 <= k < |t| ==> Aggregate(fx, x, f, f(x), t)[i].realizations[k] == t[k].items[i]
  {
  }
}
