/** What `ci` promises, proved about the functions of module Ci. */
module CiProperties {
  import opened JsValues
  import opened Foreign
  import opened ValidateCi
  import opened Ci

  // The jackknife sequences of the array case

  /** While the inner loop has not reached `i`, it has copied the window;
      after it, the window without position `i` */
  lemma {:induction false} LeaveOneOutIsWindowWithoutI(x: seq<JsValue>, m: nat, i: nat)
    ensures m <= i ==> LeaveOneOut(x, m, i) == Window(x, m)
    ensures m > i ==> LeaveOneOut(x, m, i) == Window(x, m)[..i] + Window(x, m)[i + 1..]
  {
    if m > 0 {
      LeaveOneOutIsWindowWithoutI(x, m - 1, i);
      assert Window(x, m) == Window(x, m - 1) + [Get(x, m - 1)];
      if m - 1 > i {
        assert Window(x, m)[..i] == Window(x, m - 1)[..i];
        assert Window(x, m)[i + 1..] == Window(x, m - 1)[i + 1..] + [Get(x, m - 1)];
      } else if m - 1 == i {
        assert Window(x, m)[..i] == Window(x, m - 1);
        assert Window(x, m)[i + 1..] == [];
      }
    }
  }

  /** Each leave-one-out sequence drops exactly position `i` of the first
      `n` positions and keeps the others in their original order */
  lemma LeaveOneOutDropsOne(x: seq<JsValue>, n: nat, i: nat)
    requires i < n
    ensures LeaveOneOut(x, n, i) == Window(x, n)[..i] + Window(x, n)[i + 1..]
    ensures |LeaveOneOut(x, n, i)| == n - 1
    ensures forall k :: 0 <= k < i ==> LeaveOneOut(x, n, i)[k] == Get(x, k)
    ensures forall k :: i <= k < n - 1 ==> LeaveOneOut(x, n, i)[k] == Get(x, k + 1)
  {
    LeaveOneOutIsWindowWithoutI(x, n, i);
  }

  /** The loop bound is the replicate count `n`: with at least as many
      observations, those past position `n` are never used */
  lemma LeaveOneOutIgnoresDataPastN(x: seq<JsValue>, n: nat, i: nat)
    requires i < n <= |x|
    ensures LeaveOneOut(x, n, i) == x[..i] + x[i + 1..n]
  {
    LeaveOneOutDropsOne(x, n, i);
    assert Window(x, n) == x[..n];
  }

  /** With fewer observations than replicates, a leave-one-out sequence
      holds `undefined`, read past the end of the data */
  lemma LeaveOneOutReadsPastData(x: seq<JsValue>, n: nat, i: nat)
    requires i < n && |x| + 1 < n
    ensures JUndefined in LeaveOneOut(x, n, i)
  {
    LeaveOneOutDropsOne(x, n, i);
    var L := LeaveOneOut(x, n, i);
    if i <= n - 2 {
      assert L[n - 2] == Get(x, n - 1);
    } else {
      assert L[n - 2] == Get(x, n - 2);
    }
  }

  /** A concrete instance: two observations, three replicates */
  lemma LeaveOneOutExample()
    ensures LeaveOneOut([JNum(1.0), JNum(2.0)], 3, 0) == [JNum(2.0), JUndefined]
    ensures LeaveOneOut([JNum(1.0), JNum(2.0)], 3, 2) == [JNum(1.0), JNum(2.0)]
  {
    LeaveOneOutDropsOne([JNum(1.0), JNum(2.0)], 3, 0);
    LeaveOneOutDropsOne([JNum(1.0), JNum(2.0)], 3, 2);
  }

  /** u[ i ] is tHat minus the statistic on the i-th jackknife sequence */
  lemma JackknifeDeviation(s: Record, i: nat)
    requires JackknifeNumeric(s) && i < |s.realizations|
    ensures StatToNumber(s.statFun(LeaveOneOut(s.data, |s.realizations|, i))) == Some(s.original - Jackknife(s)[i])
  {
  }

  /** `tHat - statFun( x_noti )` coerces the statistic's value: a number
      and a one-element array subtract as that number, an empty array as 0,
      and `undefined` or a longer array make the deviation NaN (None) */
  lemma JackknifeCoercion(s: Record, i: nat)
    requires i < |s.realizations|
    ensures var out := s.statFun(LeaveOneOut(s.data, |s.realizations|, i));
      && (out.Num? ==> JackknifeValues(s)[i] == Some(s.original - out.value))
      && (out.Vec? && |out.items| == 1 ==> JackknifeValues(s)[i] == Some(s.original - out.items[0]))
      && (out.Vec? && |out.items| == 0 ==> JackknifeValues(s)[i] == Some(s.original))
      && (out.Undefined? || (out.Vec? && |out.items| > 1) ==> JackknifeValues(s)[i].None?)
  {
  }

  /** FirstThrown is None exactly when no call throws, and otherwise the
      exception of the first call that does */
  lemma {:induction false} FirstThrownIsFirst(st: seq<Stat>)
    ensures FirstThrown(st).None? <==> forall k :: 0 <= k < |st| ==> !st[k].Thrown?
    ensures FirstThrown(st).Some? ==>
      exists i :: 0 <= i < |st| && st[i] == Thrown(FirstThrown(st).value) &&
                  forall k :: 0 <= k < i ==> !st[k].Thrown?
  {
    if st != [] && !st[0].Thrown? {
      FirstThrownIsFirst(st[1..]);
      if FirstThrown(st).Some? {
        var j :| 0 <= j < |st[1..]| && st[1..][j] == Thrown(FirstThrown(st[1..]).value) &&
                 forall k :: 0 <= k < j ==> !st[1..][k].Thrown?;
        assert st[j + 1] == Thrown(FirstThrown(st).value);
      }
    } else if st != [] {
      assert st[0] == Thrown(FirstThrown(st).value);
    }
  }

  // The bias correction

  lemma {:induction false} CountBelowBounded(t: seq<real>, tHat: real)
    ensures CountBelow(t, tHat) <= |t|
  {
    if t != [] {
      CountBelowBounded(t[..|t| - 1], tHat);
    }
  }

  /** CountBelow counts exactly the replicates that lie below tHat */
  lemma {:induction false} CountBelowCounts(t: seq<real>, tHat: real)
    ensures CountBelow(t, tHat) == |set k | 0 <= k < |t| && t[k] < tHat|
  {
    if t != [] {
      var init := t[..|t| - 1];
      CountBelowCounts(init, tHat);
      var below := set k | 0 <= k < |t| && t[k] < tHat;
      var belowInit := set k | 0 <= k < |init| && init[k] < tHat;
      assert below - {|t| - 1} == belowInit;
      if t[|t| - 1] < tHat {
        assert below == belowInit + {|t| - 1};
      } else {
        assert below == belowInit;
      }
    }
  }

  /** The argument of the normal quantile in z0 lies in [0, 1] */
  lemma BiasCorrectionArgumentInUnitInterval(t: seq<real>, tHat: real)
    requires |t| > 0
    ensures 0.0 <= BiasCorrectionArgument(t, tHat) <= 1.0
  {
    CountBelowBounded(t, tHat);
  }

  // The interval formulas

  /** `basic` is `percentile` reflected about tHat, ends swapped */
  lemma BasicReflectsPercentile(fx: Routines, t: seq<real>, tHat: real, alpha: real)
    ensures BasicCi(fx, t, tHat, alpha).low == 2.0 * tHat - PercentileCi(fx, t, alpha).high
    ensures BasicCi(fx, t, tHat, alpha).high == 2.0 * tHat - PercentileCi(fx, t, alpha).low
  {
  }

  /** With a monotone quantile and 0 < alpha < 1 the percentile and basic
      intervals are ordered */
  lemma PercentileOrdered(fx: Routines, t: seq<real>, tHat: real, alpha: real)
    requires QuantileMonotone(fx) && 0.0 < alpha < 1.0
    ensures PercentileCi(fx, t, alpha).low <= PercentileCi(fx, t, alpha).high
    ensures BasicCi(fx, t, tHat, alpha).low <= BasicCi(fx, t, tHat, alpha).high
  {
    assert 0.0 <= alpha / 2.0 <= 1.0 - alpha / 2.0 <= 1.0;
  }

  /** `normal` is centred at tHat - bias, with half-width
      normQ(1 - alpha/2) * stdev on each side */
  lemma NormalSymmetric(fx: Routines, tHat: real, bias: real, stdev: real, alpha: real)
    ensures var iv := NormalCi(fx, tHat, bias, stdev, alpha);
      && (iv.low + iv.high) / 2.0 == tHat - bias
      && iv.high - (tHat - bias) == fx.normQuantile(1.0 - alpha / 2.0) * stdev
      && (tHat - bias) - iv.low == fx.normQuantile(1.0 - alpha / 2.0) * stdev
  {
  }

  /** With no acceleration and no bias correction, BCA is the percentile
      interval */
  lemma BcaWithoutCorrectionIsPercentile(fx: Routines, s: Record, alpha: real)
    requires CdfInvertsQuantile(fx) && 0.0 < alpha < 1.0
    requires BcaDefined(fx, s, alpha)
    requires Acceleration(fx, Jackknife(s)) == 0.0
    requires fx.normQuantile(BiasCorrectionArgument(s.realizations, s.original)) == 0.0
    ensures BcaCi(fx, s, alpha) == PercentileCi(fx, s.realizations, alpha)
  {
    var zl := fx.normQuantile(alpha / 2.0);
    var zu := fx.normQuantile(1.0 - alpha / 2.0);
    assert AdjustedTail(fx, 0.0, 0.0, zl) == fx.normCdf(zl);
    assert AdjustedTail(fx, 0.0, 0.0, zu) == fx.normCdf(zu);
  }

  /** The studentized deviations: (tBoot[k] - tHat) / variance[k] */
  lemma StudentizedDividesByVariance(t: seq<real>, tHat: real, variance: JsValue, k: nat)
    requires NumericVariance(variance, |t|) && k < |t|
    ensures StudentizedDeviations(t, tHat, variance)[k] == (t[k] - tHat) / variance.items[k].n
  {
  }

  // The dispatcher

  /** A validated alpha that is a number lies strictly between 0 and 1,
      the default included */
  lemma ValidatedAlphaInUnitInterval(fx: Routines, options: Option<JsValue>)
    requires ValidationOf(fx, options).err.None?
    requires EffectiveAlpha(ValidationOf(fx, options).copied, fx.stringToNumber).Some?
    ensures 0.0 < EffectiveAlpha(ValidationOf(fx, options).copied, fx.stringToNumber).value < 1.0
  {
    var v := ValidationOf(fx, options);
    if options.Some? && "alpha" in v.copied && Truthy(v.copied["alpha"]) {
      SuccessCopiesRecognised(options.value, fx.stringToNumber);
      SucceedsIff(options.value, fx.stringToNumber);
      assert !FailsAt(options.value.props, 0, fx.stringToNumber);
    }
  }

  /** Without options the interval is `basic` at alpha = 0.05 */
  lemma NoOptionsMeansBasic(fx: Routines, s: Record)
    ensures CiDefined(fx, s, None)
    ensures CiSpec(fx, s, None) == Ok(BasicCi(fx, s.realizations, s.original, 0.05))
  {
  }

  /** Options that pass and name neither a type nor an alpha also give
      `basic` at alpha = 0.05; so does an empty type string */
  lemma MissingTypeAndAlphaMeanBasic(fx: Routines, s: Record, m: map<string, JsValue>)
    requires "alpha" !in m
    requires "type" !in m || m["type"] == JStr("")
    requires "variance" in m ==> IsArrayLike(m["variance"])
    ensures CiDefined(fx, s, Some(JObject(m)))
    ensures CiSpec(fx, s, Some(JObject(m))) == Ok(BasicCi(fx, s.realizations, s.original, 0.05))
  {
    SucceedsIff(JObject(m), fx.stringToNumber);
    SuccessCopiesRecognised(JObject(m), fx.stringToNumber);
  }

  /** An alpha of NaN or undefined passes validation and then falls back
      to 0.05 */
  lemma FalsyAlphaFallsBack(fx: Routines, m: map<string, JsValue>)
    requires "alpha" in m && (m["alpha"] == JNaN || m["alpha"] == JUndefined)
    requires "type" in m ==> IsString(m["type"])
    requires "variance" in m ==> IsArrayLike(m["variance"])
    ensures ValidationOf(fx, Some(JObject(m))).err.None?
    ensures EffectiveAlpha(ValidationOf(fx, Some(JObject(m))).copied, fx.stringToNumber) == Some(0.05)
  {
    SucceedsIff(JObject(m), fx.stringToNumber);
    SuccessCopiesRecognised(JObject(m), fx.stringToNumber);
  }

  /** `ci` throws "unknown type" exactly when the options pass and the
      type in force is none of the five names; there is no fallback */
  lemma UnknownTypeIff(fx: Routines, s: Record, options: Option<JsValue>)
    requires CiDefined(fx, s, options)
    ensures CiSpec(fx, s, options) == Err(UnknownType) <==>
      ValidationOf(fx, options).err.None? &&
      EffectiveType(ValidationOf(fx, options).copied) !in
        {JStr("basic"), JStr("bca"), JStr("normal"), JStr("percentile"), JStr("studentized")}
  {
  }

  /** In particular a non-empty type string that names no interval is
      rejected, whatever else the options say */
  lemma UnknownNameRejected(fx: Routines, s: Record, m: map<string, JsValue>, name: string)
    requires "type" in m && m["type"] == JStr(name) && name != ""
    requires name !in ["basic", "bca", "normal", "percentile", "studentized"]
    requires "alpha" in m ==> !AlphaRejected(m["alpha"], fx.stringToNumber)
    requires "variance" in m ==> IsArrayLike(m["variance"])
    ensures CiDefined(fx, s, Some(JObject(m)))
    ensures CiSpec(fx, s, Some(JObject(m))) == Err(UnknownType)
  {
    SucceedsIff(JObject(m), fx.stringToNumber);
    SuccessCopiesRecognised(JObject(m), fx.stringToNumber);
  }

  /** A failed validation is thrown before any interval is computed */
  lemma InvalidOptionsThrown(fx: Routines, s: Record, options: JsValue)
    requires ValidateSpec(options, fx.stringToNumber).err.Some?
    ensures CiDefined(fx, s, Some(options))
    ensures CiSpec(fx, s, Some(options)) == Err(Invalid(ValidateSpec(options, fx.stringToNumber).err.value))
  {
  }

  /** `studentized` without an array-like variance throws */
  lemma StudentizedNeedsVariance(fx: Routines, s: Record, m: map<string, JsValue>)
    requires "type" in m && m["type"] == JStr("studentized") && "variance" !in m
    requires "alpha" in m ==> !AlphaRejected(m["alpha"], fx.stringToNumber)
    ensures CiDefined(fx, s, Some(JObject(m)))
    ensures CiSpec(fx, s, Some(JObject(m))) == Err(VarianceMissing)
  {
    SucceedsIff(JObject(m), fx.stringToNumber);
    SuccessCopiesRecognised(JObject(m), fx.stringToNumber);
  }

  /** That holds for every alpha that converts to NaN too: it passes
      validation, and the missing variance is thrown before alpha is used,
      although no numeric alpha is in force */
  lemma StudentizedNeedsVarianceWhateverAlpha(fx: Routines, s: Record, m: map<string, JsValue>)
    requires "type" in m && m["type"] == JStr("studentized") && "variance" !in m
    requires "alpha" in m && ToNumber(m["alpha"], fx.stringToNumber).None?
    ensures CiDefined(fx, s, Some(JObject(m)))
    ensures CiSpec(fx, s, Some(JObject(m))) == Err(VarianceMissing)
    ensures Truthy(m["alpha"]) ==>
      EffectiveAlpha(ValidationOf(fx, Some(JObject(m))).copied, fx.stringToNumber).None?
  {
    StudentizedNeedsVariance(fx, s, m);
    SucceedsIff(JObject(m), fx.stringToNumber);
    SuccessCopiesRecognised(JObject(m), fx.stringToNumber);
    assert "alpha" in ValidateSpec(JObject(m), fx.stringToNumber).copied;
  }

  /** Each of the five names selects its own interval */
  lemma {:induction false} NamedTypeSelects(fx: Routines, s: Record, options: Option<JsValue>)
    requires CiDefined(fx, s, options) && ValidationOf(fx, options).err.None?
    ensures var v := ValidationOf(fx, options);
      var t := EffectiveType(v.copied);
      var alpha := EffectiveAlpha(v.copied, fx.stringToNumber);
      && (t == JStr("basic") ==> CiSpec(fx, s, options) == Ok(BasicCi(fx, s.realizations, s.original, alpha.value)))
      && (t == JStr("bca") ==> CiSpec(fx, s, options) == BcaResult(fx, s, alpha))
      && (t == JStr("normal") ==> CiSpec(fx, s, options) == Ok(NormalCi(fx, s.original, s.bias, s.stdev, alpha.value)))
      && (t == JStr("percentile") ==> CiSpec(fx, s, options) == Ok(PercentileCi(fx, s.realizations, alpha.value)))
      && (t == JStr("studentized") && IsArrayLike(Lookup(v.copied, "variance")) ==>
            CiSpec(fx, s, options) == Ok(StudentizedCi(fx, s.realizations, s.original, s.stdev, Lookup(v.copied, "variance"), alpha.value)))
  {
    var v := ValidationOf(fx, options);
    var t := EffectiveType(v.copied);
    if t == JStr("basic") { assert ParseType(t) == Some(Basic); }
    if t == JStr("bca") { assert ParseType(t) == Some(Bca); }
    if t == JStr("normal") { assert ParseType(t) == Some(Normal); }
    if t == JStr("percentile") { assert ParseType(t) == Some(Percentile); }
    if t == JStr("studentized") { assert ParseType(t) == Some(Studentized); }
  }

  /** On the `bca` path an exception of the statistic on a leave-one-out
      sequence is thrown, the first one in loop order */
  lemma BcaStatisticThrows(fx: Routines, s: Record, alpha: Option<real>, i: nat)
    requires i < |s.realizations|
    requires s.statFun(LeaveOneOut(s.data, |s.realizations|, i)).Thrown?
    requires forall k :: 0 <= k < i ==> !s.statFun(LeaveOneOut(s.data, |s.realizations|, k)).Thrown?
    ensures FirstThrown(JackknifeStats(s)) == Some(s.statFun(LeaveOneOut(s.data, |s.realizations|, i)).kind)
    ensures BcaResult(fx, s, alpha) == Err(StatisticThrew(s.statFun(LeaveOneOut(s.data, |s.realizations|, i)).kind))
  {
    ThrownAt(JackknifeStats(s), i);
  }

  /** Every interval `ci` returns by `percentile` or `basic` is ordered when
      the quantile is monotone */
  lemma CiPercentileAndBasicOrdered(fx: Routines, s: Record, options: Option<JsValue>)
    requires QuantileMonotone(fx)
    requires CiDefined(fx, s, options) && CiSpec(fx, s, options).Ok?
    requires EffectiveType(ValidationOf(fx, options).copied) in {JStr("basic"), JStr("percentile")}
    ensures CiSpec(fx, s, options).value.low <= CiSpec(fx, s, options).value.high
  {
    ValidatedAlphaInUnitInterval(fx, options);
    var alpha := EffectiveAlpha(ValidationOf(fx, options).copied, fx.stringToNumber).value;
    PercentileOrdered(fx, s.realizations, s.original, alpha);
  }

  /** Every `normal` interval `ci` returns is ordered and centred at
      tHat - bias when the normal quantile is not negative above the median
      and the stored stdev is not negative */
  lemma CiNormalOrdered(fx: Routines, s: Record, options: Option<JsValue>)
    requires UpperQuantileNonNegative(fx) && s.stdev >= 0.0
    requires CiDefined(fx, s, options) && CiSpec(fx, s, options).Ok?
    requires EffectiveType(ValidationOf(fx, options).copied) == JStr("normal")
    ensures CiSpec(fx, s, options).value.low <= CiSpec(fx, s, options).value.high
    ensures (CiSpec(fx, s, options).value.low + CiSpec(fx, s, options).value.high) / 2.0 == s.original - s.bias
  {
    ValidatedAlphaInUnitInterval(fx, options);
    var alpha := EffectiveAlpha(ValidationOf(fx, options).copied, fx.stringToNumber).value;
    assert 0.5 <= 1.0 - alpha / 2.0 < 1.0;
    var zu := fx.normQuantile(1.0 - alpha / 2.0);
    assert zu * s.stdev >= 0.0;
  }
}
