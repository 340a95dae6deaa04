/** bootstrap( x, statFun, r[, options] ): check the arguments, evaluate the
    statistic on the data, evaluate it on `r` resamples, and return one
    bootstrap output for a number-valued statistic or one per component for
    an array-valued one. The resamples are given as `draws`, the i-th being
    what `sample( x )` returns on the i-th pass of the replicate loop. */
module Bootstrap {
  import opened JsValues
  import opened Foreign
  import opened PickResult
  import opened Ci
  import opened Output
  import opened AttachProperties

  /** The second argument: a function, or any other value */
  datatype StatArg = Callable(f: StatFun) | NotCallable(v: JsValue)

  /** Why `bootstrap` throws */
  datatype BootError =
    | TooFewArguments | OptionsRejected | StatFunNotFunction | ReplicationsNotNumber
    | StatisticThrown(kind: ErrorKind) | InvalidArrayLength
  {
    /** The constructor of what is thrown; None for the error of the
        options validator, which is not part of this model */
    function Kind(): Option<ErrorKind> {
      match this
      case TooFewArguments => Some(Error)
      case OptionsRejected => None
      case StatFunNotFunction => Some(TypeError)
      case ReplicationsNotNumber => Some(TypeError)
      case StatisticThrown(k) => Some(k)
      case InvalidArrayLength => Some(RangeError)
    }
  }

  datatype BootResult = Single(output: BootstrapOutput) | Multiple(outputs: seq<BootstrapOutput>)

  const ArrayLengthBound: int := 0x1_0000_0000

  /** The lengths `new Array( r )` accepts: integers from 0 below 2^32 */
  predicate ValidLength(r: real) {
    r.Floor as real == r && 0 <= r.Floor < ArrayLengthBound
  }

  /** The argument checks, in the order the source makes them; `argc` is
      `arguments.length` and `validate` the verdict of the options
      validator */
  function ArgumentError(argc: nat, stat: StatArg, r: JsValue, options: JsValue, validate: JsValue -> bool): (e: Option<BootError>)
    ensures e.None? ==> argc >= 3 && stat.Callable? && r.JNum?
  {
    if argc < 3 then Some(TooFewArguments)
    else if argc > 3 && !validate(options) then Some(OptionsRejected)
    else if !stat.Callable? then Some(StatFunNotFunction)
    else if !IsNumberPrimitive(r) then Some(ReplicationsNotNumber)
    else None
  }

  /** What `bootstrap` throws, in the order it can throw: a failed argument
      check, an exception of the statistic on the data, the RangeError of
      `new Array( r )`, and the first exception of the statistic on a
      resample */
  function Failure(argc: nat, x: seq<JsValue>, stat: StatArg, r: JsValue, options: JsValue,
                   validate: JsValue -> bool, draws: nat -> seq<JsValue>): (e: Option<BootError>)
    ensures e.None? ==>
      && ArgumentError(argc, stat, r, options, validate).None?
      && !stat.f(x).Thrown?
      && ValidLength(r.n)
      && FirstThrown(Replicates(stat.f, draws, r.n.Floor)).None?
  {
    var a := ArgumentError(argc, stat, r, options, validate);
    if a.Some? then a
    else if stat.f(x).Thrown? then Some(StatisticThrown(stat.f(x).kind))
    else if !ValidLength(r.n) then Some(InvalidArrayLength)
    else
      match FirstThrown(Replicates(stat.f, draws, r.n.Floor))
      case Some(k) => Some(StatisticThrown(k))
      case None => None
  }

  /** `tBoot`: the statistic on each of the `count` resamples */
  function Replicates(f: StatFun, draws: nat -> seq<JsValue>, count: nat): (t: seq<Stat>)
    ensures |t| == count
  {
    seq(count, i requires 0 <= i < count => f(draws(i)))
  }

  /** Every replicate has the shape of `tHat`: a number when it is a number,
      an array of the same length when it is an array */
  predicate SameShape(tHat: Stat, t: seq<Stat>) {
    match tHat
    case Num(_) => forall k :: 0 <= k < |t| ==> t[k].Num?
    case Vec(items) => forall k :: 0 <= k < |t| ==> t[k].Vec? && |t[k].items| == |items|
    case _ => false
  }

  /** The replicates of a number-valued statistic as numbers */
  function Values(t: seq<Stat>): (v: seq<real>)
    requires forall k :: 0 <= k < |t| ==> t[k].Num?
    ensures |v| == |t|
  {
    seq(|t|, k requires 0 <= k < |t| => t[k].value)
  }

  /** Column `i` of the replicate matrix, `tBootMat.mget( null, [i] )` */
  function Column(t: seq<Stat>, i: nat): (c: seq<real>)
    requires forall k :: 0 <= k < |t| ==> t[k].Vec? && i < |t[k].items|
    ensures |c| == |t|
  {
    seq(|t|, k requires 0 <= k < |t| => t[k].items[i])
  }

  /** What `bootstrap` returns, one Record per output, in order */
  function Aggregate(fx: Routines, x: seq<JsValue>, f: StatFun, tHat: Stat, t: seq<Stat>): (rs: seq<Record>)
    requires SameShape(tHat, t)
    ensures |rs| == if tHat.Num? then 1 else |tHat.items|
    ensures forall i :: 0 <= i < |rs| ==> |rs[i].realizations| == |t| && rs[i].data == x
  {
    match tHat
    case Num(v) =>
      var vals := Values(t);
      [Record(v, fx.stdev(vals), fx.mean(vals) - v, vals, f, x)]
    case Vec(items) =>
      seq(|items|, i requires 0 <= i < |items| => ComponentRecord(fx, x, f, items, t, i))
  }

  /** Output `i` of an array-valued statistic */
  function ComponentRecord(fx: Routines, x: seq<JsValue>, f: StatFun, items: seq<real>, t: seq<Stat>, i: nat): (rec: Record)
    requires i < |items| && SameShape(Vec(items), t)
    ensures |rec.realizations| == |t| && rec.data == x
  {
    var col := Column(t, i);
    Record(items[i], fx.stdev(col), fx.mean(col) - items[i], col, PickResult.PickResult(f, i), x)
  }

  /** The outputs as a sequence: one for a Single result */
  function Outputs(b: BootResult): seq<BootstrapOutput> {
    match b
    case Single(o) => [o]
    case Multiple(os) => os
  }

  /** bootstrap( x, statFun, r[, options] ), with the resampler as `draws`.
      The statistic must keep one shape: a number on the data and on every
      resample, or arrays of one length. */
  method Bootstrap(fx: Routines, argc: nat, x: seq<JsValue>, stat: StatArg, r: JsValue, options: JsValue,
                   validate: JsValue -> bool, draws: nat -> seq<JsValue>)
    returns (res: Result<BootResult, BootError>)
    requires Failure(argc, x, stat, r, options, validate, draws).None? ==>
      SameShape(stat.f(x), Replicates(stat.f, draws, r.n.Floor))
    ensures res.Err? <==> Failure(argc, x, stat, r, options, validate, draws).Some?
    ensures res.Err? ==> res.error == Failure(argc, x, stat, r, options, validate, draws).value
    ensures res.Ok? ==>
      var f := stat.f;
      var outs := Outputs(res.value);
      && (res.value.Single? <==> f(x).Num?)
      && |outs| == |Aggregate(fx, x, f, f(x), Replicates(f, draws, r.n.Floor))|
      && (forall i :: 0 <= i < |outs| ==> fresh(outs[i]) && outs[i].accessors.Some?)
      && (forall i, j :: 0 <= i < j < |outs| ==> outs[i] != outs[j])
      && (forall i :: 0 <= i < |outs| ==>
            outs[i].View() == Aggregate(fx, x, f, f(x), Replicates(f, draws, r.n.Floor))[i])
  {
    var e := ArgumentError(argc, stat, r, options, validate);
    if e.Some? {
      return Err(e.value);
    }
    var f := stat.f;
    var tHat := f(x);
    if tHat.Thrown? {
      return Err(StatisticThrown(tHat.kind));
    }
    if !ValidLength(r.n) {
      return Err(InvalidArrayLength);
    }
    var count := r.n.Floor;
    var tBoot := new Stat[count];
    var i := 0;
    while i < count
      invariant 0 <= i <= count
      invariant tBoot[..i] == Replicates(f, draws, count)[..i]
      invariant forall k :: 0 <= k < i ==> !Replicates(f, draws, count)[k].Thrown?
    {
      var t := f(draws(i));
      if t.Thrown? {
        ThrownAt(Replicates(f, draws, count), i);
        return Err(StatisticThrown(t.kind));
      }
      tBoot[i] := t;
      i := i + 1;
    }
    NoneThrown(Replicates(f, draws, count));
    assert tBoot[..] == Replicates(f, draws, count) by {
      assert tBoot[..] == tBoot[..count];
    }
    if tHat.Vec? {
      var outs := Columns(fx, x, f, tHat.items, tBoot);
      res := Ok(Multiple(outs));
    } else {
      var vals := Values(tBoot[..]);
      var o := new BootstrapOutput(tHat.value, fx.stdev(vals), fx.mean(vals) - tHat.value);
      var err := AttachProperties.AttachProperties(o, vals, f, x);
      res := Ok(Single(o));
    }
  }

  /** The vector case: for every component `i`, an output with the
      component of `tHat`, the standard deviation and mean of column `i`,
      that column as its replicates and `pickResult( statFun, i )` as its
      statistic */
  method Columns(fx: Routines, x: seq<JsValue>, f: StatFun, items: seq<real>, tBoot: array<Stat>)
    returns (outs: seq<BootstrapOutput>)
    requires SameShape(Vec(items), tBoot[..])
    ensures |outs| == |items|
    ensures forall i :: 0 <= i < |outs| ==> fresh(outs[i]) && outs[i].accessors.Some?
    ensures forall i, j :: 0 <= i < j < |outs| ==> outs[i] != outs[j]
    ensures forall i :: 0 <= i < |outs| ==> outs[i].View() == Aggregate(fx, x, f, Vec(items), tBoot[..])[i]
  {
    var t := tBoot[..];
    var sds := seq(|items|, i requires 0 <= i < |items| => fx.stdev(Column(t, i)));
    var means := seq(|items|, i requires 0 <= i < |items| => fx.mean(Column(t, i)));
    outs := [];
    var i := 0;
    while i < |items|
      invariant 0 <= i <= |items|
      invariant |outs| == i
      invariant forall k :: 0 <= k < i ==> fresh(outs[k]) && outs[k].accessors.Some?
      invariant forall k, l :: 0 <= k < l < i ==> outs[k] != outs[l]
      invariant forall k :: 0 <= k < i ==> outs[k].View() == Aggregate(fx, x, f, Vec(items), t)[k]
    {
      var o := new BootstrapOutput(items[i], sds[i], means[i] - items[i]);
      var err := AttachProperties.AttachProperties(o, Column(t, i), PickResult.PickResult(f, i), x);
      outs := outs + [o];
      i := i + 1;
    }
  }
}
