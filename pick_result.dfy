/** pickResult: wrap a vector-valued statistic so that it yields one
    component of its output. */
module PickResult {
  import opened JsValues

  /** `out[ idx ]` on a statistic's output: the component when `out` is an
      array long enough; `undefined` when it is a number or the array is too
      short; a TypeError when it is `undefined`; and an exception of `fcn`
      passes through */
  function Component(out: Stat, idx: nat): Stat {
    match out
    case Vec(items) => if idx < |items| then Num(items[idx]) else Undefined
    case Num(_) => Undefined
    case Undefined => Thrown(TypeError)
    case Thrown(k) => Thrown(k)
  }

  /** The closure `picked`: one call of `fcn` on the forwarded arguments,
      followed by the index `idx` fixed when the closure was made */
  function PickResult(fcn: StatFun, idx: nat): StatFun {
    args => Component(fcn(args), idx)
  }

  /** The picked function returns the `idx`-th component of `fcn`'s output;
      `undefined` when the output is a number or an array without that
      component; a TypeError when the output is `undefined`; and it rethrows
      what `fcn` throws */
  lemma PickResultSelects(fcn: StatFun, idx: nat, args: seq<JsValue>)
    ensures fcn(args).Vec? && idx < |fcn(args).items| ==>
      PickResult(fcn, idx)(args) == Num(fcn(args).items[idx])
    ensures fcn(args).Num? || (fcn(args).Vec? && idx >= |fcn(args).items|) ==>
      PickResult(fcn, idx)(args) == Undefined
    ensures fcn(args).Undefined? ==> PickResult(fcn, idx)(args) == Thrown(TypeError)
    ensures fcn(args).Thrown? ==> PickResult(fcn, idx)(args) == fcn(args)
  {
  }

  /** The picked function sees its arguments only through one result of
      `fcn` on exactly those arguments: two wrapped functions that agree on
      that result agree on the picked component, whatever `idx` is */
  lemma PickedDependsOnlyOnOneCall(fcn: StatFun, fcn': StatFun, idx: nat, args: seq<JsValue>, args': seq<JsValue>)
    requires fcn(args) == fcn'(args')
    ensures PickResult(fcn, idx)(args) == PickResult(fcn', idx)(args')
  {
  }

  /** The `k` pickers made for an output of length `k` together reproduce
      that output, component by component and in order */
  lemma {:induction false} PickersReassemble(fcn: StatFun, args: seq<JsValue>)
    requires fcn(args).Vec?
    ensures forall i :: 0 <= i < |fcn(args).items| ==> PickResult(fcn, i)(args).Num?
    ensures seq(|fcn(args).items|, i requires 0 <= i < |fcn(args).items| => PickResult(fcn, i)(args).value)
            == fcn(args).items
  {
    var items := fcn(args).items;
    var picked := seq(|items|, i requires 0 <= i < |items| => PickResult(fcn, i)(args).value);
    forall i | 0 <= i < |items|
      ensures PickResult(fcn, i)(args) == Num(items[i])
    {
      PickResultSelects(fcn, i, args);
    }
    assert picked == items;
  }
}
