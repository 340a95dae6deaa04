/** attachProperties: give a bootstrap output its read-only accessors
    `realizations`, `statFun` and `data` and its method `ci`. The accessors
    close over the replicates, the statistic and the data they are given;
    `realizations` and `data` hand out a fresh copy on every read. */
module AttachProperties {
  import opened JsValues
  import opened Output

  /** attachProperties( obj, tBoot, statFun, x ). The properties are defined
      non-configurable, so on an output that already has them the second
      definition of `realizations` throws a TypeError (the redefinition of
      `ci` with the same function before it is allowed and changes nothing) */
  method AttachProperties(obj: BootstrapOutput, tBoot: seq<real>, statFun: StatFun, x: seq<JsValue>)
    returns (err: Option<ErrorKind>)
    modifies obj
    ensures obj.original == old(obj.original) && obj.stdev == old(obj.stdev) && obj.bias == old(obj.bias)
    ensures old(obj.accessors).None? ==> err.None? && obj.accessors == Some(Accessors(tBoot, statFun, x))
    ensures old(obj.accessors).Some? ==> err == Some(TypeError) && obj.accessors == old(obj.accessors)
  {
    if obj.accessors.Some? {
      return Some(TypeError);
    }
    obj.accessors := Some(Accessors(tBoot, statFun, x));
    err := None;
  }

  /** Reading `realizations`, writing any value `v` at any position `j` of
      the copy, and reading again: the second read still equals the stored
      replicates, and only the first copy holds the write */
  method RealizationsAreSnapshots(obj: BootstrapOutput, j: nat, v: real) returns (first: seq<real>, second: seq<real>)
    requires obj.accessors.Some?
    ensures second == obj.accessors.value.realizations
    ensures |first| == |second|
    ensures j < |second| ==> first == second[j := v]
    ensures j >= |second| ==> first == second
  {
    var a := obj.Realizations();
    if j < a.Length {
      a[j] := v;
    }
    var b := obj.Realizations();
    first, second := a[..], b[..];
  }

  /** The same for `data`: a write into a copy leaves later reads untouched */
  method DataAreSnapshots(obj: BootstrapOutput, j: nat, v: JsValue) returns (first: seq<JsValue>, second: seq<JsValue>)
    requires obj.accessors.Some?
    ensures second == obj.accessors.value.data
    ensures |first| == |second|
    ensures j < |second| ==> first == second[j := v]
    ensures j >= |second| ==> first == second
  {
    var a := obj.Data();
    if j < a.Length {
      a[j] := v;
    }
    var b := obj.Data();
    first, second := a[..], b[..];
  }

  /** Two successive reads of `realizations` give two different arrays,
      both holding the stored replicates */
  method RealizationsReadTwice(obj: BootstrapOutput) returns (a: array<real>, b: array<real>)
    requires obj.accessors.Some?
    ensures fresh(a) && fresh(b) && a != b
    ensures a[..] == b[..] == obj.accessors.value.realizations
  {
    a := obj.Realizations();
    b := obj.Realizations();
  }
}
