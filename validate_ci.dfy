/** validate_ci: checks the options of `ci` one recognised key at a time,
    copying each present key into a destination record before checking it,
    and stops at the first failure. */
module ValidateCi {
  import opened JsValues

  /** Why the options were refused; every one is thrown as a TypeError */
  datatype OptionError = NotAnObject | BadAlpha | BadType | BadVariance {
    function Kind(): ErrorKind { TypeError }
  }

  /** The keys the validator knows, in the order it checks them */
  const Recognised: seq<string> := ["alpha", "type", "variance"]

  /** `opts.alpha <= 0 || opts.alpha >= 1`: a NaN conversion fails both
      comparisons, so it is not refused */
  predicate AlphaRejected(v: JsValue, stringToNumber: string -> Option<real>) {
    var a := ToNumber(v, stringToNumber);
    a.Some? && (a.value <= 0.0 || a.value >= 1.0)
  }

  /** Whether the value of recognised key `key` fails its check */
  predicate Rejects(key: string, v: JsValue, stringToNumber: string -> Option<real>) {
    if key == "alpha" then AlphaRejected(v, stringToNumber)
    else if key == "type" then !IsString(v)
    else !IsArrayLike(v)
  }

  /** A recognised key that is present and refused */
  predicate FailsAt(m: map<string, JsValue>, k: nat, stringToNumber: string -> Option<real>)
    requires k < |Recognised|
  {
    Recognised[k] in m && Rejects(Recognised[k], m[Recognised[k]], stringToNumber)
  }

  /** The position in Recognised, from `k` on, of the first failing key, or
      |Recognised| when none fails */
  function FirstFailure(m: map<string, JsValue>, stringToNumber: string -> Option<real>, k: nat): nat
    requires k <= |Recognised|
    decreases |Recognised| - k
  {
    if k == |Recognised| then k
    else if FailsAt(m, k, stringToNumber) then k
    else FirstFailure(m, stringToNumber, k + 1)
  }

  function ErrorAt(k: nat): OptionError
    requires k < |Recognised|
  {
    [BadAlpha, BadType, BadVariance][k]
  }

  /** The outcome of one validation: the error returned (None for `null`)
      and what was copied into the destination */
  datatype Validation = Validation(err: Option<OptionError>, copied: map<string, JsValue>)

  /** The present recognised keys among the first `j`, with their values */
  function CopiedUpTo(m: map<string, JsValue>, j: nat): map<string, JsValue>
    requires j <= |Recognised|
  {
    if j == 0 then map[]
    else if Recognised[j - 1] in m then CopiedUpTo(m, j - 1)[Recognised[j - 1] := m[Recognised[j - 1]]]
    else CopiedUpTo(m, j - 1)
  }

  /** What validate returns and copies, stated by position: the first failing
      recognised key decides the error, and every recognised key up to and
      including it that is present is copied unchanged */
  function ValidateSpec(options: JsValue, stringToNumber: string -> Option<real>): Validation {
    if !IsObject(options) then Validation(Some(NotAnObject), map[])
    else
      var m := options.props;
      var f := FirstFailure(m, stringToNumber, 0);
      if f < |Recognised| then Validation(Some(ErrorAt(f)), CopiedUpTo(m, f + 1))
      else Validation(None, CopiedUpTo(m, f))
  }

  /** The destination object `opts` that validate writes into */
  class OptionsRecord {
    var fields: map<string, JsValue>

    constructor ()
      ensures fields == map[]
    {
      fields := map[];
    }
  }

  /** validate( opts, options ) */
  method Validate(opts: OptionsRecord, options: JsValue, stringToNumber: string -> Option<real>)
    returns (err: Option<OptionError>)
    modifies opts
    ensures err == ValidateSpec(options, stringToNumber).err
    ensures opts.fields == old(opts.fields) + ValidateSpec(options, stringToNumber).copied
  {
    if !IsObject(options) {
      return Some(NotAnObject);
    }
    var m := options.props;
    ghost var start := opts.fields;
    assert start == start + CopiedUpTo(m, 0);
    if "alpha" in m {
      opts.fields := opts.fields["alpha" := m["alpha"]];
    }
    CopyStep(start, m, 0, opts.fields);
    if "alpha" in m && AlphaRejected(opts.fields["alpha"], stringToNumber) {
      StopsAt(options, stringToNumber, 0);
      return Some(BadAlpha);
    }
    if "type" in m {
      opts.fields := opts.fields["type" := m["type"]];
    }
    CopyStep(start, m, 1, opts.fields);
    if "type" in m && !IsString(opts.fields["type"]) {
      StopsAt(options, stringToNumber, 1);
      return Some(BadType);
    }
    if "variance" in m {
      opts.fields := opts.fields["variance" := m["variance"]];
    }
    CopyStep(start, m, 2, opts.fields);
    if "variance" in m && !IsArrayLike(opts.fields["variance"]) {
      StopsAt(options, stringToNumber, 2);
      return Some(BadVariance);
    }
    PassesAll(options, stringToNumber);
    return None;
  }

  /** Handling recognised key `j` extends the copy by that key, if present */
  lemma CopyStep(start: map<string, JsValue>, m: map<string, JsValue>, j: nat, now: map<string, JsValue>)
    requires j < |Recognised|
    requires now == if Recognised[j] in m then (start + CopiedUpTo(m, j))[Recognised[j] := m[Recognised[j]]]
                    else start + CopiedUpTo(m, j)
    ensures now == start + CopiedUpTo(m, j + 1)
  {
  }

  /** The outcome when key `k` is the first to fail */
  lemma StopsAt(options: JsValue, stringToNumber: string -> Option<real>, k: nat)
    requires IsObject(options) && k < |Recognised|
    requires FailsAt(options.props, k, stringToNumber)
    requires forall j :: 0 <= j < k ==> !FailsAt(options.props, j, stringToNumber)
    ensures ValidateSpec(options, stringToNumber) ==
      Validation(Some(ErrorAt(k)), CopiedUpTo(options.props, k + 1))
  {
    FirstFailureIsFirst(options.props, stringToNumber, 0);
  }

  /** The outcome when no key fails */
  lemma PassesAll(options: JsValue, stringToNumber: string -> Option<real>)
    requires IsObject(options)
    requires forall j :: 0 <= j < |Recognised| ==> !FailsAt(options.props, j, stringToNumber)
    ensures ValidateSpec(options, stringToNumber) == Validation(None, CopiedUpTo(options.props, |Recognised|))
  {
    FirstFailureIsFirst(options.props, stringToNumber, 0);
  }

  // Properties of the validator

  /** FirstFailure finds the first failing key at or after `k` */
  lemma {:induction false} FirstFailureIsFirst(m: map<string, JsValue>, stringToNumber: string -> Option<real>, k: nat)
    requires k <= |Recognised|
    ensures k <= FirstFailure(m, stringToNumber, k) <= |Recognised|
    ensures forall j :: k <= j < FirstFailure(m, stringToNumber, k) ==> !FailsAt(m, j, stringToNumber)
    ensures FirstFailure(m, stringToNumber, k) < |Recognised| ==>
      FailsAt(m, FirstFailure(m, stringToNumber, k), stringToNumber)
    decreases |Recognised| - k
  {
    if k < |Recognised| && !FailsAt(m, k, stringToNumber) {
      FirstFailureIsFirst(m, stringToNumber, k + 1);
    }
  }

  /** A non-object is refused with a TypeError and nothing is copied */
  lemma NonObjectRefused(options: JsValue, stringToNumber: string -> Option<real>)
    requires !IsObject(options)
    ensures ValidateSpec(options, stringToNumber) == Validation(Some(NotAnObject), map[])
    ensures ValidateSpec(options, stringToNumber).err.value.Kind() == TypeError
  {
  }

  /** A numeric alpha is refused exactly outside the open unit interval, so
      both 0 and 1 are refused */
  lemma AlphaBounds(a: real, stringToNumber: string -> Option<real>)
    ensures AlphaRejected(JNum(a), stringToNumber) <==> a <= 0.0 || a >= 1.0
    ensures AlphaRejected(JNum(0.0), stringToNumber) && AlphaRejected(JNum(1.0), stringToNumber)
  {
  }

  /** Any string passes the type check, known interval name or not */
  lemma AnyStringTypePasses(s: string, stringToNumber: string -> Option<real>)
    ensures !Rejects("type", JStr(s), stringToNumber)
  {
  }

  /** Validation succeeds exactly when the options are an object and no
      present recognised key fails its check */
  lemma {:induction false} SucceedsIff(options: JsValue, stringToNumber: string -> Option<real>)
    ensures ValidateSpec(options, stringToNumber).err.None? <==>
      IsObject(options) &&
      forall k :: 0 <= k < |Recognised| ==> !FailsAt(options.props, k, stringToNumber)
  {
    if IsObject(options) {
      FirstFailureIsFirst(options.props, stringToNumber, 0);
    }
  }

  /** CopiedUpTo holds exactly the present keys among the first `j`
      recognised ones, with the values they have in `m` */
  lemma {:induction false} CopiedUpToExact(m: map<string, JsValue>, j: nat)
    requires j <= |Recognised|
    ensures CopiedUpTo(m, j).Keys == m.Keys * set i | 0 <= i < j :: Recognised[i]
    ensures forall key :: key in CopiedUpTo(m, j) ==> CopiedUpTo(m, j)[key] == m[key]
  {
    if j > 0 {
      CopiedUpToExact(m, j - 1);
      assert (set i | 0 <= i < j :: Recognised[i]) == (set i | 0 <= i < j - 1 :: Recognised[i]) + {Recognised[j - 1]};
    }
  }

  /** On success, the destination receives exactly the present recognised
      keys, with their values unchanged; other keys are ignored */
  lemma {:induction false} SuccessCopiesRecognised(options: JsValue, stringToNumber: string -> Option<real>)
    requires ValidateSpec(options, stringToNumber).err.None?
    ensures IsObject(options)
    ensures ValidateSpec(options, stringToNumber).copied.Keys ==
      options.props.Keys * {"alpha", "type", "variance"}
    ensures forall key :: key in ValidateSpec(options, stringToNumber).copied ==>
      ValidateSpec(options, stringToNumber).copied[key] == options.props[key]
  {
    FirstFailureIsFirst(options.props, stringToNumber, 0);
    CopiedUpToExact(options.props, 3);
    assert (set i | 0 <= i < 3 :: Recognised[i]) == {"alpha", "type", "variance"} by {
      assert Recognised[0] == "alpha" && Recognised[1] == "type" && Recognised[2] == "variance";
    }
  }

  /** The checks run in the order alpha, type, variance: the error returned
      names the first present key that fails, and the keys copied are the
      present ones up to and including it, never a later one; their values
      are copied unchanged */
  lemma {:induction false} FirstFailureReported(options: JsValue, stringToNumber: string -> Option<real>, k: nat)
    requires IsObject(options) && k < |Recognised|
    requires FailsAt(options.props, k, stringToNumber)
    requires forall j :: 0 <= j < k ==> !FailsAt(options.props, j, stringToNumber)
    ensures ValidateSpec(options, stringToNumber).err == Some(ErrorAt(k))
    ensures ValidateSpec(options, stringToNumber).copied.Keys ==
      options.props.Keys * set j | 0 <= j <= k :: Recognised[j]
    ensures forall key :: key in ValidateSpec(options, stringToNumber).copied ==>
      ValidateSpec(options, stringToNumber).copied[key] == options.props[key]
    ensures Recognised[k] in ValidateSpec(options, stringToNumber).copied
  {
    FirstFailureIsFirst(options.props, stringToNumber, 0);
    CopiedUpToExact(options.props, k + 1);
    var f := FirstFailure(options.props, stringToNumber, 0);
    assert f == k;
    assert (set j | 0 <= j <= k :: Recognised[j]) == (set j | 0 <= j < k + 1 :: Recognised[j]);
  }
}
