/** `AccessEnum`: the access level of an uploaded asset, and its validator. */
module Access {
  import opened Wrappers
  import opened Exceptions
  import opened Php

  /** The two cases and their backing strings. */
  datatype AccessEnum = PublicRead | Private {
    function Value(): string
    {
      match this
      case PublicRead => "public-read"
      case Private => "private"
    }
  }

  const INVALID_ACCESS_MESSAGE: string := "Invalid AccessEnum type"

  /** The backing values, `$validValues`. */
  function ValidValues(): seq<string>
  {
    [AccessEnum.PublicRead.Value(), AccessEnum.Private.Value()]
  }

  /**
   * `AccessEnum::is_valid`: a strict `in_array`, so only the strings themselves
   * pass; success is the null the source returns.
   */
  function IsValid(v: Value): Outcome<()>
  {
    if v.Str? && v.s in ValidValues() then Success(()) else Failure(PlainException(INVALID_ACCESS_MESSAGE))
  }

  /** The case a backing string names, if any: the inverse of Value. */
  function FromValue(s: string): (r: Option<AccessEnum>)
    ensures r.Some? ==> r.value.Value() == s
  {
    if s == "public-read" then Some(PublicRead)
    else if s == "private" then Some(Private)
    else None
  }

  /** Each case's value passes, and reading it back gives the case. */
  lemma ValueRoundTrip(a: AccessEnum)
    ensures IsValid(Str(a.Value())) == Success(())
    ensures FromValue(a.Value()) == Some(a)
  {
  }

  /**
   * A value passes exactly when it is the string of one of the cases; anything
   * else, a non-string look-alike included, fails with the plain exception.
   */
  lemma IsValidIff(v: Value)
    ensures IsValid(v).Success? <==> exists a: AccessEnum :: v == Str(a.Value())
    ensures IsValid(v).Failure? ==> IsValid(v).error == PlainException(INVALID_ACCESS_MESSAGE)
    ensures !v.Str? ==> IsValid(v).Failure?
  {
    if v.Str? && v.s == "public-read" {
      assert v == Str(AccessEnum.PublicRead.Value());
    } else if v.Str? && v.s == "private" {
      assert v == Str(AccessEnum.Private.Value());
    }
  }

  /** The backing values are distinct, so Value is one-to-one. */
  lemma ValueInjective(a: AccessEnum, b: AccessEnum)
    requires a.Value() == b.Value()
    ensures a == b
  {
  }
}
