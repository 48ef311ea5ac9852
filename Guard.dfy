/** `Guard`: null checks that throw `ArgumentNullException` for the named parameter. */
module Guard {
  import opened Wrappers
  import opened Errors

  /** The message every guard failure carries. */
  const NullMessage := "Argument cannot be null"

  /** `IsNotNull(value, parameterName)`: the value itself when present, otherwise the exception. */
  function IsNotNull<T>(value: Option<T>, parameterName: string): (r: Result<T, Error>)
    ensures value.Some? <==> r.Success?
    ensures value.Some? ==> r.value == value.value
    ensures value.None? ==> r.error == ArgumentNull(parameterName, NullMessage)
  {
    match value
    case Some(v) => Success(v)
    case None => Failure(ArgumentNull(parameterName, NullMessage))
  }

  /** `AssertNotNull`, the extension-method form: it behaves exactly as `IsNotNull`. */
  function AssertNotNull<T>(value: Option<T>, parameterName: string): (r: Result<T, Error>)
    ensures r == IsNotNull(value, parameterName)
  {
    IsNotNull(value, parameterName)
  }

  /** The message of a guard failure names the parameter, as "Argument cannot be null (Parameter 'x')". */
  lemma GuardMessage<T>(parameterName: string)
    ensures IsNotNull<T>(None, parameterName).error.Message()
            == "Argument cannot be null (Parameter '" + parameterName + "')"
  {
  }
}
