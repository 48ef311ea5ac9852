/** The result of checking one variable name against a transformer's naming rules. */
module VariableNameValidationResult {
  import opened Wrappers

  /** `Succeeded` and the (possibly null) `ErrorMessage`, both fixed at construction. */
  datatype ValidationResult = ValidationResult(succeeded: bool, errorMessage: Option<string>)

  /** `Success()`: succeeded, with no error message. */
  function Success(): (r: ValidationResult)
    ensures r.succeeded && r.errorMessage.None?
  {
    ValidationResult(true, None)
  }

  /** `Failed(errorMessage)`: not succeeded, carrying the given message. */
  function Failed(errorMessage: string): (r: ValidationResult)
    ensures !r.succeeded && r.errorMessage == Some(errorMessage)
  {
    ValidationResult(false, Some(errorMessage))
  }

  /** The two factories never produce the same result, whatever the message. */
  lemma SuccessIsNotFailed(m: string)
    ensures Success() != Failed(m)
  {
  }
}
