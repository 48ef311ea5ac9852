/** Finding the name validator of a configuration, when its transformer offers one. */
module TransformHelperExtensions {
  import opened Wrappers
  import opened VariableNameValidationResult

  /** A validator maps a candidate name to its validation result. */
  type Validator = string -> ValidationResult

  /**
   * The object a validator is asked of: either it holds a transformer (it is an `IHaveATransformer`)
   * whose `IsAValidVariableName` is given here, or it is some other object.
   */
  datatype Source =
    | TransformerContainer(isAValidVariableName: Validator)
    | OtherObject

  /** `TryAs<IHaveATransformer>`: true exactly for a container, with the cast value, or null otherwise. */
  function TryAs(source: Source): (r: (bool, Option<Source>))
    ensures r.0 <==> source.TransformerContainer?
    ensures r.0 ==> r.1 == Some(source)
    ensures !r.0 ==> r.1 == None
  {
    if source.TransformerContainer? then (true, Some(source)) else (false, None)
  }

  /** The validator that accepts every name. */
  function AcceptAll(name: string): ValidationResult {
    VariableNameValidationResult.Success()
  }

  /** `GetVariableNameValidator`: the container's own check, or one that accepts every name. */
  function GetVariableNameValidator(source: Source): (r: Validator)
    ensures source.TransformerContainer? ==> r == source.isAValidVariableName
    ensures source.OtherObject? ==> forall name :: r(name).succeeded && r(name).errorMessage.None?
  {
    var (found, container) := TryAs(source);
    if found then container.value.isAValidVariableName else AcceptAll
  }
}
