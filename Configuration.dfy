/**
 * `VariableReplacerConfiguration`: the mutable builder that collects the variables and the
 * transformer, not-found policy and value formatter a replacer will use.
 */
module Configuration {
  import opened Wrappers
  import opened Values
  import opened Errors
  import opened Guard
  import opened Placeholders
  import opened Resolution

  /** The default not-found policy: the placeholder becomes "NOTFOUND:" followed by the name. */
  function NotFoundText(variableName: string): Result<string, Error> {
    Success("NOTFOUND:" + variableName)
  }

  /** The policy installed by `ThrowIfVariableNotFound`: an `ArgumentException` naming the variable. */
  function ThrowNotFound(variableName: string): Result<string, Error> {
    Failure(Argument("Variable '" + variableName + "' not found"))
  }

  /** `Dictionary.Add`: binds a new key, or throws for a key that is already present. */
  function DictionaryAdd(variables: map<string, Value>, name: string, value: Value): (r: Result<map<string, Value>, Error>)
    ensures r.Failure? <==> name in variables
    ensures r.Failure? ==> r.error == DuplicateKey(name)
    ensures r.Success? ==> r.value.Keys == variables.Keys + {name} && r.value[name] == value
    ensures r.Success? ==> forall n :: n in variables ==> r.value[n] == variables[n]
    ensures r.Success? ==> |r.value| == |variables| + 1
  {
    if name in variables then Failure(DuplicateKey(name)) else Success(variables[name := value])
  }

  /** The message of the `ArgumentNullException` that `Regex.Escape` throws for a null argument. */
  const EscapeNullMessage := "Value cannot be null."

  /**
   * `Regex.Escape` as far as the model needs it: a null argument throws for its parameter `str`;
   * otherwise the delimiter is matched as literal text, which the matcher does with the text itself.
   */
  function Escape(text: Option<string>): (r: Result<string, Error>)
    ensures text.None? <==> r.Failure?
    ensures text.None? ==> r.error == ArgumentNull("str", EscapeNullMessage)
    ensures text.Some? ==> r.value == text.value
  {
    match text
    case None => Failure(ArgumentNull("str", EscapeNullMessage))
    case Some(t) => Success(t)
  }

  class VariableReplacerConfiguration {
    /** `Variables`: the bindings added so far. */
    var variables: map<string, Value>
    /** `Transformer`: the default is the "$(" / ")" regex transformer. */
    var transformer: RegexTransformer
    /** `VariableNotFound`: the text for an unbound name, or the exception to throw. */
    var variableNotFound: NotFoundPolicy
    /** `ValueFormatter`: the default is string interpolation of the value. */
    var valueFormatter: Value -> string
    /** The characters the regex class `\w` accepts. */
    const wordChar: char -> bool

    constructor(wordChar: char -> bool)
      ensures this.wordChar == wordChar
      ensures variables == map[] && transformer == DefaultTransformer()
      ensures variableNotFound == NotFoundText && valueFormatter == DefaultFormat
    {
      this.wordChar := wordChar;
      variables := map[];
      transformer := DefaultTransformer();
      variableNotFound := NotFoundText;
      valueFormatter := DefaultFormat;
    }

    /** What a replacer built from this configuration works with; variables are found by dictionary lookup. */
    function Settings(): (st: Settings)
      reads this
      ensures LookupConfined(st)
    {
      Resolution.Settings(variables, TryGetValue, transformer, wordChar, variableNotFound, valueFormatter)
    }

    /** `AddVariable`: a null name is rejected; otherwise the binding is added as by `Dictionary.Add`. */
    method AddVariable(name: Option<string>, value: Value) returns (r: Result<VariableReplacerConfiguration, Error>)
      modifies this
      ensures name.None? ==> r == Failure(ArgumentNull("name", NullMessage)) && variables == old(variables)
      ensures name.Some? && name.value in old(variables) ==>
        r == Failure(DuplicateKey(name.value)) && variables == old(variables)
      ensures name.Some? && name.value !in old(variables) ==>
        r == Success(this) && variables == old(variables)[name.value := value]
      ensures transformer == old(transformer) && variableNotFound == old(variableNotFound)
      ensures valueFormatter == old(valueFormatter)
    {
      var checked := IsNotNull(name, "name");
      if checked.Failure? {
        return Failure(checked.error);
      }
      var added := DictionaryAdd(variables, checked.value, value);
      if added.Failure? {
        return Failure(added.error);
      }
      variables := added.value;
      r := Success(this);
    }

    /** `WithTransformer`: a null transformer is rejected; otherwise it replaces the current one. */
    method WithTransformer(transformer: Option<RegexTransformer>) returns (r: Result<VariableReplacerConfiguration, Error>)
      modifies this
      ensures transformer.None? ==> r == Failure(ArgumentNull("transformer", NullMessage)) && this.transformer == old(this.transformer)
      ensures transformer.Some? ==> r == Success(this) && this.transformer == transformer.value
      ensures variables == old(variables) && variableNotFound == old(variableNotFound)
      ensures valueFormatter == old(valueFormatter)
    {
      var checked := IsNotNull(transformer, "transformer");
      if checked.Failure? {
        return Failure(checked.error);
      }
      this.transformer := checked.value;
      r := Success(this);
    }

    /**
     * `WithDefaultTransformer`: a regex transformer with the given delimiters and optional command
     * processor. Building the pattern escapes each delimiter, and `Regex.Escape` throws for a null
     * one before anything is installed.
     */
    method WithDefaultTransformer(prefix: Option<string> := Some("$("), suffix: Option<string> := Some(")"),
                                  commandProcessor: Option<CommandProcessor> := None)
      returns (r: Result<VariableReplacerConfiguration, Error>)
      modifies this
      ensures prefix.None? || suffix.None? ==>
        r == Failure(ArgumentNull("str", EscapeNullMessage)) && transformer == old(transformer)
      ensures prefix.Some? && suffix.Some? ==>
        r == Success(this) && transformer == RegexTransformer(prefix.value, suffix.value, commandProcessor)
      ensures variables == old(variables) && variableNotFound == old(variableNotFound)
      ensures valueFormatter == old(valueFormatter)
    {
      var checkedPrefix := Escape(prefix);
      if checkedPrefix.Failure? {
        return Failure(checkedPrefix.error);
      }
      var checkedSuffix := Escape(suffix);
      if checkedSuffix.Failure? {
        return Failure(checkedSuffix.error);
      }
      r := WithTransformer(Some(RegexTransformer(checkedPrefix.value, checkedSuffix.value, commandProcessor)));
    }

    /** `WhenVariableNotFound`: a null policy is rejected; otherwise it replaces the current one. */
    method WhenVariableNotFound(whenVariableNotFound: Option<NotFoundPolicy>) returns (r: Result<VariableReplacerConfiguration, Error>)
      modifies this
      ensures whenVariableNotFound.None? ==>
        r == Failure(ArgumentNull("whenVariableNotFound", NullMessage)) && variableNotFound == old(variableNotFound)
      ensures whenVariableNotFound.Some? ==> r == Success(this) && variableNotFound == whenVariableNotFound.value
      ensures variables == old(variables) && transformer == old(transformer)
      ensures valueFormatter == old(valueFormatter)
    {
      var checked := IsNotNull(whenVariableNotFound, "whenVariableNotFound");
      if checked.Failure? {
        return Failure(checked.error);
      }
      variableNotFound := checked.value;
      r := Success(this);
    }

    /** `ThrowIfVariableNotFound`: installs the policy that throws for every unbound name. */
    method ThrowIfVariableNotFound() returns (r: Result<VariableReplacerConfiguration, Error>)
      modifies this
      ensures r == Success(this) && variableNotFound == ThrowNotFound
      ensures variables == old(variables) && transformer == old(transformer)
      ensures valueFormatter == old(valueFormatter)
    {
      r := WhenVariableNotFound(Some(ThrowNotFound));
    }

    /** `WithValueFormatter`: a null formatter is rejected; otherwise it replaces the current one. */
    method WithValueFormatter(formatter: Option<Value -> string>) returns (r: Result<VariableReplacerConfiguration, Error>)
      modifies this
      ensures formatter.None? ==> r == Failure(ArgumentNull("formatter", NullMessage)) && valueFormatter == old(valueFormatter)
      ensures formatter.Some? ==> r == Success(this) && valueFormatter == formatter.value
      ensures variables == old(variables) && transformer == old(transformer)
      ensures variableNotFound == old(variableNotFound)
    {
      var checked := IsNotNull(formatter, "formatter");
      if checked.Failure? {
        return Failure(checked.error);
      }
      valueFormatter := checked.value;
      r := Success(this);
    }
  }

  /** The throwing policy's error names the variable: "Variable 'x' not found". */
  lemma ThrowNotFoundMessage(variableName: string)
    ensures ThrowNotFound(variableName).Failure?
    ensures ThrowNotFound(variableName).error.Message() == "Variable '" + variableName + "' not found"
  {
  }
}
