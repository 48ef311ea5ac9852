/** `VariablesFromEnvironmentVariablesConfiguration`: the options for adding variables from the environment. */
module EnvironmentOptions {
  import opened Wrappers
  import opened Errors
  import opened Guard

  /** The default filter: every environment variable is included. */
  function IncludeEvery(key: string): bool {
    true
  }

  class VariablesFromEnvironmentVariablesConfiguration {
    /** `EnvironmentVariableFilter`: true for the keys to include. */
    var environmentVariableFilter: string -> bool
    /** `InvalidVariableNameFilterIsDisabled`: keep entries with invalid names instead of dropping them. */
    var invalidVariableNameFilterIsDisabled: bool
    /** `Prefix`: prepended to each key; null until set. */
    var prefix: Option<string>

    constructor()
      ensures environmentVariableFilter == IncludeEvery
      ensures !invalidVariableNameFilterIsDisabled && prefix == None
    {
      environmentVariableFilter := IncludeEvery;
      invalidVariableNameFilterIsDisabled := false;
      prefix := None;
    }

    /** `WithEnvironmentVariableFilter`: a null filter is rejected; otherwise it replaces the current one. */
    method WithEnvironmentVariableFilter(filter: Option<string -> bool>)
      returns (r: Result<VariablesFromEnvironmentVariablesConfiguration, Error>)
      modifies this
      ensures filter.None? ==>
        r == Failure(ArgumentNull("environmentVariableFilter", NullMessage))
        && environmentVariableFilter == old(environmentVariableFilter)
      ensures filter.Some? ==> r == Success(this) && environmentVariableFilter == filter.value
      ensures invalidVariableNameFilterIsDisabled == old(invalidVariableNameFilterIsDisabled) && prefix == old(prefix)
    {
      var checked := IsNotNull(filter, "environmentVariableFilter");
      if checked.Failure? {
        return Failure(checked.error);
      }
      environmentVariableFilter := checked.value;
      r := Success(this);
    }

    /** `DisableInvalidVariableNameFilter`: entries with invalid names are kept. */
    method DisableInvalidVariableNameFilter() returns (r: VariablesFromEnvironmentVariablesConfiguration)
      modifies this
      ensures r == this && invalidVariableNameFilterIsDisabled
      ensures environmentVariableFilter == old(environmentVariableFilter) && prefix == old(prefix)
    {
      invalidVariableNameFilterIsDisabled := true;
      r := this;
    }

    /** `WithPrefix`: sets the prefix, null included. */
    method WithPrefix(prefix: Option<string>) returns (r: VariablesFromEnvironmentVariablesConfiguration)
      modifies this
      ensures r == this && this.prefix == prefix
      ensures environmentVariableFilter == old(environmentVariableFilter)
      ensures invalidVariableNameFilterIsDisabled == old(invalidVariableNameFilterIsDisabled)
    {
      this.prefix := prefix;
      r := this;
    }
  }
}
