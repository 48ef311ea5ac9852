/** `VariablesFromObjectConfiguration`: the options for adding variables from an object's properties. */
module ObjectOptions {
  import opened Wrappers
  import opened Errors
  import opened Guard

  /** `PropertyFilterContext`: the property under consideration, by name, and the path of its parent. */
  datatype PropertyFilterContext = PropertyFilterContext(propertyName: string, parentPath: string)

  type PropertyFilter = PropertyFilterContext -> bool

  class VariablesFromObjectConfiguration {
    /** `PropertyPathSeparator`: what joins a parent path and a property name. */
    var propertyPathSeparator: string
    /** `PropertyFilter`: true for the properties to include; null until set. */
    var propertyFilter: Option<PropertyFilter>

    constructor()
      ensures propertyPathSeparator == "." && propertyFilter == None
    {
      propertyPathSeparator := ".";
      propertyFilter := None;
    }

    /** `WithPropertyFilter`: a null filter is rejected; otherwise it replaces the current one. */
    method WithPropertyFilter(filter: Option<PropertyFilter>) returns (r: Result<VariablesFromObjectConfiguration, Error>)
      modifies this
      ensures filter.None? ==> r == Failure(ArgumentNull("propertyFilter", NullMessage)) && propertyFilter == old(propertyFilter)
      ensures filter.Some? ==> r == Success(this) && propertyFilter == filter
      ensures propertyPathSeparator == old(propertyPathSeparator)
    {
      var checked := IsNotNull(filter, "propertyFilter");
      if checked.Failure? {
        return Failure(checked.error);
      }
      propertyFilter := Some(checked.value);
      r := Success(this);
    }

    /** `WithPropertyPathSeparator`: a null separator is rejected; otherwise it replaces the current one. */
    method WithPropertyPathSeparator(separator: Option<string>) returns (r: Result<VariablesFromObjectConfiguration, Error>)
      modifies this
      ensures separator.None? ==>
        r == Failure(ArgumentNull("propertyPathSeparator", NullMessage)) && propertyPathSeparator == old(propertyPathSeparator)
      ensures separator.Some? ==> r == Success(this) && propertyPathSeparator == separator.value
      ensures propertyFilter == old(propertyFilter)
    {
      var checked := IsNotNull(separator, "propertyPathSeparator");
      if checked.Failure? {
        return Failure(checked.error);
      }
      propertyPathSeparator := checked.value;
      r := Success(this);
    }
  }
}
