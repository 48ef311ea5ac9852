/**
 * `CanAddVariablesExtensions`: bulk additions to a configuration, from a dictionary, from a
 * snapshot of the environment block, and from an object's property tree. Each adds its
 * entries one by one with `AddVariable`, so the first rejected entry stops the addition and
 * the entries before it stay added.
 */
module CanAddVariablesExtensions {
  import opened Wrappers
  import opened Strings
  import opened Values
  import opened Errors
  import opened Guard
  import opened Configuration

  /** The outcome of adding a list of entries: the bindings afterwards and the exception that stopped it, if any. */
  datatype Added = Added(variables: map<string, Value>, error: Option<Error>)

  /** Adding `entries` in order with `Dictionary.Add`, stopping at the first key that is already bound. */
  function AddAll(variables: map<string, Value>, entries: seq<(string, Value)>): Added
    decreases |entries|
  {
    if entries == [] then Added(variables, None)
    else if entries[0].0 in variables then Added(variables, Some(DuplicateKey(entries[0].0)))
    else AddAll(variables[entries[0].0 := entries[0].1], entries[1..])
  }

  /** Each step is one `Dictionary.Add`: a bound key raises its duplicate-key error, a new one is bound. */
  lemma AddAllHead(variables: map<string, Value>, entries: seq<(string, Value)>)
    requires entries != []
    ensures var step := DictionaryAdd(variables, entries[0].0, entries[0].1);
      AddAll(variables, entries) ==
        (if step.Failure? then Added(variables, Some(step.error)) else AddAll(step.value, entries[1..]))
  {
  }

  /** Bindings that exist before the addition survive it unchanged, whether or not it stops early. */
  lemma {:induction false} AddAllKeeps(variables: map<string, Value>, entries: seq<(string, Value)>, n: string)
    requires n in variables
    ensures n in AddAll(variables, entries).variables && AddAll(variables, entries).variables[n] == variables[n]
    decreases |entries|
  {
    if entries != [] && entries[0].0 !in variables {
      AddAllKeeps(variables[entries[0].0 := entries[0].1], entries[1..], n);
    }
  }

  /** An addition that stops names the key of one of the entries in its error. */
  lemma {:induction false} AddAllBlames(variables: map<string, Value>, entries: seq<(string, Value)>)
    requires AddAll(variables, entries).error.Some?
    ensures exists k :: 0 <= k < |entries| && AddAll(variables, entries).error == Some(DuplicateKey(entries[k].0))
    decreases |entries|
  {
    if entries[0].0 !in variables {
      var rest := entries[1..];
      AddAllBlames(variables[entries[0].0 := entries[0].1], rest);
      var k :| 0 <= k < |rest| && AddAll(variables, entries).error == Some(DuplicateKey(rest[k].0));
      assert rest[k] == entries[k + 1];
    }
  }

  /** The entry keys are pairwise different and none of them is bound yet. */
  predicate Fresh(variables: map<string, Value>, entries: seq<(string, Value)>) {
    && (forall k :: 0 <= k < |entries| ==> entries[k].0 !in variables)
    && (forall i, j :: 0 <= i < j < |entries| ==> entries[i].0 != entries[j].0)
  }

  /** The keys of a list of entries. */
  function EntryKeys(entries: seq<(string, Value)>): set<string>
    decreases |entries|
  {
    if entries == [] then {} else {entries[0].0} + EntryKeys(entries[1..])
  }

  /** A key is among the entry keys exactly when some entry has it. */
  lemma {:induction false} EntryKeysMembers(entries: seq<(string, Value)>, x: string)
    ensures x in EntryKeys(entries) <==> exists k :: 0 <= k < |entries| && entries[k].0 == x
    decreases |entries|
  {
    if entries != [] {
      EntryKeysMembers(entries[1..], x);
      if x in EntryKeys(entries[1..]) {
        var k :| 0 <= k < |entries[1..]| && entries[1..][k].0 == x;
        assert entries[k + 1].0 == x;
      }
      if exists k :: 0 <= k < |entries| && entries[k].0 == x {
        var k :| 0 <= k < |entries| && entries[k].0 == x;
        if k > 0 {
          assert entries[1..][k - 1].0 == x;
        }
      }
    }
  }

  /** Fresh keys stay fresh for the rest of the list once the first entry is added. */
  lemma FreshTail(variables: map<string, Value>, entries: seq<(string, Value)>)
    requires entries != [] && Fresh(variables, entries)
    ensures Fresh(variables[entries[0].0 := entries[0].1], entries[1..])
  {
    var next := variables[entries[0].0 := entries[0].1];
    var rest := entries[1..];
    forall k | 0 <= k < |rest| ensures rest[k].0 !in next {
      assert rest[k] == entries[k + 1];
    }
    forall i, j | 0 <= i < j < |rest| ensures rest[i].0 != rest[j].0 {
      assert rest[i] == entries[i + 1] && rest[j] == entries[j + 1];
    }
  }

  /** Fresh entries are all added: the bindings become the old ones plus exactly the entries. */
  lemma {:induction false} AddAllFresh(variables: map<string, Value>, entries: seq<(string, Value)>)
    requires Fresh(variables, entries)
    ensures AddAll(variables, entries).error.None?
    ensures AddAll(variables, entries).variables.Keys == variables.Keys + EntryKeys(entries)
    ensures forall k :: 0 <= k < |entries| ==>
      entries[k].0 in AddAll(variables, entries).variables && AddAll(variables, entries).variables[entries[k].0] == entries[k].1
    decreases |entries|
  {
    if entries != [] {
      var next := variables[entries[0].0 := entries[0].1];
      var rest := entries[1..];
      assert entries[0].0 !in variables;
      assert AddAll(variables, entries) == AddAll(next, rest);
      FreshTail(variables, entries);
      AddAllFresh(next, rest);
      assert next.Keys == variables.Keys + {entries[0].0};
      var r := AddAll(next, rest).variables;
      AddAllKeeps(next, rest, entries[0].0);
      forall k | 0 <= k < |entries| ensures entries[k].0 in r && r[entries[k].0] == entries[k].1 {
        if k > 0 {
          assert rest[k - 1] == entries[k];
        }
      }
    }
  }

  /** An entry whose key is already bound stops the addition there: only the entries before it are added. */
  lemma {:induction false} AddAllStopsAt(variables: map<string, Value>, entries: seq<(string, Value)>, k: nat)
    requires k < |entries| && Fresh(variables, entries[..k])
    requires entries[k].0 in AddAll(variables, entries[..k]).variables
    ensures AddAll(variables, entries) == Added(AddAll(variables, entries[..k]).variables, Some(DuplicateKey(entries[k].0)))
    decreases k
  {
    if k == 0 {
      assert entries[..0] == [];
    } else {
      var next := variables[entries[0].0 := entries[0].1];
      var rest := entries[1..];
      assert entries[..k][0] == entries[0];
      assert entries[..k][1..] == rest[..k - 1];
      var before := entries[..k];
      var pre := rest[..k - 1];
      assert Fresh(next, pre) by {
        forall j | 0 <= j < |pre| ensures pre[j].0 !in next {
          assert pre[j] == before[j + 1];
        }
        forall i, j | 0 <= i < j < |pre| ensures pre[i].0 != pre[j].0 {
          assert pre[i] == before[i + 1] && pre[j] == before[j + 1];
        }
      }
      AddAllStopsAt(next, rest, k - 1);
    }
  }

  /** Adding a single entry is one dictionary addition. */
  lemma AddOne(variables: map<string, Value>, e: (string, Value))
    ensures AddAll(variables, [e]) ==
      (if e.0 in variables then Added(variables, Some(DuplicateKey(e.0))) else Added(variables[e.0 := e.1], None))
  {
    assert [e][1..] == [];
  }

  /** Adding two lists one after the other is adding their concatenation. */
  lemma {:induction false} AddAllConcat(variables: map<string, Value>, a: seq<(string, Value)>, b: seq<(string, Value)>)
    ensures AddAll(variables, a + b) ==
      (if AddAll(variables, a).error.Some? then AddAll(variables, a) else AddAll(AddAll(variables, a).variables, b))
    decreases |a|
  {
    if a == [] {
      assert a + b == b;
    } else {
      assert (a + b)[0] == a[0] && (a + b)[1..] == a[1..] + b;
      if a[0].0 !in variables {
        AddAllConcat(variables[a[0].0 := a[0].1], a[1..], b);
      }
    }
  }

  /** One step of the bulk addition: entry `i` is rejected, which ends the whole addition, or added. */
  lemma AddStep(start: map<string, Value>, entries: seq<(string, Value)>, i: nat, before: map<string, Value>)
    requires i < |entries| && AddAll(start, entries[..i]) == Added(before, None)
    ensures entries[i].0 in before ==> AddAll(start, entries) == Added(before, Some(DuplicateKey(entries[i].0)))
    ensures entries[i].0 !in before ==> AddAll(start, entries[..i + 1]) == Added(before[entries[i].0 := entries[i].1], None)
  {
    AddOne(before, entries[i]);
    AddAllConcat(start, entries[..i], [entries[i]]);
    assert entries[..i + 1] == entries[..i] + [entries[i]];
    if entries[i].0 in before {
      AddAllConcat(start, entries[..i + 1], entries[i + 1..]);
      assert entries[..i + 1] + entries[i + 1..] == entries;
    }
  }

  /**
   * `AddVariables`: a null dictionary is rejected; otherwise its entries, in enumeration order,
   * are added one by one.
   */
  method AddVariables(source: VariableReplacerConfiguration, variableDictionary: Option<seq<(string, Value)>>)
    returns (r: Result<VariableReplacerConfiguration, Error>)
    modifies source
    ensures variableDictionary.None? ==>
      r == Failure(ArgumentNull("variableDictionary", NullMessage)) && source.variables == old(source.variables)
    ensures variableDictionary.Some? ==>
      var added := AddAll(old(source.variables), variableDictionary.value);
      && source.variables == added.variables
      && (if added.error.Some? then r == Failure(added.error.value) else r == Success(source))
  {
    var checked := IsNotNull(variableDictionary, "variableDictionary");
    if checked.Failure? {
      return Failure(checked.error);
    }
    r := AddEach(source, checked.value);
  }

  /** The `Aggregate` over `AddVariable` shared by the bulk additions. */
  method AddEach(source: VariableReplacerConfiguration, entries: seq<(string, Value)>)
    returns (r: Result<VariableReplacerConfiguration, Error>)
    modifies source
    ensures var added := AddAll(old(source.variables), entries);
      && source.variables == added.variables
      && (if added.error.Some? then r == Failure(added.error.value) else r == Success(source))
  {
    ghost var start := source.variables;
    var i := 0;
    while i < |entries|
      invariant i <= |entries|
      invariant AddAll(start, entries[..i]) == Added(source.variables, None)
    {
      AddStep(start, entries, i, source.variables);
      var added := source.AddVariable(Some(entries[i].0), entries[i].1);
      if added.Failure? {
        return added;
      }
      i := i + 1;
    }
    assert entries[..i] == entries;
    r := Success(source);
  }

  /** The environment block entries `AddEnvironmentVariables` adds: the accepted keys, renamed with the prefix. */
  function EnvironmentEntries(environment: seq<(string, string)>, accept: string -> bool, prefix: string): (r: seq<(string, Value)>)
    ensures |r| <= |environment|
    decreases |environment|
  {
    if environment == [] then []
    else
      var rest := EnvironmentEntries(environment[1..], accept, prefix);
      if accept(environment[0].0) then [(prefix + environment[0].0, Text(environment[0].1))] + rest else rest
  }

  /** An entry is added for an environment variable exactly when the filter accepts its key. */
  lemma {:induction false} EnvironmentEntriesMembers(environment: seq<(string, string)>, accept: string -> bool,
                                                     prefix: string, e: (string, Value))
    ensures e in EnvironmentEntries(environment, accept, prefix) <==>
      exists j :: 0 <= j < |environment| && accept(environment[j].0) && e == (prefix + environment[j].0, Text(environment[j].1))
    decreases |environment|
  {
    if environment != [] {
      var rest := environment[1..];
      EnvironmentEntriesMembers(rest, accept, prefix, e);
      if e in EnvironmentEntries(rest, accept, prefix) {
        var j :| 0 <= j < |rest| && accept(rest[j].0) && e == (prefix + rest[j].0, Text(rest[j].1));
        assert rest[j] == environment[j + 1];
      }
      if exists j :: 0 <= j < |environment| && accept(environment[j].0) && e == (prefix + environment[j].0, Text(environment[j].1)) {
        var j :| 0 <= j < |environment| && accept(environment[j].0) && e == (prefix + environment[j].0, Text(environment[j].1));
        if j > 0 {
          assert rest[j - 1] == environment[j];
        }
      }
    }
  }

  /** Every added key starts with the prefix. */
  lemma EnvironmentEntriesPrefixed(environment: seq<(string, string)>, accept: string -> bool, prefix: string, k: nat)
    requires k < |EnvironmentEntries(environment, accept, prefix)|
    ensures At(EnvironmentEntries(environment, accept, prefix)[k].0, 0, prefix)
  {
    var e := EnvironmentEntries(environment, accept, prefix)[k];
    EnvironmentEntriesMembers(environment, accept, prefix, e);
    var j :| 0 <= j < |environment| && accept(environment[j].0) && e == (prefix + environment[j].0, Text(environment[j].1));
    assert (prefix + environment[j].0)[..|prefix|] == prefix;
  }

  /** The filter used when none is given: every key is accepted. */
  function AcceptEvery(key: string): bool {
    true
  }

  /**
   * `AddEnvironmentVariables`: the environment block is passed in as the snapshot the source
   * reads; a null filter accepts every key and a null prefix adds the keys as they are.
   */
  method AddEnvironmentVariables(source: VariableReplacerConfiguration, environment: seq<(string, string)>,
                                 environmentVariableFilter: Option<string -> bool> := None,
                                 prefix: Option<string> := Some("ENV_"))
    returns (r: Result<VariableReplacerConfiguration, Error>)
    modifies source
    ensures var accept := if environmentVariableFilter.Some? then environmentVariableFilter.value else AcceptEvery;
      var added := AddAll(old(source.variables),
        EnvironmentEntries(environment, accept, if prefix.Some? then prefix.value else ""));
      && source.variables == added.variables
      && (if added.error.Some? then r == Failure(added.error.value) else r == Success(source))
  {
    var accept := if environmentVariableFilter.Some? then environmentVariableFilter.value else AcceptEvery;
    var text := if prefix.Some? then prefix.value else "";
    r := AddEach(source, EnvironmentEntries(environment, accept, text));
  }

  /** An object as its public properties, in declaration order. */
  datatype Obj = Obj(properties: seq<Property>)

  /** A property: its name and what it holds. */
  datatype Property = Property(name: string, content: Content)

  /** A primitive or string value, or a value of any other type, which is a nested object or null. */
  datatype Content = Simple(value: Value) | Complex(nested: Option<Obj>)

  /** `MakePath`: the property name, after the parent path and a "." unless the parent path is empty. */
  function MakePath(path: string, name: string): string {
    if |path| == 0 then name else path + "." + name
  }

  /** Building paths one property at a time joins the property names with ".". */
  lemma MakePathJoins(names: seq<string>, name: string)
    requires forall k :: 0 <= k < |names| ==> |names[k]| > 0
    ensures |names| > 0 ==> |Join(".", names)| > 0
    ensures MakePath(Join(".", names), name) == Join(".", names + [name])
  {
    if |names| > 0 {
      JoinLength(".", names);
      assert TotalLength(names) >= |names[0]| by {
        assert TotalLength(names) == |names[0]| + TotalLength(names[1..]);
      }
      JoinSnoc(".", names, name);
    } else {
      assert names + [name] == [name];
    }
  }

  /** What walking a property list adds, and whether the walk ends on a null nested object. */
  datatype Walk = Walk(entries: seq<(string, Value)>, hitNull: bool)

  /**
   * The walk `AddProperties` makes over the properties of an object at `path`: each simple
   * property is added under its path, each nested object is walked at its path, and a null
   * nested object ends the walk.
   */
  function WalkProperties(ps: seq<Property>, path: string): (w: Walk)
    ensures |path| > 0 ==> forall k :: 0 <= k < |w.entries| ==> At(w.entries[k].0, 0, path + ".")
    decreases ps
  {
    if ps == [] then Walk([], false)
    else
      var here := MakePath(path, ps[0].name);
      assert |path| > 0 ==> At(here, 0, path + ".") by {
        if |path| > 0 {
          assert here[..|path + "."|] == path + ".";
        }
      }
      var rest := WalkProperties(ps[1..], path);
      match ps[0].content
      case Simple(v) => Walk([(here, v)] + rest.entries, rest.hitNull)
      case Complex(None) => Walk([], true)
      case Complex(Some(o)) =>
        var inner := WalkProperties(o.properties, here);
        assert |path| > 0 ==> forall k :: 0 <= k < |inner.entries| ==> At(inner.entries[k].0, 0, path + ".") by {
          if |path| > 0 {
            forall k | 0 <= k < |inner.entries| ensures At(inner.entries[k].0, 0, path + ".") {
              if |here| > 0 {
                var key := inner.entries[k].0;
                assert At(key, 0, here + ".");
                assert key[..|path + "."|] == (here + ".")[..|path + "."|] == path + ".";
              }
            }
          }
        }
        if inner.hitNull then inner else Walk(inner.entries + rest.entries, rest.hitNull)
  }

  /** Every property name in the tree is non-empty, as a C# identifier is. */
  predicate Named(ps: seq<Property>)
    decreases ps
  {
    ps == [] ||
    (&& |ps[0].name| > 0
     && (ps[0].content.Complex? && ps[0].content.nested.Some? ==> Named(ps[0].content.nested.value.properties))
     && Named(ps[1..]))
  }

  /** No property in the tree holds a null nested object. */
  predicate NoNull(ps: seq<Property>)
    decreases ps
  {
    ps == [] ||
    (&& (ps[0].content.Complex? ==>
           ps[0].content.nested.Some? && NoNull(ps[0].content.nested.value.properties))
     && NoNull(ps[1..]))
  }

  /**
   * The bindings an object stands for: every primitive or string property, in declaration
   * order and depth first, under the names leading to it (after `names`) joined with ".".
   */
  function Leaves(ps: seq<Property>, names: seq<string>): seq<(string, Value)>
    decreases ps
  {
    if ps == [] then []
    else
      var here := names + [ps[0].name];
      var first := match ps[0].content
        case Simple(v) => [(Join(".", here), v)]
        case Complex(Some(o)) => Leaves(o.properties, here)
        case Complex(None) => [];
      first + Leaves(ps[1..], names)
  }

  /**
   * The walk adds the object's bindings in order: it reaches a null nested object exactly
   * when the tree holds one, what it adds up to there is a prefix of the bindings, and a tree
   * without a null gives all of them.
   */
  lemma {:induction false} WalkLeaves(ps: seq<Property>, names: seq<string>)
    requires forall k :: 0 <= k < |names| ==> |names[k]| > 0
    requires Named(ps)
    ensures var w := WalkProperties(ps, Join(".", names));
      && (w.hitNull <==> !NoNull(ps))
      && w.entries <= Leaves(ps, names)
      && (NoNull(ps) ==> w.entries == Leaves(ps, names))
    decreases ps
  {
    if ps != [] {
      var here := names + [ps[0].name];
      MakePathJoins(names, ps[0].name);
      WalkLeaves(ps[1..], names);
      match ps[0].content
      case Simple(v) =>
      case Complex(None) =>
      case Complex(Some(o)) =>
        assert forall k :: 0 <= k < |here| ==> |here[k]| > 0;
        WalkLeaves(o.properties, here);
    }
  }

  /**
   * `AddProperties`: walks the properties of `value` at `path`, adding simple ones and
   * descending into nested ones; a null nested object raises `NullReferenceException`.
   */
  method AddProperties(source: VariableReplacerConfiguration, value: Obj, path: string) returns (error: Option<Error>)
    modifies source
    ensures var w := WalkProperties(value.properties, path);
      var added := AddAll(old(source.variables), w.entries);
      && source.variables == added.variables
      && error == (if added.error.Some? then added.error else if w.hitNull then Some(NullReference) else None)
    decreases value
  {
    error := AddPropertyList(source, value.properties, path);
  }

  /** The `Aggregate` over the property list of one object. */
  method AddPropertyList(source: VariableReplacerConfiguration, ps: seq<Property>, path: string) returns (error: Option<Error>)
    modifies source
    ensures var w := WalkProperties(ps, path);
      var added := AddAll(old(source.variables), w.entries);
      && source.variables == added.variables
      && error == (if added.error.Some? then added.error else if w.hitNull then Some(NullReference) else None)
    decreases ps
  {
    if ps == [] {
      return None;
    }
    ghost var start := source.variables;
    var here := MakePath(path, ps[0].name);
    var rest := WalkProperties(ps[1..], path);
    match ps[0].content {
      case Simple(v) =>
        AddAllConcat(start, [(here, v)], rest.entries);
        assert [(here, v)] + rest.entries == WalkProperties(ps, path).entries;
        var added := source.AddVariable(Some(here), v);
        if added.Failure? {
          return Some(added.error);
        }
        error := AddPropertyList(source, ps[1..], path);
      case Complex(None) =>
        error := Some(NullReference);
      case Complex(Some(o)) =>
        var inner := WalkProperties(o.properties, here);
        AddAllConcat(start, inner.entries, rest.entries);
        error := AddProperties(source, o, here);
        if error.None? {
          error := AddPropertyList(source, ps[1..], path);
        }
    }
  }

  /** `AddVariablesFromObject`: a null object is rejected; otherwise its property tree is added with paths from the root. */
  method AddVariablesFromObject(source: VariableReplacerConfiguration, value: Option<Obj>)
    returns (r: Result<VariableReplacerConfiguration, Error>)
    modifies source
    ensures value.None? ==> r == Failure(ArgumentNull("value", NullMessage)) && source.variables == old(source.variables)
    ensures value.Some? ==>
      var w := WalkProperties(value.value.properties, "");
      var added := AddAll(old(source.variables), w.entries);
      && source.variables == added.variables
      && r == (if added.error.Some? then Failure(added.error.value)
               else if w.hitNull then Failure(NullReference) else Success(source))
    ensures value.Some? && Named(value.value.properties) && NoNull(value.value.properties) ==>
      source.variables == AddAll(old(source.variables), Leaves(value.value.properties, [])).variables
  {
    if value.Some? && Named(value.value.properties) {
      WalkLeaves(value.value.properties, []);
    }
    var checked := IsNotNull(value, "value");
    if checked.Failure? {
      return Failure(checked.error);
    }
    var error := AddProperties(source, checked.value, "");
    r := if error.Some? then Failure(error.value) else Success(source);
  }
}
