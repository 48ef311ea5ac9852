/**
 * The behaviours the repository's tests describe, stated for the model. The word-character
 * class `\w` stays a parameter: every statement holds for any class that agrees with the
 * ASCII letters, digits and underscore on ASCII characters, which covers every name used here.
 */
module Scenarios {
  import opened Wrappers
  import opened Values
  import opened Errors
  import opened Placeholders
  import opened Resolution
  import opened Configuration
  import opened VariableReplacer
  import CyclicDependencyException
  import opened Strings
  import opened CanAddVariablesExtensions

  /** `\w` on ASCII characters. */
  predicate AsciiWord(c: char) {
    ('a' <= c <= 'z') || ('A' <= c <= 'Z') || ('0' <= c <= '9') || c == '_'
  }

  /** The class `w` agrees with `\w` wherever the character is ASCII. */
  ghost predicate AsciiAgrees(w: char -> bool) {
    forall c: char :: c < 128 as char ==> (w(c) <==> AsciiWord(c))
  }

  /** The settings of a configuration built with these bindings and options. */
  function Setup(variables: map<string, Value>, transformer: RegexTransformer, w: char -> bool,
                 policy: NotFoundPolicy, formatter: Value -> string): (st: Settings)
    ensures LookupConfined(st)
  {
    var st := Resolution.Settings(variables, TryGetValue, transformer, w, policy, formatter);
    TryGetValueConfined(st);
    st
  }

  /** A non-empty run of ASCII word characters. */
  predicate AsciiName(n: string) {
    |n| > 0 && forall i :: 0 <= i < |n| ==> n[i] < 128 as char && AsciiWord(n[i])
  }

  /** Every name is a non-empty run of ASCII word characters. */
  predicate AsciiNames(names: seq<string>)
    decreases |names|
  {
    names == [] || (AsciiName(names[0]) && AsciiNames(names[1..]))
  }

  /** ASCII word names are word names for any class that agrees with `\w` on ASCII. */
  lemma {:induction false} AsciiNamesWord(w: char -> bool, names: seq<string>)
    requires AsciiAgrees(w) && AsciiNames(names)
    ensures WordNames(w, names)
    decreases |names|
  {
    if names != [] {
      forall c | c in names[0] ensures w(c) {
        var i :| 0 <= i < |names[0]| && names[0][i] == c;
      }
      AsciiNamesWord(w, names[1..]);
    }
  }

  /**
   * A template is read back exactly when its texts avoid the prefix's first character, its names
   * are ASCII words and the suffix starts with an ASCII character outside `\w`.
   */
  lemma Shaped(w: char -> bool, t: RegexTransformer, texts: seq<string>, names: seq<string>)
    requires AsciiAgrees(w) && t.commandProcessor.None? && |t.prefix| > 0 && |t.suffix| > 0
    requires t.suffix[0] < 128 as char && !AsciiWord(t.suffix[0])
    requires |texts| == |names| + 1 && TextsLack(t.prefix[0], texts) && AsciiNames(names)
    ensures TemplateShape(w, t, texts, names)
  {
    AsciiNamesWord(w, names);
  }

  /** `Shaped` for the default delimiters "$(" and ")". */
  lemma DefaultShape(w: char -> bool, texts: seq<string>, names: seq<string>)
    requires AsciiAgrees(w) && |texts| == |names| + 1 && TextsLack('$', texts) && AsciiNames(names)
    ensures TemplateShape(w, DefaultTransformer(), texts, names)
  {
    Shaped(w, DefaultTransformer(), texts, names);
  }

  /** A template of one placeholder as a plain concatenation. */
  lemma Template1(t: RegexTransformer, a: string, b: string, n: string)
    ensures Template(t, [a, b], [n]) == a + t.prefix + n + t.suffix + b
  {
    assert [a, b][1..] == [b] && [n][1..] == [];
  }

  /** A template of two placeholders as a plain concatenation. */
  lemma Template2(t: RegexTransformer, a: string, b: string, c: string, n1: string, n2: string)
    ensures Template(t, [a, b, c], [n1, n2]) == a + t.prefix + n1 + t.suffix + (b + t.prefix + n2 + t.suffix + c)
  {
    assert [a, b, c][1..] == [b, c] && [n1, n2][1..] == [n2];
    Template1(t, b, c, n2);
  }

  /** A template of three placeholders as a plain concatenation. */
  lemma Template3(t: RegexTransformer, a: string, b: string, c: string, d: string, n1: string, n2: string, n3: string)
    ensures Template(t, [a, b, c, d], [n1, n2, n3])
      == a + t.prefix + n1 + t.suffix + (b + t.prefix + n2 + t.suffix + (c + t.prefix + n3 + t.suffix + d))
  {
    assert [a, b, c, d][1..] == [b, c, d] && [n1, n2, n3][1..] == [n2, n3];
    Template2(t, b, c, d, n2, n3);
  }

  /** A fill of one replacement as a plain concatenation. */
  lemma Fill1(a: string, b: string, r: string)
    ensures Fill([a, b], [r]) == a + r + b
  {
    assert [a, b][1..] == [b] && [r][1..] == [];
  }

  /** A fill of two replacements as a plain concatenation. */
  lemma Fill2(a: string, b: string, c: string, r1: string, r2: string)
    ensures Fill([a, b, c], [r1, r2]) == a + r1 + (b + r2 + c)
  {
    assert [a, b, c][1..] == [b, c] && [r1, r2][1..] == [r2];
    Fill1(b, c, r2);
  }

  /** A fill of three replacements as a plain concatenation. */
  lemma Fill3(a: string, b: string, c: string, d: string, r1: string, r2: string, r3: string)
    ensures Fill([a, b, c, d], [r1, r2, r3]) == a + r1 + (b + r2 + (c + r3 + d))
  {
    assert [a, b, c, d][1..] == [b, c, d] && [r1, r2, r3][1..] == [r2, r3];
    Fill2(b, c, d, r2, r3);
  }

  /** A bound value whose formatted text holds no placeholder resolves to that text while its name is not being expanded. */
  lemma PlainValue(st: Settings, name: string, text: string, stack: seq<string>)
    requires LookupConfined(st) && st.lookup == TryGetValue
    requires name in st.variables && st.valueFormatter(st.variables[name]) == text && name !in stack
    requires TemplateShape(st.wordChar, st.transformer, [text], [])
    ensures Resolution.Resolve(st, name, stack) == Success(text)
  {
    ResolveBound(st, name, stack);
    assert ResolveEach(st, [], stack + [name], []);
    TemplateFilled(st, [text], [], stack + [name], []);
  }

  // Lines 12-20 of the factory tests: no variables, default policy.

  /** An unbound name under the default policy. */
  lemma UnknownIsNotFound(st: Settings)
    requires LookupConfined(st) && st.lookup == TryGetValue && st.variables == map[]
    requires st.variableNotFound == NotFoundText
    ensures ResolveEach(st, ["Unknown"], [], ["NOTFOUND:Unknown"])
  {
    assert "NOTFOUND:" + "Unknown" == "NOTFOUND:Unknown";
    assert NotFoundText("Unknown") == Success("NOTFOUND:Unknown");
    assert Resolution.Resolve(st, "Unknown", []) == Success("NOTFOUND:Unknown");
  }

  /** "Hello $(Unknown)" read as a template under the default delimiters. */
  lemma HelloUnknown(w: char -> bool)
    requires AsciiAgrees(w)
    ensures TemplateShape(w, DefaultTransformer(), ["Hello ", ""], ["Unknown"])
  {
    assert TextsLack('$', ["Hello ", ""]);
    assert AsciiNames(["Unknown"]);
    DefaultShape(w, ["Hello ", ""], ["Unknown"]);
  }

  /** The text of the not-found scenario before and after replacement. */
  lemma HelloUnknownText()
    ensures Template(DefaultTransformer(), ["Hello ", ""], ["Unknown"]) == "Hello $(Unknown)"
    ensures Fill(["Hello ", ""], ["NOTFOUND:Unknown"]) == "Hello NOTFOUND:Unknown"
  {
    Template1(DefaultTransformer(), "Hello ", "", "Unknown");
    Fill1("Hello ", "", "NOTFOUND:Unknown");
  }

  /** Without variables, "Hello $(Unknown)" becomes "Hello NOTFOUND:Unknown". */
  lemma NotFound(w: char -> bool, st: Settings)
    requires AsciiAgrees(w) && st == Setup(map[], DefaultTransformer(), w, NotFoundText, DefaultFormat)
    ensures Replace(st, "Hello $(Unknown)") == Success("Hello NOTFOUND:Unknown")
  {
    HelloUnknown(w);
    UnknownIsNotFound(st);
    HelloUnknownText();
    ReplaceTemplate(st, ["Hello ", ""], ["Unknown"], ["NOTFOUND:Unknown"]);
  }

  // Lines 23-31: a custom value formatter.

  /** The formatter of the custom-formatter scenario, `o => $"!{o}!"`. */
  function Exclaim(v: Value): string {
    "!" + DefaultFormat(v) + "!"
  }

  /** With the custom formatter, "name" is shown as "!Als!". */
  lemma FormattedName(w: char -> bool, st: Settings)
    requires AsciiAgrees(w) && st == Setup(map["name" := Text("Als")], DefaultTransformer(), w, NotFoundText, Exclaim)
    ensures ResolveEach(st, ["name"], [], ["!Als!"])
  {
    ExclaimAls();
    ExclaimShape(w);
    PlainValue(st, "name", "!Als!", []);
  }

  /** The custom formatter applied to "Als". */
  lemma ExclaimAls()
    ensures Exclaim(Text("Als")) == "!Als!"
  {
    assert DefaultFormat(Text("Als")) == "Als";
  }

  /** "!Als!" holds no placeholder. */
  lemma ExclaimShape(w: char -> bool)
    requires AsciiAgrees(w)
    ensures TemplateShape(w, DefaultTransformer(), ["!Als!"], [])
  {
    assert TextsLack('$', ["!Als!"]);
    DefaultShape(w, ["!Als!"], []);
  }

  /** "Hello $(name)" read as a template under the default delimiters. */
  lemma HelloName(w: char -> bool)
    requires AsciiAgrees(w)
    ensures TemplateShape(w, DefaultTransformer(), ["Hello ", ""], ["name"])
  {
    assert TextsLack('$', ["Hello ", ""]);
    assert AsciiNames(["name"]);
    DefaultShape(w, ["Hello ", ""], ["name"]);
  }

  /** The text of the custom-formatter scenario before and after replacement. */
  lemma HelloNameText()
    ensures Template(DefaultTransformer(), ["Hello ", ""], ["name"]) == "Hello $(name)"
    ensures Fill(["Hello ", ""], ["!Als!"]) == "Hello !Als!"
  {
    Template1(DefaultTransformer(), "Hello ", "", "name");
    Fill1("Hello ", "", "!Als!");
  }

  /** "Hello $(name)" with name = "Als" and the formatter `!{o}!` becomes "Hello !Als!". */
  lemma CustomFormatter(w: char -> bool, st: Settings)
    requires AsciiAgrees(w) && st == Setup(map["name" := Text("Als")], DefaultTransformer(), w, NotFoundText, Exclaim)
    ensures Replace(st, "Hello $(name)") == Success("Hello !Als!")
  {
    HelloName(w);
    FormattedName(w, st);
    HelloNameText();
    ReplaceTemplate(st, ["Hello ", ""], ["name"], ["!Als!"]);
  }

  // Lines 131-139: the throwing not-found policy.

  /** An unknown name under the throwing policy. */
  lemma UnknownThrows(st: Settings)
    requires LookupConfined(st) && st.lookup == TryGetValue && st.variables == map[]
    requires st.variableNotFound == ThrowNotFound
    ensures Resolution.Resolve(st, "Unknown", []) == Failure(Raised(Argument("Variable 'Unknown' not found"), []))
    ensures ResolveEach(st, ["Unknown"][..0], [], [])
  {
    assert "Variable '" + "Unknown" + "' not found" == "Variable 'Unknown' not found";
    assert ThrowNotFound("Unknown") == Failure(Argument("Variable 'Unknown' not found"));
  }

  /** Under `ThrowIfVariableNotFound`, "Hello $(Unknown)" raises "Variable 'Unknown' not found". */
  lemma ThrowsNotFound(w: char -> bool, st: Settings)
    requires AsciiAgrees(w) && st == Setup(map[], DefaultTransformer(), w, ThrowNotFound, DefaultFormat)
    ensures Replace(st, "Hello $(Unknown)") == Failure(Argument("Variable 'Unknown' not found"))
    ensures Replace(st, "Hello $(Unknown)").error.Message() == "Variable 'Unknown' not found"
  {
    HelloUnknown(w);
    HelloUnknownText();
    UnknownThrows(st);
    ReplaceTemplateFails(st, ["Hello ", ""], ["Unknown"], [], Raised(Argument("Variable 'Unknown' not found"), []));
  }

  // Lines 89-102: a variable whose value refers to other variables.

  /** The bindings of the recursive scenario. */
  function Recursive(): map<string, Value> {
    map["FirstName" := Text("Al"), "LastName" := Text("Jones"),
        "FullName" := Text("$(FirstName) $(LastName)")]
  }

  /** The two plain values resolve to themselves. */
  lemma RecursiveLeaves(w: char -> bool, st: Settings, stack: seq<string>)
    requires AsciiAgrees(w) && st.transformer == DefaultTransformer() && st.wordChar == w
    requires LookupConfined(st) && st.lookup == TryGetValue && st.valueFormatter == DefaultFormat
    requires "FirstName" in st.variables && st.variables["FirstName"] == Text("Al")
    requires "LastName" in st.variables && st.variables["LastName"] == Text("Jones")
    requires "FirstName" !in stack && "LastName" !in stack
    ensures Resolution.Resolve(st, "FirstName", stack) == Success("Al")
    ensures Resolution.Resolve(st, "LastName", stack) == Success("Jones")
  {
    assert TextsLack('$', ["Al"]) && TextsLack('$', ["Jones"]);
    DefaultShape(w, ["Al"], []);
    DefaultShape(w, ["Jones"], []);
    PlainValue(st, "FirstName", "Al", stack);
    PlainValue(st, "LastName", "Jones", stack);
  }

  /** Both names of "FullName" resolve while "FullName" is being expanded. */
  lemma FullNameEach(w: char -> bool, st: Settings)
    requires AsciiAgrees(w) && st == Setup(Recursive(), DefaultTransformer(), w, NotFoundText, DefaultFormat)
    ensures ResolveEach(st, ["FirstName", "LastName"], ["FullName"], ["Al", "Jones"])
  {
    RecursiveLeaves(w, st, ["FullName"]);
    assert ["FirstName", "LastName"][1..] == ["LastName"];
    assert ResolveEach(st, ["LastName"], ["FullName"], ["Jones"]);
  }

  /** The value of "FullName" read as a template. */
  lemma FullNameShape(w: char -> bool)
    requires AsciiAgrees(w)
    ensures TemplateShape(w, DefaultTransformer(), ["", " ", ""], ["FirstName", "LastName"])
  {
    assert TextsLack('$', ["", " ", ""]);
    assert AsciiNames(["FirstName", "LastName"]);
    DefaultShape(w, ["", " ", ""], ["FirstName", "LastName"]);
  }

  /** The value of "FullName" before and after replacement. */
  lemma FullNameText()
    ensures Template(DefaultTransformer(), ["", " ", ""], ["FirstName", "LastName"]) == "$(FirstName) $(LastName)"
    ensures Fill(["", " ", ""], ["Al", "Jones"]) == "Al Jones"
  {
    Template2(DefaultTransformer(), "", " ", "", "FirstName", "LastName");
    Fill2("", " ", "", "Al", "Jones");
  }

  /** What the lookup and the formatter give for "FullName". */
  lemma FullNameValue(w: char -> bool, st: Settings)
    requires AsciiAgrees(w) && st == Setup(Recursive(), DefaultTransformer(), w, NotFoundText, DefaultFormat)
    ensures st.lookup(st.variables, "FullName") == Some(Text("$(FirstName) $(LastName)"))
    ensures st.valueFormatter(Text("$(FirstName) $(LastName)")) == "$(FirstName) $(LastName)"
  {
    assert "FullName" in Recursive() && Recursive()["FullName"] == Text("$(FirstName) $(LastName)");
  }

  /** "FullName" expands to "Al Jones". */
  lemma FullNameResolves(w: char -> bool, st: Settings)
    requires AsciiAgrees(w) && st == Setup(Recursive(), DefaultTransformer(), w, NotFoundText, DefaultFormat)
    ensures Resolution.Resolve(st, "FullName", []) == Success("Al Jones")
  {
    FullNameValue(w, st);
    ResolveBound(st, "FullName", []);
    assert [] + ["FullName"] == ["FullName"];
    FullNameEach(w, st);
    FullNameShape(w);
    FullNameText();
    TemplateFilled(st, ["", " ", ""], ["FirstName", "LastName"], ["FullName"], ["Al", "Jones"]);
  }

  /** The source of the recursive and the cyclic scenarios read as a template. */
  lemma GreetingShape(w: char -> bool)
    requires AsciiAgrees(w)
    ensures TemplateShape(w, DefaultTransformer(), ["Hello ", ". Can I call you ", "?"], ["FullName", "FirstName"])
  {
    GreetingLacks();
    GreetingNames();
    DefaultShape(w, ["Hello ", ". Can I call you ", "?"], ["FullName", "FirstName"]);
  }

  /** The greeting source: its texts avoid '$'. */
  lemma GreetingLacks()
    ensures TextsLack('$', ["Hello ", ". Can I call you ", "?"])
  {
  }

  /** The greeting source: its names are ASCII words. */
  lemma GreetingNames()
    ensures AsciiNames(["FullName", "FirstName"])
  {
  }

  /** The source of the recursive and the cyclic scenarios. */
  lemma GreetingText()
    ensures Template(DefaultTransformer(), ["Hello ", ". Can I call you ", "?"], ["FullName", "FirstName"])
      == "Hello $(FullName). Can I call you $(FirstName)?"
  {
    Template2(DefaultTransformer(), "Hello ", ". Can I call you ", "?", "FullName", "FirstName");
    GreetingHead();
    GreetingRest();
    GreetingJoin();
  }

  /** The first placeholder of the greeting and the text before it. */
  lemma GreetingHead()
    ensures "Hello " + "$(" + "FullName" + ")" == "Hello $(FullName)"
  {
  }

  /** The second placeholder of the greeting and the texts around it. */
  lemma GreetingRest()
    ensures ". Can I call you " + "$(" + "FirstName" + ")" + "?" == ". Can I call you $(FirstName)?"
  {
  }

  /** The two halves of the greeting. */
  lemma GreetingJoin()
    ensures "Hello $(FullName)" + ". Can I call you $(FirstName)?" == "Hello $(FullName). Can I call you $(FirstName)?"
  {
  }

  /** The source of the recursive scenario after replacement. */
  lemma GreetingFill()
    ensures Fill(["Hello ", ". Can I call you ", "?"], ["Al Jones", "Al"]) == "Hello Al Jones. Can I call you Al?"
  {
    Fill2("Hello ", ". Can I call you ", "?", "Al Jones", "Al");
    AnswerRest();
    AnswerJoin();
  }

  /** The end of the expected answer. */
  lemma AnswerRest()
    ensures ". Can I call you " + "Al" + "?" == ". Can I call you Al?"
  {
  }

  /** The expected answer of the recursive and the delimiter scenarios. */
  lemma AnswerJoin()
    ensures "Hello " + "Al Jones" + ". Can I call you Al?" == "Hello Al Jones. Can I call you Al?"
  {
  }

  /** Both names of the greeting resolve, "FullName" through its own placeholders. */
  lemma GreetingEach(w: char -> bool, st: Settings)
    requires AsciiAgrees(w) && st == Setup(Recursive(), DefaultTransformer(), w, NotFoundText, DefaultFormat)
    ensures ResolveEach(st, ["FullName", "FirstName"], [], ["Al Jones", "Al"])
  {
    FullNameResolves(w, st);
    RecursiveLeaves(w, st, []);
    assert ["FullName", "FirstName"][1..] == ["FirstName"];
    assert ResolveEach(st, ["FirstName"], [], ["Al"]);
  }

  /** "Hello $(FullName). Can I call you $(FirstName)?" becomes "Hello Al Jones. Can I call you Al?". */
  lemma RecursiveVariables(w: char -> bool, st: Settings)
    requires AsciiAgrees(w) && st == Setup(Recursive(), DefaultTransformer(), w, NotFoundText, DefaultFormat)
    ensures Replace(st, "Hello $(FullName). Can I call you $(FirstName)?") == Success("Hello Al Jones. Can I call you Al?")
  {
    GreetingShape(w);
    GreetingEach(w, st);
    GreetingText();
    GreetingFill();
    ReplaceTemplate(st, ["Hello ", ". Can I call you ", "?"], ["FullName", "FirstName"], ["Al Jones", "Al"]);
  }

  // Lines 142-157: a cycle FullName -> Other -> Another -> FullName.

  /** The bindings of the cyclic scenario. */
  function Cyclic(): map<string, Value> {
    map["FirstName" := Text("Al"), "LastName" := Text("Jones"),
        "FullName" := Text("$(FirstName) $(LastName) $(Other)"),
        "Other" := Text("Stuff $(Another)"),
        "Another" := Text("$(FullName)")]
  }

  /** The path the cycle check reports. */
  function CyclePathOf(): seq<string> {
    ["FullName", "Other", "Another", "FullName"]
  }

  /** The fault raised when "FullName" is met again: the tracker still holds the three names. */
  function CycleFault(): Fault {
    Cycle(CyclePathOf(), ["FullName", "Other", "Another"])
  }

  /** A bound string value that is a template resolves to that template expanded with the name pushed. */
  lemma BoundTemplate(st: Settings, name: string, stack: seq<string>, texts: seq<string>, names: seq<string>)
    requires LookupConfined(st) && st.lookup == TryGetValue && st.valueFormatter == DefaultFormat
    requires |texts| == |names| + 1
    requires name in st.variables && st.variables[name] == Text(Template(st.transformer, texts, names))
    requires name !in stack
    ensures Resolution.Resolve(st, name, stack) == Resolution.Transform(st, Template(st.transformer, texts, names), stack + [name])
  {
    ResolveBound(st, name, stack);
  }

  /** The value of "Another", "$(FullName)", read as a template. */
  lemma AnotherShape(w: char -> bool)
    requires AsciiAgrees(w)
    ensures TemplateShape(w, DefaultTransformer(), ["", ""], ["FullName"])
  {
    assert TextsLack('$', ["", ""]);
    assert AsciiNames(["FullName"]);
    DefaultShape(w, ["", ""], ["FullName"]);
  }

  /** The value of "Other", "Stuff $(Another)", read as a template. */
  lemma OtherShape(w: char -> bool)
    requires AsciiAgrees(w)
    ensures TemplateShape(w, DefaultTransformer(), ["Stuff ", ""], ["Another"])
  {
    assert TextsLack('$', ["Stuff ", ""]);
    assert AsciiNames(["Another"]);
    DefaultShape(w, ["Stuff ", ""], ["Another"]);
  }

  /** The value of "FullName" in the cyclic scenario read as a template. */
  lemma CyclicFullNameShape(w: char -> bool)
    requires AsciiAgrees(w)
    ensures TemplateShape(w, DefaultTransformer(), ["", " ", " ", ""], ["FirstName", "LastName", "Other"])
  {
    assert TextsLack('$', ["", " ", " ", ""]);
    CyclicNames();
    DefaultShape(w, ["", " ", " ", ""], ["FirstName", "LastName", "Other"]);
  }

  /** The names in the value of "FullName" are ASCII words. */
  lemma CyclicNames()
    ensures AsciiNames(["FirstName", "LastName", "Other"])
  {
    assert AsciiName("FirstName") && AsciiName("LastName") && AsciiName("Other");
    assert ["FirstName", "LastName", "Other"][1..] == ["LastName", "Other"];
    assert ["LastName", "Other"][1..] == ["Other"];
  }

  /** The binding of "Another", as a template. */
  lemma AnotherBinding(st: Settings)
    requires st.variables == Cyclic() && st.transformer == DefaultTransformer()
    ensures "Another" in st.variables && st.variables["Another"] == Text(Template(st.transformer, ["", ""], ["FullName"]))
  {
    Template1(DefaultTransformer(), "", "", "FullName");
  }

  /** The binding of "Other", as a template. */
  lemma OtherBinding(st: Settings)
    requires st.variables == Cyclic() && st.transformer == DefaultTransformer()
    ensures "Other" in st.variables && st.variables["Other"] == Text(Template(st.transformer, ["Stuff ", ""], ["Another"]))
  {
    Template1(DefaultTransformer(), "Stuff ", "", "Another");
  }

  /** The value of "FullName" in the cyclic scenario, as a template. */
  lemma CyclicFullName(st: Settings)
    requires st.variables == Cyclic() && st.transformer == DefaultTransformer()
    ensures "FullName" in st.variables
    ensures st.variables["FullName"] == Text(Template(st.transformer, ["", " ", " ", ""], ["FirstName", "LastName", "Other"]))
  {
    CyclicFullNameText();
  }

  /** The text of "FullName" in the cyclic scenario. */
  lemma CyclicFullNameText()
    ensures Template(DefaultTransformer(), ["", " ", " ", ""], ["FirstName", "LastName", "Other"]) == "$(FirstName) $(LastName) $(Other)"
  {
    Template3(DefaultTransformer(), "", " ", " ", "", "FirstName", "LastName", "Other");
    CyclicFullNameRest();
    CyclicFullNameJoin();
  }

  /** The last two placeholders of the value of "FullName". */
  lemma CyclicFullNameRest()
    ensures " " + "$(" + "LastName" + ")" + (" " + "$(" + "Other" + ")" + "") == " $(LastName) $(Other)"
  {
  }

  /** The first placeholder of the value of "FullName" and the rest. */
  lemma CyclicFullNameJoin()
    ensures "" + "$(" + "FirstName" + ")" + " $(LastName) $(Other)" == "$(FirstName) $(LastName) $(Other)"
  {
  }

  /** "Another", met inside "Other" inside "FullName", refers back to "FullName": the cycle. */
  lemma AnotherFails(w: char -> bool, st: Settings)
    requires AsciiAgrees(w) && st == Setup(Cyclic(), DefaultTransformer(), w, NotFoundText, DefaultFormat)
    ensures Resolution.Resolve(st, "Another", ["FullName", "Other"]) == Failure(CycleFault())
  {
    var left := ["FullName", "Other", "Another"];
    AnotherShape(w);
    AnotherBinding(st);
    BoundTemplate(st, "Another", ["FullName", "Other"], ["", ""], ["FullName"]);
    assert ["FullName", "Other"] + ["Another"] == left;
    FullNameRepeated(st);
    assert ResolveEach(st, ["FullName"][..0], left, []);
    TemplateFails(st, ["", ""], ["FullName"], left, [], CycleFault());
  }

  /** "FullName", met while the tracker holds "FullName", "Other" and "Another", is the cycle. */
  lemma FullNameRepeated(st: Settings)
    requires LookupConfined(st) && st.lookup == TryGetValue && st.variables == Cyclic()
    ensures Resolution.Resolve(st, "FullName", ["FullName", "Other", "Another"]) == Failure(CycleFault())
  {
    var left := ["FullName", "Other", "Another"];
    assert "FullName" in st.variables;
    ResolveRepeated(st, "FullName", left);
    assert left + ["FullName"] == CyclePathOf();
  }

  /** "Other" inside "FullName" fails with the same cycle. */
  lemma OtherFails(w: char -> bool, st: Settings)
    requires AsciiAgrees(w) && st == Setup(Cyclic(), DefaultTransformer(), w, NotFoundText, DefaultFormat)
    ensures Resolution.Resolve(st, "Other", ["FullName"]) == Failure(CycleFault())
  {
    OtherShape(w);
    OtherBinding(st);
    BoundTemplate(st, "Other", ["FullName"], ["Stuff ", ""], ["Another"]);
    assert ["FullName"] + ["Other"] == ["FullName", "Other"];
    AnotherFails(w, st);
    assert ResolveEach(st, ["Another"][..0], ["FullName", "Other"], []);
    TemplateFails(st, ["Stuff ", ""], ["Another"], ["FullName", "Other"], [], CycleFault());
  }

  /** The names of "FullName" before "Other" resolve. */
  lemma CyclicLeaves(w: char -> bool, st: Settings)
    requires AsciiAgrees(w) && st == Setup(Cyclic(), DefaultTransformer(), w, NotFoundText, DefaultFormat)
    ensures ResolveEach(st, ["FirstName", "LastName", "Other"][..2], ["FullName"], ["Al", "Jones"])
  {
    RecursiveLeaves(w, st, ["FullName"]);
    assert ["FirstName", "LastName", "Other"][..2] == ["FirstName", "LastName"];
    assert ["FirstName", "LastName"][1..] == ["LastName"];
    assert ResolveEach(st, ["LastName"], ["FullName"], ["Jones"]);
  }

  /** "FullName" fails with the cycle once its third placeholder is reached. */
  lemma CyclicFullNameFails(w: char -> bool, st: Settings)
    requires AsciiAgrees(w) && st == Setup(Cyclic(), DefaultTransformer(), w, NotFoundText, DefaultFormat)
    ensures Resolution.Resolve(st, "FullName", []) == Failure(CycleFault())
  {
    var texts, names := ["", " ", " ", ""], ["FirstName", "LastName", "Other"];
    CyclicFullNameShape(w);
    CyclicFullName(st);
    BoundTemplate(st, "FullName", [], texts, names);
    assert [] + ["FullName"] == ["FullName"];
    CyclicLeaves(w, st);
    OtherFails(w, st);
    TemplateFails(st, texts, names, ["FullName"], ["Al", "Jones"], CycleFault());
  }

  /** `string.Join` of four elements as a plain concatenation. */
  lemma Join4(sep: string, a: string, b: string, c: string, d: string)
    ensures Strings.Join(sep, [a, b, c, d]) == a + sep + (b + sep + (c + sep + d))
  {
    assert [c, d][1..] == [d];
    assert Strings.Join(sep, [c, d]) == c + sep + d;
    assert [b, c, d][1..] == [c, d];
    assert Strings.Join(sep, [b, c, d]) == b + sep + (c + sep + d);
    assert [a, b, c, d][1..] == [b, c, d];
  }

  /** The cycle path joined with arrows. */
  lemma CycleJoin()
    ensures Strings.Join(" -> ", CyclePathOf()) == "FullName -> Other -> Another -> FullName"
  {
    Join4(" -> ", "FullName", "Other", "Another", "FullName");
    CycleJoinText();
  }

  /** The four names of the cycle with arrows between them. */
  lemma CycleJoinText()
    ensures "FullName" + " -> " + ("Other" + " -> " + ("Another" + " -> " + "FullName"))
      == "FullName -> Other -> Another -> FullName"
  {
  }

  /** The header of the message followed by the joined path. */
  lemma CycleHeader()
    ensures CyclicDependencyException.Header + "FullName -> Other -> Another -> FullName"
      == "Cyclic dependency detected on path: FullName -> Other -> Another -> FullName"
  {
    assert CyclicDependencyException.Header == "Cyclic dependency detected on path: ";
    CycleHeaderText();
  }

  /** The header text followed by the joined path. */
  lemma CycleHeaderText()
    ensures "Cyclic dependency detected on path: " + "FullName -> Other -> Another -> FullName"
      == "Cyclic dependency detected on path: FullName -> Other -> Another -> FullName"
  {
  }

  /** The message of the cyclic-dependency exception for the path of the scenario. */
  lemma CycleMessage()
    ensures CyclicDependency(CyclePathOf()).Message()
      == "Cyclic dependency detected on path: FullName -> Other -> Another -> FullName"
  {
    assert CyclicDependency(CyclePathOf()).Message()
      == CyclicDependencyException.Header + Strings.Join(" -> ", CyclePathOf());
    CycleJoin();
    CycleHeader();
  }

  /**
   * With FullName -> Other -> Another -> FullName, "Hello $(FullName). Can I call you $(FirstName)?"
   * raises the cyclic-dependency exception with message
   * "Cyclic dependency detected on path: FullName -> Other -> Another -> FullName".
   */
  lemma CyclicVariables(w: char -> bool, st: Settings)
    requires AsciiAgrees(w) && st == Setup(Cyclic(), DefaultTransformer(), w, NotFoundText, DefaultFormat)
    ensures Replace(st, "Hello $(FullName). Can I call you $(FirstName)?") == Failure(CyclicDependency(CyclePathOf()))
    ensures Replace(st, "Hello $(FullName). Can I call you $(FirstName)?").error.Message()
      == "Cyclic dependency detected on path: FullName -> Other -> Another -> FullName"
  {
    GreetingShape(w);
    GreetingText();
    CyclicFullNameFails(w, st);
    assert ResolveEach(st, ["FullName", "FirstName"][..0], [], []);
    ReplaceTemplateFails(st, ["Hello ", ". Can I call you ", "?"], ["FullName", "FirstName"], [], CycleFault());
    CycleMessage();
  }

  // Lines 160-174: custom delimiters "$${" and "}".

  /** The transformer of `WithDefaultTransformer("$${", "}")`. */
  function CurlyTransformer(): (t: RegexTransformer)
    ensures t.prefix == "$${" && t.suffix == "}" && t.commandProcessor.None?
  {
    RegexTransformer("$${", "}", None)
  }

  /** The bindings of the delimiter scenario. */
  function Names(): map<string, Value> {
    map["FirstName" := Text("Al"), "LastName" := Text("Jones")]
  }

  /** The source of the delimiter scenario read as a template. */
  lemma CurlyShape(w: char -> bool)
    requires AsciiAgrees(w)
    ensures TemplateShape(w, CurlyTransformer(), ["Hello ", " ", ". Can I call you ", "?"], ["FirstName", "LastName", "FirstName"])
  {
    CurlyLacks();
    CurlyNames();
    Shaped(w, CurlyTransformer(), ["Hello ", " ", ". Can I call you ", "?"], ["FirstName", "LastName", "FirstName"]);
  }

  /** The delimiter source: its texts avoid '$'. */
  lemma CurlyLacks()
    ensures TextsLack('$', ["Hello ", " ", ". Can I call you ", "?"])
  {
  }

  /** The delimiter source: its names are ASCII words. */
  lemma CurlyNames()
    ensures AsciiNames(["FirstName", "LastName", "FirstName"])
  {
  }

  /** The last placeholder of the delimiter source and the text after it. */
  lemma CurlyLast()
    ensures Template(CurlyTransformer(), [". Can I call you ", "?"], ["FirstName"]) == ". Can I call you " + "$${FirstName}?"
  {
    assert Template(CurlyTransformer(), ["?"], []) == "?";
    assert "$${" + "FirstName" + "}" + "?" == "$${FirstName}?";
  }

  /** The last two placeholders of the delimiter source. */
  lemma CurlyTail()
    ensures Template(CurlyTransformer(), [" ", ". Can I call you ", "?"], ["LastName", "FirstName"])
      == " $${LastName}" + (". Can I call you " + "$${FirstName}?")
  {
    CurlyLast();
    assert " " + "$${" + "LastName" + "}" == " $${LastName}";
  }

  /** The delimiter source as a template, in four pieces. */
  lemma CurlyTemplate()
    ensures Template(CurlyTransformer(), ["Hello ", " ", ". Can I call you ", "?"], ["FirstName", "LastName", "FirstName"])
      == "Hello $${FirstName}" + (" $${LastName}" + (". Can I call you " + "$${FirstName}?"))
  {
    CurlyTail();
    assert "Hello " + "$${" + "FirstName" + "}" == "Hello $${FirstName}";
  }

  /** The source of the delimiter scenario, in the same four pieces. */
  lemma CurlyPieces()
    ensures "Hello $${FirstName} $${LastName}. Can I call you $${FirstName}?"
      == "Hello $${FirstName}" + " $${LastName}" + ". Can I call you " + "$${FirstName}?"
  {
    CurlyFront();
    CurlyMost();
    assert "Hello $${FirstName} $${LastName}. Can I call you $${FirstName}?"
      == "Hello $${FirstName} $${LastName}. Can I call you " + "$${FirstName}?";
  }

  /** The first two pieces of the delimiter source. */
  lemma CurlyFront()
    ensures "Hello $${FirstName} $${LastName}" == "Hello $${FirstName}" + " $${LastName}"
  {
  }

  /** The first three pieces of the delimiter source. */
  lemma CurlyMost()
    ensures "Hello $${FirstName} $${LastName}. Can I call you " == "Hello $${FirstName} $${LastName}" + ". Can I call you "
  {
  }

  /** The source of the delimiter scenario. */
  lemma CurlyText()
    ensures Template(CurlyTransformer(), ["Hello ", " ", ". Can I call you ", "?"], ["FirstName", "LastName", "FirstName"])
      == "Hello $${FirstName} $${LastName}. Can I call you $${FirstName}?"
  {
    CurlyTemplate();
    CurlyPieces();
    Regroup("Hello $${FirstName}", " $${LastName}", ". Can I call you ", "$${FirstName}?");
  }

  /** Concatenation is associative. */
  lemma Regroup(a: string, b: string, c: string, d: string)
    ensures a + (b + (c + d)) == a + b + c + d
  {
  }

  /** The source of the delimiter scenario after replacement. */
  lemma CurlyFill()
    ensures Fill(["Hello ", " ", ". Can I call you ", "?"], ["Al", "Jones", "Al"]) == "Hello Al Jones. Can I call you Al?"
  {
    Fill3("Hello ", " ", ". Can I call you ", "?", "Al", "Jones", "Al");
    AnswerRest();
    Regroup5("Hello ", "Al", " ", "Jones", ". Can I call you Al?");
    FullNameJoin();
    AnswerJoin();
  }

  /** Concatenation is associative. */
  lemma Regroup5(a: string, b: string, c: string, d: string, e: string)
    ensures a + b + (c + d + e) == a + (b + c + d) + e
  {
  }

  /** The two names joined by a space. */
  lemma FullNameJoin()
    ensures "Al" + " " + "Jones" == "Al Jones"
  {
  }

  /** All three placeholders resolve. */
  lemma CurlyEach(w: char -> bool, st: Settings)
    requires AsciiAgrees(w) && st == Setup(Names(), CurlyTransformer(), w, NotFoundText, DefaultFormat)
    ensures ResolveEach(st, ["FirstName", "LastName", "FirstName"], [], ["Al", "Jones", "Al"])
  {
    assert TextsLack('$', ["Al"]) && TextsLack('$', ["Jones"]);
    Shaped(w, CurlyTransformer(), ["Al"], []);
    Shaped(w, CurlyTransformer(), ["Jones"], []);
    PlainValue(st, "FirstName", "Al", []);
    PlainValue(st, "LastName", "Jones", []);
    assert ["FirstName", "LastName", "FirstName"][1..] == ["LastName", "FirstName"];
    assert ["LastName", "FirstName"][1..] == ["FirstName"];
    assert ResolveEach(st, ["FirstName"], [], ["Al"]);
    assert ResolveEach(st, ["LastName", "FirstName"], [], ["Jones", "Al"]);
  }

  /** With delimiters "$${" and "}", "Hello $${FirstName} $${LastName}. Can I call you $${FirstName}?" becomes "Hello Al Jones. Can I call you Al?". */
  lemma CustomDelimiters(w: char -> bool, st: Settings)
    requires AsciiAgrees(w) && st == Setup(Names(), CurlyTransformer(), w, NotFoundText, DefaultFormat)
    ensures Replace(st, "Hello $${FirstName} $${LastName}. Can I call you $${FirstName}?")
      == Success("Hello Al Jones. Can I call you Al?")
  {
    CurlyShape(w);
    CurlyText();
    CurlyFill();
    CurlyEach(w, st);
    ReplaceTemplate(st, ["Hello ", " ", ". Can I call you ", "?"], ["FirstName", "LastName", "FirstName"], ["Al", "Jones", "Al"]);
  }

  // Lines 34-49: variables taken from an object, among them the dotted name "other.codes".

  /** The object `new { name = "Als", age = 12, other = new { codes = true } }`. */
  function Anonymous(): Obj {
    Obj([Property("name", Simple(Text("Als"))), Property("age", Simple(Integer(12))),
         Property("other", Complex(Some(Obj([Property("codes", Simple(Boolean(true)))]))))])
  }

  /** The dictionary the test expects the replacer to hold. */
  function Flattened(): map<string, Value> {
    map["name" := Text("Als"), "age" := Integer(12), "other.codes" := Boolean(true)]
  }

  /** The nested object contributes its property under the path "other.codes". */
  lemma NestedWalk()
    ensures WalkProperties([Property("codes", Simple(Boolean(true)))], "other")
      == Walk([("other.codes", Boolean(true))], false)
  {
    assert MakePath("other", "codes") == "other.codes";
  }

  /** Walking the object yields the three entries in declaration order, with no null on the way. */
  lemma AnonymousWalk()
    ensures WalkProperties(Anonymous().properties, "") ==
      Walk([("name", Text("Als")), ("age", Integer(12)), ("other.codes", Boolean(true))], false)
  {
    var ps := Anonymous().properties;
    NestedWalk();
    assert MakePath("", "other") == "other";
    assert ps[2..][1..] == [];
    assert WalkProperties(ps[2..], "") == Walk([("other.codes", Boolean(true))], false);
    assert ps[1..][1..] == ps[2..];
    assert WalkProperties(ps[1..], "") == Walk([("age", Integer(12)), ("other.codes", Boolean(true))], false);
  }

  /** Adding the three entries to an empty configuration gives exactly the expected dictionary. */
  lemma AnonymousAdded()
    ensures AddAll(map[], [("name", Text("Als")), ("age", Integer(12)), ("other.codes", Boolean(true))])
      == Added(Flattened(), None)
  {
    var e := [("name", Text("Als")), ("age", Integer(12)), ("other.codes", Boolean(true))];
    var m1 := map["name" := Text("Als")];
    var m2 := m1["age" := Integer(12)];
    assert e[1..][1..][1..] == [];
    assert AddAll(m2, e[2..]) == Added(Flattened(), None);
    assert e[1..][1..] == e[2..];
    assert AddAll(m1, e[1..]) == AddAll(m2, e[2..]);
  }

  /** `AddVariablesFromObject` on an empty configuration adds these bindings and nothing else. */
  lemma ObjectVariables()
    ensures var w := WalkProperties(Anonymous().properties, "");
      AddAll(map[], w.entries) == Added(Flattened(), None) && !w.hitNull
  {
    AnonymousWalk();
    AnonymousAdded();
  }

  /** The placeholder of the dotted name as the pattern of `RegexTransformer.cs:9` sees it: "$(" followed by a `\w` run that stops at '.'. */
  lemma DottedNoPlaceholder(w: char -> bool)
    requires AsciiAgrees(w)
    ensures forall i: nat, q: nat :: !PlainAt(w, DefaultTransformer(), "$(other.codes)", i, q)
  {
    var s, t := "$(other.codes)", DefaultTransformer();
    forall i: nat, q: nat ensures !PlainAt(w, t, s, i, q) {
      if i != 0 {
        assert !At(s, i, t.prefix) by {
          if i + 2 <= |s| {
            assert s[i] != '$';
            assert s[i..i + 2][0] == s[i];
          }
        }
      } else if q != 13 {
        assert !At(s, q, t.suffix) by {
          if q + 1 <= |s| {
            assert s[q] != ')';
            assert s[q..q + 1][0] == s[q];
          }
        }
      } else {
        assert !w(s[7]);
      }
    }
  }

  /**
   * As written, the pattern `\w+` does not match "other.codes": "$(other.codes)" comes back
   * unchanged although "other.codes" is bound, so the test's expected "True" cannot appear.
   */
  lemma DottedNameKept(w: char -> bool, st: Settings)
    requires AsciiAgrees(w) && st == Setup(Flattened(), DefaultTransformer(), w, NotFoundText, DefaultFormat)
    ensures "other.codes" in st.variables
    ensures Replace(st, "$(other.codes)") == Success("$(other.codes)")
  {
    DottedNoPlaceholder(w);
    TransformPlainText(st, "$(other.codes)", []);
  }

  /** `\w` together with '.', on ASCII characters: the name class the test evidently expects. */
  predicate DottedWord(c: char) {
    AsciiWord(c) || c == '.'
  }

  /** The class `w` agrees with `DottedWord` wherever the character is ASCII. */
  ghost predicate DottedAgrees(w: char -> bool) {
    forall c: char :: c < 128 as char ==> (w(c) <==> DottedWord(c))
  }

  /** The source of the object scenario read as a template when names may contain '.'. */
  lemma DottedShape(w: char -> bool)
    requires DottedAgrees(w)
    ensures TemplateShape(w, DefaultTransformer(), ["Hello ", ". ", ""], ["name", "other.codes"])
  {
    assert TextsLack('$', ["Hello ", ". ", ""]);
    assert !w(')');
    assert forall c :: c in "name" ==> w(c);
    assert forall c :: c in "other.codes" ==> w(c);
    assert ["name", "other.codes"][1..] == ["other.codes"];
    assert WordNames(w, ["other.codes"]);
  }

  /** The second placeholder of the object scenario. */
  lemma DottedTail()
    ensures ". " + "$(" + "other.codes" + ")" + "" == ". $(other.codes)"
  {
  }

  /** The source of the object scenario. */
  lemma DottedText()
    ensures Template(DefaultTransformer(), ["Hello ", ". ", ""], ["name", "other.codes"]) == "Hello $(name). $(other.codes)"
  {
    Template2(DefaultTransformer(), "Hello ", ". ", "", "name", "other.codes");
    DottedTail();
    assert "Hello " + "$(" + "name" + ")" + ". $(other.codes)" == "Hello $(name). $(other.codes)";
  }

  /** The source of the object scenario after replacement. */
  lemma DottedFill()
    ensures Fill(["Hello ", ". ", ""], ["Als", "True"]) == "Hello Als. True"
  {
    Fill2("Hello ", ". ", "", "Als", "True");
  }

  /** Both names resolve to their formatted values. */
  lemma DottedEach(w: char -> bool, st: Settings)
    requires DottedAgrees(w) && st == Setup(Flattened(), DefaultTransformer(), w, NotFoundText, DefaultFormat)
    ensures ResolveEach(st, ["name", "other.codes"], [], ["Als", "True"])
  {
    assert TextsLack('$', ["Als"]) && TextsLack('$', ["True"]);
    assert !w(')');
    PlainValue(st, "name", "Als", []);
    PlainValue(st, "other.codes", "True", []);
    assert ["name", "other.codes"][1..] == ["other.codes"];
    assert ResolveEach(st, ["other.codes"], [], ["True"]);
  }

  /** With '.' admitted in names, "Hello $(name). $(other.codes)" becomes "Hello Als. True", as the test expects. */
  lemma DottedNameResolved(w: char -> bool, st: Settings)
    requires DottedAgrees(w) && st == Setup(Flattened(), DefaultTransformer(), w, NotFoundText, DefaultFormat)
    ensures Replace(st, "Hello $(name). $(other.codes)") == Success("Hello Als. True")
  {
    DottedShape(w);
    DottedText();
    DottedFill();
    DottedEach(w, st);
    ReplaceTemplate(st, ["Hello ", ". ", ""], ["name", "other.codes"], ["Als", "True"]);
  }

  // Lines 52-59: adding the same name twice.

  /** The second `AddVariable("same", 2)` is rejected by the dictionary, which keeps the first value. */
  lemma DuplicateName()
    ensures DictionaryAdd(map[], "same", Integer(1)) == Success(map["same" := Integer(1)])
    ensures DictionaryAdd(map["same" := Integer(1)], "same", Integer(2)) == Failure(DuplicateKey("same"))
    ensures DuplicateKey("same").Message() == "An item with the same key has already been added. Key: same"
  {
  }

  // Lines 242-259: null arguments.

  /** `c.AddVariables(null)` on a new configuration fails with the guard's message naming the parameter. */
  method NullDictionary(w: char -> bool) returns (r: Result<VariableReplacerConfiguration, Error>)
    ensures r.Failure? && r.error.Message() == "Argument cannot be null (Parameter 'variableDictionary')"
  {
    var c := new VariableReplacerConfiguration(w);
    r := AddVariables(c, None);
    NullDictionaryMessage();
  }

  /** The guard's message for `variableDictionary`. */
  lemma NullDictionaryMessage()
    ensures ArgumentNull("variableDictionary", Guard.NullMessage).Message()
      == "Argument cannot be null (Parameter 'variableDictionary')"
  {
    assert Guard.NullMessage + " (Parameter '" == "Argument cannot be null (Parameter '";
    assert "Argument cannot be null (Parameter '" + "variableDictionary" + "')"
      == "Argument cannot be null (Parameter 'variableDictionary')";
  }

  /**
   * Adding `Name = "Als"` to a new configuration and then `AddVariable(null, null)` fails with
   * the guard's message naming the parameter.
   */
  method NullName(w: char -> bool) returns (r: Result<VariableReplacerConfiguration, Error>)
    ensures r.Failure? && r.error.Message() == "Argument cannot be null (Parameter 'name')"
  {
    var c := new VariableReplacerConfiguration(w);
    var e := [("Name", Text("Als"))];
    assert AddAll(map[], e) == Added(map["Name" := Text("Als")], None) by {
      assert e[1..] == [];
    }
    var first := AddVariables(c, Some(e));
    r := first.value.AddVariable(None, Null);
    NullNameMessage();
  }

  /** The guard's message for `name`. */
  lemma NullNameMessage()
    ensures ArgumentNull("name", Guard.NullMessage).Message() == "Argument cannot be null (Parameter 'name')"
  {
    assert Guard.NullMessage + " (Parameter '" == "Argument cannot be null (Parameter '";
  }

  // Lines 204-224: environment variables whose keys start with "ALS_", added without a prefix.

  /** The filter of the environment scenario, `key => key.StartsWith("ALS_")`. */
  predicate StartsWithAls(key: string) {
    At(key, 0, "ALS_")
  }

  /** A sample environment block: "ALS_NAME=Als" and one variable the filter rejects. */
  function SampleEnvironment(): seq<(string, string)> {
    [("ALS_NAME", "Als"), ("HOME", "/root")]
  }

  /** Only "ALS_NAME" passes the filter, and a null prefix leaves its key as it is. */
  lemma EnvironmentFiltered()
    ensures EnvironmentEntries(SampleEnvironment(), StartsWithAls, "") == [("ALS_NAME", Text("Als"))]
  {
    var env := SampleEnvironment();
    assert !StartsWithAls("HOME") by {
      assert "HOME"[0..4][0] == 'H';
    }
    assert env[1..][1..] == [];
    assert EnvironmentEntries(env[1..], StartsWithAls, "") == [];
    assert StartsWithAls("ALS_NAME") by {
      assert "ALS_NAME"[..4] == "ALS_";
    }
    assert "" + "ALS_NAME" == "ALS_NAME";
  }

  /** The replacer then holds exactly "ALS_NAME" = "Als". */
  lemma EnvironmentVariables()
    ensures AddAll(map[], EnvironmentEntries(SampleEnvironment(), StartsWithAls, "")) == Added(map["ALS_NAME" := Text("Als")], None)
  {
    EnvironmentFiltered();
    var e := [("ALS_NAME", Text("Als"))];
    assert e[1..] == [];
  }

  /** "Hi $(ALS_NAME)" becomes "Hi Als". */
  lemma EnvironmentReplaced(w: char -> bool, st: Settings)
    requires AsciiAgrees(w) && st == Setup(map["ALS_NAME" := Text("Als")], DefaultTransformer(), w, NotFoundText, DefaultFormat)
    ensures Replace(st, "Hi $(ALS_NAME)") == Success("Hi Als")
  {
    EnvironmentShape(w);
    EnvironmentEach(w, st);
    EnvironmentText();
    ReplaceTemplate(st, ["Hi ", ""], ["ALS_NAME"], ["Als"]);
  }

  /** "Hi $(ALS_NAME)" read as a template under the default delimiters. */
  lemma EnvironmentShape(w: char -> bool)
    requires AsciiAgrees(w)
    ensures TemplateShape(w, DefaultTransformer(), ["Hi ", ""], ["ALS_NAME"])
  {
    assert TextsLack('$', ["Hi ", ""]);
    assert AsciiNames(["ALS_NAME"]);
    DefaultShape(w, ["Hi ", ""], ["ALS_NAME"]);
  }

  /** "ALS_NAME" resolves to "Als". */
  lemma EnvironmentEach(w: char -> bool, st: Settings)
    requires AsciiAgrees(w) && st == Setup(map["ALS_NAME" := Text("Als")], DefaultTransformer(), w, NotFoundText, DefaultFormat)
    ensures ResolveEach(st, ["ALS_NAME"], [], ["Als"])
  {
    assert TextsLack('$', ["Als"]);
    DefaultShape(w, ["Als"], []);
    PlainValue(st, "ALS_NAME", "Als", []);
  }

  /** The text of the environment scenario before and after replacement. */
  lemma EnvironmentText()
    ensures Template(DefaultTransformer(), ["Hi ", ""], ["ALS_NAME"]) == "Hi $(ALS_NAME)"
    ensures Fill(["Hi ", ""], ["Als"]) == "Hi Als"
  {
    Template1(DefaultTransformer(), "Hi ", "", "ALS_NAME");
    Fill1("Hi ", "", "Als");
  }
}
