/** Configuration handling of the client: detecting template variables in
    the raw configuration, substituting them for one request, and turning
    the parsed YAML key/value list into nested maps. */
module Config {
  import opened Strings

  /** `TemplateVars`: the names that may appear as `{{name}}` in the raw
      configuration. */
  const TemplateVars: seq<string> := ["request_name"]

  /** The part of an outgoing message the configuration depends on: its
      method name, and the payload `Prepare` serialises it to. */
  datatype Message = Message(methodName: string, payload: string)

  /** How many of `names` have their first occurrence in `config` at a
      position of at least `from`. */
  function CountFoundFrom(config: string, names: seq<string>, from: int): nat {
    if names == [] then 0
    else
      CountFoundFrom(config, names[..|names| - 1], from)
        + (if Index(config, names[|names| - 1]) >= from then 1 else 0)
  }

  lemma {:induction false} CountFoundBounds(config: string, names: seq<string>, from: int)
    ensures CountFoundFrom(config, names, from) <= |names|
    ensures CountFoundFrom(config, names, from) == 0 <==>
            forall i :: 0 <= i < |names| ==> Index(config, names[i]) < from
    decreases |names|
  {
    if names != [] {
      var init := names[..|names| - 1];
      CountFoundBounds(config, init, from);
      assert forall i :: 0 <= i < |init| ==> init[i] == names[i];
    }
  }

  /** `ConfigHasTemplateVars` as written: a name counts only when its first
      occurrence is at a position greater than 0, so a name at the very
      start of the configuration is missed. */
  method ConfigHasTemplateVars(rawConfig: string) returns (matches: nat)
    ensures matches == CountFoundFrom(rawConfig, TemplateVars, 1)
    ensures matches <= |TemplateVars|
    ensures matches == 0 <==>
            forall i :: 0 <= i < |TemplateVars| ==> Index(rawConfig, TemplateVars[i]) <= 0
  {
    matches := 0;
    for i := 0 to |TemplateVars|
      invariant matches == CountFoundFrom(rawConfig, TemplateVars[..i], 1)
    {
      var varIndex := Index(rawConfig, TemplateVars[i]);
      if varIndex > 0 {
        matches := matches + 1;
      }
      assert TemplateVars[..i + 1][..i] == TemplateVars[..i];
    }
    assert TemplateVars[..|TemplateVars|] == TemplateVars;
    CountFoundBounds(rawConfig, TemplateVars, 1);
  }

  /** A configuration whose text starts with `request_name` (a YAML key of
      that name, say) is reported as having no template variable, whatever
      placeholders follow; the corrected test counts it. */
  lemma TemplateVarAtStartIsMissed(config: string)
    requires TemplateVars[0] <= config
    ensures CountFoundFrom(config, TemplateVars, 1) == 0
    ensures CountFoundFrom(config, TemplateVars, 0) == 1
  {
    var name := TemplateVars[0];
    assert config[..|name|] == name;
    assert Index(config, name) == 0;
    assert TemplateVars[..0] == [];
  }

  /** The check as evidently intended: a name counts whenever it occurs. */
  method CountTemplateVars(rawConfig: string) returns (matches: nat)
    ensures matches == CountFoundFrom(rawConfig, TemplateVars, 0)
    ensures matches <= |TemplateVars|
    ensures matches == 0 <==>
            forall i :: 0 <= i < |TemplateVars| ==> !Contains(rawConfig, TemplateVars[i])
  {
    matches := 0;
    for i := 0 to |TemplateVars|
      invariant matches == CountFoundFrom(rawConfig, TemplateVars[..i], 0)
    {
      if Index(rawConfig, TemplateVars[i]) >= 0 {
        matches := matches + 1;
      }
      assert TemplateVars[..i + 1][..i] == TemplateVars[..i];
    }
    assert TemplateVars[..|TemplateVars|] == TemplateVars;
    CountFoundBounds(rawConfig, TemplateVars, 0);
  }

  /** `fmt.Sprintf("{{%s}}", name)`. */
  function Placeholder(name: string): string {
    "{{" + name + "}}"
  }

  /** The value a template variable takes for `message`: the method name
      for `request_name`, empty for any other name. */
  function TemplateValue(name: string, message: Message): string {
    if name == "request_name" then message.methodName else ""
  }

  /** The configuration text after substituting the variables `names`, one
      after the other. */
  function ApplyTemplates(config: string, names: seq<string>, message: Message): string {
    if names == [] then config
    else
      var last := names[|names| - 1];
      Replace(ApplyTemplates(config, names[..|names| - 1], message), Placeholder(last), TemplateValue(last, message))
  }

  /** The substitution loop of `PrepareConfig`: every `{{request_name}}` in
      the raw configuration becomes the message's method name, and the text
      between placeholders is kept as it is. */
  method SubstituteTemplateVars(rawConfig: string, message: Message) returns (modified: string)
    ensures modified == Join(Split(rawConfig, "{{request_name}}"), message.methodName)
    ensures !Contains(rawConfig, "{{request_name}}") ==> modified == rawConfig
  {
    modified := rawConfig;
    for i := 0 to |TemplateVars|
      invariant modified == ApplyTemplates(rawConfig, TemplateVars[..i], message)
    {
      var varName := TemplateVars[i];
      var varValue := TemplateValue(varName, message);
      modified := Replace(modified, Placeholder(varName), varValue);
      assert TemplateVars[..i + 1][..i] == TemplateVars[..i];
    }
    assert TemplateVars[..|TemplateVars|] == TemplateVars;
    assert Placeholder(TemplateVars[0]) == "{{request_name}}";
    assert TemplateValue(TemplateVars[0], message) == message.methodName;
    assert TemplateVars[..0] == [];
    ReplaceIsSplitJoin(rawConfig, "{{request_name}}", message.methodName);
  }

  /** A parsed YAML value: a scalar (as `fmt.Sprint` prints it) or a nested
      ordered key/value list (`yaml.MapSlice`). */
  datatype YamlValue = Scalar(text: string) | Nested(slice: seq<MapItem>)

  /** One `yaml.MapItem`; the key as `fmt.Sprint` prints it. */
  datatype MapItem = MapItem(key: string, value: YamlValue)

  /** A value of the resulting `map[string]interface{}`: a string or a
      nested map. */
  datatype ConfigValue = Text(text: string) | Table(entries: map<string, ConfigValue>)

  /** What an entry's value becomes in the map. */
  function Convert(v: YamlValue): ConfigValue
    decreases v
  {
    match v
    case Scalar(text) => Text(text)
    case Nested(slice) => Table(ToMap(slice, map[]))
  }

  /** `m` after storing the entries of `slice` one after the other. */
  function ToMap(slice: seq<MapItem>, m: map<string, ConfigValue>): map<string, ConfigValue>
    decreases slice
  {
    if slice == [] then m
    else
      var last := slice[|slice| - 1];
      ToMap(slice[..|slice| - 1], m)[last.key := Convert(last.value)]
  }

  /** The keys of the map are those of `m` and those of the list. */
  lemma {:induction false} ToMapKeys(slice: seq<MapItem>, m: map<string, ConfigValue>)
    ensures ToMap(slice, m).Keys == m.Keys + set i | 0 <= i < |slice| :: slice[i].key
    decreases |slice|
  {
    if slice != [] {
      var init := slice[..|slice| - 1];
      ToMapKeys(init, m);
      assert (set i | 0 <= i < |slice| :: slice[i].key)
          == (set i | 0 <= i < |init| :: init[i].key) + {slice[|slice| - 1].key};
    }
  }

  /** For a key of the list, the entry is the converted value of its LAST
      occurrence: a later duplicate overwrites an earlier one. */
  lemma {:induction false} ToMapLastWins(slice: seq<MapItem>, m: map<string, ConfigValue>, i: nat)
    requires i < |slice|
    requires forall j :: i < j < |slice| ==> slice[j].key != slice[i].key
    ensures slice[i].key in ToMap(slice, m)
    ensures ToMap(slice, m)[slice[i].key] == Convert(slice[i].value)
    decreases |slice|
  {
    if i < |slice| - 1 {
      ToMapLastWins(slice[..|slice| - 1], m, i);
    }
  }

  /** A key the list does not mention keeps its entry from `m`. */
  lemma {:induction false} ToMapKeepsOthers(slice: seq<MapItem>, m: map<string, ConfigValue>, k: string)
    requires forall i :: 0 <= i < |slice| ==> slice[i].key != k
    ensures k in ToMap(slice, m) <==> k in m
    ensures k in m ==> ToMap(slice, m)[k] == m[k]
    decreases |slice|
  {
    if slice != [] {
      ToMapKeepsOthers(slice[..|slice| - 1], m, k);
    }
  }

  /** `MapSliceToMap`: stores every entry of the list into `m`, nested lists
      as nested maps built from an empty map. A nil Go map reads as an empty
      one, so the call with `nil` is the call with `map[]`. */
  method MapSliceToMap(slice: seq<MapItem>, m: map<string, ConfigValue>)
    returns (r: map<string, ConfigValue>)
    ensures r == ToMap(slice, m)
    decreases slice
  {
    r := m;
    for i := 0 to |slice|
      invariant r == ToMap(slice[..i], m)
    {
      var entry := slice[i];
      assert slice[..i + 1][..i] == slice[..i];
      match entry.value {
        case Nested(inner) =>
          var nested := MapSliceToMap(inner, map[]);
          r := r[entry.key := Table(nested)];
        case Scalar(text) =>
          r := r[entry.key := Text(text)];
      }
    }
    assert slice[..|slice|] == slice;
  }

  /** `PrepareConfig`: substitute the template variables, parse the text
      with the YAML parser (`parse`, foreign code), and build the map. */
  method PrepareConfig(rawConfig: string, message: Message, parse: string -> seq<MapItem>)
    returns (config: map<string, ConfigValue>)
    ensures config == ToMap(parse(Join(Split(rawConfig, "{{request_name}}"), message.methodName)), map[])
  {
    var modifiedConfig := SubstituteTemplateVars(rawConfig, message);
    config := MapSliceToMap(parse(modifiedConfig), map[]);
  }
}
