/** Building the outgoing request in `Request`: choosing the target URL from
    the `server` section, adding the `rest.headers` of the configuration and
    then the caller's override headers. Each type assertion of the source
    that would panic on a malformed configuration is an error result here. */
module Requests {
  import opened Wrappers
  import opened Strings
  import opened Config

  /** `Extras`: settings the caller passes to the client, by name. */
  datatype Extras = Extras(value: map<string, string>)

  /** The client's state that `Request` reads. */
  datatype Client = Client(hasTemplateVars: bool, extras: map<string, Extras>, rawConfig: string)

  /** `NewClient` with `LoadConfig`, given the text of the configuration
      file: remembers the extras and the raw text, and flags the
      configuration as templated when `ConfigHasTemplateVars` counts a
      template variable, that is, when one first occurs after position 0. */
  method NewClient(rawConfig: string, extras: map<string, Extras>) returns (client: Client)
    ensures client.extras == extras && client.rawConfig == rawConfig
    ensures client.hasTemplateVars <==>
            exists i :: 0 <= i < |TemplateVars| && Index(rawConfig, TemplateVars[i]) > 0
  {
    var matches := ConfigHasTemplateVars(rawConfig);
    client := Client(matches > 0, extras, rawConfig);
  }

  /** `NewClient` with the template-variable test corrected as in
      `CountTemplateVars`: the configuration is flagged templated whenever a
      template variable occurs in it, wherever it is. */
  method NewClientCorrected(rawConfig: string, extras: map<string, Extras>) returns (client: Client)
    ensures client.extras == extras && client.rawConfig == rawConfig
    ensures client.hasTemplateVars <==>
            exists i :: 0 <= i < |TemplateVars| && Contains(rawConfig, TemplateVars[i])
  {
    var matches := CountTemplateVars(rawConfig);
    client := Client(matches > 0, extras, rawConfig);
  }

  /** Reading a Go `map[string]string`: a missing key gives "". */
  function Get(m: map<string, string>, key: string): string {
    if key in m then m[key] else ""
  }

  /** The key of the target URL in the `server` section: `url_` followed by
      the `url` entry of the `enviroment` extras (name spelt as in the
      client), or `url_prod` when there are no such extras. */
  function UrlKey(extras: map<string, Extras>): (key: string)
    ensures |key| >= 4 && key[..4] == "url_"
    ensures "enviroment" !in extras ==> key == "url_prod"
    ensures "enviroment" in extras ==> key[4..] == Get(extras["enviroment"].value, "url")
  {
    if "enviroment" in extras then "url_" + Get(extras["enviroment"].value, "url") else "url_prod"
  }

  /** Two callers that both name an environment get the same target URL
      key exactly when they name the same environment, and a caller without
      one gets the key of the `prod` environment. */
  lemma UrlKeySelectsEnvironment(a: map<string, Extras>, b: map<string, Extras>)
    ensures "enviroment" in a && "enviroment" in b ==>
      (UrlKey(a) == UrlKey(b) <==> Get(a["enviroment"].value, "url") == Get(b["enviroment"].value, "url"))
    ensures "enviroment" !in a ==>
      (UrlKey(a) == UrlKey(b) <==> "enviroment" !in b || Get(b["enviroment"].value, "url") == "prod")
  {
    if UrlKey(a) == UrlKey(b) {
      assert UrlKey(a)[4..] == UrlKey(b)[4..];
    }
  }

  /** `http.Header`: the values of each header name, in the order added. */
  type Header = map<string, seq<string>>

  /** `Header.Add`: appends a value to those of the name. */
  function Add(h: Header, name: string, value: string): Header {
    h[name := (if name in h then h[name] else []) + [value]]
  }

  /** `Header.Del`: drops every value of the name. */
  function Del(h: Header, name: string): Header {
    h - {name}
  }

  /** `AppendHeaders`: adds each configured header, in the unspecified order
      in which Go iterates over a map. */
  method AppendHeaders(h: Header, headers: map<string, string>) returns (r: Header)
    ensures r.Keys == h.Keys + headers.Keys
    ensures forall k :: k in headers ==> r[k] == (if k in h then h[k] else []) + [headers[k]]
    ensures forall k :: k in h && k !in headers ==> r[k] == h[k]
  {
    r := h;
    var todo := headers.Keys;
    while todo != {}
      invariant todo <= headers.Keys
      invariant r.Keys == h.Keys + (headers.Keys - todo)
      invariant forall k :: k in headers && k !in todo ==> r[k] == (if k in h then h[k] else []) + [headers[k]]
      invariant forall k :: k in h && (k !in headers || k in todo) ==> r[k] == h[k]
      decreases todo
    {
      var name :| name in todo;
      r := Add(r, name, headers[name]);
      todo := todo - {name};
    }
  }

  /** The override loop of `Request`: for each extras header, in map order,
      `Del` then `Add`, so the header ends up with exactly that one value. */
  method OverrideHeaders(h: Header, overrides: map<string, string>) returns (r: Header)
    ensures r.Keys == h.Keys + overrides.Keys
    ensures forall k :: k in overrides ==> r[k] == [overrides[k]]
    ensures forall k :: k in h && k !in overrides ==> r[k] == h[k]
  {
    r := h;
    var todo := overrides.Keys;
    while todo != {}
      invariant todo <= overrides.Keys
      invariant r.Keys == h.Keys + (overrides.Keys - todo)
      invariant forall k :: k in overrides && k !in todo ==> r[k] == [overrides[k]]
      invariant forall k :: k in h && (k !in overrides || k in todo) ==> r[k] == h[k]
      decreases todo
    {
      var name :| name in todo;
      r := Del(r, name);
      r := Add(r, name, overrides[name]);
      todo := todo - {name};
    }
  }

  /** The header set a request ends with, stated directly: override values
      win, other configured headers keep their single value. */
  function MergedHeaders(configured: map<string, string>, overrides: map<string, string>): Header {
    map k | k in configured.Keys + overrides.Keys ::
      if k in overrides then [overrides[k]] else [configured[k]]
  }

  /** Why setting up a request fails: a type assertion on the configuration
      that would panic. */
  datatype SetupError =
    | RestNotAMap             // Config["rest"].(map[string]interface{})
    | ServerNotAMap           // Config["server"].(map[string]interface{})
    | UrlNotAString(key: string)  // RequestURL.(string)
    | HeadersNotStrings       // HeadersConfig.(map[string]interface{}) and Value.(string)

  /** The request as it is about to be sent. */
  datatype Outgoing = Outgoing(url: string, header: Header, body: string)

  /** `config[name]` asserted to be a map. */
  function Section(config: map<string, ConfigValue>, name: string): Option<map<string, ConfigValue>> {
    if name in config && config[name].Table? then Some(config[name].entries) else None
  }

  /** `rest["headers"]` asserted to be a map whose values are strings. */
  function ConfiguredHeaders(rest: map<string, ConfigValue>): Option<map<string, string>> {
    if "headers" in rest && rest["headers"].Table?
       && forall k :: k in rest["headers"].entries ==> rest["headers"].entries[k].Text?
    then Some(map k | k in rest["headers"].entries :: rest["headers"].entries[k].text)
    else None
  }

  /** The extras headers, if any. */
  function Overrides(extras: map<string, Extras>): map<string, string> {
    if "headers" in extras then extras["headers"].value else map[]
  }

  /** Sets up the outgoing request from the resolved configuration, in the
      order of the source: `rest`, `server`, the URL, the configured
      headers, the overrides. */
  method PrepareRequest(config: map<string, ConfigValue>, extras: map<string, Extras>, payload: string)
    returns (r: Result<Outgoing, SetupError>)
    ensures Section(config, "rest").None? ==> r == Err(RestNotAMap)
    ensures Section(config, "rest").Some? && Section(config, "server").None? ==> r == Err(ServerNotAMap)
    ensures Section(config, "rest").Some? && Section(config, "server").Some?
            && !(UrlKey(extras) in Section(config, "server").value
                 && Section(config, "server").value[UrlKey(extras)].Text?)
            ==> r == Err(UrlNotAString(UrlKey(extras)))
    ensures Section(config, "rest").Some? && Section(config, "server").Some?
            && UrlKey(extras) in Section(config, "server").value
            && Section(config, "server").value[UrlKey(extras)].Text?
            && ConfiguredHeaders(Section(config, "rest").value).None?
            ==> r == Err(HeadersNotStrings)
    ensures r.Ok? <==>
      && Section(config, "rest").Some? && Section(config, "server").Some?
      && UrlKey(extras) in Section(config, "server").value
      && Section(config, "server").value[UrlKey(extras)].Text?
      && ConfiguredHeaders(Section(config, "rest").value).Some?
    ensures r.Ok? ==>
      && r.value.url == Section(config, "server").value[UrlKey(extras)].text
      && r.value.header == MergedHeaders(ConfiguredHeaders(Section(config, "rest").value).value, Overrides(extras))
      && r.value.body == payload
  {
    var restConfig := Section(config, "rest");
    if restConfig.None? {
      return Err(RestNotAMap);
    }
    var serverConfig := Section(config, "server");
    if serverConfig.None? {
      return Err(ServerNotAMap);
    }
    var key := UrlKey(extras);
    if key !in serverConfig.value || !serverConfig.value[key].Text? {
      return Err(UrlNotAString(key));
    }
    var requestUrl := serverConfig.value[key].text;
    var headersConfig := ConfiguredHeaders(restConfig.value);
    if headersConfig.None? {
      return Err(HeadersNotStrings);
    }
    var header := AppendHeaders(map[], headersConfig.value);
    header := OverrideHeaders(header, Overrides(extras));
    ghost var merged := MergedHeaders(headersConfig.value, Overrides(extras));
    assert header.Keys == merged.Keys;
    assert forall k :: k in header ==> header[k] == merged[k];
    assert header == merged;
    r := Ok(Outgoing(requestUrl, header, payload));
  }

  /** `Request` up to sending: the configuration is resolved only when the
      raw configuration was found to hold template variables; otherwise it
      stays nil and the first type assertion fails. */
  method Request(client: Client, message: Message, parse: string -> seq<MapItem>)
    returns (r: Result<Outgoing, SetupError>)
    ensures !client.hasTemplateVars ==> r == Err(RestNotAMap)
    ensures r.Ok? ==> r.value.body == message.payload
    ensures r.Ok? ==> forall k :: k in Overrides(client.extras) ==>
              k in r.value.header && r.value.header[k] == [Overrides(client.extras)[k]]
  {
    var config: map<string, ConfigValue> := map[];
    if client.hasTemplateVars {
      config := PrepareConfig(client.rawConfig, message, parse);
    }
    r := PrepareRequest(config, client.extras, message.payload);
  }
}
