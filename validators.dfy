/** Input validators: JSON list normalisation and the provider checks made
    before a chat model is used. The provider is the result of the provider
    lookup for the model, passed in. */
module Validators {
  import opened Common

  /** Python's `type(v).__name__` for a JSON value. */
  function TypeName(v: Json): (name: string)
  {
    match v
    case JNull => "NoneType"
    case JBool(_) => "bool"
    case JInt(_) => "int"
    case JString(_) => "str"
    case JList(_) => "list"
    case JObject(_) => "dict"
  }

  /** `normalize_json_list`: `None` (JSON null) becomes the empty list, a list
      is returned as it is, anything else is a `ValueError` naming its type. */
  function NormalizeJsonList(v: Json): (r: Result<seq<Json>, string>)
    ensures r.Ok? <==> v.JNull? || v.JList?
    ensures v.JList? ==> r == Ok(v.items)
    ensures v.JNull? ==> r == Ok([])
    ensures r.Err? ==> r.error == "Expected list or None, got " + TypeName(v)
  {
    match v
    case JNull => Ok([])
    case JList(items) => Ok(items)
    case _ => Err("Expected list or None, got " + TypeName(v))
  }

  /** Normalising is idempotent: a normalised list normalises to itself. */
  lemma NormalizeIdempotent(v: Json)
    requires NormalizeJsonList(v).Ok?
    ensures NormalizeJsonList(JList(NormalizeJsonList(v).value)) == NormalizeJsonList(v)
  {
  }

  /** The reasons `validate_model_api_keys` raises `APIKeyValidationError`,
      in the order it checks them. */
  datatype ApiKeyError =
    | NoProvider(modelId: string)
    | ProviderDisabled(name: Json)
    | ApiKeyRequired(name: Json)
    | BaseUrlRequired(name: Json)

  /** `str(v)` for the provider name inside the messages. */
  function Display(v: Json): (s: string)
  {
    match v
    case JNull => "None"
    case JBool(b) => if b then "True" else "False"
    case JInt(i) => IntToDecimal(i)
    case JString(s) => s
    case JList(_) => "[...]"
    case JObject(_) => "{...}"
  }

  /** The exception message of each failure. */
  function Message(e: ApiKeyError): (m: string)
  {
    match e
    case NoProvider(id) =>
      "No provider configured for model '" + id + "'. Please configure a provider in Settings > Providers."
    case ProviderDisabled(n) => "Provider '" + Display(n) + "' is disabled."
    case ApiKeyRequired(n) => "API key is required for provider '" + Display(n) + "'. Please configure it in Settings."
    case BaseUrlRequired(n) => "Base URL is required for custom provider '" + Display(n) + "'."
  }

  /** `not provider`: no provider, or an empty dict. */
  predicate Missing(provider: Option<map<string, Json>>)
  {
    provider.None? || provider.value == map[]
  }

  predicate Enabled(p: map<string, Json>)
  {
    Truthy(Get(p, "enabled", JBool(true)))
  }

  /** `provider_type` defaults to "custom". */
  predicate IsCustom(p: map<string, Json>)
  {
    Get(p, "provider_type", JString("custom")) == JString("custom")
  }

  predicate HasCredentials(p: map<string, Json>)
  {
    if IsCustom(p) then Truthy(Get(p, "base_url", JNull)) else Truthy(Get(p, "auth_token", JNull))
  }

  /** `validate_model_api_keys`: the four checks in order, the first failure reported. */
  function ValidateModelApiKeys(provider: Option<map<string, Json>>, modelId: string): (r: Result<(), ApiKeyError>)
    ensures r.Ok? <==>
      !Missing(provider) && Enabled(provider.value) && HasCredentials(provider.value)
    ensures r == Err(NoProvider(modelId)) <==> Missing(provider)
    ensures r.Err? && r.error.ProviderDisabled? <==> !Missing(provider) && !Enabled(provider.value)
    ensures r.Err? && r.error.ApiKeyRequired? <==>
      !Missing(provider) && Enabled(provider.value) && !IsCustom(provider.value) &&
      !Truthy(Get(provider.value, "auth_token", JNull))
    ensures r.Err? && r.error.BaseUrlRequired? <==>
      !Missing(provider) && Enabled(provider.value) && IsCustom(provider.value) &&
      !Truthy(Get(provider.value, "base_url", JNull))
    ensures r.Err? && !r.error.NoProvider? ==> r.error.name == Get(provider.value, "name", JNull)
  {
    if Missing(provider) then Err(NoProvider(modelId))
    else
      var p := provider.value;
      var name := Get(p, "name", JNull);
      if !Enabled(p) then Err(ProviderDisabled(name))
      else if !IsCustom(p) && !Truthy(Get(p, "auth_token", JNull)) then Err(ApiKeyRequired(name))
      else if IsCustom(p) && !Truthy(Get(p, "base_url", JNull)) then Err(BaseUrlRequired(name))
      else Ok(())
  }

  /** A custom provider needs no API key and a hosted one needs no base URL:
      each credential matters only for its own provider type. */
  lemma CredentialsIndependent(p: map<string, Json>, modelId: string, v: Json)
    requires !Missing(Some(p))
    ensures IsCustom(p) ==>
      ValidateModelApiKeys(Some(p["auth_token" := v]), modelId) == ValidateModelApiKeys(Some(p), modelId)
    ensures !IsCustom(p) ==>
      ValidateModelApiKeys(Some(p["base_url" := v]), modelId) == ValidateModelApiKeys(Some(p), modelId)
  {
    var q1, q2 := p["auth_token" := v], p["base_url" := v];
    assert Get(q1, "enabled", JBool(true)) == Get(p, "enabled", JBool(true));
    assert Get(q1, "provider_type", JString("custom")) == Get(p, "provider_type", JString("custom"));
    assert Get(q1, "base_url", JNull) == Get(p, "base_url", JNull);
    assert Get(q1, "name", JNull) == Get(p, "name", JNull);
    assert Get(q2, "enabled", JBool(true)) == Get(p, "enabled", JBool(true));
    assert Get(q2, "provider_type", JString("custom")) == Get(p, "provider_type", JString("custom"));
    assert Get(q2, "auth_token", JNull) == Get(p, "auth_token", JNull);
    assert Get(q2, "name", JNull) == Get(p, "name", JNull);
    assert "auth_token" in q1;
    assert "base_url" in q2;
  }
}
