/**
 * The model_settings mapping and Python's `settings.get(key) or default` fallback: a
 * missing key reads as None, and None or any other falsy value (0, 0.0, "", [], False)
 * gives way to the default.
 */
module Settings {

  /** A setting's value, with the dynamic types the request fields may carry. */
  datatype Value =
    | Null
    | Bool(b: bool)
    | Int(i: int)
    | Real(r: real)
    | Str(s: string)
    | List(items: seq<Value>)

  /** Python truthiness. */
  predicate Truthy(v: Value)
  {
    match v
    case Null => false
    case Bool(b) => b
    case Int(i) => i != 0
    case Real(r) => r != 0.0
    case Str(s) => s != ""
    case List(items) => items != []
  }

  type Config = map<string, Value>

  /** `settings.get(key)`: None when the key is absent. */
  function Get(settings: Config, key: string): Value
  {
    if key in settings then settings[key] else Null
  }

  /** `settings.get(key) or fallback`. */
  function Setting(settings: Config, key: string, fallback: Value): (r: Value)
    ensures key !in settings ==> r == fallback
    ensures Truthy(fallback) ==> Truthy(r)
    ensures r == fallback || (key in settings && r == settings[key] && Truthy(r))
    ensures Truthy(Get(settings, key)) ==> r == settings[key]
  {
    var configured := Get(settings, key);
    if Truthy(configured) then configured else fallback
  }

  const MaxGenLenDefault: Value := Int(2048)
  const ClaudeMaxTokensDefault: Value := Int(8000)
  const StopSequencesDefault: Value := List([Str("User:")])
  const AnthropicVersionDefault: Value := Str("bedrock-2023-05-31")
  /** Command-R sends this max_tokens whatever the settings say. */
  const CommandRMaxTokens: Value := Int(20000)
}
