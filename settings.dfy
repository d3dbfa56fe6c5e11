/** `ConfigManager`'s two-level settings: sections such as `api_settings` and
    `ui_settings`, each mapping setting names to JSON values. */
module Settings {
  import opened Wrappers

  /** The JSON values the configuration holds: strings, booleans, lists of strings,
      and `null`, which is also Python's `None`, the default of `get_setting`. */
  datatype Setting = Null | Text(text: string) | Flag(flag: bool) | TextList(items: seq<string>)

  type Config = map<string, map<string, Setting>>

  /** Python truthiness of a setting value, as `if use_default` tests it. */
  predicate Truthy(v: Setting)
  {
    match v
    case Null => false
    case Text(t) => t != []
    case Flag(b) => b
    case TextList(items) => items != []
  }

  /** `config.get(primary, {}).get(secondary, default)`: a missing section reads as empty,
      a missing entry as the default. */
  function Lookup(c: Config, primary: string, secondary: string, default: Setting): (r: Setting)
    ensures primary in c && secondary in c[primary] ==> r == c[primary][secondary]
    ensures primary !in c || secondary !in c[primary] ==> r == default
  {
    if primary in c && secondary in c[primary] then c[primary][secondary] else default
  }

  /** The configuration after `set_setting`: the section is created when missing,
      then the one entry is written. */
  function Store(c: Config, primary: string, secondary: string, value: Setting): (r: Config)
    ensures r.Keys == c.Keys + {primary} && secondary in r[primary] && r[primary][secondary] == value
    ensures forall p :: p in c && p != primary ==> r[p] == c[p]
    ensures primary in c ==> r[primary].Keys == c[primary].Keys + {secondary}
    ensures primary in c ==> forall s :: s in c[primary] && s != secondary ==> r[primary][s] == c[primary][s]
    ensures primary !in c ==> r[primary] == map[secondary := value]
  {
    c[primary := (if primary in c then c[primary] else map[])[secondary := value]]
  }

  /** Reading back what was set gives the new value; every other pair of keys
      reads as before, whatever default is supplied. */
  lemma LookupStore(c: Config, primary: string, secondary: string, value: Setting,
                    p: string, s: string, default: Setting)
    ensures Lookup(Store(c, primary, secondary, value), p, s, default)
            == if p == primary && s == secondary then value else Lookup(c, p, s, default)
  {
  }

  /** `get_active_system_prompt`: the built-in prompt whenever
      `api_settings.use_default_system_prompt` is absent or truthy; otherwise the
      stored `api_settings.system_prompt`, or the built-in prompt when that is absent. */
  function ActiveSystemPrompt(c: Config, builtIn: string): (r: Setting)
    ensures "api_settings" !in c ==> r == Text(builtIn)
    ensures "api_settings" in c && "use_default_system_prompt" !in c["api_settings"] ==> r == Text(builtIn)
    ensures "api_settings" in c && "use_default_system_prompt" in c["api_settings"] ==>
              var useDefault := c["api_settings"]["use_default_system_prompt"];
              && (Truthy(useDefault) ==> r == Text(builtIn))
              && (!Truthy(useDefault) && "system_prompt" in c["api_settings"] ==> r == c["api_settings"]["system_prompt"])
              && (!Truthy(useDefault) && "system_prompt" !in c["api_settings"] ==> r == Text(builtIn))
  {
    var useDefault := Lookup(c, "api_settings", "use_default_system_prompt", Flag(true));
    if Truthy(useDefault) then Text(builtIn)
    else Lookup(c, "api_settings", "system_prompt", Text(builtIn))
  }

  /** Turning the default on, as the system-prompt dialog does, makes the built-in
      prompt active whatever custom prompt is stored. */
  lemma DefaultOnWins(c: Config, builtIn: string, custom: Setting)
    ensures ActiveSystemPrompt(Store(Store(c, "api_settings", "system_prompt", custom),
                                     "api_settings", "use_default_system_prompt", Flag(true)), builtIn)
            == Text(builtIn)
  {
  }

  /** The configuration holder. `__init__`'s file loading is outside this model:
      the constructor receives the configuration it produced, and whether it
      produced it by writing the default configuration to a missing `config.json`. */
  class ConfigManager {
    var config: Config
    /** The configuration last written to `config.json`, by `set_setting` or by the
        first start that creates the file. */
    ghost var written: Option<Config>

    constructor (loaded: Config, createdDefault: bool)
      ensures config == loaded
      ensures written == if createdDefault then Some(loaded) else None
    {
      config := loaded;
      written := if createdDefault then Some(loaded) else None;
    }

    /** `get_setting`, the entry point to `Lookup` on the current configuration.
        Callers that omit `default` pass `Null`. */
    function GetSetting(primary: string, secondary: string, default: Setting): (r: Setting)
      reads this
      ensures r == Lookup(config, primary, secondary, default)
    {
      Lookup(config, primary, secondary, default)
    }

    /** `set_setting`: write one entry, creating its section on demand, then save. */
    method SetSetting(primary: string, secondary: string, value: Setting)
      modifies this
      ensures config == Store(old(config), primary, secondary, value)
      ensures written == Some(config)
      ensures forall default :: GetSetting(primary, secondary, default) == value
      ensures forall p, s, default :: p != primary || s != secondary ==>
                GetSetting(p, s, default) == old(GetSetting(p, s, default))
    {
      if primary !in config {
        config := config[primary := map[]];
      }
      config := config[primary := config[primary][secondary := value]];
      written := Some(config);
    }

    /** `get_active_system_prompt`; `builtIn` is the application's default system prompt text. */
    function GetActiveSystemPrompt(builtIn: string): (r: Setting)
      reads this
      ensures r == ActiveSystemPrompt(config, builtIn)
    {
      ActiveSystemPrompt(config, builtIn)
    }
  }
}
