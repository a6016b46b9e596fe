/**
 * The hook configuration: `~/.aahook/config.json` maps a command line to the
 * art shown after it succeeds or fails. `loadConfig` hands back whatever
 * JSON.parse produced, unchecked, so the configuration is a `Json` value;
 * `ValidateConfig` is the guard chain that decides whether it has the
 * expected shape.
 */
module Config {
  import opened Wrappers
  import opened Json

  /** The art names of one hook (`success?`, `error?`), read as strings. */
  datatype HookConfig = HookConfig(success: Option<string>, error: Option<string>)

  /** A hook entry as JSON. */
  function HookJson(success: string, error: Option<string>): Json {
    if error.Some? then JObj(map["success" := JStr(success), "error" := JStr(error.value)])
    else JObj(map["success" := JStr(success)])
  }

  /** DEFAULT_CONFIG: version 0.1.0 and three hooks. */
  const DefaultConfig: Json :=
    JObj(map[
      "version" := JStr("0.1.0"),
      "hooks" := JObj(map[
        "git push" := HookJson("dragon.txt", Some("error.txt")),
        "ls" := HookJson("cat.txt", None),
        "npm test" := HookJson("success.txt", Some("error.txt"))
      ])
    ])

  /**
   * validateConfig: a truthy object whose `version` is a non-empty string and
   * whose `hooks` is a truthy object (arrays are objects to `typeof`). Other
   * fields are not looked at.
   */
  function ValidateConfig(config: Json): (ok: bool)
    ensures ok <==>
      config.JObj? &&
      "version" in config.fields && config.fields["version"].JStr? && config.fields["version"].s != "" &&
      "hooks" in config.fields && (config.fields["hooks"].JObj? || config.fields["hooks"].JArr?)
  {
    if !TruthyValue(config) || TypeOf(config) != "object" then false
    else if !TruthyField(config, "version") || TypeOf(Get(config, "version").value) != "string" then false
    else if !TruthyField(config, "hooks") || TypeOf(Get(config, "hooks").value) != "object" then false
    else true
  }

  /** Fields other than `version` and `hooks` do not change the verdict. */
  lemma ValidateConfigIgnoresOtherFields(fields: map<string, Json>, key: string, v: Json)
    requires key != "version" && key != "hooks"
    ensures ValidateConfig(JObj(fields[key := v])) == ValidateConfig(JObj(fields))
  {
  }

  /** DEFAULT_CONFIG is valid; its hooks are exactly `git push`, `ls` and `npm test`, and `ls` has no error art. */
  lemma DefaultConfigShape()
    ensures ValidateConfig(DefaultConfig)
    ensures DefaultConfig.fields["hooks"].fields.Keys == {"git push", "ls", "npm test"}
    ensures "error" !in DefaultConfig.fields["hooks"].fields["ls"].fields
    ensures "error" in DefaultConfig.fields["hooks"].fields["git push"].fields
    ensures "error" in DefaultConfig.fields["hooks"].fields["npm test"].fields
  {
    var hooks := DefaultConfig.fields["hooks"].fields;
    assert hooks["ls"] == JObj(map["success" := JStr("cat.txt")]);
  }
}
