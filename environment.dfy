/** The API-key check shared by `DeepgramLiveTranscriber.__init__` and
    `MoMGenerator.__init__`: `os.getenv(...)` followed by `if not api_key`. */
module Environment {
  import opened Wrappers

  /** What `__init__` raises when the key is unset or empty. */
  datatype InitError = MissingApiKey

  /** `not api_key` is false: the variable is set and not the empty string,
      the two falsy values `os.getenv` can return. */
  predicate ApiKeyPresent(envKey: Option<string>)
    ensures ApiKeyPresent(envKey) <==> envKey != None && envKey != Some("")
  {
    envKey.Some? && envKey.value != ""
  }
}
