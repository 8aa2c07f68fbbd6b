/** Where the cache lives and what it may do, as given by the caller and by the environment. */
module CacheConfiguration {

  datatype CacheConfig = CacheConfig(cacheDir: string, endpoint: string, offline: bool)

  /** `env`: an unset variable reads as empty. */
  function Env(env: map<string, string>, name: string): string {
    if name in env then env[name] else ""
  }

  function DefaultCacheDir(env: map<string, string>): string {
    if Env(env, "CYBORGDB_EMBED_CACHE") != "" then Env(env, "CYBORGDB_EMBED_CACHE")
    else if Env(env, "XDG_CACHE_HOME") != "" then Env(env, "XDG_CACHE_HOME") + "/cyborgdb-embed"
    else Env(env, "HOME") + "/.cache/cyborgdb-embed"
  }

  function ResolvedConfig(env: map<string, string>, given: CacheConfig): CacheConfig {
    var endpoint := Env(env, "CYBORGDB_EMBED_ENDPOINT");
    CacheConfig(
      if given.cacheDir == "" then DefaultCacheDir(env) else given.cacheDir,
      if given.endpoint != "" then given.endpoint
      else if endpoint == "" then "https://huggingface.co" else endpoint,
      given.offline || Env(env, "CYBORGDB_EMBED_OFFLINE") != "")
  }

  predicate IsSet(env: map<string, string>, name: string) {
    name in env && env[name] != ""
  }

  /** What wins: the caller's choice, then the library's own variable, then the platform's, then the default. */
  lemma ConfigurationSources(env: map<string, string>, given: CacheConfig)
    ensures var config := ResolvedConfig(env, given);
        && (given.cacheDir != "" ==> config.cacheDir == given.cacheDir)
        && (given.cacheDir == "" && IsSet(env, "CYBORGDB_EMBED_CACHE") ==>
              config.cacheDir == env["CYBORGDB_EMBED_CACHE"])
        && (given.cacheDir == "" && !IsSet(env, "CYBORGDB_EMBED_CACHE") && IsSet(env, "XDG_CACHE_HOME") ==>
              config.cacheDir == env["XDG_CACHE_HOME"] + "/cyborgdb-embed")
        && (given.cacheDir == "" && !IsSet(env, "CYBORGDB_EMBED_CACHE") && !IsSet(env, "XDG_CACHE_HOME") ==>
              config.cacheDir == (if "HOME" in env then env["HOME"] else "") + "/.cache/cyborgdb-embed")
        && (given.endpoint != "" ==> config.endpoint == given.endpoint)
        && (given.endpoint == "" && IsSet(env, "CYBORGDB_EMBED_ENDPOINT") ==>
              config.endpoint == env["CYBORGDB_EMBED_ENDPOINT"])
        && (given.endpoint == "" && !IsSet(env, "CYBORGDB_EMBED_ENDPOINT") ==>
              config.endpoint == "https://huggingface.co")
        && (config.offline <==> given.offline || IsSet(env, "CYBORGDB_EMBED_OFFLINE"))
  {
  }

  /** Paths are built from a configuration resolved twice over: the second time changes nothing. */
  lemma ResolvingTwice(env: map<string, string>, given: CacheConfig)
    ensures ResolvedConfig(env, ResolvedConfig(env, given)) == ResolvedConfig(env, given)
    ensures ResolvedConfig(env, given).cacheDir != ""
  {
    assert |Env(env, "XDG_CACHE_HOME") + "/cyborgdb-embed"| > 0;
    assert |Env(env, "HOME") + "/.cache/cyborgdb-embed"| > 0;
  }
}
