/**
 * Environment-derived settings and the per-repository deploy command lookup
 * (`getCommandForRepository`). The process environment is a read-only map.
 */
module Config {
  import opened Wrappers
  import opened JsString

  type Env = map<string, string>

  /** `process.env[key] || ''`: an unset key and an empty value read alike. */
  function EnvOrEmpty(env: Env, key: string): string {
    if key in env then env[key] else ""
  }

  /** `WEBHOOK_SECRET`, defaulting to the empty string. */
  function WebhookSecret(env: Env): (secret: string)
    ensures secret != "" <==> "WEBHOOK_SECRET" in env && env["WEBHOOK_SECRET"] != ""
    ensures secret != "" ==> secret == env["WEBHOOK_SECRET"]
  {
    EnvOrEmpty(env, "WEBHOOK_SECRET")
  }

  /** `USE_SSH` is on only for the exact string "true"; "TRUE", "1" or an unset key leave it off. */
  predicate UseSsh(env: Env): (on: bool)
    ensures on <==> EnvOrEmpty(env, "USE_SSH") == "true"
  {
    "USE_SSH" in env && env["USE_SSH"] == "true"
  }

  /** `SSH_PRIVATE_KEY_PATH`, defaulting to the empty string. */
  function SshPrivateKeyPath(env: Env): (path: string)
    ensures path != "" <==> "SSH_PRIVATE_KEY_PATH" in env && env["SSH_PRIVATE_KEY_PATH"] != ""
    ensures path != "" ==> path == env["SSH_PRIVATE_KEY_PATH"]
  {
    EnvOrEmpty(env, "SSH_PRIVATE_KEY_PATH")
  }

  /** `repository.split('/')[1]?.replace(/\.git$/, '')`: the name part, when there is one. */
  function RepoNameOf(repository: string): (name: Option<string>)
    ensures name.None? <==> '/' !in repository
    ensures name.Some? ==> '/' !in name.value
  {
    var parts := Split(repository, '/');
    if |parts| < 2 then None
    else
      StripGitSuffixKeepsSeparatorFree(parts[1], '/');
      Some(StripGitSuffix(parts[1]))
  }

  /** The name part of `owner/repo`, followed by nothing or by `/...`, is `repo` without one trailing `.git`. */
  lemma RepoNameOfSecondSegment(owner: string, repo: string, rest: string)
    requires '/' !in owner && '/' !in repo
    requires rest == "" || rest[0] == '/'
    ensures RepoNameOf(owner + "/" + repo + rest) == Some(StripGitSuffix(repo))
  {
    SplitFirstTwo(owner, '/', repo, rest);
  }

  /**
   * The four spellings tried, in this order: as given, upper case, dashes as
   * underscores, and both.
   */
  function Variations(name: string): (vs: seq<string>)
    ensures |vs| == 4 && vs[0] == name
    ensures forall i :: 0 <= i < 4 ==> |vs[i]| == |name|
    ensures forall c :: c in vs[1] || c in vs[3] ==> !IsLowerAscii(c)
    ensures '-' !in vs[2] && '-' !in vs[3]
    ensures forall i :: 0 <= i < |name| && !IsLowerAscii(name[i]) && name[i] != '-' ==>
      vs[1][i] == vs[2][i] == vs[3][i] == name[i]
    ensures forall i :: 0 <= i < |name| ==>
      && vs[1][i] == UpperChar(name[i])
      && vs[2][i] == (if name[i] == '-' then '_' else name[i])
      && vs[3][i] == UpperChar(vs[2][i])
  {
    [name, ToUpperCase(name), DashesToUnderscores(name), ToUpperCase(DashesToUnderscores(name))]
  }

  /** The environment key for one spelling. */
  function CommandKey(variation: string): (key: string)
    ensures |key| == |variation| + 13
    ensures key[..5] == "REPO_" && key[|key| - 8..] == "_COMMAND"
    ensures key[5..|key| - 8] == variation
  {
    "REPO_" + variation + "_COMMAND"
  }

  function CommandKeys(name: string): (keys: seq<string>)
    ensures |keys| == 4
    ensures forall i :: 0 <= i < 4 ==> keys[i] == CommandKey(Variations(name)[i])
  {
    var vs := Variations(name);
    [CommandKey(vs[0]), CommandKey(vs[1]), CommandKey(vs[2]), CommandKey(vs[3])]
  }

  /** No key before `i` in `keys` holds a non-empty value. */
  predicate UnsetBefore(env: Env, keys: seq<string>, i: int)
    requires 0 <= i <= |keys|
  {
    forall j :: 0 <= j < i ==> EnvOrEmpty(env, keys[j]) == ""
  }

  /** The value of the first key whose value is non-empty; later keys are not consulted. */
  function FirstConfigured(env: Env, keys: seq<string>): (r: Option<string>)
    ensures r.None? <==> UnsetBefore(env, keys, |keys|)
    ensures r.Some? ==> r.value != ""
    ensures r.Some? ==>
      (exists i :: 0 <= i < |keys| && UnsetBefore(env, keys, i) && r.value == EnvOrEmpty(env, keys[i]))
    decreases |keys|
  {
    if keys == [] then None
    else if EnvOrEmpty(env, keys[0]) != "" then
      assert UnsetBefore(env, keys, 0);
      Some(EnvOrEmpty(env, keys[0]))
    else
      var r := FirstConfigured(env, keys[1..]);
      assert UnsetBefore(env, keys, |keys|) <==> UnsetBefore(env, keys[1..], |keys| - 1);
      if r.Some? then
        var i :| 0 <= i < |keys| - 1 && UnsetBefore(env, keys[1..], i) && r.value == EnvOrEmpty(env, keys[1..][i]);
        assert UnsetBefore(env, keys, i + 1);
        r
      else r
  }

  /** `getCommandForRepository`: the deploy command configured for a repository, if any. */
  function GetCommandForRepository(repository: string, env: Env): (command: Option<string>)
    ensures command.None? <==>
      (|| RepoNameOf(repository).None?
       || RepoNameOf(repository) == Some("")
       || UnsetBefore(env, CommandKeys(RepoNameOf(repository).value), 4))
    ensures command.Some? ==> command.value != ""
    ensures command.Some? ==>
      (exists i :: 0 <= i < 4 && UnsetBefore(env, CommandKeys(RepoNameOf(repository).value), i) &&
         EnvOrEmpty(env, CommandKeys(RepoNameOf(repository).value)[i]) == command.value)
  {
    match RepoNameOf(repository)
    case None => None
    case Some(name) =>
      if name == "" then None else FirstConfigured(env, CommandKeys(name))
  }

  /** A command under the exact spelling wins over every other spelling. */
  lemma ExactSpellingWins(repository: string, env: Env, name: string)
    requires RepoNameOf(repository) == Some(name) && name != ""
    requires EnvOrEmpty(env, CommandKey(name)) != ""
    ensures GetCommandForRepository(repository, env) == Some(env[CommandKey(name)])
  {
  }

  /** With none of the four keys set to a non-empty value, there is no command. */
  lemma NoCommandWhenKeysUnset(repository: string, env: Env, name: string)
    requires RepoNameOf(repository) == Some(name)
    requires forall v :: v in Variations(name) ==> EnvOrEmpty(env, CommandKey(v)) == ""
    ensures GetCommandForRepository(repository, env) == None
  {
  }

  /** The lookup reads the environment only at the given keys. */
  lemma FirstConfiguredReadsOnlyKeys(env1: Env, env2: Env, keys: seq<string>)
    requires forall k :: k in keys ==> EnvOrEmpty(env1, k) == EnvOrEmpty(env2, k)
    ensures FirstConfigured(env1, keys) == FirstConfigured(env2, keys)
  {
  }

  /** Two environments that agree on the four candidate keys yield the same command. */
  lemma LookupReadsOnlyCommandKeys(repository: string, env1: Env, env2: Env)
    requires RepoNameOf(repository).Some?
    requires forall v :: v in Variations(RepoNameOf(repository).value) ==>
      EnvOrEmpty(env1, CommandKey(v)) == EnvOrEmpty(env2, CommandKey(v))
    ensures GetCommandForRepository(repository, env1) == GetCommandForRepository(repository, env2)
  {
  }
}
