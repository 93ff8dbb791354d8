/**
 * `setupGit` and `cloneOrPullRepository`: keep a working copy of a remote
 * repository in a directory. The filesystem is a set of existing paths; the
 * outcome of each network git operation is an input.
 */
module Git {
  import opened Wrappers
  import Config

  /** One change to the machine: a directory made, or a git operation issued with its environment. */
  datatype Step =
    | MakeDir(path: string)
    | Clone(url: string, dir: string, gitEnv: map<string, string>)
    | Pull(dir: string, gitEnv: map<string, string>)
  {
    predicate IsGitOperation() { Clone? || Pull? }
  }

  /** The error a failed git operation rejects with; it is re-thrown to the caller. */
  datatype GitError = GitFailed(operation: Step)

  /** `path.join(targetDir, '.git')`: the marker of an existing working copy. */
  function GitDir(targetDir: string): (marker: string)
    ensures |marker| == |targetDir| + 5 && marker[..|targetDir|] == targetDir
    ensures marker[|targetDir|..] == "/.git"
  {
    targetDir + "/.git"
  }

  /** The `GIT_SSH_COMMAND` that points ssh at a key file. */
  function SshCommand(keyPath: string): (command: string)
    ensures |command| == 7 + |keyPath| + 28
    ensures command[..7] == "ssh -i " && command[7..7 + |keyPath|] == keyPath
    ensures command[7 + |keyPath|..] == " -o StrictHostKeyChecking=no"
  {
    "ssh -i " + keyPath + " -o StrictHostKeyChecking=no"
  }

  /**
   * `setupGit`: the environment of the git instance. `GIT_SSH_COMMAND` is set
   * only when a key path is configured and that file exists; the passphrase is not used.
   */
  function SetupGit(env: Config.Env, paths: set<string>): (gitEnv: map<string, string>)
    ensures gitEnv.Keys <= {"GIT_SSH_COMMAND"}
    ensures "GIT_SSH_COMMAND" in gitEnv <==>
      Config.SshPrivateKeyPath(env) != "" && Config.SshPrivateKeyPath(env) in paths
    ensures "GIT_SSH_COMMAND" in gitEnv ==>
      gitEnv["GIT_SSH_COMMAND"] == SshCommand(Config.SshPrivateKeyPath(env))
  {
    var keyPath := Config.SshPrivateKeyPath(env);
    if keyPath != "" && keyPath in paths then map["GIT_SSH_COMMAND" := SshCommand(keyPath)] else map[]
  }

  /** The single git operation a sync issues: pull in place when the marker exists, clone otherwise. */
  function GitOperation(paths: set<string>, repoUrl: string, targetDir: string, env: Config.Env): (op: Step)
    ensures op.IsGitOperation()
    ensures op.Pull? <==> GitDir(targetDir) in paths
    ensures op.Pull? ==> op.dir == targetDir
    ensures op.Clone? ==> op.url == repoUrl && op.dir == targetDir
    ensures op.gitEnv == SetupGit(env, paths)
  {
    var gitEnv := SetupGit(env, paths);
    if GitDir(targetDir) in paths then Pull(targetDir, gitEnv) else Clone(repoUrl, targetDir, gitEnv)
  }

  /** Everything one sync does, in order. */
  function SyncSteps(paths: set<string>, repoUrl: string, targetDir: string, env: Config.Env): (steps: seq<Step>)
    ensures |steps| == (if targetDir in paths then 1 else 2)
    ensures steps[|steps| - 1] == GitOperation(paths, repoUrl, targetDir, env)
    ensures forall i :: 0 <= i < |steps| - 1 ==> steps[i] == MakeDir(targetDir)
  {
    (if targetDir in paths then [] else [MakeDir(targetDir)]) + [GitOperation(paths, repoUrl, targetDir, env)]
  }

  /** The paths that exist after a sync whose git operation succeeded (`remoteOk`) or failed. */
  function PathsAfterSync(paths: set<string>, repoUrl: string, targetDir: string, env: Config.Env,
                          remoteOk: bool): (after: set<string>)
    ensures paths <= after && after - paths <= {targetDir, GitDir(targetDir)}
    ensures targetDir in after
    ensures GitDir(targetDir) in after <==> GitDir(targetDir) in paths || remoteOk
  {
    var op := GitOperation(paths, repoUrl, targetDir, env);
    paths + {targetDir} + (if op.Clone? && remoteOk then {GitDir(targetDir)} else {})
  }

  /** A sync's settled state: resolved, or rejected with the failed operation. */
  function SyncResult(paths: set<string>, repoUrl: string, targetDir: string, env: Config.Env,
                      remoteOk: bool): (r: Settled<GitError>)
    ensures r.Rejected? <==> !remoteOk
    ensures r.Rejected? ==> r.error.operation == GitOperation(paths, repoUrl, targetDir, env)
  {
    if remoteOk then Resolved else Rejected(GitFailed(GitOperation(paths, repoUrl, targetDir, env)))
  }

  /** Once a sync has succeeded, the next sync of that directory pulls and creates nothing. */
  lemma SyncAfterSuccessPulls(paths: set<string>, repoUrl: string, targetDir: string, env: Config.Env,
                              laterUrl: string, laterEnv: Config.Env)
    ensures var after := PathsAfterSync(paths, repoUrl, targetDir, env, true);
            && SyncSteps(after, laterUrl, targetDir, laterEnv) == [Pull(targetDir, SetupGit(laterEnv, after))]
            && PathsAfterSync(after, laterUrl, targetDir, laterEnv, true) == after
  {
  }

  /** A failed clone leaves the directory without a marker, so the next sync clones again. */
  lemma FailedCloneIsRetriedAsClone(paths: set<string>, repoUrl: string, targetDir: string, env: Config.Env)
    requires GitDir(targetDir) !in paths
    ensures var after := PathsAfterSync(paths, repoUrl, targetDir, env, false);
            SyncSteps(after, repoUrl, targetDir, env) == [Clone(repoUrl, targetDir, SetupGit(env, after))]
  {
  }

  /** The machine a webhook receiver runs on: the paths that exist and what was done to them. */
  class Machine {
    var paths: set<string>
    var steps: seq<Step>

    constructor (existing: set<string>)
      ensures paths == existing && steps == []
    {
      paths := existing;
      steps := [];
    }

    /**
     * `cloneOrPullRepository`: create the directory if it is missing, then
     * issue exactly one git operation, and pass its failure on.
     */
    method CloneOrPullRepository(repoUrl: string, targetDir: string, env: Config.Env, remoteOk: bool)
      returns (r: Settled<GitError>)
      modifies this
      ensures steps == old(steps) + SyncSteps(old(paths), repoUrl, targetDir, env)
      ensures paths == PathsAfterSync(old(paths), repoUrl, targetDir, env, remoteOk)
      ensures r == SyncResult(old(paths), repoUrl, targetDir, env, remoteOk)
    {
      var gitEnv := SetupGit(env, paths);
      if targetDir !in paths {
        paths := paths + {targetDir};
        steps := steps + [MakeDir(targetDir)];
      }
      var op;
      if GitDir(targetDir) in paths {
        op := Pull(targetDir, gitEnv);
      } else {
        op := Clone(repoUrl, targetDir, gitEnv);
      }
      steps := steps + [op];
      if !remoteOk {
        return Rejected(GitFailed(op));
      }
      if op.Clone? {
        paths := paths + {GitDir(targetDir)};
      }
      r := Resolved;
    }
  }

  /** Two successful syncs into a directory that does not exist, with no SSH key: one mkdir, one clone, then one pull. */
  method SyncTwice(repoUrl: string, targetDir: string, env: Config.Env) returns (steps: seq<Step>)
    requires Config.SshPrivateKeyPath(env) == ""
    ensures steps == [MakeDir(targetDir), Clone(repoUrl, targetDir, map[]), Pull(targetDir, map[])]
  {
    var machine := new Machine({});
    var first := machine.CloneOrPullRepository(repoUrl, targetDir, env, true);
    var second := machine.CloneOrPullRepository(repoUrl, targetDir, env, true);
    steps := machine.steps;
  }
}
