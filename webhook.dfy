/**
 * `handleWebhook`: the guard chain that turns a GitHub delivery into exactly
 * one HTTP reply and, for an accepted push or pull request, a deployment plan;
 * and the tail that acknowledges first, then clones or pulls, then runs the
 * configured command, swallowing any failure.
 */
module Webhook {
  import opened Wrappers
  import opened JsString
  import Config
  import Signature
  import Git

  datatype BranchRef = BranchRef(ref: string, sha: string)

  datatype PullRequest = PullRequest(
    number: int, htmlUrl: string, title: string, body: Option<string>, state: string,
    merged: Option<bool>, head: BranchRef, base: BranchRef)

  /** The parsed delivery; any field may be missing at run time. */
  datatype Payload = Payload(
    event: Option<string>, repository: Option<string>, commit: Option<string>, ref: Option<string>,
    head: Option<string>, workflow: Option<string>, requestId: Option<string>,
    action: Option<string>, pullRequest: Option<PullRequest>)

  /** JavaScript truthiness of an optional string: present and non-empty. */
  predicate Truthy(v: Option<string>) {
    v.Some? && v.value != ""
  }

  const SupportedEvents: seq<string> := ["push", "pull_request"]
  const SupportedActions: seq<string> := ["opened", "synchronize", "closed", "reopened"]

  /** A pull request action goes through when it is absent, empty or one of the supported four. */
  predicate ActionAllowed(action: Option<string>): (allowed: bool)
    ensures action.None? || action == Some("") ==> allowed
    ensures action.Some? && action.value != "" ==> (allowed <==> action.value in SupportedActions)
  {
    !Truthy(action) || action.value in SupportedActions
  }

  /** `const [owner, repo] = repository.split('/')` and the check that both are non-empty. */
  function ParseRepository(repository: string): (r: Option<(string, string)>)
    ensures r.Some? ==> r.value.0 != "" && r.value.1 != ""
    ensures r.Some? ==> '/' !in r.value.0 && '/' !in r.value.1
  {
    var parts := Split(repository, '/');
    if parts[0] == "" || |parts| < 2 || parts[1] == "" then None else Some((parts[0], parts[1]))
  }

  /** Every `owner/repo` string, with anything after a further `/`, parses to that owner and repo. */
  lemma ParseRepositoryAccepts(owner: string, repo: string, rest: string)
    requires owner != "" && repo != "" && '/' !in owner && '/' !in repo
    requires rest == "" || rest[0] == '/'
    ensures ParseRepository(owner + "/" + repo + rest) == Some((owner, repo))
  {
    SplitFirstTwo(owner, '/', repo, rest);
  }

  /** Conversely, a repository string that parses is `owner/repo`, possibly followed by `/` and more. */
  lemma {:induction false} ParseRepositoryInverts(repository: string)
    requires ParseRepository(repository).Some?
    ensures var (owner, repo) := ParseRepository(repository).value;
            && |owner| + 1 + |repo| <= |repository|
            && repository[..|owner| + 1 + |repo|] == owner + "/" + repo
            && (|repository| == |owner| + 1 + |repo| || repository[|owner| + 1 + |repo|] == '/')
  {
    var parts := Split(repository, '/');
    JoinSplit(repository, '/');
    var owner, repo := parts[0], parts[1];
    var tail := Join(parts[1..], '/');
    assert repository == owner + "/" + tail;
    if |parts| == 2 {
      assert tail == repo;
    } else {
      assert parts[1..][1..] == parts[2..];
      assert tail == repo + "/" + Join(parts[2..], '/');
      assert repository == owner + "/" + repo + "/" + Join(parts[2..], '/');
    }
  }

  /** `${owner}-${repoName}` with one trailing `.git` removed from the repo part. */
  function RepoDirName(owner: string, repo: string): (name: string)
    ensures EndsWith(repo, ".git") ==> name + ".git" == owner + "-" + repo
    ensures !EndsWith(repo, ".git") ==> name == owner + "-" + repo
  {
    owner + "-" + StripGitSuffix(repo)
  }

  /** The working copy lives at `repos/<owner>-<repoName>` under the process's directory. */
  function RepoDir(owner: string, repo: string): (dir: string)
    ensures |dir| > 6 && dir[..6] == "repos/" && dir[6..] == RepoDirName(owner, repo)
    ensures '/' !in owner && '/' !in repo ==> '/' !in dir[6..]
  {
    StripGitSuffixKeepsSeparatorFree(repo, '/');
    "repos/" + RepoDirName(owner, repo)
  }

  /** For a parsed repository the directory name is one path segment, never `.` or `..`. */
  lemma RepoDirIsChildOfRepos(repository: string)
    requires ParseRepository(repository).Some?
    ensures var (owner, repo) := ParseRepository(repository).value;
            && '/' !in RepoDirName(owner, repo)
            && RepoDirName(owner, repo) != "." && RepoDirName(owner, repo) != ".."
            && RepoDirName(owner, repo)[|owner|] == '-'
  {
    var (owner, repo) := ParseRepository(repository).value;
    StripGitSuffixKeepsSeparatorFree(repo, '/');
    var name := RepoDirName(owner, repo);
    assert name[|owner|] == '-';
  }

  /** The clone URL: SSH exactly when `USE_SSH` is "true", HTTPS otherwise; the repo part is kept verbatim. */
  function CloneUrl(owner: string, repo: string, env: Config.Env): (url: string)
    ensures Config.UseSsh(env) ==> url == "git@github.com:" + owner + "/" + repo
    ensures !Config.UseSsh(env) ==> url == "https://github.com/" + owner + "/" + repo
    ensures EndsWith(url, owner + "/" + repo)
  {
    var path := owner + "/" + repo;
    var httpsUrl := "https://github.com/" + path;
    var sshUrl := "git@github.com:" + path;
    assert httpsUrl[|httpsUrl| - |path|..] == path && sshUrl[|sshUrl| - |path|..] == path;
    if Config.UseSsh(env) then sshUrl else httpsUrl
  }

  /** What an accepted delivery sets in motion. */
  datatype Plan = Plan(owner: string, repo: string, repoDir: string, cloneUrl: string, command: Option<string>)

  function PlanFor(repository: string, owner: string, repo: string, env: Config.Env): (plan: Plan)
    ensures plan.owner == owner && plan.repo == repo
    ensures EndsWith(plan.cloneUrl, owner + "/" + repo)
    ensures |plan.repoDir| > 6 && plan.repoDir[..6] == "repos/"
    ensures plan.repoDir == "repos/" + RepoDirName(owner, repo)
    ensures Config.UseSsh(env) ==> plan.cloneUrl == "git@github.com:" + owner + "/" + repo
    ensures !Config.UseSsh(env) ==> plan.cloneUrl == "https://github.com/" + owner + "/" + repo
    ensures plan.command == Config.GetCommandForRepository(repository, env)
    ensures plan.command.Some? ==> plan.command.value != ""
    ensures plan.command.None? <==> Config.GetCommandForRepository(repository, env).None?
  {
    Plan(owner, repo, RepoDir(owner, repo), CloneUrl(owner, repo, env),
         Config.GetCommandForRepository(repository, env))
  }

  /** Why the handler's promise rejects before any reply is sent. */
  datatype HandlerError =
    | SignatureLengthMismatch   // `timingSafeEqual` threw inside `verifySignature`
    | RepositoryUndefined       // `undefined.split('/')` for a pull request without a repository

  /** How a request ends: one reply (with a plan when deployment starts), or a rejection with no reply. */
  datatype Outcome =
    | Answered(status: int, body: string, plan: Option<Plan>)
    | Threw(error: HandlerError)

  const DeploymentStarted: string := "Webhook received, deployment started"

  /** Every delivery that leads to a deployment, independently of the order of the guards. */
  predicate Deployable(p: Payload) {
    && Truthy(p.event)
    && p.repository.Some?
    && ParseRepository(p.repository.value).Some?
    && (|| p.event.value == "push"
        || (p.event.value == "pull_request" && p.pullRequest.Some? && ActionAllowed(p.action)))
  }

  /** The owner/repo check and, when it passes, the acknowledgement that starts deployment. */
  function Dispatch(repository: string, env: Config.Env): (o: Outcome)
    ensures o.Answered?
    ensures o.status == 200 <==> ParseRepository(repository).Some?
    ensures o.status != 200 ==> o == Answered(400, "Invalid repository format", None)
    ensures o.status == 200 ==> o.body == DeploymentStarted && o.plan.Some?
    ensures o.status == 200 ==>
      o.plan == Some(PlanFor(repository, ParseRepository(repository).value.0, ParseRepository(repository).value.1, env))
  {
    match ParseRepository(repository)
    case None => Answered(400, "Invalid repository format", None)
    case Some((owner, repo)) => Answered(200, DeploymentStarted, Some(PlanFor(repository, owner, repo, env)))
  }

  /** The guard chain of `handleWebhook` up to the acknowledgement. */
  function HandleWebhook(verdict: Signature.Verification, p: Payload, env: Config.Env): (o: Outcome)
    ensures o.Threw? <==>
      (|| verdict == Signature.LengthMismatch
       || (&& verdict == Signature.Verified(true) && p.event == Some("pull_request")
           && p.pullRequest.Some? && ActionAllowed(p.action) && p.repository.None?))
    ensures o.Answered? ==> o.status in {200, 400, 401}
    ensures o.Answered? && o.status == 401 <==> verdict == Signature.Verified(false)
    ensures o.Answered? && o.status == 401 ==> o.body == "Invalid signature" && o.plan.None?
    ensures o.Answered? && o.plan.Some? <==> verdict == Signature.Verified(true) && Deployable(p)
    ensures o.Answered? && o.plan.Some? ==> o.status == 200 && o.body == DeploymentStarted
    ensures o.Answered? && o.plan.Some? ==>
      var (owner, repo) := ParseRepository(p.repository.value).value;
      o.plan.value == PlanFor(p.repository.value, owner, repo, env)
    ensures o.Answered? && o.body == DeploymentStarted ==> o.plan.Some?
  {
    match verdict
    case LengthMismatch => Threw(SignatureLengthMismatch)
    case Verified(valid) =>
      if !valid then Answered(401, "Invalid signature", None)
      else if !Truthy(p.event) then Answered(400, "Invalid payload format: missing event", None)
      else if p.event.value !in SupportedEvents then Answered(200, "Event ignored", None)
      else if p.event.value == "pull_request" then
        if p.pullRequest.None? then Answered(400, "Invalid pull_request payload", None)
        else if !ActionAllowed(p.action) then
          var body := "Pull request action ignored: " + p.action.value;
          assert body[0] != DeploymentStarted[0];
          Answered(200, body, None)
        else if p.repository.None? then Threw(RepositoryUndefined)
        else Dispatch(p.repository.value, env)
      else
        if !Truthy(p.repository) then Answered(400, "Invalid payload format: missing repository", None)
        else Dispatch(p.repository.value, env)
  }

  /** Validation failures of a verified delivery, one per guard, in the order the guards run. */
  lemma GuardReplies(p: Payload, env: Config.Env)
    ensures !Truthy(p.event) ==>
      HandleWebhook(Signature.Verified(true), p, env) == Answered(400, "Invalid payload format: missing event", None)
    ensures Truthy(p.event) && p.event.value !in SupportedEvents ==>
      HandleWebhook(Signature.Verified(true), p, env) == Answered(200, "Event ignored", None)
    ensures p.event == Some("pull_request") && p.pullRequest.None? ==>
      HandleWebhook(Signature.Verified(true), p, env) == Answered(400, "Invalid pull_request payload", None)
    ensures p.event == Some("pull_request") && p.pullRequest.Some? && !ActionAllowed(p.action) ==>
      HandleWebhook(Signature.Verified(true), p, env) ==
        Answered(200, "Pull request action ignored: " + p.action.value, None)
    ensures p.event == Some("push") && !Truthy(p.repository) ==>
      HandleWebhook(Signature.Verified(true), p, env) ==
        Answered(400, "Invalid payload format: missing repository", None)
    ensures Truthy(p.event) && p.event.value in SupportedEvents && p.repository.Some?
            && ParseRepository(p.repository.value).None? && (p.event.value == "push" ==> p.repository.value != "")
            && (p.event.value == "pull_request" ==> p.pullRequest.Some? && ActionAllowed(p.action)) ==>
      HandleWebhook(Signature.Verified(true), p, env) == Answered(400, "Invalid repository format", None)
  {
  }

  /** The environment decides only the clone URL and the command, never the reply. */
  lemma ReplyIgnoresEnvironment(verdict: Signature.Verification, p: Payload, env1: Config.Env, env2: Config.Env)
    ensures var o1, o2 := HandleWebhook(verdict, p, env1), HandleWebhook(verdict, p, env2);
            && o1.Threw? == o2.Threw?
            && (o1.Answered? ==> o1.status == o2.status && o1.body == o2.body && o1.plan.Some? == o2.plan.Some?)
            && (o1.Answered? && o1.plan.Some? ==>
                  o1.plan.value.repoDir == o2.plan.value.repoDir && o1.plan.value.owner == o2.plan.value.owner)
  {
  }

  /** With a verifier that never throws, only a pull request without a repository leaves the request unanswered. */
  lemma IntendedVerifierAlwaysReplies(payload: string, signature: Option<string>, p: Payload, env: Config.Env,
                                      hmac: Signature.HexHmac, encode: Signature.Encoder)
    requires p.event != Some("pull_request") || p.repository.Some?
    ensures HandleWebhook(Signature.Verified(Signature.VerifySignatureIntended(payload, signature, env, hmac, encode)), p, env).Answered?
  {
  }

  /** `owner/repo.git` parses to `owner` and `repo.git`, and its name part is `repo`. */
  lemma GitSuffixedRepositoryParses(owner: string, repo: string)
    requires owner != "" && repo != "" && '/' !in owner && '/' !in repo
    ensures ParseRepository(owner + "/" + repo + ".git") == Some((owner, repo + ".git"))
    ensures Config.RepoNameOf(owner + "/" + repo + ".git") == Some(repo)
  {
    var full := repo + ".git";
    assert '/' !in full by {
      assert forall i :: 0 <= i < |full| ==> full[i] == (if i < |repo| then repo[i] else ".git"[i - |repo|]);
    }
    assert owner + "/" + full + "" == owner + "/" + repo + ".git";
    ParseRepositoryAccepts(owner, full, "");
    Config.RepoNameOfSecondSegment(owner, full, "");
    assert EndsWith(full, ".git") && full[..|full| - 4] == repo;
  }

  /**
   * A push of `owner/repo.git` over SSH with a command under the exact key:
   * the URL keeps `.git`, the directory drops it, and the command is found.
   */
  lemma PushOverSshScenario(owner: string, repo: string, command: string)
    requires owner != "" && repo != "" && '/' !in owner && '/' !in repo
    requires command != ""
    ensures var p := Payload(Some("push"), Some(owner + "/" + repo + ".git"), None, None, None, None, None, None, None);
            var env := map["USE_SSH" := "true", Config.CommandKey(repo) := command];
            HandleWebhook(Signature.Verified(true), p, env) ==
              Answered(200, DeploymentStarted,
                       Some(Plan(owner, repo + ".git", "repos/" + owner + "-" + repo,
                                 "git@github.com:" + owner + "/" + repo + ".git", Some(command))))
  {
    var repository := owner + "/" + repo + ".git";
    var env := map["USE_SSH" := "true", Config.CommandKey(repo) := command];
    var p := Payload(Some("push"), Some(repository), None, None, None, None, None, None, None);
    GitSuffixedRepositoryParses(owner, repo);
    PushReply(p, repository, env);
    var plan := PlanFor(repository, owner, repo + ".git", env);
    assert plan.command == Some(command) by {
      assert |Config.CommandKey(repo)| > |"USE_SSH"|;
      Config.ExactSpellingWins(repository, env, repo);
    }
    assert plan.repoDir == "repos/" + owner + "-" + repo by {
      assert StripGitSuffix(repo + ".git") == repo;
    }
    assert plan.cloneUrl == "git@github.com:" + owner + "/" + repo + ".git" by {
      assert Config.UseSsh(env);
    }
  }

  /** A verified push whose repository parses is acknowledged with the plan for that repository. */
  lemma PushReply(p: Payload, repository: string, env: Config.Env)
    requires p.event == Some("push") && p.repository == Some(repository)
    requires ParseRepository(repository).Some?
    ensures var (owner, repo) := ParseRepository(repository).value;
            HandleWebhook(Signature.Verified(true), p, env) ==
              Answered(200, DeploymentStarted, Some(PlanFor(repository, owner, repo, env)))
  {
    assert Deployable(p);
  }

  /** One thing the request is observed to do, in order. */
  datatype TraceStep =
    | Responded(status: int, body: string)
    | Synced(url: string, dir: string, ok: bool)
    | Deployed(command: string, dir: string, ok: bool)

  /** The work after the acknowledgement: the sync, then the command only if the sync succeeded and there is one. */
  function DeploymentSteps(plan: Plan, gitOk: bool, deployOk: bool): (steps: seq<TraceStep>)
    ensures 1 <= |steps| <= 2 && steps[0] == Synced(plan.cloneUrl, plan.repoDir, gitOk)
    ensures |steps| == 2 <==> gitOk && plan.command.Some?
    ensures |steps| == 2 ==> steps[1] == Deployed(plan.command.value, plan.repoDir, deployOk)
  {
    [Synced(plan.cloneUrl, plan.repoDir, gitOk)]
      + (if gitOk && plan.command.Some? then [Deployed(plan.command.value, plan.repoDir, deployOk)] else [])
  }

  /** Everything a request does, given how the sync and the command turn out. */
  function RequestTrace(o: Outcome, gitOk: bool, deployOk: bool): (trace: seq<TraceStep>)
    ensures trace == [] <==> o.Threw?
    ensures o.Answered? ==> trace[0] == Responded(o.status, o.body)
    ensures forall i :: 1 <= i < |trace| ==> !trace[i].Responded?
    ensures o.Answered? && o.plan.None? ==> |trace| == 1
    ensures o.Answered? && o.plan.Some? ==>
      |trace| >= 2 && trace[1] == Synced(o.plan.value.cloneUrl, o.plan.value.repoDir, gitOk)
    ensures o.Answered? && o.plan.Some? && gitOk && o.plan.value.command.Some? ==>
      |trace| == 3 && trace[2] == Deployed(o.plan.value.command.value, o.plan.value.repoDir, deployOk)
    ensures o.Answered? && o.plan.Some? && !(gitOk && o.plan.value.command.Some?) ==> |trace| == 2
    ensures forall i :: 0 <= i < |trace| && trace[i].Deployed? ==>
      && i == 2 && trace[1].Synced? && trace[1].ok
      && o.Answered? && o.plan.Some? && o.plan.value.command == Some(trace[i].command)
  {
    match o
    case Threw(_) => []
    case Answered(status, body, plan) =>
      [Responded(status, body)] + (if plan.Some? then DeploymentSteps(plan.value, gitOk, deployOk) else [])
  }

  /** Failures after the acknowledgement never change the reply already sent. */
  lemma ReplyIndependentOfDeployment(o: Outcome, gitOk1: bool, deployOk1: bool, gitOk2: bool, deployOk2: bool)
    requires o.Answered?
    ensures RequestTrace(o, gitOk1, deployOk1)[0] == RequestTrace(o, gitOk2, deployOk2)[0]
  {
  }

  /** An invalid signature gets its 401 and nothing else happens. */
  lemma InvalidSignatureDoesNothingElse(p: Payload, env: Config.Env, gitOk: bool, deployOk: bool)
    ensures RequestTrace(HandleWebhook(Signature.Verified(false), p, env), gitOk, deployOk) ==
      [Responded(401, "Invalid signature")]
  {
  }

  /**
   * The `try` block after the acknowledgement: clone or pull, then the command
   * if the sync succeeded and there is one; a failure is caught and only logged.
   */
  method Deploy(machine: Git.Machine, plan: Plan, env: Config.Env, gitOk: bool, deployOk: bool)
    returns (steps: seq<TraceStep>)
    modifies machine
    ensures steps == DeploymentSteps(plan, gitOk, deployOk)
    ensures machine.steps == old(machine.steps) + Git.SyncSteps(old(machine.paths), plan.cloneUrl, plan.repoDir, env)
    ensures machine.paths == Git.PathsAfterSync(old(machine.paths), plan.cloneUrl, plan.repoDir, env, gitOk)
  {
    var synced := machine.CloneOrPullRepository(plan.cloneUrl, plan.repoDir, env, gitOk);
    steps := [Synced(plan.cloneUrl, plan.repoDir, synced.Resolved?)];
    if synced.Resolved? && plan.command.Some? {
      steps := steps + [Deployed(plan.command.value, plan.repoDir, deployOk)];
    }
  }

  /**
   * `handleWebhook` end to end on a machine: decide, reply, then deploy.
   * `gitOk` and `deployOk` are how the network operation and the child process turn out.
   */
  method HandleRequest(machine: Git.Machine, verdict: Signature.Verification, p: Payload, env: Config.Env,
                       gitOk: bool, deployOk: bool)
    returns (trace: seq<TraceStep>)
    modifies machine
    ensures trace == RequestTrace(HandleWebhook(verdict, p, env), gitOk, deployOk)
    ensures var o := HandleWebhook(verdict, p, env);
            o.Threw? || o.plan.None? ==> machine.paths == old(machine.paths) && machine.steps == old(machine.steps)
    ensures var o := HandleWebhook(verdict, p, env);
            o.Answered? && o.plan.Some? ==>
              && machine.steps == old(machine.steps) +
                   Git.SyncSteps(old(machine.paths), o.plan.value.cloneUrl, o.plan.value.repoDir, env)
              && machine.paths ==
                   Git.PathsAfterSync(old(machine.paths), o.plan.value.cloneUrl, o.plan.value.repoDir, env, gitOk)
  {
    var o := HandleWebhook(verdict, p, env);
    match o
    case Threw(_) =>
      trace := [];
    case Answered(status, body, plan) =>
      trace := [Responded(status, body)];
      if plan.Some? {
        var steps := Deploy(machine, plan.value, env, gitOk, deployOk);
        trace := trace + steps;
      }
  }
}
