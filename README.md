# GitHub webhook receiver — Dafny model

This project models the request-handling core of a small GitHub webhook
receiver written in TypeScript. A delivery arrives with an
`X-Hub-Signature-256` header. The receiver then works in this order:

1. It checks the signature against `WEBHOOK_SECRET`.
2. It accepts only `push` events and `pull_request` events whose action is absent, empty or one of four actions.
3. It parses `owner/repo` from the payload.
4. It sends one HTTP reply, unless the handler throws first (see below).
5. For an accepted delivery, after replying, it clones the repository into `repos/<owner>-<repo>`, or pulls it there.
6. It runs the deploy command set in the environment under `REPO_<name>_COMMAND`, if there is one.

Failures after the reply are caught and only logged.

Modules, one per source file:

- `Webhook` (`src/controllers/webhook.ts`): the guard chain is the pure function `HandleWebhook`. It maps a signature verdict, a payload and the environment to an `Outcome`:
  - either one reply (status, body and an optional deployment `Plan`),
  - or a rejection of the handler's promise before it sends a reply (`Threw`).

  The tail is imperative: `Deploy` and `HandleRequest` return an ordered trace of steps (reply, sync, deploy); the `Git.Machine` records the directories made and the git operations issued.
- `Config` (`src/config.ts`): environment-derived settings (`WEBHOOK_SECRET`, `USE_SSH`, `SSH_PRIVATE_KEY_PATH`). Also `GetCommandForRepository`, a first-match search over four spellings of the repository name.
- `Git` (`src/utils/git.ts`): the class `Machine` holds a filesystem (a set of existing paths) and a log of the directories made and git operations issued. `CloneOrPullRepository` is proved against the specification functions `SyncSteps`, `PathsAfterSync` and `SyncResult`.
- `Signature` (`src/utils/webhook.ts`): `VerifySignature`'s guards and its comparison, with `crypto.timingSafeEqual` as `TimingSafeEqual`. Two things are uninterpreted function parameters:
  - the HMAC-SHA256 hex digest (RFC 2104 over SHA-256 from FIPS 180-4),
  - the UTF-8 encoding done by `Buffer.from`.
- `JsString`: the JavaScript string operations the code uses: `split('/')`, `replace(/\.git$/, '')`, `replace(/-/g, '_')` and ASCII `toUpperCase`. Each is a function with its laws, for example that `Split` and `Join` are inverse.
- `Wrappers`: `Option` (for `undefined`) and `Settled` (a settled promise: resolved or rejected).

Behaviour worth knowing, all modelled as the code does it:

- `crypto.timingSafeEqual` throws when the two buffers differ in length. A signature of the wrong length therefore does not yield `false`. `verifySignature` throws, and the async handler rejects before sending its 401 (`Signature.LengthMismatch`, `Webhook.Threw`). Whether the client then gets any reply depends on Express: version 4 leaves the rejection unhandled, version 5 answers 500. See Findings.
- A `pull_request` delivery with PR data, an allowed action and no `repository` field reaches `undefined.split('/')`. That throws a TypeError, so the handler rejects before sending any reply of its own (`Threw(RepositoryUndefined)`).
- A `pull_request` with an empty repository string is rejected only by the owner/repo parse, with 400 "Invalid repository format".
- The clone URL keeps the repo segment verbatim, including `.git`. The directory name drops one trailing `.git`. Segments after the second `/` are ignored.

## Model

| member | source | states |
|---|---|---|
| Webhook.HandleWebhook | src/controllers/webhook.ts:12-96 | A 401 reply comes exactly when the signature is invalid; its body is "Invalid signature" and it starts nothing. The handler rejects before sending a reply exactly on a length-mismatch signature or on a verified pull request that has PR data and an allowed action but no repository field. A deployment plan comes exactly for a verified, `Deployable` delivery, always with 200 "Webhook received, deployment started", and only then. Every reply is 200, 400 or 401. The plan is the one derived from the parsed owner and repo. |
| Webhook.GuardReplies | src/controllers/webhook.ts:26-80 | Each guard's reply for a verified delivery: a missing or empty event gives 400; an unsupported event gives 200 "Event ignored"; a PR with no PR data gives 400; a disallowed PR action gives 200 "Pull request action ignored: <action>"; a push with a missing or empty repository gives 400; an unparseable repository gives 400 "Invalid repository format". |
| Webhook.ParseRepository | src/controllers/webhook.ts:75-80 | An accepted repository yields non-empty owner and repo parts without `/`. |
| Webhook.ParseRepositoryAccepts | src/controllers/webhook.ts:75-80 | Every `owner/repo` followed by nothing or by `/…` parses to exactly that owner and repo; later segments are ignored. |
| Webhook.ParseRepositoryInverts | src/controllers/webhook.ts:75-80 | Conversely, a repository string that parses starts with `owner/repo`, followed by its end or by `/`. |
| Webhook.ActionAllowed | src/controllers/webhook.ts:52-53 | An absent or empty action is allowed; a non-empty action is allowed exactly when it is opened, synchronize, closed or reopened. |
| Webhook.Dispatch | src/controllers/webhook.ts:75-96 | The reply is 200 "Webhook received, deployment started" exactly when owner and repo parse, and its plan is then the one derived from the parsed owner and repo. Otherwise the reply is 400 "Invalid repository format" with no plan. |
| Webhook.PlanFor | src/controllers/webhook.ts:82-104 | The plan keeps owner and repo. Its directory is `repos/<owner>-<repoName>`. Its clone URL is the SSH URL when `USE_SSH` is "true" and the HTTPS URL otherwise, both ending in `owner/repo`. Its command is exactly the value the lookup returns, present and non-empty only when the lookup finds one. |
| Webhook.PushReply | src/controllers/webhook.ts:60-96 | A verified push whose repository parses is acknowledged with 200 and the plan for that repository. |
| Webhook.RepoDirName | src/controllers/webhook.ts:83 | The directory name is `<owner>-<repo>` with one trailing `.git` of the repo part removed, and unchanged otherwise. |
| Webhook.RepoDir | src/controllers/webhook.ts:100 | The directory is `repos/` followed by the directory name, and for `/`-free owner and repo that name has no `/`. |
| Webhook.RepoDirIsChildOfRepos | src/controllers/webhook.ts:83-100 | The directory name `<owner>-<repoName>` is one path segment, never `.` or `..`, so the working copy is a direct child of `repos/`. |
| Webhook.CloneUrl | src/controllers/webhook.ts:84-104 | The URL is `git@github.com:owner/repo` exactly when `USE_SSH` is "true", and `https://github.com/owner/repo` otherwise. |
| Webhook.GitSuffixedRepositoryParses | src/controllers/webhook.ts:75-83 | `owner/repo.git` parses to repo `repo.git` and its lookup name is `repo`. |
| Webhook.PushOverSshScenario | src/controllers/webhook.ts:60-104 | A push of `owner/repo.git` with `USE_SSH=true` and a command under `REPO_repo_COMMAND` gets 200. Its plan clones `git@github.com:owner/repo.git` into `repos/owner-repo` and runs that command. |
| Webhook.ReplyIgnoresEnvironment | src/controllers/webhook.ts:82-96 | For a fixed signature verdict, the environment never changes the reply or whether deployment starts; it only decides the clone URL and the command. (`WEBHOOK_SECRET` affects the reply only through the verdict.) |
| Webhook.IntendedVerifierAlwaysReplies | src/controllers/webhook.ts:19-23 | With the corrected verifier, every delivery except a pull request without a repository gets a reply. |
| Webhook.DeploymentSteps | src/controllers/webhook.ts:98-118 | After the reply: first the clone or pull, then the command, which runs only if the sync succeeded and a command was found, in the repository directory. |
| Webhook.RequestTrace | src/controllers/webhook.ts:19-118 | A rejected handler does nothing. Otherwise the reply is the first step and no other step is a reply. A delivery without a plan does only the reply. A delivery with a plan syncs from the plan's URL into the plan's directory as its second step. A successful sync with a command is followed by exactly one deploy step that runs the plan's command in the plan's directory; without both there is no third step. A deploy step is always third, after a successful sync. |
| Webhook.ReplyIndependentOfDeployment | src/controllers/webhook.ts:96-118 | A failure of the sync or of the command never changes the reply already sent. |
| Webhook.InvalidSignatureDoesNothingElse | src/controllers/webhook.ts:19-23 | An invalid signature yields exactly one step: the 401 reply. |
| Webhook.Deploy | src/controllers/webhook.ts:98-118 | The `try` block returns exactly `DeploymentSteps`; the machine's log grows by exactly one sync's steps, and its paths become `PathsAfterSync`. |
| Webhook.HandleRequest | src/controllers/webhook.ts:12-119 | The whole handler produces `RequestTrace` of its outcome. The machine is untouched unless a plan exists; with a plan it is changed by exactly one sync into the plan's directory from the plan's URL. |
| Config.WebhookSecret | src/config.ts:8 | The secret is non-empty exactly when `WEBHOOK_SECRET` is set to a non-empty value, and it is then that value. |
| Config.RepoNameOf | src/config.ts:21 | There is a name part exactly when the repository contains a `/`; that name contains no `/`. |
| Config.RepoNameOfSecondSegment | src/config.ts:21 | For `owner/repo` followed by nothing or by `/…` (owner possibly empty), the name part is `repo` with one trailing `.git` removed. |
| Config.UseSsh | src/config.ts:9 | SSH is on exactly when `USE_SSH` reads as the string "true"; any other value or an unset key leaves it off. |
| Config.SshPrivateKeyPath | src/config.ts:12 | The key path is non-empty exactly when `SSH_PRIVATE_KEY_PATH` is set to a non-empty value, and is then that value. |
| Config.Variations | src/config.ts:32-37 | Four spellings, the first the name as given, all of its length. The second and fourth have no lower-case ASCII letter, the third and fourth no `-`. Characters that are neither lower-case letters nor `-` are the same in all four. Character by character, the second is the name upper-cased, the third is the name with each `-` as `_`, and the fourth is the third upper-cased. |
| Config.CommandKeys | src/config.ts:32-40 | The four keys, in spelling order, each `REPO_` + spelling + `_COMMAND`. |
| Config.CommandKey | src/config.ts:40 | The key is `REPO_`, then the spelling, then `_COMMAND`. |
| Config.FirstConfigured | src/config.ts:39-47 | The result is the value of the first key whose value is non-empty. Every earlier key is unset or empty. There is no result exactly when every key is unset or empty. |
| Config.GetCommandForRepository | src/config.ts:19-48 | There is no command exactly when the repository has no second segment, the name is empty after removing `.git`, or none of the four keys is set. A command is never empty and is the value of the first key, in spelling order, with a non-empty value. |
| Config.ExactSpellingWins | src/config.ts:32-44 | A command under the exact spelling is returned whatever the other three keys hold. |
| Config.NoCommandWhenKeysUnset | src/config.ts:39-47 | With none of the four spellings' keys set to a non-empty value, there is no command. |
| Config.FirstConfiguredReadsOnlyKeys | src/config.ts:39-45 | The first-match search depends only on the values at the candidate keys. |
| Config.LookupReadsOnlyCommandKeys | src/config.ts:32-45 | Two environments that agree on the four `REPO_<spelling>_COMMAND` keys yield the same command. |
| JsString.JoinSplit | src/controllers/webhook.ts:75 | Joining the pieces of `split('/')` with `/` gives back the string. |
| JsString.SplitJoin | src/config.ts:21 | Splitting a `/`-join of `/`-free pieces gives back the pieces; with JoinSplit, `split` is the inverse of `join`. |
| JsString.Split | src/controllers/webhook.ts:75 | `split` always yields at least one piece, no piece contains the separator, and there is exactly one piece when the string has no separator. |
| JsString.SplitFirstTwo | src/controllers/webhook.ts:75 | The first two pieces of `a/b` followed by nothing or by `/…`, with `a` and `b` free of `/`, are `a` and `b`. |
| JsString.StripGitSuffix | src/controllers/webhook.ts:83 | A string ending in `.git` loses exactly that suffix; any other string is unchanged. |
| JsString.StripGitSuffixOnce | src/config.ts:21 | The end-anchored pattern removes only one suffix: `name.git.git` becomes `name.git`. |
| JsString.ToUpperCase | src/config.ts:34 | Upper-casing keeps the length, leaves no lower-case ASCII letter, and changes only lower-case letters. |
| JsString.DashesToUnderscores | src/config.ts:35 | The result has the same length and no `-`. Every `-` becomes `_` and every other character is kept. |
| Git.GitDir | src/utils/git.ts:35 | The marker is the directory followed by exactly `/.git`. |
| Git.SshCommand | src/utils/git.ts:14 | The command is exactly `ssh -i `, the key path, then ` -o StrictHostKeyChecking=no`. |
| Git.SetupGit | src/utils/git.ts:9-18 | `GIT_SSH_COMMAND` is set exactly when the key path is non-empty and that file exists. It is then `ssh -i <path> -o StrictHostKeyChecking=no`, and nothing else is set. |
| Git.GitOperation | src/utils/git.ts:35-43 | Exactly one git operation: a pull in the target directory exactly when `<dir>/.git` exists, otherwise a clone of the URL into it. It carries `setupGit`'s environment. |
| Git.SyncSteps | src/utils/git.ts:26-43 | A sync is one git operation, preceded by making the directory exactly when it was missing. |
| Git.PathsAfterSync | src/utils/git.ts:29-43 | After a sync the target directory exists, even if git failed. Nothing is removed, and nothing besides the directory and its `.git` is added. The `.git` marker exists afterwards exactly when it existed before or the git operation succeeded. |
| Git.SyncResult | src/utils/git.ts:44-47 | The sync fails exactly when the git operation fails, and the failure carries that operation; it is re-thrown, not swallowed. |
| Git.SyncAfterSuccessPulls | src/utils/git.ts:35-43 | After a successful sync, the next sync of that directory is a single pull and creates nothing. |
| Git.FailedCloneIsRetriedAsClone | src/utils/git.ts:29-43 | A failed clone leaves no `.git`, so the next sync clones again, without making the directory again. |
| Git.Machine.CloneOrPullRepository | src/utils/git.ts:26-48 | The log grows by exactly `SyncSteps`, the paths become `PathsAfterSync`, and the result is `SyncResult`, all computed from the state before the call. |
| Git.SyncTwice | src/utils/git.ts:26-48 | Two successful syncs into a missing directory with no SSH key give one mkdir, one clone and then one pull, never two clones. |
| Signature.ExpectedSignature | src/utils/webhook.ts:21-22 | The expected header value is `sha256=` followed by exactly the hex HMAC of the payload under the secret. |
| Signature.TimingSafeEqual | src/utils/webhook.ts:24-27 | Unequal lengths throw. Equal lengths give true exactly when the bytes are equal. |
| Signature.VerifySignature | src/utils/webhook.ts:9-28 | A missing or empty signature gives false whatever the environment. An unset or empty secret gives false. True exactly when the encoded signature equals the encoded expected value. It throws exactly when both are present and the encodings differ in length. |
| Signature.AcceptsExactlyTheExpectedSignature | src/utils/webhook.ts:15-27 | Under an injective encoding, a signature is accepted exactly when the secret is set and the header equals `sha256=` followed by the hex HMAC of the payload. |
| Signature.VerifySignatureIntended | src/utils/webhook.ts:7-28 | The corrected verifier always returns a boolean. It agrees with `verifySignature` wherever that one returns, and gives false wherever that one throws. |
| Signature.ShortSignatureThrows | src/utils/webhook.ts:24-27 | With the secret set and the header `sha256=abc`, `verifySignature` throws where the corrected verifier returns false. |

## Left out

- Logging (`console.*`) and the `PORT` parse are not modelled: they have no effect on any outcome.
- How the request bytes reach the handler is not modelled. `handleWebhook` passes `req.body`, not the captured raw body, to `verifySignature`; no middleware fills `req.body`, since the entry point installs no body parser. The model takes the signature verdict and the parsed payload as inputs.
- HMAC-SHA256, hex encoding and UTF-8 encoding are uninterpreted function parameters. A change in the payload changes the accepted signature only as far as the HMAC does; collision resistance is not modelled.
- `toUpperCase` is modelled on ASCII only. Unicode case mapping, which can change a string's length, is not modelled.
- The absolute prefix from `process.cwd()` and the normalisation done by `path.join` are not modelled. Working directories are written relative to the process directory as `repos/<owner>-<repoName>`, and the marker as `<dir>/.git`.
- Git.Machine.CloneOrPullRepository: `mkdirSync` is assumed to succeed, and it adds only the target directory, not its missing parents. Failures of `mkdirSync` and `existsSync` are not modelled.
- simple-git's network behaviour is reduced to a success flag (`remoteOk`, `gitOk`). What a pull changes in the files is not modelled.
- `executeDeployment` (`src/utils/deployment.ts`) is one abstract step with a success flag. It runs one command string in the repository directory through the shell, and its output is only logged.
- `SSH_KEY_PASSPHRASE` is imported by the git helper but never used, so it is not modelled.
- Concurrency between overlapping requests is not modelled. The code has no locking.
- The monitoring endpoint, Express wiring, the `/health` routes, the process-manager config and the Express type augmentation carry no logic of this core.
- The payload's catch-all index signature and its informational fields are not modelled, apart from being carried in `Payload`. `ref` is only logged.

## Findings

| source | as written | input that shows it | evidently intended | confidence | as-written member | corrected member |
|---|---|---|---|---|---|---|
| src/utils/webhook.ts:24-27 | `crypto.timingSafeEqual` throws a RangeError when the expected and given signatures differ in byte length. `verifySignature` then throws instead of returning false, and the async handler rejects before sending its 401. | `WEBHOOK_SECRET=s3cret`, header `sha256=abc` | return false, as the doc comment at line 7 says, so the request gets 401 "Invalid signature" | high; not executed | Signature.ShortSignatureThrows | Signature.VerifySignatureIntended |
