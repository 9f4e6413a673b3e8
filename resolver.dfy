/** The build-request resolver of `process_data`: from a relevant event, the
    pull request's details and the CI provider's answer, decide whether to
    trigger a build and which comment to post. The two HTTP calls it makes
    (fetching the pull request, triggering the build) are inputs here; the
    comment it would post is part of the outcome. */
module Resolver {
  import opened Strings
  import opened Config
  import opened Events
  import opened Responder

  /** The fields of the pull request JSON that are read: `head.repo.clone_url`,
      `head.ref`, `base.repo.name` and `base.ref`. */
  datatype PullRequestInfo = PullRequestInfo(
    headCloneUrl: string,
    headRef: string,
    baseRepoName: string,
    baseRef: string)

  /** The CI provider's answer to the trigger request. */
  datatype TriggerResponse = TriggerResponse(status: int, reason: string)

  /** What one run of `process_data` does. */
  datatype Outcome =
    | Ignore                       // not relevant: nothing is posted
    | Fault                        // a lookup the source makes raises: the task stops, nothing is posted
    | Comment(url: string, text: string)
                                   // one comment posted to `url`, no build triggered
    | TriggerThen(env: map<string, string>, url: string, text: string)
                                   // a build triggered with `env`, then one comment posted to `url`

  /** What the version rules make of a request. */
  datatype Target = Build(version: string) | Reject(message: string)

  const BUILD_KEYWORD: string := "build"
  const OPEN: string := "open"
  const MASTER: string := "master"
  const COMMENTS_SUFFIX: string := "/comments"
  const ACCEPTED: int := 202

  // The names of the build environment variables.
  const GITHUB_API_URL: string := "GITHUB_API_URL"
  const HEAD_REPO_URL: string := "HEAD_REPO_URL"
  const HEAD_BRANCH: string := "HEAD_BRANCH"
  const REPO_NAME: string := "REPO_NAME"
  const VERSION: string := "VERSION"

  /** The list comprehension `[v for v in versions if v in body]`. */
  function VersionsIn(versions: seq<string>, body: string): (r: seq<string>)
    ensures |r| <= |versions|
    ensures forall v :: v in r <==> v in versions && Contains(body, v)
    ensures Distinct(versions) ==> Distinct(r)
  {
    if versions == [] then
      []
    else
      var rest := VersionsIn(versions[1..], body);
      if Contains(body, versions[0]) then [versions[0]] + rest else rest
  }

  /** `build_version`: the branch of the one version quoted in the raw body, if exactly one is. */
  function BuildVersion(body: string): (r: Option<string>)
    ensures r.Some? ==>
      && |r.value| >= |VERSION_PREFIX|
      && var v := r.value[|VERSION_PREFIX|..];
         v in VERSIONS && Contains(body, v) && r.value == BranchOf(v)
    ensures r.Some? ==> r.value in BASE_BRANCHES
  {
    var found := VersionsIn(VERSIONS, body);
    if |found| == 1 then
      assert found[0] in found;
      assert BranchOf(found[0])[|VERSION_PREFIX|..] == found[0];
      BranchOfKnownVersion(found[0]);
      Some(BranchOf(found[0]))
    else
      None
  }

  /** The environment first built from the comment URL and the pull request. */
  function InitialEnv(url: string, pr: PullRequestInfo): (env: map<string, string>)
    ensures env.Keys == {GITHUB_API_URL, HEAD_REPO_URL, HEAD_BRANCH, REPO_NAME, VERSION}
    ensures env[GITHUB_API_URL] == url && env[HEAD_REPO_URL] == pr.headCloneUrl
    ensures env[HEAD_BRANCH] == pr.headRef && env[REPO_NAME] == pr.baseRepoName
    ensures env[VERSION] == pr.baseRef
  {
    map[
      GITHUB_API_URL := url,
      HEAD_REPO_URL := pr.headCloneUrl,
      HEAD_BRANCH := pr.headRef,
      REPO_NAME := pr.baseRepoName,
      VERSION := pr.baseRef
    ]
  }

  /** The version rules in the order the source applies them: the override,
      the unversioned-repository rules, the known-repository check and the
      version-branch check. Whatever it builds is a known repository at a
      version branch. */
  function ResolveTarget(pr: PullRequestInfo, body: string): (t: Target)
    ensures t.Build? ==> pr.baseRepoName in KNOWN_REPOS && t.version in BASE_BRANCHES
  {
    var override := BuildVersion(body);
    var requested := if override.Some? then override.value else pr.baseRef;
    var repo := pr.baseRepoName;
    if repo in UNVERSIONED_REPOS && requested != MASTER && override.None? then
      Reject(NO_VERSION_MESSAGE)
    else
      var resolved := if repo in UNVERSIONED_REPOS && requested == MASTER then MASTER_FALLBACK else requested;
      if repo !in KNOWN_REPOS then
        Reject(UnknownRepoMessage(repo))
      else if resolved !in BASE_BRANCHES then
        Reject(NOT_VERSION_BRANCH_MESSAGE)
      else
        Build(resolved)
  }

  /** The whole decision, stated as one function of the event and the inputs
      that stand for the HTTP calls and the random choices. */
  function Decide(e: Event, pr: PullRequestInfo, resp: TriggerResponse, i: nat, j: nat): Outcome
    requires i < |EXCLAMATIONS| && j < |EMOJI|
  {
    if !IsRelevant(e) then
      Ignore
    else if e.comment.value.issueUrl.None? then
      Fault
    else
      var url := e.comment.value.issueUrl.value + COMMENTS_SUFFIX;
      var body := e.comment.value.body.value;
      if !Contains(Lower(body), BUILD_KEYWORD) then
        Comment(url, HELP_MESSAGE)
      else if e.issue.value.state.None? then
        Fault
      else if e.issue.value.state.value != OPEN then
        Comment(url, CLOSED_MESSAGE)
      else if !HasPullRequestUrl(e) then
        Fault
      else
        BuildOutcome(url, pr, body, resp, i, j)
  }

  /** The part of the decision after the open-state check. */
  function BuildOutcome(url: string, pr: PullRequestInfo, body: string, resp: TriggerResponse, i: nat, j: nat): Outcome
    requires i < |EXCLAMATIONS| && j < |EMOJI|
  {
    match ResolveTarget(pr, body)
    case Reject(message) => Comment(url, message)
    case Build(version) =>
      TriggerThen(
        InitialEnv(url, pr)[VERSION := version],
        url,
        if resp.status == ACCEPTED then Confirmation(pr.baseRepoName, version, i, j)
        else ProblemMessage(resp.reason))
  }

  /** `process_data` after the background dispatch: the checks on the event,
      each rejection returning early, then the build request proper. */
  method ProcessData(e: Event, pr: PullRequestInfo, resp: TriggerResponse, i: nat, j: nat)
    returns (o: Outcome)
    requires i < |EXCLAMATIONS| && j < |EMOJI|
    ensures o == Decide(e, pr, resp, i, j)
    ensures o.TriggerThen? ==>
      && REPO_NAME in o.env && VERSION in o.env
      && o.env[REPO_NAME] in KNOWN_REPOS
      && o.env[VERSION] in BASE_BRANCHES
  {
    if !IsRelevant(e) {
      return Ignore;
    }
    if e.comment.value.issueUrl.None? {
      return Fault;
    }
    var commentUrl := e.comment.value.issueUrl.value + COMMENTS_SUFFIX;
    var body := e.comment.value.body.value;

    if !Contains(Lower(body), BUILD_KEYWORD) {
      return Comment(commentUrl, HELP_MESSAGE);
    }
    var state := e.issue.value.state;
    if state.None? {
      return Fault;
    }
    if state.value != OPEN {
      return Comment(commentUrl, CLOSED_MESSAGE);
    }
    // The pull request's URL is looked up; `pr` stands for what fetching it returns.
    if !HasPullRequestUrl(e) {
      return Fault;
    }
    o := ProcessBuildRequest(commentUrl, pr, body, resp, i, j);
  }

  /** The build request of `process_data`: the environment map is built and
      then updated in place, each rejection returns early, and the
      confirmation is accumulated piece by piece. */
  method ProcessBuildRequest(commentUrl: string, pr: PullRequestInfo, body: string, resp: TriggerResponse, i: nat, j: nat)
    returns (o: Outcome)
    requires i < |EXCLAMATIONS| && j < |EMOJI|
    ensures o == BuildOutcome(commentUrl, pr, body, resp, i, j)
    ensures o.TriggerThen? ==>
      && REPO_NAME in o.env && VERSION in o.env
      && o.env[REPO_NAME] in KNOWN_REPOS
      && o.env[VERSION] in BASE_BRANCHES
  {
    ghost var target := ResolveTarget(pr, body);

    var travisEnv := map[
      GITHUB_API_URL := commentUrl,
      HEAD_REPO_URL := pr.headCloneUrl,
      HEAD_BRANCH := pr.headRef,
      REPO_NAME := pr.baseRepoName,
      VERSION := pr.baseRef
    ];
    assert travisEnv == InitialEnv(commentUrl, pr);

    var buildVersion := BuildVersion(body);
    if buildVersion.Some? {
      travisEnv := travisEnv[VERSION := buildVersion.value];
    }

    if travisEnv[REPO_NAME] in UNVERSIONED_REPOS {
      if travisEnv[VERSION] == MASTER {
        travisEnv := travisEnv[VERSION := MASTER_FALLBACK];
      } else if buildVersion.None? {
        return Comment(commentUrl, NO_VERSION_MESSAGE);
      }
    }

    if travisEnv[REPO_NAME] !in VERSIONED_REPOS + UNVERSIONED_REPOS {
      return Comment(commentUrl, UnknownRepoMessage(travisEnv[REPO_NAME]));
    }
    if travisEnv[VERSION] !in BASE_BRANCHES {
      return Comment(commentUrl, NOT_VERSION_BRANCH_MESSAGE);
    }

    // The build is triggered with `travisEnv`; `resp` is the provider's answer.
    assert target == Build(travisEnv[VERSION]);
    assert travisEnv == InitialEnv(commentUrl, pr)[VERSION := target.version];
    if resp.status != ACCEPTED {
      return TriggerThen(travisEnv, commentUrl, ProblemMessage(resp.reason));
    }

    var msg := ConfirmationText(travisEnv[REPO_NAME], travisEnv[VERSION], i, j);
    return TriggerThen(travisEnv, commentUrl, msg);
  }

  /** The confirmation as `process_data` accumulates it: the acknowledgement,
      the tree link unless the repository is the canonical one, then the promise of a link. */
  method ConfirmationText(repo: string, version: string, i: nat, j: nat) returns (msg: string)
    requires i < |EXCLAMATIONS| && j < |EMOJI|
    ensures msg == Confirmation(repo, version, i, j)
  {
    msg := RandomExclamation(i, j);
    if repo != SSOT_REPO {
      msg := msg + BUILD_AGAINST + TreeLink(version) + ".";
    }
    msg := msg + READY_TAIL;
  }
}
