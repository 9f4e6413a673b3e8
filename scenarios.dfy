/** Worked requests: comments run through the decision, first for any body
    with the right properties, then for the sample bodies. */
module Scenarios {
  import opened Strings
  import opened Config
  import opened Events
  import opened Responder
  import opened Resolver
  import opened ResolverProperties
  import opened SampleComments

  /** A created comment on an open pull request. */
  function OpenComment(body: string, issueUrl: string): Event {
    Event(
      Some(CREATED),
      Some(IssuePayload(Some(JObject(map["url" := JString(issueUrl + "/pull")])), Some(OPEN))),
      Some(CommentPayload(Some(body), Some(issueUrl))))
  }

  /** A comment on an open pull request that mentions the bot is relevant and carries its URL. */
  lemma OpenCommentRelevant(body: string, issueUrl: string)
    requires Contains(Lower(body), MENTION)
    ensures IsRelevant(OpenComment(body, issueUrl)) && HasPullRequestUrl(OpenComment(body, issueUrl))
    ensures OpenComment(body, issueUrl).comment.value.issueUrl == Some(issueUrl)
  {
    var e := OpenComment(body, issueUrl);
    assert "url" in e.issue.value.pullRequest.value.fields;
  }

  /** Asking for a build without quoting any known version, on a versioned repository
      other than the canonical one whose base is a version branch, triggers
      that branch, and the accepted trigger is confirmed with its tree link. */
  lemma BuildAtBase(body: string, issueUrl: string, pr: PullRequestInfo, reason: string, i: nat, j: nat)
    requires i < |EXCLAMATIONS| && j < |EMOJI|
    requires Contains(Lower(body), MENTION) && Contains(Lower(body), BUILD_KEYWORD) && NoneQuoted(body)
    requires pr.baseRepoName in VERSIONED_REPOS && pr.baseRepoName != SSOT_REPO && pr.baseRef in BASE_BRANCHES
    ensures var o := Decide(OpenComment(body, issueUrl), pr, TriggerResponse(ACCEPTED, reason), i, j);
      && o.TriggerThen?
      && VERSION in o.env && o.env[VERSION] == pr.baseRef
      && o.url == issueUrl + COMMENTS_SUFFIX
      && Contains(o.text, TreeLink(pr.baseRef))
  {
    var e := OpenComment(body, issueUrl);
    var resp := TriggerResponse(ACCEPTED, reason);
    OpenCommentRelevant(body, issueUrl);
    NoOverrideIff(body);
    VersionedRepoRules(pr, body);
    TriggerIff(e, pr, resp, i, j);
    TriggerIsSafe(e, pr, resp, i, j);
    CommentAfterTrigger(e, pr, resp, i, j);
  }

  /** Asking for a build of the canonical repository with one version quoted
      triggers that version's branch whatever the base, and the confirmation
      carries no tree link. */
  lemma BuildCanonicalWithOverride(body: string, v: string, issueUrl: string, pr: PullRequestInfo, reason: string, i: nat, j: nat)
    requires i < |EXCLAMATIONS| && j < |EMOJI|
    requires Contains(Lower(body), MENTION) && Contains(Lower(body), BUILD_KEYWORD) && OnlyQuoted(body, v)
    requires pr.baseRepoName == SSOT_REPO
    ensures var o := Decide(OpenComment(body, issueUrl), pr, TriggerResponse(ACCEPTED, reason), i, j);
      && o.TriggerThen?
      && VERSION in o.env && o.env[VERSION] == BranchOf(v)
      && !Contains(o.text, TreeLink(BranchOf(v)))
  {
    var e := OpenComment(body, issueUrl);
    var resp := TriggerResponse(ACCEPTED, reason);
    OpenCommentRelevant(body, issueUrl);
    OverrideWhenOnlyOne(body, v);
    RepoListsDisjoint();
    VersionedRepoRules(pr, body);
    TriggerIff(e, pr, resp, i, j);
    TriggerIsSafe(e, pr, resp, i, j);
    CommentAfterTrigger(e, pr, resp, i, j);
  }

  /** A trigger the provider refuses is still a trigger, reported in one comment
      that holds the provider's reason. */
  lemma RefusedTrigger(body: string, issueUrl: string, pr: PullRequestInfo, status: int, reason: string, i: nat, j: nat)
    requires i < |EXCLAMATIONS| && j < |EMOJI|
    requires Contains(Lower(body), MENTION) && Contains(Lower(body), BUILD_KEYWORD) && NoneQuoted(body)
    requires pr.baseRepoName in VERSIONED_REPOS && pr.baseRef in BASE_BRANCHES
    requires status != ACCEPTED
    ensures var o := Decide(OpenComment(body, issueUrl), pr, TriggerResponse(status, reason), i, j);
      && o.TriggerThen?
      && o.text == PROBLEM_PREFIX + reason
  {
    var e := OpenComment(body, issueUrl);
    var resp := TriggerResponse(status, reason);
    OpenCommentRelevant(body, issueUrl);
    NoOverrideIff(body);
    VersionedRepoRules(pr, body);
    TriggerIff(e, pr, resp, i, j);
    CommentAfterTrigger(e, pr, resp, i, j);
  }

  /** The configuration facts the sample requests rely on. */
  lemma SampleTargets()
    ensures "version-2.02" in BASE_BRANCHES && BranchOf("2.02") == "version-2.02"
    ensures BranchOf("1.04") == "version-1.04"
    ensures "IATI-Rulesets" in VERSIONED_REPOS && "IATI-Rulesets" != SSOT_REPO
    ensures "IATI-Guidance" in UNVERSIONED_REPOS && "master-other" != MASTER
  {
    BranchOfKnownVersion("2.02");
    assert BranchOf("2.02") == "version-2.02";
    assert BranchOf("1.04") == "version-1.04";
  }

  /** "please build 2.02" builds `version-2.02` for any known repository, whatever its base branch. */
  lemma QuotedVersionOverrides(pr: PullRequestInfo)
    requires pr.baseRepoName in KNOWN_REPOS
    ensures ResolveTarget(pr, BUILD_202) == Build("version-2.02")
  {
    Build202QuotesOnly202();
    OverrideWhenOnlyOne(BUILD_202, "2.02");
    SampleTargets();
    if pr.baseRepoName in VERSIONED_REPOS {
      VersionedRepoRules(pr, BUILD_202);
    } else {
      UnversionedRepoRules(pr, BUILD_202);
    }
  }

  /** "@referencebot please build" on an open pull request into `version-2.02`
      of IATI-Rulesets triggers that branch, and an accepted trigger is
      confirmed with a link to the 2.02 tree. */
  lemma BuildRulesetsAtBase(issueUrl: string, cloneUrl: string, headRef: string, reason: string, i: nat, j: nat)
    requires i < |EXCLAMATIONS| && j < |EMOJI|
    ensures var pr := PullRequestInfo(cloneUrl, headRef, "IATI-Rulesets", "version-2.02");
      var o := Decide(OpenComment(PLEASE_BUILD, issueUrl), pr, TriggerResponse(202, reason), i, j);
      && o.TriggerThen?
      && VERSION in o.env && o.env[VERSION] == "version-2.02"
      && o.url == issueUrl + "/comments"
      && Contains(o.text, TreeLink("version-2.02"))
  {
    PleaseBuildFacts();
    NoDotNoOverride(PLEASE_BUILD);
    SampleTargets();
    BuildAtBase(PLEASE_BUILD, issueUrl, PullRequestInfo(cloneUrl, headRef, "IATI-Rulesets", "version-2.02"), reason, i, j);
  }

  /** "@referencebot build 1.04" on IATI-Standard-SSOT builds `version-1.04`
      whatever the base branch, and the confirmation carries no tree link. */
  lemma BuildStandardWithOverride(issueUrl: string, cloneUrl: string, headRef: string, reason: string, i: nat, j: nat)
    requires i < |EXCLAMATIONS| && j < |EMOJI|
    ensures var pr := PullRequestInfo(cloneUrl, headRef, SSOT_REPO, "version-2.03");
      var o := Decide(OpenComment(BUILD_104, issueUrl), pr, TriggerResponse(202, reason), i, j);
      && o.TriggerThen?
      && VERSION in o.env && o.env[VERSION] == "version-1.04"
      && !Contains(o.text, TreeLink("version-1.04"))
  {
    Build104Facts();
    Build104QuotesOnly104();
    SampleTargets();
    BuildCanonicalWithOverride(BUILD_104, "1.04", issueUrl, PullRequestInfo(cloneUrl, headRef, SSOT_REPO, "version-2.03"), reason, i, j);
  }

  /** An unversioned repository whose base is `master-other` is refused when no version is quoted. */
  lemma UnversionedOffMasterRefused(cloneUrl: string, headRef: string)
    ensures ResolveTarget(PullRequestInfo(cloneUrl, headRef, "IATI-Guidance", "master-other"), PLEASE_BUILD)
      == Reject(NO_VERSION_MESSAGE)
  {
    PleaseBuildFacts();
    NoDotNoOverride(PLEASE_BUILD);
    SampleTargets();
    UnversionedRepoRules(PullRequestInfo(cloneUrl, headRef, "IATI-Guidance", "master-other"), PLEASE_BUILD);
  }

  /** A trigger refused with status 500 and reason "boom" is reported in one comment holding "boom". */
  lemma RefusedTriggerReported(issueUrl: string, cloneUrl: string, headRef: string, i: nat, j: nat)
    requires i < |EXCLAMATIONS| && j < |EMOJI|
    ensures var pr := PullRequestInfo(cloneUrl, headRef, "IATI-Rulesets", "version-2.02");
      var o := Decide(OpenComment(PLEASE_BUILD, issueUrl), pr, TriggerResponse(500, "boom"), i, j);
      && o.TriggerThen?
      && o.text == PROBLEM_PREFIX + "boom"
  {
    PleaseBuildFacts();
    NoDotNoOverride(PLEASE_BUILD);
    SampleTargets();
    RefusedTrigger(PLEASE_BUILD, issueUrl, PullRequestInfo(cloneUrl, headRef, "IATI-Rulesets", "version-2.02"), 500, "boom", i, j);
  }
}
