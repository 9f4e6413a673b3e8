/** What the resolver promises: the order of its checks, the version override,
    the rules for unversioned repositories, the safety of every trigger and the
    shape of the comment that follows it. */
module ResolverProperties {
  import opened Strings
  import opened Config
  import opened Events
  import opened Responder
  import opened Resolver

  /** There is exactly one known version quoted in the body, and it is `v`. */
  ghost predicate OnlyQuoted(body: string, v: string) {
    v in VERSIONS && Contains(body, v)
    && forall w :: w in VERSIONS && Contains(body, w) ==> w == v
  }

  /** No known version is quoted in the body. */
  ghost predicate NoneQuoted(body: string) {
    forall v :: v in VERSIONS ==> !Contains(body, v)
  }

  /** Two different known versions are quoted in the body. */
  ghost predicate SeveralQuoted(body: string) {
    exists v, w :: v in VERSIONS && w in VERSIONS && v != w && Contains(body, v) && Contains(body, w)
  }

  /** A filter over versions none of which is quoted keeps nothing. */
  lemma {:induction false} NoneKept(versions: seq<string>, body: string)
    requires forall w :: w in versions ==> !Contains(body, w)
    ensures VersionsIn(versions, body) == []
  {
    if versions != [] {
      assert versions[0] in versions;
      NoneKept(versions[1..], body);
    }
  }

  /** A filter over distinct versions of which only `v` is quoted keeps exactly `v`. */
  lemma {:induction false} OnlyOneKept(versions: seq<string>, body: string, v: string)
    requires Distinct(versions) && v in versions && Contains(body, v)
    requires forall w :: w in versions && Contains(body, w) ==> w == v
    ensures VersionsIn(versions, body) == [v]
  {
    var rest := versions[1..];
    assert forall k :: 0 <= k < |rest| ==> rest[k] == versions[k + 1];
    if versions[0] == v {
      assert v !in rest;
      forall w | w in rest ensures !Contains(body, w) {
        assert w != v;
      }
      NoneKept(rest, body);
    } else {
      assert !Contains(body, versions[0]);
      OnlyOneKept(rest, body, v);
    }
  }

  /** A version quoted alone in the raw body becomes the override `version-<v>`. */
  lemma OverrideWhenOnlyOne(body: string, v: string)
    requires OnlyQuoted(body, v)
    ensures BuildVersion(body) == Some(BranchOf(v))
  {
    VersionsDistinct();
    OnlyOneKept(VERSIONS, body, v);
  }

  /** No override when no version or several versions are quoted, and only then. */
  lemma NoOverrideIff(body: string)
    ensures BuildVersion(body).None? <==> NoneQuoted(body) || SeveralQuoted(body)
  {
    VersionsDistinct();
    var found := VersionsIn(VERSIONS, body);
    if |found| == 0 {
      assert NoneQuoted(body);
    } else if |found| == 1 {
      assert found[0] in found;
      assert forall x :: x in found ==> x == found[0];
    } else {
      assert found[0] != found[1] && found[0] in found && found[1] in found;
    }
  }

  /** An override is always a version branch, so never `master`. */
  lemma OverrideIsVersionBranch(body: string)
    ensures BuildVersion(body).Some? ==>
      BuildVersion(body).value in BASE_BRANCHES && BuildVersion(body).value != MASTER
  {
    var found := VersionsIn(VERSIONS, body);
    if |found| == 1 {
      assert found[0] in found;
      BranchOfKnownVersion(found[0]);
      assert BranchOf(found[0])[..|VERSION_PREFIX|] == VERSION_PREFIX;
    }
  }

  /** A body without a `.` quotes no version, so it never overrides. */
  lemma NoDotNoOverride(body: string)
    requires '.' !in body
    ensures NoneQuoted(body)
    ensures BuildVersion(body).None?
  {
    forall v | v in VERSIONS ensures !Contains(body, v) {
      assert '.' in v;
      MissingCharNotContained(body, v, '.');
    }
    NoOverrideIff(body);
  }

  /** An unversioned repository builds its `master` against the newest version,
      refuses any other base branch unless a version is quoted, and keeps a quoted version. */
  lemma UnversionedRepoRules(pr: PullRequestInfo, body: string)
    requires pr.baseRepoName in UNVERSIONED_REPOS
    ensures BuildVersion(body).None? && pr.baseRef == MASTER ==>
      ResolveTarget(pr, body) == Build(MASTER_FALLBACK)
    ensures BuildVersion(body).None? && pr.baseRef != MASTER ==>
      ResolveTarget(pr, body) == Reject(NO_VERSION_MESSAGE)
    ensures BuildVersion(body).Some? ==>
      ResolveTarget(pr, body) == Build(BuildVersion(body).value)
  {
    MasterFallbackIsNewest();
    OverrideIsVersionBranch(body);
  }

  /** A versioned repository builds against the quoted version if there is one,
      otherwise against its base branch, which must be a version branch. */
  lemma VersionedRepoRules(pr: PullRequestInfo, body: string)
    requires pr.baseRepoName in VERSIONED_REPOS
    ensures BuildVersion(body).Some? ==>
      ResolveTarget(pr, body) == Build(BuildVersion(body).value)
    ensures BuildVersion(body).None? && pr.baseRef in BASE_BRANCHES ==>
      ResolveTarget(pr, body) == Build(pr.baseRef)
    ensures BuildVersion(body).None? && pr.baseRef !in BASE_BRANCHES ==>
      ResolveTarget(pr, body) == Reject(NOT_VERSION_BRANCH_MESSAGE)
  {
    RepoListsDisjoint();
    OverrideIsVersionBranch(body);
  }

  /** An unknown repository is refused with a message that names it. */
  lemma UnknownRepoRejected(pr: PullRequestInfo, body: string)
    requires pr.baseRepoName !in KNOWN_REPOS
    ensures ResolveTarget(pr, body) == Reject(UnknownRepoMessage(pr.baseRepoName))
    ensures Contains(ResolveTarget(pr, body).message, pr.baseRepoName)
  {
  }

  /** The version rules build exactly when the repository is known and either
      one version is quoted alone, or the repository is unversioned and its base
      is `master`, or the repository is versioned and its base is a version branch. */
  lemma BuildIff(pr: PullRequestInfo, body: string)
    ensures ResolveTarget(pr, body).Build? <==>
      && pr.baseRepoName in KNOWN_REPOS
      && (|| (exists v :: OnlyQuoted(body, v))
          || (pr.baseRepoName in UNVERSIONED_REPOS && pr.baseRef == MASTER)
          || (pr.baseRepoName in VERSIONED_REPOS && pr.baseRef in BASE_BRANCHES))
  {
    NoOverrideIff(body);
    if v :| OnlyQuoted(body, v) {
      OverrideWhenOnlyOne(body, v);
    }
    if BuildVersion(body).Some? {
      var found := VersionsIn(VERSIONS, body);
      assert found[0] in found;
      VersionsDistinct();
      assert OnlyQuoted(body, found[0]);
    }
    if pr.baseRepoName in UNVERSIONED_REPOS {
      UnversionedRepoRules(pr, body);
      RepoListsDisjoint();
    } else if pr.baseRepoName in VERSIONED_REPOS {
      VersionedRepoRules(pr, body);
    }
  }

  /** An event is dropped without any comment exactly when it is not relevant. */
  lemma IgnoreIff(e: Event, pr: PullRequestInfo, resp: TriggerResponse, i: nat, j: nat)
    requires i < |EXCLAMATIONS| && j < |EMOJI|
    ensures Decide(e, pr, resp, i, j) == Ignore <==> !IsRelevant(e)
  {
  }

  /** A comment that does not ask for a build gets the help text, whatever the
      pull request and the CI provider would have said: neither is consulted. */
  lemma HelpWithoutLookup(
    e: Event, pr1: PullRequestInfo, resp1: TriggerResponse, i1: nat, j1: nat,
    pr2: PullRequestInfo, resp2: TriggerResponse, i2: nat, j2: nat)
    requires i1 < |EXCLAMATIONS| && j1 < |EMOJI| && i2 < |EXCLAMATIONS| && j2 < |EMOJI|
    requires IsRelevant(e) && e.comment.value.issueUrl.Some?
    requires !Contains(Lower(e.comment.value.body.value), BUILD_KEYWORD)
    ensures Decide(e, pr1, resp1, i1, j1) == Decide(e, pr2, resp2, i2, j2)
      == Comment(e.comment.value.issueUrl.value + COMMENTS_SUFFIX, HELP_MESSAGE)
  {
  }

  /** A closed pull request is refused before its details are consulted. */
  lemma ClosedWithoutLookup(
    e: Event, pr1: PullRequestInfo, resp1: TriggerResponse, i1: nat, j1: nat,
    pr2: PullRequestInfo, resp2: TriggerResponse, i2: nat, j2: nat)
    requires i1 < |EXCLAMATIONS| && j1 < |EMOJI| && i2 < |EXCLAMATIONS| && j2 < |EMOJI|
    requires IsRelevant(e) && e.comment.value.issueUrl.Some?
    requires Contains(Lower(e.comment.value.body.value), BUILD_KEYWORD)
    requires e.issue.value.state.Some? && e.issue.value.state.value != OPEN
    ensures Decide(e, pr1, resp1, i1, j1) == Decide(e, pr2, resp2, i2, j2)
      == Comment(e.comment.value.issueUrl.value + COMMENTS_SUFFIX, CLOSED_MESSAGE)
  {
  }

  /** A build is triggered exactly when the event is relevant, has its URL,
      asks for a build on an open pull request whose URL can be looked up,
      and the version rules build. */
  lemma TriggerIff(e: Event, pr: PullRequestInfo, resp: TriggerResponse, i: nat, j: nat)
    requires i < |EXCLAMATIONS| && j < |EMOJI|
    ensures Decide(e, pr, resp, i, j).TriggerThen? <==>
      && IsRelevant(e)
      && e.comment.value.issueUrl.Some?
      && Contains(Lower(e.comment.value.body.value), BUILD_KEYWORD)
      && e.issue.value.state == Some(OPEN)
      && HasPullRequestUrl(e)
      && ResolveTarget(pr, e.comment.value.body.value).Build?
  {
  }

  /** The run stops on a failed lookup exactly when the event is relevant and
      the comment has no `issue_url`, or it asks for a build and the issue has
      no `state`, or it asks for a build on an open pull request whose URL
      cannot be looked up. */
  lemma FaultIff(e: Event, pr: PullRequestInfo, resp: TriggerResponse, i: nat, j: nat)
    requires i < |EXCLAMATIONS| && j < |EMOJI|
    ensures Decide(e, pr, resp, i, j).Fault? <==>
      && IsRelevant(e)
      && (|| e.comment.value.issueUrl.None?
          || (&& Contains(Lower(e.comment.value.body.value), BUILD_KEYWORD)
              && (|| e.issue.value.state.None?
                  || (e.issue.value.state == Some(OPEN) && !HasPullRequestUrl(e)))))
  {
  }

  /** A relevant, open build request with its URL that the version rules refuse
      gets exactly the refusal as its one comment, and no trigger. */
  lemma RejectIsComment(e: Event, pr: PullRequestInfo, resp: TriggerResponse, i: nat, j: nat)
    requires i < |EXCLAMATIONS| && j < |EMOJI|
    requires IsRelevant(e) && e.comment.value.issueUrl.Some?
    requires Contains(Lower(e.comment.value.body.value), BUILD_KEYWORD)
    requires e.issue.value.state == Some(OPEN) && HasPullRequestUrl(e)
    ensures var t := ResolveTarget(pr, e.comment.value.body.value);
      t.Reject? ==> Decide(e, pr, resp, i, j) == Comment(e.comment.value.issueUrl.value + COMMENTS_SUFFIX, t.message)
  {
  }

  /** Safety: every trigger is for a known repository at a version branch, and
      carries exactly the five variables, copied from the event and the pull request. */
  lemma TriggerIsSafe(e: Event, pr: PullRequestInfo, resp: TriggerResponse, i: nat, j: nat)
    requires i < |EXCLAMATIONS| && j < |EMOJI|
    ensures var o := Decide(e, pr, resp, i, j);
      o.TriggerThen? ==>
      && o.env.Keys == {GITHUB_API_URL, HEAD_REPO_URL, HEAD_BRANCH, REPO_NAME, VERSION}
      && o.env[GITHUB_API_URL] == o.url == e.comment.value.issueUrl.value + COMMENTS_SUFFIX
      && o.env[HEAD_REPO_URL] == pr.headCloneUrl
      && o.env[HEAD_BRANCH] == pr.headRef
      && o.env[REPO_NAME] == pr.baseRepoName
      && o.env[REPO_NAME] in KNOWN_REPOS
      && o.env[VERSION] == ResolveTarget(pr, e.comment.value.body.value).version
      && o.env[VERSION] in BASE_BRANCHES
  {
    if Decide(e, pr, resp, i, j).TriggerThen? {
      var url := e.comment.value.issueUrl.value + COMMENTS_SUFFIX;
      var t := ResolveTarget(pr, e.comment.value.body.value);
      assert Decide(e, pr, resp, i, j).env == InitialEnv(url, pr)[VERSION := t.version];
    }
  }

  /** The comment after a trigger: a refused trigger reports the provider's
      reason verbatim after the fixed lead-in; an accepted one opens with the
      acknowledgement, closes with the promise of a link, and links the tree of
      the version branch exactly when the repository is not the canonical one. */
  lemma CommentAfterTrigger(e: Event, pr: PullRequestInfo, resp: TriggerResponse, i: nat, j: nat)
    requires i < |EXCLAMATIONS| && j < |EMOJI|
    ensures var o := Decide(e, pr, resp, i, j);
      o.TriggerThen? && resp.status != ACCEPTED ==>
        o.text == ProblemMessage(resp.reason) && o.text[|PROBLEM_PREFIX|..] == resp.reason
    ensures var o := Decide(e, pr, resp, i, j);
      o.TriggerThen? && resp.status == ACCEPTED ==>
        && IsPrefix(EXCLAMATIONS[i] + " " + EMOJI[j], o.text)
        && |o.text| >= |READY_TAIL| && o.text[|o.text| - |READY_TAIL|..] == READY_TAIL
        && (Contains(o.text, TreeLink(o.env[VERSION])) <==> o.env[REPO_NAME] != SSOT_REPO)
  {
    var o := Decide(e, pr, resp, i, j);
    if o.TriggerThen? {
      var url := e.comment.value.issueUrl.value + COMMENTS_SUFFIX;
      var body := e.comment.value.body.value;
      assert o == BuildOutcome(url, pr, body, resp, i, j);
      var t := ResolveTarget(pr, body);
      assert o.env[VERSION] == t.version && o.env[REPO_NAME] == pr.baseRepoName;
      if resp.status == ACCEPTED {
        assert o.text == Confirmation(pr.baseRepoName, t.version, i, j);
        ConfirmationLinkIff(pr.baseRepoName, t.version, i, j);
      } else {
        assert o.text == ProblemMessage(resp.reason);
      }
    }
  }
}
