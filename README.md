# referencebot build-request decision, in Dafny

referencebot is a webhook relay. It receives GitHub issue-comment events. When
a comment on an open pull request mentions `@referencebot` and says `build`, it
works out which repository and which version branch of the IATI standard to
build and triggers a CI build with five environment variables. It then posts a
comment back: a confirmation, or the reason it did not build.

This project models that decision: the configuration tables, the relevance
filter `is_relevant` and the body of `process_data`. Each HTTP call becomes an
input to the model:

- the pull request fetched from GitHub becomes a `PullRequestInfo` value;
- the CI provider's answer becomes a `TriggerResponse` (status, reason);
- the two random choices of `random_exclamation` become two indices.

With those inputs, one run of `process_data` is a single `Outcome`:

- `Ignore`: the event is not relevant;
- `Fault`: a lookup the source makes raises, so nothing is posted;
- `Comment(url, text)`: one comment is posted and no build is triggered;
- `TriggerThen(env, url, text)`: a build is triggered with `env`, then one comment is posted.

Modules:

- `Strings` (`strings.dfy`): Python's substring test `t in s`, with a
  positional reference definition and proofs that the two agree. Also ASCII
  `str.lower()` and single-character `str.replace`.
- `Config` (`config.dfy`): the repository lists, the versions, `BASE_BRANCHES`
  built by a recursive comprehension, and the two phrase pools.
- `Events` (`events.dfy`): the fields of the event the bot reads, with
  `Option` standing for a key that may be absent. Also a JSON value for the
  truth test on `pull_request`, and `IsRelevant`.
- `Responder` (`responder.dfy`): every text the bot posts and how the
  confirmation is assembled.
- `Resolver` (`resolver.dfy`): the version override, the version rules
  (`ResolveTarget`), the whole decision as one function (`Decide`) and the
  imperative methods that mirror the source. `ProcessData` runs the checks on
  the event, each rejection returning early. `ProcessBuildRequest` builds the
  environment map and updates it in place, again returning early on each
  rejection. `ConfirmationText` accumulates the confirmation piece by piece.
  Each method is proved equal to its specification function.
- `ResolverProperties` (`properties.dfy`): what the decision promises.
- `SampleComments` and `Scenarios` (`sample_comments.dfy`, `scenarios.dfy`):
  worked requests on concrete comment bodies.

Two facts about the code shape the model:

- The code hard-codes `version-2.03` for an unversioned repository's `master`
  branch rather than computing the newest version. The model keeps the
  constant, and `Config.MasterFallbackIsNewest` proves that the two agree.
- The code reads `comment.issue_url`, `issue.state` and
  `issue.pull_request.url` with plain subscripts, so a missing key raises.
  Those paths are `Fault` in the model. Only `is_relevant` treats missing
  fields as failed checks.

## Model

| member | source | states |
|---|---|---|
| Strings.Contains | app.py:102 | Python's `t in s`: the empty string occurs in every string, and an occurring `t` is never longer than `s`. `ContainsIffOccurs` is its partner |
| Strings.ContainsAt | app.py:102 | an occurrence of `t` at any position makes the substring test `t in s` true |
| Strings.ContainsHasOccurrence | app.py:102 | a true substring test has an occurrence position |
| Strings.ContainsIffOccurs | app.py:102 | the substring test holds exactly when `t` occurs at some position of `s` |
| Strings.MissingCharNotContained | app.py:139-140 | a string holding a character that `s` lacks is not a substring of `s` |
| Strings.LowerChar | app.py:102 | a character changes exactly when it is an upper-case ASCII letter; an upper-case letter becomes the lower-case letter at the same alphabet position, any other character is kept, and the result is never upper-case |
| Strings.Lower | app.py:102 | `lower()` keeps the length and lower-cases every character in place |
| Strings.LowerIdempotent | app.py:102 | lower-casing leaves no upper-case letter, so doing it twice changes nothing |
| Strings.LowerOfLowercase | app.py:102 | a string with no upper-case letter is its own lower-casing |
| Strings.LowerKeepsContains | app.py:102 | if `t` occurs in `s` then `t.lower()` occurs in `s.lower()` |
| Strings.ReplaceChar | app.py:174 | `replace('-', ' ')` keeps the length, turns every `-` into a space and keeps every other character |
| Strings.ReplaceCharRemoves | app.py:174 | after the replacement no `-` is left |
| Config.BranchOf | app.py:37 | `'version-{}'.format(v)` is `version-` followed by exactly `v` |
| Config.BranchesOf | app.py:37 | the comprehension gives one branch per version, in the same order |
| Config.BranchOfInjective | app.py:37 | distinct versions give distinct branch names, and conversely |
| Config.BaseBranchIff | app.py:28-37 | a name is in `BASE_BRANCHES` exactly when it is `version-` followed by a known version |
| Config.BranchOfKnownVersion | app.py:28-37 | the branch of each known version is in `BASE_BRANCHES` |
| Config.MasterFallbackIsNewest | app.py:28-37 | the hard-coded `version-2.03` used at line 148 is the first entry of `BASE_BRANCHES` (the newest version) and so is a version branch |
| Config.RepoListsDisjoint | app.py:13-25 | no repository is in both lists, and `IATI-Standard-SSOT` is versioned |
| Config.VersionsDistinct | app.py:28-34 | no version is listed twice |
| Events.Truthy | app.py:99 | a JSON value is false exactly when it is one of Python's false values: `None`, `False`, `0`, `""`, `[]`, `{}` |
| Events.HasPullRequestUrl | app.py:128 | the lookup of `pull_request['url']` succeeds only on an object with a `url` key, which is then also truthy |
| Events.IsRelevant | app.py:95-105 | relevant exactly when the action is `created`, the issue has a truthy `pull_request`, and the lower-cased body contains `@referencebot` |
| Events.RelevantHasBody | app.py:102 | a relevant event has a comment body, so the `''` default was not used |
| Events.MissingFieldNotRelevant | app.py:95-105 | an absent action, issue, comment or body makes the event irrelevant instead of raising |
| Events.MentionAnyCase | app.py:102 | a body with the mention in any ASCII capitalisation passes the mention check |
| Responder.UnknownRepoMessage | app.py:157-158 | the unknown-repository rejection is exactly the fixed lead-in, the repository name verbatim and ` repository.`, so it names the repository |
| Responder.ProblemMessage | app.py:170 | the failure report is `Err... I had some problem:\n\n` followed by the provider's reason verbatim |
| Responder.RandomExclamation | app.py:56-57 | the acknowledgement is one pooled exclamation, a space and one pooled emoji |
| Responder.BranchLabel | app.py:174 | the link label has the branch's length, has a space wherever the branch has `-`, keeps every other character, and holds no `-` |
| Responder.TreeLink | app.py:179-181 | the link is exactly the backquoted label and the tree URL prefix followed by the branch name and `)`: the prefix, the suffix and the total length are fixed |
| Responder.NoBracketInFixedParts | app.py:47-57 | no pooled phrase of lines 47-57 and not the closing sentence of line 183 contains `[` |
| Responder.Confirmation | app.py:176-183 | the confirmation starts with the acknowledgement and ends with `\n\nI'll post a link when it's ready.`. `ConfirmationLinkIff` states when the link is present |
| Responder.ConfirmationLinkIff | app.py:176-183 | the confirmation contains the tree link exactly when the repository is not `IATI-Standard-SSOT` |
| Resolver.VersionsIn | app.py:139-140 | the comprehension keeps exactly the versions that occur in the raw body, none twice, and no more than there are |
| Resolver.BuildVersion | app.py:141-142 | an override is `version-` followed by a known version that occurs in the raw body, and so is a version branch. `OverrideWhenOnlyOne` and `NoOverrideIff` state when there is one |
| Resolver.InitialEnv | app.py:131-137 | the first environment has exactly the five keys, with the comment URL and the four pull request fields copied unchanged |
| Resolver.ResolveTarget | app.py:141-165 | the version rules build only for a known repository at a version branch |
| Resolver.ProcessData | app.py:112-128 | the imperative run, with its early returns, gives the same outcome as `Decide`, and every trigger names a known repository and a version branch |
| Resolver.ProcessBuildRequest | app.py:131-184 | the environment map built and then updated in place, with early returns, gives the same outcome as `BuildOutcome`, and every trigger names a known repository and a version branch |
| Resolver.ConfirmationText | app.py:174-183 | the message accumulated with `+=` equals `Confirmation` |
| ResolverProperties.NoneKept | app.py:139-140 | when no listed version occurs in the body, nothing is kept |
| ResolverProperties.OnlyOneKept | app.py:139-140 | when exactly one of distinct versions occurs in the body, exactly that one is kept |
| ResolverProperties.OverrideWhenOnlyOne | app.py:139-144 | a version quoted alone in the raw body becomes the override `version-<v>` |
| ResolverProperties.NoOverrideIff | app.py:139-144 | there is no override exactly when no version or two different versions are quoted |
| ResolverProperties.OverrideIsVersionBranch | app.py:141-144 | an override is always a version branch, never `master` |
| ResolverProperties.NoDotNoOverride | app.py:139-142 | a body without `.` quotes no known version and never overrides |
| ResolverProperties.UnversionedRepoRules | app.py:146-154 | for an unversioned repository: `master` builds `version-2.03`, any other base is refused with the no-version message unless a version is quoted, and a quoted version is kept |
| ResolverProperties.VersionedRepoRules | app.py:143-165 | for a versioned repository: a quoted version wins, otherwise the base branch is built if it is a version branch and refused with the not-a-version-branch message if not |
| ResolverProperties.UnknownRepoRejected | app.py:156-160 | an unknown repository is refused with the message that names it |
| ResolverProperties.BuildIff | app.py:139-165 | the rules build exactly when the repository is known and either one version is quoted alone, or the repository is unversioned with base `master`, or it is versioned with a version-branch base |
| ResolverProperties.HelpWithoutLookup | app.py:117-121 | without `build` in the lower-cased body the outcome is the help comment, the same whatever the pull request and the provider would answer |
| ResolverProperties.ClosedWithoutLookup | app.py:123-126 | a pull request that is not open gets the closed comment, the same whatever the pull request and the provider would answer |
| ResolverProperties.TriggerIff | app.py:112-167 | a build is triggered exactly when the event is relevant, has its URL, asks for a build on an open pull request whose URL can be looked up, and the version rules build |
| ResolverProperties.FaultIff | app.py:115-128 | the run raises exactly when the event is relevant and either `issue_url` is missing, or a build is asked for and either `state` is missing or the pull request is open and its `url` cannot be looked up |
| ResolverProperties.IgnoreIff | app.py:112-113 | the outcome is `Ignore` (the run returns before any lookup) exactly when the event is not relevant |
| ResolverProperties.RejectIsComment | app.py:146-165 | a relevant, open build request that the version rules refuse gets exactly the refusal as its one comment, and no trigger |
| ResolverProperties.TriggerIsSafe | app.py:131-167 | every trigger carries exactly the five variables: the comment URL, and the head clone URL, head branch and base repository name copied unchanged. `VERSION` is the branch the version rules resolved, and it names a known repository at a version branch |
| ResolverProperties.CommentAfterTrigger | app.py:169-184 | a refused trigger is reported with the reason verbatim after the lead-in. An accepted one opens with the acknowledgement, ends with the promise of a link, and links the tree exactly when the repository is not the canonical one |
| Scenarios.OpenCommentRelevant | app.py:95-105 | a created comment mentioning the bot on an open pull request is relevant, and its pull request URL can be looked up |
| Scenarios.BuildAtBase | app.py:131-184 | asking for a build quoting no known version on a versioned repository whose base is a version branch triggers that branch and confirms with its tree link |
| Scenarios.BuildCanonicalWithOverride | app.py:139-184 | on `IATI-Standard-SSOT` a single quoted version is built whatever the base, and the confirmation has no tree link |
| Scenarios.RefusedTrigger | app.py:167-172 | a trigger the provider refuses is reported with its reason after the lead-in |
| Scenarios.QuotedVersionOverrides | app.py:139-154 | "please build 2.02" builds `version-2.02` for every known repository, whatever its base |
| Scenarios.BuildRulesetsAtBase | app.py:131-184 | "@referencebot please build" on IATI-Rulesets at `version-2.02` triggers `version-2.02` and links the 2.02 tree |
| Scenarios.BuildStandardWithOverride | app.py:139-184 | "@referencebot build 1.04" on IATI-Standard-SSOT at `version-2.03` triggers `version-1.04` with no tree link |
| Scenarios.UnversionedOffMasterRefused | app.py:146-154 | IATI-Guidance at `master-other` with no quoted version is refused with the no-version message |
| Scenarios.RefusedTriggerReported | app.py:169-172 | status 500 with reason "boom" is one comment, the lead-in followed by "boom" |

`Resolver.Decide` and `Resolver.BuildOutcome` are the specification functions
that `ProcessData` and `ProcessBuildRequest` are proved against, and `ResolverProperties` states what they
mean. They carry no contract of their own.

## Left out

- The web routes `home` and `webhook`, JSON parsing of the request and the
  `responder` framework (app.py:187-204): they are plumbing around `process_data`.
- The background-task dispatch (app.py:108): it only makes processing
  fire-and-forget. The model is one sequential run.
- `post_to_travis`, `post_github_comment`, the `requests.get` of the pull
  request, the tokens read from the environment and the request headers
  (app.py:60-92, 129): these are network I/O. The fetched pull request and
  the provider's answer are inputs. The comment that would be posted is part
  of the outcome. `TriggerThen` records that the trigger was sent.
- `logging` calls: diagnostics only.
- `random.choice` (app.py:57): replaced by two caller-chosen indices within the
  pool sizes.
- Strings.Lower: lower-cases ASCII letters only, whereas Python's `str.lower()`
  also maps non-ASCII letters. The mention and the keyword are ASCII, but a
  body with non-ASCII capitals is lower-cased differently.
- Events.IsRelevant: event values that are not objects or strings where the
  source expects them (an `issue` that is a list, a `body` that is a number)
  are not represented. In the source those make the lookups raise.
- Events.Truthy: JSON numbers are integers only. A floating-point
  `pull_request` value is not represented.
- Resolver.ProcessData: the pull request is taken as already fetched with all
  four fields present. A fetched document missing `head.repo.clone_url`,
  `head.ref`, `base.repo.name` or `base.ref`, which raises in the source, is
  not represented.
- Resolver.ProcessData: `issue.state` is a string when present. A JSON `null`
  state, which the source would treat as not open, is not represented.
