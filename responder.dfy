/** The texts the bot posts back to the pull request: help, rejections, the
    trigger-failure report and the pieces of the build confirmation. */
module Responder {
  import opened Strings
  import opened Config

  const HELP_MESSAGE: string :=
    "Hi! How can I help? If you want me to build, just mention my name and say \"build\"."

  const CLOSED_MESSAGE: string := "Sorry - the pull request is closed so I can't build."

  const NO_VERSION_MESSAGE: string :=
    "Sorry - the base branch is not the `master` branch, and you didn't specify another branch to build against. So, I'm not sure how to proceed."

  const NOT_VERSION_BRANCH_MESSAGE: string :=
    "Sorry - the base branch doesn't look like a version branch, so I'm not sure how to proceed."

  const UNKNOWN_REPO_PREFIX: string := "Sorry - I'm afraid I don't know how to build the "
  const UNKNOWN_REPO_SUFFIX: string := " repository."

  /** The rejection for a repository the bot does not know; it names the repository. */
  function UnknownRepoMessage(repo: string): (m: string)
    ensures IsPrefix(UNKNOWN_REPO_PREFIX, m) && |m| == |UNKNOWN_REPO_PREFIX| + |repo| + |UNKNOWN_REPO_SUFFIX|
    ensures m[|UNKNOWN_REPO_PREFIX|..|UNKNOWN_REPO_PREFIX| + |repo|] == repo
    ensures m[|UNKNOWN_REPO_PREFIX| + |repo|..] == UNKNOWN_REPO_SUFFIX
    ensures Contains(m, repo)
  {
    var m := UNKNOWN_REPO_PREFIX + repo + UNKNOWN_REPO_SUFFIX;
    assert m[|UNKNOWN_REPO_PREFIX|..|UNKNOWN_REPO_PREFIX| + |repo|] == repo;
    assert m[|UNKNOWN_REPO_PREFIX| + |repo|..] == UNKNOWN_REPO_SUFFIX;
    ContainsAt(m, repo, |UNKNOWN_REPO_PREFIX|);
    m
  }

  const PROBLEM_PREFIX: string := "Err... I had some problem:\n\n"

  /** The report of a refused trigger: the provider's reason, verbatim, after a fixed lead-in. */
  function ProblemMessage(reason: string): (m: string)
    ensures IsPrefix(PROBLEM_PREFIX, m) && m[|PROBLEM_PREFIX|..] == reason
  {
    PROBLEM_PREFIX + reason
  }

  /** `random_exclamation` with the two random choices passed in as indices. */
  function RandomExclamation(i: nat, j: nat): (r: string)
    requires i < |EXCLAMATIONS| && j < |EMOJI|
    ensures IsAcknowledgement(r)
  {
    EXCLAMATIONS[i] + " " + EMOJI[j]
  }

  /** Any phrase `random_exclamation` can produce: a pooled exclamation, a space, a pooled emoji. */
  ghost predicate IsAcknowledgement(s: string) {
    exists i, j :: 0 <= i < |EXCLAMATIONS| && 0 <= j < |EMOJI| && s == EXCLAMATIONS[i] + " " + EMOJI[j]
  }

  /** The label of the link: the branch name with each `-` turned into a space. */
  function BranchLabel(version: string): (l: string)
    ensures |l| == |version| && '-' !in l
    ensures forall k :: 0 <= k < |version| && version[k] == '-' ==> l[k] == ' '
    ensures forall k :: 0 <= k < |version| && version[k] != '-' ==> l[k] == version[k]
  {
    ReplaceCharRemoves(version, '-', ' ');
    ReplaceChar(version, '-', ' ')
  }

  const TREE_URL: string := "https://github.com/IATI/IATI-Standard-SSOT/tree/"

  /** The markdown link to the branch of the standard being built against. */
  function TreeLink(version: string): (link: string)
    ensures |link| == |"[`" + BranchLabel(version) + "`](" + TREE_URL| + |version| + 1
    ensures IsPrefix("[`" + BranchLabel(version) + "`](" + TREE_URL, link)
    ensures link[|link| - 1 - |version|..] == version + ")"
    ensures '[' in link
  {
    var link := "[`" + BranchLabel(version) + "`](" + TREE_URL + version + ")";
    assert link[0] == '[';
    link
  }

  const BUILD_AGAINST: string := " I'll build against "
  const READY_TAIL: string := "\n\nI'll post a link when it's ready."

  /** The confirmation after an accepted trigger, as `process_data` assembles it.
      It opens with the acknowledgement phrase (an exclamation, a space and an
      emoji) and closes with the promise of a link. */
  function Confirmation(repo: string, version: string, i: nat, j: nat): (m: string)
    requires i < |EXCLAMATIONS| && j < |EMOJI|
    ensures IsPrefix(EXCLAMATIONS[i] + " " + EMOJI[j], m)
    ensures |m| >= |READY_TAIL| && m[|m| - |READY_TAIL|..] == READY_TAIL
  {
    var ack := RandomExclamation(i, j);
    var lead := if repo != SSOT_REPO then ack + BUILD_AGAINST + TreeLink(version) + "." else ack;
    var m := lead + READY_TAIL;
    assert m[..|ack|] == lead[..|ack|] == ack;
    assert m[|m| - |READY_TAIL|..] == READY_TAIL;
    m
  }

  /** No pooled phrase and not the closing sentence holds a `[`. */
  lemma NoBracketInFixedParts(i: nat, j: nat)
    requires i < |EXCLAMATIONS| && j < |EMOJI|
    ensures '[' !in RandomExclamation(i, j) + READY_TAIL
  {
    assert forall k :: 0 <= k < |EXCLAMATIONS| ==> '[' !in EXCLAMATIONS[k];
    assert forall k :: 0 <= k < |EMOJI| ==> '[' !in EMOJI[k];
    var s := RandomExclamation(i, j) + READY_TAIL;
    assert s == EXCLAMATIONS[i] + " " + EMOJI[j] + READY_TAIL;
    assert forall k :: 0 <= k < |s| ==> s[k] != '[' by {
      forall k | 0 <= k < |s| ensures s[k] != '[' {
        if k < |EXCLAMATIONS[i]| {
          assert s[k] == EXCLAMATIONS[i][k];
        } else if k < |EXCLAMATIONS[i]| + 1 {
          assert s[k] == ' ';
        } else if k < |EXCLAMATIONS[i]| + 1 + |EMOJI[j]| {
          assert s[k] == EMOJI[j][k - |EXCLAMATIONS[i]| - 1];
        } else {
          assert s[k] == READY_TAIL[k - |EXCLAMATIONS[i]| - 1 - |EMOJI[j]|];
        }
      }
    }
  }

  /** The confirmation carries the tree link to `version` exactly when the
      repository is not the canonical one. */
  lemma ConfirmationLinkIff(repo: string, version: string, i: nat, j: nat)
    requires i < |EXCLAMATIONS| && j < |EMOJI|
    ensures Contains(Confirmation(repo, version, i, j), TreeLink(version)) <==> repo != SSOT_REPO
  {
    var ack := RandomExclamation(i, j);
    var link := TreeLink(version);
    if repo != SSOT_REPO {
      var m := ack + BUILD_AGAINST + link + "." + READY_TAIL;
      assert m == Confirmation(repo, version, i, j);
      var at := |ack| + |BUILD_AGAINST|;
      assert m[at..at + |link|] == link;
      ContainsAt(m, link, at);
    } else {
      var m := ack + READY_TAIL;
      assert m == Confirmation(repo, version, i, j);
      NoBracketInFixedParts(i, j);
      MissingCharNotContained(m, link, '[');
    }
  }
}
