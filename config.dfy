/** The bot's static configuration: the repositories it knows how to build,
    the released versions of the standard, the version branches derived from
    them, and the two pools the acknowledgement phrase is drawn from. */
module Config {

  /** Repositories that have one branch per version of the standard. */
  const VERSIONED_REPOS: seq<string> := [
    "IATI-Rulesets",
    "IATI-Extra-Documentation",
    "IATI-Codelists",
    "IATI-Standard-SSOT"
  ]

  /** Repositories without version branches; their `master` builds against the newest version. */
  const UNVERSIONED_REPOS: seq<string> := [
    "IATI-Developer-Documentation",
    "IATI-Guidance",
    "IATI-Codelists-NonEmbedded",
    "IATI-Websites"
  ]

  /** Released versions, newest first. */
  const VERSIONS: seq<string> := ["2.03", "2.02", "2.01", "1.05", "1.04"]

  /** The repository holding the standard itself; its confirmations carry no tree link. */
  const SSOT_REPO: string := "IATI-Standard-SSOT"

  /** The branch an unversioned repository's `master` is built against (hard-coded). */
  const MASTER_FALLBACK: string := "version-2.03"

  const VERSION_PREFIX: string := "version-"

  /** The branch name of one version: `'version-{}'.format(v)`. */
  function BranchOf(v: string): (b: string)
    ensures |b| == |VERSION_PREFIX| + |v|
    ensures b[..|VERSION_PREFIX|] == VERSION_PREFIX && b[|VERSION_PREFIX|..] == v
  {
    VERSION_PREFIX + v
  }

  /** The comprehension `['version-{}'.format(v) for v in versions]`. */
  function BranchesOf(versions: seq<string>): (branches: seq<string>)
    ensures |branches| == |versions|
    ensures forall i :: 0 <= i < |versions| ==> branches[i] == BranchOf(versions[i])
  {
    if versions == [] then [] else [BranchOf(versions[0])] + BranchesOf(versions[1..])
  }

  /** One version branch per known version, in the same order. */
  const BASE_BRANCHES: seq<string> := BranchesOf(VERSIONS)

  /** Every repository the bot can build. */
  const KNOWN_REPOS: seq<string> := VERSIONED_REPOS + UNVERSIONED_REPOS

  const EMOJI: seq<string> := [
    "⭐️", "✨", "🌟", "👍", "🙌", "💅", "😸",
    "🔥", "💥", "⚡️", "🐨", "🐝", "🐜", "🐬",
    "🌈", "🎉"
  ]

  const EXCLAMATIONS: seq<string> := [
    "Okay - no problem!",
    "Okey dokey!",
    "On it!",
    "Righto!",
    "Gotcha!"
  ]

  /** `BranchOf` loses nothing: distinct versions give distinct branches. */
  lemma BranchOfInjective(v: string, w: string)
    ensures BranchOf(v) == BranchOf(w) <==> v == w
  {
    if BranchOf(v) == BranchOf(w) {
      assert v == BranchOf(v)[|VERSION_PREFIX|..];
    }
  }

  /** A branch is a version branch exactly when it is `version-` followed by a known version. */
  lemma BaseBranchIff(b: string)
    ensures b in BASE_BRANCHES <==> exists v :: v in VERSIONS && b == BranchOf(v)
  {
    if b in BASE_BRANCHES {
      var i :| 0 <= i < |BASE_BRANCHES| && BASE_BRANCHES[i] == b;
      assert VERSIONS[i] in VERSIONS;
    }
    if v :| v in VERSIONS && b == BranchOf(v) {
      var i :| 0 <= i < |VERSIONS| && VERSIONS[i] == v;
      assert BASE_BRANCHES[i] == b;
    }
  }

  /** The branch of each known version is a version branch. */
  lemma BranchOfKnownVersion(v: string)
    requires v in VERSIONS
    ensures BranchOf(v) in BASE_BRANCHES
  {
    BaseBranchIff(BranchOf(v));
  }

  /** The hard-coded fallback is the branch of the newest version. */
  lemma MasterFallbackIsNewest()
    ensures MASTER_FALLBACK == BASE_BRANCHES[0] == BranchOf(VERSIONS[0])
    ensures MASTER_FALLBACK in BASE_BRANCHES
  {
    assert BASE_BRANCHES[0] == BranchOf(VERSIONS[0]);
  }

  /** The two repository lists do not overlap, and the canonical repository is a versioned one. */
  lemma RepoListsDisjoint()
    ensures forall r :: r in VERSIONED_REPOS ==> r !in UNVERSIONED_REPOS
    ensures SSOT_REPO in VERSIONED_REPOS
  {
  }

  /** No element of `s` appears twice. */
  predicate Distinct(s: seq<string>) {
    forall i, j :: 0 <= i < j < |s| ==> s[i] != s[j]
  }

  /** The version list names each version once. */
  lemma VersionsDistinct()
    ensures Distinct(VERSIONS)
  {
  }
}
