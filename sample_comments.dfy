/** Three sample comment bodies and the text facts the worked requests need
    about them, each established by one small step. */
module SampleComments {
  import opened Strings
  import opened Config

  const PLEASE_BUILD: string := "@referencebot please build"
  const BUILD_104: string := "@referencebot build 1.04"
  const BUILD_202: string := "please build 2.02"

  lemma PleaseBuildHasNoUpper()
    ensures HasNoUpper(PLEASE_BUILD)
  {
  }

  lemma PleaseBuildIsLower()
    ensures Lower(PLEASE_BUILD) == PLEASE_BUILD
  {
    PleaseBuildHasNoUpper();
    LowerOfLowercase(PLEASE_BUILD);
  }

  lemma PleaseBuildHasMention()
    ensures Contains(PLEASE_BUILD, "@referencebot")
  {
    assert PLEASE_BUILD[..13] == "@referencebot";
    ContainsAt(PLEASE_BUILD, "@referencebot", 0);
  }

  lemma PleaseBuildHasKeyword()
    ensures Contains(PLEASE_BUILD, "build")
  {
    assert PLEASE_BUILD[21..26] == "build";
    ContainsAt(PLEASE_BUILD, "build", 21);
  }

  lemma PleaseBuildHasNoDot()
    ensures '.' !in PLEASE_BUILD
  {
  }

  /** "@referencebot please build" addresses the bot, asks for a build and holds no `.`. */
  lemma PleaseBuildFacts()
    ensures Contains(Lower(PLEASE_BUILD), "@referencebot")
    ensures Contains(Lower(PLEASE_BUILD), "build")
    ensures '.' !in PLEASE_BUILD
  {
    PleaseBuildIsLower();
    PleaseBuildHasMention();
    PleaseBuildHasKeyword();
    PleaseBuildHasNoDot();
  }

  lemma Build104HasNoUpper()
    ensures HasNoUpper(BUILD_104)
  {
  }

  lemma Build104IsLower()
    ensures Lower(BUILD_104) == BUILD_104
  {
    Build104HasNoUpper();
    LowerOfLowercase(BUILD_104);
  }

  lemma Build104HasMention()
    ensures Contains(BUILD_104, "@referencebot")
  {
    assert BUILD_104[..13] == "@referencebot";
    ContainsAt(BUILD_104, "@referencebot", 0);
  }

  lemma Build104HasKeyword()
    ensures Contains(BUILD_104, "build")
  {
    assert BUILD_104[14..19] == "build";
    ContainsAt(BUILD_104, "build", 14);
  }

  lemma Build104HasVersion()
    ensures Contains(BUILD_104, "1.04")
  {
    assert BUILD_104[20..24] == "1.04";
    ContainsAt(BUILD_104, "1.04", 20);
  }

  lemma Build104Lacks(w: string, c: char)
    requires c in w && c !in BUILD_104
    ensures !Contains(BUILD_104, w)
  {
    MissingCharNotContained(BUILD_104, w, c);
  }

  /** Of the known versions, "@referencebot build 1.04" quotes 1.04 and no other. */
  lemma Build104QuotesOnly104()
    ensures Contains(BUILD_104, "1.04")
    ensures forall w :: w in VERSIONS && Contains(BUILD_104, w) ==> w == "1.04"
  {
    Build104HasVersion();
    assert '5' !in BUILD_104 && '2' !in BUILD_104;
    forall w | w in VERSIONS && Contains(BUILD_104, w) ensures w == "1.04" {
      if w == "1.05" {
        Build104Lacks(w, '5');
      } else if w != "1.04" {
        assert '2' in w;
        Build104Lacks(w, '2');
      }
    }
  }

  /** "@referencebot build 1.04" addresses the bot and asks for a build. */
  lemma Build104Facts()
    ensures Contains(Lower(BUILD_104), "@referencebot")
    ensures Contains(Lower(BUILD_104), "build")
  {
    Build104IsLower();
    Build104HasMention();
    Build104HasKeyword();
  }

  lemma Build202HasVersion()
    ensures Contains(BUILD_202, "2.02")
  {
    assert BUILD_202[13..17] == "2.02";
    ContainsAt(BUILD_202, "2.02", 13);
  }

  lemma Build202Lacks(w: string, c: char)
    requires c in w && c !in BUILD_202
    ensures !Contains(BUILD_202, w)
  {
    MissingCharNotContained(BUILD_202, w, c);
  }

  /** Of the known versions, "please build 2.02" quotes 2.02 and no other. */
  lemma Build202QuotesOnly202()
    ensures Contains(BUILD_202, "2.02")
    ensures forall w :: w in VERSIONS && Contains(BUILD_202, w) ==> w == "2.02"
  {
    Build202HasVersion();
    assert '3' !in BUILD_202 && '1' !in BUILD_202;
    forall w | w in VERSIONS && Contains(BUILD_202, w) ensures w == "2.02" {
      if w == "2.03" {
        Build202Lacks(w, '3');
      } else if w != "2.02" {
        assert '1' in w;
        Build202Lacks(w, '1');
      }
    }
  }
}
