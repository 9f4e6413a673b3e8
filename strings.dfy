/** Text helpers for the bot's string tests: Python's `t in s` substring test,
    `str.lower()` restricted to ASCII, and single-character `str.replace`. */
module Strings {

  /** `p` is an initial segment of `s`. */
  predicate IsPrefix(p: string, s: string) {
    |p| <= |s| && p == s[..|p|]
  }

  /** Python's `t in s` for two strings: `t` occurs somewhere in `s`
      (the empty string occurs in every string). */
  predicate Contains(s: string, t: string)
    ensures |t| == 0 ==> Contains(s, t)
    ensures Contains(s, t) ==> |t| <= |s|
    decreases |s|
  {
    IsPrefix(t, s) || (|s| > 0 && Contains(s[1..], t))
  }

  /** Reference definition of an occurrence: a position where `t` starts in `s`. */
  ghost predicate OccursAt(s: string, t: string, k: int) {
    0 <= k && k + |t| <= |s| && s[k..k + |t|] == t
  }

  /** An occurrence at a known position makes `Contains` hold. */
  lemma {:induction false} ContainsAt(s: string, t: string, k: int)
    requires OccursAt(s, t, k)
    ensures Contains(s, t)
    decreases k
  {
    if k == 0 {
      assert IsPrefix(t, s);
    } else {
      assert s[1..][k - 1..k - 1 + |t|] == s[k..k + |t|];
      ContainsAt(s[1..], t, k - 1);
    }
  }

  /** `Contains` holds only when there is an occurrence. */
  lemma {:induction false} ContainsHasOccurrence(s: string, t: string) returns (k: int)
    requires Contains(s, t)
    ensures OccursAt(s, t, k)
    decreases |s|
  {
    if IsPrefix(t, s) {
      k := 0;
    } else {
      var j := ContainsHasOccurrence(s[1..], t);
      assert s[1..][j..j + |t|] == s[j + 1..j + 1 + |t|];
      k := j + 1;
    }
  }

  /** The recursive test agrees with the positional definition, both ways. */
  lemma ContainsIffOccurs(s: string, t: string)
    ensures Contains(s, t) <==> exists k :: OccursAt(s, t, k)
  {
    if Contains(s, t) {
      var k := ContainsHasOccurrence(s, t);
    }
    if k :| OccursAt(s, t, k) {
      ContainsAt(s, t, k);
    }
  }

  /** Every character of a prefix is a character of the whole string. */
  lemma PrefixKeepsChar(t: string, s: string, c: char)
    ensures IsPrefix(t, s) && c in t ==> c in s
  {
    if IsPrefix(t, s) && c in t {
      var i :| 0 <= i < |t| && t[i] == c;
      assert s[..|t|][i] == s[i];
    }
  }

  /** A string holding a character that `s` lacks cannot occur in `s`. */
  lemma {:induction false} MissingCharNotContained(s: string, t: string, c: char)
    requires c in t && c !in s
    ensures !Contains(s, t)
    decreases |s|
  {
    PrefixKeepsChar(t, s, c);
    if |s| > 0 {
      assert c !in s[1..] by {
        assert forall i :: 0 <= i < |s| - 1 ==> s[1..][i] == s[i + 1];
      }
      MissingCharNotContained(s[1..], t, c);
    }
  }

  /** Lower-casing of one character, ASCII letters only. */
  function LowerChar(c: char): (r: char)
    ensures ('A' <= c <= 'Z') <==> ('a' <= r <= 'z' && r != c)
    ensures !('A' <= c <= 'Z') ==> r == c
    ensures 'A' <= c <= 'Z' ==> r as int - 'a' as int == c as int - 'A' as int
    ensures !('A' <= r <= 'Z')
  {
    if 'A' <= c <= 'Z' then (c as int - 'A' as int + 'a' as int) as char else c
  }

  /** `s.lower()` on ASCII text: every character is lower-cased in place. */
  function Lower(s: string): (r: string)
    ensures |r| == |s|
    ensures forall i :: 0 <= i < |s| ==> r[i] == LowerChar(s[i])
  {
    if s == [] then [] else [LowerChar(s[0])] + Lower(s[1..])
  }

  /** `s` holds no ASCII upper-case letter. */
  predicate HasNoUpper(s: string) {
    forall i :: 0 <= i < |s| ==> !('A' <= s[i] <= 'Z')
  }

  /** Lower-casing leaves no upper-case letter, so doing it twice changes nothing. */
  lemma LowerIdempotent(s: string)
    ensures HasNoUpper(Lower(s))
    ensures Lower(Lower(s)) == Lower(s)
  {
  }

  /** A string with no upper-case letter is its own lower-casing. */
  lemma LowerOfLowercase(s: string)
    requires HasNoUpper(s)
    ensures Lower(s) == s
  {
  }

  /** Lower-casing preserves occurrences: if `t` occurs in `s` then
      `t.lower()` occurs in `s.lower()`. */
  lemma LowerKeepsContains(s: string, t: string)
    requires Contains(s, t)
    ensures Contains(Lower(s), Lower(t))
  {
    var k := ContainsHasOccurrence(s, t);
    assert Lower(s)[k..k + |t|] == Lower(t) by {
      forall i | 0 <= i < |t| ensures Lower(s)[k..k + |t|][i] == Lower(t)[i] {
        assert s[k..k + |t|][i] == t[i];
      }
    }
    ContainsAt(Lower(s), Lower(t), k);
  }

  /** `s.replace(a, b)` for one-character `a` and `b`: every `a` becomes `b`,
      every other character is kept. */
  function ReplaceChar(s: string, a: char, b: char): (r: string)
    ensures |r| == |s|
    ensures forall i :: 0 <= i < |s| ==> r[i] == (if s[i] == a then b else s[i])
  {
    if s == [] then [] else [if s[0] == a then b else s[0]] + ReplaceChar(s[1..], a, b)
  }

  /** After replacing `a` by a different `b`, no `a` is left. */
  lemma ReplaceCharRemoves(s: string, a: char, b: char)
    requires a != b
    ensures a !in ReplaceChar(s, a, b)
  {
    var r := ReplaceChar(s, a, b);
    assert forall i :: 0 <= i < |r| ==> r[i] != a;
  }
}
