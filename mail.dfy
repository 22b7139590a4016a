/**
 * The mail format of the user schemas, the pattern ^[^@]+@[^@]+$, written
 * as a predicate on the string instead of a regular expression, and its
 * characterisation by the number and the position of '@' characters.
 */
module MailAddress {

  /** No character of s is '@': the class [^@] holds over the whole run. */
  predicate NoAt(s: string) {
    forall i | 0 <= i < |s| :: s[i] != '@'
  }

  /**
   * ^[^@]+@[^@]+$ read literally: a non-empty run without '@', one '@',
   * then another non-empty run without '@' up to the end of the string.
   */
  predicate MailPattern(s: string) {
    exists i | 0 < i < |s| - 1 :: s[i] == '@' && NoAt(s[..i]) && NoAt(s[i + 1..])
  }

  /** The number of '@' characters in s. */
  function AtCount(s: string): nat {
    if s == [] then 0 else AtCount(s[..|s| - 1]) + (if s[|s| - 1] == '@' then 1 else 0)
  }

  lemma {:induction false} AtCountConcat(a: string, b: string)
    ensures AtCount(a + b) == AtCount(a) + AtCount(b)
    decreases |b|
  {
    if b == [] {
      assert a + b == a;
    } else {
      assert (a + b)[..|a + b| - 1] == a + b[..|b| - 1];
      AtCountConcat(a, b[..|b| - 1]);
    }
  }

  /** A run has no '@' exactly when it counts none. */
  lemma {:induction false} NoAtIffNoneCounted(s: string)
    ensures NoAt(s) <==> AtCount(s) == 0
    decreases |s|
  {
    if s != [] {
      var init := s[..|s| - 1];
      NoAtIffNoneCounted(init);
      assert forall i | 0 <= i < |init| :: init[i] == s[i];
    }
  }

  /** A string that counts an '@' has one at some position. */
  lemma {:induction false} CountedAtIsSomewhere(s: string)
    requires AtCount(s) > 0
    ensures exists i | 0 <= i < |s| :: s[i] == '@'
    decreases |s|
  {
    if s[|s| - 1] != '@' {
      var init := s[..|s| - 1];
      CountedAtIsSomewhere(init);
      var i :| 0 <= i < |init| && init[i] == '@';
      assert s[i] == '@';
    }
  }

  /** Splitting s around position i splits its count. */
  lemma SplitCount(s: string, i: int)
    requires 0 <= i < |s|
    ensures AtCount(s) == AtCount(s[..i]) + (if s[i] == '@' then 1 else 0) + AtCount(s[i + 1..])
  {
    assert s == s[..i] + [s[i]] + s[i + 1..];
    AtCountConcat(s[..i] + [s[i]], s[i + 1..]);
    AtCountConcat(s[..i], [s[i]]);
    assert [s[i]][..0] == [];
  }

  /**
   * The pattern accepts a string exactly when it is non-empty, holds
   * exactly one '@', and that '@' is neither its first nor its last character.
   */
  lemma MailPatternCharacterised(s: string)
    ensures MailPattern(s) <==> |s| > 0 && AtCount(s) == 1 && s[0] != '@' && s[|s| - 1] != '@'
  {
    if MailPattern(s) {
      var i :| 0 < i < |s| - 1 && s[i] == '@' && NoAt(s[..i]) && NoAt(s[i + 1..]);
      SplitCount(s, i);
      NoAtIffNoneCounted(s[..i]);
      NoAtIffNoneCounted(s[i + 1..]);
      assert s[0] == s[..i][0];
      assert s[|s| - 1] == s[i + 1..][|s| - i - 2];
    }
    if |s| > 0 && AtCount(s) == 1 && s[0] != '@' && s[|s| - 1] != '@' {
      CountedAtIsSomewhere(s);
      var i :| 0 <= i < |s| && s[i] == '@';
      SplitCount(s, i);
      NoAtIffNoneCounted(s[..i]);
      NoAtIffNoneCounted(s[i + 1..]);
      assert 0 < i < |s| - 1;
    }
  }

  /** Strings with no '@', or with two of them, never match. */
  lemma MailPatternNeedsOneAt(s: string)
    requires AtCount(s) != 1
    ensures !MailPattern(s)
  {
    MailPatternCharacterised(s);
  }
}
