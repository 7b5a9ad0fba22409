/** SQLite's `LIKE` operator without an `ESCAPE` clause, as the file search
    uses it: `%` matches any run of characters (possibly none), `_` matches
    exactly one character, and every other character matches itself with the
    26 ASCII letters compared case-insensitively. */
module LikeOperator {

  /** Maps an ASCII upper-case letter to lower case and leaves every other
      character alone, as SQLite's default `LIKE` folding does. */
  function AsciiLower(c: char): (r: char)
    ensures 'A' <= c <= 'Z' ==> 'a' <= r <= 'z' && r as int - c as int == 32
    ensures !('A' <= c <= 'Z') ==> r == c
  {
    if 'A' <= c <= 'Z' then (c as int + 32) as char else c
  }

  /** The two characters are equal up to ASCII case. */
  predicate SameIgnoringAsciiCase(a: char, b: char) {
    AsciiLower(a) == AsciiLower(b)
  }

  /** `text LIKE pattern`. */
  predicate Like(text: string, pattern: string)
    decreases |text| + |pattern|
  {
    if pattern == [] then text == []
    else if pattern[0] == '%' then
      Like(text, pattern[1..]) || (text != [] && Like(text[1..], pattern))
    else
      && text != []
      && (pattern[0] == '_' || SameIgnoringAsciiCase(text[0], pattern[0]))
      && Like(text[1..], pattern[1..])
  }

  /** The pattern holds no wildcard character. */
  predicate WildcardFree(p: string) {
    forall i | 0 <= i < |p| :: p[i] != '%' && p[i] != '_'
  }

  /** `text` starts with `prefix` when ASCII case is ignored. */
  predicate StartsWithIgnoringAsciiCase(text: string, prefix: string) {
    |prefix| <= |text| && forall i | 0 <= i < |prefix| :: SameIgnoringAsciiCase(text[i], prefix[i])
  }

  /** A lone `%` matches every text, so an empty prefix selects every name. */
  lemma {:induction false} PercentMatchesEverything(text: string)
    ensures Like(text, "%")
    decreases |text|
  {
    if text != [] {
      PercentMatchesEverything(text[1..]);
    }
  }

  /** For a prefix without wildcards, `name LIKE prefix || '%'` holds exactly
      when the name starts with the prefix, ignoring ASCII case. */
  lemma {:induction false} PrefixPatternMatchesPrefixes(text: string, prefix: string)
    requires WildcardFree(prefix)
    ensures Like(text, prefix + "%") <==> StartsWithIgnoringAsciiCase(text, prefix)
    decreases |prefix|
  {
    if prefix == [] {
      assert prefix + "%" == "%";
      PercentMatchesEverything(text);
    } else {
      var p := prefix + "%";
      assert p[0] == prefix[0];
      assert p[1..] == prefix[1..] + "%";
      PrefixPatternMatchesPrefixes(if text == [] then [] else text[1..], prefix[1..]);
      if text != [] && StartsWithIgnoringAsciiCase(text[1..], prefix[1..]) && SameIgnoringAsciiCase(text[0], prefix[0]) {
        forall i | 0 <= i < |prefix|
          ensures SameIgnoringAsciiCase(text[i], prefix[i])
        {
          if i > 0 {
            assert text[1..][i - 1] == text[i];
          }
        }
      }
      if StartsWithIgnoringAsciiCase(text, prefix) {
        forall i | 0 <= i < |prefix[1..]|
          ensures SameIgnoringAsciiCase(text[1..][i], prefix[1..][i])
        {
          assert text[1..][i] == text[i + 1];
        }
      }
    }
  }

  /** A name that differs from a wildcard-free prefix (ignoring ASCII case)
      at some position of the prefix is not selected. */
  lemma MismatchWithinPrefixExcludes(text: string, prefix: string, k: nat)
    requires WildcardFree(prefix)
    requires k < |prefix| && k < |text| && !SameIgnoringAsciiCase(text[k], prefix[k])
    ensures !Like(text, prefix + "%")
  {
    PrefixPatternMatchesPrefixes(text, prefix);
  }

  /** The match ignores ASCII case: an upper-case prefix selects a lower-case name. */
  lemma MatchIgnoresAsciiCase()
    ensures Like("readme.txt", "READ%")
  {
    var prefix := "READ";
    assert WildcardFree(prefix);
    PrefixPatternMatchesPrefixes("readme.txt", prefix);
  }

  /** An underscore in the prefix stands for any one character. */
  lemma UnderscoreInPrefixIsAWildcard()
    ensures Like("a1c", "a_c%")
  {
    PercentMatchesEverything("");
    assert Like("", "%");
    assert Like("c", "c%");
    assert Like("1c", "_c%");
  }
}
