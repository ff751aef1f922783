/** The glob pattern `<stem>_?.*` that the ear dataset uses to find the
    instance-mask files of one image. */
module InstanceGlob {
  import opened PathOps

  /** Whether `path` matches `stem + "_?.*"` as `glob.glob` matches it: the
      stem literally, an underscore, exactly one character, a dot, then any
      suffix. Neither wildcard crosses a directory separator. */
  predicate MatchesInstancePattern(stem: string, path: string) {
    |path| >= |stem| + 3 &&
    path[..|stem|] == stem &&
    path[|stem|] == '_' &&
    path[|stem| + 1] != '/' &&
    path[|stem| + 2] == '.' &&
    '/' !in path[|stem| + 3..]
  }

  /** A path built as stem, '_', one index character, '.', suffix matches
      exactly when neither the index nor the suffix holds a separator. */
  lemma {:induction false} BuiltInstancePathMatches(stem: string, index: char, suffix: string)
    ensures MatchesInstancePattern(stem, stem + "_" + [index] + "." + suffix)
            <==> index != '/' && '/' !in suffix
  {
    var path := stem + "_" + [index] + "." + suffix;
    assert path[..|stem|] == stem;
    assert path[|stem|] == '_' && path[|stem| + 1] == index && path[|stem| + 2] == '.';
    assert path[|stem| + 3..] == suffix;
  }

  /** Every matching path is built that way. */
  lemma {:induction false} MatchingPathDecomposes(stem: string, path: string)
    requires MatchesInstancePattern(stem, path)
    ensures path == stem + "_" + [path[|stem| + 1]] + "." + path[|stem| + 3..]
  {
    var n := |stem|;
    assert path == path[..n] + path[n..n + 1] + path[n + 1..n + 2] + path[n + 2..n + 3] + path[n + 3..];
    assert path[n..n + 1] == "_" && path[n + 2..n + 3] == ".";
  }

  /** An instance index of two or more characters, such as `_10.png`, is never
      matched: the character after the first index character is not a dot. */
  lemma {:induction false} MultiCharacterIndexNeverMatches(stem: string, first: char, second: char, rest: string)
    requires second != '.'
    ensures !MatchesInstancePattern(stem, stem + "_" + [first, second] + rest)
  {
    var path := stem + "_" + [first, second] + rest;
    assert path[|stem| + 2] == second;
  }

  /** Matching is unaffected by a common directory prefix in front of both
      the stem and the candidate. */
  lemma {:induction false} MatchesUnderPrefix(prefix: string, stem: string, name: string)
    ensures MatchesInstancePattern(prefix + stem, prefix + name)
            <==> MatchesInstancePattern(stem, name)
  {
    var s, p := prefix + stem, prefix + name;
    var n, m := |prefix|, |stem|;
    if |p| >= |s| + 3 {
      assert p[..n + m] == prefix + name[..m] by {
        assert forall k :: n <= k < n + m ==> p[k] == name[k - n];
      }
      if p[..n + m] == s {
        assert name[..m] == p[..n + m][n..] == s[n..] == stem;
      }
      if name[..m] == stem {
        assert p[..n + m] == s;
      }
      assert p[n + m] == name[m] && p[n + m + 1] == name[m + 1] && p[n + m + 2] == name[m + 2];
      DropConcat(prefix, name, m + 3);
    }
  }
}
