/** The two input rules of the form (the regular expressions `validUsernameRegex`
    and `validRepoRegex`) and `parseRepoInput`, which splits `owner/repo`. */
module Inputs {
  import opened Results
  import opened Text

  // ---------------------------------------------------------------------------
  // Character classes (the regexes carry the `i` flag, so letters of both cases)
  // ---------------------------------------------------------------------------

  /** `[a-z\d]` under the `i` flag. */
  predicate IsAsciiAlnum(c: char)
  {
    ('a' <= c <= 'z') || ('A' <= c <= 'Z') || ('0' <= c <= '9')
  }

  /** `[a-z\d._-]` under the `i` flag. */
  predicate IsRepoChar(c: char)
  {
    IsAsciiAlnum(c) || c == '.' || c == '_' || c == '-'
  }

  // ---------------------------------------------------------------------------
  // Username: /^[a-z\d](?:[a-z\d]|-(?!-)){0,38}$/i
  // ---------------------------------------------------------------------------

  /** One repetition of `(?:[a-z\d]|-(?!-))` at position `i`: a letter or digit,
      or a hyphen not followed by another hyphen. */
  predicate UsernameTokenAt(s: string, i: nat)
    requires i < |s|
  {
    IsAsciiAlnum(s[i]) || (s[i] == '-' && !(i + 1 < |s| && s[i + 1] == '-'))
  }

  /** The group repeated at most `budget` more times from position `i` up to
      the end of the string. Each repetition consumes exactly one character,
      so the match is deterministic. */
  predicate UsernameTailMatches(s: string, i: nat, budget: nat)
    requires i <= |s|
    decreases |s| - i
  {
    i == |s| || (budget > 0 && UsernameTokenAt(s, i) && UsernameTailMatches(s, i + 1, budget - 1))
  }

  /** The whole regex, anchored at both ends. The `{0,38}` bound after the
      first character caps a match at 39 characters. */
  predicate UsernameRegexMatches(s: string): (matches: bool)
    ensures matches ==> 1 <= |s| <= 39 && IsAsciiAlnum(s[0])
  {
    if |s| == 0 then false
    else
      UsernameTailMatchesIff(s, 1, 38);
      IsAsciiAlnum(s[0]) && UsernameTailMatches(s, 1, 38)
  }

  /** The rule the regex encodes, stated character by character: 1 to 39
      characters, the first a letter or digit, each a letter, digit or hyphen,
      and no two hyphens in a row (a trailing hyphen is allowed). */
  predicate IsValidUsername(s: string)
  {
    && 1 <= |s| <= 39
    && IsAsciiAlnum(s[0])
    && (forall i :: 0 <= i < |s| ==> IsAsciiAlnum(s[i]) || s[i] == '-')
    && (forall i :: 0 <= i < |s| - 1 ==> !(s[i] == '-' && s[i + 1] == '-'))
  }

  lemma {:induction false} UsernameTailMatchesIff(s: string, i: nat, budget: nat)
    requires i <= |s|
    ensures UsernameTailMatches(s, i, budget) <==>
              |s| - i <= budget && forall k :: i <= k < |s| ==> UsernameTokenAt(s, k)
    decreases |s| - i
  {
    if i < |s| && budget > 0 {
      UsernameTailMatchesIff(s, i + 1, budget - 1);
    }
  }

  /** The regex accepts exactly the usernames the character rule allows. */
  lemma UsernameRegexIsRule(s: string)
    ensures UsernameRegexMatches(s) <==> IsValidUsername(s)
  {
    if |s| >= 1 {
      UsernameTailMatchesIff(s, 1, 38);
      if IsValidUsername(s) {
        forall k | 1 <= k < |s| ensures UsernameTokenAt(s, k) {
          if !IsAsciiAlnum(s[k]) {
            assert s[k] == '-';
            assert !(k + 1 < |s| && s[k + 1] == '-');
          }
        }
      }
      if UsernameRegexMatches(s) {
        forall k | 0 <= k < |s| - 1 ensures !(s[k] == '-' && s[k + 1] == '-') {
          if k > 0 {
            assert UsernameTokenAt(s, k);
          }
        }
        forall k | 0 <= k < |s| ensures IsAsciiAlnum(s[k]) || s[k] == '-' {
          if k > 0 {
            assert UsernameTokenAt(s, k);
          }
        }
      }
    }
  }

  // ---------------------------------------------------------------------------
  // Repository: /^[a-z\d._-]+\/[a-z\d._-]+$/i
  // ---------------------------------------------------------------------------

  predicate AllRepoChars(s: string)
  {
    forall i :: 0 <= i < |s| ==> IsRepoChar(s[i])
  }

  /** A string of repository characters holds no slash. */
  lemma RepoCharsHaveNoSlash(s: string)
    requires AllRepoChars(s)
    ensures '/' !in s && multiset(s)['/'] == 0
  {
    forall k | 0 <= k < |s| ensures s[k] != '/' { assert IsRepoChar(s[k]); }
  }

  /** A split at a slash between two runs of repository characters. */
  predicate RepoSplitAt(s: string, i: int)
  {
    0 < i < |s| - 1 && s[i] == '/' && AllRepoChars(s[..i]) && AllRepoChars(s[i + 1..])
  }

  lemma RepoSplitFacts(s: string, i: int)
    requires RepoSplitAt(s, i)
    ensures IsTrimmed(s) && multiset(s)['/'] == 1
  {
    var owner, repo := s[..i], s[i + 1..];
    assert s == owner + "/" + repo;
    assert s[0] == owner[0] && s[|s| - 1] == repo[|repo| - 1];
    RepoCharsHaveNoSlash(owner);
    RepoCharsHaveNoSlash(repo);
    assert multiset(s) == multiset(owner) + multiset("/") + multiset(repo);
  }

  /** The regex: a non-empty run of repository characters, a slash, and another
      non-empty run. Since `/` is not a repository character, the slash is the
      only one in the string, and since whitespace is not one either, an
      accepted string is already trimmed. */
  predicate IsValidRepoInput(s: string): (valid: bool)
    ensures valid ==> IsTrimmed(s) && multiset(s)['/'] == 1
  {
    if exists i :: 0 < i < |s| - 1 && RepoSplitAt(s, i) then
      var i :| 0 < i < |s| - 1 && RepoSplitAt(s, i);
      RepoSplitFacts(s, i);
      true
    else false
  }

  // ---------------------------------------------------------------------------
  // parseRepoInput
  // ---------------------------------------------------------------------------

  datatype RepoName = RepoName(owner: string, repo: string)

  /** `parseRepoInput(input)`: the trimmed input split on `/`; an owner and a
      repository when there are exactly two pieces, `null` otherwise. */
  function ParseRepoInput(input: string): (r: Option<RepoName>)
    ensures r.Some? <==> multiset(Trim(input))['/'] == 1
    ensures r.Some? ==> r.value.owner + "/" + r.value.repo == Trim(input)
    ensures r.Some? ==> '/' !in r.value.owner && '/' !in r.value.repo
  {
    var parts := Split(Trim(input), '/');
    if |parts| == 2 then
      assert parts[1..] == [parts[1]];
      assert Join(parts, '/') == parts[0] + "/" + parts[1];
      Some(RepoName(parts[0], parts[1]))
    else None
  }

  /** Formatting an owner and repository and parsing the text back gives the
      same pair, when neither holds a slash and the text has no surrounding
      whitespace. */
  lemma ParseRepoInputRoundTrip(owner: string, repo: string)
    requires '/' !in owner && '/' !in repo
    requires IsTrimmed(owner + "/" + repo)
    ensures ParseRepoInput(owner + "/" + repo) == Some(RepoName(owner, repo))
  {
    var s := owner + "/" + repo;
    TrimOfTrimmed(s);
    SplitAfterPiece(owner, '/', repo);
    SplitJoin([repo], '/');
  }

  /** Every input the repository regex accepts parses into a non-empty owner
      and a non-empty repository made of repository characters. */
  lemma ValidRepoInputParses(s: string)
    requires IsValidRepoInput(s)
    ensures var r := ParseRepoInput(s);
            && r.Some?
            && r.value.owner + "/" + r.value.repo == s
            && |r.value.owner| > 0 && |r.value.repo| > 0
            && AllRepoChars(r.value.owner) && AllRepoChars(r.value.repo)
  {
    var i :| 0 < i < |s| - 1 && RepoSplitAt(s, i);
    var owner, repo := s[..i], s[i + 1..];
    assert s == owner + "/" + repo;
    RepoSplitFacts(s, i);
    RepoCharsHaveNoSlash(owner);
    RepoCharsHaveNoSlash(repo);
    ParseRepoInputRoundTrip(owner, repo);
  }

  /** The page validates the trimmed repository field but parses the field as
      typed. Both trim, so every field whose trimmed text passes the regex
      parses, and the `!repoData` branch of `onSubmit` is never taken after
      validation. */
  lemma ValidatedFieldParses(raw: string)
    requires IsValidRepoInput(Trim(raw))
    ensures var r := ParseRepoInput(raw);
            && r.Some?
            && r.value.owner + "/" + r.value.repo == Trim(raw)
            && |r.value.owner| > 0 && |r.value.repo| > 0
            && AllRepoChars(r.value.owner) && AllRepoChars(r.value.repo)
  {
    ValidRepoInputParses(Trim(raw));
    TrimIdempotent(raw);
  }
}
