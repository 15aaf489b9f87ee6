/** The `catch` block of `onSubmit`: how a failure of the star lookup is turned
    into the text shown to the user. */
module Reporting {
  import opened Http
  import opened Text

  /** What the `catch` block receives: the page's own HTTPError, or any other
      error, with its `name` and `message`. */
  datatype Caught = HttpFailure(error: HttpError) | Other(name: string, message: string)

  /** The three outcomes the page distinguishes. */
  datatype Outcome = NotFound | RateLimited | Unexpected(detail: string)

  const RateLimitPhrase := "api rate limit exceeded"
  // The page's texts, written in pieces of at most ten characters so that
  // each piece can be checked for markup one character at a time; the
  // strings are the page's own.
  const NotFoundText := "User or " + "repository" + " not " + "found. " + "Please " + "check the " + "inputs " + "and try " + "again."
  const RateLimitedText := "API rate " + "limit " + "exceeded. " + "Please " + "wait and " + "try again " + "later."
  const UnexpectedPrefix := "unexpected" + " error: "

  /** `Error.prototype.toString`: the name and message joined by ": ", or
      whichever of the two is non-empty. The result is empty only when both
      are, and it starts with the name. */
  function ErrorString(name: string, message: string): (r: string)
    ensures r == "" <==> name == "" && message == ""
    ensures |name| <= |r| && r[..|name|] == name
    ensures message != "" ==> |message| <= |r| && r[|r| - |message|..] == message
  {
    if name == "" then message
    else if message == "" then name
    else name + ": " + message
  }

  /** `err.toString()` for a caught error; an HTTPError's name is "HTTPError".
      An HTTPError always describes itself by that name. */
  function Describe(c: Caught): (r: string)
    ensures c.HttpFailure? ==> |r| >= 9 && r[..9] == "HTTPError"
  {
    match c
    case HttpFailure(e) => ErrorString("HTTPError", e.message)
    case Other(name, message) => ErrorString(name, message)
  }

  /** The classification: status 404 is "not found"; status 403 whose
      lower-cased message contains "api rate limit exceeded" is "rate limited";
      everything else, including errors that are not HTTPErrors, is unexpected
      and shows the escaped error string. */
  function Classify(c: Caught): (o: Outcome)
    ensures o.NotFound? <==> c.HttpFailure? && c.error.status == 404
    ensures o.RateLimited? <==>
              c.HttpFailure? && c.error.status == 403 && Contains(Lower(c.error.message), RateLimitPhrase)
    ensures o.Unexpected? ==> o.detail == Escape(Describe(c))
    ensures o.Unexpected? ==> MarkupFree(o.detail)
  {
    match c
    case HttpFailure(e) =>
      if e.status == 404 then NotFound
      else if e.status == 403 && Contains(Lower(e.message), RateLimitPhrase) then RateLimited
      else Unexpected(Escape(Describe(c)))
    case Other(_, _) => Unexpected(Escape(Describe(c)))
  }

  /** No character of `s` can open or close markup or an attribute. */
  predicate MarkupFree(s: string)
  {
    forall i :: 0 <= i < |s| ==> !IsMarkup(s[i])
  }

  /** No character from position `i` on is markup, checked one character at
      a time, so that Dafny can evaluate it on a short literal. */
  predicate NoMarkupFrom(s: string, i: nat)
    decreases |s| - i
  {
    i >= |s| || (!IsMarkup(s[i]) && NoMarkupFrom(s, i + 1))
  }

  lemma {:induction false} NoMarkupFromIsMarkupFree(s: string, i: nat)
    requires NoMarkupFrom(s, i)
    ensures forall k :: i <= k < |s| ==> !IsMarkup(s[k])
    decreases |s| - i
  {
    if i < |s| {
      NoMarkupFromIsMarkupFree(s, i + 1);
    }
  }

  /** A short literal without markup characters, checked character by character. */
  lemma LiteralMarkupFree(s: string)
    requires NoMarkupFrom(s, 0)
    ensures MarkupFree(s)
  {
    NoMarkupFromIsMarkupFree(s, 0);
  }

  lemma MarkupFreeConcat(a: string, b: string)
    requires MarkupFree(a) && MarkupFree(b)
    ensures MarkupFree(a + b)
  {
    forall i | 0 <= i < |a + b| ensures !IsMarkup((a + b)[i]) {
      if i >= |a| {
        assert (a + b)[i] == b[i - |a|];
      }
    }
  }

  /** The fixed texts, in pieces short enough for Dafny to check character
      by character, hold no markup character. */
  lemma NotFoundTextIsMarkupFree()
    ensures MarkupFree(NotFoundText)
  {
    LiteralMarkupFree("User or ");
    LiteralMarkupFree("repository");
    LiteralMarkupFree(" not ");
    LiteralMarkupFree("found. ");
    LiteralMarkupFree("Please ");
    LiteralMarkupFree("check the ");
    LiteralMarkupFree("inputs ");
    LiteralMarkupFree("and try ");
    LiteralMarkupFree("again.");
    MarkupFreeConcat("User or ", "repository");
    MarkupFreeConcat("User or " + "repository", " not ");
    MarkupFreeConcat("User or " + "repository" + " not ", "found. ");
    MarkupFreeConcat("User or " + "repository" + " not " + "found. ", "Please ");
    MarkupFreeConcat("User or " + "repository" + " not " + "found. " + "Please ", "check the ");
    MarkupFreeConcat("User or " + "repository" + " not " + "found. " + "Please " + "check the ", "inputs ");
    MarkupFreeConcat("User or " + "repository" + " not " + "found. " + "Please " + "check the " + "inputs ", "and try ");
    MarkupFreeConcat("User or " + "repository" + " not " + "found. " + "Please " + "check the " + "inputs " + "and try ", "again.");
  }

  lemma RateLimitedTextIsMarkupFree()
    ensures MarkupFree(RateLimitedText)
  {
    LiteralMarkupFree("API rate ");
    LiteralMarkupFree("limit ");
    LiteralMarkupFree("exceeded. ");
    LiteralMarkupFree("Please ");
    LiteralMarkupFree("wait and ");
    LiteralMarkupFree("try again ");
    LiteralMarkupFree("later.");
    MarkupFreeConcat("API rate ", "limit ");
    MarkupFreeConcat("API rate " + "limit ", "exceeded. ");
    MarkupFreeConcat("API rate " + "limit " + "exceeded. ", "Please ");
    MarkupFreeConcat("API rate " + "limit " + "exceeded. " + "Please ", "wait and ");
    MarkupFreeConcat("API rate " + "limit " + "exceeded. " + "Please " + "wait and ", "try again ");
    MarkupFreeConcat("API rate " + "limit " + "exceeded. " + "Please " + "wait and " + "try again ", "later.");
  }

  lemma UnexpectedPrefixIsMarkupFree()
    ensures MarkupFree(UnexpectedPrefix)
  {
    LiteralMarkupFree("unexpected");
    LiteralMarkupFree(" error: ");
    MarkupFreeConcat("unexpected", " error: ");
  }

  /** `resultString` in the `catch` block: the fixed sentence of a known
      outcome, or `unexpected error: ` and the detail. Given an escaped
      detail, the text holds no markup character, and only an unexpected
      outcome shows the `unexpected error: ` prefix. */
  function ReportText(o: Outcome): (s: string)
    requires o.Unexpected? ==> MarkupFree(o.detail)
    ensures MarkupFree(s)
    ensures o.Unexpected? <==> |UnexpectedPrefix| <= |s| && s[..|UnexpectedPrefix|] == UnexpectedPrefix
  {
    NotFoundTextIsMarkupFree();
    RateLimitedTextIsMarkupFree();
    UnexpectedPrefixIsMarkupFree();
    match o
    case NotFound =>
      assert NotFoundText[0] == 'U' && UnexpectedPrefix[0] == 'u';
      NotFoundText
    case RateLimited =>
      assert RateLimitedText[0] == 'A' && UnexpectedPrefix[0] == 'u';
      RateLimitedText
    case Unexpected(detail) =>
      var s := UnexpectedPrefix + detail;
      assert s[..|UnexpectedPrefix|] == UnexpectedPrefix;
      s
  }

  /** Whatever error the `catch` block receives, the text it writes into the
      page holds no markup character. */
  lemma ReportOfCaughtIsMarkupFree(c: Caught)
    ensures MarkupFree(ReportText(Classify(c)))
  {
  }

  /** An HTTPError the page throws for a non-ok answer, shown as unexpected,
      reads `HTTPError: ` followed by its message, since that message is
      never empty. */
  lemma PageErrorDescription<T>(response: Response<T>)
    requires response.Failure?
    ensures Describe(HttpFailure(ErrorOf(response))) == "HTTPError: " + ErrorOf(response).message
  {
  }

  /** The rate-limit phrase appearing anywhere in the message, in any letter
      case, makes a 403 a rate-limit outcome. */
  lemma RateLimitRecognised(message: string, at: nat)
    requires at + |RateLimitPhrase| <= |message|
    requires Lower(message[at..at + |RateLimitPhrase|]) == RateLimitPhrase
    ensures Classify(HttpFailure(HttpError(403, message))) == RateLimited
  {
    var n := |RateLimitPhrase|;
    var lowered := Lower(message);
    var piece := message[at..at + n];
    assert lowered[at..at + n] == Lower(piece) by {
      forall i | 0 <= i < n ensures lowered[at..at + n][i] == Lower(piece)[i] {
        assert piece[i] == message[at + i];
      }
    }
    assert OccursAt(lowered, RateLimitPhrase, at);
    assert Contains(lowered, RateLimitPhrase);
  }

  /** Whether a 403 is a rate-limit outcome does not depend on the letter case
      of its message. */
  lemma RateLimitIgnoresCase(m1: string, m2: string)
    requires EqualsIgnoreCase(m1, m2)
    ensures Classify(HttpFailure(HttpError(403, m1))).RateLimited? == Classify(HttpFailure(HttpError(403, m2))).RateLimited?
  {
  }

  /** A 403 whose message is too short to hold the phrase is not mistaken for
      rate limiting. */
  lemma ShortForbiddenIsUnexpected(message: string)
    requires |message| < |RateLimitPhrase|
    ensures Classify(HttpFailure(HttpError(403, message))).Unexpected?
  {
  }
}
