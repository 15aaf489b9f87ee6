/** String helpers the page relies on: ASCII lower-casing (`toLowerCase`),
    `trim`, `split` on one character and its inverse, HTML entity escaping
    (`sanitizeString`) and substring search (`includes`). */
module Text {

  // ---------------------------------------------------------------------------
  // Lower-casing
  // ---------------------------------------------------------------------------

  predicate IsAsciiUpper(c: char) { 'A' <= c <= 'Z' }

  /** Lower-cases one character; only the ASCII letters A-Z change. */
  function LowerChar(c: char): (r: char)
    ensures !IsAsciiUpper(r)
    ensures r != c ==> IsAsciiUpper(c) && r as int == c as int + 32
    ensures IsAsciiUpper(c) ==> r != c
  {
    if IsAsciiUpper(c) then (c as int + 32) as char else c
  }

  /** `s.toLowerCase()`, restricted to ASCII letters. */
  function Lower(s: string): (r: string)
    ensures |r| == |s|
    ensures forall i :: 0 <= i < |s| ==> r[i] == LowerChar(s[i])
    decreases |s|
  {
    if s == [] then [] else [LowerChar(s[0])] + Lower(s[1..])
  }

  /** `a.toLowerCase() === b.toLowerCase()`. */
  predicate EqualsIgnoreCase(a: string, b: string)
  {
    Lower(a) == Lower(b)
  }

  /** Case-insensitive equality is equality of lengths plus character-wise
      equality after lower-casing. */
  lemma EqualsIgnoreCaseCharwise(a: string, b: string)
    ensures EqualsIgnoreCase(a, b) <==>
              |a| == |b| && forall i :: 0 <= i < |a| ==> LowerChar(a[i]) == LowerChar(b[i])
  {
    if |a| == |b| && forall i :: 0 <= i < |a| ==> LowerChar(a[i]) == LowerChar(b[i]) {
      assert forall i :: 0 <= i < |a| ==> Lower(a)[i] == Lower(b)[i];
    }
  }

  // ---------------------------------------------------------------------------
  // trim
  // ---------------------------------------------------------------------------

  /** The characters `String.prototype.trim` removes: ECMAScript WhiteSpace
      (tab, vertical tab, form feed, space, no-break space, the byte order mark
      and the Unicode space separators) and LineTerminator (LF, CR, U+2028,
      U+2029). */
  predicate IsWhitespace(c: char)
  {
    c == '\t' || c == '\n' || c == '\U{000B}' || c == '\U{000C}' || c == '\r' ||
    c == ' ' || c == '\U{00A0}' || c == '\U{1680}' || ('\U{2000}' <= c <= '\U{200A}') ||
    c == '\U{2028}' || c == '\U{2029}' || c == '\U{202F}' || c == '\U{205F}' ||
    c == '\U{3000}' || c == '\U{FEFF}'
  }

  predicate AllWhitespace(s: string)
  {
    forall i :: 0 <= i < |s| ==> IsWhitespace(s[i])
  }

  /** Neither end of `s` is whitespace. */
  predicate IsTrimmed(s: string)
  {
    s == [] || (!IsWhitespace(s[0]) && !IsWhitespace(s[|s| - 1]))
  }

  /** Number of whitespace characters at the start of `s`. */
  function LeadingWhitespace(s: string): (n: nat)
    ensures n <= |s|
    ensures AllWhitespace(s[..n])
    ensures n < |s| ==> !IsWhitespace(s[n])
  {
    if s != [] && IsWhitespace(s[0]) then
      var m := LeadingWhitespace(s[1..]);
      assert s[1..][..m] == s[1..m + 1];
      1 + m
    else 0
  }

  /** Number of whitespace characters at the end of `s`. */
  function TrailingWhitespace(s: string): (n: nat)
    ensures n <= |s|
    ensures AllWhitespace(s[|s| - n..])
    ensures n < |s| ==> !IsWhitespace(s[|s| - 1 - n])
  {
    if s != [] && IsWhitespace(s[|s| - 1]) then
      var m := TrailingWhitespace(s[..|s| - 1]);
      assert s[..|s| - 1][|s| - 1 - m..] == s[|s| - 1 - m..|s| - 1];
      1 + m
    else 0
  }

  /** `r` is the piece of `s` starting at `i`, with only whitespace before
      and after it. */
  predicate IsMiddleOf(s: string, r: string, i: int)
  {
    0 <= i <= |s| - |r| && s == s[..i] + r + s[i + |r|..] &&
    AllWhitespace(s[..i]) && AllWhitespace(s[i + |r|..])
  }

  /** `s.trim()`: `s` with its leading and trailing whitespace removed. The
      result is the middle piece of `s` between two all-whitespace pieces,
      and it is itself trimmed. */
  function Trim(s: string): (r: string)
    ensures IsTrimmed(r)
    ensures exists i :: IsMiddleOf(s, r, i)
  {
    var a := LeadingWhitespace(s);
    var t := s[a..];
    var b := TrailingWhitespace(t);
    var r := t[..|t| - b];
    assert r != [] ==> r[0] == t[0] == s[a] && r[|r| - 1] == t[|t| - 1 - b];
    assert s[a + |r|..] == t[|t| - b..];
    assert s == s[..a] + r + s[a + |r|..];
    assert IsMiddleOf(s, r, a);
    r
  }

  /** A string with neither end whitespace is its own trim. */
  lemma TrimOfTrimmed(s: string)
    requires IsTrimmed(s)
    ensures Trim(s) == s
  {
  }

  lemma TrimIdempotent(s: string)
    ensures Trim(Trim(s)) == Trim(s)
  {
    TrimOfTrimmed(Trim(s));
  }

  // ---------------------------------------------------------------------------
  // split and join on one delimiter character
  // ---------------------------------------------------------------------------

  /** `parts.join(d)`. */
  function Join(parts: seq<string>, d: char): (s: string)
    requires |parts| >= 1
    decreases |parts|
  {
    if |parts| == 1 then parts[0] else parts[0] + [d] + Join(parts[1..], d)
  }

  /** Extending the first piece of a join by one character extends the joined
      string by that character. */
  lemma JoinExtendFirst(c: char, parts: seq<string>, d: char)
    requires |parts| >= 1
    ensures Join([[c] + parts[0]] + parts[1..], d) == [c] + Join(parts, d)
  {
    var ext := [[c] + parts[0]] + parts[1..];
    if |parts| > 1 {
      assert ext[1..] == parts[1..];
    }
  }

  /** What Split promises of `parts` for the string `s`. */
  predicate SplitsInto(s: string, d: char, parts: seq<string>)
  {
    && |parts| == multiset(s)[d] + 1
    && (forall i :: 0 <= i < |parts| ==> d !in parts[i])
    && Join(parts, d) == s
  }

  /** A leading delimiter opens an empty first piece. */
  lemma SplitStepAtDelimiter(s: string, d: char, rest: seq<string>)
    requires s != [] && s[0] == d && SplitsInto(s[1..], d, rest)
    ensures SplitsInto(s, d, [[]] + rest)
  {
    assert s == [s[0]] + s[1..];
    assert multiset(s) == multiset([s[0]]) + multiset(s[1..]);
    assert ([[]] + rest)[1..] == rest;
  }

  /** Any other leading character extends the first piece. */
  lemma SplitStepAtChar(s: string, d: char, rest: seq<string>)
    requires s != [] && s[0] != d && SplitsInto(s[1..], d, rest)
    ensures SplitsInto(s, d, [[s[0]] + rest[0]] + rest[1..])
  {
    var parts := [[s[0]] + rest[0]] + rest[1..];
    assert s == [s[0]] + s[1..];
    assert multiset(s) == multiset([s[0]]) + multiset(s[1..]);
    assert forall i :: 1 <= i < |parts| ==> parts[i] == rest[i];
    assert d !in parts[0];
    JoinExtendFirst(s[0], rest, d);
  }

  /** `s.split(d)`: the pieces of `s` between occurrences of `d`. There is one
      more piece than there are delimiters, no piece holds the delimiter, and
      joining the pieces with `d` gives back `s`. */
  function Split(s: string, d: char): (parts: seq<string>)
    ensures |parts| == multiset(s)[d] + 1
    ensures forall i :: 0 <= i < |parts| ==> d !in parts[i]
    ensures Join(parts, d) == s
    decreases |s|
  {
    if s == [] then [[]]
    else
      var rest := Split(s[1..], d);
      if s[0] == d then
        SplitStepAtDelimiter(s, d, rest);
        [[]] + rest
      else
        SplitStepAtChar(s, d, rest);
        [[s[0]] + rest[0]] + rest[1..]
  }

  /** Splitting a string whose first piece `a` is followed by the delimiter. */
  lemma {:induction false} SplitAfterPiece(a: string, d: char, b: string)
    requires d !in a
    ensures Split(a + [d] + b, d) == [a] + Split(b, d)
    decreases |a|
  {
    var s := a + [d] + b;
    if a == [] {
      assert s[0] == d && s[1..] == b;
    } else {
      var tail := a[1..] + [d] + b;
      assert s[0] == a[0] != d && s[1..] == tail;
      SplitAfterPiece(a[1..], d, b);
      var rest := Split(tail, d);
      assert Split(s, d) == [[a[0]] + rest[0]] + rest[1..];
      assert [a[0]] + a[1..] == a;
      assert rest[1..] == Split(b, d);
    }
  }

  /** Split is the inverse of Join on pieces free of the delimiter. */
  lemma {:induction false} SplitJoin(parts: seq<string>, d: char)
    requires |parts| >= 1
    requires forall i :: 0 <= i < |parts| ==> d !in parts[i]
    ensures Split(Join(parts, d), d) == parts
    decreases |parts|
  {
    if |parts| == 1 {
      var p := Split(parts[0], d);
      assert multiset(parts[0])[d] == 0;
      assert p == [p[0]];
    } else {
      SplitAfterPiece(parts[0], d, Join(parts[1..], d));
      SplitJoin(parts[1..], d);
      assert [parts[0]] + parts[1..] == parts;
    }
  }

  // ---------------------------------------------------------------------------
  // HTML entity escaping
  // ---------------------------------------------------------------------------

  /** The characters escaped by `sanitizeString`. */
  predicate IsSpecial(c: char)
  {
    c == '&' || c == '<' || c == '>' || c == '"' || c == '\'' || c == '/'
  }

  /** The characters that could open a tag or close an attribute value. */
  predicate IsMarkup(c: char)
  {
    c == '<' || c == '>' || c == '"' || c == '\'' || c == '/'
  }

  /** The replacement of one character: its entity for the six special
      characters, the character itself otherwise. */
  function EscapeChar(c: char): (r: string)
    ensures forall i :: 0 <= i < |r| ==> !IsMarkup(r[i])
    ensures !IsSpecial(c) <==> r == [c]
  {
    match c
    case '&' => "&amp;"
    case '<' => "&lt;"
    case '>' => "&gt;"
    case '"' => "&quot;"
    case '\'' => "&#x27;"
    case '/' => "&#x2F;"
    case _ => [c]
  }

  /** `sanitizeString(s)`: every character replaced by EscapeChar, in order. */
  function Escape(s: string): (r: string)
    ensures |r| >= |s|
    ensures forall i :: 0 <= i < |r| ==> !IsMarkup(r[i])
    decreases |s|
  {
    if s == [] then [] else EscapeChar(s[0]) + Escape(s[1..])
  }

  /** Escaping distributes over concatenation. */
  lemma {:induction false} EscapeConcat(a: string, b: string)
    ensures Escape(a + b) == Escape(a) + Escape(b)
    decreases |a|
  {
    if a != [] {
      var ab := a + b;
      assert ab[0] == a[0] && ab[1..] == a[1..] + b;
      EscapeConcat(a[1..], b);
      calc {
        Escape(ab);
        EscapeChar(a[0]) + Escape(a[1..] + b);
        EscapeChar(a[0]) + (Escape(a[1..]) + Escape(b));
        (EscapeChar(a[0]) + Escape(a[1..])) + Escape(b);
        Escape(a) + Escape(b);
      }
    } else {
      assert a + b == b;
    }
  }

  /** A string without special characters is left unchanged. */
  lemma {:induction false} EscapeIdentity(s: string)
    requires forall i :: 0 <= i < |s| ==> !IsSpecial(s[i])
    ensures Escape(s) == s
    decreases |s|
  {
    if s != [] {
      EscapeIdentity(s[1..]);
    }
  }

  // ---------------------------------------------------------------------------
  // Substring search
  // ---------------------------------------------------------------------------

  predicate OccursAt(h: string, n: string, i: nat)
  {
    i + |n| <= |h| && h[i..i + |n|] == n
  }

  /** `h.includes(n)`: `n` occurs in `h` at some position. */
  function Contains(h: string, n: string): (r: bool)
    ensures r <==> exists i: nat :: OccursAt(h, n, i)
    decreases |h|
  {
    if |n| <= |h| && h[..|n|] == n then
      assert OccursAt(h, n, 0);
      true
    else if h == [] then
      false
    else
      var r := Contains(h[1..], n);
      assert forall i: nat :: OccursAt(h[1..], n, i) <==> OccursAt(h, n, i + 1);
      assert forall i: nat :: OccursAt(h, n, i) && i > 0 ==> OccursAt(h[1..], n, i - 1);
      r
  }
}
