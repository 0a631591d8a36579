/**
 * The text primitives the filters are built from: Python's `str.lower()`
 * and the substring operator `pat in text`, and `any(...)` over a keyword
 * list where every keyword and the text are lower-cased first.
 */
module Text {

  /** Lower-cases one character (ASCII letters only, see README). */
  function LowerChar(c: char): char {
    if 'A' <= c <= 'Z' then (c as int - 'A' as int + 'a' as int) as char else c
  }

  /** `s.lower()`. */
  function Lower(s: string): (r: string)
    ensures |r| == |s|
  {
    seq(|s|, i requires 0 <= i < |s| => LowerChar(s[i]))
  }

  /** Lower-casing twice is lower-casing once. */
  lemma LowerIdempotent(s: string)
    ensures Lower(Lower(s)) == Lower(s)
  {
  }

  /** `pat` occurs in `text` starting at index `i`. */
  ghost predicate MatchesAt(pat: string, text: string, i: int) {
    0 <= i <= |text| - |pat| && text[i..i + |pat|] == pat
  }

  /** The declarative meaning of `pat in text`: `pat` starts at some index of `text`. */
  ghost predicate IsSubstring(pat: string, text: string) {
    exists i :: MatchesAt(pat, text, i)
  }

  /** `pat in text`, as a left-to-right search. */
  function Occurs(pat: string, text: string): bool
    decreases |text|
  {
    if |pat| > |text| then false
    else if text[..|pat|] == pat then true
    else Occurs(pat, text[1..])
  }

  /** The search finds `pat` exactly when `pat` is a substring of `text`. */
  lemma {:induction false} OccursIff(pat: string, text: string)
    ensures Occurs(pat, text) <==> IsSubstring(pat, text)
    decreases |text|
  {
    if |pat| > |text| {
    } else if text[..|pat|] == pat {
      assert MatchesAt(pat, text, 0);
    } else {
      var rest := text[1..];
      OccursIff(pat, rest);
      if Occurs(pat, rest) {
        var i :| MatchesAt(pat, rest, i);
        assert text[i + 1..i + 1 + |pat|] == rest[i..i + |pat|];
        assert MatchesAt(pat, text, i + 1);
      }
      if IsSubstring(pat, text) {
        var i :| MatchesAt(pat, text, i);
        assert text[0..0 + |pat|] == text[..|pat|];
        assert i != 0;
        assert rest[i - 1..i - 1 + |pat|] == text[i..i + |pat|];
        assert MatchesAt(pat, rest, i - 1);
      }
    }
  }

  /** `any(k.lower() in text.lower() for k in keywords)`, short-circuiting on the first hit. */
  function AnyOccurs(keywords: seq<string>, text: string): bool {
    if keywords == [] then false
    else Occurs(Lower(keywords[0]), Lower(text)) || AnyOccurs(keywords[1..], text)
  }

  /** Some keyword, lower-cased, is a substring of the lower-cased text. */
  ghost predicate MentionsAny(keywords: seq<string>, text: string) {
    exists i :: 0 <= i < |keywords| && IsSubstring(Lower(keywords[i]), Lower(text))
  }

  /** The short-circuiting scan agrees with the declarative reading, whatever the order. */
  lemma {:induction false} AnyOccursIff(keywords: seq<string>, text: string)
    ensures AnyOccurs(keywords, text) <==> MentionsAny(keywords, text)
  {
    if keywords != [] {
      OccursIff(Lower(keywords[0]), Lower(text));
      AnyOccursIff(keywords[1..], text);
      if MentionsAny(keywords[1..], text) {
        var i :| 0 <= i < |keywords[1..]| && IsSubstring(Lower(keywords[1..][i]), Lower(text));
        assert keywords[1..][i] == keywords[i + 1];
      }
      if MentionsAny(keywords, text) {
        var i :| 0 <= i < |keywords| && IsSubstring(Lower(keywords[i]), Lower(text));
        if i > 0 {
          assert keywords[1..][i - 1] == keywords[i];
        }
      }
    }
  }

  /** Matching ignores the case of the text. */
  lemma {:induction false} AnyOccursIgnoresCase(keywords: seq<string>, text: string)
    ensures AnyOccurs(keywords, Lower(text)) == AnyOccurs(keywords, text)
  {
    LowerIdempotent(text);
    if keywords != [] {
      AnyOccursIgnoresCase(keywords[1..], text);
    }
  }
}
