/** `is_banned` of app/main.py: the case-insensitive substring ban on content and sender. */
module BanFilter {
  import opened Text

  /**
   * True when a banned keyword occurs in the subject or the body, or a
   * banned-sender entry occurs in the sender, all compared lower-cased.
   */
  function IsBanned(subject: string, body: string, bannedKeywords: seq<string>,
                    sender: string, bannedSenders: seq<string>): (r: bool)
    ensures bannedKeywords == [] && bannedSenders == [] ==> !r
  {
    if AnyKeywordInEither(bannedKeywords, subject, body) then true
    else if AnyOccurs(bannedSenders, sender) then true
    else false
  }

  /** `any(k.lower() in subject.lower() or k.lower() in body.lower() for k in keywords)`. */
  function AnyKeywordInEither(keywords: seq<string>, subject: string, body: string): bool {
    if keywords == [] then false
    else
      var k := Lower(keywords[0]);
      Occurs(k, Lower(subject)) || Occurs(k, Lower(body)) || AnyKeywordInEither(keywords[1..], subject, body)
  }

  /** Checking subject and body per keyword is checking each of them against all keywords. */
  lemma {:induction false} AnyKeywordInEitherSplits(keywords: seq<string>, subject: string, body: string)
    ensures AnyKeywordInEither(keywords, subject, body) == (AnyOccurs(keywords, subject) || AnyOccurs(keywords, body))
  {
    if keywords != [] {
      AnyKeywordInEitherSplits(keywords[1..], subject, body);
    }
  }

  /** The ban decision in declarative terms, both directions. */
  lemma IsBannedIff(subject: string, body: string, bannedKeywords: seq<string>,
                    sender: string, bannedSenders: seq<string>)
    ensures IsBanned(subject, body, bannedKeywords, sender, bannedSenders) <==>
              || MentionsAny(bannedKeywords, subject)
              || MentionsAny(bannedKeywords, body)
              || MentionsAny(bannedSenders, sender)
  {
    AnyKeywordInEitherSplits(bannedKeywords, subject, body);
    AnyOccursIff(bannedKeywords, subject);
    AnyOccursIff(bannedKeywords, body);
    AnyOccursIff(bannedSenders, sender);
  }

  /** The decision does not depend on the case of the message fields. */
  lemma IsBannedIgnoresCase(subject: string, body: string, bannedKeywords: seq<string>,
                            sender: string, bannedSenders: seq<string>)
    ensures IsBanned(Lower(subject), Lower(body), bannedKeywords, Lower(sender), bannedSenders) ==
            IsBanned(subject, body, bannedKeywords, sender, bannedSenders)
  {
    AnyKeywordInEitherSplits(bannedKeywords, subject, body);
    AnyKeywordInEitherSplits(bannedKeywords, Lower(subject), Lower(body));
    AnyOccursIgnoresCase(bannedKeywords, subject);
    AnyOccursIgnoresCase(bannedKeywords, body);
    AnyOccursIgnoresCase(bannedSenders, sender);
  }
}
