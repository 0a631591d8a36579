/**
 * `classify_email` of app/main.py: a first-match-wins rule over the text
 * `subject + " " + body`, with a sentiment polarity compared against 0.1.
 */
module Classifier {
  import opened Text

  datatype Category = ApplicationConfirmation | Rejection | InterviewRequest | Other

  /** The label stored in the `category` column, which holds at most 50 characters. */
  function Label(c: Category): (s: string)
    ensures 0 < |s| <= 50
  {
    match c
    case ApplicationConfirmation => "Application Confirmation"
    case Rejection => "Rejection"
    case InterviewRequest => "Interview Request"
    case Other => "Other"
  }

  /** The polarity threshold; it is exclusive on both sides. */
  const Threshold: real := 0.1

  /** The literal token that marks an interview request. */
  const InterviewToken: string := "interview"

  /** The text every rule looks at. */
  function MessageText(subject: string, body: string): string {
    subject + " " + body
  }

  /**
   * `polarity` is the sentiment scorer (TextBlob in the source), a
   * deterministic function of the text.
   */
  function Classify(subject: string, body: string, confirmationKeywords: seq<string>,
                    rejectionKeywords: seq<string>, polarity: string -> real): Category
  {
    var text := MessageText(subject, body);
    var sentiment := polarity(text);
    if AnyOccurs(confirmationKeywords, text) then ApplicationConfirmation
    else if sentiment < Threshold && AnyOccurs(rejectionKeywords, text) then Rejection
    else if sentiment > Threshold && Occurs(InterviewToken, Lower(text)) then InterviewRequest
    else Other
  }

  /** Rule 1: a confirmation keyword decides, whatever the sentiment. */
  lemma ConfirmationIff(subject: string, body: string, confirmationKeywords: seq<string>,
                        rejectionKeywords: seq<string>, polarity: string -> real)
    ensures Classify(subject, body, confirmationKeywords, rejectionKeywords, polarity) == ApplicationConfirmation
            <==> MentionsAny(confirmationKeywords, MessageText(subject, body))
  {
    AnyOccursIff(confirmationKeywords, MessageText(subject, body));
  }

  /** Rule 2: a rejection needs no confirmation keyword, polarity below 0.1 and a rejection keyword. */
  lemma RejectionIff(subject: string, body: string, confirmationKeywords: seq<string>,
                     rejectionKeywords: seq<string>, polarity: string -> real)
    ensures var text := MessageText(subject, body);
            Classify(subject, body, confirmationKeywords, rejectionKeywords, polarity) == Rejection
            <==> !MentionsAny(confirmationKeywords, text) && polarity(text) < 0.1 && MentionsAny(rejectionKeywords, text)
  {
    var text := MessageText(subject, body);
    AnyOccursIff(confirmationKeywords, text);
    AnyOccursIff(rejectionKeywords, text);
  }

  /** Rule 3: an interview request needs no confirmation keyword, polarity above 0.1 and "interview". */
  lemma InterviewIff(subject: string, body: string, confirmationKeywords: seq<string>,
                     rejectionKeywords: seq<string>, polarity: string -> real)
    ensures var text := MessageText(subject, body);
            Classify(subject, body, confirmationKeywords, rejectionKeywords, polarity) == InterviewRequest
            <==> !MentionsAny(confirmationKeywords, text) && polarity(text) > 0.1 && IsSubstring("interview", Lower(text))
  {
    var text := MessageText(subject, body);
    AnyOccursIff(confirmationKeywords, text);
    OccursIff(InterviewToken, Lower(text));
  }

  /** Rule 4: everything no earlier rule takes is "Other". */
  lemma OtherIff(subject: string, body: string, confirmationKeywords: seq<string>,
                 rejectionKeywords: seq<string>, polarity: string -> real)
    ensures var text := MessageText(subject, body);
            Classify(subject, body, confirmationKeywords, rejectionKeywords, polarity) == Other
            <==> && !MentionsAny(confirmationKeywords, text)
                 && !(polarity(text) < 0.1 && MentionsAny(rejectionKeywords, text))
                 && !(polarity(text) > 0.1 && IsSubstring("interview", Lower(text)))
  {
    var text := MessageText(subject, body);
    AnyOccursIff(confirmationKeywords, text);
    AnyOccursIff(rejectionKeywords, text);
    OccursIff(InterviewToken, Lower(text));
  }

  /** At polarity exactly 0.1 neither sentiment rule fires. */
  lemma AtThreshold(subject: string, body: string, confirmationKeywords: seq<string>,
                    rejectionKeywords: seq<string>, polarity: string -> real)
    requires polarity(MessageText(subject, body)) == 0.1
    ensures var c := Classify(subject, body, confirmationKeywords, rejectionKeywords, polarity);
            c == (if MentionsAny(confirmationKeywords, MessageText(subject, body)) then ApplicationConfirmation else Other)
  {
    AnyOccursIff(confirmationKeywords, MessageText(subject, body));
  }
}
