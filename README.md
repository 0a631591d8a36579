# Mailbox ingestion pipeline (job-rate), modelled in Dafny

This project models the ingestion core of `app/main.py`. The pipeline pages
through a Gmail listing and takes the `Subject`, `Date` and `From` headers and
the snippet of each message. It drops messages from banned senders or with
banned content, and skips ids the database session already holds. It
classifies the remaining messages as "Application Confirmation", "Rejection",
"Interview Request" or "Other", stages one `emails` row per new id, and
commits once at the end.

Modules, one per component of the source:

- `Text` (`text.dfy`): `str.lower()` as a pointwise definition, and the substring test `pat in text` and `any(...)` over a keyword list, each with a declarative meaning proved equal to the computation.
- `Headers` (`headers.dfy`): the first-match header lookup with its defaults.
- `BanFilter` (`ban_filter.dfy`): `is_banned`.
- `Classifier` (`classifier.dfy`): `classify_email`, with the polarity scorer passed in as a function `string -> real`.
- `Store` (`store.dfy`): the `emails` row, a `Session` class, `insert_email` and `email_exists`. The class holds the committed rows and the rows staged since the last commit. The date parser is passed in as a function `string -> Option<Timestamp>`.
- `Paging` (`paging.dfy`): listing responses, the order in which the loop visits messages, and how a provider splits messages into pages.
- `Ingestion` (`ingestion.dfy`): `fetch_and_classify_emails`. It is an imperative method over the `Session` object, proved against `Ingest`, a fold over the visited messages. The lemmas about that fold state what a run does to the store.

The session's queries see staged rows as well as committed ones, because the
session flushes before each query. So a duplicate id inside one run is also
skipped, and the first message with that id that is not banned is the one stored.

## Model

| member | source | states |
|---|---|---|
| `Text.OccursIff` | app/main.py:62 | the left-to-right search for `pat in text` succeeds exactly when `pat` occurs at some index of `text`; the empty pattern always occurs |
| `Text.AnyOccursIff` | app/main.py:126 | the short-circuiting `any(k.lower() in text.lower() ...)` is true exactly when some keyword, lower-cased, is a substring of the lower-cased text |
| `Text.AnyOccursIgnoresCase` | app/main.py:126 | keyword matching gives the same answer on a text and on its lower-cased form |
| `Headers.FindHeader` | app/main.py:89-91 | no value when no header has the name; otherwise the value of the first header with exactly that name |
| `Headers.SubjectOf` | app/main.py:89 | "No Subject" when no header is named "Subject"; otherwise the first "Subject" header's value |
| `Headers.DateOf` | app/main.py:90 | None exactly when no header is named "Date"; otherwise the first "Date" header's value |
| `Headers.SenderOf` | app/main.py:91 | "Unknown Sender" when no header is named "From"; otherwise the first "From" header's value |
| `BanFilter.IsBanned` | app/main.py:61-66 | with both lists empty nothing is banned |
| `BanFilter.AnyKeywordInEitherSplits` | app/main.py:62 | testing subject-or-body per keyword equals testing the subject against all keywords or the body against all keywords |
| `BanFilter.IsBannedIff` | app/main.py:61-66 | banned exactly when a banned keyword is a substring of the subject or the body, or a banned-sender entry is a substring of the sender, all lower-cased |
| `BanFilter.IsBannedIgnoresCase` | app/main.py:61-66 | the verdict is the same when subject, body and sender are lower-cased first |
| `Classifier.Label` | app/main.py:127-133 | each category label is non-empty and fits the 50-character `category` column (line 35) |
| `Classifier.ConfirmationIff` | app/main.py:121-127 | "Application Confirmation" exactly when a confirmation keyword occurs in the lower-cased `subject + " " + body`, whatever the polarity |
| `Classifier.RejectionIff` | app/main.py:128-129 | "Rejection" exactly when no confirmation keyword occurs, polarity < 0.1 and a rejection keyword occurs |
| `Classifier.InterviewIff` | app/main.py:130-131 | "Interview Request" exactly when no confirmation keyword occurs, polarity > 0.1 and "interview" occurs in the lower-cased text |
| `Classifier.OtherIff` | app/main.py:132-133 | "Other" exactly when none of the three earlier rules applies |
| `Classifier.AtThreshold` | app/main.py:128-133 | at polarity exactly 0.1 the result is "Application Confirmation" if a confirmation keyword occurs and "Other" otherwise |
| `Store.NewRecord` | app/main.py:153-166 | id, subject, body, sender and category are copied; the date is the parsed timestamp when the raw date parses, and None when it is missing or does not parse |
| `Store.Session.Add` | app/main.py:167 | the row is staged under its id, it becomes visible to later queries, and committed rows are unchanged |
| `Store.Session.Commit` | app/main.py:118 | the committed rows become everything the session saw, and nothing stays staged |
| `Store.EmailExists` | app/main.py:171-172 | true exactly when the session sees a row with this id, committed or staged |
| `Store.InsertEmail` | app/main.py:153-167 | always stages exactly one row, `NewRecord` of the data, under the message id; committed rows are unchanged |
| `Paging.LastPage` | app/main.py:73-80 | the loop's last page is the first page whose token is missing or empty; every earlier page has a truthy token |
| `Paging.WalkIsConcat` | app/main.py:73-82 | the visited messages are all messages of the pages up to and including the last one, in provider order, and nothing after it |
| `Paging.Paginate` | app/main.py:75-80 | a provider split into pages of at most `size` messages ends with a page without a next token |
| `Paging.WalkOfListing` | app/main.py:73-82 | for any split into pages where only the final page lacks a truthy token, the loop ends and visits every message of every page, in order |
| `Paging.PaginateRoundTrip` | app/main.py:73-82 | when a provider splits the messages into consecutive pages of `size` messages, the loop visits exactly those messages in order |
| `Ingestion.IngestAppend` | app/main.py:82-112 | visiting two runs of messages in turn is the same as visiting their concatenation |
| `Ingestion.IngestKeepsRows` | app/main.py:95-112 | rows present before the run are never changed or removed |
| `Ingestion.IngestDomain` | app/main.py:95-112 | an id is stored after the run exactly when it was stored before or some visited message with that id is kept |
| `Ingestion.IngestFirstWins` | app/main.py:98-112 | a new id is stored with the row built from its first kept message |
| `Ingestion.IngestKeyed` | app/main.py:30 | every row stays stored under its own id (the primary key) |
| `Ingestion.IngestIdempotent` | app/main.py:98-100 | a second run over the same messages leaves the store as the first run left it |
| `Ingestion.BannedNeverStored` | app/main.py:95-96 | an id that only banned messages carry never gets a row |
| `Ingestion.StoreAfterRun` | app/main.py:95-112 | after a run the store holds the old rows unchanged, plus exactly the ids of non-banned visited messages, each with the classified row of its first non-banned message |
| `Ingestion.FetchAndClassifyEmails` | app/main.py:68-118 | the processed count equals the number of visited messages, banned and duplicate ones included; the committed store is `Ingest` of the old rows over the visited messages; nothing stays staged |

## Left out

- `authenticate_gmail`, `load_config`, `connect_to_postgres`, `create_tables` and `main` (app/main.py:18-59, 174-205) are OAuth, file, JSON and database plumbing and are not modelled.
- `load_existing_data` (app/main.py:135-151) is file I/O that nothing calls.
- The root `main.py` only authenticates and prints ten subjects. Its subject lookup is the same as `Headers.SubjectOf`.
- The query string `after:<date> category:primary` and `maxResults=500` (app/main.py:69, 75, 77) only filter and size the provider's answers. The model starts from the answers, a sequence of pages.
- The continuation token's value is not used to pick a page. The n-th listing call is answered by the n-th page, and the token only decides whether another call is made.
- `Ingestion.FetchAndClassifyEmails`: requires that some page has no truthy token. A provider that always returns a token keeps the source looping forever, and the model does not cover that case.
- Network or provider errors on `list` and `get`, and missing keys in a response (`msg['payload']`, `message['id']`), abort the source with an exception. The model assumes every call succeeds.
- The TextBlob polarity (app/main.py:123-124) is a third-party floating-point computation. It is a parameter `polarity: string -> real`, compared only against 0.1. Its range [-1, 1] is not assumed.
- `parsedate_to_datetime` follows RFC 5322 section 3.3 and is a library call. It is a parameter `parseDate: string -> Option<Timestamp>`, where `None` stands for the exception. `Timestamp` stands for a `datetime` and is not modelled further.
- `Text.Lower`: lower-cases ASCII letters only. Python's `str.lower()` also maps non-ASCII letters, and some of them to several characters.
- The progress `print` every 100 messages (app/main.py:84-85) and the date-error `print` (app/main.py:157) are output only.
- SQLAlchemy behaviour beyond add, query and commit is not modelled: primary-key enforcement at flush, failure and rollback of `commit`, and `session.close`. In the model, adding an id that is already staged replaces the staged row. The pipeline never does this, because it adds only ids the session does not see.
- The category column stores the label string. The model stores a `Category` value, and `Classifier.Label` gives the string.
