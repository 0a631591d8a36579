/**
 * `fetch_and_classify_emails` of app/main.py: page through the listing,
 * drop banned messages, skip ids the session already sees, classify the
 * rest and stage one row each, then commit.
 */
module Ingestion {
  import opened Wrappers
  import opened Headers
  import opened BanFilter
  import opened Classifier
  import opened Store
  import opened Paging

  /** The keyword lists of `config.json`. */
  datatype Config = Config(bannedKeywords: seq<string>, bannedSenders: seq<string>,
                           confirmationKeywords: seq<string>, rejectionKeywords: seq<string>)

  /** The two library calls the pipeline depends on: sentiment polarity and date parsing. */
  datatype Services = Services(polarity: string -> real, parseDate: string -> Option<Timestamp>)

  /** The ban test applied to a fetched message. */
  predicate Banned(m: Message, cfg: Config) {
    IsBanned(SubjectOf(m.headers), m.snippet, cfg.bannedKeywords, SenderOf(m.headers), cfg.bannedSenders)
  }

  /** The row staged for a message that passes the ban filter and the dedup check. */
  function ToRecord(m: Message, cfg: Config, services: Services): Record {
    var subject := SubjectOf(m.headers);
    var sender := SenderOf(m.headers);
    var category := Classify(subject, m.snippet, cfg.confirmationKeywords, cfg.rejectionKeywords, services.polarity);
    NewRecord(EmailData(m.id, subject, m.snippet, DateOf(m.headers), sender), category, services.parseDate)
  }

  /**
   * The per-message decisions of the loop: whether a message survives the
   * ban filter, and the row it becomes. The store-level lemmas below hold
   * for every policy; `PolicyOf` is the one app/main.py applies.
   */
  datatype Policy = Policy(keep: Message -> bool, toRecord: Message -> Record)

  function PolicyOf(cfg: Config, services: Services): Policy {
    Policy(m => !Banned(m, cfg), m => ToRecord(m, cfg, services))
  }

  /** One step under the pipeline's own policy. */
  lemma AdmitUnderPolicy(rows: map<string, Record>, m: Message, cfg: Config, services: Services)
    ensures Admit(rows, m, PolicyOf(cfg, services)) ==
              if Banned(m, cfg) then rows
              else if m.id in rows then rows
              else rows[m.id := ToRecord(m, cfg, services)]
  {
  }

  /** One iteration of the inner loop, on the rows the session sees. */
  function Admit(rows: map<string, Record>, m: Message, p: Policy): map<string, Record> {
    if !p.keep(m) then rows
    else if m.id in rows then rows
    else rows[m.id := p.toRecord(m)]
  }

  /** The rows the session sees after visiting `msgs` in order. */
  function Ingest(rows: map<string, Record>, msgs: seq<Message>, p: Policy): map<string, Record>
    decreases |msgs|
  {
    if msgs == [] then rows
    else Admit(Ingest(rows, msgs[..|msgs| - 1], p), msgs[|msgs| - 1], p)
  }

  /** Visiting one more message is one more step of the loop. */
  lemma IngestTake(rows: map<string, Record>, msgs: seq<Message>, j: nat, p: Policy)
    requires j < |msgs|
    ensures Ingest(rows, msgs[..j + 1], p) == Admit(Ingest(rows, msgs[..j], p), msgs[j], p)
  {
    assert msgs[..j + 1][..j] == msgs[..j];
  }

  /** Visiting two runs of messages one after the other is visiting their concatenation. */
  lemma {:induction false} IngestAppend(rows: map<string, Record>, a: seq<Message>, b: seq<Message>, p: Policy)
    ensures Ingest(rows, a + b, p) == Ingest(Ingest(rows, a, p), b, p)
    decreases |b|
  {
    if b == [] {
      assert a + b == a;
    } else {
      var ab := a + b;
      assert ab[..|ab| - 1] == a + b[..|b| - 1];
      assert ab[|ab| - 1] == b[|b| - 1];
      IngestAppend(rows, a, b[..|b| - 1], p);
    }
  }

  /** Rows already present are never changed or removed. */
  lemma {:induction false} IngestKeepsRows(rows: map<string, Record>, msgs: seq<Message>, p: Policy)
    ensures forall id :: id in rows ==> id in Ingest(rows, msgs, p) && Ingest(rows, msgs, p)[id] == rows[id]
    decreases |msgs|
  {
    if msgs != [] {
      IngestKeepsRows(rows, msgs[..|msgs| - 1], p);
    }
  }

  /** An id ends up stored exactly when it was stored already or some message with it is kept. */
  lemma {:induction false} IngestDomain(rows: map<string, Record>, msgs: seq<Message>, p: Policy)
    ensures forall id :: id in Ingest(rows, msgs, p) <==>
              id in rows || exists i :: 0 <= i < |msgs| && msgs[i].id == id && p.keep(msgs[i])
    decreases |msgs|
  {
    if msgs != [] {
      var init := msgs[..|msgs| - 1];
      IngestDomain(rows, init, p);
      forall id
        ensures id in Ingest(rows, msgs, p) <==>
                id in rows || exists i :: 0 <= i < |msgs| && msgs[i].id == id && p.keep(msgs[i])
      {
        if exists i :: 0 <= i < |init| && init[i].id == id && p.keep(init[i]) {
          var i :| 0 <= i < |init| && init[i].id == id && p.keep(init[i]);
          assert msgs[i] == init[i];
        }
        if exists i :: 0 <= i < |msgs| && msgs[i].id == id && p.keep(msgs[i]) {
          var i :| 0 <= i < |msgs| && msgs[i].id == id && p.keep(msgs[i]);
          if i < |init| {
            assert msgs[i] == init[i];
          }
        }
      }
    }
  }

  /** A new id is stored with the row of its first kept message. */
  lemma {:induction false} IngestFirstWins(rows: map<string, Record>, msgs: seq<Message>, i: nat, p: Policy)
    requires i < |msgs| && msgs[i].id !in rows && p.keep(msgs[i])
    requires forall j :: 0 <= j < i && msgs[j].id == msgs[i].id ==> !p.keep(msgs[j])
    ensures msgs[i].id in Ingest(rows, msgs, p)
    ensures Ingest(rows, msgs, p)[msgs[i].id] == p.toRecord(msgs[i])
  {
    var before := msgs[..i];
    var upTo := msgs[..i + 1];
    IngestDomain(rows, before, p);
    assert msgs[i].id !in Ingest(rows, before, p) by {
      forall j | 0 <= j < |before| && before[j].id == msgs[i].id
        ensures !p.keep(before[j])
      {
        assert before[j] == msgs[j];
      }
    }
    assert upTo[..|upTo| - 1] == before;
    var mid := Ingest(rows, upTo, p);
    assert mid[msgs[i].id] == p.toRecord(msgs[i]);
    assert msgs == upTo + msgs[i + 1..];
    IngestAppend(rows, upTo, msgs[i + 1..], p);
    IngestKeepsRows(mid, msgs[i + 1..], p);
  }

  /** Rows stay keyed by their own id when every row a policy builds carries its message's id. */
  lemma {:induction false} IngestKeyed(rows: map<string, Record>, msgs: seq<Message>, p: Policy)
    requires KeyedById(rows)
    requires forall m :: p.toRecord(m).id == m.id
    ensures KeyedById(Ingest(rows, msgs, p))
    decreases |msgs|
  {
    if msgs != [] {
      IngestKeyed(rows, msgs[..|msgs| - 1], p);
    }
  }

  /** Idempotent ingestion: a second run over the same messages adds nothing. */
  lemma {:induction false} IngestIdempotent(rows: map<string, Record>, msgs: seq<Message>, p: Policy)
    ensures Ingest(Ingest(rows, msgs, p), msgs, p) == Ingest(rows, msgs, p)
  {
    var done := Ingest(rows, msgs, p);
    IngestDomain(rows, msgs, p);
    PrefixesAdmitNothing(done, msgs, |msgs|, p);
    assert msgs[..|msgs|] == msgs;
  }

  lemma {:induction false} PrefixesAdmitNothing(done: map<string, Record>, msgs: seq<Message>, k: nat, p: Policy)
    requires k <= |msgs|
    requires forall i :: 0 <= i < |msgs| && p.keep(msgs[i]) ==> msgs[i].id in done
    ensures Ingest(done, msgs[..k], p) == done
  {
    if k > 0 {
      var prefix := msgs[..k];
      assert prefix[..k - 1] == msgs[..k - 1];
      PrefixesAdmitNothing(done, msgs, k - 1, p);
    }
  }

  /** Ban precedence: an id whose every message is banned never gets a row. */
  lemma {:induction false} BannedNeverStored(rows: map<string, Record>, msgs: seq<Message>, id: string, cfg: Config, services: Services)
    requires id !in rows
    requires forall i :: 0 <= i < |msgs| && msgs[i].id == id ==> Banned(msgs[i], cfg)
    ensures id !in Ingest(rows, msgs, PolicyOf(cfg, services))
  {
    IngestDomain(rows, msgs, PolicyOf(cfg, services));
  }

  /**
   * What one run leaves in the store, in the pipeline's own terms: the old
   * rows unchanged, plus a row for each id some visited message carries
   * that is not banned, built from the first such message.
   */
  lemma StoreAfterRun(rows: map<string, Record>, pages: seq<Page>, cfg: Config, services: Services)
    requires Terminates(pages)
    ensures var msgs, after := Walk(pages), Ingest(rows, Walk(pages), PolicyOf(cfg, services));
            && (forall id :: id in rows ==> id in after && after[id] == rows[id])
            && (forall id :: id in after <==>
                  id in rows || exists i :: 0 <= i < |msgs| && msgs[i].id == id && !Banned(msgs[i], cfg))
            && (forall i :: 0 <= i < |msgs| && msgs[i].id !in rows && !Banned(msgs[i], cfg) &&
                  (forall j :: 0 <= j < i && msgs[j].id == msgs[i].id ==> Banned(msgs[j], cfg))
                  ==> after[msgs[i].id] == ToRecord(msgs[i], cfg, services))
  {
    var msgs, p := Walk(pages), PolicyOf(cfg, services);
    IngestKeepsRows(rows, msgs, p);
    IngestDomain(rows, msgs, p);
    forall i | 0 <= i < |msgs| && msgs[i].id !in rows && !Banned(msgs[i], cfg) &&
               (forall j :: 0 <= j < i && msgs[j].id == msgs[i].id ==> Banned(msgs[j], cfg))
      ensures msgs[i].id in Ingest(rows, msgs, p) && Ingest(rows, msgs, p)[msgs[i].id] == ToRecord(msgs[i], cfg, services)
    {
      IngestFirstWins(rows, msgs, i, p);
    }
  }

  /**
   * The ingestion loop. `pages` are the listing responses in call order;
   * the returned count is `emails_processed`.
   */
  method FetchAndClassifyEmails(pages: seq<Page>, cfg: Config, services: Services, session: Session)
    returns (processed: nat)
    requires Terminates(pages)
    requires session.Valid()
    modifies session
    ensures session.Valid()
    ensures processed == |Walk(pages)|
    ensures session.committed == Ingest(old(session.Visible()), Walk(pages), PolicyOf(cfg, services))
    ensures session.staged == map[]
  {
    ghost var start := session.Visible();
    ghost var last := LastPage(pages);
    ghost var policy := PolicyOf(cfg, services);
    WalkIsConcat(pages);
    processed := 0;
    var k := 0;  // the number of listing calls made so far
    var nextPageToken: Option<string> := None;
    while true
      invariant 0 <= k <= last
      invariant session.Valid()
      invariant processed == |Concat(pages[..k])|
      invariant session.Visible() == Ingest(start, Concat(pages[..k]), policy)
      decreases last - k
    {
      // The listing call with `nextPageToken` answers with the next page.
      var results := pages[k];
      var messages := results.messages;
      nextPageToken := results.nextPageToken;
      ghost var pageStart := session.Visible();
      ghost var countBefore := processed;
      for j := 0 to |messages|
        invariant session.Valid()
        invariant processed == countBefore + j
        invariant session.Visible() == Ingest(pageStart, messages[..j], policy)
      {
        var message := messages[j];
        processed := processed + 1;
        IngestTake(pageStart, messages, j, policy);
        AdmitUnderPolicy(session.Visible(), message, cfg, services);

        var subject := SubjectOf(message.headers);
        var date := DateOf(message.headers);
        var sender := SenderOf(message.headers);
        var body := message.snippet;

        if IsBanned(subject, body, cfg.bannedKeywords, sender, cfg.bannedSenders) {
          continue;
        }
        var alreadyStored := EmailExists(session, message.id);
        if alreadyStored {
          continue;
        }
        var classification := Classify(subject, body, cfg.confirmationKeywords, cfg.rejectionKeywords, services.polarity);
        var emailRecord := EmailData(message.id, subject, body, date, sender);
        InsertEmail(session, emailRecord, classification, services.parseDate);
      }
      assert messages[..|messages|] == messages;
      ConcatSnoc(pages, k);
      IngestAppend(start, Concat(pages[..k]), messages, policy);
      if !Truthy(nextPageToken) {
        assert k == last;
        break;
      }
      assert HasNext(pages[k]);
      k := k + 1;
    }
    session.Commit();
  }
}
