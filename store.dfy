/**
 * The `emails` table and the database session of app/main.py:
 * `insert_email`, `email_exists`, and the two session operations the
 * pipeline uses (`add` and `commit`).
 */
module Store {
  import opened Wrappers
  import opened Classifier

  /** A parsed `Date` header; its fields are whatever the date parser produces. */
  datatype Timestamp = Timestamp(epochSeconds: int)

  /** One row of the `emails` table; `id` is the primary key. */
  datatype Record = Record(id: string, subject: string, body: string,
                           date: Option<Timestamp>, sender: string, category: Category)

  /** The `email_record` dictionary the pipeline hands to `insert_email`; `date` is the raw header. */
  datatype EmailData = EmailData(id: string, subject: string, body: string,
                                 date: Option<string>, sender: string)

  /** Every row is stored under its own id. */
  predicate KeyedById(rows: map<string, Record>) {
    forall id :: id in rows ==> rows[id].id == id
  }

  /**
   * The row `insert_email` builds. `parseDate` is `parsedate_to_datetime`,
   * with `None` for a string it rejects.
   */
  function NewRecord(data: EmailData, category: Category, parseDate: string -> Option<Timestamp>): (r: Record)
    ensures r.id == data.id && r.subject == data.subject && r.body == data.body
    ensures r.sender == data.sender && r.category == category
    ensures data.date.None? ==> r.date.None?
    ensures data.date.Some? ==> r.date == parseDate(data.date.value)
  {
    var date := match data.date
      case None => None
      case Some(raw) => parseDate(raw);
    Record(data.id, data.subject, data.body, date, data.sender, category)
  }

  /**
   * A database session. Rows added since the last commit are `staged`;
   * queries see them too (the session flushes before querying).
   */
  class Session {
    var committed: map<string, Record>
    var staged: map<string, Record>

    ghost predicate Valid()
      reads this
    {
      KeyedById(committed) && KeyedById(staged)
    }

    /** The rows a query in this session sees. */
    function Visible(): map<string, Record>
      reads this
    {
      committed + staged
    }

    constructor (rows: map<string, Record>)
      requires KeyedById(rows)
      ensures Valid() && committed == rows && staged == map[]
    {
      committed := rows;
      staged := map[];
    }

    /** `session.add(row)`. */
    method Add(row: Record)
      requires Valid()
      modifies this
      ensures Valid()
      ensures committed == old(committed) && staged == old(staged)[row.id := row]
      ensures Visible() == old(Visible())[row.id := row]
    {
      staged := staged[row.id := row];
    }

    /** `session.commit()`: the staged rows become durable. */
    method Commit()
      requires Valid()
      modifies this
      ensures Valid()
      ensures committed == old(Visible()) && staged == map[]
    {
      committed := committed + staged;
      staged := map[];
    }
  }

  /** `email_exists`: whether the session sees a row with this id. */
  method EmailExists(session: Session, id: string) returns (found: bool)
    ensures found <==> id in session.Visible()
  {
    found := id in session.committed || id in session.staged;
  }

  /**
   * `insert_email`: a date that is missing or does not parse becomes
   * `None`, and the row is added either way.
   */
  method InsertEmail(session: Session, data: EmailData, category: Category,
                     parseDate: string -> Option<Timestamp>)
    requires session.Valid()
    modifies session
    ensures session.Valid()
    ensures session.committed == old(session.committed)
    ensures session.staged == old(session.staged)[data.id := NewRecord(data, category, parseDate)]
    ensures session.Visible() == old(session.Visible())[data.id := NewRecord(data, category, parseDate)]
  {
    var emailDate: Option<Timestamp>;
    match data.date {
      case None =>
        emailDate := None;
      case Some(raw) =>
        emailDate := parseDate(raw);
    }
    var email := Record(data.id, data.subject, data.body, emailDate, data.sender, category);
    session.Add(email);
  }
}
