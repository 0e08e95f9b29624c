/**
 * The webhook the scraper posts new opportunities to: it validates the title,
 * checks that the table exists, and inserts a row with every optional field
 * normalised to a non-empty string or null, unapproved and unposted.
 */
module Webhook {
  import opened Wrappers
  import opened Opportunities

  /** The JSON body; a field that is absent or `null` is `None`. */
  datatype Payload = Payload(
    title: Option<string>,
    description: Option<string>,
    link: Option<string>,
    deadline: Option<string>,
    thumbnail: Option<string>)

  /** What the database answers: the table check, the insert, and the id and timestamp it assigns. */
  datatype Database = Database(tableCheckError: Option<DbError>, insertError: Option<DbError>, newId: int, createdAt: int)

  datatype Body =
    | ErrorBody(error: string, message: Option<string>)
    | SuccessBody(opportunity: Opportunity)

  datatype Response = Response(status: int, body: Body)

  /** The response, whether the table was queried, and the row handed to `insert` (if one was). */
  datatype Handled = Handled(response: Response, checkedTable: bool, inserted: Option<Opportunity>)

  /** The row built from the payload (lines 36-44): nullable fields are normalised with `|| null`. */
  function NewRow(p: Payload, title: string, db: Database): (row: Opportunity)
    ensures row.title == title && !row.approved && !row.posted
    ensures row.description == OrNull(p.description) && row.link == OrNull(p.link)
    ensures row.deadline == OrNull(p.deadline) && row.thumbnail == OrNull(p.thumbnail)
  {
    Opportunity(db.newId, title, OrNull(p.description), OrNull(p.link), OrNull(p.deadline), OrNull(p.thumbnail),
                false, false, db.createdAt)
  }

  /** `POST(request)`; `body` is `None` when the request is not JSON (`request.json()` throws). */
  function Post(body: Option<Payload>, db: Database): Handled {
    match body
    case None => Handled(Response(500, ErrorBody("Internal server error", None)), false, None)
    case Some(p) =>
      if !Truthy(p.title) then
        Handled(Response(400, ErrorBody("Title is required", None)), false, None)
      else if db.tableCheckError.Some? && ReportsMissingRelation(db.tableCheckError.value.message) then
        Handled(Response(500, ErrorBody("Database tables not initialized",
                                        Some("Please visit the setup page to initialize your database tables"))),
                true, None)
      else
        var row := NewRow(p, p.title.value, db);
        if db.insertError.Some? then
          Handled(Response(500, ErrorBody("Failed to insert opportunity", None)), true, Some(row))
        else
          Handled(Response(200, SuccessBody(row)), true, Some(row))
  }

  /** A missing or empty title is refused with 400 before the database is touched. */
  lemma TitleRequired(p: Payload, db: Database)
    requires !Truthy(p.title)
    ensures var h := Post(Some(p), db);
      h.response.status == 400 && !h.checkedTable && h.inserted.None?
  {
  }

  /** An insert is attempted exactly for a JSON body with a title when the table check does not report a missing table. */
  lemma InsertIff(body: Option<Payload>, db: Database)
    ensures Post(body, db).inserted.Some? <==>
      body.Some? && Truthy(body.value.title) &&
      !(db.tableCheckError.Some? && ReportsMissingRelation(db.tableCheckError.value.message))
  {
  }

  /**
   * Every inserted row carries the title verbatim, starts unapproved and
   * unposted, and never stores an empty optional field.
   */
  lemma InsertedRowShape(body: Option<Payload>, db: Database)
    ensures var h := Post(body, db);
      h.inserted.Some? ==>
        var row := h.inserted.value;
        && Some(row.title) == body.value.title && row.title != ""
        && !row.approved && !row.posted
        && row.description != Some("") && row.link != Some("")
        && row.deadline != Some("") && row.thumbnail != Some("")
        && (Truthy(body.value.link) ==> row.link == body.value.link)
        && (!Truthy(body.value.link) ==> row.link.None?)
  {
  }

  /** 200 exactly when the insert went through, and then the response carries the inserted row; every other outcome is 400 or 500. */
  lemma StatusIff(body: Option<Payload>, db: Database)
    ensures var h := Post(body, db);
      && (h.response.status == 200 <==> h.inserted.Some? && db.insertError.None?)
      && (h.response.status == 200 ==> h.response.body == SuccessBody(h.inserted.value))
      && h.response.status in {200, 400, 500}
  {
  }
}
