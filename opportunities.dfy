/**
 * The row of the `opportunities` table as the web application reads it, the
 * truthiness rule that JavaScript applies to its nullable text columns, and the
 * error the database client hands back.
 */
module Opportunities {
  import opened Wrappers
  import opened Text

  /** One row; `createdAt` is the `created_at` timestamp in milliseconds. */
  datatype Opportunity = Opportunity(
    id: int,
    title: string,
    description: Option<string>,
    link: Option<string>,
    deadline: Option<string>,
    thumbnail: Option<string>,
    approved: bool,
    posted: bool,
    createdAt: int)

  /** JavaScript truthiness of a nullable string: present and not empty. */
  predicate Truthy(s: Option<string>) {
    s.Some? && s.value != ""
  }

  /** `s || null`: a falsy value becomes null. */
  function OrNull(s: Option<string>): (r: Option<string>)
    ensures Truthy(s) ==> r == s
    ensures !Truthy(s) ==> r == None
    ensures r.None? || r.value != ""
  {
    if Truthy(s) then s else None
  }

  /** The error object of a database call; only its message is ever inspected. */
  datatype DbError = DbError(message: string)

  /** What was thrown: an `Error` (with its message) or some other value. */
  datatype Thrown = ErrorValue(message: string) | OtherValue

  /** An awaited database call either resolves with `{ error }` or throws. */
  datatype CallOutcome = Returned(error: Option<DbError>) | Threw(thrown: Thrown)

  /** The message Postgres gives when a table is missing mentions both words. */
  predicate ReportsMissingRelation(message: string) {
    Contains(message, "relation") && Contains(message, "does not exist")
  }

  /** `rows` with `update(...).eq("id", id)` applied through `f`; every other row is left alone. */
  function UpdateWhere(rows: seq<Opportunity>, id: int, f: Opportunity -> Opportunity): (r: seq<Opportunity>)
    ensures |r| == |rows|
    ensures forall i :: 0 <= i < |rows| ==> r[i] == if rows[i].id == id then f(rows[i]) else rows[i]
  {
    seq(|rows|, i requires 0 <= i < |rows| => if rows[i].id == id then f(rows[i]) else rows[i])
  }

  function MarkApproved(o: Opportunity): Opportunity {
    o.(approved := true)
  }

  function MarkPosted(o: Opportunity): Opportunity {
    o.(posted := true)
  }

  /** The `opportunities` table: its rows, in insertion order. */
  class Table {
    var rows: seq<Opportunity>

    constructor (initial: seq<Opportunity>)
      ensures rows == initial
    {
      rows := initial;
    }

    /** `update(...).eq("id", id)`. */
    method Update(id: int, f: Opportunity -> Opportunity)
      modifies this
      ensures rows == UpdateWhere(old(rows), id, f)
    {
      rows := UpdateWhere(rows, id, f);
    }

    /** `insert(row)`. */
    method Insert(row: Opportunity)
      modifies this
      ensures rows == old(rows) + [row]
    {
      rows := rows + [row];
    }
  }
}
