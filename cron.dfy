/**
 * The cron endpoint: behind a shared secret, it posts up to five approved,
 * not yet posted opportunities, oldest first, one after the other, and
 * reports how many went through and how many failed.
 */
module Cron {
  import opened Wrappers
  import opened Opportunities
  import Sorting
  import Actions

  /** How many opportunities one run posts at most. */
  const BatchSize := 5

  /**
   * `secret !== process.env.CRON_SECRET`: the query parameter is `null` when
   * absent and the variable `undefined` when unset, so a missing value on
   * either side never matches.
   */
  predicate Authorized(secret: Option<string>, cronSecret: Option<string>) {
    secret.Some? && cronSecret.Some? && secret.value == cronSecret.value
  }

  predicate Pending(o: Opportunity) {
    o.approved && !o.posted
  }

  function CreatedAt(o: Opportunity): int {
    o.createdAt
  }

  /** The query: approved and unposted rows, by `created_at` ascending, at most five. */
  function Candidates(rows: seq<Opportunity>): seq<Opportunity> {
    Sorting.Take(Sorting.SortBy(Sorting.Filter(rows, Pending), CreatedAt, true), BatchSize)
  }

  /** One entry of the report: `error` is the thrown message of a failed post. */
  datatype Outcome = Outcome(id: int, success: bool, error: Option<string>)

  function OutcomeOf(id: int, result: Actions.Done): (r: Outcome)
    ensures r.id == id && Consistent(r)
    ensures r.success <==> result == Actions.Succeeded
  {
    match result
    case Succeeded => Outcome(id, true, None)
    case Failed(message) => Outcome(id, false, Some(message))
  }

  datatype Response =
    | Unauthorized
    | FetchFailed
    | Report(posted: nat, failed: nat, results: seq<Outcome>)

  function Status(r: Response): int {
    match r
    case Unauthorized => 401
    case FetchFailed => 500
    case Report(_, _, _) => 200
  }

  function Succeeded(r: Outcome): bool {
    r.success
  }

  /** A failed outcome carries the thrown message and a successful one none. */
  predicate Consistent(r: Outcome) {
    r.success <==> r.error.None?
  }

  /** The outcomes of posting `ids[i..]` in order, starting from `rows`, and the table afterwards. */
  datatype Batch = Batch(results: seq<Outcome>, rows: seq<Opportunity>)

  /** The `k`-th post of a run: `postToTelegram` on the table as it then is. */
  function Poster(backends: nat -> Actions.Backend, replies: nat -> Actions.TelegramReply)
    : (post: (seq<Opportunity>, int, nat) -> Actions.PostRun)
    ensures forall rows, id, k :: post(rows, id, k) == Actions.PostSpec(rows, id, backends(k), replies(k))
  {
    (rows: seq<Opportunity>, id: int, k: nat) => Actions.PostSpec(rows, id, backends(k), replies(k))
  }

  /** One outcome per remaining id, in order, each one consistent; `post` is the step of `Poster`. */
  function PostFrom(rows: seq<Opportunity>, ids: seq<int>, i: nat,
                    post: (seq<Opportunity>, int, nat) -> Actions.PostRun): (b: Batch)
    ensures |b.results| == if i <= |ids| then |ids| - i else 0
    ensures forall k :: 0 <= k < |b.results| ==> b.results[k].id == ids[i + k] && Consistent(b.results[k])
    decreases |ids| - i
  {
    if i >= |ids| then Batch([], rows)
    else
      var run := post(rows, ids[i], i);
      var rest := PostFrom(run.rows, ids, i + 1, post);
      Batch([OutcomeOf(ids[i], run.result)] + rest.results, rest.rows)
  }

  function Ids(os: seq<Opportunity>): (ids: seq<int>)
    ensures |ids| == |os| && forall k :: 0 <= k < |os| ==> ids[k] == os[k].id
  {
    if os == [] then [] else [os[0].id] + Ids(os[1..])
  }

  /**
   * `GET(request)`: `backends(i)` and `replies(i)` are what the database, the
   * environment and the Bot API answer during the `i`-th post.
   */
  method Get(table: Table, secret: Option<string>, cronSecret: Option<string>, queryError: Option<DbError>,
             backends: nat -> Actions.Backend, replies: nat -> Actions.TelegramReply)
    returns (response: Response)
    modifies table
    ensures Status(response) == if !Authorized(secret, cronSecret) then 401 else if queryError.Some? then 500 else 200
    ensures !Authorized(secret, cronSecret) ==> response == Unauthorized && table.rows == old(table.rows)
    ensures Authorized(secret, cronSecret) && queryError.Some? ==> response == FetchFailed && table.rows == old(table.rows)
    ensures Authorized(secret, cronSecret) && queryError.None? ==>
      var batch := PostFrom(old(table.rows), Ids(Candidates(old(table.rows))), 0, Poster(backends, replies));
      && response == Report(Sorting.Count(batch.results, Succeeded),
                            Sorting.Count(batch.results, (r: Outcome) => !Succeeded(r)), batch.results)
      && table.rows == batch.rows
  {
    if !Authorized(secret, cronSecret) {
      return Unauthorized;
    }
    if queryError.Some? {
      return FetchFailed;
    }
    var ids := Ids(Candidates(table.rows));
    var results := PostAll(table, ids, backends, replies);
    var posted := |Sorting.Filter(results, Succeeded)|;
    var failed := |Sorting.Filter(results, (r: Outcome) => !Succeeded(r))|;
    return Report(posted, failed, results);
  }

  /** The loop over the candidates: a failed post is recorded and the loop goes on. */
  method PostAll(table: Table, ids: seq<int>, backends: nat -> Actions.Backend, replies: nat -> Actions.TelegramReply)
    returns (results: seq<Outcome>)
    modifies table
    ensures var batch := PostFrom(old(table.rows), ids, 0, Poster(backends, replies));
      results == batch.results && table.rows == batch.rows
  {
    ghost var start := table.rows;
    ghost var post := Poster(backends, replies);
    results := [];
    var i := 0;
    while i < |ids|
      invariant 0 <= i <= |ids|
      invariant var whole := PostFrom(start, ids, 0, post);
        var rest := PostFrom(table.rows, ids, i, post);
        whole.results == results + rest.results && whole.rows == rest.rows
    {
      var r, _ := Actions.PostToTelegram(table, ids[i], backends(i), replies(i));
      results := results + [OutcomeOf(ids[i], r)];
      i := i + 1;
    }
  }

  // ---------------------------------------------------------------------------
  // Properties

  /** A step that leaves the table alone or marks the rows of the posted id as posted. */
  ghost predicate OnlyMarks(post: (seq<Opportunity>, int, nat) -> Actions.PostRun) {
    forall rows, id, k :: post(rows, id, k).rows == rows || post(rows, id, k).rows == UpdateWhere(rows, id, MarkPosted)
  }

  /** `postToTelegram` is such a step. */
  lemma PosterOnlyMarks(backends: nat -> Actions.Backend, replies: nat -> Actions.TelegramReply)
    ensures OnlyMarks(Poster(backends, replies))
  {
    forall rows, id, k: nat {
      Actions.PostMarksOnlyOnSuccess(rows, id, backends(k), replies(k));
    }
  }

  /** A batch only ever sets posted flags: no row disappears, and a posted row stays posted. */
  lemma {:induction false} BatchOnlyPosts(rows: seq<Opportunity>, ids: seq<int>, i: nat,
                                          post: (seq<Opportunity>, int, nat) -> Actions.PostRun)
    requires OnlyMarks(post)
    ensures var b := PostFrom(rows, ids, i, post);
      |b.rows| == |rows| &&
      forall k :: 0 <= k < |rows| ==>
        b.rows[k].id == rows[k].id && b.rows[k].approved == rows[k].approved && (rows[k].posted ==> b.rows[k].posted)
    decreases |ids| - i
  {
    if i < |ids| {
      var run := post(rows, ids[i], i);
      BatchOnlyPosts(run.rows, ids, i + 1, post);
    }
  }

  /** A cron run only ever sets posted flags. */
  lemma RunOnlyPosts(rows: seq<Opportunity>, backends: nat -> Actions.Backend, replies: nat -> Actions.TelegramReply)
    ensures var b := PostFrom(rows, Ids(Candidates(rows)), 0, Poster(backends, replies));
      |b.rows| == |rows| &&
      forall k :: 0 <= k < |rows| ==>
        b.rows[k].id == rows[k].id && b.rows[k].approved == rows[k].approved && (rows[k].posted ==> b.rows[k].posted)
  {
    PosterOnlyMarks(backends, replies);
    BatchOnlyPosts(rows, Ids(Candidates(rows)), 0, Poster(backends, replies));
  }

  /** The report's counts add up to the number of outcomes. */
  lemma CountsAddUp(results: seq<Outcome>)
    ensures Sorting.Count(results, Succeeded) + Sorting.Count(results, (r: Outcome) => !Succeeded(r)) == |results|
  {
    Sorting.CountSplit(results, Succeeded, (r: Outcome) => !Succeeded(r));
  }

  /**
   * The candidates are the min(5, pending) oldest pending rows of the table,
   * oldest first; when there are five or fewer pending rows, every one of them
   * is a candidate.
   */
  lemma CandidatesShape(rows: seq<Opportunity>)
    ensures var c := Candidates(rows);
      && |c| <= BatchSize
      && (forall k :: 0 <= k < |c| ==> c[k] in rows && Pending(c[k]))
      && Sorting.SortedBy(c, CreatedAt, true)
      && (|Sorting.Filter(rows, Pending)| <= BatchSize ==> forall o :: o in rows && Pending(o) ==> o in c)
      && |c| == (if |Sorting.Filter(rows, Pending)| <= BatchSize then |Sorting.Filter(rows, Pending)| else BatchSize)
      && multiset(c) <= multiset(Sorting.Filter(rows, Pending))
      && (forall x, k :: x in multiset(Sorting.Filter(rows, Pending)) - multiset(c) && 0 <= k < |c| ==>
            c[k].createdAt <= x.createdAt)
  {
    var pending := Sorting.Filter(rows, Pending);
    var sorted := Sorting.SortBy(pending, CreatedAt, true);
    var c := Candidates(rows);
    assert |sorted| == |pending|;
    CandidatesOldest(sorted, c);
    CandidatesPending(rows);
  }

  /** Every candidate is a pending row, and with five or fewer pending rows every one is a candidate. */
  lemma CandidatesPending(rows: seq<Opportunity>)
    ensures var c := Candidates(rows);
      && (forall k :: 0 <= k < |c| ==> c[k] in rows && Pending(c[k]))
      && (|Sorting.Filter(rows, Pending)| <= BatchSize ==> forall o :: o in rows && Pending(o) ==> o in c)
  {
    var pending := Sorting.Filter(rows, Pending);
    var sorted := Sorting.SortBy(pending, CreatedAt, true);
    var c := Candidates(rows);
    forall k | 0 <= k < |c| ensures c[k] in rows && Pending(c[k]) {
      assert c[k] == sorted[k];
      assert sorted[k] in multiset(pending);
      assert c[k] in pending;
    }
    if |pending| <= BatchSize {
      forall o | o in rows && Pending(o) ensures o in c {
        assert o in multiset(pending);
      }
    }
  }

  /** A prefix of a list sorted by creation holds the oldest elements: none left out is older than one taken. */
  lemma CandidatesOldest(sorted: seq<Opportunity>, c: seq<Opportunity>)
    requires Sorting.SortedBy(sorted, CreatedAt, true)
    requires Sorting.IsPrefixOf(c, sorted)
    ensures multiset(c) <= multiset(sorted)
    ensures forall x, k :: x in multiset(sorted) - multiset(c) && 0 <= k < |c| ==> c[k].createdAt <= x.createdAt
  {
    var rest := sorted[|c|..];
    assert sorted == c + rest;
    assert multiset(sorted) == multiset(c) + multiset(rest);
    forall x, k | x in multiset(sorted) - multiset(c) && 0 <= k < |c| ensures c[k].createdAt <= x.createdAt {
      assert x in multiset(rest);
      assert x in rest;
      var j :| 0 <= j < |rest| && rest[j] == x;
      assert sorted[|c| + j] == x && sorted[k] == c[k];
      assert Sorting.InOrder(CreatedAt(sorted[k]), CreatedAt(sorted[|c| + j]), true);
    }
  }
}
