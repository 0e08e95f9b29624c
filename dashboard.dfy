/**
 * The dashboard list of opportunities: its filter and sort controls, the
 * pipeline that turns the rows into the cards shown, the per-card buttons and
 * badges, and the per-id "approving" / "posting" flags around the two actions.
 * Timestamps are integers (milliseconds); how a date string becomes one is a
 * parameter.
 */
module Dashboard {
  import opened Wrappers
  import opened Text
  import opened Opportunities
  import opened Sorting
  import Actions

  datatype SortOrder = Asc | Desc
  datatype SortField = CreatedAt | DeadlineField

  /** `Number.MAX_SAFE_INTEGER`, the sort key of a row without a deadline. */
  const MaxSafeInteger: int := 9007199254740991
  /** The largest time value a JavaScript `Date` can hold. */
  const MaxTime: int := 8640000000000000

  /**
   * `new Date(s).getTime()` for the strings compared here, and
   * `setHours(23, 59, 59, 999)` applied to a time (which depends on the local
   * time zone).
   */
  datatype DateParsing = DateParsing(parse: string -> int, endOfDay: int -> int)

  /** The values of the filter and sort controls. */
  datatype Controls = Controls(
    tab: string,
    sortOrder: SortOrder,
    sortField: SortField,
    searchTerm: string,
    startDate: string,
    endDate: string)

  // ---------------------------------------------------------------------------
  // The filters

  predicate TabKeeps(tab: string, o: Opportunity) {
    if tab == "pending" then !o.approved
    else if tab == "approved" then o.approved && !o.posted
    else if tab == "posted" then o.posted
    else true
  }

  /** Case-insensitive search in the title, and in the description when there is one. */
  predicate SearchKeeps(term: string, o: Opportunity) {
    term == "" ||
    Contains(Lower(o.title), Lower(term)) ||
    (Truthy(o.description) && Contains(Lower(o.description.value), Lower(term)))
  }

  predicate StartKeeps(startDate: string, dates: DateParsing, o: Opportunity) {
    startDate == "" || o.createdAt >= dates.parse(startDate)
  }

  predicate EndKeeps(endDate: string, dates: DateParsing, o: Opportunity) {
    endDate == "" || o.createdAt <= dates.endOfDay(dates.parse(endDate))
  }

  /** A row is shown when every active filter keeps it. */
  predicate Shown(c: Controls, dates: DateParsing, o: Opportunity) {
    TabKeeps(c.tab, o) && SearchKeeps(c.searchTerm, o) &&
    StartKeeps(c.startDate, dates, o) && EndKeeps(c.endDate, dates, o)
  }

  function SortKey(field: SortField, dates: DateParsing, o: Opportunity): int {
    match field
    case CreatedAt => o.createdAt
    case DeadlineField => if Truthy(o.deadline) then dates.parse(o.deadline.value) else MaxSafeInteger
  }

  /** The three named tabs split the rows whenever a posted row is also approved. */
  lemma TabsPartition(o: Opportunity)
    requires o.posted ==> o.approved
    ensures TabKeeps("all", o)
    ensures (if TabKeeps("pending", o) then 1 else 0) + (if TabKeeps("approved", o) then 1 else 0) +
            (if TabKeeps("posted", o) then 1 else 0) == 1
  {
  }

  /** An empty search keeps everything; a search for text the title contains keeps the row whatever the case. */
  lemma SearchFacts(term: string, o: Opportunity)
    ensures SearchKeeps("", o)
    ensures Contains(Lower(o.title), Lower(term)) ==> SearchKeeps(term, o)
    ensures !Truthy(o.description) ==> (SearchKeeps(term, o) <==> term == "" || Contains(Lower(o.title), Lower(term)))
  {
  }

  // ---------------------------------------------------------------------------
  // The pipeline of the `useEffect`, one step per filter

  method TabStep(rows: seq<Opportunity>, tab: string) returns (result: seq<Opportunity>)
    ensures result == Filter(rows, o => TabKeeps(tab, o))
  {
    if tab == "pending" {
      result := Filter(rows, (o: Opportunity) => !o.approved);
      FilterEquiv(rows, (o: Opportunity) => !o.approved, o => TabKeeps(tab, o));
    } else if tab == "approved" {
      result := Filter(rows, (o: Opportunity) => o.approved && !o.posted);
      FilterEquiv(rows, (o: Opportunity) => o.approved && !o.posted, o => TabKeeps(tab, o));
    } else if tab == "posted" {
      result := Filter(rows, (o: Opportunity) => o.posted);
      FilterEquiv(rows, (o: Opportunity) => o.posted, o => TabKeeps(tab, o));
    } else {
      result := rows;
      FilterAll(rows, o => TabKeeps(tab, o));
    }
  }

  method SearchStep(rows: seq<Opportunity>, searchTerm: string) returns (result: seq<Opportunity>)
    ensures result == Filter(rows, o => SearchKeeps(searchTerm, o))
  {
    if searchTerm != "" {
      var term := Lower(searchTerm);
      var matches := (o: Opportunity) =>
        Contains(Lower(o.title), term) || (Truthy(o.description) && Contains(Lower(o.description.value), term));
      result := Filter(rows, matches);
      FilterEquiv(rows, matches, o => SearchKeeps(searchTerm, o));
    } else {
      result := rows;
      FilterAll(rows, o => SearchKeeps(searchTerm, o));
    }
  }

  method StartStep(rows: seq<Opportunity>, startDate: string, dates: DateParsing) returns (result: seq<Opportunity>)
    ensures result == Filter(rows, o => StartKeeps(startDate, dates, o))
  {
    if startDate != "" {
      var start := dates.parse(startDate);
      result := Filter(rows, (o: Opportunity) => o.createdAt >= start);
      FilterEquiv(rows, (o: Opportunity) => o.createdAt >= start, o => StartKeeps(startDate, dates, o));
    } else {
      result := rows;
      FilterAll(rows, o => StartKeeps(startDate, dates, o));
    }
  }

  method EndStep(rows: seq<Opportunity>, endDate: string, dates: DateParsing) returns (result: seq<Opportunity>)
    ensures result == Filter(rows, o => EndKeeps(endDate, dates, o))
  {
    if endDate != "" {
      var end := dates.endOfDay(dates.parse(endDate));
      result := Filter(rows, (o: Opportunity) => o.createdAt <= end);
      FilterEquiv(rows, (o: Opportunity) => o.createdAt <= end, o => EndKeeps(endDate, dates, o));
    } else {
      result := rows;
      FilterAll(rows, o => EndKeeps(endDate, dates, o));
    }
  }

  /** The four filters applied one after another keep exactly the rows `Shown` keeps. */
  lemma FilterChain(rows: seq<Opportunity>, c: Controls, dates: DateParsing)
    ensures Filter(Filter(Filter(Filter(rows, o => TabKeeps(c.tab, o)), o => SearchKeeps(c.searchTerm, o)),
                          o => StartKeeps(c.startDate, dates, o)), o => EndKeeps(c.endDate, dates, o))
      == Filter(rows, o => Shown(c, dates, o))
  {
    var tab := (o: Opportunity) => TabKeeps(c.tab, o);
    var search := (o: Opportunity) => SearchKeeps(c.searchTerm, o);
    var start := (o: Opportunity) => StartKeeps(c.startDate, dates, o);
    var end := (o: Opportunity) => EndKeeps(c.endDate, dates, o);
    var two := (o: Opportunity) => tab(o) && search(o);
    var three := (o: Opportunity) => two(o) && start(o);
    var shown := (o: Opportunity) => Shown(c, dates, o);
    FilterThen(rows, tab, search, two);
    FilterThen(rows, two, start, three);
    FilterThen(rows, three, end, shown);
  }

  /** The filtering half of the `useEffect`: each active filter in turn. */
  method ApplyFilters(rows: seq<Opportunity>, c: Controls, dates: DateParsing) returns (result: seq<Opportunity>)
    ensures result == Filter(rows, o => Shown(c, dates, o))
  {
    result := TabStep(rows, c.tab);
    result := SearchStep(result, c.searchTerm);
    result := StartStep(result, c.startDate, dates);
    result := EndStep(result, c.endDate, dates);
    FilterChain(rows, c, dates);
  }

  /**
   * The `useEffect` for the controls `c`: the rows every active filter keeps,
   * sorted by the chosen key in the chosen order.
   */
  method FilterAndSort(rows: seq<Opportunity>, c: Controls, dates: DateParsing) returns (result: seq<Opportunity>)
    ensures multiset(result) == multiset(Filter(rows, o => Shown(c, dates, o)))
    ensures SortedBy(result, o => SortKey(c.sortField, dates, o), c.sortOrder == Asc)
  {
    var kept := ApplyFilters(rows, c, dates);
    result := SortBy(kept, o => SortKey(c.sortField, dates, o), c.sortOrder == Asc);
  }

  /** What the list shows: every row it shows passes every active filter, and every row that passes is shown, once per copy. */
  lemma ShownExactly(rows: seq<Opportunity>, result: seq<Opportunity>, c: Controls, dates: DateParsing)
    requires multiset(result) == multiset(Filter(rows, o => Shown(c, dates, o)))
    ensures forall i :: 0 <= i < |result| ==> Shown(c, dates, result[i])
    ensures forall o :: o in rows && Shown(c, dates, o) ==> o in result
    ensures forall o :: Shown(c, dates, o) ==> multiset(result)[o] == multiset(rows)[o]
    ensures multiset(result) <= multiset(rows)
  {
    var kept := Filter(rows, o => Shown(c, dates, o));
    FilterCounts(rows, o => Shown(c, dates, o));
    SameElements(result, kept);
    forall i | 0 <= i < |result| ensures Shown(c, dates, result[i]) {
      assert result[i] in result;
      assert result[i] in kept;
      var k :| 0 <= k < |kept| && kept[k] == result[i];
    }
  }

  lemma SameElements<T>(a: seq<T>, b: seq<T>)
    requires multiset(a) == multiset(b)
    ensures forall x :: x in a <==> x in b
  {
    forall x ensures x in a <==> x in b {
      assert x in a <==> x in multiset(a);
      assert x in b <==> x in multiset(b);
    }
  }

  // ---------------------------------------------------------------------------
  // The view state

  class OpportunityList {
    var isPosting: map<int, bool>
    var isApproving: map<int, bool>
    var activeTab: string
    var sortOrder: SortOrder
    var sortField: SortField
    var searchTerm: string
    var startDate: string
    var endDate: string

    function Current(): Controls
      reads this
    {
      Controls(activeTab, sortOrder, sortField, searchTerm, startDate, endDate)
    }

    /** The initial state of every hook. */
    constructor ()
      ensures Current() == Controls("all", Desc, CreatedAt, "", "", "")
      ensures isPosting == map[] && isApproving == map[]
    {
      isPosting := map[];
      isApproving := map[];
      activeTab := "all";
      sortOrder := Desc;
      sortField := CreatedAt;
      searchTerm := "";
      startDate := "";
      endDate := "";
    }

    /** `toggleSortOrder`. */
    method ToggleSortOrder()
      modifies this
      ensures sortOrder == Flip(old(sortOrder))
      ensures Current() == old(Current()).(sortOrder := Flip(old(sortOrder)))
      ensures isPosting == old(isPosting) && isApproving == old(isApproving)
    {
      sortOrder := if sortOrder == Asc then Desc else Asc;
    }

    /** `clearFilters`: every control but the tab back to its initial value. */
    method ClearFilters()
      modifies this
      ensures Current() == Controls(old(activeTab), Desc, CreatedAt, "", "", "")
      ensures !ShowClearAll()
      ensures isPosting == old(isPosting) && isApproving == old(isApproving)
    {
      searchTerm := "";
      startDate := "";
      endDate := "";
      sortField := CreatedAt;
      sortOrder := Desc;
    }

    /** Whether the "Clear All" button is rendered. */
    predicate ShowClearAll()
      reads this
    {
      ClearAllShown(Current())
    }

    /** `handleApprove(id)`: the id's flag is raised, the action runs, and the flag is lowered whatever the outcome. */
    method HandleApprove(table: Table, id: int, updateError: Option<DbError>)
      modifies this, table
      ensures isApproving == old(isApproving)[id := false]
      ensures isPosting == old(isPosting) && Current() == old(Current())
      ensures updateError.None? ==> table.rows == UpdateWhere(old(table.rows), id, MarkApproved)
      ensures updateError.Some? ==> table.rows == old(table.rows)
    {
      isApproving := isApproving[id := true];
      var _ := Actions.Approve(table, id, updateError);
      isApproving := isApproving[id := false];
    }

    /** `handlePostToTelegram(opportunity)`, likewise with the posting flag. */
    method HandlePostToTelegram(table: Table, id: int, backend: Actions.Backend, reply: Actions.TelegramReply)
      modifies this, table
      ensures isPosting == old(isPosting)[id := false]
      ensures isApproving == old(isApproving) && Current() == old(Current())
      ensures table.rows == Actions.PostSpec(old(table.rows), id, backend, reply).rows
    {
      isPosting := isPosting[id := true];
      var _, _ := Actions.PostToTelegram(table, id, backend, reply);
      isPosting := isPosting[id := false];
    }
  }

  function Flip(order: SortOrder): SortOrder {
    if order == Asc then Desc else Asc
  }

  /** Toggling twice restores the order, and a toggle always changes it. */
  lemma FlipInvolution(order: SortOrder)
    ensures Flip(Flip(order)) == order && Flip(order) != order
  {
  }

  /** The condition on which the page renders "Clear All". */
  predicate ClearAllShown(c: Controls) {
    c.searchTerm != "" || c.startDate != "" || c.endDate != "" || c.sortField != CreatedAt || c.sortOrder != Desc
  }

  /** "Clear All" is shown exactly when some control other than the tab differs from its initial value. */
  lemma ClearAllIffChanged(c: Controls)
    ensures ClearAllShown(c) <==> c.(tab := "all") != Controls("all", Desc, CreatedAt, "", "", "")
  {
  }

  // ---------------------------------------------------------------------------
  // Sorting by deadline

  /**
   * A row without a deadline sorts after every row with one when ascending,
   * and before when descending, as long as the dates parse to real times.
   */
  lemma NullDeadlinesAtEnd(result: seq<Opportunity>, dates: DateParsing, ascending: bool, i: nat, j: nat)
    requires SortedBy(result, o => SortKey(DeadlineField, dates, o), ascending)
    requires forall s :: -MaxTime <= dates.parse(s) <= MaxTime
    requires i < j < |result|
    ensures ascending && !Truthy(result[i].deadline) ==> !Truthy(result[j].deadline)
    ensures !ascending && !Truthy(result[j].deadline) ==> !Truthy(result[i].deadline)
  {
    assert InOrder(SortKey(DeadlineField, dates, result[i]), SortKey(DeadlineField, dates, result[j]), ascending);
  }

  // ---------------------------------------------------------------------------
  // One card

  datatype CardAction = ApproveButton(busy: bool) | PostButton(busy: bool) | NoButton

  datatype Card = Card(action: CardAction, approvedBadge: bool, postedBadge: bool)

  /** `record[id]` read as a boolean: a missing key is `undefined`, which is falsy. */
  predicate Flag(flags: map<int, bool>, id: int) {
    id in flags && flags[id]
  }

  /** The button and badges of the card for `o`; a busy button is disabled and shows the progress label. */
  function CardFor(o: Opportunity, isApproving: map<int, bool>, isPosting: map<int, bool>): Card {
    Card(
      if !o.approved then ApproveButton(Flag(isApproving, o.id))
      else if !o.posted then PostButton(Flag(isPosting, o.id))
      else NoButton,
      o.approved && !o.posted,
      o.posted)
  }

  /** Each card's button and badges match the tab the row belongs to. */
  lemma CardMatchesTabs(o: Opportunity, isApproving: map<int, bool>, isPosting: map<int, bool>)
    ensures var card := CardFor(o, isApproving, isPosting);
      && (card.action.ApproveButton? <==> TabKeeps("pending", o))
      && (card.action.PostButton? <==> TabKeeps("approved", o))
      && (card.approvedBadge <==> TabKeeps("approved", o))
      && (card.postedBadge <==> TabKeeps("posted", o))
      && (card.action.NoButton? <==> o.approved && o.posted)
  {
  }

  /** While its action runs, a card's button is disabled; once the flag is lowered it is enabled again. */
  lemma ButtonBusyWhileRunning(o: Opportunity, isApproving: map<int, bool>, isPosting: map<int, bool>)
    ensures !o.approved ==> CardFor(o, isApproving[o.id := true], isPosting).action == ApproveButton(true)
    ensures !o.approved ==> CardFor(o, isApproving[o.id := false], isPosting).action == ApproveButton(false)
    ensures o.approved && !o.posted ==> CardFor(o, isApproving, isPosting[o.id := true]).action == PostButton(true)
    ensures o.approved && !o.posted ==> CardFor(o, isApproving, isPosting[o.id := false]).action == PostButton(false)
  {
  }

  /** Raising or lowering one id's flag leaves every other card's button as it was. */
  lemma FlagIsPerId(o: Opportunity, id: int, b: bool, isApproving: map<int, bool>, isPosting: map<int, bool>)
    requires o.id != id
    ensures CardFor(o, isApproving[id := b], isPosting) == CardFor(o, isApproving, isPosting)
    ensures CardFor(o, isApproving, isPosting[id := b]) == CardFor(o, isApproving, isPosting)
  {
  }
}
