/**
 * The settings page: it refuses to render when the `settings` table is
 * missing, folds the table's rows into a key/value map, and hands the posting
 * schedule (or its default) to the Telegram settings card.
 */
module Settings {
  import opened Wrappers
  import opened Text
  import opened Opportunities

  /** One row of the `settings` table. */
  datatype Setting = Setting(key: string, value: Option<string>)

  const ScheduleKey := "telegram_post_schedule"
  const LastScrapeKey := "last_scrape_date"
  const DefaultSchedule := "0 12 * * *"

  /** `tableCheckError?.message?.includes("relation") && …includes("does not exist")`. */
  predicate TableDoesNotExist(tableCheckError: Option<DbError>) {
    tableCheckError.Some? && ReportsMissingRelation(tableCheckError.value.message)
  }

  /** The `reduce` over the rows: each row overwrites the entry for its key. */
  function SettingsMapOf(rows: seq<Setting>): (m: map<string, Option<string>>)
    ensures forall k :: k in m <==> exists i :: 0 <= i < |rows| && rows[i].key == k
  {
    if rows == [] then map[]
    else
      var init := SettingsMapOf(rows[..|rows| - 1]);
      assert forall i :: 0 <= i < |rows| - 1 ==> rows[..|rows| - 1][i] == rows[i];
      init[rows[|rows| - 1].key := rows[|rows| - 1].value]
  }

  /** The fold as the page runs it, over `settings || []`. */
  method BuildSettingsMap(settings: Option<seq<Setting>>) returns (acc: map<string, Option<string>>)
    ensures acc == SettingsMapOf(settings.GetOr([]))
  {
    var rows := settings.GetOr([]);
    acc := map[];
    var i := 0;
    while i < |rows|
      invariant 0 <= i <= |rows|
      invariant acc == SettingsMapOf(rows[..i])
    {
      assert rows[..i + 1][..i] == rows[..i];
      acc := acc[rows[i].key := rows[i].value];
      i := i + 1;
    }
    assert rows[..|rows|] == rows;
  }

  /** The entry for a key is the value of the LAST row carrying that key. */
  lemma {:induction false} LastWriteWins(rows: seq<Setting>, i: nat)
    requires i < |rows|
    requires forall j :: i < j < |rows| ==> rows[j].key != rows[i].key
    ensures rows[i].key in SettingsMapOf(rows) && SettingsMapOf(rows)[rows[i].key] == rows[i].value
  {
    if i < |rows| - 1 {
      var init := rows[..|rows| - 1];
      assert init[i] == rows[i];
      forall j | i < j < |init| ensures init[j].key != init[i].key {
        assert init[j] == rows[j];
      }
      LastWriteWins(init, i);
    }
  }

  /** No rows (or `null` data) give the empty map. */
  lemma NullDataEmpty()
    ensures SettingsMapOf(None.GetOr([])) == map[]
  {
  }

  /** `settingsMap.telegram_post_schedule || "0 12 * * *"`. */
  function ScheduleOf(m: map<string, Option<string>>): (r: string)
    ensures r != ""
    ensures ScheduleKey in m && Truthy(m[ScheduleKey]) ==> r == m[ScheduleKey].value
    ensures !(ScheduleKey in m && Truthy(m[ScheduleKey])) ==> r == DefaultSchedule
  {
    if ScheduleKey in m && Truthy(m[ScheduleKey]) then m[ScheduleKey].value else DefaultSchedule
  }

  /** What `select("*")` on the settings table gives: data and error, or a thrown exception. */
  datatype Fetch = Fetched(data: Option<seq<Setting>>, error: Option<DbError>) | FetchThrew

  datatype View =
    | NotInitialized
    | LoadError(message: string)
    | SettingsView(schedule: string)
    | UnexpectedError

  /** `SettingsPage()`: the view rendered for the two database answers. */
  method Page(tableCheckError: Option<DbError>, fetch: Fetch) returns (view: View)
    ensures TableDoesNotExist(tableCheckError) ==> view == NotInitialized
    ensures !TableDoesNotExist(tableCheckError) && fetch.FetchThrew? ==> view == UnexpectedError
    ensures !TableDoesNotExist(tableCheckError) && fetch.Fetched? && fetch.error.Some? ==>
      view == LoadError(fetch.error.value.message)
    ensures !TableDoesNotExist(tableCheckError) && fetch.Fetched? && fetch.error.None? ==>
      view == SettingsView(ScheduleOf(SettingsMapOf(fetch.data.GetOr([]))))
  {
    if TableDoesNotExist(tableCheckError) {
      return NotInitialized;
    }
    match fetch {
      case FetchThrew =>
        return UnexpectedError;
      case Fetched(data, error) =>
        if error.Some? {
          return LoadError(error.value.message);
        }
        var settingsMap := BuildSettingsMap(data);
        return SettingsView(ScheduleOf(settingsMap));
    }
  }

  /**
   * The schedule shown is the last schedule row's value when that is a
   * non-empty string, and the default otherwise (no row, a null or an empty value).
   */
  lemma ScheduleShown(rows: seq<Setting>, i: nat)
    requires i < |rows| && rows[i].key == ScheduleKey
    requires forall j :: i < j < |rows| ==> rows[j].key != ScheduleKey
    ensures ScheduleOf(SettingsMapOf(rows)) == if Truthy(rows[i].value) then rows[i].value.value else DefaultSchedule
  {
    LastWriteWins(rows, i);
  }

  /** Without a schedule row the default schedule is shown. */
  lemma NoScheduleRowDefault(rows: seq<Setting>)
    requires forall j :: 0 <= j < |rows| ==> rows[j].key != ScheduleKey
    ensures ScheduleOf(SettingsMapOf(rows)) == DefaultSchedule
  {
  }
}
