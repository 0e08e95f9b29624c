/**
 * The setup page: whether the two tables exist, and the two server actions
 * that create them and seed the default settings.
 */
module Setup {
  import opened Wrappers
  import opened Text
  import opened Opportunities
  import Settings

  // ---------------------------------------------------------------------------
  // Table existence

  /** A table "exists" unless its probe failed with the relation-missing message. */
  predicate TableExists(probeError: Option<DbError>) {
    probeError.None? || !Contains(probeError.value.message, "relation") || !Contains(probeError.value.message, "does not exist")
  }

  /** Existence as the setup page judges it is exactly the negation of the settings page's test. */
  lemma TableExistsIff(probeError: Option<DbError>)
    ensures TableExists(probeError) <==> !Settings.TableDoesNotExist(probeError)
  {
  }

  predicate TablesExist(opportunitiesError: Option<DbError>, settingsError: Option<DbError>) {
    TableExists(opportunitiesError) && TableExists(settingsError)
  }

  /** The Settings button is disabled when the tables do not both exist. */
  predicate SettingsButtonDisabled(opportunitiesError: Option<DbError>, settingsError: Option<DbError>) {
    !TablesExist(opportunitiesError, settingsError)
  }

  /**
   * The Settings button is disabled exactly when at least one probe reports a
   * missing relation, which is when the settings page or the webhook would
   * refuse to work for lack of that table.
   */
  lemma ButtonDisabledIff(opportunitiesError: Option<DbError>, settingsError: Option<DbError>)
    ensures SettingsButtonDisabled(opportunitiesError, settingsError) <==>
      Settings.TableDoesNotExist(opportunitiesError) || Settings.TableDoesNotExist(settingsError)
  {
  }

  // ---------------------------------------------------------------------------
  // Default settings

  /** The `settings` table, keyed by its unique `key` column. */
  type SettingsTable = map<string, Option<string>>

  /** `INSERT … VALUES (schedule, '0 12 * * *'), (last scrape, NULL) ON CONFLICT (key) DO NOTHING`. */
  function InsertDefaults(m: SettingsTable): (r: SettingsTable)
    ensures r.Keys == m.Keys + {Settings.ScheduleKey, Settings.LastScrapeKey}
  {
    var withSchedule := if Settings.ScheduleKey in m then m else m[Settings.ScheduleKey := Some(Settings.DefaultSchedule)];
    if Settings.LastScrapeKey in withSchedule then withSchedule else withSchedule[Settings.LastScrapeKey := None]
  }

  /**
   * What a successful `upsert([{ schedule: "0 12 * * *" }, { last scrape: null }])`
   * leaves: both keys hold their default values.
   */
  function UpsertDefaults(m: SettingsTable): (r: SettingsTable)
    ensures r.Keys == m.Keys + {Settings.ScheduleKey, Settings.LastScrapeKey}
  {
    m[Settings.ScheduleKey := Some(Settings.DefaultSchedule)][Settings.LastScrapeKey := None]
  }

  /** Existing keys keep their values; a missing key gets its default value. */
  lemma InsertDefaultsKeeps(m: SettingsTable)
    ensures var r := InsertDefaults(m);
      && (forall k :: k in m ==> r[k] == m[k])
      && (Settings.ScheduleKey !in m ==> r[Settings.ScheduleKey] == Some(Settings.DefaultSchedule))
      && (Settings.LastScrapeKey !in m ==> r[Settings.LastScrapeKey] == None)
  {
    assert Settings.ScheduleKey != Settings.LastScrapeKey by {
      assert Settings.ScheduleKey[0] != Settings.LastScrapeKey[0];
    }
  }

  /** Running the default insert twice is the same as running it once. */
  lemma InsertDefaultsIdempotent(m: SettingsTable)
    ensures InsertDefaults(InsertDefaults(m)) == InsertDefaults(m)
  {
    InsertDefaultsKeeps(m);
    InsertDefaultsKeeps(InsertDefaults(m));
  }

  /**
   * The insert never changes the schedule the settings page shows, while a
   * successful upsert resets it to the default.
   */
  lemma DefaultsAndSchedule(m: SettingsTable)
    ensures Settings.ScheduleOf(InsertDefaults(m)) == Settings.ScheduleOf(m)
    ensures Settings.ScheduleOf(UpsertDefaults(m)) == Settings.DefaultSchedule
  {
    InsertDefaultsKeeps(m);
    assert Settings.ScheduleKey != Settings.LastScrapeKey by {
      assert Settings.ScheduleKey[0] != Settings.LastScrapeKey[0];
    }
  }

  // ---------------------------------------------------------------------------
  // initializeDatabase

  datatype InitResult = InitOk | InitFailed(error: string)

  /** `error instanceof Error ? error.message : fallback`. */
  function ThrownMessage(t: Thrown, fallback: string): string {
    match t
    case ErrorValue(message) => message
    case OtherValue => fallback
  }

  const UnknownInitError := "Unknown error during database initialization"
  const ManualCreationNeeded := "Database tables need to be created manually. " + "Please run the SQL commands in your Supabase dashboard."

  /** The answers to the calls of `initializeDatabase`, in the order they are made. */
  datatype InitAnswers = InitAnswers(
    createOpportunities: CallOutcome,
    probeOpportunities: CallOutcome,
    createSettings: CallOutcome,
    insertDefaults: CallOutcome,
    upsertDefaults: CallOutcome)

  /** The fallback probe after a failed `CREATE TABLE` found the opportunities table missing. */
  predicate ManualNeeded(a: InitAnswers) {
    && a.createOpportunities.Returned? && a.createOpportunities.error.Some?
    && a.probeOpportunities.Returned? && a.probeOpportunities.error.Some?
    && ReportsMissingRelation(a.probeOpportunities.error.value.message)
  }

  datatype InitRun = InitRun(result: InitResult, settings: SettingsTable)

  /** `initializeDatabase()` against the settings table `m`. */
  function InitializeDatabase(a: InitAnswers, m: SettingsTable): InitRun {
    if a.createOpportunities.Threw? then InitRun(InitFailed(ThrownMessage(a.createOpportunities.thrown, UnknownInitError)), m)
    else if ManualNeeded(a) then InitRun(InitFailed(ManualCreationNeeded), m)
    else if a.createSettings.Threw? then InitRun(InitFailed(ThrownMessage(a.createSettings.thrown, UnknownInitError)), m)
    else match a.insertDefaults
      case Threw(t) => InitRun(InitFailed(ThrownMessage(t, UnknownInitError)), m)
      case Returned(None) => InitRun(InitOk, InsertDefaults(m))
      case Returned(Some(_)) =>
        if a.upsertDefaults == Returned(None) then InitRun(InitOk, UpsertDefaults(m)) else InitRun(InitOk, m)
  }

  predicate NoneThrew(a: InitAnswers) {
    !a.createOpportunities.Threw? && !a.createSettings.Threw? && !a.insertDefaults.Threw?
  }

  /**
   * Without an exception, initialisation fails only when the fallback probe
   * finds the opportunities table missing: settings-table and insert errors
   * still count as success. Any other failure carries the thrown message.
   */
  lemma InitFailsIff(a: InitAnswers, m: SettingsTable)
    ensures var run := InitializeDatabase(a, m);
      && (NoneThrew(a) ==> (run.result.InitFailed? <==> ManualNeeded(a)))
      && (run.result.InitFailed? && !ManualNeeded(a) ==> !NoneThrew(a))
      && (run.result.InitFailed? ==> run.settings == m)
  {
  }

  /** On success the settings hold both default keys, and a key that was already set keeps its value unless the upsert ran. */
  lemma InitSeedsSettings(a: InitAnswers, m: SettingsTable)
    ensures var run := InitializeDatabase(a, m);
      run.result.InitOk? ==>
        && (run.settings == m || run.settings == InsertDefaults(m) || run.settings == UpsertDefaults(m))
        && (a.insertDefaults == Returned(None) ==> forall k :: k in m ==> k in run.settings && run.settings[k] == m[k])
        && (run.settings != m ==> Settings.ScheduleKey in run.settings && Settings.LastScrapeKey in run.settings)
  {
    InsertDefaultsKeeps(m);
  }

  // ---------------------------------------------------------------------------
  // initializeDatabaseManual

  const ManualInitError := "Manual initialization failed"

  datatype ManualAnswers = ManualAnswers(probeOpportunities: CallOutcome, probeSettings: CallOutcome, upsertDefaults: CallOutcome)

  /** `!settingsTestError || !settingsTestError.message.includes("does not exist")`. */
  predicate UpsertsDefaults(probeSettings: Option<DbError>) {
    probeSettings.None? || !Contains(probeSettings.value.message, "does not exist")
  }

  datatype ManualRun = ManualRun(result: InitResult, upserted: bool, settings: SettingsTable)

  /** `initializeDatabaseManual()` against the settings table `m`. */
  function InitializeDatabaseManual(a: ManualAnswers, m: SettingsTable): ManualRun {
    if a.probeOpportunities.Threw? then ManualRun(InitFailed(ThrownMessage(a.probeOpportunities.thrown, ManualInitError)), false, m)
    else if a.probeSettings.Threw? then ManualRun(InitFailed(ThrownMessage(a.probeSettings.thrown, ManualInitError)), false, m)
    else if !UpsertsDefaults(a.probeSettings.error) then ManualRun(InitOk, false, m)
    else match a.upsertDefaults
      case Threw(t) => ManualRun(InitFailed(ThrownMessage(t, ManualInitError)), true, m)
      case Returned(None) => ManualRun(InitOk, true, UpsertDefaults(m))
      case Returned(Some(_)) => ManualRun(InitOk, true, m)
  }

  /**
   * The upsert is attempted exactly when the settings probe does not report a
   * missing table, and the opportunities probe's error plays no part.
   */
  lemma ManualUpsertIff(a: ManualAnswers, m: SettingsTable, otherProbe: Option<DbError>)
    requires !a.probeOpportunities.Threw? && !a.probeSettings.Threw?
    ensures InitializeDatabaseManual(a, m).upserted <==> UpsertsDefaults(a.probeSettings.error)
    ensures InitializeDatabaseManual(a.(probeOpportunities := Returned(otherProbe)), m) == InitializeDatabaseManual(a, m)
  {
  }

  /** The manual action reports failure only for an exception. */
  lemma ManualFailsOnlyOnThrow(a: ManualAnswers, m: SettingsTable)
    ensures InitializeDatabaseManual(a, m).result.InitFailed? ==>
      a.probeOpportunities.Threw? || a.probeSettings.Threw? || a.upsertDefaults.Threw?
  {
  }
}
