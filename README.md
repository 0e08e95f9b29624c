# Opportunity Desk, modelled in Dafny

Opportunity Desk collects scholarship and grant postings and publishes them to a Telegram channel.

- A Python scraper reads the opportunitydesk.org listing for one date and follows every article to its detail page. From each detail page it extracts the apply link, the deadline, the thumbnail and a short description.
- Posts reach the web application through a webhook, which stores them unapproved and unposted.
- On the dashboard the operator filters, sorts and approves them, then posts each one to Telegram.
- A cron endpoint posts the oldest approved ones in batches of five.
- A scrape endpoint runs the scraper for a date.
- The setup page checks that the two database tables exist and seeds the default settings. The settings page checks only the `settings` table and shows the stored schedule.

This project models that core and proves what each part promises. Each source file becomes one module:

| module | file | form |
|---|---|---|
| `Scraper` | `opportunitydesk_scraper.py` | imperative |
| `Actions` | `web_app/lib/actions.ts` | mixed |
| `Dashboard` | `web_app/components/opportunity-list.tsx` | mixed |
| `Webhook` | `web_app/app/api/webhook/route.ts` | pure |
| `Cron` | `web_app/app/api/cron/route.ts` | imperative |
| `ScrapeRoute` | `web_app/app/api/scrape/route.ts` | pure |
| `Settings` | `web_app/app/settings/page.tsx` | mixed |
| `Setup` | `web_app/app/setup/page.tsx` | pure |

They share four modules:
- `Wrappers` defines `Option`.
- `Text` holds the string operations: containment, ASCII lower-casing, Python's whitespace stripping, and UTF-16 length and prefix.
- `Sorting` holds a stable sort by an integer key, `filter` and counting.
- `Opportunities` holds the `opportunities` row, JavaScript truthiness of nullable text, the database error, and the `Table` class whose rows the actions update.

How each form is modelled:
- **Imperative code** becomes methods with loops.
  - The scraper's `Session` is a class whose `pending` field holds what the network will answer, in order, and whose `requested` field logs every URL asked for.
  - `safe_get`, the paragraph scan and the article loop are methods. Each is proved equal to a recursive specification function, and the properties are lemmas about that function.
  - The cron loop is a method over the `Table` class, proved against `Cron.PostFrom`.
  - The settings fold is a method proved against `Settings.SettingsMapOf`.
- **Pure code** becomes functions plus lemmas relating them.
- **Outside calls** are parameters of the model, each with every outcome it can have: answer, error or exception. These are the network, the database, the Telegram Bot API, the process environment, `exec`, and the current time.

A few behaviours of the code are worth stating outright:
- **Apply link.** It comes from the LAST paragraph that mentions "for more information" and has a link, because the loop keeps overwriting it. An empty `href` there falls back to the detail URL.
- **Failed detail fetch.** When the detail page cannot be fetched, all four fields are absent, including the link. The code has no fallback to the detail URL on that path.
- **Deadline label.** The label "deadline:" may appear anywhere in the first `<strong>`, and the deadline is the rest of that line after the first label.
- **Failed listing fetch.** It gives an empty list with no failure flag.
- **Delivery.** `opportunitydesk_scraper.py` delivers nothing itself. The webhook it would call is modelled on its own.

## Model

| member | source | states |
|---|---|---|
| Scraper.Session.Get | opportunitydesk_scraper.py:31 | one request consumes the next network answer and records its URL |
| Scraper.SafeGet | opportunitydesk_scraper.py:28-37 | the result, the remaining answers and the URLs requested are those of the retry specification `SafeGetSpec` |
| Scraper.SafeGetAttempts | opportunitydesk_scraper.py:28-37 | at most `max_retries` attempts, at least one when retries are allowed, every attempt before the last failed, exactly that many answers consumed |
| Scraper.SafeGetLastAttempt | opportunitydesk_scraper.py:29-33 | a returned page is the answer of the last attempt; an error other than a request failure escapes on the attempt that raised it |
| Scraper.SafeGetGivesUpIffAllFail | opportunitydesk_scraper.py:29-37 | `None` is returned exactly when all `max_retries` attempts failed, and then all of them were made |
| Scraper.SafeGetNoUnexpected | opportunitydesk_scraper.py:28-37 | without unexpected errors on the network, `safe_get` never raises and leaves none behind |
| Scraper.LastIsLastMatch | opportunitydesk_scraper.py:52-66 | the overwritten variable ends as the value of the last paragraph that offers one, and `None` only when none does |
| Scraper.LastFromMatch | opportunitydesk_scraper.py:52-66 | a paragraph that offers a value and is followed by none that does determines the result |
| Scraper.LastExtend | opportunitydesk_scraper.py:52-66 | one more paragraph overwrites the value exactly when it offers one |
| Scraper.ScanParagraphs | opportunitydesk_scraper.py:52-66 | the loop's link and deadline are the values of the last paragraph offering each |
| Scraper.DeadlineText | opportunitydesk_scraper.py:64-66 | the extracted deadline is one line, with no leading or trailing whitespace |
| Scraper.DeadlineTextAfterLabel | opportunitydesk_scraper.py:63-66 | when the first label, in any case, starts at position n and is followed by spaces and a stripped date that ends the text or is followed by a newline and more text, the deadline is exactly that date |
| Scraper.LineAfterLabel | opportunitydesk_scraper.py:63-66 | the text after the label, stripped on the left, cut at the first newline and stripped, is the date when it is whitespace, the date, then nothing or a newline |
| Scraper.DeadlineAfterWords | opportunitydesk_scraper.py:62-66 | a first strong text "Application Deadline: March 1" gives the deadline "March 1" |
| Scraper.DeadlineAbsentIff | opportunitydesk_scraper.py:61-66 | the deadline is absent exactly when no paragraph's first strong text mentions "deadline:" |
| Scraper.StripDeadlinePrefix | opportunitydesk_scraper.py:82 | the cleaned description is a suffix of the raw one: unchanged without a leading label, empty when there is no '.', otherwise the text after the first '.', left-stripped |
| Scraper.DeadlinePrefixFacts | opportunitydesk_scraper.py:82 | skipping the label, whitespace, the text up to a '.' and the '.' leaves the text after the first '.' |
| Scraper.DescriptionOf | opportunitydesk_scraper.py:76-83 | a description exists exactly when the content container has a direct paragraph, and is the cleaned join of the first two |
| Scraper.LinkFallback | opportunitydesk_scraper.py:85-87 | without a paragraph offering a link, the link is the detail URL |
| Scraper.LinkOfLastOffer | opportunitydesk_scraper.py:52-87 | the last paragraph that mentions "for more information" and has an `href` decides the link: that `href` when it is not empty, the detail URL otherwise |
| Scraper.LinkFromLastOffer | opportunitydesk_scraper.py:52-87 | any other link is the non-empty href of a paragraph mentioning "for more information" that no later offering paragraph follows |
| Scraper.DetailUnreachable | opportunitydesk_scraper.py:40-42 | when the detail page cannot be fetched, all four fields are absent |
| Scraper.ExtractDetailInfo | opportunitydesk_scraper.py:39-90 | the result and the session afterwards are those of fetching the detail page and extracting from it |
| Scraper.ProcessArticle | opportunitydesk_scraper.py:112-139 | one article yields a record, or nothing when it has no title link or its extraction raised, with session state as its step specifies |
| Scraper.ScanArticlesSnoc | opportunitydesk_scraper.py:111-141 | scanning a list is scanning all but the last article, then that one from the state left |
| Scraper.ScanLoop | opportunitydesk_scraper.py:111-141 | the records, the remaining answers and the requested URLs are those of the article-by-article specification |
| Scraper.ScanBound | opportunitydesk_scraper.py:111-141 | at most one record per article |
| Scraper.ScanKeepsLinkedArticles | opportunitydesk_scraper.py:111-141 | without unexpected errors, the records carry the titles of exactly the articles with a title link, in listing order |
| Scraper.FetchOpportunitiesByDate | opportunitydesk_scraper.py:92-141 | the result and the session afterwards are those of the listing specification for the date's URL |
| Scraper.ListingUnreachable | opportunitydesk_scraper.py:99-105 | when every attempt at the listing fails, the result is empty and only the listing URL was requested, five times |
| Actions.Approve | web_app/lib/actions.ts:6-18 | an update error throws "Failed to approve opportunity" and changes nothing; otherwise only rows with the id become approved |
| Actions.ApproveIdempotent | web_app/lib/actions.ts:9 | approving twice is approving once |
| Actions.ApproveOnlyTouchesRow | web_app/lib/actions.ts:9 | approval sets `approved` on the rows with that id, leaves every other row alone and never touches `posted_to_telegram` |
| Actions.MessageFrame | web_app/lib/actions.ts:156-173 | the message starts with the title part and a blank line, and ends with the Join Us link and the hashtags |
| Actions.MessageShowsFields | web_app/lib/actions.ts:161-172 | a present deadline appears as the bold deadline line, a present link and a non-empty title appear in the message |
| Actions.CaptionFits | web_app/lib/actions.ts:57 | the caption is at most 1024 UTF-16 units, is the whole message when that fits, and has exactly 1024 units otherwise |
| Actions.RequestCarriesMessage | web_app/lib/actions.ts:51-101 | with a thumbnail a `sendPhoto` request carrying the chat, the photo and as caption the message cut to 1024 UTF-16 units; without one a `sendMessage` carrying the whole message; both to the bot's API URL |
| Actions.MapErrorShape | web_app/lib/actions.ts:136-152 | "fetch failed" becomes the reset message for ECONNRESET, the DNS message for ENOTFOUND or EAI_AGAIN, the connect message otherwise; any other error is exactly the thumbnail prefix plus the message when it names an invalid photo URL, and "Failed to post to Telegram: " plus the message otherwise |
| Actions.InvalidPhotoMessage | web_app/lib/actions.ts:77-79 | a photo Telegram calls invalid yields, after the catch-all, the thumbnail message around the invalid-photo detail |
| Actions.RejectedPrefixClean | web_app/lib/actions.ts:104-113 | a rejected text message keeps its non-JSON wording under the generic failure prefix |
| Actions.UpdatePrefixClean | web_app/lib/actions.ts:122-126 | a failed status update keeps its wording under the generic failure prefix |
| Actions.Single | web_app/lib/actions.ts:23-32 | a row comes back exactly when one row of the table has the requested id, and it is that row |
| Actions.PostToTelegram | web_app/lib/actions.ts:19-153 | the result, the request sent and the table afterwards are those of the posting specification `PostSpec` |
| Actions.PostSucceedsIff | web_app/lib/actions.ts:29-126 | a post succeeds exactly when the row is found, the bot is configured, Telegram accepts and the update goes through |
| Actions.PostMarksOnlyOnSuccess | web_app/lib/actions.ts:116-126 | the table changes only on success, and then the row with the id is marked posted |
| Actions.PostCallsTelegramIff | web_app/lib/actions.ts:29-51 | Telegram is contacted exactly when the row is found and both settings are present, with the request for that row |
| Actions.InvalidPhotoSurfaces | web_app/lib/actions.ts:73-79 | Telegram refusing a thumbnail as an invalid photo fails the post with the thumbnail message |
| Actions.PhotoRejectedSurfaces | web_app/lib/actions.ts:73-152 | Telegram refusing a photo for a reason other than an invalid photo fails the post with the non-JSON `sendPhoto` wording and the body, JSON or not |
| Actions.RejectedMessageSurfaces | web_app/lib/actions.ts:104-113 | Telegram refusing a text message fails the post with the non-JSON wording and the body |
| Actions.UpdateFailureSurfaces | web_app/lib/actions.ts:117-126 | a post Telegram accepted but the database did not record fails with that message and leaves the row unposted |
| Dashboard.TabsPartition | web_app/components/opportunity-list.tsx:50-56 | "all" keeps every row, and every consistent row lies in exactly one of pending, approved and posted |
| Dashboard.SearchFacts | web_app/components/opportunity-list.tsx:59-65 | an empty term keeps everything, a title match is kept, and without a description only the title is searched |
| Dashboard.TabStep | web_app/components/opportunity-list.tsx:49-56 | the result is the rows of the active tab, in order |
| Dashboard.SearchStep | web_app/components/opportunity-list.tsx:58-65 | the result is the rows matching the search term, in order |
| Dashboard.StartStep | web_app/components/opportunity-list.tsx:67-74 | the result is the rows created at or after the start date, in order |
| Dashboard.EndStep | web_app/components/opportunity-list.tsx:76-84 | the result is the rows created no later than the end of the end date, in order |
| Dashboard.FilterChain | web_app/components/opportunity-list.tsx:46-84 | the four filters in sequence keep exactly the rows all four accept |
| Dashboard.ApplyFilters | web_app/components/opportunity-list.tsx:46-84 | the filtered list is the rows every active filter accepts, in order |
| Dashboard.FilterAndSort | web_app/components/opportunity-list.tsx:46-102 | the displayed list is a permutation of the filtered rows, sorted by the chosen field in the chosen direction |
| Dashboard.ShownExactly | web_app/components/opportunity-list.tsx:46-102 | every displayed row passes the filters, every passing row is displayed as many times as it occurs in the table, and nothing else appears |
| Dashboard.NullDeadlinesAtEnd | web_app/components/opportunity-list.tsx:90-93 | sorting by deadline puts rows without one last when ascending and first when descending |
| Dashboard.OpportunityList.constructor | web_app/components/opportunity-list.tsx:30-43 | the initial state: tab "all", descending by creation, no search, no dates, nothing in progress |
| Dashboard.OpportunityList.ToggleSortOrder | web_app/components/opportunity-list.tsx:140-142 | only the sort order changes, to the other one |
| Dashboard.FlipInvolution | web_app/components/opportunity-list.tsx:140-142 | toggling always changes the order and twice restores it |
| Dashboard.OpportunityList.ClearFilters | web_app/components/opportunity-list.tsx:144-149 | search, dates, sort field and order return to their defaults, the tab stays, and the Clear All button disappears |
| Dashboard.ClearAllIffChanged | web_app/components/opportunity-list.tsx:239-243 | Clear All shows exactly when a control other than the tab differs from its default |
| Dashboard.OpportunityList.HandleApprove | web_app/components/opportunity-list.tsx:105-115 | the row is approved unless the update failed, and its approving flag ends false whatever happened |
| Dashboard.OpportunityList.HandlePostToTelegram | web_app/components/opportunity-list.tsx:117-126 | the table changes as the post specifies, and the posting flag of that id ends false |
| Dashboard.CardMatchesTabs | web_app/components/opportunity-list.tsx:365-425 | Approve shows on pending rows, Post on approved rows, no button on posted rows, and the badges agree with the tabs |
| Dashboard.ButtonBusyWhileRunning | web_app/components/opportunity-list.tsx:392-424 | while its flag is set the card's button is busy (disabled, progress label), and not otherwise |
| Dashboard.FlagIsPerId | web_app/components/opportunity-list.tsx:398-414 | a flag set for one id does not change any other row's card |
| Webhook.NewRow | web_app/app/api/webhook/route.ts:36-44 | the row copies the title, turns each falsy optional field into null and keeps the others, and is unapproved and unposted |
| Webhook.TitleRequired | web_app/app/api/webhook/route.ts:10-12 | a falsy title gives 400 without touching the database |
| Webhook.InsertIff | web_app/app/api/webhook/route.ts:17-46 | an insert is attempted exactly for a JSON body with a title when the table check does not report a missing relation |
| Webhook.InsertedRowShape | web_app/app/api/webhook/route.ts:36-44 | an inserted row has the given title, is neither approved nor posted, and never stores an empty optional field |
| Webhook.StatusIff | web_app/app/api/webhook/route.ts:48-57 | 200 with the inserted row exactly when the insert succeeded; every other outcome is 400 or 500 |
| Cron.Get | web_app/app/api/cron/route.ts:6-57 | the HTTP status is 401 on a secret mismatch, 500 on a query error (both without posting) and 200 otherwise, with the report of posting the candidates in order |
| Cron.PostAll | web_app/app/api/cron/route.ts:33-45 | the outcomes and the table afterwards are those of posting the ids one after the other, failures included |
| Cron.PostFrom | web_app/app/api/cron/route.ts:33-45 | one outcome per candidate, in candidate order, each carrying an error message exactly when it failed |
| Cron.OutcomeOf | web_app/app/api/cron/route.ts:35-41 | an outcome is a success exactly when the post succeeded, and then carries no error |
| Cron.BatchOnlyPosts | web_app/app/api/cron/route.ts:33-45 | for any step that leaves the table alone or marks the posted id, a batch removes no row and changes no id or approval, and a posted row stays posted |
| Cron.PosterOnlyMarks | web_app/app/api/cron/route.ts:33-45 | every step of a run leaves the table alone or marks the rows of the posted id as posted |
| Cron.RunOnlyPosts | web_app/app/api/cron/route.ts:19-45 | a whole cron run removes no row and changes no id or approval, and a posted row stays posted |
| Cron.CountsAddUp | web_app/app/api/cron/route.ts:47-51 | posted plus failed is the number of outcomes |
| Cron.CandidatesShape | web_app/app/api/cron/route.ts:19-25 | exactly min(5, pending) candidates, drawn from the approved and unposted rows, oldest first; no pending row left out is older than a candidate; when at most five rows are pending, all of them are candidates |
| Cron.CandidatesPending | web_app/app/api/cron/route.ts:19-25 | every candidate is an approved, unposted row of the table, and with at most five such rows every one of them is a candidate |
| ScrapeRoute.PostAuthorizedIff | web_app/app/api/scrape/route.ts:10-15 | with the secret set, only the header "Bearer " + secret passes, and a missing header never does |
| ScrapeRoute.UnsetSecretAdmitsUndefined | web_app/app/api/scrape/route.ts:11-13 | with the secret unset, the header "Bearer undefined" passes |
| ScrapeRoute.DefaultTargetDate | web_app/app/api/scrape/route.ts:20 | the default date contains neither 'T' nor '-' and is no longer than the timestamp |
| ScrapeRoute.DefaultDateOfIso | web_app/app/api/scrape/route.ts:20 | for an ISO timestamp YYYY-MM-DDT… the default date is YYYY/MM/DD |
| ScrapeRoute.TargetDate | web_app/app/api/scrape/route.ts:20 | a truthy supplied date is used verbatim, else the default date |
| ScrapeRoute.Command | web_app/app/api/scrape/route.ts:33 | the command is the script invocation followed by the target date |
| ScrapeRoute.PostRunsScript | web_app/app/api/scrape/route.ts:7-65 | the script runs exactly for an authorised JSON request; 200 exactly when it ran and its stderr is empty or mentions "Warning", echoing the date and output |
| ScrapeRoute.Get | web_app/app/api/scrape/route.ts:68-95 | a request is forwarded exactly when the query secret matches |
| ScrapeRoute.ForwardPassesPost | web_app/app/api/scrape/route.ts:75-87 | the forwarded request carries the query's date and always passes POST's bearer check |
| Settings.SettingsMapOf | web_app/app/settings/page.tsx:59-65 | the map's keys are exactly the keys of the rows |
| Settings.BuildSettingsMap | web_app/app/settings/page.tsx:59-65 | the fold over the rows (none for null data) yields the settings map |
| Settings.LastWriteWins | web_app/app/settings/page.tsx:59-65 | each key maps to the value of the last row carrying it |
| Settings.NullDataEmpty | web_app/app/settings/page.tsx:59 | null data gives the empty map |
| Settings.ScheduleOf | web_app/app/settings/page.tsx:78 | the schedule is the stored one when truthy and "0 12 * * *" otherwise |
| Settings.ScheduleShown | web_app/app/settings/page.tsx:59-78 | the schedule shown comes from the last schedule row, unless its value is null or empty |
| Settings.NoScheduleRowDefault | web_app/app/settings/page.tsx:78 | without a schedule row the default is shown |
| Settings.Page | web_app/app/settings/page.tsx:7-116 | a missing table, an exception, a fetch error and a successful fetch each render their own view, the last with the schedule from the rows |
| Setup.TableExistsIff | web_app/app/setup/page.tsx:143-151 | a table exists exactly when the settings page would not call it missing |
| Setup.ButtonDisabledIff | web_app/app/setup/page.tsx:143-153 | the Settings button is disabled exactly when a probe reports a missing relation |
| Setup.InsertDefaults | web_app/app/setup/page.tsx:74-82 | after the insert, both default keys are present in addition to the existing ones |
| Setup.UpsertDefaults | web_app/app/setup/page.tsx:88-91 | after a successful upsert, both default keys are present in addition to the existing ones |
| Setup.InsertDefaultsKeeps | web_app/app/setup/page.tsx:74-82 | `ON CONFLICT DO NOTHING` keeps every existing value, and a missing key gets its default |
| Setup.InsertDefaultsIdempotent | web_app/app/setup/page.tsx:74-82 | inserting the defaults twice is inserting them once |
| Setup.DefaultsAndSchedule | web_app/app/setup/page.tsx:74-91 | the insert never changes the schedule shown, and a successful upsert resets it to "0 12 * * *" |
| Setup.InitFailsIff | web_app/app/setup/page.tsx:11-105 | without exceptions, initialisation fails exactly when the fallback probe finds the opportunities table missing; settings and insert errors still succeed |
| Setup.InitSeedsSettings | web_app/app/setup/page.tsx:73-97 | on success the settings are unchanged, default-inserted or upserted, and a successful insert keeps every existing value |
| Setup.ManualUpsertIff | web_app/app/setup/page.tsx:116-127 | the upsert is attempted exactly when the settings probe does not say "does not exist", whatever the opportunities probe said |
| Setup.ManualFailsOnlyOnThrow | web_app/app/setup/page.tsx:108-137 | the manual action reports failure only for an exception |
| Opportunities.OrNull | web_app/app/api/webhook/route.ts:38-41 | a truthy string is kept and any falsy one becomes null |
| Opportunities.UpdateWhere | web_app/lib/actions.ts:9 | an update by id changes exactly the rows with that id, through the given change |
| Opportunities.Table.Update | web_app/lib/actions.ts:117-120 | the table's rows after `update(...).eq("id", id)` |
| Opportunities.Table.Insert | web_app/app/api/webhook/route.ts:34-46 | an insert appends the row |
| Sorting.SortBy | web_app/components/opportunity-list.tsx:87-100 | the sorted list is ordered by the key and is a permutation of its input |
| Sorting.Filter | web_app/components/opportunity-list.tsx:51-83 | a filter keeps only accepted elements, keeps every accepted element, and adds nothing |
| Sorting.FilterCounts | web_app/components/opportunity-list.tsx:51-83 | a filter keeps every accepted element as many times as it occurs |
| Sorting.FilterThen | web_app/components/opportunity-list.tsx:46-84 | filtering by one predicate and then another is filtering by their conjunction |
| Sorting.Take | web_app/app/api/cron/route.ts:25 | `limit(n)` keeps a prefix of at most n elements |
| Sorting.CountSplit | web_app/app/api/cron/route.ts:49-50 | the counts of a predicate and of its negation add up to the length |
| Text.Utf16PrefixLength | web_app/lib/actions.ts:57 | `substring(0, n)` has at most n UTF-16 units, and exactly n when the string is longer |
| Text.Strip | opportunitydesk_scraper.py:53 | the stripped text is the input with only whitespace removed before and after it, and neither starts nor ends with whitespace |

## Left out

- I/O is not modelled: printing, logging, file and CSV writing, `revalidatePath`, React rendering and toasts. Each only reports what the model already computes.
- Time is not modelled: `time.sleep` backoff and jitter, the 5 to 10 second politeness delay, the cron's one-second pause, and `Date.now`. The sleeps do not change any value, and the current time is a parameter (`yesterdayIso`).
- The random User-Agent is not modelled. It does not affect what is extracted.
- HTML parsing is not modelled. A page is modelled as the structure BeautifulSoup would return for it: paragraphs with their text, first `<strong>` and first `href`; the image figure; the entry-content paragraphs; the articles with their title links. The parser itself is a library the model does not cover.
- The two regular expressions are written out as string functions. The Python regex engine is not modelled.
- Case-insensitive matching and `lower()`/`toLowerCase()` are ASCII-only. Unicode case folding is not modelled.
- Dates are not modelled. The dashboard's date parsing and end-of-day adjustment are parameters (`DateParsing`), and row timestamps are integers. JavaScript's NaN comparison for an unparsable date is not modelled.
- Dashboard.FilterAndSort: states that the result is sorted and a permutation of the filtered rows, not which order rows with equal keys keep. JavaScript's sort is stable; the model's `SortBy` is stable too, but the contract does not say so. The in-place `result.sort` on a copy is modelled on values.
- Cron.CandidatesShape: the database's order for rows with equal `created_at` is unspecified. The model breaks such ties with a stable sort of table order, and the lemma does not state the tie order.
- The Supabase client is modelled only by its answers. `createServerClient` and `supabase-client.ts` are thin wrappers over a library that is not part of this model.
- In the scraper, every request of one run uses the same session. An exhausted network is treated as a request failure.
- A thrown value's message is read as the `Error` case. Only the setup actions distinguish other thrown values, with their fallback messages.
- Actions.RequestCarriesMessage: states where the message goes, not the exact field order of the multipart form.
- Setup.InitSeedsSettings: whether Supabase's fallback `upsert` succeeds is a parameter of the model. Whether it conflicts with existing keys is not modelled.
- In the scrape route, a `date` field that is JSON but not a string is not modelled.
- Webhook.Post: a JSON field that is not a string or null (such as `"title": 5`) is not modelled. The body's fields are optional strings.
- `exec` and the network fetch inside the scrape route are parameters. The child process itself is not modelled.
- `web_app/scripts/update-python-script.js` and the older files under `Web app/` are not part of this model.
