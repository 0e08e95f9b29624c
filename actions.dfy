/**
 * The server actions of the web application: approving an opportunity, and
 * posting one to the Telegram channel (photo with caption when it has a
 * thumbnail, plain message otherwise), with the message format and the way
 * every failure is turned into the message the dashboard shows.
 */
module Actions {
  import opened Wrappers
  import opened Text
  import opened Opportunities
  import Sorting

  /** How a server action ends: it returns `{ success: true }`, or throws an `Error` with a message. */
  datatype Done = Succeeded | Failed(message: string)

  // ---------------------------------------------------------------------------
  // Approval

  /** `approveOpportunity(id)`: the update either fails as a whole or marks the row approved. */
  method Approve(table: Table, id: int, updateError: Option<DbError>) returns (r: Done)
    modifies table
    ensures updateError.Some? ==> r == Failed("Failed to approve opportunity") && table.rows == old(table.rows)
    ensures updateError.None? ==> r == Succeeded && table.rows == UpdateWhere(old(table.rows), id, MarkApproved)
  {
    if updateError.Some? {
      return Failed("Failed to approve opportunity");
    }
    table.Update(id, MarkApproved);
    return Succeeded;
  }

  /** Approving twice leaves the table as approving once. */
  lemma ApproveIdempotent(rows: seq<Opportunity>, id: int)
    ensures UpdateWhere(UpdateWhere(rows, id, MarkApproved), id, MarkApproved) == UpdateWhere(rows, id, MarkApproved)
  {
    var once := UpdateWhere(rows, id, MarkApproved);
    var twice := UpdateWhere(once, id, MarkApproved);
    forall i | 0 <= i < |rows| ensures twice[i] == once[i] {
      assert once[i].id == rows[i].id;
    }
  }

  /** An approved row keeps every other column, and rows with another id are untouched. */
  lemma ApproveOnlyTouchesRow(rows: seq<Opportunity>, id: int, i: nat)
    requires i < |rows|
    ensures var after := UpdateWhere(rows, id, MarkApproved)[i];
      && (rows[i].id == id ==> after == rows[i].(approved := true))
      && (rows[i].id != id ==> after == rows[i])
      && after.posted == rows[i].posted
  {
  }

  // ---------------------------------------------------------------------------
  // The message

  const JoinUs := "\n\n\U{2705} <a href=\"https://t.me/Scholarship_Spot\"><b>Join Us</b></a>"
  const Tags := "\n\n#Opportunities #Scholarships #Grants #Education #Career"
  const CaptionLimit: nat := 1024

  function TitlePart(o: Opportunity): string {
    if o.title != "" then "<b>" + o.title + "</b>" else ""
  }

  function DeadlinePart(o: Opportunity): string {
    if Truthy(o.deadline) then "\n\n<b>Deadline:</b> " + o.deadline.value else ""
  }

  function ApplyPart(o: Opportunity): string {
    if Truthy(o.link) then "\n\n\U{1F4E8} <a href=\"" + o.link.value + "\"><b>Apply Now</b></a>" else ""
  }

  /** What is shown before and after the description: the deadline and the apply link, each when set. */
  function DetailsPart(o: Opportunity): string {
    o.description.GetOr("") + DeadlinePart(o) + ApplyPart(o)
  }

  /** `formatTelegramMessage(opportunity)`. */
  function FormatTelegramMessage(o: Opportunity): string {
    (TitlePart(o) + "\n\n") + DetailsPart(o) + (JoinUs + Tags)
  }

  /** Every message opens with the bold title and a blank line, and closes with the channel link and the hashtags. */
  lemma MessageFrame(o: Opportunity)
    ensures IsPrefix(TitlePart(o) + "\n\n", FormatTelegramMessage(o))
    ensures IsSuffix(JoinUs + Tags, FormatTelegramMessage(o))
  {
    ConcatEnds(TitlePart(o) + "\n\n", DetailsPart(o), JoinUs + Tags);
  }

  /** The deadline and the apply link appear verbatim whenever they are set, and so does a non-empty title. */
  lemma MessageShowsFields(o: Opportunity)
    ensures Truthy(o.deadline) ==> Contains(FormatTelegramMessage(o), "<b>Deadline:</b> " + o.deadline.value)
    ensures Truthy(o.link) ==> Contains(FormatTelegramMessage(o), o.link.value)
    ensures o.title != "" ==> Contains(FormatTelegramMessage(o), o.title)
  {
    if Truthy(o.deadline) {
      var t := "<b>Deadline:</b> " + o.deadline.value;
      DeadlineShown(o, t);
      InDetailsShown(o, t);
    }
    if Truthy(o.link) {
      ApplyShown(o);
      InDetailsShown(o, o.link.value);
    }
    if o.title != "" {
      TitleShown(o);
    }
  }

  lemma DeadlineShown(o: Opportunity, t: string)
    requires Truthy(o.deadline) && t == "<b>Deadline:</b> " + o.deadline.value
    ensures Contains(DetailsPart(o), t)
  {
    ContainsSelf(t);
    assert DeadlinePart(o) == "\n\n" + t;
    ContainsInRight("\n\n", t, t);
    ContainsInRight(o.description.GetOr(""), DeadlinePart(o), t);
    ContainsInLeft(o.description.GetOr("") + DeadlinePart(o), ApplyPart(o), t);
  }

  lemma ApplyShown(o: Opportunity)
    requires Truthy(o.link)
    ensures Contains(DetailsPart(o), o.link.value)
  {
    var t := o.link.value;
    var before := "\n\n\U{1F4E8} <a href=\"";
    var after := "\"><b>Apply Now</b></a>";
    ContainsSelf(t);
    ContainsInLeft(t, after, t);
    ContainsInRight(before, t + after, t);
    assert ApplyPart(o) == before + (t + after);
    ContainsInRight(o.description.GetOr("") + DeadlinePart(o), ApplyPart(o), t);
  }

  /** Whatever the middle part shows, the whole message shows. */
  lemma InDetailsShown(o: Opportunity, t: string)
    requires Contains(DetailsPart(o), t)
    ensures Contains(FormatTelegramMessage(o), t)
  {
    ContainsInRight(TitlePart(o) + "\n\n", DetailsPart(o), t);
    ContainsInLeft(TitlePart(o) + "\n\n" + DetailsPart(o), JoinUs + Tags, t);
  }

  lemma TitleShown(o: Opportunity)
    requires o.title != ""
    ensures Contains(FormatTelegramMessage(o), o.title)
  {
    var t := o.title;
    var opening := TitlePart(o) + "\n\n";
    ContainsSelf(t);
    ContainsInLeft(t, "</b>", t);
    ContainsInRight("<b>", t + "</b>", t);
    assert TitlePart(o) == "<b>" + (t + "</b>");
    ContainsInLeft(TitlePart(o), "\n\n", t);
    ContainsInLeft(opening, DetailsPart(o), t);
    ContainsInLeft(opening + DetailsPart(o), JoinUs + Tags, t);
  }

  /** `caption.substring(0, 1024)` as the form field receives it. */
  function Caption(message: string): string {
    Utf16Prefix(message, CaptionLimit)
  }

  /** The caption never exceeds Telegram's limit, and a message that fits is sent whole. */
  lemma CaptionFits(message: string)
    ensures Utf16Length(Caption(message)) <= CaptionLimit
    ensures Utf16Length(message) <= CaptionLimit ==> Caption(message) == message
    ensures Utf16Length(message) >= CaptionLimit ==> Utf16Length(Caption(message)) == CaptionLimit
  {
    Utf16PrefixLength(message, CaptionLimit);
    if Utf16Length(message) <= CaptionLimit {
      Utf16PrefixWhole(message, CaptionLimit);
    }
  }

  // ---------------------------------------------------------------------------
  // The request to Telegram and its answer

  datatype TelegramCall =
    | SendPhoto(url: string, form: seq<(string, string)>)
    | SendMessage(url: string, chatId: string, text: string, parseMode: string, disableWebPagePreview: bool)

  /** What the Bot API answers: success, a non-OK status with a body, or a `fetch` that throws (with its cause's `code`). */
  datatype TelegramReply = Delivered | Rejected(body: string) | Unreachable(message: string, code: Option<string>)

  function ApiUrl(botToken: string, apiMethod: string): string {
    "https://api.telegram.org/bot" + botToken + "/" + apiMethod
  }

  /** The request `postToTelegram` sends for `o`. */
  function Request(o: Opportunity, botToken: string, channelId: string): TelegramCall {
    var message := FormatTelegramMessage(o);
    if Truthy(o.thumbnail) then
      SendPhoto(ApiUrl(botToken, "sendPhoto"), [
        ("chat_id", channelId),
        ("photo", o.thumbnail.value),
        ("caption", Caption(message)),
        ("parse_mode", "HTML"),
        ("disable_web_page_preview", "false")])
    else
      SendMessage(ApiUrl(botToken, "sendMessage"), channelId, message, "HTML", false)
  }

  /** With a thumbnail the photo is the thumbnail and the caption the cut message; without one the full message is sent as text. */
  lemma RequestCarriesMessage(o: Opportunity, botToken: string, channelId: string)
    ensures var call := Request(o, botToken, channelId);
      && (call.SendPhoto? <==> Truthy(o.thumbnail))
      && IsPrefix("https://api.telegram.org/bot" + botToken + "/", call.url)
      && (call.SendPhoto? ==>
            && ("photo", o.thumbnail.value) in call.form
            && ("chat_id", channelId) in call.form
            && ("caption", Caption(FormatTelegramMessage(o))) in call.form
            && Utf16Length(Caption(FormatTelegramMessage(o))) <= CaptionLimit)
      && (call.SendMessage? ==> call.text == FormatTelegramMessage(o) && call.chatId == channelId)
  {
    var call := Request(o, botToken, channelId);
    var prefix := "https://api.telegram.org/bot" + botToken + "/";
    assert call.url[..|prefix|] == prefix;
    if call.SendPhoto? {
      CaptionFits(FormatTelegramMessage(o));
      assert call.form[2] == ("caption", Caption(FormatTelegramMessage(o)));
    }
  }

  const PhotoInvalidPrefix := "Telegram API error (sendPhoto): " + "Invalid photo URL" + " or format. Details: "
  const PhotoRejectedPrefix := "Telegram API error " + "(sendPhoto, non-JSON response): "
  const MessageRejectedPrefix := "Telegram API error " + "(sendMessage, non-JSON response): "
  const UpdateFailedPrefix := "Successfully posted to Telegram, " + "but failed to update opportunity status: "

  /**
   * The message thrown for a non-OK answer. The JSON branch never surfaces:
   * the error it throws is caught by the `catch` around it, which throws the
   * non-JSON message instead, so a body gives the same message whether or not
   * it parses.
   */
  function RejectionMessage(call: TelegramCall, body: string): string {
    match call
    case SendPhoto(_, _) =>
      if Contains(body, "Wrong type of an object") || Contains(body, "PHOTO_INVALID") then PhotoInvalidPrefix + body
      else PhotoRejectedPrefix + body
    case SendMessage(_, _, _, _, _) => MessageRejectedPrefix + body
  }

  // ---------------------------------------------------------------------------
  // The catch-all of postToTelegram

  const PostFailurePrefix := "Failed to post to Telegram: "
  const ThumbnailPrefix := PostFailurePrefix + "The provided thumbnail URL is invalid or inaccessible. Details: "
  const FetchFailedMessage := "Failed to connect to Telegram API. " + "Please check your network connection and try again. (fetch failed)"
  const ResetMessage := "Connection to Telegram API was reset. " + "This might be a temporary network issue. Please try again. (ECONNRESET)"
  const DnsMessage := "Could not resolve Telegram API hostname. " + "Please check your DNS settings and network connection. (ENOTFOUND/EAI_AGAIN)"

  /** The message of the error rethrown from the `catch`, given what was caught and its cause's `code`. */
  function MapError(message: string, code: Option<string>): string {
    if Contains(message, "fetch failed") then
      if code == Some("ECONNRESET") then ResetMessage
      else if code == Some("ENOTFOUND") || code == Some("EAI_AGAIN") then DnsMessage
      else FetchFailedMessage
    else if Contains(message, "Invalid photo URL") then ThumbnailPrefix + message
    else PostFailurePrefix + message
  }

  /**
   * A connection failure is reported by a fixed message chosen by the cause's
   * code alone; every other failure is reported as a failed post that carries
   * the original message at its end.
   */
  lemma MapErrorShape(message: string, code: Option<string>)
    ensures var r := MapError(message, code);
      && (IsPrefix(PostFailurePrefix, r) <==> !Contains(message, "fetch failed"))
      && (Contains(message, "fetch failed") ==> r in {FetchFailedMessage, ResetMessage, DnsMessage})
      && (!Contains(message, "fetch failed") ==> IsSuffix(message, r))
      && (!Contains(message, "fetch failed") && Contains(message, "Invalid photo URL") ==> IsPrefix(ThumbnailPrefix, r))
    ensures var r := MapError(message, code); Contains(message, "fetch failed") ==>
      && (code == Some("ECONNRESET") ==> r == ResetMessage)
      && (code == Some("ENOTFOUND") || code == Some("EAI_AGAIN") ==> r == DnsMessage)
      && (code !in {Some("ECONNRESET"), Some("ENOTFOUND"), Some("EAI_AGAIN")} ==> r == FetchFailedMessage)
    ensures var r := MapError(message, code); !Contains(message, "fetch failed") ==>
      && (Contains(message, "Invalid photo URL") ==> r == ThumbnailPrefix + message)
      && (!Contains(message, "Invalid photo URL") ==> r == PostFailurePrefix + message)
  {
    var r := MapError(message, code);
    if Contains(message, "fetch failed") {
      assert !IsPrefix(PostFailurePrefix, r) by {
        if r == FetchFailedMessage {
          assert r[10] != PostFailurePrefix[10];
        } else {
          assert r[0] != PostFailurePrefix[0];
        }
      }
    } else if Contains(message, "Invalid photo URL") {
      ConcatEnds(PostFailurePrefix, ThumbnailPrefix[|PostFailurePrefix|..], message);
      ConcatEnds(ThumbnailPrefix, [], message);
    } else {
      ConcatEnds(PostFailurePrefix, [], message);
    }
  }

  // ---------------------------------------------------------------------------
  // postToTelegram

  /** The answers of the outside world to one `postToTelegram`: database errors and configuration. */
  datatype Backend = Backend(
    fetchError: Option<DbError>,
    botToken: Option<string>,
    channelId: Option<string>,
    updateError: Option<DbError>)

  /** Row `i` is the one and only row with that id. */
  ghost predicate OnlyRowWithId(rows: seq<Opportunity>, id: int, i: int) {
    0 <= i < |rows| && rows[i].id == id && forall j :: 0 <= j < |rows| && rows[j].id == id ==> j == i
  }

  /** `select("*").eq("id", id).single()`: the row, when exactly one has that id. */
  function Single(rows: seq<Opportunity>, id: int): (r: Option<Opportunity>)
    ensures r.Some? ==> r.value in rows && r.value.id == id
    ensures r.Some? <==> exists i :: OnlyRowWithId(rows, id, i)
  {
    var isId := (o: Opportunity) => o.id == id;
    var matching := Sorting.Filter(rows, isId);
    Sorting.FilterOne(rows, isId);
    assert forall i :: Sorting.OnlyAt(rows, isId, i) <==> OnlyRowWithId(rows, id, i);
    if |matching| == 1 then
      assert matching[0] in multiset(matching);
      Some(matching[0])
    else None
  }

  /** The result of one post, the request sent (if any), and the table afterwards. */
  datatype PostRun = PostRun(result: Done, call: Option<TelegramCall>, rows: seq<Opportunity>)

  function PostSpec(rows: seq<Opportunity>, id: int, backend: Backend, reply: TelegramReply): PostRun {
    var found := Single(rows, id);
    if backend.fetchError.Some? || found.None? then
      PostRun(Failed("Failed to fetch opportunity"), None, rows)
    else if !Truthy(backend.botToken) || !Truthy(backend.channelId) then
      PostRun(Failed("Telegram bot token or channel ID not configured"), None, rows)
    else
      var call := Request(found.value, backend.botToken.value, backend.channelId.value);
      match reply
      case Unreachable(message, code) => PostRun(Failed(MapError(message, code)), Some(call), rows)
      case Rejected(body) => PostRun(Failed(MapError(RejectionMessage(call, body), None)), Some(call), rows)
      case Delivered =>
        if backend.updateError.Some? then
          PostRun(Failed(MapError(UpdateFailedPrefix + backend.updateError.value.message, None)), Some(call), rows)
        else
          PostRun(Succeeded, Some(call), UpdateWhere(rows, id, MarkPosted))
  }

  /** `postToTelegram(id)` against `table`; `reply` is what the Bot API answers, if asked. */
  method PostToTelegram(table: Table, id: int, backend: Backend, reply: TelegramReply) returns (r: Done, call: Option<TelegramCall>)
    modifies table
    ensures var run := PostSpec(old(table.rows), id, backend, reply);
      r == run.result && call == run.call && table.rows == run.rows
  {
    var opportunity := Single(table.rows, id);
    if backend.fetchError.Some? || opportunity.None? {
      return Failed("Failed to fetch opportunity"), None;
    }
    if !Truthy(backend.botToken) || !Truthy(backend.channelId) {
      return Failed("Telegram bot token or channel ID not configured"), None;
    }
    var request := Request(opportunity.value, backend.botToken.value, backend.channelId.value);
    call := Some(request);
    var thrown: string;
    match reply {
      case Unreachable(message, code) =>
        return Failed(MapError(message, code)), call;
      case Rejected(body) =>
        thrown := RejectionMessage(request, body);
      case Delivered =>
        if backend.updateError.None? {
          table.Update(id, MarkPosted);
          return Succeeded, call;
        }
        thrown := UpdateFailedPrefix + backend.updateError.value.message;
    }
    return Failed(MapError(thrown, None)), call;
  }

  /** A post succeeds exactly when the row is found, the bot is configured, Telegram accepts, and the update goes through. */
  lemma PostSucceedsIff(rows: seq<Opportunity>, id: int, backend: Backend, reply: TelegramReply)
    ensures PostSpec(rows, id, backend, reply).result == Succeeded <==>
      backend.fetchError.None? && Single(rows, id).Some? &&
      Truthy(backend.botToken) && Truthy(backend.channelId) &&
      reply == Delivered && backend.updateError.None?
  {
  }

  /** The table changes only on success, and then only the posted flag of the rows with that id. */
  lemma PostMarksOnlyOnSuccess(rows: seq<Opportunity>, id: int, backend: Backend, reply: TelegramReply)
    ensures var run := PostSpec(rows, id, backend, reply);
      run.rows == if run.result == Succeeded then UpdateWhere(rows, id, MarkPosted) else rows
    ensures var run := PostSpec(rows, id, backend, reply);
      run.result == Succeeded ==> exists i :: 0 <= i < |run.rows| && run.rows[i].id == id && run.rows[i].posted
  {
    var run := PostSpec(rows, id, backend, reply);
    if run.result == Succeeded {
      var o := Single(rows, id).value;
      var i :| 0 <= i < |rows| && rows[i] == o;
      assert run.rows[i] == MarkPosted(rows[i]);
    }
  }

  /** Telegram is contacted exactly when the row is found and the bot is configured. */
  lemma PostCallsTelegramIff(rows: seq<Opportunity>, id: int, backend: Backend, reply: TelegramReply)
    ensures var run := PostSpec(rows, id, backend, reply);
      run.call.Some? <==> backend.fetchError.None? && Single(rows, id).Some? && Truthy(backend.botToken) && Truthy(backend.channelId)
    ensures var run := PostSpec(rows, id, backend, reply);
      run.call.Some? ==> run.call.value == Request(Single(rows, id).value, backend.botToken.value, backend.channelId.value)
  {
  }

  /**
   * A photo Telegram refuses as invalid surfaces as the thumbnail message,
   * unless the refusal itself mentions "fetch failed".
   */
  lemma InvalidPhotoSurfaces(rows: seq<Opportunity>, id: int, backend: Backend, body: string)
    requires backend.fetchError.None? && Single(rows, id).Some?
    requires Truthy(backend.botToken) && Truthy(backend.channelId)
    requires Truthy(Single(rows, id).value.thumbnail)
    requires Contains(body, "PHOTO_INVALID") || Contains(body, "Wrong type of an object")
    requires !Contains(body, "fetch failed")
    ensures PostSpec(rows, id, backend, Rejected(body)).result == Failed(ThumbnailPrefix + PhotoInvalidPrefix + body)
  {
    var call := Request(Single(rows, id).value, backend.botToken.value, backend.channelId.value);
    assert call.SendPhoto?;
    InvalidPhotoMessage(call, body);
  }

  lemma InvalidPhotoMessage(call: TelegramCall, body: string)
    requires call.SendPhoto?
    requires Contains(body, "PHOTO_INVALID") || Contains(body, "Wrong type of an object")
    requires !Contains(body, "fetch failed")
    ensures MapError(RejectionMessage(call, body), None) == ThumbnailPrefix + PhotoInvalidPrefix + body
  {
    assert RejectionMessage(call, body) == PhotoInvalidPrefix + body;
    PhotoInvalidThrown(body);
    MapErrorThumbnail(PhotoInvalidPrefix + body);
    assert ThumbnailPrefix + (PhotoInvalidPrefix + body) == ThumbnailPrefix + PhotoInvalidPrefix + body;
  }

  lemma MapErrorThumbnail(message: string)
    requires !Contains(message, "fetch failed") && Contains(message, "Invalid photo URL")
    ensures MapError(message, None) == ThumbnailPrefix + message
  {
  }

  lemma PhotoInvalidThrown(body: string)
    requires !Contains(body, "fetch failed")
    ensures !Contains(PhotoInvalidPrefix + body, "fetch failed")
    ensures Contains(PhotoInvalidPrefix + body, "Invalid photo URL")
  {
    PhotoInvalidPrefixFacts();
    NotContainsAcross(PhotoInvalidPrefix, body, "fetch failed", 3);
    ContainsInLeft(PhotoInvalidPrefix, body, "Invalid photo URL");
  }

  /** The invalid-photo message names the thumbnail phrase and has no `c` to start "fetch failed" with. */
  lemma PhotoInvalidPrefixFacts()
    ensures 'c' !in PhotoInvalidPrefix && PhotoInvalidPrefix[|PhotoInvalidPrefix| - 1] == ' '
    ensures Contains(PhotoInvalidPrefix, "Invalid photo URL")
  {
    var x, t, y := "Telegram API error (sendPhoto): ", "Invalid photo URL", " or format. Details: ";
    assert PhotoInvalidPrefix == x + t + y;
    assert 'c' !in x && 'c' !in t && 'c' !in y;
    assert y[|y| - 1] == ' ';
    ContainsMiddle(x, t, y);
  }

  /** A refused plain message surfaces with Telegram's body, when the body mentions neither trigger phrase. */
  lemma RejectedMessageSurfaces(rows: seq<Opportunity>, id: int, backend: Backend, body: string)
    requires backend.fetchError.None? && Single(rows, id).Some?
    requires Truthy(backend.botToken) && Truthy(backend.channelId)
    requires !Truthy(Single(rows, id).value.thumbnail)
    requires !Contains(body, "fetch failed") && !Contains(body, "Invalid photo URL")
    ensures PostSpec(rows, id, backend, Rejected(body)).result == Failed(PostFailurePrefix + MessageRejectedPrefix + body)
  {
    var call := Request(Single(rows, id).value, backend.botToken.value, backend.channelId.value);
    assert call.SendMessage?;
    RejectedPrefixClean(body);
  }

  /**
   * A photo Telegram refuses for any other reason surfaces with Telegram's
   * body under the non-JSON wording, whether or not the body is JSON.
   */
  lemma PhotoRejectedSurfaces(rows: seq<Opportunity>, id: int, backend: Backend, body: string)
    requires backend.fetchError.None? && Single(rows, id).Some?
    requires Truthy(backend.botToken) && Truthy(backend.channelId)
    requires Truthy(Single(rows, id).value.thumbnail)
    requires !Contains(body, "PHOTO_INVALID") && !Contains(body, "Wrong type of an object")
    requires !Contains(body, "fetch failed") && !Contains(body, "Invalid photo URL")
    ensures PostSpec(rows, id, backend, Rejected(body)).result == Failed(PostFailurePrefix + PhotoRejectedPrefix + body)
  {
    var call := Request(Single(rows, id).value, backend.botToken.value, backend.channelId.value);
    assert call.SendPhoto?;
    assert RejectionMessage(call, body) == PhotoRejectedPrefix + body;
    PhotoRejectedClean(body);
  }

  /** The photo refusal's wording adds neither trigger phrase to Telegram's body. */
  lemma PhotoRejectedClean(m: string)
    requires !Contains(m, "fetch failed") && !Contains(m, "Invalid photo URL")
    ensures MapError(PhotoRejectedPrefix + m, None) == PostFailurePrefix + PhotoRejectedPrefix + m
  {
    PhotoRejectedPrefixFacts();
    CleanAfterNoF(PhotoRejectedPrefix, m);
  }

  /** As `CleanAfter`, for a prefix that has an `h` but no `f`. */
  lemma CleanAfterNoF(prefix: string, m: string)
    requires 'f' !in prefix && 'v' !in prefix && prefix != [] && prefix[|prefix| - 1] == ' '
    requires !Contains(m, "fetch failed") && !Contains(m, "Invalid photo URL")
    ensures !Contains(prefix + m, "fetch failed") && !Contains(prefix + m, "Invalid photo URL")
  {
    NotContainsAcross(prefix, m, "fetch failed", 0);
    NotContainsAcross(prefix, m, "Invalid photo URL", 2);
  }

  /** "sendPhoto" has an `h`, so this wording is clean for another reason: it has no `f` and no `v`. */
  lemma PhotoRejectedPrefixFacts()
    ensures 'f' !in PhotoRejectedPrefix && 'v' !in PhotoRejectedPrefix
    ensures PhotoRejectedPrefix != [] && PhotoRejectedPrefix[|PhotoRejectedPrefix| - 1] == ' '
  {
    var x, y := "Telegram API error ", "(sendPhoto, non-JSON response): ";
    assert PhotoRejectedPrefix == x + y;
    assert 'f' !in x && 'v' !in x;
    assert 'f' !in y && 'v' !in y;
    assert y[|y| - 1] == ' ';
  }

  /**
   * Neither trigger phrase can appear in `prefix + m` when `m` lacks both and
   * `prefix` lacks an `h` and a `v` and ends with a space.
   */
  lemma CleanAfter(prefix: string, m: string)
    requires CleanPrefix(prefix)
    requires !Contains(m, "fetch failed") && !Contains(m, "Invalid photo URL")
    ensures !Contains(prefix + m, "fetch failed") && !Contains(prefix + m, "Invalid photo URL")
  {
    NotContainsAcross(prefix, m, "fetch failed", 4);
    NotContainsAcross(prefix, m, "Invalid photo URL", 2);
  }

  /** A prefix after which neither trigger phrase can start: no `h`, no `v`, and a final space. */
  predicate CleanPrefix(prefix: string) {
    'h' !in prefix && 'v' !in prefix && prefix != [] && prefix[|prefix| - 1] == ' '
  }

  lemma CleanPrefixConcat(head: string, tail: string)
    requires 'h' !in head && 'v' !in head && CleanPrefix(tail)
    ensures CleanPrefix(head + tail)
  {
    assert (head + tail)[|head + tail| - 1] == tail[|tail| - 1];
  }

  lemma MessageRejectedPrefixClean()
    ensures CleanPrefix(MessageRejectedPrefix)
  {
    CleanPrefixConcat("Telegram API error ", "(sendMessage, non-JSON response): ");
  }

  lemma UpdateFailedPrefixClean()
    ensures CleanPrefix(UpdateFailedPrefix)
  {
    UpdateFailedPieces();
    CleanPrefixConcat("Successfully posted to Telegram, ", "but failed to update opportunity status: ");
  }

  lemma UpdateFailedPieces()
    ensures 'h' !in "Successfully posted to Telegram, " && 'v' !in "Successfully posted to Telegram, "
    ensures CleanPrefix("but failed to update opportunity status: ")
  {
    UpdateFailedHead();
    CleanPrefixConcat("but failed to update ", "opportunity status: ");
  }

  lemma UpdateFailedHead()
    ensures 'h' !in "Successfully posted to Telegram, " && 'v' !in "Successfully posted to Telegram, "
  {
    assert "Successfully posted to Telegram, " == "Successfully " + "posted to Telegram, ";
  }

  /** A refused plain message adds neither trigger phrase to Telegram's body. */
  lemma RejectedPrefixClean(m: string)
    requires !Contains(m, "fetch failed") && !Contains(m, "Invalid photo URL")
    ensures MapError(MessageRejectedPrefix + m, None) == PostFailurePrefix + MessageRejectedPrefix + m
  {
    MessageRejectedPrefixClean();
    CleanAfter(MessageRejectedPrefix, m);
  }

  /** A failed status update adds neither trigger phrase to the database's message. */
  lemma UpdatePrefixClean(m: string)
    requires !Contains(m, "fetch failed") && !Contains(m, "Invalid photo URL")
    ensures MapError(UpdateFailedPrefix + m, None) == PostFailurePrefix + UpdateFailedPrefix + m
  {
    UpdateFailedPrefixClean();
    CleanAfter(UpdateFailedPrefix, m);
  }

  /**
   * A post Telegram accepted but the database did not record is reported as
   * such, and the row stays unposted (so a later run posts it again).
   */
  lemma UpdateFailureSurfaces(rows: seq<Opportunity>, id: int, backend: Backend)
    requires backend.fetchError.None? && Single(rows, id).Some?
    requires Truthy(backend.botToken) && Truthy(backend.channelId)
    requires backend.updateError.Some?
    requires var m := backend.updateError.value.message; !Contains(m, "fetch failed") && !Contains(m, "Invalid photo URL")
    ensures var run := PostSpec(rows, id, backend, Delivered);
      && run.result == Failed(PostFailurePrefix + UpdateFailedPrefix + backend.updateError.value.message)
      && run.rows == rows
      && run.call.Some?
  {
    UpdatePrefixClean(backend.updateError.value.message);
  }
}
