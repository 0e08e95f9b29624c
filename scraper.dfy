/**
 * The opportunitydesk.org scraper: a retrying fetch, the listing loop over the
 * articles of one day, and the field rules applied to each detail page.
 *
 * The network is a `Session` that answers each request with the next outcome
 * of a fixed sequence; the HTML parser is replaced by `Page`, the few parts of
 * a parsed document that the rules read.
 */
module Scraper {
  import opened Wrappers
  import opened Text
  import Opportunities

  const BaseUrl: string := "https://opportunitydesk.org"
  const MaxRetries: nat := 5

  /**
   * One `<p>`: its text (`get_text(strip=True)`), the `href` of its first
   * anchor that has one, and the text of its first `<strong>`.
   */
  datatype Paragraph = Paragraph(text: string, href: Option<string>, strong: Option<string>)

  datatype Image = Image(src: Option<string>)

  /** The first `figure.image-link` and the first `<img>` inside it. */
  datatype Figure = Figure(img: Option<Image>)

  /** The first anchor of an article that has both a string and an `href`. */
  datatype TitleLink = TitleLink(text: string, href: string)

  datatype Article = Article(titleLink: Option<TitleLink>)

  /**
   * A parsed page: every `<p>` in document order, the first `figure.image-link`,
   * the texts of the direct `<p>` children of the first `div.entry-content`,
   * and the `<article>` elements.
   */
  datatype Page = Page(
    paragraphs: seq<Paragraph>,
    figure: Option<Figure>,
    entryContent: Option<seq<string>>,
    articles: seq<Article>)

  // ---------------------------------------------------------------------------
  // Fetching

  /**
   * How the network answers one `session.get`: a 2xx response, a
   * `RequestException` (connection error, timeout, or a status that
   * `raise_for_status` rejects), or any other exception.
   */
  datatype Attempt = Response(page: Page) | RequestFailure | Unexpected

  /** What `safe_get` does: returns a response, returns `None`, or lets an exception out. */
  datatype Fetched = Got(page: Page) | GaveUp | Raised

  /** A network with nothing more to deliver refuses the connection. */
  function NextAttempt(s: seq<Attempt>): Attempt {
    if s == [] then RequestFailure else s[0]
  }

  function Consume(s: seq<Attempt>): seq<Attempt> {
    if s == [] then [] else s[1..]
  }

  /** The answer to the `k`-th request from now. */
  function AttemptAt(s: seq<Attempt>, k: nat): Attempt {
    if k < |s| then s[k] else RequestFailure
  }

  function DropN(s: seq<Attempt>, k: nat): seq<Attempt> {
    if k <= |s| then s[k..] else []
  }

  function Repeat<T>(x: T, n: nat): (r: seq<T>)
    ensures |r| == n && forall i :: 0 <= i < n ==> r[i] == x
  {
    seq(n, _ => x)
  }

  /** The HTTP session: the answers still to come, and the URLs requested so far. */
  class Session {
    var pending: seq<Attempt>
    var requested: seq<string>

    constructor (network: seq<Attempt>)
      ensures pending == network && requested == []
    {
      pending := network;
      requested := [];
    }

    method Get(url: string) returns (a: Attempt)
      modifies this
      ensures a == NextAttempt(old(pending))
      ensures pending == Consume(old(pending))
      ensures requested == old(requested) + [url]
    {
      a := NextAttempt(pending);
      pending := Consume(pending);
      requested := requested + [url];
    }
  }

  /** What a retrying fetch returns, the answers left over, and how many requests it made. */
  datatype FetchStep = FetchStep(result: Fetched, rest: seq<Attempt>, attempts: nat)

  /** `safe_get` with `tries` attempts against the answers `s`. */
  function SafeGetSpec(s: seq<Attempt>, tries: nat): FetchStep
    decreases tries
  {
    if tries == 0 then FetchStep(GaveUp, s, 0)
    else match NextAttempt(s)
      case Response(p) => FetchStep(Got(p), Consume(s), 1)
      case Unexpected => FetchStep(Raised, Consume(s), 1)
      case RequestFailure =>
        var st := SafeGetSpec(Consume(s), tries - 1);
        st.(attempts := st.attempts + 1)
  }

  lemma AttemptAtConsume(s: seq<Attempt>, k: nat)
    ensures AttemptAt(Consume(s), k) == AttemptAt(s, k + 1)
  {
  }

  /**
   * At most `tries` requests, at least one when `tries > 0`; every request but
   * the last failed with a request error; the answers consumed are exactly the
   * requests made.
   */
  lemma {:induction false} SafeGetAttempts(s: seq<Attempt>, tries: nat)
    ensures var st := SafeGetSpec(s, tries);
      && st.attempts <= tries
      && (tries > 0 ==> st.attempts >= 1)
      && (forall j :: 0 <= j < st.attempts - 1 ==> AttemptAt(s, j) == RequestFailure)
      && st.rest == DropN(s, st.attempts)
    decreases tries
  {
    if tries > 0 && NextAttempt(s) == RequestFailure {
      SafeGetAttempts(Consume(s), tries - 1);
      var st := SafeGetSpec(Consume(s), tries - 1);
      forall j | 0 <= j < st.attempts ensures AttemptAt(s, j) == RequestFailure {
        if j > 0 { AttemptAtConsume(s, j - 1); }
      }
    }
  }

  /** The last request decides: a response is returned, any other exception escapes. */
  lemma {:induction false} SafeGetLastAttempt(s: seq<Attempt>, tries: nat)
    ensures var st := SafeGetSpec(s, tries);
      && (st.result.Got? ==> st.attempts >= 1 && AttemptAt(s, st.attempts - 1) == Response(st.result.page))
      && (st.result.Raised? ==> st.attempts >= 1 && AttemptAt(s, st.attempts - 1) == Unexpected)
    decreases tries
  {
    if tries > 0 && NextAttempt(s) == RequestFailure {
      SafeGetLastAttempt(Consume(s), tries - 1);
      var st := SafeGetSpec(Consume(s), tries - 1);
      if st.result.Got? || st.result.Raised? {
        AttemptAtConsume(s, st.attempts - 1);
      }
    }
  }

  /** `None` comes back exactly when every one of the `tries` requests failed, and then all were made. */
  lemma {:induction false} SafeGetGivesUpIffAllFail(s: seq<Attempt>, tries: nat)
    ensures SafeGetSpec(s, tries).result == GaveUp <==>
      forall k :: 0 <= k < tries ==> AttemptAt(s, k) == RequestFailure
    ensures SafeGetSpec(s, tries).result == GaveUp ==> SafeGetSpec(s, tries).attempts == tries
    decreases tries
  {
    if tries > 0 {
      if NextAttempt(s) == RequestFailure {
        SafeGetGivesUpIffAllFail(Consume(s), tries - 1);
        forall k | 0 <= k < tries - 1 ensures AttemptAt(Consume(s), k) == AttemptAt(s, k + 1) {
          AttemptAtConsume(s, k);
        }
        if forall k :: 0 <= k < tries - 1 ==> AttemptAt(Consume(s), k) == RequestFailure {
          forall k | 0 <= k < tries ensures AttemptAt(s, k) == RequestFailure {
            if k > 0 { AttemptAtConsume(s, k - 1); }
          }
        } else {
          var k :| 0 <= k < tries - 1 && AttemptAt(Consume(s), k) != RequestFailure;
          assert AttemptAt(s, k + 1) != RequestFailure;
        }
      } else {
        assert AttemptAt(s, 0) != RequestFailure;
      }
    }
  }

  /** `safe_get(session, url, max_retries)`: up to `maxRetries` requests, stopping at the first response. */
  method SafeGet(session: Session, url: string, maxRetries: nat) returns (r: Fetched)
    modifies session
    ensures var st := SafeGetSpec(old(session.pending), maxRetries);
      && r == st.result
      && session.pending == st.rest
      && session.requested == old(session.requested) + Repeat(url, st.attempts)
  {
    var i := 0;
    while i < maxRetries
      invariant 0 <= i <= maxRetries
      invariant var now := SafeGetSpec(session.pending, maxRetries - i);
        SafeGetSpec(old(session.pending), maxRetries) == now.(attempts := now.attempts + i)
      invariant session.requested == old(session.requested) + Repeat(url, i)
    {
      var a := session.Get(url);
      match a
      case Response(page) =>
        assert Repeat(url, i) + [url] == Repeat(url, i + 1);
        return Got(page);
      case Unexpected =>
        assert Repeat(url, i) + [url] == Repeat(url, i + 1);
        return Raised;
      case RequestFailure =>
        assert Repeat(url, i) + [url] == Repeat(url, i + 1);
      i := i + 1;
    }
    return GaveUp;
  }

  // ---------------------------------------------------------------------------
  // Field rules of a detail page

  /** The value of the last element on which `f` gives one (a loop that keeps overwriting). */
  function Last<T, U>(s: seq<T>, f: T -> Option<U>): Option<U> {
    if s == [] then None
    else if f(s[|s| - 1]).Some? then f(s[|s| - 1])
    else Last(s[..|s| - 1], f)
  }

  /** Position `i` holds a value of `f` and no later position does. */
  ghost predicate LastMatchAt<T, U>(s: seq<T>, f: T -> Option<U>, i: int) {
    0 <= i < |s| && f(s[i]).Some? && forall j :: i < j < |s| ==> f(s[j]).None?
  }

  /** `Last` is the value at the last matching position, and `None` only when nothing matches. */
  lemma LastIsLastMatch<T, U>(s: seq<T>, f: T -> Option<U>)
    ensures Last(s, f).None? <==> forall i :: 0 <= i < |s| ==> f(s[i]).None?
    ensures Last(s, f).Some? ==> exists i :: LastMatchAt(s, f, i) && f(s[i]) == Last(s, f)
  {
    LastNoneIff(s, f);
    if Last(s, f).Some? {
      LastSomeAt(s, f);
    }
  }

  lemma {:induction false} LastNoneIff<T, U>(s: seq<T>, f: T -> Option<U>)
    ensures Last(s, f).None? <==> forall i :: 0 <= i < |s| ==> f(s[i]).None?
  {
    if s != [] && f(s[|s| - 1]).None? {
      var p := s[..|s| - 1];
      LastNoneIff(p, f);
      assert forall i :: 0 <= i < |p| ==> p[i] == s[i];
    }
  }

  lemma {:induction false} LastSomeAt<T, U>(s: seq<T>, f: T -> Option<U>)
    requires Last(s, f).Some?
    ensures exists i :: LastMatchAt(s, f, i) && f(s[i]) == Last(s, f)
  {
    var n := |s| - 1;
    if f(s[n]).Some? {
      assert LastMatchAt(s, f, n);
    } else {
      var p := s[..n];
      LastSomeAt(p, f);
      var i :| LastMatchAt(p, f, i) && f(p[i]) == Last(p, f);
      assert p[i] == s[i];
      assert forall j :: i < j < n ==> p[j] == s[j];
      assert LastMatchAt(s, f, i);
    }
  }

  /** One value that `f` gives decides `Last` when nothing after it matches. */
  lemma {:induction false} LastFromMatch<T, U>(s: seq<T>, f: T -> Option<U>, i: nat)
    requires i < |s| && f(s[i]).Some?
    requires forall j :: i < j < |s| ==> f(s[j]).None?
    ensures Last(s, f) == f(s[i])
  {
    var n := |s| - 1;
    if i < n {
      assert forall j :: i < j < n ==> s[..n][j] == s[j];
      LastFromMatch(s[..n], f, i);
    }
  }

  lemma LastExtend<T, U>(s: seq<T>, f: T -> Option<U>, i: nat)
    requires i < |s|
    ensures Last(s[..i + 1], f) == if f(s[i]).Some? then f(s[i]) else Last(s[..i], f)
  {
    assert s[..i + 1][..i] == s[..i];
  }

  const MoreInfoPhrase: string := "for more information"
  const DeadlineLabel: string := "deadline:"

  /** The link a paragraph offers: its first `href`, if its text mentions the phrase. */
  function MoreInfoLinkOf(p: Paragraph): Option<string> {
    if Contains(Lower(p.text), MoreInfoPhrase) then p.href else None
  }

  /** The deadline a paragraph offers, if its first `<strong>` mentions the label. */
  function DeadlineOf(p: Paragraph): Option<string> {
    if p.strong.Some? && Contains(Lower(p.strong.value), DeadlineLabel) then Some(DeadlineText(p.strong.value))
    else None
  }

  /**
   * `re.search(r"deadline:\s*(.*)", s, re.IGNORECASE).group(1).strip()`: after
   * the first label, skip whitespace, take the rest of that line, strip it.
   */
  function DeadlineText(s: string): (r: string)
    requires Contains(Lower(s), DeadlineLabel)
    ensures '\n' !in r
    ensures r == [] || (!IsSpace(r[0]) && !IsSpace(r[|r| - 1]))
  {
    var i := FirstIndex(Lower(s), DeadlineLabel).value;
    Strip(Before(LStrip(s[i + |DeadlineLabel|..]), '\n'))
  }

  lemma {:induction false} LStripSpaces(w: string, d: string)
    requires forall i :: 0 <= i < |w| ==> IsSpace(w[i])
    requires d == [] || !IsSpace(d[0])
    ensures LStrip(w + d) == d
  {
    if w == [] {
      assert w + d == d;
    } else {
      assert (w + d)[1..] == w[1..] + d;
      LStripSpaces(w[1..], d);
    }
  }

  lemma {:induction false} BeforeAbsent(s: string, c: char)
    requires c !in s
    ensures Before(s, c) == s
  {
    if s != [] {
      BeforeAbsent(s[1..], c);
    }
  }

  /** The part before the first `c` of `d + rest`, where `rest` is empty or opens with `c`. */
  lemma {:induction false} BeforeStopsAt(d: string, rest: string, c: char)
    requires c !in d
    requires rest == [] || rest[0] == c
    ensures Before(d + rest, c) == d
  {
    if d == [] {
      assert d + rest == rest;
    } else {
      assert (d + rest)[1..] == d[1..] + rest;
      BeforeStopsAt(d[1..], rest, c);
    }
  }

  /**
   * The deadline of a strong text whose first label (in any case) starts at
   * `n`: the rest of that line after the label and any whitespace, trimmed,
   * whether the line ends the text or a newline and more text follow it.
   */
  lemma DeadlineTextAfterLabel(s: string, n: nat, w: string, d: string, rest: string)
    requires n + |DeadlineLabel| <= |s| && Lower(s[n..n + |DeadlineLabel|]) == DeadlineLabel
    requires forall j :: 0 <= j < n ==> !IsPrefix(DeadlineLabel, Lower(s)[j..])
    requires s[n + |DeadlineLabel|..] == w + d + rest
    requires forall i :: 0 <= i < |w| ==> IsSpace(w[i])
    requires '\n' !in d
    requires d == [] || (!IsSpace(d[0]) && !IsSpace(d[|d| - 1]))
    requires rest == [] || (d != [] && rest[0] == '\n')
    ensures Contains(Lower(s), DeadlineLabel)
    ensures DeadlineText(s) == d
  {
    LowerSlice(s, n, n + |DeadlineLabel|);
    assert Lower(s)[n..][..|DeadlineLabel|] == Lower(s)[n..n + |DeadlineLabel|];
    assert IsPrefix(DeadlineLabel, Lower(s)[n..]);
    ContainsIffOccurs(Lower(s), DeadlineLabel);
    var i := FirstIndex(Lower(s), DeadlineLabel).value;
    assert i == n;
    LineAfterLabel(w, d, rest);
  }

  /** The line read after a label: leading whitespace, then the date, then nothing or a newline. */
  lemma LineAfterLabel(w: string, d: string, rest: string)
    requires forall i :: 0 <= i < |w| ==> IsSpace(w[i])
    requires '\n' !in d
    requires d == [] || (!IsSpace(d[0]) && !IsSpace(d[|d| - 1]))
    requires rest == [] || (d != [] && rest[0] == '\n')
    ensures Strip(Before(LStrip(w + d + rest), '\n')) == d
  {
    assert w + d + rest == w + (d + rest);
    LStripSpaces(w, d + rest);
    BeforeStopsAt(d, rest, '\n');
    StripClean(d);
  }

  /** A label after other words: "Application Deadline: March 1" gives "March 1". */
  lemma DeadlineAfterWords()
    ensures DeadlineOf(Paragraph("", None, Some("Application Deadline: March 1"))) == Some("March 1")
  {
    var s := "Application Deadline: March 1";
    assert s[12..21] == "Deadline:";
    forall j | 0 <= j < 12 ensures !IsPrefix(DeadlineLabel, Lower(s)[j..]) {
      assert Lower(s)[j..][0] == LowerChar(s[j]) != 'd';
    }
    assert s[21..] == " " + "March 1";
    DeadlineTextAfterLabel(s, 12, " ", "March 1", "");
  }

  function ThumbnailOf(figure: Option<Figure>): Option<string> {
    match figure
    case None => None
    case Some(Figure(None)) => None
    case Some(Figure(Some(img))) => img.src
  }

  predicate StartsWithDeadlineLabel(s: string) {
    |s| >= |DeadlineLabel| && Lower(s[..|DeadlineLabel|]) == DeadlineLabel
  }

  /**
   * `re.sub(r"^deadline:\s*[^.]*\.?\s*", "", s, flags=re.IGNORECASE)`, step by
   * step: the label, whitespace, everything up to a '.', the '.', whitespace.
   */
  function StripDeadlinePrefix(s: string): (r: string)
    ensures IsSuffix(r, s)
    ensures !StartsWithDeadlineLabel(s) ==> r == s
    ensures StartsWithDeadlineLabel(s) && '.' !in s ==> r == []
    ensures StartsWithDeadlineLabel(s) && '.' in s ==> After(s, '.').Some? && r == LStrip(After(s, '.').value)
  {
    if !StartsWithDeadlineLabel(s) then s
    else
      var c := PastDeadlineDot(s);
      SuffixOfSuffix(LStrip(c), c, s);
      LStrip(c)
  }

  /** What the pattern leaves before its final `\s*`: the text after the first '.', or nothing without one. */
  function PastDeadlineDot(s: string): (c: string)
    requires StartsWithDeadlineLabel(s)
    ensures IsSuffix(c, s)
    ensures '.' !in s ==> c == []
    ensures '.' in s ==> After(s, '.') == Some(c)
  {
    var afterLabel := s[|DeadlineLabel|..];
    var a := LStrip(afterLabel);
    var b := a[|Before(a, '.')|..];
    var c := if b != [] then b[1..] else b;
    LabelHasNoDot(s);
    assert s == s[..|DeadlineLabel|] + afterLabel;
    DeadlinePrefixFacts(s, s[..|DeadlineLabel|], afterLabel, a, b, c);
    c
  }

  lemma DeadlinePrefixFacts(s: string, head: string, afterLabel: string, a: string, b: string, c: string)
    requires s == head + afterLabel && '.' !in head
    requires a == LStrip(afterLabel)
    requires b == a[|Before(a, '.')|..]
    requires c == if b != [] then b[1..] else b
    ensures IsSuffix(c, s)
    ensures '.' !in s ==> c == []
    ensures '.' in s ==> After(s, '.') == Some(c)
  {
    FirstDotAfterSpaces(s, head, afterLabel, a, b);
    assert b == [] || b[0] == '.';
    assert After(b, '.') == if b == [] then None else Some(c);
    assert IsSuffix(c, b);
    SuffixOfSuffix(c, b, s);
  }

  /** The text from the first '.' on is a suffix of `s`, and `s` has its first '.' there. */
  lemma FirstDotAfterSpaces(s: string, head: string, afterLabel: string, a: string, b: string)
    requires s == head + afterLabel && '.' !in head
    requires a == LStrip(afterLabel)
    requires b == a[|Before(a, '.')|..]
    ensures After(s, '.') == After(b, '.')
    ensures IsSuffix(b, s)
  {
    AfterSkip(head, afterLabel, '.');
    AfterSkipSpaces(afterLabel, a);
    AfterSkipToFirst(a, b, '.');
    assert IsSuffix(afterLabel, s) by {
      assert s[|s| - |afterLabel|..] == afterLabel;
    }
    SuffixOfSuffix(b, a, afterLabel);
    SuffixOfSuffix(b, afterLabel, s);
  }

  /** Leading whitespace holds no '.'. */
  lemma AfterSkipSpaces(t: string, a: string)
    requires a == LStrip(t)
    ensures After(t, '.') == After(a, '.')
  {
    var skipped := t[..|t| - |a|];
    assert t == skipped + a;
    NoDotInSpaces(skipped);
    AfterSkip(skipped, a, '.');
  }

  /** Dropping the text before the first `c` does not change what follows it. */
  lemma AfterSkipToFirst(a: string, b: string, c: char)
    requires b == a[|Before(a, c)|..]
    ensures After(a, c) == After(b, c)
  {
    assert a == Before(a, c) + b;
    AfterSkip(Before(a, c), b, c);
  }

  lemma LabelHasNoDot(s: string)
    requires StartsWithDeadlineLabel(s)
    ensures '.' !in s[..|DeadlineLabel|]
  {
    var head := s[..|DeadlineLabel|];
    forall k | 0 <= k < |head| ensures head[k] != '.' {
      assert Lower(head)[k] == DeadlineLabel[k];
    }
  }

  /** A prefix without `c` does not change what follows the first `c`. */
  lemma {:induction false} AfterSkip(x: string, y: string, c: char)
    requires c !in x
    ensures After(x + y, c) == After(y, c)
  {
    if x != [] {
      assert (x + y)[1..] == x[1..] + y;
      AfterSkip(x[1..], y, c);
    } else {
      assert x + y == y;
    }
  }

  /** `" ".join(p for p in paragraphs[:2])`. */
  function JoinFirstTwo(ps: seq<string>): string
    requires |ps| > 0
  {
    if |ps| == 1 then ps[0] else ps[0] + " " + ps[1]
  }

  function DescriptionOf(entryContent: Option<seq<string>>): (r: Option<string>)
    ensures r.None? <==> entryContent.None? || entryContent.value == []
    ensures r.Some? ==> r.value == StripDeadlinePrefix(JoinFirstTwo(entryContent.value))
  {
    match entryContent
    case None => None
    case Some(ps) => if ps == [] then None else Some(StripDeadlinePrefix(JoinFirstTwo(ps)))
  }

  /** The four fields `extract_detail_info` returns. */
  datatype Detail = Detail(link: Option<string>, deadline: Option<string>, thumbnail: Option<string>, description: Option<string>)

  datatype DetailResult = Extracted(detail: Detail) | DetailRaised

  /** The fields of a fetched detail page. */
  function DetailFromPage(detailUrl: string, page: Page): Detail {
    var link := Last(page.paragraphs, MoreInfoLinkOf);
    Detail(
      if Opportunities.Truthy(link) then link else Some(detailUrl),
      Last(page.paragraphs, DeadlineOf),
      ThumbnailOf(page.figure),
      DescriptionOf(page.entryContent))
  }

  function DetailOutcome(detailUrl: string, fetched: Fetched): DetailResult {
    match fetched
    case GaveUp => Extracted(Detail(None, None, None, None))
    case Raised => DetailRaised
    case Got(page) => Extracted(DetailFromPage(detailUrl, page))
  }

  /** Without a paragraph that offers a link, the link is the detail page itself. */
  lemma LinkFallback(detailUrl: string, page: Page)
    requires forall i :: 0 <= i < |page.paragraphs| ==> MoreInfoLinkOf(page.paragraphs[i]).None?
    ensures DetailFromPage(detailUrl, page).link == Some(detailUrl)
  {
    LastIsLastMatch(page.paragraphs, MoreInfoLinkOf);
  }

  /** A link other than the detail page comes from the last paragraph that offers one. */
  lemma LinkFromLastOffer(detailUrl: string, page: Page)
    requires DetailFromPage(detailUrl, page).link != Some(detailUrl)
    ensures var ps := page.paragraphs; var link := DetailFromPage(detailUrl, page).link;
      exists i :: 0 <= i < |ps| && Contains(Lower(ps[i].text), MoreInfoPhrase) && ps[i].href == link &&
        link.value != "" &&
        forall j :: i < j < |ps| ==> MoreInfoLinkOf(ps[j]).None?
  {
    LastIsLastMatch(page.paragraphs, MoreInfoLinkOf);
  }

  /**
   * The link is decided by the last paragraph that mentions the phrase and has
   * an `href`: its `href` when that is not empty, the detail URL otherwise.
   */
  lemma LinkOfLastOffer(detailUrl: string, page: Page, i: nat)
    requires LastMatchAt(page.paragraphs, MoreInfoLinkOf, i)
    ensures Contains(Lower(page.paragraphs[i].text), MoreInfoPhrase) && page.paragraphs[i].href.Some?
    ensures DetailFromPage(detailUrl, page).link ==
      if page.paragraphs[i].href.value != "" then page.paragraphs[i].href else Some(detailUrl)
  {
    LastFromMatch(page.paragraphs, MoreInfoLinkOf, i);
  }

  /** The deadline is absent exactly when no first `<strong>` mentions the head. */
  lemma DeadlineAbsentIff(detailUrl: string, page: Page)
    ensures DetailFromPage(detailUrl, page).deadline.None? <==>
      forall i :: 0 <= i < |page.paragraphs| ==>
        page.paragraphs[i].strong.None? || !Contains(Lower(page.paragraphs[i].strong.value), DeadlineLabel)
  {
    LastIsLastMatch(page.paragraphs, DeadlineOf);
    assert forall i :: 0 <= i < |page.paragraphs| ==>
      (DeadlineOf(page.paragraphs[i]).None? <==>
        (page.paragraphs[i].strong.None? || !Contains(Lower(page.paragraphs[i].strong.value), DeadlineLabel)));
  }

  /** When the detail page cannot be fetched, all four fields are absent; the link does not fall back. */
  lemma DetailUnreachable(detailUrl: string, s: seq<Attempt>)
    requires SafeGetSpec(s, MaxRetries).result == GaveUp
    ensures DetailOutcome(detailUrl, SafeGetSpec(s, MaxRetries).result) == Extracted(Detail(None, None, None, None))
  {
  }

  /** The paragraph loop of `extract_detail_info`: each match overwrites the previous one. */
  method ScanParagraphs(ps: seq<Paragraph>) returns (moreInfoLink: Option<string>, deadline: Option<string>)
    ensures moreInfoLink == Last(ps, MoreInfoLinkOf)
    ensures deadline == Last(ps, DeadlineOf)
  {
    moreInfoLink, deadline := ScanLastOfBoth(ps, MoreInfoLinkOf, DeadlineOf);
  }

  /** One pass that keeps, for each of `f` and `g`, the last value it gave. */
  method ScanLastOfBoth<T, U, V>(ps: seq<T>, f: T -> Option<U>, g: T -> Option<V>) returns (a: Option<U>, b: Option<V>)
    ensures a == Last(ps, f) && b == Last(ps, g)
  {
    a := None;
    b := None;
    var i := 0;
    while i < |ps|
      invariant 0 <= i <= |ps|
      invariant a == Last(ps[..i], f)
      invariant b == Last(ps[..i], g)
    {
      var x := f(ps[i]);
      if x.Some? {
        a := x;
      }
      var y := g(ps[i]);
      if y.Some? {
        b := y;
      }
      LastExtend(ps, f, i);
      LastExtend(ps, g, i);
      i := i + 1;
    }
    assert ps[..|ps|] == ps;
  }

  /** `extract_detail_info(session, detail_url)`. */
  method ExtractDetailInfo(session: Session, detailUrl: string) returns (r: DetailResult)
    modifies session
    ensures var st := SafeGetSpec(old(session.pending), MaxRetries);
      && r == DetailOutcome(detailUrl, st.result)
      && session.pending == st.rest
      && session.requested == old(session.requested) + Repeat(detailUrl, st.attempts)
  {
    var fetched := SafeGet(session, detailUrl, MaxRetries);
    match fetched
    case GaveUp =>
      return Extracted(Detail(None, None, None, None));
    case Raised =>
      return DetailRaised;
    case Got(page) =>
      var moreInfoLink, deadline := ScanParagraphs(page.paragraphs);

      var thumbnail: Option<string> := None;
      if page.figure.Some? {
        var img := page.figure.value.img;
        if img.Some? && img.value.src.Some? {
          thumbnail := img.value.src;
        }
      }

      var description: Option<string> := None;
      if page.entryContent.Some? {
        var paragraphs := page.entryContent.value;
        if paragraphs != [] {
          var raw := JoinFirstTwo(paragraphs);
          raw := StripDeadlinePrefix(raw);
          description := Some(raw);
        }
      }

      if !Opportunities.Truthy(moreInfoLink) {
        moreInfoLink := Some(detailUrl);
      }
      return Extracted(Detail(moreInfoLink, deadline, thumbnail, description));
  }

  // ---------------------------------------------------------------------------
  // The listing of one day

  /** One entry of the run's output. */
  datatype Record = Record(
    title: string,
    link: Option<string>,
    deadline: Option<string>,
    thumbnail: Option<string>,
    description: Option<string>)

  /** The records of a run, or the exception that ended it. */
  datatype ListingResult = Records(records: seq<Record>) | ListingRaised

  /** `f"{BASE_URL}/{target_date}/"`. */
  function ListingUrl(targetDate: string): string {
    BaseUrl + "/" + targetDate + "/"
  }

  /** The records produced, the answers left over, the URLs requested. */
  datatype Scan = Scan(records: seq<Record>, rest: seq<Attempt>, requested: seq<string>)

  /** One turn of the listing loop: skip an article without a title link, or one whose extraction raised. */
  function ArticleStep(a: Article, s: seq<Attempt>): Scan {
    match a.titleLink
    case None => Scan([], s, [])
    case Some(link) =>
      var st := SafeGetSpec(s, MaxRetries);
      var asked := Repeat(link.href, st.attempts);
      match DetailOutcome(link.href, st.result)
      case DetailRaised => Scan([], st.rest, asked)
      case Extracted(d) =>
        Scan([Record(link.text, d.link, d.deadline, d.thumbnail, d.description)], st.rest, asked)
  }

  /** The listing loop over `articles`, in order. */
  function ScanArticles(articles: seq<Article>, s: seq<Attempt>): Scan
    decreases |articles|
  {
    if articles == [] then Scan([], s, [])
    else
      var one := ArticleStep(articles[0], s);
      var more := ScanArticles(articles[1..], one.rest);
      Scan(one.records + more.records, more.rest, one.requested + more.requested)
  }

  /** The result of `fetch_opportunities_by_date`, the answers left over, the URLs requested. */
  datatype Run = Run(result: ListingResult, rest: seq<Attempt>, requested: seq<string>)

  function ListingSpec(targetDate: string, s: seq<Attempt>): Run {
    var url := ListingUrl(targetDate);
    var st := SafeGetSpec(s, MaxRetries);
    var asked := Repeat(url, st.attempts);
    match st.result
    case GaveUp => Run(Records([]), st.rest, asked)
    case Raised => Run(ListingRaised, st.rest, asked)
    case Got(page) =>
      var scan := ScanArticles(page.articles, st.rest);
      Run(Records(scan.records), scan.rest, asked + scan.requested)
  }

  /** The run for a listing page that was fetched is the scan of its articles. */
  lemma ListingOfPage(targetDate: string, s: seq<Attempt>, st: FetchStep, scan: Scan, start: seq<string>)
    requires st == SafeGetSpec(s, MaxRetries) && st.result.Got?
    requires scan == ScanArticles(st.result.page.articles, st.rest)
    ensures ListingSpec(targetDate, s) == Run(Records(scan.records), scan.rest, Repeat(ListingUrl(targetDate), st.attempts) + scan.requested)
    ensures start + Repeat(ListingUrl(targetDate), st.attempts) + scan.requested == start + ListingSpec(targetDate, s).requested
  {
  }

  /** The body of the listing loop for one article: `None` when it is skipped. */
  method ProcessArticle(session: Session, article: Article) returns (record: Option<Record>)
    modifies session
    ensures var step := ArticleStep(article, old(session.pending));
      && (if record.Some? then [record.value] else []) == step.records
      && session.pending == step.rest
      && session.requested == old(session.requested) + step.requested
  {
    match article.titleLink
    case None =>
      return None;
    case Some(titleLink) =>
      var title := titleLink.text;
      var detailUrl := titleLink.href;
      var detail := ExtractDetailInfo(session, detailUrl);
      match detail
      case DetailRaised =>
        return None;
      case Extracted(d) =>
        return Some(Record(title, d.link, d.deadline, d.thumbnail, d.description));
  }

  /** `fetch_opportunities_by_date(target_date)` on an existing session. */
  method FetchOpportunitiesByDate(session: Session, targetDate: string) returns (r: ListingResult)
    modifies session
    ensures var run := ListingSpec(targetDate, old(session.pending));
      && r == run.result
      && session.pending == run.rest
      && session.requested == old(session.requested) + run.requested
  {
    var url := ListingUrl(targetDate);
    ghost var st := SafeGetSpec(session.pending, MaxRetries);
    ghost var start := session.requested;
    var pageResponse := SafeGet(session, url, MaxRetries);
    match pageResponse
    case GaveUp =>
      return Records([]);
    case Raised =>
      return ListingRaised;
    case Got(page) =>
      var all := ScanLoop(session, page.articles);
      ghost var scan := ScanArticles(page.articles, st.rest);
      ListingOfPage(targetDate, old(session.pending), st, scan, start);
      return Records(all);
  }

  /** The listing loop seen from its end: the scan of all articles is the scan of all but the last, then the last. */
  lemma ScanArticlesSnoc(articles: seq<Article>, s: seq<Attempt>)
    requires articles != []
    ensures var init := ScanArticles(articles[..|articles| - 1], s);
      var last := ArticleStep(articles[|articles| - 1], init.rest);
      ScanArticles(articles, s) == Scan(init.records + last.records, last.rest, init.requested + last.requested)
  {
    ScanArticlesIsFold(articles, s);
    ScanArticlesIsFold(articles[..|articles| - 1], s);
    FoldSnoc(articles, s, ArticleStep);
  }

  /** The same loop over any step function, so that proofs about its shape need not look inside a step. */
  function Fold(articles: seq<Article>, s: seq<Attempt>, step: (Article, seq<Attempt>) -> Scan): Scan
    decreases |articles|
  {
    if articles == [] then Scan([], s, [])
    else
      var one := step(articles[0], s);
      var more := Fold(articles[1..], one.rest, step);
      Scan(one.records + more.records, more.rest, one.requested + more.requested)
  }

  lemma {:induction false} ScanArticlesIsFold(articles: seq<Article>, s: seq<Attempt>)
    ensures ScanArticles(articles, s) == Fold(articles, s, ArticleStep)
    decreases |articles|
  {
    if articles != [] {
      ScanArticlesIsFold(articles[1..], ArticleStep(articles[0], s).rest);
    }
  }

  lemma {:induction false} FoldSnoc(articles: seq<Article>, s: seq<Attempt>, step: (Article, seq<Attempt>) -> Scan)
    requires articles != []
    ensures var init := Fold(articles[..|articles| - 1], s, step);
      var last := step(articles[|articles| - 1], init.rest);
      Fold(articles, s, step) == Scan(init.records + last.records, last.rest, init.requested + last.requested)
    decreases |articles|
  {
    var n := |articles|;
    if n == 1 {
      assert articles[..0] == [];
      assert articles[1..] == [];
    } else {
      var one := step(articles[0], s);
      var tail := articles[1..];
      FoldSnoc(tail, one.rest, step);
      var mid := Fold(tail[..|tail| - 1], one.rest, step);
      var last := step(articles[n - 1], mid.rest);
      assert articles[..n - 1][0] == articles[0];
      assert articles[..n - 1][1..] == tail[..|tail| - 1];
      assert tail[|tail| - 1] == articles[n - 1];
      assert one.records + (mid.records + last.records) == (one.records + mid.records) + last.records;
      assert one.requested + (mid.requested + last.requested) == (one.requested + mid.requested) + last.requested;
    }
  }

  /** The scan of the first `idx + 1` articles extends the scan of the first `idx` by one step. */
  lemma ScanStep(articles: seq<Article>, idx: nat, s: seq<Attempt>)
    requires idx < |articles|
    ensures var done := ScanArticles(articles[..idx], s);
      var step := ArticleStep(articles[idx], done.rest);
      ScanArticles(articles[..idx + 1], s) == Scan(done.records + step.records, step.rest, done.requested + step.requested)
  {
    assert articles[..idx + 1][..idx] == articles[..idx];
    ScanArticlesSnoc(articles[..idx + 1], s);
  }

  /** The loop over the listing's articles, collecting one record per article that yields one. */
  method ScanLoop(session: Session, articles: seq<Article>) returns (all: seq<Record>)
    modifies session
    ensures var scan := ScanArticles(articles, old(session.pending));
      && all == scan.records
      && session.pending == scan.rest
      && session.requested == old(session.requested) + scan.requested
  {
    ghost var network := session.pending;
    ghost var start := session.requested;
    all := [];
    var idx := 0;
    assert articles[..0] == [];
    while idx < |articles|
      invariant 0 <= idx <= |articles|
      invariant var done := ScanArticles(articles[..idx], network);
        && all == done.records
        && session.pending == done.rest
        && session.requested == start + done.requested
    {
      ghost var done := ScanArticles(articles[..idx], network);
      var record := ProcessArticle(session, articles[idx]);
      if record.Some? {
        all := all + [record.value];
      }
      ScanStep(articles, idx, network);
      idx := idx + 1;
    }
    assert articles[..idx] == articles;
  }

  // ---------------------------------------------------------------------------
  // Properties of a run

  /** A listing page that cannot be fetched gives no records and no detail request. */
  lemma ListingUnreachable(targetDate: string, s: seq<Attempt>)
    requires forall k :: 0 <= k < MaxRetries ==> AttemptAt(s, k) == RequestFailure
    ensures ListingSpec(targetDate, s).result == Records([])
    ensures ListingSpec(targetDate, s).requested == Repeat(ListingUrl(targetDate), MaxRetries)
  {
    SafeGetGivesUpIffAllFail(s, MaxRetries);
  }

  /** Never more records than articles. */
  lemma {:induction false} ScanBound(articles: seq<Article>, s: seq<Attempt>)
    ensures |ScanArticles(articles, s).records| <= |articles|
    decreases |articles|
  {
    if articles != [] {
      ScanBound(articles[1..], ArticleStep(articles[0], s).rest);
    }
  }

  predicate NoUnexpected(s: seq<Attempt>) {
    forall i :: 0 <= i < |s| ==> s[i] != Unexpected
  }

  /** The titles of the articles that have a title link, in article order. */
  function LinkedTitles(articles: seq<Article>): seq<string> {
    if articles == [] then []
    else
      (if articles[0].titleLink.Some? then [articles[0].titleLink.value.text] else []) + LinkedTitles(articles[1..])
  }

  function Titles(records: seq<Record>): seq<string> {
    if records == [] then [] else [records[0].title] + Titles(records[1..])
  }

  lemma {:induction false} TitlesConcat(a: seq<Record>, b: seq<Record>)
    ensures Titles(a + b) == Titles(a) + Titles(b)
  {
    if a != [] {
      assert (a + b)[1..] == a[1..] + b;
      TitlesConcat(a[1..], b);
    } else {
      assert a + b == b;
    }
  }

  /** A network that never raises keeps raising nothing after a fetch. */
  lemma {:induction false} SafeGetNoUnexpected(s: seq<Attempt>, tries: nat)
    requires NoUnexpected(s)
    ensures SafeGetSpec(s, tries).result != Raised
    ensures NoUnexpected(SafeGetSpec(s, tries).rest)
    decreases tries
  {
    if tries > 0 {
      assert s != [] ==> s[0] != Unexpected;
      assert NoUnexpected(Consume(s)) by {
        if s != [] {
          assert forall i :: 0 <= i < |s| - 1 ==> s[1..][i] == s[i + 1];
        }
      }
      SafeGetNoUnexpected(Consume(s), tries - 1);
    }
  }

  /**
   * When no request raises anything but a request error, every article with a
   * title link yields one record, in article order: failed detail pages are
   * kept with absent fields, not dropped.
   */
  lemma {:induction false} ScanKeepsLinkedArticles(articles: seq<Article>, s: seq<Attempt>)
    requires NoUnexpected(s)
    ensures Titles(ScanArticles(articles, s).records) == LinkedTitles(articles)
    decreases |articles|
  {
    if articles != [] {
      var one := ArticleStep(articles[0], s);
      if articles[0].titleLink.Some? {
        SafeGetNoUnexpected(s, MaxRetries);
      }
      ScanKeepsLinkedArticles(articles[1..], one.rest);
      TitlesConcat(one.records, ScanArticles(articles[1..], one.rest).records);
    }
  }
}
