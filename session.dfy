/** The service-level browser session: it starts and stops one browser
    manager, serialises every browser operation under one lock, and offers the
    search, detail, login-check and crawl entry points the server calls, plus
    the listing of saved data files. */
module Session {
  import opened Wrappers
  import opened Text
  import opened Numerals
  import opened Driver
  import Parser
  import Search
  import Note
  import Harvest
  import Errors

  // ---------------------------------------------------------------------------
  // Keywords of saved files
  // ---------------------------------------------------------------------------

  /** The prefix of note-detail files. */
  const NotesPrefix := "notes_"

  /** The position of the last c in s. */
  function LastIndex(s: string, c: char): (r: Option<nat>)
    ensures r.Some? ==> r.value < |s| && s[r.value] == c && c !in s[r.value + 1..]
    ensures r.None? ==> c !in s
    decreases |s|
  {
    if s == [] then None
    else if s[|s| - 1] == c then Some(|s| - 1)
    else
      var r := LastIndex(s[..|s| - 1], c);
      assert s == s[..|s| - 1] + [s[|s| - 1]];
      if r.Some? then assert s[r.value + 1..] == s[..|s| - 1][r.value + 1..] + [s[|s| - 1]]; r
      else r
  }

  /** The stem without its "notes_" prefix. */
  function Unprefixed(stem: string): string {
    if StartsWith(stem, NotesPrefix) then stem[|NotesPrefix|..] else stem
  }

  /** _extract_keyword_from_stem: drops a leading "notes_", then keeps what
      stands before the last two '_'-separated blocks (the date and the time)
      when there are two underscores, and the whole rest otherwise. */
  function ExtractKeywordFromStem(stem: string): string {
    var s := Unprefixed(stem);
    match LastIndex(s, '_')
    case None => s
    case Some(i) =>
      match LastIndex(s[..i], '_')
      case None => s
      case Some(j) => s[..j]
  }

  /** The keyword of a file named keyword_date_time comes back, whatever
      underscores the keyword holds. */
  lemma KeywordOfStem(keyword: string, date: string, time: string)
    requires '_' !in date && '_' !in time
    requires !StartsWith(keyword, NotesPrefix) && keyword != "notes"
    ensures ExtractKeywordFromStem(keyword + "_" + date + "_" + time) == keyword
  {
    var stem := keyword + "_" + date + "_" + time;
    assert !StartsWith(stem, NotesPrefix) by {
      if |NotesPrefix| <= |keyword| {
        assert stem[..|NotesPrefix|] == keyword[..|NotesPrefix|];
      } else {
        assert stem[|keyword|] == '_' && stem[..|keyword|] == keyword;
        if keyword == NotesPrefix[..|keyword|] {
          assert |keyword| != 5;
          assert NotesPrefix[|keyword|] != '_';
        }
      }
    }
    LastTwoBlocks(keyword, date, time);
    KeywordBeforeBlocks(stem, stem, |keyword| + 1 + |date|, |keyword|);
  }

  /** The keyword of a note-detail file notes_keyword_date_time comes back. */
  lemma KeywordOfNotesStem(keyword: string, date: string, time: string)
    requires '_' !in date && '_' !in time
    ensures ExtractKeywordFromStem(NotesPrefix + keyword + "_" + date + "_" + time) == keyword
  {
    var rest := keyword + "_" + date + "_" + time;
    assert NotesPrefix + keyword + "_" + date + "_" + time == NotesPrefix + rest;
    DropPrefix(rest);
    LastTwoBlocks(keyword, date, time);
    KeywordBeforeBlocks(NotesPrefix + rest, rest, |keyword| + 1 + |date|, |keyword|);
  }

  /** Once the two last underscores are known, the keyword is what stands
      before the first of them. */
  lemma KeywordBeforeBlocks(stem: string, s: string, i: nat, j: nat)
    requires Unprefixed(stem) == s && i <= |s|
    requires LastIndex(s, '_') == Some(i) && LastIndex(s[..i], '_') == Some(j)
    ensures ExtractKeywordFromStem(stem) == s[..j]
  {
  }

  /** A leading "notes_" is dropped. */
  lemma DropPrefix(rest: string)
    ensures Unprefixed(NotesPrefix + rest) == rest
  {
    var stem := NotesPrefix + rest;
    assert stem[..|NotesPrefix|] == NotesPrefix;
    assert stem[|NotesPrefix|..] == rest;
  }

  /** Splitting off the last two blocks of keyword_date_time leaves keyword. */
  lemma LastTwoBlocks(keyword: string, date: string, time: string)
    requires '_' !in date && '_' !in time
    ensures var s := keyword + "_" + date + "_" + time;
            var i := |keyword| + 1 + |date|;
            LastIndex(s, '_') == Some(i) && LastIndex(s[..i], '_') == Some(|keyword|) &&
            s[..|keyword|] == keyword
  {
    var s := keyword + "_" + date + "_" + time;
    var i := |keyword| + 1 + |date|;
    assert s[i] == '_' && s[i + 1..] == time;
    LastIsAt(s, '_', i);
    var front := s[..i];
    assert front == keyword + "_" + date;
    assert front[|keyword|] == '_' && front[|keyword| + 1..] == date;
    LastIsAt(front, '_', |keyword|);
  }

  /** When c stands at i and not after it, i is its last position. */
  lemma {:induction false} LastIsAt(s: string, c: char, i: nat)
    requires i < |s| && s[i] == c && c !in s[i + 1..]
    ensures LastIndex(s, c) == Some(i)
    decreases |s|
  {
    if i < |s| - 1 {
      assert s[|s| - 1] in s[i + 1..];
      var front := s[..|s| - 1];
      assert front[i + 1..] == s[i + 1..|s| - 1];
      LastIsAt(front, c, i);
    }
  }

  /** With fewer than two underscores after the prefix, the keyword is the
      whole unprefixed stem. */
  lemma KeywordWithoutTimestamp(stem: string)
    requires multiset(Unprefixed(stem))['_'] < 2
    ensures ExtractKeywordFromStem(stem) == Unprefixed(stem)
  {
    var s := Unprefixed(stem);
    var last := LastIndex(s, '_');
    if last.Some? {
      var i := last.value;
      var inner := LastIndex(s[..i], '_');
      if inner.Some? {
        TwoOccurrences(s, '_', inner.value, i);
        assert false;
      }
    }
  }

  /** Two positions holding c make c occur at least twice. */
  lemma TwoOccurrences(s: string, c: char, j: nat, i: nat)
    requires j < i < |s| && s[j] == c && s[i] == c
    ensures multiset(s)[c] >= 2
  {
    assert s == s[..i] + s[i..];
    assert s[..i][j] == c && s[i..][0] == c;
    assert c in multiset(s[..i]) && c in multiset(s[i..]);
  }

  // ---------------------------------------------------------------------------
  // What the session's entry points answer
  // ---------------------------------------------------------------------------

  /** The detail fetch's failure message. */
  const FetchFailedMessage := "笔记采集失败，URL 无效或页面无法加载"
  const LoggedInMessage := "已登录，可正常使用采集功能。"
  const LoginNeededMessage := "未登录。请先在终端运行 `uv run python " + Errors.VerifyLoginScript + "` 完成登录，然后重启 MCP 服务。"

  /** The upper bound on the notes one crawl fetches. */
  const MaxNotesLimit := 20

  /** search_notes' answer: the keyword, the count and the records, or the
      not-running error (whose results list is empty). */
  datatype SearchOutcome =
    | Listing(keyword: string, count: nat, results: seq<Parser.SummaryRecord>)
    | SearchRefused(message: string)

  /** get_note_detail's answer: the detail with its comments, or an error. */
  datatype DetailOutcome = Detail(detail: NoteDetail) | DetailRefused(message: string)

  datatype LoginStatus = LoginStatus(loggedIn: bool, browserRunning: bool, message: string)

  /** crawl_keyword's answer: the counts and the summary line, or an error. */
  datatype CrawlOutcome =
    | Crawled(keyword: string, searchCount: nat, detailCount: nat, totalComments: nat, summary: string)
    | CrawlRefused(message: string)

  /** A call into a collaborator, and whether the session lock was held. */
  datatype Call =
    | SearchCall(keyword: string, maxCount: int, held: bool)
    | DetailCall(noteUrl: string, maxComments: int, held: bool)
    | LoginProbe(held: bool)
    | BatchCall(items: nat, maxComments: int, held: bool)
    | SaveCall(keyword: string, searched: nat, detailed: nat, held: bool)

  /** The search entry point on a tab new_page answered with. */
  function ListingOf(keyword: string, maxCount: int, tab: Reply<Page>): Reply<SearchOutcome> {
    match tab
    case Raised(f) => Raised(f)
    case Returned(p) =>
      var rs := Search.SearchResult(p, maxCount);
      Returned(Listing(keyword, |rs|, rs))
  }

  /** The listing counts its records, holds no more than asked for, and holds
      exactly the successful parses of the cards it kept. */
  lemma ListingFacts(keyword: string, maxCount: int, p: Page, x: Parser.SummaryRecord)
    ensures var r := ListingOf(keyword, maxCount, Returned(p));
            r.Returned? && r.value.Listing? && r.value.keyword == keyword &&
            r.value.count == |r.value.results| &&
            (maxCount >= 0 ==> r.value.count <= maxCount)
    ensures Search.Scrolls(p) && p.fault == Ok ==>
              (x in ListingOf(keyword, maxCount, Returned(p)).value.results <==>
               exists i :: 0 <= i < Harvest.SliceEnd(|p.cards|, maxCount) && Parser.CardRecord(p.cards[i]) == Some(x))
  {
    if Search.Scrolls(p) && p.fault == Ok {
      Search.SearchResultMembers(p, maxCount, x);
    }
  }

  /** The detail entry point: an error record for a URL without a note id or
      a fetch that gives no detail, the detail otherwise; an exception of
      new_page propagates. */
  function DetailOf(noteUrl: string, maxComments: int, tabs: nat -> Reply<Page>, start: nat): Reply<DetailOutcome> {
    if Note.ExtractNoteId(noteUrl).None? then Returned(DetailRefused(FetchFailedMessage))
    else match Note.Retrying(tabs, start, 0, maxComments).result
      case Raised(f) => Raised(f)
      case Returned(None) => Returned(DetailRefused(FetchFailedMessage))
      case Returned(Some(d)) => Returned(Detail(d))
  }

  /** A fetch without a detail becomes the failure record, and every detail
      returned is one the fetch produced. */
  lemma DetailFacts(noteUrl: string, maxComments: int, tabs: nat -> Reply<Page>, start: nat)
    ensures var r := DetailOf(noteUrl, maxComments, tabs, start);
            (Note.ExtractNoteId(noteUrl).None? ==> r == Returned(DetailRefused(FetchFailedMessage))) &&
            (r.Returned? && r.value.DetailRefused? ==> r.value.message == FetchFailedMessage) &&
            (r.Returned? && r.value.Detail? ==>
               Note.Retrying(tabs, start, 0, maxComments).result == Returned(Some(r.value.detail))) &&
            (r.Raised? ==> Note.Retrying(tabs, start, 0, maxComments).result == Raised(r.failure))
  {
  }

  /** The login check on a tab: the probe's answer and its message, or the
      exception of new_page or of the probe. */
  function LoginOf(tab: Reply<Page>): Reply<LoginStatus> {
    match tab
    case Raised(f) => Raised(f)
    case Returned(p) =>
      match p.loggedIn
      case Raised(f) => Raised(f)
      case Returned(b) => Returned(LoginStatus(b, true, if b then LoggedInMessage else LoginNeededMessage))
  }

  /** A session that is not logged in tells the user which script to run. */
  lemma LoginAdvice(tab: Reply<Page>)
    ensures var r := LoginOf(tab);
            r.Returned? ==> (r.value.browserRunning &&
              (!r.value.loggedIn <==> Contains(r.value.message, Errors.VerifyLoginScript)))
  {
    LoginMessages();
  }

  /** Only the not-logged-in message names the login script. */
  lemma LoginMessages()
    ensures Contains(LoginNeededMessage, Errors.VerifyLoginScript)
    ensures !Contains(LoggedInMessage, Errors.VerifyLoginScript)
  {
    ContainsInside("未登录。请先在终端运行 `uv run python ", Errors.VerifyLoginScript, "` 完成登录，然后重启 MCP 服务。");
    assert |LoggedInMessage| < |Errors.VerifyLoginScript|;
    assert Find(LoggedInMessage, Errors.VerifyLoginScript).None?;
  }

  /** The number of comments over all the details. */
  function TotalComments(details: seq<NoteDetail>): nat
    decreases |details|
  {
    if details == [] then 0
    else TotalComments(details[..|details| - 1]) + |details[|details| - 1].comments|
  }

  /** The total over two lists is the sum of their totals. */
  lemma {:induction false} TotalCommentsAppend(a: seq<NoteDetail>, b: seq<NoteDetail>)
    ensures TotalComments(a + b) == TotalComments(a) + TotalComments(b)
    decreases |b|
  {
    if b != [] {
      assert (a + b)[..|a + b| - 1] == a + b[..|b| - 1];
      TotalCommentsAppend(a, b[..|b| - 1]);
    } else {
      assert a + b == a;
    }
  }

  /** The human-readable summary of a crawl. */
  function Summary(keyword: string, searched: nat, detailed: nat, comments: nat): string {
    "关键词 [" + keyword + "] 采集完成：" +
    "搜索 " + NatToString(searched) + " 条，" +
    "详情 " + NatToString(detailed) + " 条，" +
    "评论 " + NatToString(comments) + " 条"
  }

  /** The summary names the keyword. */
  lemma SummaryNamesKeyword(keyword: string, searched: nat, detailed: nat, comments: nat)
    ensures Contains(Summary(keyword, searched, detailed, comments), keyword)
  {
    var rest := "] 采集完成：" + "搜索 " + NatToString(searched) + " 条，" + "详情 " + NatToString(detailed) + " 条，" +
                "评论 " + NatToString(comments) + " 条";
    ContainsInside("关键词 [", keyword, rest);
    assert Summary(keyword, searched, detailed, comments) == "关键词 [" + keyword + rest;
  }

  /** The crawl's answer for the records the search gave and the details the
      batch gave. */
  function Crawl(keyword: string, results: seq<Parser.SummaryRecord>, details: seq<NoteDetail>): CrawlOutcome {
    var total := TotalComments(details);
    Crawled(keyword, |results|, |details|, total, Summary(keyword, |results|, |details|, total))
  }

  /** The items fetch_note_details reads off the search records. */
  function Items(results: seq<Parser.SummaryRecord>): (items: seq<Note.Item>)
    ensures |items| == |results|
    ensures forall k :: 0 <= k < |results| ==>
              items[k].noteId == results[k].noteId && items[k].noteUrl == results[k].noteUrl
  {
    seq(|results|, k requires 0 <= k < |results| => Note.Item(results[k].noteId, results[k].noteUrl))
  }

  /** How a crawl ends and the collaborator calls it makes, for the tabs
      new_page hands out from start on. */
  datatype CrawlRun = CrawlRun(result: Reply<CrawlOutcome>, calls: seq<Call>)

  function Min(a: int, b: int): int {
    if a < b then a else b
  }

  /** The crawl run when `held` says whether the lock is held while it runs. */
  function CrawlOf(keyword: string, maxNotes: int, maxComments: int, tabs: nat -> Reply<Page>, start: nat, held: bool): CrawlRun {
    var clamped := Min(maxNotes, MaxNotesLimit);
    var search := SearchCall(keyword, clamped, held);
    match tabs(start)
    case Raised(f) => CrawlRun(Raised(f), [search])
    case Returned(p) =>
      var rest := AfterSearch(keyword, Search.SearchResult(p, clamped), maxComments, tabs, start + 1, held);
      CrawlRun(rest.result, [search] + rest.calls)
  }

  /** The part of a crawl after the search found results: the detail batch,
      skipped when there are none, then the save. */
  function AfterSearch(keyword: string, results: seq<Parser.SummaryRecord>, maxComments: int,
                       tabs: nat -> Reply<Page>, next: nat, held: bool): CrawlRun {
    var batch := if results == [] then [] else [BatchCall(|results|, maxComments, held)];
    match DetailsOf(results, maxComments, tabs, next)
    case Raised(f) => CrawlRun(Raised(f), batch)
    case Returned(ds) =>
      CrawlRun(Returned(Crawl(keyword, results, ds)), batch + [SaveCall(keyword, |results|, |ds|, held)])
  }

  /** The details a crawl fetches for the records its search found. */
  function DetailsOf(results: seq<Parser.SummaryRecord>, maxComments: int, tabs: nat -> Reply<Page>, next: nat): Reply<seq<NoteDetail>> {
    if results == [] then Returned([])
    else Note.BatchFrom(Note.Fetches(tabs, maxComments), next, Items(results), 0).result
  }

  /** The detail batch of a crawl: nothing to do without results, and
      fetch_note_details on their items otherwise. */
  method DetailsFor(browser: Browser, results: seq<Parser.SummaryRecord>, maxComments: int) returns (r: Reply<seq<NoteDetail>>)
    requires browser.Settled()
    modifies browser
    ensures r == DetailsOf(results, maxComments, browser.tabs, old(browser.requested))
    ensures browser.openPages == old(browser.openPages)
    ensures results == [] ==> browser.requested == old(browser.requested)
    ensures results != [] ==>
              browser.requested >= old(browser.requested) &&
              Note.Batch(r, browser.requested - old(browser.requested)) ==
              Note.BatchFrom(Note.Fetches(browser.tabs, maxComments), old(browser.requested), Items(results), 0)
  {
    if results == [] {
      return Returned([]);
    }
    var batch, fetched, delayed := Note.FetchNoteDetails(browser, Items(results), maxComments);
    r := batch;
  }

  /** The body of crawl_keyword once the lock is held: the search, then
      the rest of the crawl on its records. `log` is the collaborator calls
      it makes. */
  method CrawlWith(browser: Browser, keyword: string, maxNotes: int, maxComments: int, ghost held: bool)
    returns (r: Reply<CrawlOutcome>, ghost log: seq<Call>)
    requires browser.Settled()
    modifies browser
    ensures CrawlRun(r, log) == CrawlOf(keyword, maxNotes, maxComments, browser.tabs, old(browser.requested), held)
    ensures browser.openPages == old(browser.openPages)
  {
    var clamped := Min(maxNotes, MaxNotesLimit);
    var found, scrolls := Search.SearchNotes(browser, clamped);
    if found.Raised? {
      return Raised(found.failure), [SearchCall(keyword, clamped, held)];
    }
    ghost var rest;
    r, rest := FinishCrawl(browser, keyword, found.value, maxComments, held);
    log := [SearchCall(keyword, clamped, held)] + rest;
  }

  /** The crawl after a search that found `results`: the detail batch when
      there is something to fetch, the save, and the counts. */
  method FinishCrawl(browser: Browser, keyword: string, results: seq<Parser.SummaryRecord>, maxComments: int, ghost held: bool)
    returns (r: Reply<CrawlOutcome>, ghost log: seq<Call>)
    requires browser.Settled()
    modifies browser
    ensures CrawlRun(r, log) == AfterSearch(keyword, results, maxComments, browser.tabs, old(browser.requested), held)
    ensures browser.openPages == old(browser.openPages)
  {
    log := if results == [] then [] else [BatchCall(|results|, maxComments, held)];
    var fetched := DetailsFor(browser, results, maxComments);
    if fetched.Raised? {
      return Raised(fetched.failure), log;
    }
    var details := fetched.value;
    log := log + [SaveCall(keyword, |results|, |details|, held)];
    r := Returned(Crawl(keyword, results, details));
  }

  /** A batch gives at most one detail per item. */
  lemma {:induction false} BatchAtMostOnePerItem(fetch: nat -> Note.Fetch, next: nat, items: seq<Note.Item>, i: nat)
    requires i <= |items|
    ensures Note.BatchFrom(fetch, next, items, i).result.Returned? ==>
              |Note.BatchFrom(fetch, next, items, i).result.value| <= |items| - i
    decreases |items| - i
  {
    if i < |items| {
      if !Note.Wanted(items[i]) {
        BatchAtMostOnePerItem(fetch, next, items, i + 1);
      } else {
        var f := fetch(next);
        if f.result.Returned? {
          BatchAtMostOnePerItem(fetch, next + f.attempts, items, i + 1);
        }
      }
    }
  }

  /** A crawl searches with at most 20 notes, fetches no more details than
      the search found, skips the detail batch when the search finds nothing,
      and reports the summary of its counts; every collaborator call it makes
      carries the lock state it runs under. */
  lemma CrawlFacts(keyword: string, maxNotes: int, maxComments: int, tabs: nat -> Reply<Page>, start: nat, held: bool)
    ensures var run := CrawlOf(keyword, maxNotes, maxComments, tabs, start, held);
            |run.calls| >= 1 && run.calls[0] == SearchCall(keyword, Min(maxNotes, MaxNotesLimit), held) &&
            (forall k :: 0 <= k < |run.calls| ==> run.calls[k].held == held) &&
            (run.result.Returned? ==>
               run.result.value.Crawled? &&
               run.result.value.detailCount <= run.result.value.searchCount &&
               (maxNotes >= 0 ==> run.result.value.searchCount <= MaxNotesLimit) &&
               (run.result.value.searchCount == 0 <==> |run.calls| == 2) &&
               run.calls[|run.calls| - 1] ==
                 SaveCall(keyword, run.result.value.searchCount, run.result.value.detailCount, held))
  {
    var clamped := Min(maxNotes, MaxNotesLimit);
    if tabs(start).Returned? {
      var results := Search.SearchResult(tabs(start).value, clamped);
      if results != [] {
        BatchAtMostOnePerItem(Note.Fetches(tabs, maxComments), start + 1, Items(results), 0);
      }
    }
  }

  // ---------------------------------------------------------------------------
  // Saved data files
  // ---------------------------------------------------------------------------

  /** A directory entry: its name, whether it is a regular file, and what
      stat reports (creation time already rendered, size in bytes). */
  datatype Entry = Entry(name: string, isFile: bool, createdAt: string, size: nat)

  /** One listed file. */
  datatype SavedFile = SavedFile(path: string, keyword: string, createdAt: string, sizeBytes: nat)

  /** The two data subdirectories, in the order they are listed. */
  const Subdirs: seq<string> := ["raw", "processed"]

  /** The suffix of a file name: from its last dot on, when that dot is
      neither the first nor the last character. */
  function Suffix(name: string): string {
    match LastIndex(name, '.')
    case Some(i) => if 0 < i < |name| - 1 then name[i..] else ""
    case None => ""
  }

  /** The name without its suffix. */
  function Stem(name: string): string {
    match LastIndex(name, '.')
    case Some(i) => if 0 < i < |name| - 1 then name[..i] else name
    case None => name
  }

  /** Stem and suffix make up the name. */
  lemma StemSuffix(name: string)
    ensures Stem(name) + Suffix(name) == name
  {
    match LastIndex(name, '.') {
      case Some(i) =>
        if 0 < i < |name| - 1 {
          assert name[..i] + name[i..] == name;
        }
      case None =>
    }
  }

  /** A filter keyword matches when it is absent or empty, or when it occurs
      in the file's keyword, letter case aside. */
  predicate KeywordMatches(keyword: Option<string>, extracted: string) {
    keyword.None? || keyword.value == [] || Contains(Lower(extracted), Lower(keyword.value))
  }

  /** The files get_saved_data lists: regular files with a .json or .xlsx
      suffix whose extracted keyword matches the filter. */
  predicate Listed(keyword: Option<string>, e: Entry) {
    e.isFile && (Suffix(e.name) == ".json" || Suffix(e.name) == ".xlsx") &&
    KeywordMatches(keyword, ExtractKeywordFromStem(Stem(e.name)))
  }

  function Record(dataDir: string, subdir: string, e: Entry): SavedFile {
    SavedFile(dataDir + "/" + subdir + "/" + e.name, ExtractKeywordFromStem(Stem(e.name)), e.createdAt, e.size)
  }

  /** The images under make of the elements keep selects, in order. */
  function Picked<T, U>(s: seq<T>, keep: T -> bool, make: T -> U): seq<U>
    decreases |s|
  {
    if s == [] then []
    else Picked(s[..|s| - 1], keep, make) + (if keep(s[|s| - 1]) then [make(s[|s| - 1])] else [])
  }

  /** u is picked exactly when it is the image of a selected element. */
  lemma {:induction false} PickedMembers<T, U>(s: seq<T>, keep: T -> bool, make: T -> U, u: U)
    ensures u in Picked(s, keep, make) <==> exists k :: 0 <= k < |s| && keep(s[k]) && make(s[k]) == u
    decreases |s|
  {
    if s != [] {
      var n := |s| - 1;
      var front := s[..n];
      PickedMembers(front, keep, make, u);
      if u in Picked(front, keep, make) {
        var k :| 0 <= k < |front| && keep(front[k]) && make(front[k]) == u;
        assert s[k] == front[k];
      }
      if exists k :: 0 <= k < |s| && keep(s[k]) && make(s[k]) == u {
        var k :| 0 <= k < |s| && keep(s[k]) && make(s[k]) == u;
        if k < n {
          assert front[k] == s[k];
        }
      }
    }
  }

  /** The records of the listed entries, in entry order. */
  function FilesIn(keyword: Option<string>, dataDir: string, subdir: string, entries: seq<Entry>): seq<SavedFile> {
    Picked(entries, e => Listed(keyword, e), e => Record(dataDir, subdir, e))
  }

  /** The records under the given subdirectories, a missing one giving none. */
  function FilesUnder(keyword: Option<string>, dataDir: string, listing: map<string, seq<Entry>>, subdirs: seq<string>): seq<SavedFile>
    decreases |subdirs|
  {
    if subdirs == [] then []
    else
      var d := subdirs[|subdirs| - 1];
      FilesUnder(keyword, dataDir, listing, subdirs[..|subdirs| - 1]) +
      (if d in listing then FilesIn(keyword, dataDir, d, listing[d]) else [])
  }

  /** Entry k of entries is listed and gives the record f. */
  predicate ListedAt(keyword: Option<string>, dataDir: string, subdir: string, entries: seq<Entry>, k: int, f: SavedFile) {
    0 <= k < |entries| && Listed(keyword, entries[k]) && f == Record(dataDir, subdir, entries[k])
  }

  /** A record is listed exactly when it comes from a listed entry. */
  lemma FilesInMembers(keyword: Option<string>, dataDir: string, subdir: string, entries: seq<Entry>, f: SavedFile)
    ensures f in FilesIn(keyword, dataDir, subdir, entries) <==>
              exists k :: ListedAt(keyword, dataDir, subdir, entries, k, f)
  {
    var keep := e => Listed(keyword, e);
    var make := e => Record(dataDir, subdir, e);
    assert FilesIn(keyword, dataDir, subdir, entries) == Picked(entries, keep, make);
    PickedMembers(entries, keep, make, f);
    if exists k :: 0 <= k < |entries| && keep(entries[k]) && make(entries[k]) == f {
      var k :| 0 <= k < |entries| && keep(entries[k]) && make(entries[k]) == f;
      assert ListedAt(keyword, dataDir, subdir, entries, k, f);
    }
    if exists k :: ListedAt(keyword, dataDir, subdir, entries, k, f) {
      var k :| ListedAt(keyword, dataDir, subdir, entries, k, f);
      assert keep(entries[k]) && make(entries[k]) == f;
    }
  }

  /** One more entry adds its record when it is listed. */
  lemma FilesInNext(keyword: Option<string>, dataDir: string, subdir: string, entries: seq<Entry>, k: nat)
    requires k < |entries|
    ensures FilesIn(keyword, dataDir, subdir, entries[..k + 1]) ==
            FilesIn(keyword, dataDir, subdir, entries[..k]) +
            (if Listed(keyword, entries[k]) then [Record(dataDir, subdir, entries[k])] else [])
  {
    assert entries[..k + 1][..k] == entries[..k];
  }

  /** One more subdirectory adds its records when it exists. */
  lemma FilesUnderNext(keyword: Option<string>, dataDir: string, listing: map<string, seq<Entry>>, s: nat)
    requires s < |Subdirs|
    ensures FilesUnder(keyword, dataDir, listing, Subdirs[..s + 1]) ==
            FilesUnder(keyword, dataDir, listing, Subdirs[..s]) +
            (if Subdirs[s] in listing then FilesIn(keyword, dataDir, Subdirs[s], listing[Subdirs[s]]) else [])
  {
    assert Subdirs[..s + 1][..s] == Subdirs[..s];
  }

  /** The session: whether it runs, the browser manager and the exit stack
      that owns it, the lock as a ghost flag, and ghost counters and a call
      log for what it did. */
  datatype ExitStack = ExitStack(manager: Browser)

  class CrawlerSession {
    const headless: bool
    var running: bool
    var bm: Option<Browser>
    var exitStack: Option<ExitStack>
    /** Whether the session lock is held. */
    ghost var locked: bool
    /** How many times the lock was acquired. */
    ghost var acquisitions: nat
    /** How many browser managers were entered. */
    ghost var launches: nat
    /** How many times an exit stack was closed. */
    ghost var stackCloses: nat
    /** The collaborator calls made so far. */
    ghost var calls: seq<Call>

    /** The manager and the exit stack are set together, and exactly while
        the session runs; the lock is free between calls, and every
        collaborator call so far was made under it. */
    ghost predicate Valid()
      reads this
    {
      (running <==> bm.Some?) && (bm.Some? <==> exitStack.Some?) &&
      (exitStack.Some? ==> exitStack.value.manager == bm.value) &&
      (bm.Some? ==> bm.value.Settled()) &&
      !locked && forall k :: 0 <= k < |calls| ==> calls[k].held
    }

    /** The objects the browser operations change. */
    function Manager(): set<object>
      reads this
    {
      if bm.Some? then {bm.value} else {}
    }

    constructor (headless: bool)
      ensures Valid()
      ensures this.headless == headless && !running && bm.None? && exitStack.None?
      ensures launches == 0 && stackCloses == 0 && calls == [] && acquisitions == 0
    {
      this.headless := headless;
      running := false;
      bm := None;
      exitStack := None;
      locked := false;
      acquisitions := 0;
      launches := 0;
      stackCloses := 0;
      calls := [];
    }

    /** is_running: whether the session runs, which for a valid session is
        whether it holds a browser manager. */
    method IsRunning() returns (r: bool)
      requires Valid()
      ensures r == running
      ensures r <==> bm.Some? && exitStack.Some?
    {
      r := running;
    }

    /** start: nothing when already running; otherwise enters a new browser
        manager (what entering answers is the parameter) and records the
        manager and its exit stack only once entering succeeded. */
    method Start(launch: Reply<Browser>) returns (raised: Option<Failure>)
      requires Valid()
      requires launch.Returned? ==> launch.value.Settled()
      modifies this
      ensures Valid()
      ensures calls == old(calls) && stackCloses == old(stackCloses) && acquisitions == old(acquisitions)
      ensures old(running) ==>
                raised.None? && running && bm == old(bm) && exitStack == old(exitStack) && launches == old(launches)
      ensures !old(running) ==> launches == old(launches) + 1
      ensures !old(running) && launch.Raised? ==>
                raised == Some(launch.failure) && !running && bm.None? && exitStack.None?
      ensures !old(running) && launch.Returned? ==>
                raised.None? && running && bm == Some(launch.value) && exitStack == Some(ExitStack(launch.value))
    {
      if running {
        return None;
      }
      launches := launches + 1;
      match launch {
        case Raised(f) =>
          return Some(f);
        case Returned(manager) =>
          exitStack := Some(ExitStack(manager));
          bm := Some(manager);
          running := true;
          raised := None;
      }
    }

    /** stop: closes the exit stack when there is one (what closing it
        answers is the parameter) and then leaves the session stopped with
        neither manager nor stack. When closing raises, the exception
        propagates and the session keeps its manager, its stack and its
        running flag. */
    method Stop(closing: Option<Failure>) returns (raised: Option<Failure>)
      requires Valid()
      modifies this
      ensures Valid()
      ensures stackCloses == old(stackCloses) + (if old(exitStack).Some? then 1 else 0)
      ensures calls == old(calls) && launches == old(launches) && acquisitions == old(acquisitions)
      ensures old(exitStack).Some? && closing.Some? ==>
                raised == closing && running == old(running) && bm == old(bm) && exitStack == old(exitStack)
      ensures old(exitStack).None? || closing.None? ==>
                raised.None? && !running && bm.None? && exitStack.None?
    {
      raised := None;
      if exitStack.Some? {
        stackCloses := stackCloses + 1;
        if closing.Some? {
          return closing;
        }
        exitStack := None;
        bm := None;
      }
      running := false;
    }

    /** search_notes. `stopFirst` says that another task's stop ran to its
        end while this call waited for the lock. Only a running session
        takes the lock. */
    method SearchNotes(keyword: string, maxCount: int, stopFirst: bool) returns (r: Reply<SearchOutcome>)
      requires Valid()
      modifies this, Manager()
      ensures Valid()
      ensures !old(running) || stopFirst ==>
                r == Returned(SearchRefused(Errors.NotRunningMessage)) && calls == old(calls)
      ensures !old(running) ==> bm == old(bm) && running == old(running) && acquisitions == old(acquisitions)
      ensures old(running) ==> acquisitions == old(acquisitions) + 1
      ensures launches == old(launches)
      ensures old(running) && stopFirst ==>
                !running && bm.None? && exitStack.None? && stackCloses == old(stackCloses) + 1
      ensures !(old(running) && stopFirst) ==> stackCloses == old(stackCloses)
      ensures old(running) && !stopFirst ==>
                r == ListingOf(keyword, maxCount, old(bm.value.Next())) &&
                calls == old(calls) + [SearchCall(keyword, maxCount, true)] &&
                bm == old(bm) && running &&
                bm.value.requested == old(bm.value.requested) + 1 &&
                bm.value.openPages == old(bm.value.openPages)
    {
      if !running {
        return Returned(SearchRefused(Errors.NotRunningMessage));
      }
      if stopFirst {
        var ignored := Stop(None);
      }
      locked := true;
      acquisitions := acquisitions + 1;
      if bm.None? {
        locked := false;
        return Returned(SearchRefused(Errors.NotRunningMessage));
      }
      var manager := bm.value;
      calls := calls + [SearchCall(keyword, maxCount, locked)];
      var found, scrolls := Search.SearchNotes(manager, maxCount);
      locked := false;
      match found {
        case Raised(f) => r := Raised(f);
        case Returned(results) => r := Returned(Listing(keyword, |results|, results));
      }
    }

    /** get_note_detail: never answers None; a missing detail becomes the
        failure record. */
    method GetNoteDetail(noteUrl: string, maxComments: int, stopFirst: bool) returns (r: Reply<DetailOutcome>)
      requires Valid()
      modifies this, Manager()
      ensures Valid()
      ensures !old(running) || stopFirst ==>
                r == Returned(DetailRefused(Errors.NotRunningMessage)) && calls == old(calls)
      ensures !old(running) ==> bm == old(bm) && running == old(running) && acquisitions == old(acquisitions)
      ensures old(running) ==> acquisitions == old(acquisitions) + 1
      ensures launches == old(launches)
      ensures old(running) && stopFirst ==>
                !running && bm.None? && exitStack.None? && stackCloses == old(stackCloses) + 1
      ensures !(old(running) && stopFirst) ==> stackCloses == old(stackCloses)
      ensures old(running) && !stopFirst ==>
                bm == old(bm) && running &&
                r == DetailOf(noteUrl, maxComments, bm.value.tabs, old(bm.value.requested)) &&
                calls == old(calls) + [DetailCall(noteUrl, maxComments, true)] &&
                bm.value.openPages == old(bm.value.openPages)
    {
      if !running {
        return Returned(DetailRefused(Errors.NotRunningMessage));
      }
      if stopFirst {
        var ignored := Stop(None);
      }
      locked := true;
      acquisitions := acquisitions + 1;
      if bm.None? {
        locked := false;
        return Returned(DetailRefused(Errors.NotRunningMessage));
      }
      var manager := bm.value;
      calls := calls + [DetailCall(noteUrl, maxComments, locked)];
      var result, attempts, visits := Note.FetchSingleNote(manager, noteUrl, maxComments);
      locked := false;
      match result {
        case Raised(f) => r := Raised(f);
        case Returned(None) => r := Returned(DetailRefused(FetchFailedMessage));
        case Returned(Some(d)) => r := Returned(Detail(d));
      }
    }

    /** check_login_status: probes the login on a fresh tab and closes that
        tab on every path once it was opened. */
    method CheckLoginStatus(stopFirst: bool) returns (r: Reply<LoginStatus>)
      requires Valid()
      modifies this, Manager()
      ensures Valid()
      ensures !old(running) || stopFirst ==>
                r == Returned(LoginStatus(false, false, Errors.NotRunningMessage)) && calls == old(calls)
      ensures !old(running) ==> bm == old(bm) && running == old(running) && acquisitions == old(acquisitions)
      ensures old(running) ==> acquisitions == old(acquisitions) + 1
      ensures launches == old(launches)
      ensures old(running) && stopFirst ==>
                !running && bm.None? && exitStack.None? && stackCloses == old(stackCloses) + 1
      ensures !(old(running) && stopFirst) ==> stackCloses == old(stackCloses)
      ensures old(running) && !stopFirst ==>
                r == LoginOf(old(bm.value.Next())) &&
                calls == old(calls) + (if old(bm.value.Next()).Returned? then [LoginProbe(true)] else []) &&
                bm == old(bm) && running &&
                bm.value.requested == old(bm.value.requested) + 1 &&
                bm.value.openPages == old(bm.value.openPages) &&
                bm.value.closed == old(bm.value.closed) + (if old(bm.value.Next()).Returned? then 1 else 0)
    {
      if !running {
        return Returned(LoginStatus(false, false, Errors.NotRunningMessage));
      }
      if stopFirst {
        var ignored := Stop(None);
      }
      locked := true;
      acquisitions := acquisitions + 1;
      if bm.None? {
        locked := false;
        return Returned(LoginStatus(false, false, Errors.NotRunningMessage));
      }
      var manager := bm.value;
      var tab := manager.NewPage();
      match tab {
        case Raised(f) =>
          r := Raised(f);
        case Returned(page) =>
          calls := calls + [LoginProbe(locked)];
          match page.loggedIn {
            case Raised(f) =>
              r := Raised(f);
            case Returned(b) =>
              r := Returned(LoginStatus(b, true, if b then LoggedInMessage else LoginNeededMessage));
          }
          manager.ClosePage();
      }
      locked := false;
    }

    /** crawl_keyword: searches for at most 20 notes, fetches the details of
        what it found (skipping the batch when it found nothing), saves both,
        and reports the counts. */
    method CrawlKeyword(keyword: string, maxNotes: int, maxComments: int, stopFirst: bool) returns (r: Reply<CrawlOutcome>)
      requires Valid()
      modifies this, Manager()
      ensures Valid()
      ensures !old(running) || stopFirst ==>
                r == Returned(CrawlRefused(Errors.NotRunningMessage)) && calls == old(calls)
      ensures !old(running) ==> bm == old(bm) && running == old(running) && acquisitions == old(acquisitions)
      ensures old(running) ==> acquisitions == old(acquisitions) + 1
      ensures launches == old(launches)
      ensures old(running) && stopFirst ==>
                !running && bm.None? && exitStack.None? && stackCloses == old(stackCloses) + 1
      ensures !(old(running) && stopFirst) ==> stackCloses == old(stackCloses)
      ensures old(running) && !stopFirst ==>
                bm == old(bm) && running &&
                var run := CrawlOf(keyword, maxNotes, maxComments, bm.value.tabs, old(bm.value.requested), true);
                r == run.result && calls == old(calls) + run.calls &&
                bm.value.openPages == old(bm.value.openPages)
    {
      if !running {
        return Returned(CrawlRefused(Errors.NotRunningMessage));
      }
      if stopFirst {
        var ignored := Stop(None);
      }
      locked := true;
      acquisitions := acquisitions + 1;
      if bm.None? {
        locked := false;
        return Returned(CrawlRefused(Errors.NotRunningMessage));
      }
      ghost var log;
      r, log := CrawlWith(bm.value, keyword, maxNotes, maxComments, locked);
      calls := calls + log;
      locked := false;
    }

    /** get_saved_data: lists the matching files of each data subdirectory
        in turn, in the order the listing gives them. `listing` maps each
        existing subdirectory to its entries, sorted. */
    method GetSavedData(keyword: Option<string>, dataDir: string, listing: map<string, seq<Entry>>) returns (files: seq<SavedFile>)
      ensures files == FilesUnder(keyword, dataDir, listing, Subdirs)
    {
      files := [];
      for s := 0 to |Subdirs|
        invariant files == FilesUnder(keyword, dataDir, listing, Subdirs[..s])
      {
        var subdir := Subdirs[s];
        FilesUnderNext(keyword, dataDir, listing, s);
        if subdir !in listing {
          continue;
        }
        var found := ListEntries(keyword, dataDir, subdir, listing[subdir]);
        files := files + found;
      }
      assert Subdirs[..|Subdirs|] == Subdirs;
    }
  }

  /** The inner loop of get_saved_data over one subdirectory's entries. */
  method ListEntries(keyword: Option<string>, dataDir: string, subdir: string, entries: seq<Entry>) returns (found: seq<SavedFile>)
    ensures found == FilesIn(keyword, dataDir, subdir, entries)
  {
    found := [];
    for k := 0 to |entries|
      invariant found == FilesIn(keyword, dataDir, subdir, entries[..k])
    {
      var e := entries[k];
      FilesInNext(keyword, dataDir, subdir, entries, k);
      if !e.isFile {
        continue;
      }
      var suffix := Suffix(e.name);
      if suffix != ".json" && suffix != ".xlsx" {
        continue;
      }
      var extracted := ExtractKeywordFromStem(Stem(e.name));
      if keyword.Some? && keyword.value != [] && !Contains(Lower(extracted), Lower(keyword.value)) {
        continue;
      }
      found := found + [SavedFile(dataDir + "/" + subdir + "/" + e.name, extracted, e.createdAt, e.size)];
    }
    assert entries[..|entries|] == entries;
  }

  /** A file is listed exactly when it is a listed entry of an existing data
      subdirectory. */
  lemma SavedFileMembers(keyword: Option<string>, dataDir: string, listing: map<string, seq<Entry>>, f: SavedFile)
    ensures f in FilesUnder(keyword, dataDir, listing, Subdirs) <==>
              exists d, k :: d in Subdirs && d in listing && ListedAt(keyword, dataDir, d, listing[d], k, f)
  {
    var raw := if "raw" in listing then FilesIn(keyword, dataDir, "raw", listing["raw"]) else [];
    var processed := if "processed" in listing then FilesIn(keyword, dataDir, "processed", listing["processed"]) else [];
    assert Subdirs[..1] == ["raw"] && ["raw"][..0] == [];
    assert FilesUnder(keyword, dataDir, listing, ["raw"]) == raw;
    assert FilesUnder(keyword, dataDir, listing, Subdirs) == raw + processed;
    if "raw" in listing {
      FilesInMembers(keyword, dataDir, "raw", listing["raw"], f);
    }
    if "processed" in listing {
      FilesInMembers(keyword, dataDir, "processed", listing["processed"], f);
    }
  }
}
