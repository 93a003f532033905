/** The tool boundary of the server: it validates and clamps each tool's
    arguments, hands them to the one long-lived session, bounds each call by
    the tool's time budget, and serves saved data files by name behind a
    guard against path traversal. */
module Server {
  import opened Wrappers
  import opened Text
  import opened Numerals
  import Errors
  import Session

  // ---------------------------------------------------------------------------
  // Clamps and the time budgets
  // ---------------------------------------------------------------------------

  /** max(lo, min(x, hi)): x brought into [lo, hi]. */
  function Clamp(x: int, lo: int, hi: int): (r: int)
    ensures lo <= r
    ensures lo <= hi ==> r <= hi
    ensures lo <= x <= hi ==> r == x
    ensures x < lo ==> r == lo
    ensures lo <= hi < x ==> r == hi
  {
    var low := if x < hi then x else hi;
    if lo > low then lo else low
  }

  const MaxCountRange := (1, 50)
  const MaxCommentsRange := (0, 50)
  const MaxNotesRange := (1, 20)

  /** The time budget, in seconds, of each tool that has one. */
  const ToolTimeouts: map<string, int> := map["search_notes" := 120, "get_note_detail" := 90, "crawl_keyword" := 600]

  /** The budget of a tool missing from the table. */
  const DefaultTimeout := 120

  /** The budget of a tool: its entry in the table, else the default. */
  function TimeoutFor(tool: string): (seconds: int)
    ensures seconds > 0
    ensures tool in ToolTimeouts ==> seconds == ToolTimeouts[tool]
    ensures tool !in ToolTimeouts ==> seconds == DefaultTimeout
  {
    if tool in ToolTimeouts then ToolTimeouts[tool] else DefaultTimeout
  }

  /** Every tool's budget is between 90 seconds and the ten minutes of
      crawl_keyword, the longest. */
  lemma TimeoutsOrdered(tool: string)
    ensures 90 <= TimeoutFor(tool) <= TimeoutFor("crawl_keyword") == 600
  {
  }

  /** What a tool answers. */
  datatype ToolReply =
    | Failed(error: Errors.CrawlerError)
    | Searched(listing: Session.SearchOutcome)
    | Fetched(detail: Session.DetailOutcome)
    | Crawled(crawl: Session.CrawlOutcome)
    | Login(status: Session.LoginStatus)
    | Files(files: seq<Session.SavedFile>)

  /** _with_timeout: the call's own answer when it finished in time
      (`expired` false), the TIMEOUT error of the tool otherwise. */
  function WithTimeout(tool: string, expired: bool, answer: Reply<ToolReply>): (r: Reply<ToolReply>)
    ensures !expired ==> r == answer
    ensures expired ==> r.Returned? && r.value.Failed? && r.value.error.code == Errors.TimeoutCode
  {
    if expired then Returned(Failed(Errors.TimeoutError(tool, TimeoutFor(tool)))) else answer
  }

  /** An expired call's error names the tool and the seconds of its budget. */
  lemma TimeoutNamesTool(tool: string, answer: Reply<ToolReply>)
    ensures var e := WithTimeout(tool, true, answer).value.error;
            Contains(e.message, tool) && Contains(e.message, IntToString(TimeoutFor(tool)))
  {
  }

  // ---------------------------------------------------------------------------
  // Argument checks
  // ---------------------------------------------------------------------------

  /** The INVALID_INPUT error for a blank argument. */
  function Blank(field: string): Errors.CrawlerError {
    Errors.InvalidInputError(field, "不能为空")
  }

  /** A blank argument's error names the argument. */
  lemma BlankNamesField(field: string)
    ensures Blank(field).code == Errors.InvalidInputCode
    ensures Contains(Blank(field).message, field) && Contains(Blank(field).action, field)
  {
  }

  /** The part of a note URL before its first '?', which is all that is
      logged. */
  function SafeUrl(url: string): (r: string)
    ensures '?' !in r
    ensures StartsWith(url, r)
    ensures '?' !in url ==> r == url
  {
    BeforeFirst(url, '?')
  }

  /** The error get_note_detail answers for a missing session result. */
  function FallbackError(url: string): Errors.CrawlerError {
    Errors.CrawlFailedError("无法采集笔记详情：" + SafeUrl(url))
  }

  /** The fallback error is CRAWL_FAILED, names the URL without its query,
      and so never carries a token from the query. */
  lemma FallbackNamesUrl(url: string)
    ensures FallbackError(url).code == Errors.CrawlFailedCode
    ensures Contains(FallbackError(url).message, SafeUrl(url))
    ensures Errors.FailureDetail(FallbackError(url).message) == "无法采集笔记详情：" + SafeUrl(url)
  {
    var detail := "无法采集笔记详情：" + SafeUrl(url);
    Errors.CrawlFailedDetail(detail);
    var m := FallbackError(url).message;
    assert m == Errors.CrawlFailedPrefix + "无法采集笔记详情：" + SafeUrl(url) + [];
    ContainsInside(Errors.CrawlFailedPrefix + "无法采集笔记详情：", SafeUrl(url), []);
  }

  /** get_saved_data's filter: none for a blank keyword, the stripped
      keyword otherwise. */
  function FilterKeyword(keyword: string): Option<string> {
    var k := Strip(keyword);
    if k == [] then None else Some(k)
  }

  /** The filter is absent exactly for blank keywords, and is otherwise the
      keyword without surrounding whitespace. */
  lemma FilterKeywordFacts(keyword: string)
    ensures FilterKeyword(keyword).None? <==> Strip(keyword) == []
    ensures FilterKeyword(keyword).Some? ==>
              FilterKeyword(keyword).value == Strip(keyword) &&
              !IsSpace(FilterKeyword(keyword).value[0]) &&
              !IsSpace(FilterKeyword(keyword).value[|FilterKeyword(keyword).value| - 1])
  {
    var k := Strip(keyword);
    if k != [] {
      var front := TrimStart(keyword, Whitespace);
      assert k == TrimEnd(front, Whitespace);
      assert k[0] == front[0];
    }
  }

  // ---------------------------------------------------------------------------
  // The tools
  // ---------------------------------------------------------------------------

  /** search_notes: a blank keyword is refused without calling the session;
      otherwise the session searches for the stripped keyword with max_count
      clamped to [1, 50], within the tool's budget. `stopFirst` and
      `expired` are the session race and the timeout. */
  method SearchNotes(session: Session.CrawlerSession, keyword: string, maxCount: int, stopFirst: bool, expired: bool)
    returns (r: Reply<ToolReply>)
    requires session.Valid()
    modifies session, session.Manager()
    ensures session.Valid()
    ensures Strip(keyword) == [] ==>
              r == Returned(Failed(Blank("keyword"))) && session.calls == old(session.calls) &&
              session.bm == old(session.bm) && session.running == old(session.running) &&
              session.acquisitions == old(session.acquisitions)
    ensures Strip(keyword) != [] && old(session.running) && !stopFirst ==>
              session.bm == old(session.bm) &&
              var count := Clamp(maxCount, MaxCountRange.0, MaxCountRange.1);
              session.calls == old(session.calls) + [Session.SearchCall(Strip(keyword), count, true)] &&
              r == WithTimeout("search_notes", expired,
                     Lift(Session.ListingOf(Strip(keyword), count, old(session.bm.value.Next())), o => Searched(o)))
    ensures Strip(keyword) != [] && (!old(session.running) || stopFirst) ==>
              session.calls == old(session.calls) &&
              r == WithTimeout("search_notes", expired, Returned(Searched(Session.SearchRefused(Errors.NotRunningMessage))))
  {
    var stripped := Strip(keyword);
    if stripped == [] {
      return Returned(Failed(Blank("keyword")));
    }
    var count := Clamp(maxCount, MaxCountRange.0, MaxCountRange.1);
    var answer := session.SearchNotes(stripped, count, stopFirst);
    r := WithTimeout("search_notes", expired, Lift(answer, o => Searched(o)));
  }

  /** get_note_detail: a blank URL is refused without calling the session;
      otherwise the session fetches the original URL with max_comments
      clamped to [0, 50], within the tool's budget. */
  method GetNoteDetail(session: Session.CrawlerSession, noteUrl: string, maxComments: int, stopFirst: bool, expired: bool)
    returns (r: Reply<ToolReply>)
    requires session.Valid()
    modifies session, session.Manager()
    ensures session.Valid()
    ensures Strip(noteUrl) == [] ==>
              r == Returned(Failed(Blank("note_url"))) && session.calls == old(session.calls) &&
              session.bm == old(session.bm) && session.running == old(session.running) &&
              session.acquisitions == old(session.acquisitions)
    ensures Strip(noteUrl) != [] && old(session.running) && !stopFirst ==>
              session.bm == old(session.bm) &&
              var count := Clamp(maxComments, MaxCommentsRange.0, MaxCommentsRange.1);
              session.calls == old(session.calls) + [Session.DetailCall(noteUrl, count, true)] &&
              r == WithTimeout("get_note_detail", expired,
                     Lift(Session.DetailOf(noteUrl, count, session.bm.value.tabs, old(session.bm.value.requested)), o => Fetched(o)))
    ensures Strip(noteUrl) != [] && (!old(session.running) || stopFirst) ==>
              session.calls == old(session.calls) &&
              r == WithTimeout("get_note_detail", expired, Returned(Fetched(Session.DetailRefused(Errors.NotRunningMessage))))
  {
    if Strip(noteUrl) == [] {
      return Returned(Failed(Blank("note_url")));
    }
    var count := Clamp(maxComments, MaxCommentsRange.0, MaxCommentsRange.1);
    var answer := session.GetNoteDetail(noteUrl, count, stopFirst);
    r := WithTimeout("get_note_detail", expired, Lift(answer, o => Fetched(o)));
  }

  /** crawl_keyword: a blank keyword is refused without calling the session;
      otherwise the session crawls the stripped keyword with max_notes
      clamped to [1, 20] and max_comments to [0, 50], within the budget. */
  method CrawlKeyword(session: Session.CrawlerSession, keyword: string, maxNotes: int, maxComments: int,
                      stopFirst: bool, expired: bool)
    returns (r: Reply<ToolReply>)
    requires session.Valid()
    modifies session, session.Manager()
    ensures session.Valid()
    ensures Strip(keyword) == [] ==>
              r == Returned(Failed(Blank("keyword"))) && session.calls == old(session.calls) &&
              session.bm == old(session.bm) && session.running == old(session.running) &&
              session.acquisitions == old(session.acquisitions)
    ensures Strip(keyword) != [] && old(session.running) && !stopFirst ==>
              session.bm == old(session.bm) &&
              var notes := Clamp(maxNotes, MaxNotesRange.0, MaxNotesRange.1);
              var comments := Clamp(maxComments, MaxCommentsRange.0, MaxCommentsRange.1);
              var run := Session.CrawlOf(Strip(keyword), notes, comments, session.bm.value.tabs, old(session.bm.value.requested), true);
              session.calls == old(session.calls) + run.calls &&
              r == WithTimeout("crawl_keyword", expired, Lift(run.result, o => Crawled(o)))
    ensures Strip(keyword) != [] && (!old(session.running) || stopFirst) ==>
              session.calls == old(session.calls) &&
              r == WithTimeout("crawl_keyword", expired, Returned(Crawled(Session.CrawlRefused(Errors.NotRunningMessage))))
  {
    var stripped := Strip(keyword);
    if stripped == [] {
      return Returned(Failed(Blank("keyword")));
    }
    var notes := Clamp(maxNotes, MaxNotesRange.0, MaxNotesRange.1);
    var comments := Clamp(maxComments, MaxCommentsRange.0, MaxCommentsRange.1);
    var answer := session.CrawlKeyword(stripped, notes, comments, stopFirst);
    r := WithTimeout("crawl_keyword", expired, Lift(answer, o => Crawled(o)));
  }

  /** check_login_status: the session's answer, with no budget. */
  method CheckLoginStatus(session: Session.CrawlerSession, stopFirst: bool) returns (r: Reply<ToolReply>)
    requires session.Valid()
    modifies session, session.Manager()
    ensures session.Valid()
    ensures old(session.running) && !stopFirst ==>
              session.bm == old(session.bm) && r == Lift(Session.LoginOf(old(session.bm.value.Next())), s => Login(s))
    ensures !old(session.running) || stopFirst ==>
              r == Returned(Login(Session.LoginStatus(false, false, Errors.NotRunningMessage)))
  {
    var answer := session.CheckLoginStatus(stopFirst);
    r := Lift(answer, s => Login(s));
  }

  /** get_saved_data: the listing under the data directory, filtered by the
      stripped keyword when it is not blank. */
  method GetSavedData(session: Session.CrawlerSession, keyword: string, listing: map<string, seq<Session.Entry>>)
    returns (r: Reply<ToolReply>)
    ensures r == Returned(Files(Session.FilesUnder(FilterKeyword(keyword), DataDir, listing, Session.Subdirs)))
  {
    var files := session.GetSavedData(FilterKeyword(keyword), DataDir, listing);
    r := Returned(Files(files));
  }

  /** A reply's value mapped into a tool reply; an exception propagates. */
  function Lift<T>(answer: Reply<T>, wrap: T -> ToolReply): (r: Reply<ToolReply>)
    ensures r.Raised? <==> answer.Raised?
    ensures answer.Raised? ==> r.failure == answer.failure
    ensures answer.Returned? ==> r.value == wrap(answer.value)
  {
    match answer
    case Raised(f) => Raised(f)
    case Returned(v) => Returned(wrap(v))
  }

  // ---------------------------------------------------------------------------
  // The data resource
  // ---------------------------------------------------------------------------

  /** The data directory the server reads. */
  const DataDir := "data"

  /** A resource name is served only when it holds neither "..", '/' nor '\'. */
  predicate NameAllowed(filename: string) {
    !Contains(filename, "..") && '/' !in filename && '\\' !in filename
  }

  function RejectMessage(filename: string): string {
    "无效的文件名（不允许路径穿越或子目录访问）：" + filename
  }

  function MissingMessage(filename: string): string {
    "文件不存在：" + filename + "。请先使用 crawl_keyword 或 search_notes 采集数据，或通过 get_saved_data 查看已有文件列表。"
  }

  /** The path of a resource name under a data subdirectory. */
  function DataPath(subdir: string, filename: string): string {
    DataDir + "/" + subdir + "/" + filename
  }

  /** What get_data_resource answers, given the regular files (path to
      text) of the data directory. */
  function Resource(filename: string, files: map<string, string>): string {
    if !NameAllowed(filename) then RejectMessage(filename)
    else if DataPath("raw", filename) in files then files[DataPath("raw", filename)]
    else if DataPath("processed", filename) in files then files[DataPath("processed", filename)]
    else MissingMessage(filename)
  }

  /** get_data_resource: refuses a name with "..", '/' or '\' before any
      lookup; otherwise looks in raw, then in processed, and answers the
      first file found or the not-found message. `looked` is the paths it
      asked the file system about. */
  method GetDataResource(filename: string, files: map<string, string>) returns (r: string, ghost looked: seq<string>)
    ensures r == Resource(filename, files)
    ensures !NameAllowed(filename) ==> looked == []
    ensures NameAllowed(filename) ==>
              1 <= |looked| <= 2 && looked[0] == DataPath("raw", filename) &&
              (|looked| == 2 ==> looked[1] == DataPath("processed", filename))
  {
    looked := [];
    if Contains(filename, "..") || '/' in filename || '\\' in filename {
      return RejectMessage(filename), looked;
    }
    for k := 0 to |Session.Subdirs|
      invariant looked == seq(k, j requires 0 <= j < k => DataPath(Session.Subdirs[j], filename))
      invariant forall j :: 0 <= j < k ==> DataPath(Session.Subdirs[j], filename) !in files
    {
      var path := DataPath(Session.Subdirs[k], filename);
      looked := looked + [path];
      if path in files {
        assert Session.Subdirs[0] == "raw" && Session.Subdirs[1] == "processed";
        assert k == 1 ==> DataPath(Session.Subdirs[0], filename) !in files;
        return files[path], looked;
      }
    }
    assert Session.Subdirs[0] == "raw" && Session.Subdirs[1] == "processed";
    r := MissingMessage(filename);
  }

  /** A served name keeps every lookup directly inside raw or processed:
      the name is the last path component and cannot climb out. */
  lemma LookupsStayInside(filename: string, subdir: string)
    requires NameAllowed(filename)
    ensures var path := DataPath(subdir, filename);
            StartsWith(path, DataDir + "/" + subdir + "/") &&
            path[|DataDir + "/" + subdir + "/"|..] == filename &&
            '/' !in filename && !Contains(filename, "..")
  {
    var prefix := DataDir + "/" + subdir + "/";
    assert DataPath(subdir, filename) == prefix + filename;
  }
}
