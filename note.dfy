/** The note detail fetcher of src/note.py: the note id scanner, the
    ready-selector wait, one fetch attempt, the bounded retry loop around it,
    and the batch loop over search results. */
module Note {
  import opened Wrappers
  import opened Driver
  import opened Comment
  import Parser

  // ---------------------------------------------------------------------------
  // Note id extraction
  // ---------------------------------------------------------------------------

  /** The path segment that introduces a note id. */
  const ExploreMarker: string := "/explore/"

  /** An ASCII letter or digit. */
  predicate IsAlnum(c: char) {
    ('a' <= c <= 'z') || ('A' <= c <= 'Z') || ('0' <= c <= '9')
  }

  predicate AllAlnum(s: string) {
    forall i :: 0 <= i < |s| ==> IsAlnum(s[i])
  }

  /** The longest run of letters and digits at the start of s. */
  function AlnumRun(s: string): (r: string)
    ensures r <= s && AllAlnum(r)
    ensures |r| < |s| ==> !IsAlnum(s[|r|])
  {
    if s != [] && IsAlnum(s[0]) then [s[0]] + AlnumRun(s[1..]) else []
  }

  /** The marker occurs at position i and is followed by a letter or digit. */
  predicate MatchAt(url: string, i: nat) {
    i + |ExploreMarker| < |url| && url[i..i + |ExploreMarker|] == ExploreMarker &&
    IsAlnum(url[i + |ExploreMarker|])
  }

  /** Scans the positions from i on for the first match. */
  function ScanFrom(url: string, i: nat): Option<string>
    requires i <= |url|
    decreases |url| - i
  {
    if i == |url| then None
    else if MatchAt(url, i) then Some(AlnumRun(url[i + |ExploreMarker|..]))
    else ScanFrom(url, i + 1)
  }

  /** The first position from i on where the marker matches, |url| if none. */
  function FirstMatch(url: string, i: nat): (j: nat)
    requires i <= |url|
    ensures i <= j <= |url|
    ensures j < |url| ==> MatchAt(url, j)
    decreases |url| - i
  {
    if i == |url| || MatchAt(url, i) then i else FirstMatch(url, i + 1)
  }

  /** No position before the first match matches. */
  lemma {:induction false} FirstMatchFacts(url: string, i: nat)
    requires i <= |url|
    ensures forall k :: i <= k < FirstMatch(url, i) ==> !MatchAt(url, k)
    decreases |url| - i
  {
    if i < |url| && !MatchAt(url, i) {
      FirstMatchFacts(url, i + 1);
    }
  }

  /** The scan from i gives the run after the first match, or nothing
      without one. */
  lemma {:induction false} ScanFromFacts(url: string, i: nat)
    requires i <= |url|
    ensures ScanFrom(url, i) ==
              if FirstMatch(url, i) < |url| then Some(AlnumRun(url[FirstMatch(url, i) + |ExploreMarker|..]))
              else None
    decreases |url| - i
  {
    if i < |url| && !MatchAt(url, i) {
      ScanFromFacts(url, i + 1);
    }
  }

  /** The note id of a detail page URL: the run of letters and digits after
      the first "/explore/" that is followed by at least one of them. */
  function ExtractNoteId(url: string): (r: Option<string>)
    ensures r.None? <==> forall j :: 0 <= j < |url| ==> !MatchAt(url, j)
    ensures r.Some? ==> r.value != [] && AllAlnum(r.value)
    ensures r.Some? ==> exists j :: 0 <= j < |url| && MatchAt(url, j) &&
                          (forall k :: 0 <= k < j ==> !MatchAt(url, k)) &&
                          r.value == AlnumRun(url[j + |ExploreMarker|..])
  {
    FirstMatchFacts(url, 0);
    ScanFromFacts(url, 0);
    ScanFrom(url, 0)
  }

  lemma {:induction false} AlnumRunOf(id: string, rest: string)
    requires AllAlnum(id)
    requires rest == [] || !IsAlnum(rest[0])
    ensures AlnumRun(id + rest) == id
    decreases |id|
  {
    if id == [] {
      assert id + rest == rest;
    } else {
      assert (id + rest)[1..] == id[1..] + rest;
      AlnumRunOf(id[1..], rest);
    }
  }

  lemma {:induction false} ScanSkips(url: string, i: nat, n: nat)
    requires i <= n <= |url|
    requires forall j :: i <= j < n ==> !MatchAt(url, j)
    ensures ScanFrom(url, i) == ScanFrom(url, n)
    decreases n - i
  {
    if i < n {
      ScanSkips(url, i + 1, n);
    }
  }

  /** No '/' of the prefix starts "/e": so the marker cannot begin inside
      it, even when it runs on into what follows. */
  predicate NoMarkerStart(prefix: string) {
    forall j :: 0 <= j < |prefix| && prefix[j] == '/' ==> j + 1 < |prefix| && prefix[j + 1] != 'e'
  }

  lemma NoMatchInPrefix(prefix: string, tail: string, j: nat)
    requires NoMarkerStart(prefix)
    requires j < |prefix|
    ensures !MatchAt(prefix + tail, j)
  {
    var url := prefix + tail;
    var m := |ExploreMarker|;
    if j + m < |url| && url[j] == '/' {
      assert url[j..j + m][1] == url[j + 1] == prefix[j + 1];
    } else if j + m < |url| {
      assert url[j..j + m][0] == url[j];
    }
  }

  /** The id written after the marker is extracted, whatever follows it. */
  lemma ExtractAfterPrefix(prefix: string, id: string, rest: string)
    requires NoMarkerStart(prefix)
    requires id != [] && AllAlnum(id)
    requires rest == [] || !IsAlnum(rest[0])
    ensures ExtractNoteId(prefix + ExploreMarker + id + rest) == Some(id)
  {
    var head := prefix + ExploreMarker;
    var tail := id + rest;
    var url := head + tail;
    assert prefix + ExploreMarker + id + rest == url;
    assert url == prefix + (ExploreMarker + tail);
    var n := |prefix|;
    var m := |ExploreMarker|;
    forall j | 0 <= j < n
      ensures !MatchAt(url, j)
    {
      NoMatchInPrefix(prefix, ExploreMarker + tail, j);
    }
    ScanSkips(url, 0, n);
    assert url[n..n + m] == head[n..] == ExploreMarker;
    assert url[n + m..] == tail;
    assert url[n + m] == id[0];
    assert MatchAt(url, n);
    AlnumRunOf(id, rest);
  }

  /** A URL that ends right after the marker has no id. */
  lemma NoIdAfterMarker(prefix: string)
    requires NoMarkerStart(prefix)
    ensures ExtractNoteId(prefix + ExploreMarker) == None
  {
    var url := prefix + ExploreMarker;
    forall j | 0 <= j < |url|
      ensures !MatchAt(url, j)
    {
      if j < |prefix| {
        NoMatchInPrefix(prefix, ExploreMarker, j);
      }
    }
  }

  lemma SiteHasNoMarkerStart()
    ensures NoMarkerStart(Parser.NoteBaseUrl)
  {
  }

  /** The full detail URL of a note, with its token query. */
  lemma ExtractFromDetailUrl()
    ensures ExtractNoteId(Parser.NoteBaseUrl + ExploreMarker + "abc123" + "?xsec_token=XYZ") == Some("abc123")
  {
    SiteHasNoMarkerStart();
    ExtractAfterPrefix(Parser.NoteBaseUrl, "abc123", "?xsec_token=XYZ");
  }

  /** The site URL followed by the bare marker has no id. */
  lemma ExtractNoIdAfterMarker()
    ensures ExtractNoteId(Parser.NoteBaseUrl + ExploreMarker) == None
  {
    SiteHasNoMarkerStart();
    NoIdAfterMarker(Parser.NoteBaseUrl);
  }

  // ---------------------------------------------------------------------------
  // Waiting for the detail to render
  // ---------------------------------------------------------------------------

  /** The selectors whose appearance marks the detail as rendered, in order. */
  const ReadySelectors: seq<string> := ["#noteContainer", "#detail-title", ".note-content", ".note-container"]

  /** How waiting for the selectors in sels ends: at the first wait that
      does not time out, with its outcome; a timeout on every selector is not
      an error. */
  function WaitFrom(p: Page, sels: seq<string>): Outcome
    decreases |sels|
  {
    if sels == [] then Ok
    else if p.ready(sels[0]) != Timeout then p.ready(sels[0])
    else WaitFrom(p, sels[1..])
  }

  /** How waiting for the content ends. */
  function WaitOutcome(p: Page): Outcome {
    WaitFrom(p, ReadySelectors)
  }

  /** The wait never ends in a timeout, and it ends in an error exactly when
      the first selector that does not time out raises. */
  lemma {:induction false} WaitFromFacts(p: Page, sels: seq<string>)
    ensures WaitFrom(p, sels) != Timeout
    ensures WaitFrom(p, sels) == Error <==>
              exists k :: 0 <= k < |sels| && p.ready(sels[k]) == Error &&
                          forall j :: 0 <= j < k ==> p.ready(sels[j]) == Timeout
    decreases |sels|
  {
    if sels != [] && p.ready(sels[0]) == Timeout {
      var rest := sels[1..];
      WaitFromFacts(p, rest);
      if WaitFrom(p, rest) == Error {
        var k :| 0 <= k < |rest| && p.ready(rest[k]) == Error &&
                 forall j :: 0 <= j < k ==> p.ready(rest[j]) == Timeout;
        assert sels[k + 1] == rest[k];
        forall j | 0 <= j < k + 1
          ensures p.ready(sels[j]) == Timeout
        {
          if j > 0 {
            assert sels[j] == rest[j - 1];
          }
        }
      } else {
        forall k | 0 <= k < |sels| && p.ready(sels[k]) == Error
          ensures exists j :: 0 <= j < k && p.ready(sels[j]) != Timeout
        {
          assert k > 0;
          assert sels[k] == rest[k - 1];
          var j :| 0 <= j < k - 1 && p.ready(rest[j]) != Timeout;
          assert sels[j + 1] == rest[j];
        }
      }
    } else if sels != [] {
      if p.ready(sels[0]) != Error {
        forall k | 0 <= k < |sels| && p.ready(sels[k]) == Error
          ensures exists j :: 0 <= j < k && p.ready(sels[j]) != Timeout
        {
          assert 0 < k && p.ready(sels[0]) != Timeout;
        }
      }
    }
  }

  /** _wait_for_content: waits for each ready selector in turn and stops at
      the first that appears; sleeps once at the end unless a wait raised. */
  method WaitForContent(p: Page) returns (o: Outcome, found: Option<string>, sleeps: nat)
    ensures o == WaitOutcome(p)
    ensures found.Some? ==> o == Ok && p.ready(found.value) == Ok
    ensures found.Some? ==> exists k :: 0 <= k < |ReadySelectors| && found.value == ReadySelectors[k] &&
                                       forall j :: 0 <= j < k ==> p.ready(ReadySelectors[j]) == Timeout
    ensures found.None? && o == Ok ==> forall j :: 0 <= j < |ReadySelectors| ==> p.ready(ReadySelectors[j]) == Timeout
    ensures sleeps == if o == Ok then 1 else 0
  {
    found := None;
    var i := 0;
    while i < |ReadySelectors|
      invariant 0 <= i <= |ReadySelectors|
      invariant forall j :: 0 <= j < i ==> p.ready(ReadySelectors[j]) == Timeout
      invariant WaitOutcome(p) == WaitFrom(p, ReadySelectors[i..])
    {
      var sel := ReadySelectors[i];
      var w := p.ready(sel);
      if w == Ok {
        found := Some(sel);
        assert found.value == ReadySelectors[i];
        break;
      } else if w == Error {
        return Error, None, 0;
      }
      assert ReadySelectors[i..][1..] == ReadySelectors[i + 1..];
      i := i + 1;
    }
    o := Ok;
    sleeps := 1;
  }

  // ---------------------------------------------------------------------------
  // One attempt, and the retry loop
  // ---------------------------------------------------------------------------

  /** Retries after the first attempt. */
  const MaxRetries: nat := 2

  /** What one attempt on tab p ends with: the detail with its comments, no
      detail when the parser finds none, or the exception it raised. */
  function AttemptResult(p: Page, maxComments: int): Reply<Option<NoteDetail>>
  {
    if p.nav != Ok then Raised(Raise(p.nav))
    else if WaitOutcome(p) != Ok then Raised(OtherError)
    else match p.detail
      case Raised(f) => Raised(f)
      case Returned(None) => Returned(None)
      case Returned(Some(d)) =>
        match CommentsResult(p, maxComments)
        case Raised(f) => Raised(f)
        case Returned(cs) => Returned(Some(d.(comments := cs)))
  }

  /** A failed navigation raises its own exception; a timeout comes from the
      navigation, the detail parser or the comment collection (a wait that
      times out is not an error); a detail comes back with the comments
      fetch_comments gives attached. */
  lemma AttemptFacts(p: Page, maxComments: int)
    ensures p.nav != Ok ==> AttemptResult(p, maxComments) == Raised(Raise(p.nav))
    ensures AttemptResult(p, maxComments) == Raised(TimeoutError) ==>
              (p.nav == Timeout || p.detail == Raised(TimeoutError) || (Comment.Scrolls(p) && p.fault == Timeout))
    ensures p.nav == Ok && WaitOutcome(p) == Ok && p.detail == Returned(None) ==>
              AttemptResult(p, maxComments) == Returned(None)
    ensures AttemptResult(p, maxComments).Returned? && AttemptResult(p, maxComments).value.Some? ==>
              p.detail.Returned? && p.detail.value.Some? &&
              CommentsResult(p, maxComments).Returned? &&
              AttemptResult(p, maxComments).value.value ==
              p.detail.value.value.(comments := CommentsResult(p, maxComments).value)
  {
  }

  /** What one attempt hands to its page: the URL it navigates to, and the
      note id it parses the detail for once the page is ready. */
  datatype PageVisit = PageVisit(url: string, parsedId: Option<string>)

  /** One attempt of _fetch_single_note on an open tab: it navigates to
      noteUrl and, once the page is ready, parses the detail for noteId. */
  method Attempt(p: Page, noteId: string, noteUrl: string, maxComments: int)
    returns (r: Reply<Option<NoteDetail>>, ghost visit: PageVisit)
    requires Settles(p)
    ensures r == AttemptResult(p, maxComments)
    ensures visit.url == noteUrl
    ensures visit.parsedId == if p.nav == Ok && WaitOutcome(p) == Ok then Some(noteId) else None
  {
    visit := PageVisit(noteUrl, None);
    if p.nav != Ok {
      return Raised(Raise(p.nav)), visit;
    }
    var ready, found, sleeps := WaitForContent(p);
    if ready != Ok {
      return Raised(OtherError), visit;
    }
    visit := PageVisit(noteUrl, Some(noteId));
    match p.detail {
      case Raised(f) =>
        r := Raised(f);
      case Returned(detail) =>
        if detail.None? {
          return Returned(None), visit;
        }
        var comments, scrolls := FetchComments(p, maxComments);
        match comments {
          case Raised(f) =>
            r := Raised(f);
          case Returned(cs) =>
            r := Returned(Some(detail.value.(comments := cs)));
        }
    }
  }

  /** How a fetch ends and how many tabs it asked for. */
  datatype Fetch = Fetch(result: Reply<Option<NoteDetail>>, attempts: nat)

  /** The attempt loop from attempt number `attempt` on, with tab start+k
      answering the k-th new_page call: a timeout is retried while retries
      remain and gives no detail after the last one; any other exception
      gives no detail at once; a failing new_page propagates. */
  function Retrying(tabs: nat -> Reply<Page>, start: nat, attempt: nat, maxComments: int): (f: Fetch)
    requires attempt <= MaxRetries
    ensures attempt < f.attempts <= MaxRetries + 1
    decreases MaxRetries - attempt
  {
    match tabs(start + attempt)
    case Raised(e) => Fetch(Raised(e), attempt + 1)
    case Returned(p) =>
      var a := AttemptResult(p, maxComments);
      if a == Raised(TimeoutError) then
        if attempt < MaxRetries then Retrying(tabs, start, attempt + 1, maxComments)
        else Fetch(Returned(None), attempt + 1)
      else if a.Raised? then Fetch(Returned(None), attempt + 1)
      else Fetch(a, attempt + 1)
  }

  /** Only a timed-out attempt is followed by another one, and only a
      failing new_page lets an exception out. */
  lemma {:induction false} RetryingFacts(tabs: nat -> Reply<Page>, start: nat, attempt: nat, maxComments: int)
    requires attempt <= MaxRetries
    ensures var f := Retrying(tabs, start, attempt, maxComments);
            f.result.Raised? ==>
              (tabs(start + f.attempts - 1).Raised? && f.result.failure == tabs(start + f.attempts - 1).failure)
    ensures var f := Retrying(tabs, start, attempt, maxComments);
            forall n :: start + attempt <= n < start + f.attempts - 1 ==>
              tabs(n).Returned? && AttemptResult(tabs(n).value, maxComments) == Raised(TimeoutError)
    decreases MaxRetries - attempt
  {
    match tabs(start + attempt) {
      case Raised(e) =>
      case Returned(p) =>
        if AttemptResult(p, maxComments) == Raised(TimeoutError) && attempt < MaxRetries {
          RetryingFacts(tabs, start, attempt + 1, maxComments);
        }
    }
  }

  /** _fetch_single_note: up to MaxRetries + 1 attempts, each on a fresh tab
      that is closed before the next attempt or the return; a one-second
      back-off precedes every retry. */
  method FetchNote(browser: Browser, noteId: string, noteUrl: string, maxComments: int)
    returns (r: Reply<Option<NoteDetail>>, attempts: nat, backoffs: nat, ghost visits: seq<PageVisit>)
    requires browser.Settled()
    modifies browser
    ensures Fetch(r, attempts) == Retrying(browser.tabs, old(browser.requested), 0, maxComments)
    ensures browser.requested == old(browser.requested) + attempts
    ensures browser.openPages == old(browser.openPages)
    ensures browser.closed == old(browser.closed) + attempts - (if r.Raised? then 1 else 0)
    ensures backoffs + 1 == attempts
    ensures |visits| == browser.closed - old(browser.closed)
    ensures forall k :: 0 <= k < |visits| ==> visits[k].url == noteUrl
    ensures forall k :: 0 <= k < |visits| && visits[k].parsedId.Some? ==> visits[k].parsedId.value == noteId
    ensures r.Returned? && r.value.Some? ==> |visits| == attempts && visits[|visits| - 1].parsedId == Some(noteId)
  {
    ghost var start := browser.requested;
    attempts := 0;
    backoffs := 0;
    visits := [];
    while true
      invariant attempts <= MaxRetries && backoffs == attempts
      invariant browser.requested == start + attempts
      invariant browser.openPages == old(browser.openPages)
      invariant browser.closed == old(browser.closed) + attempts
      invariant |visits| == attempts
      invariant forall k :: 0 <= k < |visits| ==> visits[k].url == noteUrl
      invariant forall k :: 0 <= k < |visits| && visits[k].parsedId.Some? ==> visits[k].parsedId.value == noteId
      invariant Retrying(browser.tabs, start, 0, maxComments) == Retrying(browser.tabs, start, attempts, maxComments)
      decreases MaxRetries - attempts
    {
      var tab := browser.NewPage();
      match tab {
        case Raised(e) =>
          return Raised(e), attempts + 1, backoffs, visits;
        case Returned(p) =>
          assert Settles(p) by {
            assert browser.tabs(browser.requested - 1) == tab;
          }
          var a, visit := Attempt(p, noteId, noteUrl, maxComments);
          visits := visits + [visit];
          browser.ClosePage();
          if a == Raised(TimeoutError) {
            if attempts < MaxRetries {
              backoffs := backoffs + 1;
              attempts := attempts + 1;
            } else {
              return Returned(None), attempts + 1, backoffs, visits;
            }
          } else if a.Raised? {
            return Returned(None), attempts + 1, backoffs, visits;
          } else {
            return a, attempts + 1, backoffs, visits;
          }
      }
    }
  }

  /** fetch_single_note: a URL without a note id gives no detail and opens
      no tab; otherwise the attempt loop runs with the extracted id and the
      unchanged URL: every page it opens navigates to noteUrl and is parsed
      for that id. */
  method FetchSingleNote(browser: Browser, noteUrl: string, maxComments: int)
    returns (r: Reply<Option<NoteDetail>>, attempts: nat, ghost visits: seq<PageVisit>)
    requires browser.Settled()
    modifies browser
    ensures ExtractNoteId(noteUrl).None? ==> r == Returned(None) && attempts == 0 && visits == []
    ensures ExtractNoteId(noteUrl).Some? ==>
              Fetch(r, attempts) == Retrying(browser.tabs, old(browser.requested), 0, maxComments)
    ensures browser.requested == old(browser.requested) + attempts
    ensures browser.openPages == old(browser.openPages)
    ensures forall k :: 0 <= k < |visits| ==> visits[k].url == noteUrl
    ensures forall k :: 0 <= k < |visits| && visits[k].parsedId.Some? ==> visits[k].parsedId == ExtractNoteId(noteUrl)
    ensures r.Returned? && r.value.Some? ==> visits != [] && visits[|visits| - 1].parsedId == ExtractNoteId(noteUrl)
  {
    var noteId := ExtractNoteId(noteUrl);
    if noteId.None? {
      return Returned(None), 0, [];
    }
    var backoffs;
    r, attempts, backoffs, visits := FetchNote(browser, noteId.value, noteUrl, maxComments);
  }

  /** An attempt that does not time out is the last one. */
  lemma OnlyTimeoutsRetry(tabs: nat -> Reply<Page>, start: nat, maxComments: int)
    requires tabs(start).Returned?
    requires AttemptResult(tabs(start).value, maxComments) != Raised(TimeoutError)
    ensures Retrying(tabs, start, 0, maxComments).attempts == 1
    ensures Retrying(tabs, start, 0, maxComments).result ==
              match AttemptResult(tabs(start).value, maxComments)
              case Raised(_) => Returned(None)
              case Returned(x) => Returned(x)
  {
  }

  /** Three timeouts in a row use up the retries and give no detail. */
  lemma TimeoutsExhaust(tabs: nat -> Reply<Page>, start: nat, maxComments: int)
    requires forall n :: start <= n <= start + MaxRetries ==>
               tabs(n).Returned? && AttemptResult(tabs(n).value, maxComments) == Raised(TimeoutError)
    ensures Retrying(tabs, start, 0, maxComments) == Fetch(Returned(None), MaxRetries + 1)
  {
    assert tabs(start + 0).Returned? && tabs(start + 1).Returned? && tabs(start + 2).Returned?;
  }

  // ---------------------------------------------------------------------------
  // The batch loop
  // ---------------------------------------------------------------------------

  /** One search result as the batch sees it; a missing key reads as "". */
  datatype Item = Item(noteId: string, noteUrl: string)

  /** An item is fetched only when it has both an id and a URL. */
  predicate Wanted(item: Item) {
    item.noteId != [] && item.noteUrl != []
  }

  /** The positions below n of the items that are fetched, in order. */
  function WantedBelow(items: seq<Item>, n: nat): seq<nat>
    requires n <= |items|
  {
    if n == 0 then []
    else WantedBelow(items, n - 1) + (if Wanted(items[n - 1]) then [n - 1] else [])
  }

  predicate Increasing(s: seq<nat>) {
    forall a, b :: 0 <= a < b < |s| ==> s[a] < s[b]
  }

  /** The fetched positions are listed in increasing order. */
  lemma {:induction false} WantedInOrder(items: seq<Item>, n: nat)
    requires n <= |items|
    ensures Increasing(WantedBelow(items, n))
  {
    if n > 0 {
      WantedInOrder(items, n - 1);
      PositionsBelow(items, n - 1);
      var earlier := WantedBelow(items, n - 1);
      var r := WantedBelow(items, n);
      if Wanted(items[n - 1]) {
        assert r == earlier + [n - 1];
        forall a, b | 0 <= a < b < |r|
          ensures r[a] < r[b]
        {
          assert r[a] == earlier[a];
          if b < |earlier| {
            assert r[b] == earlier[b];
          } else {
            assert earlier[a] in earlier;
          }
        }
      } else {
        assert r == earlier;
      }
    }
  }

  /** The positions below n of the fetched items that are followed by a
      delay: all but the last input. */
  function DelayedBelow(items: seq<Item>, n: nat): seq<nat>
    requires n <= |items|
  {
    if n == 0 then []
    else DelayedBelow(items, n - 1) + (if Wanted(items[n - 1]) && n - 1 < |items| - 1 then [n - 1] else [])
  }

  /** Exactly the wanted positions below n are fetched, and exactly those of
      them that are not the last input are followed by a delay. */
  lemma {:induction false} PositionsBelow(items: seq<Item>, n: nat)
    requires n <= |items|
    ensures forall k: nat :: k in WantedBelow(items, n) <==> k < n && Wanted(items[k])
    ensures forall k: nat :: k in DelayedBelow(items, n) <==> k < n && Wanted(items[k]) && k < |items| - 1
  {
    if n > 0 {
      PositionsBelow(items, n - 1);
    }
  }

  /** How the batch from item i on ends and how many tabs it asks for. */
  datatype Batch = Batch(result: Reply<seq<NoteDetail>>, used: nat)

  /** The fetch of one note that starts at each tab number. */
  function Fetches(tabs: nat -> Reply<Page>, maxComments: int): nat -> Fetch {
    (n: nat) => Retrying(tabs, n, 0, maxComments)
  }

  /** The batch from item i on, where `fetch` gives how a note fetch that
      starts at tab `next` ends: skipped items cost nothing, a fetch that
      gives no detail adds nothing, and a failing new_page ends the whole
      batch. */
  function BatchFrom(fetch: nat -> Fetch, next: nat, items: seq<Item>, i: nat): (b: Batch)
    requires i <= |items|
    decreases |items| - i
  {
    if i == |items| then Batch(Returned([]), 0)
    else if !Wanted(items[i]) then BatchFrom(fetch, next, items, i + 1)
    else
      var f := fetch(next);
      if f.result.Raised? then Batch(Raised(f.result.failure), f.attempts)
      else
        var rest := BatchFrom(fetch, next + f.attempts, items, i + 1);
        var got := if f.result.value.Some? then [f.result.value.value] else [];
        match rest.result
        case Raised(e) => Batch(Raised(e), f.attempts + rest.used)
        case Returned(ds) => Batch(Returned(got + ds), f.attempts + rest.used)
  }

  /** The details already collected in front of what the rest of the batch
      gives. */
  function After(done: seq<NoteDetail>, used: nat, b: Batch): Batch {
    match b.result
    case Raised(e) => Batch(Raised(e), used + b.used)
    case Returned(ds) => Batch(Returned(done + ds), used + b.used)
  }

  /** A fetch that returns moves the batch on to the next item. */
  lemma BatchStep(fetch: nat -> Fetch, next: nat, items: seq<Item>, i: nat, done: seq<NoteDetail>, used: nat)
    requires i < |items| && Wanted(items[i])
    requires fetch(next).result.Returned?
    ensures var f := fetch(next);
            var got := if f.result.value.Some? then [f.result.value.value] else [];
            After(done, used, BatchFrom(fetch, next, items, i)) ==
            After(done + got, used + f.attempts, BatchFrom(fetch, next + f.attempts, items, i + 1))
  {
    var f := fetch(next);
    var got := if f.result.value.Some? then [f.result.value.value] else [];
    var rest := BatchFrom(fetch, next + f.attempts, items, i + 1);
    match rest.result {
      case Raised(e) =>
      case Returned(ds) => assert done + (got + ds) == done + got + ds;
    }
  }

  /** A skipped item costs nothing. */
  lemma BatchSkip(fetch: nat -> Fetch, next: nat, items: seq<Item>, i: nat)
    requires i < |items| && !Wanted(items[i])
    ensures BatchFrom(fetch, next, items, i) == BatchFrom(fetch, next, items, i + 1)
  {
  }

  /** A fetch whose new_page raises ends the batch with that exception. */
  lemma BatchRaise(fetch: nat -> Fetch, next: nat, items: seq<Item>, i: nat, done: seq<NoteDetail>, used: nat)
    requires i < |items| && Wanted(items[i])
    requires fetch(next).result.Raised?
    ensures var f := fetch(next);
            After(done, used, BatchFrom(fetch, next, items, i)) ==
            Batch(Raised(f.result.failure), used + f.attempts)
  {
  }

  lemma AfterNothing(b: Batch)
    ensures After([], 0, b) == b
  {
    match b.result {
      case Raised(e) =>
      case Returned(ds) => assert [] + ds == ds;
    }
  }

  /** Fetches the wanted item i of the batch and adds its detail, if any, to
      the details collected so far; the batch state before and after agree
      on how the whole batch ends. */
  method Visit(browser: Browser, items: seq<Item>, i: nat, maxComments: int, done: seq<NoteDetail>, ghost start: nat)
    returns (failure: Option<Failure>, more: seq<NoteDetail>)
    requires browser.Settled()
    requires i < |items| && Wanted(items[i])
    requires browser.requested >= start
    modifies browser
    ensures browser.requested >= old(browser.requested)
    ensures browser.openPages == old(browser.openPages)
    ensures failure.None? ==>
              After(more, browser.requested - start, BatchFrom(Fetches(browser.tabs, maxComments), browser.requested, items, i + 1)) ==
              After(done, old(browser.requested) - start, BatchFrom(Fetches(browser.tabs, maxComments), old(browser.requested), items, i))
    ensures failure.Some? ==>
              After(done, old(browser.requested) - start, BatchFrom(Fetches(browser.tabs, maxComments), old(browser.requested), items, i)) ==
              Batch(Raised(failure.value), browser.requested - start)
  {
    ghost var fetch := Fetches(browser.tabs, maxComments);
    ghost var next := browser.requested;
    var backoffs;
    var detail, attempts;
    ghost var visits;
    detail, attempts, backoffs, visits := FetchNote(browser, items[i].noteId, items[i].noteUrl, maxComments);
    assert fetch(next) == Fetch(detail, attempts);
    if detail.Raised? {
      BatchRaise(fetch, next, items, i, done, next - start);
      return Some(detail.failure), done;
    }
    BatchStep(fetch, next, items, i, done, next - start);
    var got := if detail.value.Some? then [detail.value.value] else [];
    failure := None;
    more := done + got;
  }

  /** fetch_note_details: fetches every wanted item in input order, keeps the
      details that come back, and delays after each fetched item except the
      last input. */
  method FetchNoteDetails(browser: Browser, items: seq<Item>, maxComments: int)
    returns (r: Reply<seq<NoteDetail>>, fetched: seq<nat>, delayed: seq<nat>)
    requires browser.Settled()
    modifies browser
    ensures browser.requested >= old(browser.requested)
    ensures Batch(r, browser.requested - old(browser.requested)) ==
              BatchFrom(Fetches(browser.tabs, maxComments), old(browser.requested), items, 0)
    ensures browser.openPages == old(browser.openPages)
    ensures r.Returned? ==> fetched == WantedBelow(items, |items|) && delayed == DelayedBelow(items, |items|)
  {
    ghost var start := browser.requested;
    ghost var fetch := Fetches(browser.tabs, maxComments);
    var results: seq<NoteDetail> := [];
    fetched := [];
    delayed := [];
    var i := 0;
    AfterNothing(BatchFrom(fetch, start, items, 0));
    while i < |items|
      invariant 0 <= i <= |items|
      invariant browser.requested >= start
      invariant browser.openPages == old(browser.openPages)
      invariant After(results, browser.requested - start, BatchFrom(fetch, browser.requested, items, i)) ==
                BatchFrom(fetch, start, items, 0)
      invariant fetched == WantedBelow(items, i) && delayed == DelayedBelow(items, i)
    {
      if !Wanted(items[i]) {
        BatchSkip(fetch, browser.requested, items, i);
        assert WantedBelow(items, i + 1) == fetched && DelayedBelow(items, i + 1) == delayed;
        i := i + 1;
        continue;
      }
      var failure;
      failure, results := Visit(browser, items, i, maxComments, results, start);
      fetched := fetched + [i];
      if failure.Some? {
        r := Raised(failure.value);
        return;
      }
      if i < |items| - 1 {
        delayed := delayed + [i];
      }
      assert WantedBelow(items, i + 1) == fetched && DelayedBelow(items, i + 1) == delayed;
      i := i + 1;
    }
    assert results + [] == results;
    r := Returned(results);
  }
}
