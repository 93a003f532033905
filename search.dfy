/** The keyword search of src/search.py: find the card selector, scroll the
    listing until enough cards are loaded or loading stalls, then parse the
    first max_count cards. */
module Search {
  import opened Wrappers
  import opened Parser
  import opened Driver
  import opened Harvest

  /** The card selectors, in the order they are tried. */
  const CardSelectors: seq<string> :=
    ["section.note-item", "div.note-item", "[class*='NoteItem']", ".search-result-list > *"]

  /** The bounds of one listing scroll, in pixels. */
  const ScrollMin: int := 300
  const ScrollMax: int := 600

  /** Consecutive rounds without a new card after which scrolling stops. */
  const StaleLimit: nat := 2

  /** The card selector a search settles on. */
  method DetectCardSelector(p: Page) returns (r: Option<string>)
    ensures r == Detected(p, CardSelectors)
  {
    r := DetectSelector(p, CardSelectors);
  }

  /** Scrolls the listing with the mouse wheel until the card count meets the
      target or has not grown for StaleLimit rounds in a row. */
  method ScrollToLoad(p: Page, target: int) returns (log: seq<Round>)
    requires Settles(p)
    ensures IsRun(p, target, StaleLimit, log)
    ensures DistancesWithin(log, ScrollMin, ScrollMax)
    ensures forall k :: 0 <= k < |log| ==> log[k].target == Wheel
  {
    var stale: nat := 0;
    log := [];
    while true
      invariant Ongoing(p, target, StaleLimit, log)
      invariant stale == StaleAfter(log, |log|) < StaleLimit
      invariant DistancesWithin(log, ScrollMin, ScrollMax)
      invariant forall k :: 0 <= k < |log| ==> log[k].target == Wheel
      decreases p.ceiling - p.counts(2 * |log|), StaleLimit - stale
    {
      var n := |log|;
      var current := p.counts(2 * n);
      if current >= target {
        StopAtTarget(p, target, StaleLimit, log);
        break;
      }
      var px :| ScrollMin <= px <= ScrollMax;
      var after := p.counts(2 * n + 1);
      var round := Round(current, after, px, Wheel);
      Step(p, target, StaleLimit, log, round);
      DistancesExtend(log, round, ScrollMin, ScrollMax);
      CountsGrow(p, n);
      log := log + [round];
      assert |log| == n + 1;
      if after <= current {
        stale := stale + 1;
        if stale >= StaleLimit {
          break;
        }
      } else {
        stale := 0;
      }
    }
  }

  /** What parse_search_card gives for each card, in card order. */
  function Parses(cards: seq<Card>): (r: seq<Option<SummaryRecord>>)
    ensures |r| == |cards|
    ensures forall i :: 0 <= i < |cards| ==> r[i] == CardRecord(cards[i])
  {
    seq(|cards|, i requires 0 <= i < |cards| => CardRecord(cards[i]))
  }

  /** The search gets as far as scrolling: navigation succeeded and a card
      selector was found. */
  predicate Scrolls(p: Page) {
    p.nav == Ok && Detected(p, CardSelectors).Some?
  }

  /** The records a search returns on tab p: nothing when navigation fails,
      no card selector matches or collecting the cards raises, and otherwise
      the successful parses of the first maxCount cards. */
  function SearchResult(p: Page, maxCount: int): (r: seq<SummaryRecord>)
    ensures !Scrolls(p) || p.fault != Ok ==> r == []
    ensures |r| <= SliceEnd(|p.cards|, maxCount)
    ensures maxCount >= 0 ==> |r| <= maxCount
  {
    if !Scrolls(p) || p.fault != Ok then []
    else Somes(Parses(Head(p.cards, maxCount)))
  }

  /** Every record returned is the parse of one of the first maxCount cards,
      and every such successful parse is returned. */
  lemma SearchResultMembers(p: Page, maxCount: int, x: SummaryRecord)
    requires Scrolls(p) && p.fault == Ok
    ensures x in SearchResult(p, maxCount) <==>
              exists i :: 0 <= i < SliceEnd(|p.cards|, maxCount) && CardRecord(p.cards[i]) == Some(x)
  {
    var n := SliceEnd(|p.cards|, maxCount);
    var head := Head(p.cards, maxCount);
    var parses := Parses(head);
    assert SearchResult(p, maxCount) == Somes(parses);
    SomesMembers(parses, x);
    if x in Somes(parses) {
      var i :| 0 <= i < |parses| && parses[i] == Some(x);
      assert head[i] == p.cards[i];
    } else {
      forall i | 0 <= i < n
        ensures CardRecord(p.cards[i]) != Some(x)
      {
        assert head[i] == p.cards[i];
        assert parses[i] in parses;
      }
    }
  }

  /** When every one of the first maxCount cards parses, the search returns
      all of them, in card order. */
  lemma AllCardsParse(p: Page, maxCount: int)
    requires Scrolls(p) && p.fault == Ok
    requires forall i :: 0 <= i < SliceEnd(|p.cards|, maxCount) ==> CardRecord(p.cards[i]).Some?
    ensures |SearchResult(p, maxCount)| == SliceEnd(|p.cards|, maxCount)
    ensures forall i :: 0 <= i < SliceEnd(|p.cards|, maxCount) ==>
              Some(SearchResult(p, maxCount)[i]) == CardRecord(p.cards[i])
  {
    SomesAll(Parses(Head(p.cards, maxCount)));
  }

  lemma ParsesNext(cards: seq<Card>, i: nat)
    requires i < |cards|
    ensures Parses(cards[..i + 1]) == Parses(cards[..i]) + [CardRecord(cards[i])]
  {
    var longer := Parses(cards[..i + 1]);
    var joined := Parses(cards[..i]) + [CardRecord(cards[i])];
    forall k | 0 <= k < i + 1
      ensures longer[k] == joined[k]
    {
      if k < i {
        assert cards[..i + 1][k] == cards[..i][k];
      } else {
        assert cards[..i + 1][k] == cards[i];
      }
    }
    assert longer == joined;
  }

  /** Parses each card in turn and keeps those that parse. */
  method ParseCards(cards: seq<Card>) returns (records: seq<SummaryRecord>)
    ensures records == Somes(Parses(cards))
  {
    records := [];
    for i := 0 to |cards|
      invariant records == Somes(Parses(cards[..i]))
    {
      var parsed := ParseSearchCard(cards[i]);
      ParsesNext(cards, i);
      SomesAppend(Parses(cards[..i]), [parsed]);
      if parsed.Some? {
        records := records + [parsed.value];
      }
    }
    assert cards[..|cards|] == cards;
  }

  /** search_notes: opens a tab, navigates, detects the card selector,
      scrolls, collects and parses the cards, and closes the tab on every
      path. A failure of new_page itself propagates. */
  method SearchNotes(browser: Browser, maxCount: int) returns (r: Reply<seq<SummaryRecord>>, scrolls: seq<Round>)
    requires browser.Settled()
    modifies browser
    ensures old(browser.Next()).Raised? ==> r == Raised(old(browser.Next()).failure)
    ensures old(browser.Next()).Returned? ==> r == Returned(SearchResult(old(browser.Next()).value, maxCount))
    ensures old(browser.Next()).Returned? && Scrolls(old(browser.Next()).value) ==>
              IsRun(old(browser.Next()).value, maxCount, StaleLimit, scrolls)
    ensures old(browser.Next()).Returned? && !Scrolls(old(browser.Next()).value) ==> scrolls == []
    ensures browser.requested == old(browser.requested) + 1
    ensures browser.openPages == old(browser.openPages)
    ensures browser.closed == old(browser.closed) + (if old(browser.Next()).Returned? then 1 else 0)
  {
    scrolls := [];
    var tab := browser.NewPage();
    match tab {
      case Raised(f) =>
        r := Raised(f);
      case Returned(p) =>
        assert Settles(p) by {
          assert browser.tabs(browser.requested - 1) == tab;
        }
        var records: seq<SummaryRecord> := [];
        if p.nav == Ok {
          var sel := DetectCardSelector(p);
          if sel.Some? {
            scrolls := ScrollToLoad(p, maxCount);
            if p.fault == Ok {
              records := ParseCards(Head(p.cards, maxCount));
            }
          }
        }
        browser.ClosePage();
        r := Returned(records);
    }
  }

  /** A card count that never changes and stays below the target gives
      exactly two scrolls. */
  lemma StaticListingScrollsTwice(p: Page, target: int, log: seq<Round>)
    requires forall i: nat :: p.counts(i) == p.counts(0)
    requires p.counts(0) < target
    requires IsRun(p, target, StaleLimit, log)
    ensures |log| == 2
  {
    StaticCountRounds(p, target, StaleLimit, log);
  }
}
