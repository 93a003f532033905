/** The comment harvester of src/comment.py: on a loaded note page, find the
    comment selector, scroll the comment container until enough comments are
    loaded or loading stalls, then parse the first max_count comments. */
module Comment {
  import opened Wrappers
  import opened Driver
  import opened Harvest

  /** The comment item selectors, in the order they are tried. */
  const CommentSelectors: seq<string> :=
    [".parent-comment > .comment-item", ".comments-container .comment-item", ".comment-item"]

  /** The scroll containers, in the order they are tried. */
  const ScrollerSelectors: seq<string> := [".note-scroller", ".interaction-container"]

  /** The bounds of one comment scroll, in pixels. */
  const ScrollMin: int := 200
  const ScrollMax: int := 400

  /** Consecutive rounds without a new comment after which scrolling stops. */
  const StaleLimit: nat := 3

  /** The comment selector the harvester settles on. */
  method DetectCommentSelector(p: Page) returns (r: Option<string>)
    ensures r == Detected(p, CommentSelectors)
  {
    r := DetectSelector(p, CommentSelectors);
  }

  /** Where a round scrolls when the containers in `present` exist: the first
      container in list order, else the page itself. */
  function ScrollTargetFor(present: set<string>): Target {
    if ScrollerSelectors[0] in present then Container(ScrollerSelectors[0])
    else if ScrollerSelectors[1] in present then Container(ScrollerSelectors[1])
    else Wheel
  }

  /** The page itself is scrolled exactly when no container exists, and
      otherwise the first existing container in list order. */
  lemma ScrollTargetFacts(present: set<string>)
    ensures var t := ScrollTargetFor(present);
      (t == Wheel <==> forall j :: 0 <= j < |ScrollerSelectors| ==> ScrollerSelectors[j] !in present) &&
      (t.Container? ==> exists k :: 0 <= k < |ScrollerSelectors| && t.selector == ScrollerSelectors[k] &&
                          t.selector in present &&
                          forall j :: 0 <= j < k ==> ScrollerSelectors[j] !in present)
  {
    var t := ScrollTargetFor(present);
    if t.Container? {
      if ScrollerSelectors[0] in present {
        assert t.selector == ScrollerSelectors[0];
      } else {
        assert t.selector == ScrollerSelectors[1];
      }
    }
  }

  /** The inner loop of one round: scroll the first container found, and
      fall back to a wheel event when none was. */
  method ChooseScroller(present: set<string>) returns (t: Target)
    ensures t == ScrollTargetFor(present)
  {
    var scrolled := false;
    t := Wheel;
    var i := 0;
    while i < |ScrollerSelectors|
      invariant 0 <= i <= |ScrollerSelectors|
      invariant !scrolled && t == Wheel
      invariant forall j :: 0 <= j < i ==> ScrollerSelectors[j] !in present
    {
      var sel := ScrollerSelectors[i];
      if sel in present {
        t := Container(sel);
        scrolled := true;
        break;
      }
      i := i + 1;
    }
    if !scrolled {
      t := Wheel;
    }
  }

  /** Scrolls the comment area until the comment count meets the target or
      has not grown for StaleLimit rounds in a row; round k scrolls whatever
      container exists at that moment. */
  method ScrollComments(p: Page, target: int) returns (log: seq<Round>)
    requires Settles(p)
    ensures IsRun(p, target, StaleLimit, log)
    ensures DistancesWithin(log, ScrollMin, ScrollMax)
    ensures Targeted(p, log)
  {
    var stale: nat := 0;
    log := [];
    while true
      invariant Scrolling(p, target, log)
      invariant stale == StaleAfter(log, |log|) < StaleLimit
      decreases p.ceiling - p.counts(2 * |log|), StaleLimit - stale
    {
      var n := |log|;
      var current := p.counts(2 * n);
      if current >= target {
        StopAtTarget(p, target, StaleLimit, log);
        break;
      }
      var round := ScrollRound(p, n);
      ScrollingStep(p, target, log, round);
      CountsGrow(p, n);
      log := log + [round];
      assert |log| == n + 1;
      if round.after <= round.before {
        stale := stale + 1;
        if stale >= StaleLimit {
          break;
        }
      } else {
        stale := 0;
      }
    }
  }

  /** Round n: a random distance, the container that exists now (or the
      page), and the count read after the scroll. */
  method ScrollRound(p: Page, n: nat) returns (round: Round)
    ensures round.before == p.counts(2 * n) && round.after == p.counts(2 * n + 1)
    ensures ScrollMin <= round.distance <= ScrollMax
    ensures round.target == ScrollTargetFor(p.scrollers(n))
  {
    var px :| ScrollMin <= px <= ScrollMax;
    var where := ChooseScroller(p.scrollers(n));
    round := Round(p.counts(2 * n), p.counts(2 * n + 1), px, where);
  }

  /** Round k scrolled the container that existed at that moment. */
  predicate Targeted(p: Page, log: seq<Round>) {
    forall k :: 0 <= k < |log| ==> log[k].target == ScrollTargetFor(p.scrollers(k))
  }

  /** The state of the comment scroll between rounds. */
  predicate Scrolling(p: Page, target: int, log: seq<Round>) {
    Ongoing(p, target, StaleLimit, log) && DistancesWithin(log, ScrollMin, ScrollMax) && Targeted(p, log)
  }

  /** One more comment round keeps the distances and targets and either goes
      on or completes the run. */
  lemma ScrollingStep(p: Page, target: int, log: seq<Round>, r: Round)
    requires Scrolling(p, target, log)
    requires r.before == p.counts(2 * |log|) && r.after == p.counts(2 * |log| + 1) && r.before < target
    requires ScrollMin <= r.distance <= ScrollMax && r.target == ScrollTargetFor(p.scrollers(|log|))
    ensures StaleAfter(log + [r], |log| + 1) == if Grew(r) then 0 else StaleAfter(log, |log|) + 1
    ensures StaleAfter(log + [r], |log| + 1) < StaleLimit ==> Scrolling(p, target, log + [r])
    ensures IsRun(p, target, StaleLimit, log + [r]) || StaleAfter(log + [r], |log| + 1) < StaleLimit
    ensures DistancesWithin(log + [r], ScrollMin, ScrollMax) && Targeted(p, log + [r])
  {
    Step(p, target, StaleLimit, log, r);
    DistancesExtend(log, r, ScrollMin, ScrollMax);
    assert (log + [r])[|log|] == r;
  }

  /** A comment count that never changes and stays below the target gives
      exactly three scroll rounds. */
  lemma StaticCommentsScrollThrice(p: Page, target: int, log: seq<Round>)
    requires forall i: nat :: p.counts(i) == p.counts(0)
    requires p.counts(0) < target
    requires IsRun(p, target, StaleLimit, log)
    ensures |log| == 3
  {
    StaticCountRounds(p, target, StaleLimit, log);
  }

  /** The harvest reaches the scrolling stage: a comment selector was found. */
  predicate Scrolls(p: Page) {
    Detected(p, CommentSelectors).Some?
  }

  /** What fetch_comments gives on page p: no comments when no selector
      matches; the exception when collecting the comments raises (it is not
      caught here); otherwise the successful parses of the first maxCount
      comment elements, in order. */
  function CommentsResult(p: Page, maxCount: int): Reply<seq<CommentRecord>>
  {
    if !Scrolls(p) then Returned([])
    else if p.fault != Ok then Raised(Raise(p.fault))
    else
      Returned(Somes(Head(p.comments, maxCount)))
  }

  /** No selector gives no comments; a failing collection raises; otherwise
      at most maxCount comments come back, each the parse of one of the
      first maxCount comment elements. */
  lemma CommentsResultFacts(p: Page, maxCount: int)
    ensures !Scrolls(p) ==> CommentsResult(p, maxCount) == Returned([])
    ensures Scrolls(p) && p.fault != Ok ==> CommentsResult(p, maxCount) == Raised(Raise(p.fault))
    ensures var r := CommentsResult(p, maxCount);
            r.Returned? ==> |r.value| <= SliceEnd(|p.comments|, maxCount) && (maxCount >= 0 ==> |r.value| <= maxCount)
  {
  }

  /** Every comment returned is the parse of one of the first maxCount
      comment elements, and every such successful parse is returned. */
  lemma CommentsResultMembers(p: Page, maxCount: int, x: CommentRecord)
    requires Scrolls(p) && p.fault == Ok
    ensures x in CommentsResult(p, maxCount).value <==>
              exists i :: 0 <= i < SliceEnd(|p.comments|, maxCount) && p.comments[i] == Some(x)
  {
    var head := Head(p.comments, maxCount);
    SomesMembers(head, x);
    if Some(x) in head {
      var i :| 0 <= i < |head| && head[i] == Some(x);
      assert p.comments[i] == Some(x);
    }
  }

  /** Keeps the comments that parse, in order. */
  method KeepParsed(parses: seq<Option<CommentRecord>>) returns (records: seq<CommentRecord>)
    ensures records == Somes(parses)
  {
    records := [];
    for i := 0 to |parses|
      invariant records == Somes(parses[..i])
    {
      assert parses[..i + 1] == parses[..i] + [parses[i]];
      SomesAppend(parses[..i], [parses[i]]);
      if parses[i].Some? {
        records := records + [parses[i].value];
      }
    }
    assert parses[..|parses|] == parses;
  }

  /** fetch_comments: detect the comment selector, scroll, collect and parse.
      No scrolling happens when no selector is found. */
  method FetchComments(p: Page, maxCount: int) returns (r: Reply<seq<CommentRecord>>, scrolls: seq<Round>)
    requires Settles(p)
    ensures r == CommentsResult(p, maxCount)
    ensures !Scrolls(p) ==> scrolls == []
    ensures Scrolls(p) ==> IsRun(p, maxCount, StaleLimit, scrolls)
  {
    scrolls := [];
    var sel := DetectCommentSelector(p);
    if sel.None? {
      return Returned([]), scrolls;
    }
    scrolls := ScrollComments(p, maxCount);
    if p.fault != Ok {
      return Raised(Raise(p.fault)), scrolls;
    }
    var records := KeepParsed(Head(p.comments, maxCount));
    r := Returned(records);
  }
}
