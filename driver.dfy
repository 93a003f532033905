/** The browser as the crawler sees it. Every driver call is an oracle: a
    page is the record of what each call on it answers, and the browser
    manager hands out the pages it is asked for and counts them. */
module Driver {
  import opened Wrappers
  import opened Parser

  /** How a navigation or a wait ends. */
  datatype Outcome = Ok | Timeout | Error

  /** The exception a failed outcome raises. */
  function Raise(o: Outcome): (f: Failure)
    requires o != Ok
    ensures f == TimeoutError <==> o == Timeout
  {
    if o == Timeout then TimeoutError else OtherError
  }

  /** How wait_for_selector followed by query_selector_all ends for one
      selector: the number of matches, or the exception the wait raised. */
  datatype Probe = Matched(count: nat) | ProbeTimeout | ProbeError

  /** One parsed comment, as parse_comment returns it (that parser is not
      part of this model; its result is taken as given). */
  datatype CommentRecord = CommentRecord(commentId: string, noteId: string, content: string)

  /** One parsed note detail, as parse_note_detail returns it, with the
      comment list the fetcher attaches. */
  datatype NoteDetail = NoteDetail(noteId: string, title: string, comments: seq<CommentRecord>)

  /** A browser tab.
      nav        what goto answers;
      probe      what waiting for a selector and counting its matches answers;
      counts     the successive values query_selector_all(...) has for the
                 chosen item selector, numbered in the order they are read;
      ceiling    a bound on those counts (the page holds finitely many items);
      scrollers  the scroll containers present when comment round k scrolls;
      fault      whether anything after selector detection raises: a scroll,
                 a count read inside the scroll loop, or the final collection
                 of the matched elements (each ends the harvest the same way);
      cards      the listing cards that collection returns;
      comments   what parse_comment gives for each comment element;
      ready      what waiting for each ready selector answers;
      detail     what parse_note_detail answers;
      loggedIn   what the login probe answers. */
  datatype Page = Page(
    nav: Outcome,
    probe: string -> Probe,
    counts: nat -> nat,
    ceiling: nat,
    scrollers: nat -> set<string>,
    fault: Outcome,
    cards: seq<Card>,
    comments: seq<Option<CommentRecord>>,
    ready: string -> Outcome,
    detail: Reply<Option<NoteDetail>>,
    loggedIn: Reply<bool>)

  /** The count the page shows at its i-th read. */
  function Level(p: Page, i: nat): nat {
    p.counts(i)
  }

  /** The item count never shrinks and never passes the ceiling: the page only
      loads more items, and it holds finitely many. */
  ghost predicate Settles(p: Page) {
    (forall i: nat, j: nat :: i <= j ==> Level(p, i) <= Level(p, j)) &&
    (forall i: nat :: Level(p, i) <= p.ceiling)
  }

  /** The browser manager: new_page hands out the next tab of a fixed oracle
      sequence, or raises; close gives a tab back. */
  class Browser {
    /** What the n-th call to new_page answers. */
    const tabs: nat -> Reply<Page>
    /** How many times new_page was called. */
    var requested: nat
    /** How many pages are open. */
    var openPages: nat
    /** How many times close was called. */
    var closed: nat

    constructor (tabs: nat -> Reply<Page>)
      requires forall n: nat :: tabs(n).Returned? ==> Settles(tabs(n).value)
      ensures this.tabs == tabs && requested == 0 && openPages == 0 && closed == 0
      ensures Settled()
    {
      this.tabs := tabs;
      requested := 0;
      openPages := 0;
      closed := 0;
    }

    /** Every tab the browser can hand out settles. */
    ghost predicate Settled() {
      forall n: nat :: tabs(n).Returned? ==> Settles(tabs(n).value)
    }

    /** The tab the next new_page call will answer with. */
    function Next(): Reply<Page>
      reads this
    {
      tabs(requested)
    }

    method NewPage() returns (r: Reply<Page>)
      modifies this
      ensures r == old(Next())
      ensures requested == old(requested) + 1
      ensures openPages == old(openPages) + (if r.Returned? then 1 else 0)
      ensures closed == old(closed)
    {
      r := tabs(requested);
      requested := requested + 1;
      if r.Returned? {
        openPages := openPages + 1;
      }
    }

    method ClosePage()
      requires openPages > 0
      modifies this
      ensures requested == old(requested)
      ensures openPages == old(openPages) - 1
      ensures closed == old(closed) + 1
    {
      openPages := openPages - 1;
      closed := closed + 1;
    }
  }
}
