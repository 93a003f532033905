/** What the listing and the comment harvesters share: choosing the first
    selector that matches, the run of scroll rounds driven by a stale
    counter, Python's prefix slice, and dropping failed parses. */
module Harvest {
  import opened Wrappers
  import opened Driver

  // ---------------------------------------------------------------------------
  // First-match selector detection
  // ---------------------------------------------------------------------------

  /** The wait for the selector succeeds and it matches at least one element. */
  predicate Detects(p: Page, sel: string) {
    p.probe(sel).Matched? && p.probe(sel).count > 0
  }

  /** The selector detection settles on: the first detected candidate. */
  function Detected(p: Page, candidates: seq<string>): Option<string>
    decreases |candidates|
  {
    if candidates == [] then None
    else if Detects(p, candidates[0]) then Some(candidates[0])
    else Detected(p, candidates[1..])
  }

  /** Detection fails exactly when no candidate is detected, and otherwise
      settles on the first candidate in list order that is. */
  lemma {:induction false} DetectedFacts(p: Page, candidates: seq<string>)
    ensures Detected(p, candidates).None? <==> forall j :: 0 <= j < |candidates| ==> !Detects(p, candidates[j])
    ensures var r := Detected(p, candidates);
            r.Some? ==> exists k :: 0 <= k < |candidates| && candidates[k] == r.value &&
                          Detects(p, r.value) && forall j :: 0 <= j < k ==> !Detects(p, candidates[j])
    decreases |candidates|
  {
    if candidates != [] && !Detects(p, candidates[0]) {
      var rest := candidates[1..];
      DetectedFacts(p, rest);
      if Detected(p, rest).Some? {
        var k :| 0 <= k < |rest| && rest[k] == Detected(p, rest).value &&
                 Detects(p, rest[k]) && forall j :: 0 <= j < k ==> !Detects(p, rest[j]);
        assert candidates[k + 1] == rest[k];
        assert forall j :: 0 <= j < k + 1 ==> !Detects(p, candidates[j]) by {
          forall j | 0 <= j < k + 1
            ensures !Detects(p, candidates[j])
          {
            if j > 0 {
              assert candidates[j] == rest[j - 1];
            }
          }
        }
      } else {
        forall j | 0 <= j < |candidates|
          ensures !Detects(p, candidates[j])
        {
          if j > 0 {
            assert candidates[j] == rest[j - 1];
          }
        }
      }
    } else if candidates != [] {
      assert candidates[0] == Detected(p, candidates).value;
    }
  }

  /** Tries each candidate in order; a timeout, any other exception and an
      empty match all move on to the next one. */
  method DetectSelector(p: Page, candidates: seq<string>) returns (r: Option<string>)
    ensures r == Detected(p, candidates)
  {
    var i := 0;
    while i < |candidates|
      invariant 0 <= i <= |candidates|
      invariant Detected(p, candidates) == Detected(p, candidates[i..])
    {
      var sel := candidates[i];
      match p.probe(sel) {
        case Matched(count) =>
          if count > 0 {
            return Some(sel);
          }
        case ProbeTimeout =>
        case ProbeError =>
      }
      assert candidates[i..][1..] == candidates[i + 1..];
      i := i + 1;
    }
    return None;
  }

  // ---------------------------------------------------------------------------
  // Scroll rounds
  // ---------------------------------------------------------------------------

  /** Where a round's scroll went: a wheel event on the page, or scrollBy on a
      scroll container. */
  datatype Target = Wheel | Container(selector: string)

  /** One scroll round: the count read before scrolling, the count read after,
      and the scroll action taken. */
  datatype Round = Round(before: nat, after: nat, distance: int, target: Target)

  predicate Grew(r: Round) {
    r.after > r.before
  }

  /** The stale counter after the first k rounds: it counts the rounds since
      the last one in which the count grew. */
  function StaleAfter(log: seq<Round>, k: nat): nat
    requires k <= |log|
  {
    if k == 0 then 0
    else if Grew(log[k - 1]) then 0
    else StaleAfter(log, k - 1) + 1
  }

  /** The stale counter is the length of the trailing run of rounds that did
      not grow. */
  lemma {:induction false} StaleAfterCounts(log: seq<Round>, k: nat)
    requires k <= |log|
    ensures StaleAfter(log, k) <= k
    ensures forall j :: k - StaleAfter(log, k) <= j < k ==> !Grew(log[j])
    ensures StaleAfter(log, k) < k ==> Grew(log[k - StaleAfter(log, k) - 1])
  {
    if k > 0 && !Grew(log[k - 1]) {
      StaleAfterCounts(log, k - 1);
    }
  }

  /** log is the complete run of a harvester on page p: round k reads the
      count 2k before it scrolls and the count 2k+1 after; every round
      starts below the target; the loop went on after every round but the
      last because the stale counter stayed below the threshold; and it
      stopped either because the stale counter reached the threshold or
      because the count read at the top of the next round met the target. */
  predicate IsRun(p: Page, target: int, threshold: nat, log: seq<Round>) {
    (forall k :: 0 <= k < |log| ==>
       log[k].before == p.counts(2 * k) && log[k].after == p.counts(2 * k + 1) && log[k].before < target) &&
    (forall k :: 0 < k < |log| ==> StaleAfter(log, k) < threshold) &&
    ((|log| > 0 && StaleAfter(log, |log|) >= threshold) || p.counts(2 * |log|) >= target)
  }

  /** log is a run still in progress: every round read its counts in turn
      and started below the target, and the stale counter has stayed below
      the threshold after each of them. */
  predicate Ongoing(p: Page, target: int, threshold: nat, log: seq<Round>) {
    (forall k :: 0 <= k < |log| ==>
       log[k].before == p.counts(2 * k) && log[k].after == p.counts(2 * k + 1) && log[k].before < target) &&
    (forall k :: 0 < k <= |log| ==> StaleAfter(log, k) < threshold)
  }

  /** Over round n of a settling page the count does not shrink and stays
      under the ceiling: from the read before the scroll, to the read after
      it, to the read before the next round. */
  lemma CountsGrow(p: Page, n: nat)
    requires Settles(p)
    ensures p.counts(2 * n) <= p.counts(2 * n + 1) <= p.counts(2 * (n + 1)) <= p.ceiling
  {
    assert Level(p, 2 * n) <= Level(p, 2 * n + 1) <= Level(p, 2 * (n + 1)) <= p.ceiling;
  }

  /** A run in progress that reads a count meeting the target is complete. */
  lemma StopAtTarget(p: Page, target: int, threshold: nat, log: seq<Round>)
    requires Ongoing(p, target, threshold, log)
    requires p.counts(2 * |log|) >= target
    ensures IsRun(p, target, threshold, log)
  {
  }

  /** One more round: the stale counter resets when the count grew and goes
      up by one otherwise; the run goes on below the threshold and is
      complete once the threshold is reached. */
  lemma Step(p: Page, target: int, threshold: nat, log: seq<Round>, r: Round)
    requires Ongoing(p, target, threshold, log)
    requires r.before == p.counts(2 * |log|) && r.after == p.counts(2 * |log| + 1) && r.before < target
    ensures StaleAfter(log + [r], |log| + 1) == if Grew(r) then 0 else StaleAfter(log, |log|) + 1
    ensures StaleAfter(log + [r], |log| + 1) < threshold ==> Ongoing(p, target, threshold, log + [r])
    ensures StaleAfter(log + [r], |log| + 1) >= threshold ==> IsRun(p, target, threshold, log + [r])
  {
    var next := log + [r];
    assert next[|log|] == r;
    StaleExtend(log, r, |log|);
    RoundsExtend(p, target, log, r);
    forall k | 0 < k <= |log|
      ensures StaleAfter(next, k) < threshold
    {
      StaleExtend(log, r, k);
    }
  }

  /** Every round of the longer log read its counts in turn and started
      below the target. */
  lemma RoundsExtend(p: Page, target: int, log: seq<Round>, r: Round)
    requires forall k :: 0 <= k < |log| ==>
               log[k].before == p.counts(2 * k) && log[k].after == p.counts(2 * k + 1) && log[k].before < target
    requires r.before == p.counts(2 * |log|) && r.after == p.counts(2 * |log| + 1) && r.before < target
    ensures forall k :: 0 <= k < |log + [r]| ==>
              (log + [r])[k].before == p.counts(2 * k) && (log + [r])[k].after == p.counts(2 * k + 1) &&
              (log + [r])[k].before < target
  {
    var next := log + [r];
    forall k | 0 <= k < |next|
      ensures next[k].before == p.counts(2 * k) && next[k].after == p.counts(2 * k + 1) && next[k].before < target
    {
      if k < |log| {
        assert next[k] == log[k];
      } else {
        assert next[k] == r;
      }
    }
  }

  /** Every scroll distance lies within [lo, hi]. */
  predicate DistancesWithin(log: seq<Round>, lo: int, hi: int) {
    forall k :: 0 <= k < |log| ==> lo <= log[k].distance <= hi
  }

  /** A round within the bounds keeps every distance within them. */
  lemma DistancesExtend(log: seq<Round>, r: Round, lo: int, hi: int)
    requires DistancesWithin(log, lo, hi) && lo <= r.distance <= hi
    ensures DistancesWithin(log + [r], lo, hi)
  {
    assert (log + [r])[|log|] == r;
  }

  /** Appending a round leaves the stale counter of every earlier prefix alone. */
  lemma StaleExtend(log: seq<Round>, r: Round, k: nat)
    requires k <= |log|
    ensures StaleAfter(log + [r], k) == StaleAfter(log, k)
  {
    StaleSameShape(log + [r], log, k);
  }

  /** The page decides the run: two runs on the same page with the same target
      and threshold have the same rounds, up to the random distances. */
  lemma RunDetermined(p: Page, target: int, threshold: nat, a: seq<Round>, b: seq<Round>)
    requires IsRun(p, target, threshold, a) && IsRun(p, target, threshold, b)
    ensures |a| == |b|
    ensures forall k :: 0 <= k < |a| ==> a[k].before == b[k].before && a[k].after == b[k].after
  {
    NoLongerRun(p, target, threshold, a, b);
    NoLongerRun(p, target, threshold, b, a);
  }

  /** No run on a page is longer than another run on it: where the shorter
      one stopped, the longer one would have had to stop too. */
  lemma NoLongerRun(p: Page, target: int, threshold: nat, a: seq<Round>, b: seq<Round>)
    requires IsRun(p, target, threshold, a) && IsRun(p, target, threshold, b)
    ensures |b| <= |a|
  {
    if |a| < |b| {
      StaleSameShape(a, b, |a|);
      assert false;
    }
  }

  /** The stale counter only looks at the counts of each round. */
  lemma {:induction false} StaleSameShape(a: seq<Round>, b: seq<Round>, k: nat)
    requires k <= |a| && k <= |b|
    requires forall j :: 0 <= j < k ==> a[j].before == b[j].before && a[j].after == b[j].after
    ensures StaleAfter(a, k) == StaleAfter(b, k)
  {
    if k > 0 {
      StaleSameShape(a, b, k - 1);
    }
  }

  /** A run scrolls at all exactly when the first count read is below the
      target: when the count already meets it nothing is scrolled. */
  lemma MetTargetNoRound(p: Page, target: int, threshold: nat, log: seq<Round>)
    requires IsRun(p, target, threshold, log)
    ensures log == [] <==> p.counts(0) >= target
  {
    if log != [] {
      assert log[0].before == p.counts(0);
    }
  }

  /** A count that never changes and stays below the target gives exactly
      `threshold` rounds. */
  lemma StaticCountRounds(p: Page, target: int, threshold: nat, log: seq<Round>)
    requires threshold > 0
    requires forall i: nat :: p.counts(i) == p.counts(0)
    requires p.counts(0) < target
    requires IsRun(p, target, threshold, log)
    ensures |log| == threshold
  {
    StaticStale(p, log, |log|);
    if |log| > threshold {
      StaticStale(p, log, threshold);
      assert false;
    }
  }

  lemma {:induction false} StaticStale(p: Page, log: seq<Round>, k: nat)
    requires k <= |log|
    requires forall i: nat :: p.counts(i) == p.counts(0)
    requires forall j :: 0 <= j < |log| ==> log[j].before == p.counts(2 * j) && log[j].after == p.counts(2 * j + 1)
    ensures StaleAfter(log, k) == k
  {
    if k > 0 {
      assert log[k - 1].after == p.counts(0) == log[k - 1].before;
      StaticStale(p, log, k - 1);
    }
  }

  // ---------------------------------------------------------------------------
  // Slices and failed parses
  // ---------------------------------------------------------------------------

  /** Where Python's s[:n] ends for a sequence of length len. */
  function SliceEnd(len: nat, n: int): (e: nat)
    ensures e <= len
    ensures n >= 0 ==> e == if n < len then n else len
    ensures n < 0 ==> e == if len + n > 0 then len + n else 0
  {
    if n >= len then len
    else if n >= 0 then n
    else if len + n > 0 then len + n
    else 0
  }

  /** Python's s[:n], negative n included: a prefix of s that keeps the first
      n elements (all of them when there are fewer), or for negative n drops
      the last -n (leaving nothing when there are fewer). */
  function Head<T>(s: seq<T>, n: int): (r: seq<T>)
    ensures r == s[..SliceEnd(|s|, n)]
    ensures |r| <= |s| && r == s[..|r|]
    ensures n >= 0 ==> (n <= |s| ==> |r| == n) && (n > |s| ==> r == s)
    ensures n < 0 ==> (-n <= |s| ==> |r| == |s| + n) && (-n > |s| ==> r == [])
  {
    s[..SliceEnd(|s|, n)]
  }

  /** The successful parses, in order. */
  function Somes<T>(s: seq<Option<T>>): (r: seq<T>)
    ensures |r| <= |s|
    decreases |s|
  {
    if s == [] then []
    else Somes(s[..|s| - 1]) + (if s[|s| - 1].Some? then [s[|s| - 1].value] else [])
  }

  /** A value survives exactly when it was a successful parse. */
  lemma {:induction false} SomesMembers<T>(s: seq<Option<T>>, x: T)
    ensures x in Somes(s) <==> Some(x) in s
    decreases |s|
  {
    if s != [] {
      SomesMembers(s[..|s| - 1], x);
      assert s == s[..|s| - 1] + [s[|s| - 1]];
    }
  }

  /** Dropping failures commutes with concatenation, so the survivors keep
      their relative order. */
  lemma {:induction false} SomesAppend<T>(a: seq<Option<T>>, b: seq<Option<T>>)
    ensures Somes(a + b) == Somes(a) + Somes(b)
    decreases |b|
  {
    if b == [] {
      assert a + b == a;
    } else {
      var last := b[|b| - 1];
      assert (a + b)[..|a + b| - 1] == a + b[..|b| - 1];
      SomesAppend(a, b[..|b| - 1]);
    }
  }

  /** Nothing is dropped when nothing failed. */
  lemma {:induction false} SomesAll<T>(s: seq<Option<T>>)
    requires forall i :: 0 <= i < |s| ==> s[i].Some?
    ensures |Somes(s)| == |s|
    ensures forall i :: 0 <= i < |s| ==> Somes(s)[i] == s[i].value
    decreases |s|
  {
    if s != [] {
      SomesAll(s[..|s| - 1]);
    }
  }

  /** At most n survivors come out of the first n items. */
  lemma HeadSomesBound<T>(s: seq<Option<T>>, n: int)
    ensures |Somes(Head(s, n))| <= |s|
    ensures n >= 0 ==> |Somes(Head(s, n))| <= n
  {
  }
}
