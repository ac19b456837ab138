/**
 * The scroll loop of `scrape_business_data`: scroll the results panel, count
 * the place links now on the page, and stop once there are enough of them or
 * once a scroll brought no new ones.
 *
 * The browser is replaced by the readings it would give: `readings[n]` lists
 * the place-link elements on the page, in document order, after scroll
 * number `n + 1`. A finite sequence of readings may run out before the loop
 * stops; the outcome then says the list was still growing.
 */
module Listings {

  /** A place-link element of the results page, by identity. */
  type Element = nat

  /**
   * What a listing is clicked through: the place link itself, or (when the
   * target count was reached) its parent element, `listing.locator("xpath=..")`.
   */
  datatype Handle = Anchor(element: Element) | Container(element: Element)

  /** How the scroll loop ended. */
  datatype Collected =
    | TargetReached(handles: seq<Handle>)   // `count >= total`: the first `total` links, as their parents
    | AllAvailable(handles: seq<Handle>)    // the count did not change: the links themselves
    | StillGrowing                          // the readings ran out while the list was still growing

  /** Python's `s[:n]`, negative `n` included. */
  function Prefix<T>(s: seq<T>, n: int): (r: seq<T>)
    ensures r <= s
    ensures 0 <= n <= |s| ==> |r| == n
    ensures n >= |s| ==> r == s
    ensures n < 0 ==> |r| == if |s| + n < 0 then 0 else |s| + n
  {
    if n >= |s| then s
    else if n >= 0 then s[..n]
    else if |s| + n < 0 then []
    else s[..|s| + n]
  }

  /** `[listing.locator("xpath=..") for listing in listings]`. */
  function Parents(es: seq<Element>): (r: seq<Handle>)
    ensures |r| == |es|
    ensures forall i :: 0 <= i < |es| ==> r[i] == Container(es[i])
  {
    if es == [] then [] else [Container(es[0])] + Parents(es[1..])
  }

  /** The links as they are, without moving to their parents. */
  function Anchors(es: seq<Element>): (r: seq<Handle>)
    ensures |r| == |es|
    ensures forall i :: 0 <= i < |es| ==> r[i] == Anchor(es[i])
  {
    if es == [] then [] else [Anchor(es[0])] + Anchors(es[1..])
  }

  /** `previously_counted` before reading number `n`: 0 at first, then the count of the reading before. */
  function Previous(readings: seq<seq<Element>>, n: nat): nat
    requires n <= |readings|
  {
    if n == 0 then 0 else |readings[n - 1]|
  }

  /** Reading `n` sends the loop round again: fewer links than wanted, and more or fewer than last time. */
  predicate Continues(readings: seq<seq<Element>>, total: int, n: nat)
    requires n < |readings|
  {
    |readings[n]| < total && |readings[n]| != Previous(readings, n)
  }

  /**
   * The handles the loop leaves with when reading `n` stops it: the parents of
   * the first `total` links when there are enough, else every link as it is.
   */
  function StopHandles(readings: seq<seq<Element>>, total: int, n: nat): (r: seq<Handle>)
    requires n < |readings|
    ensures |readings[n]| >= total && total >= 0 ==> |r| == total
    ensures |readings[n]| < total ==> |r| == |readings[n]|
    ensures |r| <= |readings[n]|
    ensures |readings[n]| >= total ==> forall i :: 0 <= i < |r| ==> r[i] == Container(readings[n][i])
    ensures |readings[n]| < total ==> forall i :: 0 <= i < |r| ==> r[i] == Anchor(readings[n][i])
  {
    if |readings[n]| >= total then Parents(Prefix(readings[n], total)) else Anchors(readings[n])
  }

  /**
   * The loop of scraper.py:105-122 over the given readings. `scrolls` is the
   * number of scrolls made: the loop always scrolls before it counts, so a
   * finished loop has scrolled at least once.
   */
  method CollectListings(readings: seq<seq<Element>>, total: int) returns (c: Collected, scrolls: nat)
    ensures scrolls <= |readings|
    ensures scrolls >= 1 ==> AllContinue(readings, total, scrolls - 1)
    ensures c.StillGrowing? <==> AllContinue(readings, total, |readings|)
    ensures c.StillGrowing? ==> scrolls == |readings|
    ensures !c.StillGrowing? ==> 1 <= scrolls && !Continues(readings, total, scrolls - 1)
    ensures c.TargetReached? <==> !c.StillGrowing? && |readings[scrolls - 1]| >= total
    ensures !c.StillGrowing? ==> c.handles == StopHandles(readings, total, scrolls - 1)
    ensures c.TargetReached? ==> c.handles == Parents(Prefix(readings[scrolls - 1], total))
    ensures c.AllAvailable? ==> c.handles == Anchors(readings[scrolls - 1])
    ensures c.AllAvailable? ==> |readings[scrolls - 1]| == Previous(readings, scrolls - 1)
    ensures c.TargetReached? && total >= 0 ==> |c.handles| == total
    ensures c.AllAvailable? ==> |c.handles| < total
  {
    var previouslyCounted := 0;
    scrolls := 0;
    while scrolls < |readings|
      invariant scrolls <= |readings|
      invariant AllContinue(readings, total, scrolls)
      invariant previouslyCounted == Previous(readings, scrolls)
      decreases |readings| - scrolls
    {
      var found := readings[scrolls];
      scrolls := scrolls + 1;
      assert found == readings[scrolls - 1];
      if |found| >= total {
        assert !Continues(readings, total, scrolls - 1);
        c := TargetReached(Parents(Prefix(found, total)));
        return;
      } else if |found| == previouslyCounted {
        assert !Continues(readings, total, scrolls - 1);
        c := AllAvailable(Anchors(Prefix(found, total)));
        return;
      }
      previouslyCounted := |found|;
    }
    c := StillGrowing;
  }

  /** Every reading the loop read before the last one sent it round again. */
  predicate AllContinue(readings: seq<seq<Element>>, total: int, upto: nat)
    requires upto <= |readings|
  {
    forall n :: 0 <= n < upto ==> Continues(readings, total, n)
  }

  /** The page never loses links: each reading has at least as many as the one before. */
  predicate NeverShrinks(readings: seq<seq<Element>>) {
    forall n :: 0 < n < |readings| ==> |readings[n - 1]| <= |readings[n]|
  }

  /** While the loop keeps going on readings that never shrink, each scroll adds at least one link. */
  lemma {:induction false} ContinuingGrows(readings: seq<seq<Element>>, total: int, n: nat)
    requires NeverShrinks(readings) && n < |readings| && AllContinue(readings, total, n + 1)
    ensures |readings[n]| >= n + 1
  {
    assert Continues(readings, total, n);
    if n > 0 {
      ContinuingGrows(readings, total, n - 1);
    }
  }

  /**
   * Termination: on a page whose link count never shrinks, the loop stops
   * within `max(total, 1)` scrolls, by reaching the target or by a scroll
   * that added nothing.
   */
  lemma StopsWithinTotal(readings: seq<seq<Element>>, total: int)
    requires NeverShrinks(readings)
    requires |readings| >= total && |readings| > 0
    ensures exists n :: 0 <= n < |readings| && n < (if total > 1 then total else 1) &&
                        !Continues(readings, total, n)
  {
    var bound := if total > 1 then total else 1;
    var n := 0;
    while n < bound && Continues(readings, total, n)
      invariant 0 <= n <= bound && AllContinue(readings, total, n)
      decreases bound - n
    {
      n := n + 1;
    }
    if n == bound {
      ContinuingGrows(readings, total, bound - 1);
      assert !Continues(readings, total, bound - 1);
    }
  }
}
