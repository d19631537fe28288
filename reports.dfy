/**
 * The aggregations of the reports page over `v2.display.reports`: for each
 * domain a list of day blocks, each with the seconds of focus per hour.
 * The three loops are methods proved against fold functions, the top-N
 * pipeline is a function, and the lemmas relate them to each other.
 */
module Reports {
  import opened Assoc
  import opened Ranking

  /** One day of one domain: its timestamp and the seconds of focus in each hour. */
  datatype Block = Block(unix: int, hourBlock: seq<int>)

  /** `reports[url]`. */
  datatype UrlReport = UrlReport(blocks: seq<Block>)

  /** The reports object, keyed by domain in for-in order. */
  type ReportMap = seq<(string, UrlReport)>

  /** One `{url, time}` of `computeMostVisited`. */
  datatype Visit = Visit(url: string, time: int)

  /** The closed range test `block.unix >= start && block.unix <= end`. */
  predicate InRange(b: Block, start: int, end: int) {
    start <= b.unix <= end
  }

  /** `hour_block.reduce((sum, s) => sum + s, 0)`. */
  function Sum(s: seq<int>): int {
    if |s| == 0 then 0 else Sum(s[..|s| - 1]) + s[|s| - 1]
  }

  /** What one block adds to a total: its seconds in milliseconds, when it lies in the range. */
  function BlockMs(b: Block, start: int, end: int): int {
    if InRange(b, start, end) then Sum(b.hourBlock) * 1000 else 0
  }

  /** The milliseconds of focus of one domain's blocks in the range. */
  function UrlFocus(blocks: seq<Block>, start: int, end: int): int {
    if |blocks| == 0 then 0
    else UrlFocus(blocks[..|blocks| - 1], start, end) + BlockMs(blocks[|blocks| - 1], start, end)
  }

  /** The milliseconds of focus of all domains in the range. */
  function FocusSum(reports: ReportMap, start: int, end: int): int {
    if |reports| == 0 then 0
    else FocusSum(reports[..|reports| - 1], start, end) + UrlFocus(reports[|reports| - 1].1.blocks, start, end)
  }

  /** The domains with a positive total in the range, each with that total, in for-in order. */
  function FocusByURL(reports: ReportMap, start: int, end: int): Assoc<int> {
    if |reports| == 0 then []
    else
      var last := reports[|reports| - 1];
      var t := UrlFocus(last.1.blocks, start, end);
      FocusByURL(reports[..|reports| - 1], start, end) + (if t > 0 then [(last.0, t)] else [])
  }

  /** Some hour of the block has a positive count (`hour_block.some(s => s > 0)`). */
  predicate HasActivity(b: Block) {
    exists h :: 0 <= h < |b.hourBlock| && b.hourBlock[h] > 0
  }

  /** Some block of the domain lies in the range and has activity. */
  predicate Active(blocks: seq<Block>, start: int, end: int) {
    exists k :: 0 <= k < |blocks| && InRange(blocks[k], start, end) && HasActivity(blocks[k])
  }

  /** The number of domains with activity in the range. */
  function TotalSites(reports: ReportMap, start: int, end: int): nat {
    if |reports| == 0 then 0
    else TotalSites(reports[..|reports| - 1], start, end) + (if Active(reports[|reports| - 1].1.blocks, start, end) then 1 else 0)
  }

  /**
   * `slice(0, limit)` on n entries: a negative limit counts back from the
   * end, and the result is clamped to [0, n].
   */
  function SliceEnd(limit: int, n: nat): (e: nat)
    ensures e <= n
    ensures limit >= 0 ==> e <= limit
  {
    if limit < 0 then (if n + limit < 0 then 0 else n + limit)
    else if limit < n then limit else n
  }

  /** `computeMostVisited`: the per-domain totals sorted by descending time, cut to `limit`. */
  function MostVisited(reports: ReportMap, start: int, end: int, limit: int): seq<Visit> {
    var ranked := SortByValueDesc(FocusByURL(reports, start, end));
    var top := ranked[..SliceEnd(limit, |ranked|)];
    seq(|top|, k requires 0 <= k < |top| => Visit(top[k].0, top[k].1))
  }

  // ---------------------------------------------------------------------------
  // The loops

  /** The block loop shared by `computeFocusSum` and `computeFocusSumByURL`. */
  method AddBlocks(total: int, blocks: seq<Block>, start: int, end: int) returns (r: int)
    ensures r == total + UrlFocus(blocks, start, end)
  {
    r := total;
    for j := 0 to |blocks|
      invariant r == total + UrlFocus(blocks[..j], start, end)
    {
      assert blocks[..j + 1][..j] == blocks[..j];
      var block := blocks[j];
      if block.unix >= start && block.unix <= end {
        var blockSeconds := SumHours(block.hourBlock);
        r := r + blockSeconds * 1000;
      }
    }
    assert blocks[..|blocks|] == blocks;
  }

  /** The `reduce` over one hour block. */
  method SumHours(hours: seq<int>) returns (sum: int)
    ensures sum == Sum(hours)
  {
    sum := 0;
    for h := 0 to |hours|
      invariant sum == Sum(hours[..h])
    {
      assert hours[..h + 1][..h] == hours[..h];
      sum := sum + hours[h];
    }
    assert hours[..|hours|] == hours;
  }

  /** `computeFocusSum`. */
  method ComputeFocusSum(reports: ReportMap, start: int, end: int) returns (totalMs: int)
    ensures totalMs == FocusSum(reports, start, end)
  {
    totalMs := 0;
    for i := 0 to |reports|
      invariant totalMs == FocusSum(reports[..i], start, end)
    {
      assert reports[..i + 1][..i] == reports[..i];
      totalMs := AddBlocks(totalMs, reports[i].1.blocks, start, end);
    }
    assert reports[..|reports|] == reports;
  }

  /** `computeFocusSumByURL`; the result is built by appending, as the keys of `reports` are distinct. */
  method ComputeFocusSumByURL(reports: ReportMap, start: int, end: int) returns (focusByURL: Assoc<int>)
    ensures focusByURL == FocusByURL(reports, start, end)
  {
    focusByURL := [];
    for i := 0 to |reports|
      invariant focusByURL == FocusByURL(reports[..i], start, end)
    {
      assert reports[..i + 1][..i] == reports[..i];
      var urlTotal := AddBlocks(0, reports[i].1.blocks, start, end);
      if urlTotal > 0 {
        focusByURL := focusByURL + [(reports[i].0, urlTotal)];
      }
    }
    assert reports[..|reports|] == reports;
  }

  /** `computeTotalSites`: the block loop stops at the first active block of a domain. */
  method ComputeTotalSites(reports: ReportMap, start: int, end: int) returns (count: nat)
    ensures count == TotalSites(reports, start, end)
  {
    count := 0;
    for i := 0 to |reports|
      invariant count == TotalSites(reports[..i], start, end)
    {
      assert reports[..i + 1][..i] == reports[..i];
      var blocks := reports[i].1.blocks;
      var j := 0;
      while j < |blocks|
        invariant 0 <= j <= |blocks|
        invariant forall k :: 0 <= k < j ==> !(InRange(blocks[k], start, end) && HasActivity(blocks[k]))
      {
        var block := blocks[j];
        if block.unix >= start && block.unix <= end {
          var hasActivity := AnyPositive(block.hourBlock);
          if hasActivity {
            count := count + 1;
            break;
          }
        }
        j := j + 1;
      }
    }
    assert reports[..|reports|] == reports;
  }

  /** `hour_block.some(s => s > 0)`. */
  method AnyPositive(hours: seq<int>) returns (found: bool)
    ensures found <==> exists h :: 0 <= h < |hours| && hours[h] > 0
  {
    for h := 0 to |hours|
      invariant forall k :: 0 <= k < h ==> hours[k] <= 0
    {
      if hours[h] > 0 {
        return true;
      }
    }
    return false;
  }

  // ---------------------------------------------------------------------------
  // What the aggregations promise

  /** No hour of the block is negative. */
  predicate NonNegativeHours(b: Block) {
    forall h :: 0 <= h < |b.hourBlock| ==> b.hourBlock[h] >= 0
  }

  /** No hour of any block is negative. */
  predicate NonNegative(reports: ReportMap) {
    forall i, k :: 0 <= i < |reports| && 0 <= k < |reports[i].1.blocks| ==> NonNegativeHours(reports[i].1.blocks[k])
  }

  /** An empty range (start after end) yields 0, `{}`, `[]` and 0. */
  lemma {:induction false} EmptyRange(reports: ReportMap, start: int, end: int, limit: int)
    requires start > end
    ensures FocusSum(reports, start, end) == 0
    ensures FocusByURL(reports, start, end) == []
    ensures MostVisited(reports, start, end, limit) == []
    ensures TotalSites(reports, start, end) == 0
  {
    if |reports| > 0 {
      var init := reports[..|reports| - 1];
      EmptyRange(init, start, end, limit);
      EmptyRangeNoFocus(reports[|reports| - 1].1.blocks, start, end);
    }
  }

  lemma {:induction false} EmptyRangeNoFocus(blocks: seq<Block>, start: int, end: int)
    requires start > end
    ensures UrlFocus(blocks, start, end) == 0
    ensures !Active(blocks, start, end)
  {
    if |blocks| > 0 {
      EmptyRangeNoFocus(blocks[..|blocks| - 1], start, end);
    }
  }

  /**
   * `computeFocusSumByURL` holds exactly the domains whose total in the
   * range is positive, each with that total; keys stay distinct.
   */
  lemma FocusByURLEntries(reports: ReportMap, start: int, end: int)
    ensures var r := FocusByURL(reports, start, end);
      forall e :: e in r <==>
        exists i :: 0 <= i < |reports| && e == (reports[i].0, UrlFocus(reports[i].1.blocks, start, end)) && e.1 > 0
    ensures UniqueKeys(reports) ==> UniqueKeys(FocusByURL(reports, start, end))
  {
    FocusByURLMembers(reports, start, end);
    if UniqueKeys(reports) {
      FocusByURLUnique(reports, start, end);
    }
  }

  lemma {:induction false} FocusByURLMembers(reports: ReportMap, start: int, end: int)
    ensures var r := FocusByURL(reports, start, end);
      forall e :: e in r <==>
        exists i :: 0 <= i < |reports| && e == (reports[i].0, UrlFocus(reports[i].1.blocks, start, end)) && e.1 > 0
  {
    if |reports| > 0 {
      var init := reports[..|reports| - 1];
      var last := reports[|reports| - 1];
      FocusByURLMembers(init, start, end);
      var r := FocusByURL(reports, start, end);
      var r0 := FocusByURL(init, start, end);
      forall e ensures e in r <==>
        exists i :: 0 <= i < |reports| && e == (reports[i].0, UrlFocus(reports[i].1.blocks, start, end)) && e.1 > 0
      {
        if e in r && e !in r0 {
          assert e == (last.0, UrlFocus(last.1.blocks, start, end));
          assert reports[|reports| - 1] == last;
        }
        if e in r0 {
          var i :| 0 <= i < |init| && e == (init[i].0, UrlFocus(init[i].1.blocks, start, end)) && e.1 > 0;
          assert reports[i] == init[i];
        }
        if exists i :: 0 <= i < |reports| && e == (reports[i].0, UrlFocus(reports[i].1.blocks, start, end)) && e.1 > 0 {
          var i :| 0 <= i < |reports| && e == (reports[i].0, UrlFocus(reports[i].1.blocks, start, end)) && e.1 > 0;
          if i < |init| {
            assert init[i] == reports[i];
          }
        }
      }
    }
  }

  lemma {:induction false} FocusByURLUnique(reports: ReportMap, start: int, end: int)
    requires UniqueKeys(reports)
    ensures UniqueKeys(FocusByURL(reports, start, end))
  {
    if |reports| > 0 {
      var init := reports[..|reports| - 1];
      var last := reports[|reports| - 1];
      UniquePrefix(reports);
      FocusByURLUnique(init, start, end);
      FocusByURLMembers(init, start, end);
      var r0 := FocusByURL(init, start, end);
      forall k | 0 <= k < |r0| ensures r0[k].0 != last.0 {
        assert r0[k] in r0;
        var i :| 0 <= i < |init| && r0[k] == (init[i].0, UrlFocus(init[i].1.blocks, start, end)) && r0[k].1 > 0;
        assert reports[i] == init[i];
      }
      AppendUnique(r0, last.0, UrlFocus(last.1.blocks, start, end));
    }
  }

  lemma UniquePrefix(reports: ReportMap)
    requires |reports| > 0 && UniqueKeys(reports)
    ensures UniqueKeys(reports[..|reports| - 1])
    ensures forall i :: 0 <= i < |reports| - 1 ==> reports[i].0 != reports[|reports| - 1].0
  {
    var init := reports[..|reports| - 1];
    forall i, j | 0 <= i < j < |init| ensures init[i].0 != init[j].0 {
      assert init[i] == reports[i] && init[j] == reports[j];
    }
  }

  lemma AppendUnique<V>(a: Assoc<V>, k: string, v: V)
    requires UniqueKeys(a)
    requires forall i :: 0 <= i < |a| ==> a[i].0 != k
    ensures UniqueKeys(a + [(k, v)])
  {
  }

  /** With no negative hour, the reduce is non-negative and positive exactly when some hour is. */
  lemma {:induction false} SumPositive(s: seq<int>)
    requires forall h :: 0 <= h < |s| ==> s[h] >= 0
    ensures Sum(s) >= 0
    ensures Sum(s) > 0 <==> exists h :: 0 <= h < |s| && s[h] > 0
  {
    if |s| > 0 {
      var init := s[..|s| - 1];
      SumPositive(init);
      if exists h :: 0 <= h < |init| && init[h] > 0 {
        var h :| 0 <= h < |init| && init[h] > 0;
        assert s[h] == init[h];
      }
      if exists h :: 0 <= h < |s| && s[h] > 0 {
        var h :| 0 <= h < |s| && s[h] > 0;
        if h < |init| {
          assert init[h] == s[h];
        }
      }
    }
  }

  /** With no negative hour, a domain's total is non-negative and positive exactly when it is active. */
  lemma {:induction false} UrlFocusPositive(blocks: seq<Block>, start: int, end: int)
    requires forall k :: 0 <= k < |blocks| ==> NonNegativeHours(blocks[k])
    ensures UrlFocus(blocks, start, end) >= 0
    ensures UrlFocus(blocks, start, end) > 0 <==> Active(blocks, start, end)
  {
    if |blocks| > 0 {
      var init := blocks[..|blocks| - 1];
      var last := blocks[|blocks| - 1];
      UrlFocusPositive(init, start, end);
      SumPositive(last.hourBlock);
      if Active(init, start, end) {
        var k :| 0 <= k < |init| && InRange(init[k], start, end) && HasActivity(init[k]);
        assert blocks[k] == init[k];
      }
      if Active(blocks, start, end) {
        var k :| 0 <= k < |blocks| && InRange(blocks[k], start, end) && HasActivity(blocks[k]);
        if k < |init| {
          assert init[k] == blocks[k];
        }
      }
    }
  }

  /**
   * With no negative hour, `computeFocusSum` is the sum of the values of
   * `computeFocusSumByURL`: the domains it leaves out contribute nothing.
   */
  lemma {:induction false} FocusSumIsSumByURL(reports: ReportMap, start: int, end: int)
    requires NonNegative(reports)
    ensures FocusSum(reports, start, end) == SumValues(FocusByURL(reports, start, end))
  {
    if |reports| > 0 {
      var init := reports[..|reports| - 1];
      var last := reports[|reports| - 1];
      assert NonNegative(init) by {
        forall i, k | 0 <= i < |init| && 0 <= k < |init[i].1.blocks| ensures NonNegativeHours(init[i].1.blocks[k]) {
          assert init[i] == reports[i];
        }
      }
      FocusSumIsSumByURL(init, start, end);
      UrlFocusPositive(last.1.blocks, start, end);
      var r0 := FocusByURL(init, start, end);
      var t := UrlFocus(last.1.blocks, start, end);
      if t > 0 {
        assert (r0 + [(last.0, t)])[..|r0|] == r0;
      } else {
        assert r0 + [] == r0;
      }
    }
  }

  /**
   * With no negative hour, `computeTotalSites` counts exactly the domains
   * `computeFocusSumByURL` lists; it never exceeds the number of domains.
   */
  lemma {:induction false} TotalSitesCountsByURL(reports: ReportMap, start: int, end: int)
    requires NonNegative(reports)
    ensures TotalSites(reports, start, end) == |FocusByURL(reports, start, end)|
    ensures TotalSites(reports, start, end) <= |reports|
  {
    if |reports| > 0 {
      var init := reports[..|reports| - 1];
      var last := reports[|reports| - 1];
      assert NonNegative(init) by {
        forall i, k | 0 <= i < |init| && 0 <= k < |init[i].1.blocks| ensures NonNegativeHours(init[i].1.blocks[k]) {
          assert init[i] == reports[i];
        }
      }
      TotalSitesCountsByURL(init, start, end);
      UrlFocusPositive(last.1.blocks, start, end);
    }
  }

  /** The `(url, time)` pairs of a list of visits. */
  function Pairs(visits: seq<Visit>): seq<(string, int)> {
    seq(|visits|, k requires 0 <= k < |visits| => (visits[k].url, visits[k].time))
  }

  /**
   * `computeMostVisited`: `min(limit, n)` entries of the n per-domain
   * totals (counted back from the end for a negative limit), by descending
   * time. Together they are a sub-multiset of those totals, so no total is
   * listed twice, and every total left out is at most the last one listed;
   * the first is the largest of them.
   */
  lemma MostVisitedRanks(reports: ReportMap, start: int, end: int, limit: int)
    ensures var r := MostVisited(reports, start, end, limit);
      |r| == SliceEnd(limit, |FocusByURL(reports, start, end)|) && (limit >= 0 ==> |r| <= limit)
    ensures var r := MostVisited(reports, start, end, limit);
      forall i, j :: 0 <= i < j < |r| ==> r[i].time >= r[j].time
    ensures var r := MostVisited(reports, start, end, limit);
      forall k :: 0 <= k < |r| ==> (r[k].url, r[k].time) in FocusByURL(reports, start, end)
    ensures var r := MostVisited(reports, start, end, limit);
      |r| > 0 ==> forall e :: e in FocusByURL(reports, start, end) ==> e.1 <= r[0].time
    ensures var byUrl := FocusByURL(reports, start, end);
      multiset(Pairs(MostVisited(reports, start, end, limit))) <= multiset(byUrl)
    ensures var byUrl := FocusByURL(reports, start, end);
      var r := MostVisited(reports, start, end, limit);
      |r| > 0 ==> forall e :: e in multiset(byUrl) - multiset(Pairs(r)) ==> e.1 <= r[|r| - 1].time
  {
    MostVisitedOrder(reports, start, end, limit);
    MostVisitedTop(reports, start, end, limit);
  }

  /** Length, order and membership: the first four clauses of `MostVisitedRanks`. */
  lemma MostVisitedOrder(reports: ReportMap, start: int, end: int, limit: int)
    ensures var r := MostVisited(reports, start, end, limit);
      |r| == SliceEnd(limit, |FocusByURL(reports, start, end)|) && (limit >= 0 ==> |r| <= limit)
    ensures var r := MostVisited(reports, start, end, limit);
      forall i, j :: 0 <= i < j < |r| ==> r[i].time >= r[j].time
    ensures var r := MostVisited(reports, start, end, limit);
      forall k :: 0 <= k < |r| ==> (r[k].url, r[k].time) in FocusByURL(reports, start, end)
    ensures var r := MostVisited(reports, start, end, limit);
      |r| > 0 ==> forall e :: e in FocusByURL(reports, start, end) ==> e.1 <= r[0].time
  {
    var byUrl := FocusByURL(reports, start, end);
    var ranked := SortByValueDesc(byUrl);
    SortIsDescendingPermutation(byUrl);
    var r := MostVisited(reports, start, end, limit);
    forall k | 0 <= k < |r| ensures (r[k].url, r[k].time) in byUrl {
      assert (r[k].url, r[k].time) == ranked[k];
      assert ranked[k] in multiset(ranked);
    }
    if |r| > 0 {
      forall e | e in byUrl ensures e.1 <= r[0].time {
        SortedHeadIsMax(byUrl, e);
      }
    }
  }

  /** The cut keeps the largest totals: the two multiset clauses of `MostVisitedRanks`. */
  lemma MostVisitedTop(reports: ReportMap, start: int, end: int, limit: int)
    ensures var byUrl := FocusByURL(reports, start, end);
      multiset(Pairs(MostVisited(reports, start, end, limit))) <= multiset(byUrl)
    ensures var byUrl := FocusByURL(reports, start, end);
      var r := MostVisited(reports, start, end, limit);
      |r| > 0 ==> forall e :: e in multiset(byUrl) - multiset(Pairs(r)) ==> e.1 <= r[|r| - 1].time
  {
    var byUrl := FocusByURL(reports, start, end);
    var ranked := SortByValueDesc(byUrl);
    SortIsDescendingPermutation(byUrl);
    var r := MostVisited(reports, start, end, limit);
    var n := SliceEnd(limit, |ranked|);
    assert Pairs(r) == ranked[..n];
    PrefixHoldsLargest(ranked, byUrl, n);
    if |r| > 0 {
      assert |r| == n;
      assert Pairs(r)[n - 1] == (r[n - 1].url, r[n - 1].time);
      assert ranked[..n][n - 1] == ranked[n - 1];
      var left := multiset(byUrl) - multiset(Pairs(r));
      assert forall e :: e in left ==> e.1 <= ranked[n - 1].1;
    }
  }
}
